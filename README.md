# Mixture texture-to-graph registry

A model of `MixtureDatabase`, the registry Mixture uses to answer "which
graph produced this texture?". The registry keeps one shared table from
textures to graphs. The table is filled lazily, in one of two ways:

- **In the editor**, every asset found by the `t:Texture2D` search is loaded
  as a texture and resolved to the first graph stored in the same asset file.
  Other kinds of texture asset are never scanned. A texture with a graph is
  added with `Dictionary.Add`, which fails on a key that is already there; a
  texture without one is skipped.
- **In a deployed build**, the two graph lists of the serialized database
  asset are walked, real-time graphs first and then static ones. Every output
  texture of each graph is written with `graphMap[t] = graph`, so the last
  write wins.

Lookups return null for a null texture. In the editor they bypass the table.
In a deployed build they load the database asset on first use and then look
the texture up in the table, with null on a miss.

Files:

- `Assets.dfy`: textures, graphs and the database asset as objects with
  identity, the editor's asset store as a value, and the editor resolution
  (`FirstGraph`, `ResolveInEditor`).
- `Builds.dfy`: both builds as functions of the table before the build
  (`DeployedBuild`, `EditorScan`), with the lemmas that state what they
  guarantee.
- `Database.dfy`: the class `Registry`. It holds the state the C# class keeps
  in static fields: the shared map and the loaded `instance`. It also holds
  `log`, which stands for the engine console that `Debug.LogError` writes to;
  the C# class has no such field. Its methods run the source's loops in
  place and are proved against the functions of `Builds.dfy`.

Modelling decisions:

- As written, the deployed branch of the static `GetGraphMap` reads the
  instance fields `realtimeGraphs` and `staticGraphs`, and the lookup reads
  the static `graphMap` through `instance`; neither compiles in C#. The model
  follows the evident intent. The two lists belong to a database asset
  (`Assets.MixtureDatabase`) and there is one shared map. `GetGraphMap` takes
  the database whose lists it walks. Loading the asset enables it, and its
  `OnEnable` builds from that asset's lists. `GetAllGraphs` builds from the
  loaded `instance`. In a deployed build it does nothing while no asset is
  loaded. This is a choice the model makes: read as `instance.realtimeGraphs`,
  the source would dereference null there, and the model picks the no-op over
  that null dereference.
- `#if UNITY_EDITOR` becomes a mode fixed when the registry is constructed.
- The shared `Dictionary` is the object `Database.GraphMap`. `GetAllGraphs`
  returns that object itself, so a holder sees later builds.
- `Dictionary.Add` throwing on a duplicate key becomes the returned status
  `DuplicateKey(t)`. The entries added before the failure stay.
- Nothing records a failed load of the database asset, so every lookup that
  finds no loaded asset logs the error again (`MissingDatabaseLookups`).

## Model

| member | source | states |
|---|---|---|
| `Assets.FirstGraph` | Packages/com.alelievr.mixture/Runtime/Utils/MixtureDatabase.cs:81 | null exactly when no sub-asset is a graph; otherwise the graph of the first sub-asset that is one |
| `Assets.ResolveInEditor` | Packages/com.alelievr.mixture/Runtime/Utils/MixtureDatabase.cs:73-83 | null exactly when the texture is null, its asset path is empty, or no graph is stored at that path; otherwise the first graph stored at the texture's path |
| `Builds.AddTexturesAt` | Packages/com.alelievr.mixture/Runtime/Utils/MixtureDatabase.cs:48-52 | after the local `AddGraph`, every output texture of the graph maps to it, and every other key keeps its value |
| `Builds.AddGraphsAt` | Packages/com.alelievr.mixture/Runtime/Utils/MixtureDatabase.cs:43-46 | walking a graph list: a key is present afterwards iff it was before or some graph declares it; a declared key maps to the last graph declaring it; other keys keep their values |
| `Builds.DeployedBuildIsOneWalk` | Packages/com.alelievr.mixture/Runtime/Utils/MixtureDatabase.cs:43-46 | the deployed build is one walk over the real-time list followed by the static list |
| `Builds.DeployedBuildAt` | Packages/com.alelievr.mixture/Runtime/Utils/MixtureDatabase.cs:43-52 | coverage and nothing removed (key present iff it was before or declared by a graph of either list); last write wins (a declared key maps to the last declaring graph in visiting order, a graph that lists that key); undeclared keys unchanged |
| `Builds.StaticGraphsWin` | Packages/com.alelievr.mixture/Runtime/Utils/MixtureDatabase.cs:43-46 | a texture declared by a static graph maps to the last static graph declaring it; one declared only by real-time graphs maps to the last of those |
| `Builds.DeployedBuildIdempotent` | Packages/com.alelievr.mixture/Runtime/Utils/MixtureDatabase.cs:43-52 | a second deployed build over the same database leaves the table as the first one left it |
| `Builds.DeployedLookup` | Packages/com.alelievr.mixture/Runtime/Utils/MixtureDatabase.cs:97-98 | after a deployed build from an empty table, a lookup gives null iff no graph declares the texture, and otherwise the last graph that declares it |
| `Builds.EditorScanStopsAtDuplicate` | Packages/com.alelievr.mixture/Runtime/Utils/MixtureDatabase.cs:30-40 | once `Add` has failed, the rest of the editor walk changes nothing |
| `Builds.EditorScanValues` | Packages/com.alelievr.mixture/Runtime/Utils/MixtureDatabase.cs:34-39 | the editor build never removes or changes an entry; each entry it adds is a texture of the walk mapped to the graph it resolves to |
| `Builds.EditorScanCompletedKeys` | Packages/com.alelievr.mixture/Runtime/Utils/MixtureDatabase.cs:30-40 | a completed editor build adds exactly the textures of the walk that resolve to a non-null graph |
| `Builds.EditorScanCompletesIff` | Packages/com.alelievr.mixture/Runtime/Utils/MixtureDatabase.cs:36-39 | the editor build completes iff no texture that resolves to a graph is already a key or met earlier in the walk |
| `Builds.EditorScanDuplicate` | Packages/com.alelievr.mixture/Runtime/Utils/MixtureDatabase.cs:36-39 | a failed editor build fails at a position holding a texture that resolves to a graph and was already present; the table is what the walk up to that position built |
| `Builds.EditorRebuildFails` | Packages/com.alelievr.mixture/Runtime/Utils/MixtureDatabase.cs:20-40 | running the editor build again on the table of a completed build that recorded a texture fails with a duplicate key |
| `Database.Registry.constructor` | Packages/com.alelievr.mixture/Runtime/Utils/MixtureDatabase.cs:13-18 | starts with no loaded instance, an empty shared map and an empty log |
| `Database.Registry.AddGraph` | Packages/com.alelievr.mixture/Runtime/Utils/MixtureDatabase.cs:48-52 | the loop leaves the shared map equal to `Builds.AddGraph` of the old map |
| `Database.Registry.BuildFromLists` | Packages/com.alelievr.mixture/Runtime/Utils/MixtureDatabase.cs:43-46 | the two loops leave the shared map equal to `DeployedBuild` of the old map |
| `Database.Registry.ScanAssetStore` | Packages/com.alelievr.mixture/Runtime/Utils/MixtureDatabase.cs:29-40 | the loop, which stops when `Add` fails, leaves the shared map and status equal to `EditorScan` of the old map over the asset store's textures |
| `Database.Registry.GetGraphMap` | Packages/com.alelievr.mixture/Runtime/Utils/MixtureDatabase.cs:25-54 | the editor scan in editor mode; in deployed mode the walk over the given database's lists, or nothing without one |
| `Database.Registry.GetAllGraphs` | Packages/com.alelievr.mixture/Runtime/Utils/MixtureDatabase.cs:56-64 | returns the shared map object; a non-empty map is left unchanged; an empty one is built first; the registry invariant is kept |
| `Database.Registry.GetGraphFromTexture` | Packages/com.alelievr.mixture/Runtime/Utils/MixtureDatabase.cs:71-100 | null for a null texture; editor: the editor resolution, nothing changed; deployed: a loaded instance is never reloaded; a missing asset logs the error, returns null and leaves `instance` null; a load runs the build; the answer is the table entry or null |
| `Database.MissingDatabaseLookups` | Packages/com.alelievr.mixture/Runtime/Utils/MixtureDatabase.cs:87-94 | with the database asset missing, two lookups both return null and log the error twice |
| `Database.FirstDeployedLookup` | Packages/com.alelievr.mixture/Runtime/Utils/MixtureDatabase.cs:87-98 | the first deployed lookup with the asset present gives null iff no graph declares the texture, and otherwise the last graph declaring it |

The lemma and method rows above are stated in terms of these plain
definitions, which carry no contract of their own:

- `Builds.AddTextures` and `Builds.AddGraph` (MixtureDatabase.cs:48-52): the local `AddGraph`, writing `table[t] := graph` for each output texture in order.
- `Builds.AddGraphs` (MixtureDatabase.cs:43-46): one `foreach` over a graph list, calling `AddGraph` on each graph in order.
- `Builds.DeployedBuild` (MixtureDatabase.cs:43-46): the walk over `realtimeGraphs`, then over `staticGraphs`.
- `Assets.MixtureDatabase.AllGraphs` (MixtureDatabase.cs:43-46): the two lists concatenated, which is the order the deployed build visits graphs.
- `Builds.EditorScan` (MixtureDatabase.cs:29-40): the editor walk. A texture that resolves to no graph is skipped, a new one is added, and one already present ends the walk with `DuplicateKey`.
- `Builds.Lookup` (MixtureDatabase.cs:97): `TryGetValue`, giving null on a miss.
- `Database.Registry.LoadDatabase` (MixtureDatabase.cs:89): `Resources.Load` of the asset at `"Mixture/Database"`, giving null when it is absent.
- `Assets.AssetStore.AssetPath` and `Assets.AssetStore.LoadAllAssetsAtPath` (MixtureDatabase.cs:78-81): the editor asset database's `GetAssetPath` and `LoadAllAssetsAtPath`.

`Database.Registry.Valid` is the invariant the registry's lookup methods keep.
In the editor, no asset is loaded and every entry maps a texture of the asset
store to the graph it resolves to. In a deployed build, the table is empty
until the asset is loaded, and afterwards it is the deployed build of the
asset's lists.

## Left out

- Packages/com.alelievr.mixture/Runtime/Nodes/Operators/NormalBlend.cs is not part of this model. It only overrides constants (name, shader name, an empty filtered-property list, Texture2D as the only dimension); the blending itself is an external shader.
- `AssetDatabase.FindAssets`, `GUIDToAssetPath` and `LoadAssetAtPath` are folded into one given sequence, `AssetStore.textures`. `GetAssetPath` and `LoadAllAssetsAtPath` are given maps, and `Resources.Load` is a given map from resource path to asset. None of them is modelled further, because they are the engine's asset I/O.
- `GetAssetPath` returning null is not told apart from it returning the empty string. `String.IsNullOrEmpty` treats both the same.
- `Debug.LogError` is modelled only as appending the message to `Registry.log`.
- Unity's overloaded `== null` for destroyed objects is not modelled; null is plain null. The `ScriptableObject` lifecycle is reduced to the single `OnEnable` build that runs when the lookup loads the asset. Other times the engine calls `OnEnable` are not modelled.
- Database.Registry.BuildFromLists: null entries in the graph lists and null output textures are not modelled. The sequences hold non-null objects, so the exceptions such entries would raise (a null dereference, or a null dictionary key) are absent.
- Graph output lists and database lists are immutable in the model. The engine could change them between builds, which would make the table stale; that is not modelled.
- The asset store and the resources are fixed when the registry is constructed (`Registry.store` and `Registry.resources` are constants). So the model cannot show the contrast the source draws between the two modes. In the editor, every lookup reads the live asset database and stays current. In a deployed build, the table is built once and goes stale when assets change. The model shows only that the editor lookup does not use the table.
- Database.Registry.GetAllGraphs: the caller receives the shared map object, and in C# it may write entries through it. In the model, such a write can break `Registry.Valid()`. After that, `GetAllGraphs` and `GetGraphFromTexture`, which require `Valid()`, can no longer be called. So the model promises nothing about lookups after an outside write to the shared map.
- Concurrency is not modelled. The source assumes single-threaded access to the shared map.
