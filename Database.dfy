/**
 * The registry itself: the state `MixtureDatabase` keeps in static fields
 * (the shared texture-to-graph map and the loaded database asset) and the
 * operations on it.
 *
 * Whether the code runs in the editor or in a deployed build is a mode fixed
 * at construction. The editor's asset database and what `Resources.Load` can
 * find are given at construction too.
 */
module Database {
  import opened Assets
  import opened Builds

  datatype Mode = Editor | Deployed

  /** Where the database asset is looked up among the resources. */
  const DatabaseResourcePath := "Mixture/Database"

  /** The message logged when that asset cannot be found. */
  const MissingDatabaseMessage := "Mixture Database asset not found! Realtime Mixtures won't work as expected."

  /** The shared dictionary: callers holding it see later builds. */
  class GraphMap {
    var entries: GraphTable

    constructor ()
      ensures entries == map[]
    {
      entries := map[];
    }
  }

  class Registry {
    const mode: Mode
    const store: AssetStore
    const resources: map<string, MixtureDatabase>
    const graphMap: GraphMap
    var instance: MixtureDatabase?
    var log: seq<string>

    /** `Resources.Load` of the database asset: null when it is not there. */
    function LoadDatabase(): (db: MixtureDatabase?) {
      if DatabaseResourcePath in resources then resources[DatabaseResourcePath] else null
    }

    /**
     * In the editor, no database asset is loaded and every entry maps a
     * texture of the asset store to the graph it resolves to. In a deployed
     * build, the loaded asset is the one the resources hold, and the table is
     * empty until it is loaded and then is the deployed build of its lists.
     */
    ghost predicate Valid()
      reads this, graphMap
    {
      && (mode == Editor ==>
            && instance == null
            && forall t :: t in graphMap.entries ==>
                 t in store.textures && graphMap.entries[t] == ResolveInEditor(store, t))
      && (mode == Deployed ==>
            && (instance != null ==> instance == LoadDatabase())
            && graphMap.entries == if instance == null then map[] else DeployedBuild(map[], instance))
    }

    constructor (mode: Mode, store: AssetStore, resources: map<string, MixtureDatabase>)
      ensures Valid()
      ensures this.mode == mode && this.store == store && this.resources == resources
      ensures fresh(graphMap) && graphMap.entries == map[]
      ensures instance == null && log == []
    {
      this.mode := mode;
      this.store := store;
      this.resources := resources;
      graphMap := new GraphMap();
      instance := null;
      log := [];
    }

    /** The local `AddGraph` of the deployed build. */
    method AddGraph(graph: MixtureGraph)
      modifies graphMap
      ensures graphMap.entries == Builds.AddGraph(old(graphMap.entries), graph)
    {
      var textures := graph.outputTextures;
      for i := 0 to |textures|
        invariant graphMap.entries == AddTextures(old(graphMap.entries), graph, textures[..i])
      {
        assert textures[..i + 1][..i] == textures[..i];
        graphMap.entries := graphMap.entries[textures[i] := graph];
      }
      assert textures[..|textures|] == textures;
    }

    /** The deployed branch of `GetGraphMap`, over the lists of `db`. */
    method BuildFromLists(db: MixtureDatabase)
      modifies graphMap
      ensures graphMap.entries == DeployedBuild(old(graphMap.entries), db)
    {
      ghost var start := graphMap.entries;
      var realtime := db.realtimeGraphs;
      for i := 0 to |realtime|
        invariant graphMap.entries == AddGraphs(start, realtime[..i])
      {
        assert realtime[..i + 1][..i] == realtime[..i];
        AddGraph(realtime[i]);
      }
      assert realtime[..|realtime|] == realtime;
      ghost var afterRealtime := graphMap.entries;
      var statics := db.staticGraphs;
      for i := 0 to |statics|
        invariant graphMap.entries == AddGraphs(afterRealtime, statics[..i])
      {
        assert statics[..i + 1][..i] == statics[..i];
        AddGraph(statics[i]);
      }
      assert statics[..|statics|] == statics;
    }

    /**
     * The editor branch of `GetGraphMap`: resolve each texture of the asset
     * store and add it when it has a graph; a texture already present makes
     * `Dictionary.Add` fail, which ends the build.
     */
    method ScanAssetStore() returns (status: BuildStatus)
      modifies graphMap
      ensures ScanResult(graphMap.entries, status) == EditorScan(old(graphMap.entries), store, store.textures)
    {
      var textures := store.textures;
      status := Completed;
      var i := 0;
      while i < |textures| && status == Completed
        invariant 0 <= i <= |textures|
        invariant ScanResult(graphMap.entries, status) == EditorScan(old(graphMap.entries), store, textures[..i])
      {
        assert textures[..i + 1][..i] == textures[..i];
        var texture := textures[i];
        // the editor branch of `GetGraphFromTexture`
        var graph := ResolveInEditor(store, texture);
        if graph != null {
          if texture in graphMap.entries {
            status := DuplicateKey(texture);
          } else {
            graphMap.entries := graphMap.entries[texture := graph];
          }
        }
        i := i + 1;
      }
      if i < |textures| {
        EditorScanStopsAtDuplicate(old(graphMap.entries), store, textures, i);
      } else {
        assert textures[..i] == textures;
      }
    }

    /**
     * `GetGraphMap`: the editor build, or in a deployed build the walk over
     * the lists of `db` (nothing when there is no database asset).
     */
    method GetGraphMap(db: MixtureDatabase?) returns (status: BuildStatus)
      modifies graphMap
      ensures mode == Editor ==>
        ScanResult(graphMap.entries, status) == EditorScan(old(graphMap.entries), store, store.textures)
      ensures mode == Deployed ==>
        status == Completed &&
        graphMap.entries == if db == null then old(graphMap.entries) else DeployedBuild(old(graphMap.entries), db)
    {
      if mode == Editor {
        status := ScanAssetStore();
      } else {
        status := Completed;
        if db != null {
          BuildFromLists(db);
        }
      }
    }

    /**
     * `GetAllGraphs`: build only when the shared map is empty, then hand out
     * the shared map itself. A failed editor build is reported in `status`.
     */
    method GetAllGraphs() returns (graphs: GraphMap, status: BuildStatus)
      requires Valid()
      modifies graphMap
      ensures Valid()
      ensures graphs == graphMap
      ensures old(graphMap.entries) != map[] ==> graphMap.entries == old(graphMap.entries) && status == Completed
      ensures old(graphMap.entries) == map[] && mode == Editor ==>
        ScanResult(graphMap.entries, status) == EditorScan(map[], store, store.textures)
      ensures old(graphMap.entries) == map[] && mode == Deployed ==>
        status == Completed &&
        graphMap.entries == if instance == null then map[] else DeployedBuild(map[], instance)
    {
      status := Completed;
      if |graphMap.entries| == 0 {
        status := GetGraphMap(instance);
        if mode == Editor {
          forall t | t in graphMap.entries
            ensures t in store.textures && graphMap.entries[t] == ResolveInEditor(store, t)
          {
            EditorScanValues(map[], store, store.textures, t);
          }
        }
      }
      graphs := graphMap;
    }

    /**
     * `GetGraphFromTexture`. A null texture has no graph. In the editor the
     * texture is resolved through the asset store and the shared map is not
     * used. In a deployed build the database asset is loaded on first use,
     * which runs its build; when it cannot be found, the error is logged, null
     * is returned and the next call tries again. The answer is then looked up
     * in the shared map, null on a miss.
     */
    method GetGraphFromTexture(texture: Texture?) returns (graph: MixtureGraph?)
      requires Valid()
      modifies this, graphMap
      ensures Valid()
      ensures texture == null ==> graph == null
      ensures texture == null || mode == Editor ==>
        graphMap.entries == old(graphMap.entries) && instance == old(instance) && log == old(log)
      ensures mode == Editor ==> graph == ResolveInEditor(store, texture)
      ensures mode == Deployed && texture != null && old(instance) != null ==>
        && instance == old(instance) && graphMap.entries == old(graphMap.entries) && log == old(log)
        && graph == Lookup(graphMap.entries, texture)
      ensures mode == Deployed && texture != null && old(instance) == null && LoadDatabase() == null ==>
        && graph == null && instance == null && graphMap.entries == old(graphMap.entries)
        && log == old(log) + [MissingDatabaseMessage]
      ensures mode == Deployed && texture != null && old(instance) == null && LoadDatabase() != null ==>
        && instance == LoadDatabase() && graphMap.entries == DeployedBuild(map[], instance) && log == old(log)
        && graph == Lookup(graphMap.entries, texture)
    {
      if texture == null {
        return null;
      }
      if mode == Editor {
        var path := store.AssetPath(texture);
        if path != "" {
          return FirstGraph(store.LoadAllAssetsAtPath(path));
        } else {
          return null;
        }
      }
      if instance == null {
        var loaded := LoadDatabase();
        if loaded == null {
          log := log + [MissingDatabaseMessage];
          return null;
        }
        // loading the asset enables it, and its `OnEnable` runs the build
        var _ := GetGraphMap(loaded);
        instance := loaded;
      }
      graph := Lookup(graphMap.entries, texture);
    }
  }

  /**
   * A deployed build whose database asset is missing: every lookup fails, and
   * every lookup logs the error again, since nothing records the failure.
   */
  method MissingDatabaseLookups(store: AssetStore, texture: Texture) returns (first: MixtureGraph?, second: MixtureGraph?, log: seq<string>)
    ensures first == null && second == null
    ensures log == [MissingDatabaseMessage, MissingDatabaseMessage]
  {
    var registry := new Registry(Deployed, store, map[]);
    first := registry.GetGraphFromTexture(texture);
    second := registry.GetGraphFromTexture(texture);
    log := registry.log;
  }

  /**
   * The first lookup of a deployed build whose database asset is present: a
   * texture no graph declares has no graph, and a declared texture gets the
   * last graph that declares it, real-time list before static list.
   */
  method FirstDeployedLookup(store: AssetStore, db: MixtureDatabase, texture: Texture) returns (graph: MixtureGraph?)
    ensures graph == null <==> !Declares(db.AllGraphs(), texture)
    ensures graph != null ==> exists k :: IsLastDeclarer(db.AllGraphs(), texture, k) && graph == db.AllGraphs()[k]
  {
    var registry := new Registry(Deployed, store, map[DatabaseResourcePath := db]);
    graph := registry.GetGraphFromTexture(texture);
    DeployedLookup(db, texture);
  }
}
