/**
 * The entities the registry works on and the editor's asset store.
 *
 * Textures, graphs and database assets are objects compared by identity, as
 * Unity objects are. The asset store is given as a value: which textures the
 * editor's search reports, the path of each asset, and the sub-assets stored
 * at each path.
 */
module Assets {

  /** A texture resource. Only its identity matters to the registry. */
  class Texture {
  }

  /** A Mixture graph asset; it declares the textures it produces. */
  class MixtureGraph {
    const outputTextures: seq<Texture>

    constructor (outputTextures: seq<Texture>)
      ensures this.outputTextures == outputTextures
    {
      this.outputTextures := outputTextures;
    }
  }

  /** The serialized database asset of a deployed build: two ordered graph lists. */
  class MixtureDatabase {
    const realtimeGraphs: seq<MixtureGraph>
    const staticGraphs: seq<MixtureGraph>

    constructor (realtimeGraphs: seq<MixtureGraph>, staticGraphs: seq<MixtureGraph>)
      ensures this.realtimeGraphs == realtimeGraphs && this.staticGraphs == staticGraphs
    {
      this.realtimeGraphs := realtimeGraphs;
      this.staticGraphs := staticGraphs;
    }

    /** The graphs in the order the deployed build visits them; a plain definition. */
    function AllGraphs(): (gs: seq<MixtureGraph>)
    {
      realtimeGraphs + staticGraphs
    }
  }

  /** One object stored in an asset file; only graphs are told apart from the rest. */
  datatype SubAsset = GraphAsset(graph: MixtureGraph) | OtherAsset

  /**
   * The editor's asset database, read-only.
   * `textures` is what loading every asset found by the "t:Texture2D" search
   * gives, in search order (an entry is null when the load gives nothing);
   * `paths` is the asset path of each texture (a texture missing from it has
   * the empty path); `contents` lists the sub-assets stored at each path.
   */
  datatype AssetStore = AssetStore(
    textures: seq<Texture?>,
    paths: map<Texture, string>,
    contents: map<string, seq<SubAsset>>)
  {
    function AssetPath(texture: Texture): (path: string) {
      if texture in paths then paths[texture] else ""
    }

    function LoadAllAssetsAtPath(path: string): (assets: seq<SubAsset>) {
      if path in contents then contents[path] else []
    }
  }

  predicate ContainsGraph(assets: seq<SubAsset>) {
    exists i :: 0 <= i < |assets| && assets[i].GraphAsset?
  }

  /** `g` is the graph of the first sub-asset that is a graph. */
  predicate IsFirstGraph(assets: seq<SubAsset>, g: MixtureGraph) {
    exists k :: 0 <= k < |assets| && assets[k] == GraphAsset(g) &&
      forall j :: 0 <= j < k ==> !assets[j].GraphAsset?
  }

  /** `OfType<MixtureGraph>().FirstOrDefault()` over a list of sub-assets. */
  function FirstGraph(assets: seq<SubAsset>): (r: MixtureGraph?)
    ensures r == null <==> !ContainsGraph(assets)
    ensures r != null ==> IsFirstGraph(assets, r)
  {
    if assets == [] then null
    else if assets[0].GraphAsset? then assets[0].graph
    else
      var r := FirstGraph(assets[1..]);
      assert forall i :: 0 < i < |assets| ==> assets[i] == assets[1..][i - 1];
      r
  }

  /**
   * The editor branch of the lookup: no texture, or a texture without an
   * asset path, has no graph; otherwise the graph is the first graph stored
   * at the texture's path, if any.
   */
  function ResolveInEditor(store: AssetStore, texture: Texture?): (r: MixtureGraph?)
    ensures r == null <==>
      texture == null || store.AssetPath(texture) == "" ||
      !ContainsGraph(store.LoadAllAssetsAtPath(store.AssetPath(texture)))
    ensures r != null ==>
      texture != null && IsFirstGraph(store.LoadAllAssetsAtPath(store.AssetPath(texture)), r)
  {
    if texture == null then null
    else
      var path := store.AssetPath(texture);
      if path != "" then FirstGraph(store.LoadAllAssetsAtPath(path)) else null
  }
}
