/**
 * The two ways the texture-to-graph table is filled, as functions of the
 * table before the build, and what each build guarantees.
 *
 * Deployed build: every output texture of every graph of the database is
 * written with `table[t] := graph`, real-time graphs first, then static ones,
 * so a later write replaces an earlier one.
 *
 * Editor build: every texture of the asset store is resolved to its graph and
 * added with `Dictionary.Add`, which fails on a key already present; the
 * build stops at the first failure and keeps what it added before it.
 */
module Builds {
  import opened Assets

  type GraphTable = map<Texture, MixtureGraph>

  // ---------------------------------------------------------------------------
  // Deployed build
  // ---------------------------------------------------------------------------

  /** `table[t] := g` for each `t` of `ts`, in order. */
  function AddTextures(table: GraphTable, g: MixtureGraph, ts: seq<Texture>): (r: GraphTable)
  {
    if ts == [] then table
    else AddTextures(table, g, ts[..|ts| - 1])[ts[|ts| - 1] := g]
  }

  /** The local `AddGraph`: map every output texture of `g` to `g`. */
  function AddGraph(table: GraphTable, g: MixtureGraph): (r: GraphTable)
  {
    AddTextures(table, g, g.outputTextures)
  }

  /** `AddGraph` for each graph of `gs`, in order. */
  function AddGraphs(table: GraphTable, gs: seq<MixtureGraph>): (r: GraphTable)
  {
    if gs == [] then table
    else AddGraph(AddGraphs(table, gs[..|gs| - 1]), gs[|gs| - 1])
  }

  /** The deployed build over a database: its real-time list, then its static list. */
  function DeployedBuild(table: GraphTable, db: MixtureDatabase): (r: GraphTable)
  {
    AddGraphs(AddGraphs(table, db.realtimeGraphs), db.staticGraphs)
  }

  /** Some graph of `gs` lists `t` among its output textures. */
  predicate Declares(gs: seq<MixtureGraph>, t: Texture) {
    exists i :: 0 <= i < |gs| && t in gs[i].outputTextures
  }

  /** `gs[k]` lists `t`, and no graph after it does. */
  predicate IsLastDeclarer(gs: seq<MixtureGraph>, t: Texture, k: int) {
    0 <= k < |gs| && t in gs[k].outputTextures &&
    forall j :: k < j < |gs| ==> t !in gs[j].outputTextures
  }

  lemma LastDeclarerUnique(gs: seq<MixtureGraph>, t: Texture, k1: int, k2: int)
    requires IsLastDeclarer(gs, t, k1) && IsLastDeclarer(gs, t, k2)
    ensures k1 == k2
  {
  }

  /** Writing one graph's textures: those keys now map to it, the rest are kept. */
  lemma {:induction false} AddTexturesAt(table: GraphTable, g: MixtureGraph, ts: seq<Texture>, t: Texture)
    ensures t in AddTextures(table, g, ts) <==> t in table || t in ts
    ensures t in ts ==> AddTextures(table, g, ts)[t] == g
    ensures t !in ts && t in table ==> AddTextures(table, g, ts)[t] == table[t]
  {
    if ts != [] {
      var init := ts[..|ts| - 1];
      assert ts == init + [ts[|ts| - 1]];
      AddTexturesAt(table, g, init, t);
    }
  }

  /**
   * Walking a graph list: a key is present after the walk exactly when it was
   * before or some graph declares it; a declared key maps to the last graph
   * that declares it; any other key keeps its value.
   */
  lemma {:induction false} AddGraphsAt(table: GraphTable, gs: seq<MixtureGraph>, t: Texture)
    ensures t in AddGraphs(table, gs) <==> t in table || Declares(gs, t)
    ensures Declares(gs, t) ==>
      exists k :: IsLastDeclarer(gs, t, k) && AddGraphs(table, gs)[t] == gs[k]
    ensures !Declares(gs, t) && t in table ==> AddGraphs(table, gs)[t] == table[t]
  {
    if gs != [] {
      var n := |gs| - 1;
      var init := gs[..n];
      var prev := AddGraphs(table, init);
      AddGraphsAt(table, init, t);
      AddTexturesAt(prev, gs[n], gs[n].outputTextures, t);
      assert forall i :: 0 <= i < n ==> init[i] == gs[i];
      assert Declares(gs, t) <==> Declares(init, t) || t in gs[n].outputTextures by {
        if Declares(gs, t) && t !in gs[n].outputTextures {
          var i :| 0 <= i < |gs| && t in gs[i].outputTextures;
          assert t in init[i].outputTextures;
        }
      }
      if t in gs[n].outputTextures {
        assert IsLastDeclarer(gs, t, n);
      } else if Declares(init, t) {
        var k :| IsLastDeclarer(init, t, k) && prev[t] == init[k];
        assert IsLastDeclarer(gs, t, k);
      }
    }
  }

  /** Walking `a + b` is walking `a`, then `b`. */
  lemma {:induction false} AddGraphsAppend(table: GraphTable, a: seq<MixtureGraph>, b: seq<MixtureGraph>)
    ensures AddGraphs(table, a + b) == AddGraphs(AddGraphs(table, a), b)
  {
    if b == [] {
      assert a + b == a;
    } else {
      var n := |b| - 1;
      assert (a + b)[..|a + b| - 1] == a + b[..n];
      AddGraphsAppend(table, a, b[..n]);
    }
  }

  /** The deployed build is one walk over the real-time graphs followed by the static ones. */
  lemma DeployedBuildIsOneWalk(table: GraphTable, db: MixtureDatabase)
    ensures DeployedBuild(table, db) == AddGraphs(table, db.AllGraphs())
  {
    AddGraphsAppend(table, db.realtimeGraphs, db.staticGraphs);
  }

  /**
   * What a deployed build does to one key: it is present afterwards exactly
   * when it was before or some graph of the database declares it (coverage,
   * and no entry is removed); a declared key maps to the last graph that
   * declares it in visiting order (last write wins); any other key keeps its
   * value.
   */
  lemma DeployedBuildAt(table: GraphTable, db: MixtureDatabase, t: Texture)
    ensures t in DeployedBuild(table, db) <==> t in table || Declares(db.AllGraphs(), t)
    ensures Declares(db.AllGraphs(), t) ==>
      exists k :: IsLastDeclarer(db.AllGraphs(), t, k) && DeployedBuild(table, db)[t] == db.AllGraphs()[k]
    ensures !Declares(db.AllGraphs(), t) && t in table ==> DeployedBuild(table, db)[t] == table[t]
  {
    DeployedBuildIsOneWalk(table, db);
    AddGraphsAt(table, db.AllGraphs(), t);
  }

  /**
   * Collisions between the two lists: a texture declared by a static graph
   * maps to the last static graph declaring it, whatever the real-time list
   * says; one declared only by real-time graphs maps to the last of those.
   */
  lemma StaticGraphsWin(table: GraphTable, db: MixtureDatabase, t: Texture)
    ensures Declares(db.staticGraphs, t) ==>
      t in DeployedBuild(table, db) &&
      exists k :: IsLastDeclarer(db.staticGraphs, t, k) && DeployedBuild(table, db)[t] == db.staticGraphs[k]
    ensures !Declares(db.staticGraphs, t) && Declares(db.realtimeGraphs, t) ==>
      t in DeployedBuild(table, db) &&
      exists k :: IsLastDeclarer(db.realtimeGraphs, t, k) && DeployedBuild(table, db)[t] == db.realtimeGraphs[k]
  {
    var afterRealtime := AddGraphs(table, db.realtimeGraphs);
    AddGraphsAt(table, db.realtimeGraphs, t);
    AddGraphsAt(afterRealtime, db.staticGraphs, t);
  }

  /** Running the deployed build again over the same database changes nothing. */
  lemma DeployedBuildIdempotent(table: GraphTable, db: MixtureDatabase)
    ensures DeployedBuild(DeployedBuild(table, db), db) == DeployedBuild(table, db)
  {
    var gs := db.AllGraphs();
    var once := DeployedBuild(table, db);
    var twice := DeployedBuild(once, db);
    DeployedBuildIsOneWalk(table, db);
    DeployedBuildIsOneWalk(once, db);
    forall t | t in twice.Keys + once.Keys
      ensures t in twice <==> t in once
      ensures t in once ==> twice[t] == once[t]
    {
      AddGraphsAt(table, gs, t);
      AddGraphsAt(once, gs, t);
      if Declares(gs, t) {
        var k1 :| IsLastDeclarer(gs, t, k1) && once[t] == gs[k1];
        var k2 :| IsLastDeclarer(gs, t, k2) && twice[t] == gs[k2];
        LastDeclarerUnique(gs, t, k1, k2);
      }
    }
    assert twice == once;
  }

  /** `Dictionary.TryGetValue` with a null default; a plain definition. */
  function Lookup(table: GraphTable, texture: Texture): (r: MixtureGraph?)
  {
    if texture in table then table[texture] else null
  }

  /**
   * A lookup in the table a deployed build makes from nothing: a texture no
   * graph declares gives null, a declared one gives the last graph declaring it.
   */
  lemma DeployedLookup(db: MixtureDatabase, t: Texture)
    ensures Lookup(DeployedBuild(map[], db), t) == null <==> !Declares(db.AllGraphs(), t)
    ensures Lookup(DeployedBuild(map[], db), t) != null ==>
      exists k :: IsLastDeclarer(db.AllGraphs(), t, k) && Lookup(DeployedBuild(map[], db), t) == db.AllGraphs()[k]
  {
    DeployedBuildAt(map[], db, t);
  }

  // ---------------------------------------------------------------------------
  // Editor build
  // ---------------------------------------------------------------------------

  /** How a build ended: normally, or with `Dictionary.Add` failing on a key already present. */
  datatype BuildStatus = Completed | DuplicateKey(texture: Texture)

  datatype ScanResult = ScanResult(entries: GraphTable, status: BuildStatus)

  /** The editor build records this texture: it resolves to a graph. */
  predicate Registrable(store: AssetStore, t: Texture?) {
    ResolveInEditor(store, t) != null
  }

  /**
   * The editor build over `texs`: a texture that resolves to no graph is
   * skipped; one that resolves to a graph is added, unless it is already a
   * key, in which case the build stops there.
   */
  function EditorScan(table: GraphTable, store: AssetStore, texs: seq<Texture?>): (r: ScanResult)
  {
    if texs == [] then ScanResult(table, Completed)
    else
      var prev := EditorScan(table, store, texs[..|texs| - 1]);
      var t := texs[|texs| - 1];
      var g := ResolveInEditor(store, t);
      if prev.status.DuplicateKey? || g == null then prev
      else if t in prev.entries then ScanResult(prev.entries, DuplicateKey(t))
      else ScanResult(prev.entries[t := g], Completed)
  }

  /** No texture the build records is already a key or recorded earlier in the walk. */
  predicate NoCollision(table: GraphTable, store: AssetStore, texs: seq<Texture?>) {
    forall i :: 0 <= i < |texs| && Registrable(store, texs[i]) ==>
      texs[i] !in table && texs[i] !in texs[..i]
  }

  /** Once the build has failed, the rest of the walk does nothing. */
  lemma {:induction false} EditorScanStopsAtDuplicate(table: GraphTable, store: AssetStore, texs: seq<Texture?>, i: nat)
    requires i <= |texs|
    requires EditorScan(table, store, texs[..i]).status.DuplicateKey?
    ensures EditorScan(table, store, texs) == EditorScan(table, store, texs[..i])
  {
    if i < |texs| {
      var init := texs[..|texs| - 1];
      assert init[..i] == texs[..i];
      EditorScanStopsAtDuplicate(table, store, init, i);
    } else {
      assert texs[..i] == texs;
    }
  }

  /**
   * The editor build never removes or changes an entry, and every entry it
   * adds is a texture of the walk mapped to the graph it resolves to.
   */
  lemma {:induction false} EditorScanValues(table: GraphTable, store: AssetStore, texs: seq<Texture?>, t: Texture)
    ensures t in table ==>
      t in EditorScan(table, store, texs).entries && EditorScan(table, store, texs).entries[t] == table[t]
    ensures t in EditorScan(table, store, texs).entries && t !in table ==>
      t in texs && EditorScan(table, store, texs).entries[t] == ResolveInEditor(store, t)
  {
    if texs != [] {
      var init := texs[..|texs| - 1];
      assert texs == init + [texs[|texs| - 1]];
      EditorScanValues(table, store, init, t);
    }
  }

  /**
   * When the editor build completes, the keys are the old ones plus exactly
   * the textures of the walk that resolve to a graph.
   */
  lemma {:induction false} EditorScanCompletedKeys(table: GraphTable, store: AssetStore, texs: seq<Texture?>, t: Texture)
    requires EditorScan(table, store, texs).status == Completed
    ensures t in EditorScan(table, store, texs).entries <==> t in table || (t in texs && Registrable(store, t))
  {
    if texs != [] {
      var init := texs[..|texs| - 1];
      assert texs == init + [texs[|texs| - 1]];
      EditorScanCompletedKeys(table, store, init, t);
    }
  }

  /** Meeting no collision on a walk is meeting none on its prefix and none at its last texture. */
  lemma NoCollisionSplit(table: GraphTable, store: AssetStore, texs: seq<Texture?>)
    requires texs != []
    ensures var n := |texs| - 1;
      NoCollision(table, store, texs) <==>
        NoCollision(table, store, texs[..n]) &&
        (Registrable(store, texs[n]) ==> texs[n] !in table && texs[n] !in texs[..n])
  {
    var n := |texs| - 1;
    assert forall i :: 0 <= i < n ==> texs[i] == texs[..n][i] && texs[..i] == texs[..n][..i];
  }

  /** The editor build completes exactly when it meets no collision. */
  lemma {:induction false} EditorScanCompletesIff(table: GraphTable, store: AssetStore, texs: seq<Texture?>)
    ensures EditorScan(table, store, texs).status == Completed <==> NoCollision(table, store, texs)
  {
    if texs != [] {
      var n := |texs| - 1;
      var init := texs[..n];
      var last := texs[n];
      var prev := EditorScan(table, store, init);
      EditorScanCompletesIff(table, store, init);
      assert forall i :: 0 <= i < n ==> texs[i] == init[i] && texs[..i] == init[..i];
      assert texs[..n] == init;
      NoCollisionSplit(table, store, texs);
      if prev.status == Completed && Registrable(store, last) {
        var t: Texture := last;
        EditorScanCompletedKeys(table, store, init, t);
      }
    }
  }

  /**
   * When the editor build fails on texture `t`, `t` resolves to a graph and
   * was already a key or met earlier in the walk, at some position `i`; the
   * walk up to `i` completed, and its table is what the failed build leaves.
   */
  lemma {:induction false} EditorScanDuplicate(table: GraphTable, store: AssetStore, texs: seq<Texture?>)
    requires EditorScan(table, store, texs).status.DuplicateKey?
    ensures var r := EditorScan(table, store, texs);
      exists i :: 0 <= i < |texs| && texs[i] == r.status.texture && Registrable(store, texs[i]) &&
        (texs[i] in table || texs[i] in texs[..i]) &&
        EditorScan(table, store, texs[..i]) == ScanResult(r.entries, Completed)
  {
    var n := |texs| - 1;
    var init := texs[..n];
    var prev := EditorScan(table, store, init);
    if prev.status.DuplicateKey? {
      EditorScanDuplicate(table, store, init);
      var i :| 0 <= i < |init| && init[i] == prev.status.texture && Registrable(store, init[i]) &&
        (init[i] in table || init[i] in init[..i]) &&
        EditorScan(table, store, init[..i]) == ScanResult(prev.entries, Completed);
      assert texs[..i] == init[..i];
      assert texs[i] == init[i];
    } else {
      var t: Texture := texs[n];
      EditorScanCompletedKeys(table, store, init, t);
      assert texs[..n] == init;
    }
  }

  /**
   * Unlike the deployed build, the editor build cannot be run twice: once a
   * build from nothing has recorded some texture, a second build fails.
   */
  lemma EditorRebuildFails(store: AssetStore, texs: seq<Texture?>, i: int)
    requires 0 <= i < |texs| && Registrable(store, texs[i])
    requires EditorScan(map[], store, texs).status == Completed
    ensures EditorScan(EditorScan(map[], store, texs).entries, store, texs).status.DuplicateKey?
  {
    var once := EditorScan(map[], store, texs).entries;
    var t: Texture := texs[i];
    EditorScanCompletedKeys(map[], store, texs, t);
    EditorScanCompletesIff(once, store, texs);
  }
}
