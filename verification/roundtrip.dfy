/** Saving a scene and loading the file back (WorkflowIO.py): the nodes come
    back with the same values, in save order, and the connections come back
    between the same pins. */
module RoundTrip {
  import opened Types
  import opened Nodes
  import opened Scene
  import opened WorkflowIO

  /** A node the editor could have produced: some record, loaded, gives it
      up to its connections. Fresh nodes are the loaded form of a record
      with no values, and editing a text or choosing a kind yields the
      loaded form of a record holding that value. */
  ghost predicate Restorable(cat: Catalog, n: Node)
  {
    exists rec: NodeRecord :: rec.nodeType in cat && SameButLinks(n, LoadedNode(cat, rec))
  }

  /** Every node on the scene is one the editor could have produced. */
  ghost predicate SceneRestorable(cat: Catalog, s: Scene)
  {
    forall i: nat :: NodeItem(i) in s.items && i < |s.nodes| ==> Restorable(cat, s.nodes[i])
  }

  /** Loading the record saved for such a node gives it back, up to its
      connections. */
  lemma {:induction false} RestoredNode(cat: Catalog, n: Node)
    requires CatalogKeyed(cat) && Restorable(cat, n)
    ensures SaveNode(n).nodeType in cat && SameButLinks(LoadedNode(cat, SaveNode(n)), n)
  {
    var rec: NodeRecord :| rec.nodeType in cat && SameButLinks(n, LoadedNode(cat, rec));
    var l := LoadedNode(cat, rec);
    SaveIgnoresLinks(n, l);
    NodeRoundTrip(cat, rec);
    assert LoadedNode(cat, SaveNode(n)) == l;
    SameButLinksSymmetric(n, l);
  }

  /** The scene a load of the saved file builds. */
  function Reloaded(cat: Catalog, s: Scene): (r: (Scene, bool))
    requires ArenaOk(s)
  {
    LoadWorkflow(cat, Some(SaveWorkflow(s)))
  }

  /** Loaded nodes standing, in save order, for the saved nodes `ids` of
      `s`: one per saved node, each equal to it up to its connections. */
  ghost predicate StandsFor(nodes: seq<Node>, s: Scene, ids: seq<nat>)
  {
    && |nodes| == |ids|
    && forall k :: 0 <= k < |ids| ==> ids[k] < |s.nodes| && SameButLinks(nodes[k], s.nodes[ids[k]])
  }

  /** Each saved record has a known type and loads as the node it was saved
      from, up to its connections. */
  lemma {:induction false} SavedRecordsLoad(cat: Catalog, s: Scene)
    requires ArenaOk(s) && CatalogKeyed(cat) && SceneRestorable(cat, s)
    ensures var ids := GetAllNodes(s.items);
            var recs := SaveWorkflow(s).nodes.value;
            && |recs| == |ids|
            && forall k :: 0 <= k < |recs| ==>
                 && recs[k].nodeType in cat && ids[k] < |s.nodes|
                 && SameButLinks(LoadedNode(cat, recs[k]), s.nodes[ids[k]])
  {
    var ids := GetAllNodes(s.items);
    var recs := SaveWorkflow(s).nodes.value;
    forall k | 0 <= k < |recs|
      ensures recs[k].nodeType in cat && ids[k] < |s.nodes| && SameButLinks(LoadedNode(cat, recs[k]), s.nodes[ids[k]])
    {
      assert ids[k] in ids;
      RestoredNode(cat, s.nodes[ids[k]]);
    }
  }

  /** Records of known types, each loading as the node saved at its
      position up to its connections, load in full: one node per record, in
      record order, each the node saved at its position up to its
      connections. */
  lemma {:induction false} LoadKnownRecords(cat: Catalog, recs: seq<NodeRecord>, s: Scene, ids: seq<nat>)
    requires |recs| == |ids|
    requires forall k :: 0 <= k < |recs| ==>
               && recs[k].nodeType in cat && ids[k] < |s.nodes|
               && SameButLinks(LoadedNode(cat, recs[k]), s.nodes[ids[k]])
    ensures var r := LoadNodes(cat, EmptyScene, recs);
            && r.1 && r.0.lines == [] && StandsFor(r.0.nodes, s, ids)
  {
    EmptySceneOk();
    KnownPrefixAll(cat, recs);
    LoadFromEmpty(cat, recs);
    var u := LoadNodes(cat, EmptyScene, recs).0;
    forall k | 0 <= k < |ids|
      ensures SameButLinks(u.nodes[k], s.nodes[ids[k]])
    {
      LoadedNodesAt(cat, recs, k);
    }
  }

  /** The saved connection records are the written keys, in order, each
      with a colour. */
  lemma {:induction false} SavedRecords(s: Scene)
    requires ArenaOk(s)
    ensures var keys := SaveConns(s, GetAllNodes(s.items), s.connections, {});
            var conns := SaveWorkflow(s).connections.value;
            && |conns| == |keys|
            && forall j :: 0 <= j < |conns| ==> conns[j] == RecordOf(keys[j]) && conns[j].hasColor
  {
  }


  /** Among such nodes the key saved for a connection names the two pins of
      its line, each at the position its node was saved at. */
  lemma {:induction false} ResolveSavedKey(nodes: seq<Node>, s: Scene, ids: seq<nat>, c: nat)
    requires ArenaOk(s) && c < |s.lines| && StandsFor(nodes, s, ids)
    requires SavedKey(s, ids, c).Some?
    ensures var l := s.lines[c];
            var a := LastIndexOf(ids, l.start.node).value;
            var b := LastIndexOf(ids, l.end.node).value;
            Resolve(nodes, RecordOf(SavedKey(s, ids, c).value))
              == Some((PinRef(a, Output, l.start.index), PinRef(b, Input, l.end.index)))
  {
    var l := s.lines[c];
    var a := LastIndexOf(ids, l.start.node).value;
    var b := LastIndexOf(ids, l.end.node).value;
    assert ids[a] == l.start.node && ids[b] == l.end.node;
    assert l.start.index < |nodes[a].outputs| && l.end.index < |nodes[b].inputs|;
  }

  /** Records that are the written keys of scene `s`, in order, each with a
      colour. */
  ghost predicate KeyRecords(s: Scene, ids: seq<nat>, conns: seq<ConnRecord>)
    requires ArenaOk(s)
  {
    var keys := SaveConns(s, ids, s.connections, {});
    && |conns| == |keys|
    && forall j :: 0 <= j < |conns| ==> conns[j] == RecordOf(keys[j]) && conns[j].hasColor
  }

  /** Nodes `u` stand, in save order, for the saved nodes of `s`, with no
      line yet, and `conns` are the written keys of `s`. */
  ghost predicate Prepared(u: Scene, s: Scene, ids: seq<nat>, conns: seq<ConnRecord>)
  {
    ArenaOk(u) && ArenaOk(s) && u.lines == [] && StandsFor(u.nodes, s, ids) && KeyRecords(s, ids, conns)
  }

  /** A load of a saved file whose nodes all load goes on to load its
      connection records over those nodes and reports success. */
  lemma {:induction false} ReloadedUnfolds(cat: Catalog, s: Scene)
    requires ArenaOk(s) && LoadNodes(cat, EmptyScene, SaveWorkflow(s).nodes.value).1
    ensures var d := SaveWorkflow(s);
            Reloaded(cat, s) == (LoadConns(LoadNodes(cat, EmptyScene, d.nodes.value).0, d.connections.value, {}).0, true)
  {
  }

  /** The load of a saved scene: its nodes stand for the saved ones, in save
      order, with no line yet, and then its connection records are loaded. */
  lemma {:induction false} ReloadedSteps(cat: Catalog, s: Scene)
    requires ArenaOk(s) && CatalogKeyed(cat) && SceneRestorable(cat, s)
    ensures exists u: Scene, conns: seq<ConnRecord> ::
              && Prepared(u, s, GetAllNodes(s.items), conns)
              && Reloaded(cat, s) == (LoadConns(u, conns, {}).0, true)
  {
    EmptySceneOk();
    var ids := GetAllNodes(s.items);
    var d := SaveWorkflow(s);
    SavedRecordsLoad(cat, s);
    LoadKnownRecords(cat, d.nodes.value, s, ids);
    SavedRecords(s);
    var loaded := LoadNodes(cat, EmptyScene, d.nodes.value);
    ReloadedUnfolds(cat, s);
    assert Prepared(loaded.0, s, ids, d.connections.value);
  }

  /** The load of a saved scene succeeds, and its nodes are the saved nodes
      in save order, each up to its connections. */
  lemma {:induction false} SaveLoadNodes(cat: Catalog, s: Scene)
    requires ArenaOk(s) && CatalogKeyed(cat) && SceneRestorable(cat, s)
    ensures Reloaded(cat, s).1
    ensures StandsFor(Reloaded(cat, s).0.nodes, s, GetAllNodes(s.items))
  {
    var ids := GetAllNodes(s.items);
    ReloadedSteps(cat, s);
    var u: Scene, conns: seq<ConnRecord> :|
      Prepared(u, s, ids, conns) && Reloaded(cat, s) == (LoadConns(u, conns, {}).0, true);
    PreparedStands(u, s, ids, conns);
  }

  /** Loading connections over prepared nodes leaves them standing for the
      saved ones. */
  lemma {:induction false} PreparedStands(u: Scene, s: Scene, ids: seq<nat>, conns: seq<ConnRecord>)
    requires Prepared(u, s, ids, conns)
    ensures StandsFor(LoadConns(u, conns, {}).0.nodes, s, ids)
  {
    var t := LoadConns(u, conns, {}).0;
    forall k | 0 <= k < |ids|
      ensures SameButLinks(t.nodes[k], s.nodes[ids[k]])
    {
      LoadConnsSameButLinks(u, conns, {}, k);
      SameButLinksTransitive(t.nodes[k], u.nodes[k], s.nodes[ids[k]]);
    }
  }

  /** Loading the written keys over nodes that stand for the saved ones
      connects the end pin of every listed connection whose nodes are
      saved. */
  lemma {:induction false} KeysConnect(u: Scene, s: Scene, ids: seq<nat>, conns: seq<ConnRecord>, c: nat)
    requires Prepared(u, s, ids, conns)
    requires c in s.connections && SavedKey(s, ids, c).Some?
    ensures var t := LoadConns(u, conns, {}).0;
            var e := PinRef(LastIndexOf(ids, s.lines[c].end.node).value, Input, s.lines[c].end.index);
            ValidPin(t.nodes, e) && PinAt(t.nodes, e).connected
  {
    var keys := SaveConns(s, ids, s.connections, {});
    var k := SavedKey(s, ids, c).value;
    assert KeyListed(s, ids, s.connections, k);
    var j :| 0 <= j < |keys| && keys[j] == k;
    ResolveSavedKey(u.nodes, s, ids, c);
    assert Resolve(u.nodes, conns[j]).Some?;
    LoadConnsConnects(u, conns, {});
  }

  /** A line of the reloaded scene that joins, at their saved positions,
      the same two pins as connection `c` of the saved scene. */
  ghost predicate Mirrors(s: Scene, ids: seq<nat>, c: nat, l: Line)
    requires c < |s.lines|
  {
    && l.start.node < |ids| && l.end.node < |ids|
    && ids[l.start.node] == s.lines[c].start.node && l.start.index == s.lines[c].start.index
    && ids[l.end.node] == s.lines[c].end.node && l.end.index == s.lines[c].end.index
    && l.start.dir == s.lines[c].start.dir && l.end.dir == s.lines[c].end.dir
  }

  /** Every listed connection of `s` with both nodes saved has a line of
      `t` joining its two pins. */
  ghost predicate AllMirrored(t: Scene, s: Scene, ids: seq<nat>)
    requires ArenaOk(s)
  {
    forall m :: 0 <= m < |t.lines| ==> exists c :: c in s.connections && Mirrors(s, ids, c, t.lines[m])
  }

  /** A line a written key names mirrors the connection the key was
      written for. */
  lemma {:induction false} KeyLineMirrors(u: Scene, s: Scene, ids: seq<nat>, conns: seq<ConnRecord>, l: Line)
    requires Prepared(u, s, ids, conns) && FromRecord(u.nodes, conns, l)
    ensures exists c :: c in s.connections && Mirrors(s, ids, c, l)
  {
    var keys := SaveConns(s, ids, s.connections, {});
    var j :| 0 <= j < |conns| && conns[j].hasColor && Resolve(u.nodes, conns[j]) == Some((l.start, l.end));
    assert keys[j] in keys;
    var c :| c in s.connections && SavedKey(s, ids, c) == Some(keys[j]);
    ResolveSavedKey(u.nodes, s, ids, c);
    assert Mirrors(s, ids, c, l);
  }

  /** Each line loaded onto a scene without lines comes from a record. */
  lemma {:induction false} LineFromRecord(u: Scene, conns: seq<ConnRecord>, m: nat)
    requires ArenaOk(u) && u.lines == [] && m < |LoadConns(u, conns, {}).0.lines|
    ensures FromRecord(u.nodes, conns, LoadConns(u, conns, {}).0.lines[m])
  {
    LoadConnsFromRecords(u, conns, {});
  }

  /** Loading the written keys over nodes that stand for the saved ones, on
      a scene without lines, creates only lines that mirror listed
      connections. */
  lemma {:induction false} KeysMirror(u: Scene, s: Scene, ids: seq<nat>, conns: seq<ConnRecord>)
    requires Prepared(u, s, ids, conns)
    ensures AllMirrored(LoadConns(u, conns, {}).0, s, ids)
  {
    var t := LoadConns(u, conns, {}).0;
    forall m | 0 <= m < |t.lines|
      ensures exists c :: c in s.connections && Mirrors(s, ids, c, t.lines[m])
    {
      LineFromRecord(u, conns, m);
      KeyLineMirrors(u, s, ids, conns, t.lines[m]);
    }
  }

  /** The connection part of the round trip, first half: for every listed
      connection whose two nodes are saved, the input pin it ends at is
      connected after the load, at the position its node was saved at. */
  lemma {:induction false} SaveLoadConnects(cat: Catalog, s: Scene, c: nat)
    requires ArenaOk(s) && CatalogKeyed(cat) && SceneRestorable(cat, s)
    requires c in s.connections && SavedKey(s, GetAllNodes(s.items), c).Some?
    ensures var ids := GetAllNodes(s.items);
            var t := Reloaded(cat, s).0;
            var e := PinRef(LastIndexOf(ids, s.lines[c].end.node).value, Input, s.lines[c].end.index);
            ValidPin(t.nodes, e) && PinAt(t.nodes, e).connected
  {
    ReloadedSteps(cat, s);
    var u: Scene, conns: seq<ConnRecord> :|
      Prepared(u, s, GetAllNodes(s.items), conns) && Reloaded(cat, s) == (LoadConns(u, conns, {}).0, true);
    KeysConnect(u, s, GetAllNodes(s.items), conns, c);
  }

  /** The connection part of the round trip, second half: every line of the
      reloaded scene joins the same pins as some listed connection of the
      saved scene. */
  lemma {:induction false} SaveLoadLinesSaved(cat: Catalog, s: Scene)
    requires ArenaOk(s) && CatalogKeyed(cat) && SceneRestorable(cat, s)
    ensures AllMirrored(Reloaded(cat, s).0, s, GetAllNodes(s.items))
  {
    ReloadedSteps(cat, s);
    var u: Scene, conns: seq<ConnRecord> :|
      Prepared(u, s, GetAllNodes(s.items), conns) && Reloaded(cat, s) == (LoadConns(u, conns, {}).0, true);
    KeysMirror(u, s, GetAllNodes(s.items), conns);
  }
}
