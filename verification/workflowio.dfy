/** Saving and loading a workflow (WorkflowIO.py). The file is a document
    with a list of node records and a list of connection records; node
    records are numbered by position, and connection records name nodes by
    that number and pins by their index. JSON and the file system are not
    modelled: a document is the parsed value, with missing keys as `None`. */
module WorkflowIO {
  import opened Types
  import opened Pins
  import opened Nodes
  import opened Scene
  import opened ConnectionLine

  /** One saved node: display name, position, type, and for each side the
      line-edit texts and the selector texts, one entry per pin. */
  datatype NodeRecord = NodeRecord(
    name: string, pos: Position, nodeType: string,
    inputValues: Option<seq<string>>, outputValues: Option<seq<string>>,
    inputChoices: Option<seq<string>>, outputChoices: Option<seq<string>>)

  /** One saved connection: node numbers and pin indexes as Python integers
      (a negative one counts from the end), and whether a colour is given. */
  datatype ConnRecord = ConnRecord(
    startNode: Option<int>, endNode: Option<int>, startPin: Option<int>, endPin: Option<int>, hasColor: bool)

  datatype Document = Document(nodes: Option<seq<NodeRecord>>, connections: Option<seq<ConnRecord>>)

  /** The identity of a connection record: its four numbers. */
  type Key = (int, int, int, int)

  // ---------------------------------------------------------------------
  // Saving
  // ---------------------------------------------------------------------

  /** What is saved for a pin: the line edit's text, or else the selector's
      text, the other entry empty. */
  function PinText(p: Pin): string
  {
    if p.lineEdit.Some? then p.lineEdit.value else ""
  }

  function PinChoice(p: Pin): string
  {
    if p.lineEdit.Some? then "" else if p.combo.Some? then KindName(p.combo.value) else ""
  }

  function Texts(ps: seq<Pin>): (r: seq<string>)
    ensures |r| == |ps| && forall i :: 0 <= i < |ps| ==> r[i] == PinText(ps[i])
  {
    seq(|ps|, i requires 0 <= i < |ps| => PinText(ps[i]))
  }

  function Choices(ps: seq<Pin>): (r: seq<string>)
    ensures |r| == |ps| && forall i :: 0 <= i < |ps| ==> r[i] == PinChoice(ps[i])
  {
    seq(|ps|, i requires 0 <= i < |ps| => PinChoice(ps[i]))
  }

  function SaveNode(n: Node): NodeRecord
  {
    NodeRecord(n.title, n.pos, n.info.nodeName,
               Some(Texts(n.inputs)), Some(Texts(n.outputs)), Some(Choices(n.inputs)), Some(Choices(n.outputs)))
  }

  /** The number `node_to_index` ends up holding for a node: the last
      position at which it was met. */
  function LastIndexOf(ids: seq<nat>, x: nat): (r: Option<nat>)
    ensures r.Some? ==> r.value < |ids| && ids[r.value] == x && x !in ids[r.value + 1..]
    ensures r.None? <==> x !in ids
  {
    if ids == [] then None
    else if ids[|ids| - 1] == x then
      assert ids[|ids|..] == [];
      Some(|ids| - 1)
    else
      var r := LastIndexOf(ids[..|ids| - 1], x);
      LastIndexStep(ids, x, r);
      r
  }

  /** A search of all but the last id carries over when the last id is not
      the one sought. */
  lemma {:induction false} LastIndexStep(ids: seq<nat>, x: nat, r: Option<nat>)
    requires ids != [] && ids[|ids| - 1] != x
    requires r.Some? ==> r.value < |ids| - 1 && ids[..|ids| - 1][r.value] == x && x !in ids[..|ids| - 1][r.value + 1..]
    requires r.None? <==> x !in ids[..|ids| - 1]
    ensures r.Some? ==> r.value < |ids| && ids[r.value] == x && x !in ids[r.value + 1..]
    ensures r.None? <==> x !in ids
  {
    var init := ids[..|ids| - 1];
    assert ids == init + [ids[|ids| - 1]];
    if r.Some? {
      assert ids[r.value + 1..] == init[r.value + 1..] + [ids[|ids| - 1]];
    }
  }

  /** The key a listed connection is saved under, when both its nodes are
      saved. The pin indexes are found by searching the node's pin list for
      the line's pin, which yields the pin's own index. */
  function SavedKey(s: Scene, ids: seq<nat>, c: nat): Option<Key>
    requires c < |s.lines|
  {
    var l := s.lines[c];
    match (LastIndexOf(ids, l.start.node), LastIndexOf(ids, l.end.node))
    case (Some(a), Some(b)) => Some((a, b, l.start.index as int, l.end.index as int))
    case _ => None
  }

  function RecordOf(k: Key): ConnRecord
  {
    ConnRecord(Some(k.0), Some(k.1), Some(k.2), Some(k.3), true)
  }

  function KeyOf(r: ConnRecord): Key
    requires r.startNode.Some? && r.endNode.Some? && r.startPin.Some? && r.endPin.Some?
  {
    (r.startNode.value, r.endNode.value, r.startPin.value, r.endPin.value)
  }

  /** Some connection of `conns` is saved under key `k`. */
  ghost predicate KeyListed(s: Scene, ids: seq<nat>, conns: seq<nat>, k: Key)
    requires forall c :: c in conns ==> c < |s.lines|
  {
    exists c :: c in conns && SavedKey(s, ids, c) == Some(k)
  }

  /** The connection part of `save_workflow`, over the scene's connection
      list: connections with a node that is not saved are skipped, and so is
      a connection whose key was already written. */
  function SaveConns(s: Scene, ids: seq<nat>, conns: seq<nat>, seen: set<Key>): (r: seq<Key>)
    requires forall c :: c in conns ==> c < |s.lines|
    ensures NoDups(r) && |r| <= |conns|
    ensures forall k :: k in r <==> k !in seen && KeyListed(s, ids, conns, k)
    decreases |conns|
  {
    if conns == [] then []
    else
      var c := conns[0];
      assert c in conns;
      assert forall d :: d in conns <==> d == c || d in conns[1..];
      match SavedKey(s, ids, c)
      case None => SaveConns(s, ids, conns[1..], seen)
      case Some(k) =>
        if k in seen then SaveConns(s, ids, conns[1..], seen)
        else [k] + SaveConns(s, ids, conns[1..], seen + {k})
  }

  /** `save_workflow`: the nodes on the scene in scene order, then the keys
      of the listed connections between them. */
  function SaveWorkflow(s: Scene): (d: Document)
    requires ArenaOk(s)
    ensures var ids := GetAllNodes(s.items);
            && d.nodes.Some? && |d.nodes.value| == |ids|
            && forall k :: 0 <= k < |ids| ==> ids[k] < |s.nodes| && d.nodes.value[k] == SaveNode(s.nodes[ids[k]])
    ensures d.connections.Some?
  {
    var ids := GetAllNodes(s.items);
    assert forall k :: 0 <= k < |ids| ==> ids[k] in ids && NodeItem(ids[k]) in s.items;
    var recs := seq(|ids|, k requires 0 <= k < |ids| => SaveNode(s.nodes[ids[k]]));
    var keys := SaveConns(s, ids, s.connections, {});
    Document(Some(recs), Some(seq(|keys|, i requires 0 <= i < |keys| => RecordOf(keys[i]))))
  }

  // ---------------------------------------------------------------------
  // Loading nodes
  // ---------------------------------------------------------------------

  /** Entry `i` of an optional list of saved texts, when there is one. */
  function ValueAt(values: Option<seq<string>>, i: nat): Option<string>
  {
    if values.Some? && i < |values.value| then Some(values.value[i]) else None
  }

  /** A saved text goes into the pin's line edit, when the pin has one. */
  function TextPin(p: Pin, v: Option<string>): (r: Pin)
    ensures r.lineEdit.Some? <==> p.lineEdit.Some?
    ensures r.lineEdit.Some? && v.Some? ==> r.lineEdit == v
    ensures r.(lineEdit := p.lineEdit) == p
  {
    if v.Some? && p.lineEdit.Some? then p.(lineEdit := v) else p
  }

  /** A saved selector text selects its entry, when the pin has a selector,
      the text is not empty and the selector lists it; the pin's schema
      entry follows the selection. */
  function ChoicePin(p: Pin, spec: PinSpec, v: Option<string>): (r: (Pin, PinSpec))
    ensures r.0.lineEdit == p.lineEdit && r.0.conns == p.conns && r.0.connected == p.connected
    ensures r.0.combo.Some? <==> p.combo.Some?
    ensures r != (p, spec) ==> p.combo.Some? && v.Some? && FindChoice(v.value) == Some(r.0.kind) && r.0.combo == Some(r.0.kind)
    ensures p.combo.Some? && v.Some? && v.value != "" && FindChoice(v.value).Some? ==>
              r == SelectKind(p, spec, FindChoice(v.value).value)
    ensures !(p.combo.Some? && v.Some? && v.value != "" && FindChoice(v.value).Some?) ==> r == (p, spec)
  {
    if v.Some? && p.combo.Some? && v.value != "" then
      match FindChoice(v.value)
      case Some(k) => SelectKind(p, spec, k)
      case None => (p, spec)
    else (p, spec)
  }

  /** Restore the line-edit texts of a pin list, entry `i` into pin `i`. */
  function RestoreTexts(ps: seq<Pin>, values: Option<seq<string>>, from: nat := 0): (r: seq<Pin>)
    ensures |r| == |ps|
    ensures forall i :: 0 <= i < |ps| ==> r[i] == TextPin(ps[i], ValueAt(values, from + i))
    decreases |ps|
  {
    if ps == [] then []
    else [TextPin(ps[0], ValueAt(values, from))] + RestoreTexts(ps[1..], values, from + 1)
  }

  /** Restore the selector texts of a pin list, entry `i` into pin `i`,
      together with the schema entries the selections write back. */
  function RestoreChoices(ps: seq<Pin>, specs: seq<PinSpec>, values: Option<seq<string>>, from: nat := 0): (r: (seq<Pin>, seq<PinSpec>))
    requires |specs| == |ps|
    ensures |r.0| == |ps| && |r.1| == |ps|
    ensures forall i :: 0 <= i < |ps| ==> (r.0[i], r.1[i]) == ChoicePin(ps[i], specs[i], ValueAt(values, from + i))
    decreases |ps|
  {
    if ps == [] then ([], [])
    else
      var head := ChoicePin(ps[0], specs[0], ValueAt(values, from));
      var tail := RestoreChoices(ps[1..], specs[1..], values, from + 1);
      ([head.0] + tail.0, [head.1] + tail.1)
  }

  /** Restoring a node's values touches only editors, kinds and the schema
      copy: connections, counts and everything else stay. */
  function RestoreNode(n: Node, rec: NodeRecord): (m: Node)
    requires |n.info.input| == |n.inputs| && |n.info.output| == |n.outputs|
    ensures m.title == n.title && m.pos == n.pos && m.info.nodeName == n.info.nodeName && m.info.zhName == n.info.zhName
    ensures |m.inputs| == |n.inputs| && |m.outputs| == |n.outputs|
    ensures forall i :: 0 <= i < |n.inputs| ==> m.inputs[i].conns == n.inputs[i].conns && m.inputs[i].connected == n.inputs[i].connected
    ensures forall i :: 0 <= i < |n.outputs| ==> m.outputs[i].conns == n.outputs[i].conns && m.outputs[i].connected == n.outputs[i].connected
  {
    var ins := RestoreTexts(n.inputs, rec.inputValues);
    var inc := RestoreChoices(ins, n.info.input, rec.inputChoices);
    var outs := RestoreTexts(n.outputs, rec.outputValues);
    var outc := RestoreChoices(outs, n.info.output, rec.outputChoices);
    Node(n.title, n.info.(input := inc.1, output := outc.1), inc.0, outc.0, n.pos)
  }

  /** The node `load_workflow` builds for a record of a known type. */
  function LoadedNode(cat: Catalog, rec: NodeRecord): Node
    requires rec.nodeType in cat
  {
    RestoreNode(CreateNode(cat, rec.nodeType, rec.pos).value, rec)
  }

  /** Restoring keeps every pin's connection list and flag. */
  lemma {:induction false} RestoreKeepsConns(n: Node, rec: NodeRecord, q: PinRef, nodes: seq<Node>)
    requires |n.info.input| == |n.inputs| && |n.info.output| == |n.outputs|
    requires q.node < |nodes| && nodes[q.node] == n && ValidPin(nodes, q)
    ensures var m := nodes[q.node := RestoreNode(n, rec)];
            ValidPin(m, q) && PinAt(m, q).conns == PinAt(nodes, q).conns && PinAt(m, q).connected == PinAt(nodes, q).connected
  {
  }

  /** The selector's entries have non-empty names that find themselves. */
  lemma {:induction false} ChoiceNames(k: Kind)
    requires k in ComboChoices
    ensures KindName(k) != "" && FindChoice(KindName(k)) == Some(k)
  {
  }

  /** Saving a restored fresh pin and restoring the saved texts into a new
      fresh pin gives back the same pin and schema entry. */
  lemma {:induction false} PinRoundTrip(spec: PinSpec, tv: Option<string>, cv: Option<string>)
    ensures var f := NewPin(spec);
            var r := ChoicePin(TextPin(f.0, tv), f.1, cv);
            ChoicePin(TextPin(f.0, Some(PinText(r.0))), f.1, Some(PinChoice(r.0))) == r
  {
    var f := NewPin(spec);
    var p1 := TextPin(f.0, tv);
    var r := ChoicePin(p1, f.1, cv);
    if f.0.lineEdit.Some? {
      assert TextPin(f.0, Some(PinText(r.0))) == p1;
    } else {
      assert TextPin(f.0, Some(PinText(r.0))) == p1;
      if f.0.combo.Some? {
        var k := r.0.combo.value;
        if r == (p1, f.1) {
          assert k == Int;
        } else {
          assert k in ComboChoices;
        }
        ChoiceNames(k);
      }
    }
  }

  /** The same for one side of a fresh node: restore, save, restore again. */
  lemma {:induction false} SideRoundTrip(specs: seq<PinSpec>, tv: Option<seq<string>>, cv: Option<seq<string>>)
    ensures var f := SetupPins(specs);
            var c := RestoreChoices(RestoreTexts(f.0, tv), f.1, cv);
            RestoreChoices(RestoreTexts(f.0, Some(Texts(c.0))), f.1, Some(Choices(c.0))) == c
  {
    var f := SetupPins(specs);
    var c := RestoreChoices(RestoreTexts(f.0, tv), f.1, cv);
    var c2 := RestoreChoices(RestoreTexts(f.0, Some(Texts(c.0))), f.1, Some(Choices(c.0)));
    forall i | 0 <= i < |specs|
      ensures c2.0[i] == c.0[i] && c2.1[i] == c.1[i]
    {
      PinRoundTrip(specs[i], ValueAt(tv, i), ValueAt(cv, i));
      assert ValueAt(Some(Texts(c.0)), i) == Some(PinText(c.0[i]));
      assert ValueAt(Some(Choices(c.0)), i) == Some(PinChoice(c.0[i]));
    }
    assert c2.0 == c.0 && c2.1 == c.1;
  }

  /** Loading what was saved from a loaded node gives back that node: save
      and load are inverse on the values a node's editors hold. */
  lemma {:induction false} NodeRoundTrip(cat: Catalog, rec: NodeRecord)
    requires CatalogKeyed(cat) && rec.nodeType in cat
    ensures var n := LoadedNode(cat, rec);
            SaveNode(n).nodeType == rec.nodeType && LoadedNode(cat, SaveNode(n)) == n
  {
    var info := cat[rec.nodeType];
    var n := LoadedNode(cat, rec);
    SideRoundTrip(info.input, rec.inputValues, rec.inputChoices);
    SideRoundTrip(info.output, rec.outputValues, rec.outputChoices);
  }

  /** Replace node `id` by its restored form. */
  function RestoreAt(s: Scene, id: nat, rec: NodeRecord): (t: Scene)
    requires ArenaOk(s) && id < |s.nodes|
    requires |s.nodes[id].info.input| == |s.nodes[id].inputs| && |s.nodes[id].info.output| == |s.nodes[id].outputs|
    ensures ArenaOk(t)
    ensures t.nodes == s.nodes[id := RestoreNode(s.nodes[id], rec)]
    ensures t.lines == s.lines && t.items == s.items && t.connections == s.connections
  {
    var t := s.(nodes := s.nodes[id := RestoreNode(s.nodes[id], rec)]);
    forall q | ValidPin(t.nodes, q)
      ensures ValidPin(s.nodes, q) && PinAt(t.nodes, q).conns == PinAt(s.nodes, q).conns
    {
      if q.node == id {
        RestoreKeepsConns(s.nodes[id], rec, q, s.nodes);
      }
    }
    t
  }

  /** The nodes a load creates for a record list: the loaded form of each
      leading record of a known type. */
  function LoadedNodes(cat: Catalog, recs: seq<NodeRecord>): (ns: seq<Node>)
    ensures |ns| == KnownPrefix(cat, recs)
  {
    if recs == [] || recs[0].nodeType !in cat then []
    else [LoadedNode(cat, recs[0])] + LoadedNodes(cat, recs[1..])
  }

  /** Create one record's node on top of the scene and restore its values;
      `None` when the type is unknown (the constructor raises). */
  function LoadOne(cat: Catalog, s: Scene, rec: NodeRecord): (r: Option<Scene>)
    requires ArenaOk(s)
    ensures r.Some? <==> rec.nodeType in cat
    ensures r.Some? ==>
              && ArenaOk(r.value)
              && r.value.nodes == s.nodes + [LoadedNode(cat, rec)]
              && r.value.items == [NodeItem(|s.nodes|)] + s.items
              && r.value.lines == s.lines && r.value.connections == s.connections
  {
    match AddNode(s, cat, rec.nodeType, rec.pos)
    case None => None
    case Some((t, id)) =>
      assert t.nodes[id] == CreateNode(cat, rec.nodeType, rec.pos).value;
      Some(RestoreAt(t, id, rec))
  }

  /** How many records lead the list with a known type: the nodes a load
      creates before the first unknown type stops it. */
  function KnownPrefix(cat: Catalog, recs: seq<NodeRecord>): (m: nat)
    ensures m <= |recs|
  {
    if recs == [] || recs[0].nodeType !in cat then 0
    else 1 + KnownPrefix(cat, recs[1..])
  }

  /** The leading records are exactly those before the first unknown type. */
  lemma {:induction false} KnownPrefixStops(cat: Catalog, recs: seq<NodeRecord>, k: nat)
    requires k <= |recs|
    ensures k < KnownPrefix(cat, recs) ==> recs[k].nodeType in cat
    ensures k == KnownPrefix(cat, recs) < |recs| ==> recs[k].nodeType !in cat
    decreases k
  {
    if k > 0 && recs[0].nodeType in cat {
      KnownPrefixStops(cat, recs[1..], k - 1);
    }
  }

  /** A load of nodes succeeds exactly when every record's type is known. */
  lemma {:induction false} KnownPrefixAll(cat: Catalog, recs: seq<NodeRecord>)
    ensures KnownPrefix(cat, recs) == |recs| <==> forall k :: 0 <= k < |recs| ==> recs[k].nodeType in cat
  {
    if KnownPrefix(cat, recs) == |recs| {
      forall k | 0 <= k < |recs|
        ensures recs[k].nodeType in cat
      {
        KnownPrefixStops(cat, recs, k);
      }
    } else {
      KnownPrefixStops(cat, recs, KnownPrefix(cat, recs));
    }
  }

  /** The `k`-th created node is the loaded form of the `k`-th record. */
  lemma {:induction false} LoadedNodesAt(cat: Catalog, recs: seq<NodeRecord>, k: nat)
    requires k < KnownPrefix(cat, recs)
    ensures recs[k].nodeType in cat && LoadedNodes(cat, recs)[k] == LoadedNode(cat, recs[k])
    decreases k
  {
    if k > 0 {
      LoadedNodesAt(cat, recs[1..], k - 1);
    }
  }

  lemma {:induction false} LoadedNodesUnfold(cat: Catalog, recs: seq<NodeRecord>)
    requires recs != [] && recs[0].nodeType in cat
    ensures LoadedNodes(cat, recs) == [LoadedNode(cat, recs[0])] + LoadedNodes(cat, recs[1..])
  {
  }

  /** The node part of `load_workflow`: create each record's node in order
      on top of the scene and restore its values; an unknown type raises
      and ends the load with the nodes created so far. */
  function LoadNodes(cat: Catalog, s: Scene, recs: seq<NodeRecord>): (r: (Scene, bool))
    requires ArenaOk(s)
    ensures ArenaOk(r.0) && r.0.lines == s.lines && r.0.connections == s.connections
    ensures |r.0.nodes| == |s.nodes| + KnownPrefix(cat, recs)
    ensures r.1 <==> KnownPrefix(cat, recs) == |recs|
    decreases |recs|
  {
    if recs == [] then (s, true)
    else
      match LoadOne(cat, s, recs[0])
      case None => (s, false)
      case Some(t) => LoadNodes(cat, t, recs[1..])
  }

  /** The nodes after a load are the nodes that were there followed by the
      loaded form of each leading record of a known type, in record order. */
  lemma {:induction false} LoadNodesCreates(cat: Catalog, s: Scene, recs: seq<NodeRecord>)
    requires ArenaOk(s)
    ensures LoadNodes(cat, s, recs).0.nodes == s.nodes + LoadedNodes(cat, recs)
    decreases |recs|
  {
    if recs != [] && recs[0].nodeType in cat {
      var t := LoadOne(cat, s, recs[0]).value;
      LoadNodesCreates(cat, t, recs[1..]);
      LoadedNodesUnfold(cat, recs);
      Associate(s.nodes, [LoadedNode(cat, recs[0])], LoadedNodes(cat, recs[1..]));
    }
  }

  /** Loaded into the empty scene, the nodes are exactly the created ones. */
  lemma {:induction false} LoadFromEmpty(cat: Catalog, recs: seq<NodeRecord>)
    ensures ArenaOk(EmptyScene)
    ensures LoadNodes(cat, EmptyScene, recs).0.nodes == LoadedNodes(cat, recs)
  {
    EmptySceneOk();
    LoadNodesCreates(cat, EmptyScene, recs);
    EmptyConcat(EmptyScene.nodes, LoadedNodes(cat, recs));
  }

  /** Each created node joins the scene's item list. */
  lemma {:induction false} LoadNodesItems(cat: Catalog, s: Scene, recs: seq<NodeRecord>)
    requires ArenaOk(s)
    ensures var t := LoadNodes(cat, s, recs).0;
            forall it :: it in t.items <==> it in s.items || (it.NodeItem? && |s.nodes| <= it.node < |t.nodes|)
    decreases |recs|
  {
    if recs != [] && recs[0].nodeType in cat {
      var t := LoadOne(cat, s, recs[0]).value;
      LoadNodesItems(cat, t, recs[1..]);
      assert LoadNodes(cat, s, recs).0 == LoadNodes(cat, t, recs[1..]).0;
      assert |t.nodes| == |s.nodes| + 1;
      assert forall it :: it in t.items <==> it in s.items || it == NodeItem(|s.nodes|);
    }
  }

  /** A loaded node has no connection on any pin. */
  lemma {:induction false} LoadedNodeFresh(cat: Catalog, rec: NodeRecord)
    requires rec.nodeType in cat
    ensures var n := LoadedNode(cat, rec);
            && (forall i :: 0 <= i < |n.inputs| ==> n.inputs[i].conns == [] && !n.inputs[i].connected)
            && (forall i :: 0 <= i < |n.outputs| ==> n.outputs[i].conns == [] && !n.outputs[i].connected)
  {
    var m := CreateNode(cat, rec.nodeType, rec.pos).value;
    assert forall i :: 0 <= i < |m.inputs| ==> m.inputs[i] == NewPin(cat[rec.nodeType].input[i]).0;
    assert forall i :: 0 <= i < |m.outputs| ==> m.outputs[i] == NewPin(cat[rec.nodeType].output[i]).0;
  }

  // ---------------------------------------------------------------------
  // Loading connections
  // ---------------------------------------------------------------------

  /** Python list indexing: a non-negative index counts from the front, a
      negative one from the back; anything else raises `IndexError`. */
  function PyIndex(len: nat, i: Option<int>): (r: Option<nat>)
    ensures r.Some? <==> i.Some? && -(len as int) <= i.value < len
    ensures r.Some? ==> r.value < len && (r.value as int - i.value) % len == 0
  {
    match i
    case None => None
    case Some(v) => if 0 <= v < len then Some(v) else if -(len as int) <= v < 0 then Some(len + v) else None
  }

  /** The pins a connection record names among the loaded nodes: the start
      among the outputs of its start node, the end among the inputs of its
      end node. */
  function Resolve(nodes: seq<Node>, rec: ConnRecord): (r: Option<(PinRef, PinRef)>)
    ensures r.Some? ==> rec.startNode.Some? && rec.endNode.Some? && rec.startPin.Some? && rec.endPin.Some?
    ensures r.Some? ==> && ValidPin(nodes, r.value.0) && r.value.0.dir == Output
                        && ValidPin(nodes, r.value.1) && r.value.1.dir == Input
  {
    match (PyIndex(|nodes|, rec.startNode), PyIndex(|nodes|, rec.endNode))
    case (Some(a), Some(b)) =>
      (match (PyIndex(|nodes[a].outputs|, rec.startPin), PyIndex(|nodes[b].inputs|, rec.endPin))
       case (Some(i), Some(j)) => Some((PinRef(a, Output, i), PinRef(b, Input, j)))
       case _ => None)
    case _ => None
  }

  /** Two node lists with the same number of nodes and pins. */
  ghost predicate SameShape(m: seq<Node>, n: seq<Node>)
  {
    |m| == |n| && forall i :: 0 <= i < |m| ==> |m[i].inputs| == |n[i].inputs| && |m[i].outputs| == |n[i].outputs|
  }

  lemma {:induction false} ResolveShape(m: seq<Node>, n: seq<Node>, rec: ConnRecord)
    requires SameShape(m, n)
    ensures Resolve(m, rec) == Resolve(n, rec)
  {
  }

  /** One connection record. A record that does not resolve is skipped, so
      is one whose four numbers were met before or whose end pin is already
      connected; otherwise the numbers are remembered, and a record without
      a colour is then skipped (the colour lookup raises `KeyError`), while
      one with a colour becomes a new line. */
  function LoadConn(s: Scene, rec: ConnRecord, seen: set<Key>): (r: (Scene, set<Key>))
    requires ArenaOk(s)
    ensures ArenaOk(r.0) && SameShape(s.nodes, r.0.nodes)
    ensures forall q :: ValidPin(r.0.nodes, q) <==> ValidPin(s.nodes, q)
  {
    match Resolve(s.nodes, rec)
    case None => (s, seen)
    case Some((a, b)) =>
      var key := KeyOf(rec);
      if key in seen || PinAt(s.nodes, b).connected then (s, seen)
      else if !rec.hasColor then (s, seen + {key})
      else (Join(s, a, b), seen + {key})
  }

  function LoadConns(s: Scene, recs: seq<ConnRecord>, seen: set<Key>): (r: (Scene, set<Key>))
    requires ArenaOk(s)
    ensures ArenaOk(r.0) && SameShape(s.nodes, r.0.nodes)
    ensures forall q :: ValidPin(r.0.nodes, q) <==> ValidPin(s.nodes, q)
    decreases |recs|
  {
    if recs == [] then (s, seen)
    else
      var (t, seen1) := LoadConn(s, recs[0], seen);
      LoadConns(t, recs[1..], seen1)
  }

  /** `load_workflow`: clear the scene, read the document, create its nodes,
      then its connections. A missing document (unreadable file), a missing
      `nodes` or `connections` list and an unknown node type end the load
      with `false`, keeping whatever was built. */
  function LoadWorkflow(cat: Catalog, d: Option<Document>): (r: (Scene, bool))
    ensures ArenaOk(r.0)
    ensures r.1 <==> && d.Some? && d.value.nodes.Some? && d.value.connections.Some?
                     && KnownPrefix(cat, d.value.nodes.value) == |d.value.nodes.value|
  {
    EmptySceneOk();
    if d.None? || d.value.nodes.None? then (EmptyScene, false)
    else
      var loaded := LoadNodes(cat, EmptyScene, d.value.nodes.value);
      if !loaded.1 || d.value.connections.None? then (loaded.0, false)
      else (LoadConns(loaded.0, d.value.connections.value, {}).0, true)
  }

  // ---------------------------------------------------------------------
  // What loading connections keeps and builds
  // ---------------------------------------------------------------------

  /** A new line never unflags a pin. */
  lemma {:induction false} LoadConnKeepsConnected(s: Scene, rec: ConnRecord, seen: set<Key>, q: PinRef)
    requires ArenaOk(s) && ValidPin(s.nodes, q) && PinAt(s.nodes, q).connected
    ensures PinAt(LoadConn(s, rec, seen).0.nodes, q).connected
  {
    match Resolve(s.nodes, rec)
    case None =>
    case Some((a, b)) =>
      if q == a || q == b {
        assert q in {a, b};
      }
  }

  lemma {:induction false} LoadConnsKeepsConnected(s: Scene, recs: seq<ConnRecord>, seen: set<Key>, q: PinRef)
    requires ArenaOk(s) && ValidPin(s.nodes, q) && PinAt(s.nodes, q).connected
    ensures PinAt(LoadConns(s, recs, seen).0.nodes, q).connected
    decreases |recs|
  {
    if recs != [] {
      var (t, seen1) := LoadConn(s, recs[0], seen);
      LoadConnKeepsConnected(s, recs[0], seen, q);
      LoadConnsKeepsConnected(t, recs[1..], seen1, q);
    }
  }

  /** A new line goes to an unconnected input only, so every input keeps at
      most one connection. */
  lemma {:induction false} LoadConnInputsSingle(s: Scene, rec: ConnRecord, seen: set<Key>)
    requires ArenaOk(s) && InputsSingle(s)
    ensures InputsSingle(LoadConn(s, rec, seen).0)
  {
    var t := LoadConn(s, rec, seen).0;
    if t != s {
      var (a, b) := Resolve(s.nodes, rec).value;
      assert t == Join(s, a, b);
      forall r | ValidPin(t.nodes, r) && r.dir == Input
        ensures |PinAt(t.nodes, r).conns| <= 1 && (PinAt(t.nodes, r).connected <==> PinAt(t.nodes, r).conns != [])
      {
        if r == b {
          assert PinAt(s.nodes, b).conns == [];
        } else {
          assert r != a;
        }
      }
    }
  }

  lemma {:induction false} LoadConnsInputsSingle(s: Scene, recs: seq<ConnRecord>, seen: set<Key>)
    requires ArenaOk(s) && InputsSingle(s)
    ensures InputsSingle(LoadConns(s, recs, seen).0)
    decreases |recs|
  {
    if recs != [] {
      var (t, seen1) := LoadConn(s, recs[0], seen);
      LoadConnInputsSingle(s, recs[0], seen);
      LoadConnsInputsSingle(t, recs[1..], seen1);
    }
  }

  /** After a new line, a pin's list still names distinct lines that touch
      it. */
  lemma {:induction false} JoinLinkedAt(s: Scene, a: PinRef, b: PinRef, r: PinRef)
    requires ArenaOk(s) && ValidPin(s.nodes, a) && ValidPin(s.nodes, b) && a.dir == Output && b.dir == Input
    requires Linked(s.nodes, s.lines) && ValidPin(s.nodes, r)
    ensures var t := Join(s, a, b);
            && NoDups(PinAt(t.nodes, r).conns)
            && forall d :: d in PinAt(t.nodes, r).conns ==> d < |t.lines| && (t.lines[d].start == r || t.lines[d].end == r)
  {
    var t := Join(s, a, b);
    var c := |s.lines|;
    var old_ := PinAt(s.nodes, r).conns;
    assert forall d :: d in old_ ==> d < c && t.lines[d] == s.lines[d];
    if r == a || r == b {
      assert PinAt(t.nodes, r).conns == old_ + [c];
      assert c !in old_;
      NoDupsAppend(old_, [c]);
      assert t.lines[c] == Line(a, b);
    }
  }

  /** A new line is listed by exactly its two pins, once each. */
  lemma {:induction false} JoinLinked(s: Scene, a: PinRef, b: PinRef)
    requires ArenaOk(s) && ValidPin(s.nodes, a) && ValidPin(s.nodes, b) && a.dir == Output && b.dir == Input
    requires Linked(s.nodes, s.lines)
    ensures Linked(Join(s, a, b).nodes, Join(s, a, b).lines)
  {
    var t := Join(s, a, b);
    forall r | ValidPin(t.nodes, r)
      ensures NoDups(PinAt(t.nodes, r).conns)
      ensures forall d :: d in PinAt(t.nodes, r).conns ==> d < |t.lines| && (t.lines[d].start == r || t.lines[d].end == r)
    {
      JoinLinkedAt(s, a, b, r);
    }
  }

  lemma {:induction false} LoadConnLinked(s: Scene, rec: ConnRecord, seen: set<Key>)
    requires ArenaOk(s) && Linked(s.nodes, s.lines)
    ensures Linked(LoadConn(s, rec, seen).0.nodes, LoadConn(s, rec, seen).0.lines)
  {
    match Resolve(s.nodes, rec)
    case None =>
    case Some((a, b)) => JoinLinked(s, a, b);
  }

  lemma {:induction false} LoadConnsLinked(s: Scene, recs: seq<ConnRecord>, seen: set<Key>)
    requires ArenaOk(s) && Linked(s.nodes, s.lines)
    ensures Linked(LoadConns(s, recs, seen).0.nodes, LoadConns(s, recs, seen).0.lines)
    decreases |recs|
  {
    if recs != [] {
      var (t, seen1) := LoadConn(s, recs[0], seen);
      LoadConnLinked(s, recs[0], seen);
      LoadConnsLinked(t, recs[1..], seen1);
    }
  }

  /** One record adds at most one line, at the end of the arena, and lists
      it with the scene and among the items. */
  lemma {:induction false} LoadConnAppends(s: Scene, rec: ConnRecord, seen: set<Key>)
    requires ArenaOk(s)
    ensures var t := LoadConn(s, rec, seen).0;
            && (t.lines == s.lines || t.lines == s.lines + [t.lines[|s.lines|]])
            && (t.lines == s.lines ==> t.connections == s.connections && t.items == s.items)
            && (t.lines != s.lines ==> t.connections == s.connections + [|s.lines|] && t.items == s.items + [LineItem(|s.lines|)])
  {
  }

  /** Loading connections appends lines and keeps the old ones. */
  lemma {:induction false} LoadConnsKeepsLines(s: Scene, recs: seq<ConnRecord>, seen: set<Key>)
    requires ArenaOk(s)
    ensures var t := LoadConns(s, recs, seen).0;
            |s.lines| <= |t.lines| && forall i :: 0 <= i < |s.lines| ==> t.lines[i] == s.lines[i]
    decreases |recs|
  {
    if recs != [] {
      var (t1, seen1) := LoadConn(s, recs[0], seen);
      LoadConnAppends(s, recs[0], seen);
      LoadConnsKeepsLines(t1, recs[1..], seen1);
    }
  }

  /** Every new line joins the scene's connection list, and nothing else
      does. */
  lemma {:induction false} LoadConnsLists(s: Scene, recs: seq<ConnRecord>, seen: set<Key>)
    requires ArenaOk(s)
    ensures var t := LoadConns(s, recs, seen).0;
            forall c :: c in t.connections <==> c in s.connections || |s.lines| <= c < |t.lines|
    decreases |recs|
  {
    if recs != [] {
      var (t1, seen1) := LoadConn(s, recs[0], seen);
      LoadConnAppends(s, recs[0], seen);
      LoadConnsLists(t1, recs[1..], seen1);
      LoadConnsKeepsLines(t1, recs[1..], seen1);
    }
  }

  /** Every new line joins the item list, and nothing else does. */
  lemma {:induction false} LoadConnsItems(s: Scene, recs: seq<ConnRecord>, seen: set<Key>)
    requires ArenaOk(s)
    ensures var t := LoadConns(s, recs, seen).0;
            forall it :: it in t.items <==> it in s.items || (it.LineItem? && |s.lines| <= it.line < |t.lines|)
    decreases |recs|
  {
    if recs != [] {
      var step := LoadConn(s, recs[0], seen);
      LoadConnItems(s, recs[0], seen);
      LoadConnsItems(step.0, recs[1..], step.1);
      LoadConnsKeepsLines(step.0, recs[1..], step.1);
      assert LoadConns(s, recs, seen) == LoadConns(step.0, recs[1..], step.1);
    }
  }

  /** One record adds at most one line, and its item is the only new one. */
  lemma {:induction false} LoadConnItems(s: Scene, rec: ConnRecord, seen: set<Key>)
    requires ArenaOk(s)
    ensures var t := LoadConn(s, rec, seen).0;
            && |s.lines| <= |t.lines|
            && forall it :: it in t.items <==> it in s.items || (it.LineItem? && |s.lines| <= it.line < |t.lines|)
  {
    LoadConnAppends(s, rec, seen);
  }

  /** Record `k` names, among `nodes`, the two ends of line `l` and carries
      a colour. */
  ghost predicate FromRecord(nodes: seq<Node>, recs: seq<ConnRecord>, l: Line)
  {
    exists k :: 0 <= k < |recs| && recs[k].hasColor && Resolve(nodes, recs[k]) == Some((l.start, l.end))
  }

  /** The line one record adds joins the two pins the record names, and
      the record carries a colour. */
  lemma {:induction false} LoadConnFromRecord(s: Scene, rec: ConnRecord, seen: set<Key>)
    requires ArenaOk(s)
    ensures var t := LoadConn(s, rec, seen).0;
            forall c :: |s.lines| <= c < |t.lines| ==>
              rec.hasColor && Resolve(s.nodes, rec) == Some((t.lines[c].start, t.lines[c].end))
  {
    var t := LoadConn(s, rec, seen).0;
    LoadConnAppends(s, rec, seen);
    if |t.lines| > |s.lines| {
      var ab := Resolve(s.nodes, rec).value;
      assert t == Join(s, ab.0, ab.1);
    }
  }

  /** Every line a load creates is named by some coloured record. */
  lemma {:induction false} LoadConnsFromRecords(s: Scene, recs: seq<ConnRecord>, seen: set<Key>)
    requires ArenaOk(s)
    ensures var t := LoadConns(s, recs, seen).0;
            forall c :: |s.lines| <= c < |t.lines| ==> FromRecord(s.nodes, recs, t.lines[c])
    decreases |recs|
  {
    if recs != [] {
      var step := LoadConn(s, recs[0], seen);
      var t1, seen1 := step.0, step.1;
      var t := LoadConns(s, recs, seen).0;
      assert t == LoadConns(t1, recs[1..], seen1).0;
      LoadConnsFromRecords(t1, recs[1..], seen1);
      LoadConnsKeepsLines(t1, recs[1..], seen1);
      LoadConnFromRecord(s, recs[0], seen);
      forall c | |s.lines| <= c < |t.lines|
        ensures FromRecord(s.nodes, recs, t.lines[c])
      {
        if c < |t1.lines| {
          assert t.lines[c] == t1.lines[c];
          assert recs[0].hasColor && Resolve(s.nodes, recs[0]) == Some((t.lines[c].start, t.lines[c].end));
        } else {
          var k :| 0 <= k < |recs[1..]| && recs[1..][k].hasColor && Resolve(t1.nodes, recs[1..][k]) == Some((t.lines[c].start, t.lines[c].end));
          ResolveShape(t1.nodes, s.nodes, recs[1..][k]);
          assert recs[1..][k] == recs[k + 1];
        }
      }
    }
  }

  /** The end pin a key names, when it names one. */
  function KeyEnd(nodes: seq<Node>, k: Key): Option<PinRef>
  {
    match Resolve(nodes, RecordOf(k))
    case Some((_, b)) => Some(b)
    case None => None
  }

  /** Every remembered key names an end pin, and that pin is connected. */
  ghost predicate SeenJoined(s: Scene, seen: set<Key>)
  {
    forall k :: k in seen ==> KeyEnd(s.nodes, k).Some? && ValidPin(s.nodes, KeyEnd(s.nodes, k).value)
                              && PinAt(s.nodes, KeyEnd(s.nodes, k).value).connected
  }

  /** A record names the pins of its own key: the colour plays no part. */
  lemma {:induction false} ResolveByKey(nodes: seq<Node>, rec: ConnRecord)
    requires Resolve(nodes, rec).Some?
    ensures KeyEnd(nodes, KeyOf(rec)) == Some(Resolve(nodes, rec).value.1)
  {
    assert RecordOf(KeyOf(rec)) == rec.(hasColor := true);
  }

  /** One record keeps the remembered keys' end pins connected. */
  lemma {:induction false} SeenStaysJoined(s: Scene, rec: ConnRecord, seen: set<Key>)
    requires ArenaOk(s) && SeenJoined(s, seen)
    ensures SeenJoined(LoadConn(s, rec, seen).0, seen)
  {
    var t := LoadConn(s, rec, seen).0;
    forall k | k in seen
      ensures KeyEnd(t.nodes, k) == KeyEnd(s.nodes, k) && PinAt(t.nodes, KeyEnd(s.nodes, k).value).connected
    {
      ResolveShape(t.nodes, s.nodes, RecordOf(k));
      LoadConnKeepsConnected(s, rec, seen, KeyEnd(s.nodes, k).value);
    }
  }

  /** One coloured record keeps the remembered keys' pins connected and
      leaves its own end pin connected. */
  lemma {:induction false} LoadConnConnects(s: Scene, rec: ConnRecord, seen: set<Key>)
    requires ArenaOk(s) && SeenJoined(s, seen) && rec.hasColor
    ensures var r := LoadConn(s, rec, seen);
            && SeenJoined(r.0, r.1)
            && (Resolve(s.nodes, rec).Some? ==> PinAt(r.0.nodes, Resolve(s.nodes, rec).value.1).connected)
  {
    var r := LoadConn(s, rec, seen);
    var t := r.0;
    SeenStaysJoined(s, rec, seen);
    if Resolve(s.nodes, rec).Some? {
      var b := Resolve(s.nodes, rec).value.1;
      ResolveByKey(s.nodes, rec);
      ResolveShape(t.nodes, s.nodes, RecordOf(KeyOf(rec)));
      if PinAt(s.nodes, b).connected {
        LoadConnKeepsConnected(s, rec, seen, b);
      }
      assert PinAt(t.nodes, b).connected;
      assert KeyEnd(t.nodes, KeyOf(rec)) == Some(b);
      assert r.1 == seen || r.1 == seen + {KeyOf(rec)};
    } else {
      assert r.1 == seen;
    }
  }

  /** When every record carries a colour, every record that names two pins
      leaves its end pin connected: by its own line, or by the line of an
      earlier record with the same numbers, or because the pin was already
      taken. */
  lemma {:induction false} LoadConnsConnects(s: Scene, recs: seq<ConnRecord>, seen: set<Key>)
    requires ArenaOk(s) && SeenJoined(s, seen)
    requires forall k :: 0 <= k < |recs| ==> recs[k].hasColor
    ensures var t := LoadConns(s, recs, seen).0;
            forall k :: 0 <= k < |recs| && Resolve(s.nodes, recs[k]).Some? ==>
              PinAt(t.nodes, Resolve(s.nodes, recs[k]).value.1).connected
    decreases |recs|
  {
    if recs != [] {
      var (t1, seen1) := LoadConn(s, recs[0], seen);
      var t := LoadConns(s, recs, seen).0;
      assert t == LoadConns(t1, recs[1..], seen1).0;
      LoadConnConnects(s, recs[0], seen);
      LoadConnsConnects(t1, recs[1..], seen1);
      forall k | 0 <= k < |recs| && Resolve(s.nodes, recs[k]).Some?
        ensures PinAt(t.nodes, Resolve(s.nodes, recs[k]).value.1).connected
      {
        ResolveShape(t1.nodes, s.nodes, recs[k]);
        if k == 0 {
          LoadConnsKeepsConnected(t1, recs[1..], seen1, Resolve(s.nodes, recs[0]).value.1);
        } else {
          assert recs[k] == recs[1..][k - 1];
        }
      }
    }
  }

  // ---------------------------------------------------------------------
  // Nodes up to their connections
  // ---------------------------------------------------------------------

  /** A pin without its connections. */
  function Unlinked(p: Pin): Pin
  {
    p.(conns := [], connected := false)
  }

  /** Two nodes that differ at most in their pins' connection lists and
      flags. */
  predicate SameButLinks(m: Node, n: Node)
  {
    && m.title == n.title && m.info == n.info && m.pos == n.pos
    && |m.inputs| == |n.inputs| && |m.outputs| == |n.outputs|
    && (forall i :: 0 <= i < |m.inputs| ==> Unlinked(m.inputs[i]) == Unlinked(n.inputs[i]))
    && (forall i :: 0 <= i < |m.outputs| ==> Unlinked(m.outputs[i]) == Unlinked(n.outputs[i]))
  }

  lemma {:induction false} SameButLinksSymmetric(m: Node, n: Node)
    requires SameButLinks(m, n)
    ensures SameButLinks(n, m)
  {
  }

  lemma {:induction false} SameButLinksTransitive(l: Node, m: Node, n: Node)
    requires SameButLinks(l, m) && SameButLinks(m, n)
    ensures SameButLinks(l, n)
  {
  }

  /** What is saved for a node does not depend on its connections. */
  lemma {:induction false} SaveIgnoresLinks(m: Node, n: Node)
    requires SameButLinks(m, n)
    ensures SaveNode(m) == SaveNode(n)
  {
    assert forall i :: 0 <= i < |m.inputs| ==> m.inputs[i].lineEdit == n.inputs[i].lineEdit && m.inputs[i].combo == n.inputs[i].combo;
    assert forall i :: 0 <= i < |m.outputs| ==> m.outputs[i].lineEdit == n.outputs[i].lineEdit && m.outputs[i].combo == n.outputs[i].combo;
    assert Texts(m.inputs) == Texts(n.inputs) && Choices(m.inputs) == Choices(n.inputs);
    assert Texts(m.outputs) == Texts(n.outputs) && Choices(m.outputs) == Choices(n.outputs);
  }

  /** A new line changes nodes only in their connections. */
  lemma {:induction false} JoinSameButLinks(s: Scene, a: PinRef, b: PinRef, i: nat)
    requires ArenaOk(s) && ValidPin(s.nodes, a) && ValidPin(s.nodes, b) && a.dir == Output && b.dir == Input
    requires i < |s.nodes|
    ensures SameButLinks(Join(s, a, b).nodes[i], s.nodes[i])
  {
    var t := Join(s, a, b);
    forall j | 0 <= j < |s.nodes[i].inputs|
      ensures Unlinked(t.nodes[i].inputs[j]) == Unlinked(s.nodes[i].inputs[j])
    {
      var q := PinRef(i, Input, j);
      assert PinAt(t.nodes, q) == t.nodes[i].inputs[j] && PinAt(s.nodes, q) == s.nodes[i].inputs[j];
    }
    forall j | 0 <= j < |s.nodes[i].outputs|
      ensures Unlinked(t.nodes[i].outputs[j]) == Unlinked(s.nodes[i].outputs[j])
    {
      var q := PinRef(i, Output, j);
      assert PinAt(t.nodes, q) == t.nodes[i].outputs[j] && PinAt(s.nodes, q) == s.nodes[i].outputs[j];
    }
  }

  lemma {:induction false} LoadConnsSameButLinks(s: Scene, recs: seq<ConnRecord>, seen: set<Key>, i: nat)
    requires ArenaOk(s) && i < |s.nodes|
    ensures SameButLinks(LoadConns(s, recs, seen).0.nodes[i], s.nodes[i])
    decreases |recs|
  {
    if recs != [] {
      var (t, seen1) := LoadConn(s, recs[0], seen);
      LoadConnsSameButLinks(t, recs[1..], seen1, i);
      match Resolve(s.nodes, recs[0])
      case None =>
      case Some((a, b)) =>
        JoinSameButLinks(s, a, b, i);
    }
  }

  // ---------------------------------------------------------------------
  // The loaded scene
  // ---------------------------------------------------------------------

  /** Right after the nodes are loaded no pin has a connection. */
  lemma {:induction false} NodesLoadedFresh(cat: Catalog, recs: seq<NodeRecord>)
    ensures var s := LoadNodes(cat, EmptyScene, recs).0;
            forall q :: ValidPin(s.nodes, q) ==> PinAt(s.nodes, q).conns == [] && !PinAt(s.nodes, q).connected
  {
    LoadFromEmpty(cat, recs);
    var s := LoadNodes(cat, EmptyScene, recs).0;
    forall q | ValidPin(s.nodes, q)
      ensures PinAt(s.nodes, q).conns == [] && !PinAt(s.nodes, q).connected
    {
      LoadedNodesAt(cat, recs, q.node);
      LoadedNodeFresh(cat, recs[q.node]);
    }
  }

  /** A scene whose bookkeeping agrees: references in range, at most one
      connection per input, every pin's list names lines that touch it, the
      scene's connection list holds every line, and the item list holds
      every node and every line. */
  ghost predicate Consistent(s: Scene)
  {
    && ArenaOk(s) && InputsSingle(s) && Linked(s.nodes, s.lines)
    && (forall c: nat :: c in s.connections <==> c < |s.lines|)
    && (forall it :: it in s.items <==> (it.NodeItem? && it.node < |s.nodes|) || (it.LineItem? && it.line < |s.lines|))
  }

  /** The nodes a load creates, before any connection, form a consistent
      scene. */
  lemma {:induction false} NodesLoadedConsistent(cat: Catalog, recs: seq<NodeRecord>)
    ensures Consistent(LoadNodes(cat, EmptyScene, recs).0)
  {
    EmptySceneOk();
    var s := LoadNodes(cat, EmptyScene, recs).0;
    NodesLoadedFresh(cat, recs);
    LoadNodesItems(cat, EmptyScene, recs);
    FreshConsistent(s);
  }

  /** A scene of unconnected nodes, with no line and every node an item,
      is consistent. */
  lemma {:induction false} FreshConsistent(s: Scene)
    requires ArenaOk(s) && s.lines == [] && s.connections == []
    requires forall q :: ValidPin(s.nodes, q) ==> PinAt(s.nodes, q).conns == [] && !PinAt(s.nodes, q).connected
    requires forall it :: it in s.items <==> it in EmptyScene.items || (it.NodeItem? && |EmptyScene.nodes| <= it.node < |s.nodes|)
    ensures Consistent(s)
  {
    forall r | ValidPin(s.nodes, r)
      ensures NoDups(PinAt(s.nodes, r).conns)
    {
      assert PinAt(s.nodes, r).conns == [];
    }
  }

  /** Loading connections keeps a scene consistent. */
  lemma {:induction false} LoadConnsConsistent(s: Scene, recs: seq<ConnRecord>, seen: set<Key>)
    requires Consistent(s)
    ensures Consistent(LoadConns(s, recs, seen).0)
  {
    LoadConnsInputsSingle(s, recs, seen);
    LoadConnsLinked(s, recs, seen);
    LoadConnsLists(s, recs, seen);
    LoadConnsItems(s, recs, seen);
  }

  /** Whatever a load ends with, finished or not, is consistent. */
  lemma {:induction false} LoadWorkflowConsistent(cat: Catalog, d: Option<Document>)
    ensures Consistent(LoadWorkflow(cat, d).0)
  {
    EmptySceneOk();
    if d.None? || d.value.nodes.None? {
      assert LoadWorkflow(cat, d).0 == EmptyScene;
    } else {
      var recs := d.value.nodes.value;
      var loaded := LoadNodes(cat, EmptyScene, recs);
      NodesLoadedConsistent(cat, recs);
      if !loaded.1 || d.value.connections.None? {
        assert LoadWorkflow(cat, d).0 == loaded.0;
      } else {
        LoadConnsConsistent(loaded.0, d.value.connections.value, {});
        assert LoadWorkflow(cat, d).0 == LoadConns(loaded.0, d.value.connections.value, {}).0;
      }
    }
  }
}
