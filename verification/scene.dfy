/** The canvas scene (CanvasScene.py): an arena of nodes, an arena of
    connection lines, the scene's item list and its list of live
    connections, with the editing operations that add nodes and connect and
    disconnect pins. Object identity is arena position: a node is its index
    in `nodes`, a connection line its index in `lines`, a pin a `PinRef`. */
module Scene {
  import opened Types
  import opened Pins
  import opened Nodes

  /** A pin, named by its node, its side and its position on that side. */
  datatype PinRef = PinRef(node: nat, dir: Direction, index: nat)

  /** A connection line from an output pin to an input pin. */
  datatype Line = Line(start: PinRef, end: PinRef)

  /** The graphics items the engine cares about. */
  datatype Item = NodeItem(node: nat) | LineItem(line: nat)

  /** `items` is the scene's item list: node items topmost first (a node
      added later sits on top of earlier ones), and line items, which sit
      below every node, after all nodes in creation order. The engine never
      reads the relative order of line items. `connections` is the scene's
      own list of connection ids. */
  datatype Scene = Scene(nodes: seq<Node>, lines: seq<Line>, items: seq<Item>, connections: seq<nat>)

  const EmptyScene: Scene := Scene([], [], [], [])

  lemma {:induction false} EmptySceneOk()
    ensures ArenaOk(EmptyScene)
  {
  }

  function PinsOf(n: Node, d: Direction): seq<Pin>
  {
    if d == Input then n.inputs else n.outputs
  }

  predicate ValidPin(nodes: seq<Node>, r: PinRef)
  {
    r.node < |nodes| && r.index < |PinsOf(nodes[r.node], r.dir)|
  }

  function PinAt(nodes: seq<Node>, r: PinRef): Pin
    requires ValidPin(nodes, r)
  {
    PinsOf(nodes[r.node], r.dir)[r.index]
  }

  /** Every reference in the scene names something in its arenas, and every
      line runs from an output pin to an input pin. */
  ghost predicate ArenaOk(s: Scene)
  {
    && (forall it :: it in s.items ==>
          && (it.NodeItem? ==> it.node < |s.nodes|)
          && (it.LineItem? ==> it.line < |s.lines|))
    && (forall c :: c in s.connections ==> c < |s.lines|)
    && (forall l :: 0 <= l < |s.lines| ==>
          && ValidPin(s.nodes, s.lines[l].start) && s.lines[l].start.dir == Output
          && ValidPin(s.nodes, s.lines[l].end) && s.lines[l].end.dir == Input)
    && (forall r :: ValidPin(s.nodes, r) ==> forall c :: c in PinAt(s.nodes, r).conns ==> c < |s.lines|)
  }

  /** The scene with one pin replaced. */
  function WithPin(s: Scene, r: PinRef, p: Pin): (t: Scene)
    requires ValidPin(s.nodes, r)
    ensures |t.nodes| == |s.nodes| && t.lines == s.lines && t.items == s.items && t.connections == s.connections
    ensures forall q :: ValidPin(t.nodes, q) <==> ValidPin(s.nodes, q)
    ensures forall q :: ValidPin(s.nodes, q) ==> PinAt(t.nodes, q) == if q == r then p else PinAt(s.nodes, q)
    ensures forall i :: 0 <= i < |s.nodes| ==>
              && t.nodes[i].info == s.nodes[i].info && t.nodes[i].title == s.nodes[i].title
              && t.nodes[i].pos == s.nodes[i].pos
              && |t.nodes[i].inputs| == |s.nodes[i].inputs| && |t.nodes[i].outputs| == |s.nodes[i].outputs|
  {
    var n := s.nodes[r.node];
    var n' := if r.dir == Input then n.(inputs := n.inputs[r.index := p]) else n.(outputs := n.outputs[r.index := p]);
    s.(nodes := s.nodes[r.node := n'])
  }

  /** Replacing a pin by one whose connections are also in the line arena
      keeps the arenas consistent. */
  lemma {:induction false} WithPinArenaOk(s: Scene, r: PinRef, p: Pin)
    requires ArenaOk(s) && ValidPin(s.nodes, r)
    requires forall c :: c in p.conns ==> c < |s.lines|
    ensures ArenaOk(WithPin(s, r, p))
  {
    var t := WithPin(s, r, p);
    forall q | ValidPin(t.nodes, q)
      ensures forall c :: c in PinAt(t.nodes, q).conns ==> c < |t.lines|
    {
      assert ValidPin(s.nodes, q);
    }
  }

  /** Replace one pin, keeping the arenas consistent. */
  function SetPin(s: Scene, r: PinRef, p: Pin): (t: Scene)
    requires ArenaOk(s) && ValidPin(s.nodes, r)
    requires forall c :: c in p.conns ==> c < |s.lines|
    ensures ArenaOk(t)
    ensures |t.nodes| == |s.nodes| && t.lines == s.lines && t.items == s.items && t.connections == s.connections
    ensures forall q :: ValidPin(t.nodes, q) <==> ValidPin(s.nodes, q)
    ensures forall q :: ValidPin(s.nodes, q) ==> PinAt(t.nodes, q) == if q == r then p else PinAt(s.nodes, q)
    ensures forall i :: 0 <= i < |s.nodes| ==>
              && t.nodes[i].info == s.nodes[i].info && t.nodes[i].title == s.nodes[i].title
              && t.nodes[i].pos == s.nodes[i].pos
  {
    WithPinArenaOk(s, r, p);
    WithPin(s, r, p)
  }

  /** Drop the first occurrence of connection `c` from pin `r`'s list. */
  function Detach(s: Scene, r: PinRef, c: nat): (t: Scene)
    requires ArenaOk(s) && ValidPin(s.nodes, r)
    ensures ArenaOk(t)
    ensures |t.nodes| == |s.nodes| && t.lines == s.lines && t.items == s.items && t.connections == s.connections
    ensures forall q :: ValidPin(t.nodes, q) <==> ValidPin(s.nodes, q)
    ensures forall q :: ValidPin(s.nodes, q) ==>
              PinAt(t.nodes, q) == if q == r then PinAt(s.nodes, r).(conns := RemoveFirst(PinAt(s.nodes, r).conns, c)) else PinAt(s.nodes, q)
    ensures forall i :: 0 <= i < |s.nodes| ==>
              && t.nodes[i].info == s.nodes[i].info && t.nodes[i].title == s.nodes[i].title
              && t.nodes[i].pos == s.nodes[i].pos
  {
    var p := PinAt(s.nodes, r);
    SetPin(s, r, p.(conns := RemoveFirst(p.conns, c)))
  }

  /** Set pin `r`'s connected flag. */
  function Flag(s: Scene, r: PinRef, b: bool): (t: Scene)
    requires ArenaOk(s) && ValidPin(s.nodes, r)
    ensures ArenaOk(t)
    ensures |t.nodes| == |s.nodes| && t.lines == s.lines && t.items == s.items && t.connections == s.connections
    ensures forall q :: ValidPin(t.nodes, q) <==> ValidPin(s.nodes, q)
    ensures forall q :: ValidPin(s.nodes, q) ==>
              PinAt(t.nodes, q) == if q == r then PinAt(s.nodes, r).(connected := b) else PinAt(s.nodes, q)
    ensures forall i :: 0 <= i < |s.nodes| ==>
              && t.nodes[i].info == s.nodes[i].info && t.nodes[i].title == s.nodes[i].title
              && t.nodes[i].pos == s.nodes[i].pos
  {
    SetPin(s, r, PinAt(s.nodes, r).(connected := b))
  }

  /** `get_all_node`: the node items of the scene, in scene order. */
  function GetAllNodes(items: seq<Item>): (r: seq<nat>)
    ensures |r| <= |items|
    ensures forall n :: n in r <==> NodeItem(n) in items
    ensures NoDups(items) ==> NoDups(r)
  {
    if items == [] then []
    else
      var rest := GetAllNodes(items[1..]);
      assert forall n :: NodeItem(n) in items <==> NodeItem(n) == items[0] || NodeItem(n) in items[1..];
      assert NoDups(items) ==> items[0] !in items[1..];
      (if items[0].NodeItem? then [items[0].node] else []) + rest
  }

  /** Collecting node items distributes over a split of the item list, so
      the nodes come out in the order their items appear. */
  lemma {:induction false} GetAllNodesAppend(a: seq<Item>, b: seq<Item>)
    ensures GetAllNodes(a + b) == GetAllNodes(a) + GetAllNodes(b)
  {
    if a == [] {
      assert a + b == b;
    } else {
      assert (a + b)[1..] == a[1..] + b;
      GetAllNodesAppend(a[1..], b);
    }
  }

  /** `add_node`: create a node of the named type and put it on top of the
      scene. Fails when the type is not in the catalog. */
  function AddNode(s: Scene, cat: Catalog, typeName: string, pos: Position): (r: Option<(Scene, nat)>)
    requires ArenaOk(s)
    ensures r.Some? <==> typeName in cat
    ensures r.Some? ==>
              && r.value.1 == |s.nodes|
              && CreateNode(cat, typeName, pos).Some?
              && r.value.0.nodes == s.nodes + [CreateNode(cat, typeName, pos).value]
              && r.value.0.items == [NodeItem(r.value.1)] + s.items
              && r.value.0.lines == s.lines && r.value.0.connections == s.connections
              && ArenaOk(r.value.0)
  {
    match CreateNode(cat, typeName, pos)
    case None => None
    case Some(n) =>
      var t := Scene(s.nodes + [n], s.lines, [NodeItem(|s.nodes|)] + s.items, s.connections);
      AddedArenaOk(s, n);
      Some((t, |s.nodes|))
  }

  /** A fresh node put on top of a well-formed scene keeps it well-formed. */
  lemma {:induction false} AddedArenaOk(s: Scene, n: Node)
    requires ArenaOk(s) && forall i :: 0 <= i < |n.inputs| ==> n.inputs[i].conns == []
    requires forall i :: 0 <= i < |n.outputs| ==> n.outputs[i].conns == []
    ensures ArenaOk(Scene(s.nodes + [n], s.lines, [NodeItem(|s.nodes|)] + s.items, s.connections))
  {
    var t := Scene(s.nodes + [n], s.lines, [NodeItem(|s.nodes|)] + s.items, s.connections);
    assert forall q :: ValidPin(s.nodes, q) ==> ValidPin(t.nodes, q) && PinAt(t.nodes, q) == PinAt(s.nodes, q);
    assert forall q :: ValidPin(t.nodes, q) && q.node == |s.nodes| ==> PinAt(t.nodes, q).conns == [];
  }

  /** The guard of `create_connection`: output to input, same data kind,
      different nodes. */
  predicate CanConnect(s: Scene, a: PinRef, b: PinRef)
    requires ValidPin(s.nodes, a) && ValidPin(s.nodes, b)
  {
    a.dir == Output && b.dir == Input && PinAt(s.nodes, a).kind == PinAt(s.nodes, b).kind && a.node != b.node
  }

  /** A pin with one more connection, marked connected. */
  function Attach(p: Pin, c: nat): Pin
  {
    p.(conns := p.conns + [c], connected := true)
  }

  /** Appending a line between two valid pins, before either pin lists it,
      keeps a scene well-formed. */
  lemma {:induction false} AppendLineArenaOk(s: Scene, a: PinRef, b: PinRef)
    requires ArenaOk(s) && ValidPin(s.nodes, a) && ValidPin(s.nodes, b) && a.dir == Output && b.dir == Input
    ensures var c := |s.lines|;
            ArenaOk(s.(lines := s.lines + [Line(a, b)], connections := s.connections + [c], items := s.items + [LineItem(c)]))
  {
    var c := |s.lines|;
    var s1 := s.(lines := s.lines + [Line(a, b)], connections := s.connections + [c], items := s.items + [LineItem(c)]);
    forall l | 0 <= l < |s1.lines|
      ensures ValidPin(s1.nodes, s1.lines[l].start) && s1.lines[l].start.dir == Output
      ensures ValidPin(s1.nodes, s1.lines[l].end) && s1.lines[l].end.dir == Input
    {
      if l < c {
        assert s1.lines[l] == s.lines[l];
      }
    }
  }

  /** A new line from output pin `a` to input pin `b`: it is appended to
      the line arena, the scene's list and the item list, and to both pins'
      lists, and both pins become connected. */
  function Join(s: Scene, a: PinRef, b: PinRef): (t: Scene)
    requires ArenaOk(s) && ValidPin(s.nodes, a) && ValidPin(s.nodes, b) && a.dir == Output && b.dir == Input
    ensures ArenaOk(t)
    ensures |t.nodes| == |s.nodes|
    ensures forall q :: ValidPin(t.nodes, q) <==> ValidPin(s.nodes, q)
    ensures var c := |s.lines|;
            && t.lines == s.lines + [Line(a, b)]
            && t.connections == s.connections + [c]
            && t.items == s.items + [LineItem(c)]
            && PinAt(t.nodes, a) == Attach(PinAt(s.nodes, a), c)
            && PinAt(t.nodes, b) == Attach(PinAt(s.nodes, b), c)
    ensures forall q :: ValidPin(s.nodes, q) && q != a && q != b ==> PinAt(t.nodes, q) == PinAt(s.nodes, q)
    ensures forall i :: 0 <= i < |s.nodes| ==>
              && t.nodes[i].info == s.nodes[i].info && t.nodes[i].title == s.nodes[i].title
              && t.nodes[i].pos == s.nodes[i].pos
              && |t.nodes[i].inputs| == |s.nodes[i].inputs| && |t.nodes[i].outputs| == |s.nodes[i].outputs|
  {
    var c := |s.lines|;
    var s1 := s.(lines := s.lines + [Line(a, b)], connections := s.connections + [c], items := s.items + [LineItem(c)]);
    AppendLineArenaOk(s, a, b);
    var s2 := WithPin(s1, a, Attach(PinAt(s1.nodes, a), c));
    WithPinArenaOk(s1, a, Attach(PinAt(s1.nodes, a), c));
    var s3 := WithPin(s2, b, Attach(PinAt(s2.nodes, b), c));
    WithPinArenaOk(s2, b, Attach(PinAt(s2.nodes, b), c));
    s3
  }

  /** `create_connection`: when the guard holds, a new line joins the
      scene's list and both pins' lists and both pins become connected;
      otherwise nothing changes. */
  function CreateConnection(s: Scene, a: PinRef, b: PinRef): (t: Scene)
    requires ArenaOk(s) && ValidPin(s.nodes, a) && ValidPin(s.nodes, b)
    ensures ArenaOk(t)
    ensures |t.nodes| == |s.nodes|
    ensures forall q :: ValidPin(t.nodes, q) <==> ValidPin(s.nodes, q)
    ensures !CanConnect(s, a, b) ==> t == s
    ensures CanConnect(s, a, b) ==>
              var c := |s.lines|;
              && t.lines == s.lines + [Line(a, b)]
              && t.connections == s.connections + [c]
              && t.items == s.items + [LineItem(c)]
              && PinAt(t.nodes, a) == Attach(PinAt(s.nodes, a), c)
              && PinAt(t.nodes, b) == Attach(PinAt(s.nodes, b), c)
    ensures forall q :: ValidPin(s.nodes, q) && q != a && q != b ==> PinAt(t.nodes, q) == PinAt(s.nodes, q)
    ensures forall i :: 0 <= i < |s.nodes| ==> t.nodes[i].info == s.nodes[i].info && t.nodes[i].title == s.nodes[i].title
  {
    if !CanConnect(s, a, b) then s else Join(s, a, b)
  }

  /** `remove_connection`: a connection not in the scene's list is ignored;
      otherwise it leaves the scene's list, the item list and both pins'
      lists. The start pin is then marked unconnected whatever else it
      carries; the end pin only once its list is empty. */
  function RemoveConnection(s: Scene, c: nat): (t: Scene)
    requires ArenaOk(s)
    ensures ArenaOk(t)
    ensures |t.nodes| == |s.nodes|
    ensures forall q :: ValidPin(t.nodes, q) <==> ValidPin(s.nodes, q)
    ensures c !in s.connections ==> t == s
    ensures c in s.connections ==>
              var l := s.lines[c];
              && t.connections == RemoveFirst(s.connections, c)
              && t.items == Without(s.items, LineItem(c))
              && t.lines == s.lines
              && PinAt(t.nodes, l.start).conns == RemoveFirst(PinAt(s.nodes, l.start).conns, c)
              && !PinAt(t.nodes, l.start).connected
              && PinAt(t.nodes, l.end).conns == RemoveFirst(PinAt(s.nodes, l.end).conns, c)
              && PinAt(t.nodes, l.end).connected == (PinAt(s.nodes, l.end).connected && PinAt(t.nodes, l.end).conns != [])
              && (forall q :: ValidPin(s.nodes, q) && q != l.start && q != l.end ==> PinAt(t.nodes, q) == PinAt(s.nodes, q))
              && (forall e :: e in {l.start, l.end} ==>
                    PinAt(t.nodes, e).kind == PinAt(s.nodes, e).kind && PinAt(t.nodes, e).lineEdit == PinAt(s.nodes, e).lineEdit
                    && PinAt(t.nodes, e).combo == PinAt(s.nodes, e).combo)
  {
    if c !in s.connections then s
    else
      var l := s.lines[c];
      var s1 := s.(connections := RemoveFirst(s.connections, c), items := Without(s.items, LineItem(c)));
      assert forall q :: ValidPin(s1.nodes, q) <==> ValidPin(s.nodes, q);
      assert forall q :: ValidPin(s.nodes, q) ==> PinAt(s1.nodes, q) == PinAt(s.nodes, q);
      assert ArenaOk(s1);
      var s2 := Detach(s1, l.start, c);
      var s3 := Detach(s2, l.end, c);
      var s4 := Flag(s3, l.start, false);
      if PinAt(s4.nodes, l.end).conns == [] then Flag(s4, l.end, false) else s4
  }

  /** A drag may start only from an output pin, and not from a logic output
      that is already connected. */
  predicate CanStartDrag(s: Scene, from: PinRef)
    requires ValidPin(s.nodes, from)
  {
    from.dir == Output && !(PinAt(s.nodes, from).connected && PinAt(s.nodes, from).kind == Logic)
  }

  /** A drag from `from` released over the pin `to` (mouse press, then
      release): the connection is attempted only onto an unconnected input
      pin other than the dragged one. */
  function DragConnect(s: Scene, from: PinRef, to: PinRef): (t: Scene)
    requires ArenaOk(s) && ValidPin(s.nodes, from) && ValidPin(s.nodes, to)
    ensures ArenaOk(t)
    ensures t != s ==> CanStartDrag(s, from) && to.dir == Input && !PinAt(s.nodes, to).connected && CanConnect(s, from, to)
    ensures CanStartDrag(s, from) && to.dir == Input && !PinAt(s.nodes, to).connected && to != from ==>
              t == CreateConnection(s, from, to)
  {
    if CanStartDrag(s, from) && to.dir == Input && !PinAt(s.nodes, to).connected && to != from then
      CreateConnection(s, from, to)
    else s
  }

  /** Input pins carry at most one connection, and their flag says whether
      they carry one. */
  ghost predicate InputsSingle(s: Scene)
  {
    forall r :: ValidPin(s.nodes, r) && r.dir == Input ==>
      |PinAt(s.nodes, r).conns| <= 1 && (PinAt(s.nodes, r).connected <==> PinAt(s.nodes, r).conns != [])
  }

  /** Logic outputs carry at most one connection, and are flagged when they
      carry one. */
  ghost predicate LogicOutputsSingle(s: Scene)
  {
    forall r :: ValidPin(s.nodes, r) && r.dir == Output && PinAt(s.nodes, r).kind == Logic ==>
      |PinAt(s.nodes, r).conns| <= 1 && (PinAt(s.nodes, r).conns != [] ==> PinAt(s.nodes, r).connected)
  }

  /** Connecting by dragging keeps every input pin at one connection at most. */
  lemma {:induction false} DragKeepsInputsSingle(s: Scene, from: PinRef, to: PinRef)
    requires ArenaOk(s) && ValidPin(s.nodes, from) && ValidPin(s.nodes, to)
    requires InputsSingle(s)
    ensures InputsSingle(DragConnect(s, from, to))
  {
    var t := DragConnect(s, from, to);
    if t != s {
      forall r | ValidPin(t.nodes, r) && r.dir == Input
        ensures |PinAt(t.nodes, r).conns| <= 1 && (PinAt(t.nodes, r).connected <==> PinAt(t.nodes, r).conns != [])
      {
        assert ValidPin(s.nodes, r);
      }
    }
  }

  /** Connecting by dragging keeps every logic output at one connection at
      most. */
  lemma {:induction false} DragKeepsLogicOutputsSingle(s: Scene, from: PinRef, to: PinRef)
    requires ArenaOk(s) && ValidPin(s.nodes, from) && ValidPin(s.nodes, to)
    requires LogicOutputsSingle(s)
    ensures LogicOutputsSingle(DragConnect(s, from, to))
  {
    var t := DragConnect(s, from, to);
    if t != s {
      forall r | ValidPin(t.nodes, r) && r.dir == Output && PinAt(t.nodes, r).kind == Logic
        ensures |PinAt(t.nodes, r).conns| <= 1 && (PinAt(t.nodes, r).conns != [] ==> PinAt(t.nodes, r).connected)
      {
        assert ValidPin(s.nodes, r);
      }
    }
  }

  /** Removing a connection keeps every input pin at one connection at
      most, with its flag telling whether it has one. */
  lemma {:induction false} RemoveKeepsInputsSingle(s: Scene, c: nat)
    requires ArenaOk(s) && InputsSingle(s)
    ensures InputsSingle(RemoveConnection(s, c))
  {
    var t := RemoveConnection(s, c);
    if c in s.connections {
      var l := s.lines[c];
      forall r | ValidPin(t.nodes, r) && r.dir == Input
        ensures |PinAt(t.nodes, r).conns| <= 1 && (PinAt(t.nodes, r).connected <==> PinAt(t.nodes, r).conns != [])
      {
        assert ValidPin(s.nodes, r);
        if r == l.end {
          var before, after := PinAt(s.nodes, r).conns, PinAt(t.nodes, r).conns;
          assert after != [] ==> after[0] in before;
        }
      }
    }
  }

  /** After a connection is made both literal editors are out of use: line
      edits hidden, kind selectors disabled. */
  lemma {:induction false} ConnectHidesEditors(s: Scene, a: PinRef, b: PinRef)
    requires ArenaOk(s) && ValidPin(s.nodes, a) && ValidPin(s.nodes, b)
    requires CanConnect(s, a, b)
    ensures var t := CreateConnection(s, a, b);
            && !LineEditShown(PinAt(t.nodes, a)) && !ComboEnabled(PinAt(t.nodes, a))
            && !LineEditShown(PinAt(t.nodes, b)) && !ComboEnabled(PinAt(t.nodes, b))
  {
  }
}
