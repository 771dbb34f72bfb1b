/** The Delete key on the canvas (CanvasWidget.py, `keyPressEvent`): every
    selected connection line and every line touching a selected node is
    detached and taken off the scene, and only then are the selected nodes
    taken off the scene. */
module CanvasWidget {
  import opened Types
  import opened Pins
  import opened Nodes
  import opened Scene
  import opened ConnectionLine

  /** The connection ids listed by the pins of a pin list. */
  function PinConns(pins: seq<Pin>): set<nat>
  {
    set k, c | 0 <= k < |pins| && c in pins[k].conns :: c
  }

  /** The connection ids listed by any pin of a node. */
  function NodeConns(n: Node): set<nat>
  {
    PinConns(n.inputs) + PinConns(n.outputs)
  }

  /** The set the key handler collects: selected lines, and every connection
      on an input or output pin of a selected node. */
  function Doomed(s: Scene, selected: seq<Item>): set<nat>
  {
    (set it | it in selected && it.LineItem? :: it.line)
    + (set it, c | it in selected && it.NodeItem? && it.node < |s.nodes| && c in NodeConns(s.nodes[it.node]) :: c)
  }

  /** Selected items are items of the scene. */
  ghost predicate SelectionOk(s: Scene, selected: seq<Item>)
  {
    forall it :: it in selected ==> it in s.items
  }

  lemma {:induction false} DoomedInArena(s: Scene, selected: seq<Item>)
    requires ArenaOk(s) && SelectionOk(s, selected)
    ensures forall c :: c in Doomed(s, selected) ==> c < |s.lines|
  {
    forall c | c in Doomed(s, selected)
      ensures c < |s.lines|
    {
      if c in (set it | it in selected && it.LineItem? :: it.line) {
        var it :| it in selected && it.LineItem? && it.line == c;
        assert it in s.items;
      } else {
        var it :| it in selected && it.NodeItem? && it.node < |s.nodes| && c in NodeConns(s.nodes[it.node]);
        var n := s.nodes[it.node];
        if c in PinConns(n.inputs) {
          var k :| 0 <= k < |n.inputs| && c in n.inputs[k].conns;
          var r := PinRef(it.node, Input, k);
          assert ValidPin(s.nodes, r) && c in PinAt(s.nodes, r).conns;
        } else {
          var k :| 0 <= k < |n.outputs| && c in n.outputs[k].conns;
          var r := PinRef(it.node, Output, k);
          assert ValidPin(s.nodes, r) && c in PinAt(s.nodes, r).conns;
        }
      }
    }
  }

  /** Clean up each connection in the given order and take its line off the
      scene. */
  function Sever(s: Scene, order: seq<nat>): (t: Scene)
    requires ArenaOk(s)
    requires forall c :: c in order ==> c < |s.lines|
    ensures ArenaOk(t)
    ensures |t.nodes| == |s.nodes| && t.lines == s.lines && t.connections == s.connections
    ensures forall q :: ValidPin(t.nodes, q) <==> ValidPin(s.nodes, q)
    ensures forall it :: it in t.items <==> it in s.items && !(it.LineItem? && it.line in order)
    ensures forall i :: 0 <= i < |s.nodes| ==> t.nodes[i].info == s.nodes[i].info && t.nodes[i].title == s.nodes[i].title
    decreases |order|
  {
    if order == [] then s
    else
      assert order[0] in order;
      var s1 := Cleanup(s, order[0]);
      var s2 := s1.(items := Without(s1.items, LineItem(order[0])));
      SeverOne(s, order[0]);
      assert forall c :: c in order[1..] ==> c in order;
      assert forall c :: c in order <==> c == order[0] || c in order[1..];
      Sever(s2, order[1..])
  }

  /** Severing one connection: its pins are cleaned up and its line leaves
      the items; nothing else about the scene's shape changes. */
  lemma {:induction false} SeverOne(s: Scene, c: nat)
    requires ArenaOk(s) && c < |s.lines|
    ensures var s1 := Cleanup(s, c);
            var s2 := s1.(items := Without(s1.items, LineItem(c)));
            && ArenaOk(s2)
            && |s2.nodes| == |s.nodes| && s2.lines == s.lines && s2.connections == s.connections
            && (forall q :: ValidPin(s2.nodes, q) <==> ValidPin(s.nodes, q))
            && (forall it :: it in s2.items <==> it in s.items && it != LineItem(c))
            && (forall i :: 0 <= i < |s.nodes| ==> s2.nodes[i].info == s.nodes[i].info && s2.nodes[i].title == s.nodes[i].title)
  {
  }

  /** In a linked scene, severing in any order removes exactly the severed
      connections from every pin's list. */
  lemma {:induction false} SeverRemovesExactly(s: Scene, order: seq<nat>)
    requires ArenaOk(s) && Linked(s.nodes, s.lines)
    requires forall c :: c in order ==> c < |s.lines|
    ensures Linked(Sever(s, order).nodes, s.lines)
    ensures var t := Sever(s, order);
            forall q :: ValidPin(s.nodes, q) ==>
              forall d :: d in PinAt(t.nodes, q).conns <==> d in PinAt(s.nodes, q).conns && d !in order
    decreases |order|
  {
    if order != [] {
      var c := order[0];
      assert c in order;
      var s1 := Cleanup(s, c);
      CleanupSeversEverywhere(s, c);
      var s2 := s1.(items := Without(s1.items, LineItem(c)));
      assert s2.nodes == s1.nodes && s2.lines == s.lines;
      assert forall e :: e in order[1..] ==> e in order;
      SeverRemovesExactly(s2, order[1..]);
      var t := Sever(s, order);
      assert t == Sever(s2, order[1..]);
      forall q | ValidPin(s.nodes, q)
        ensures forall d :: d in PinAt(t.nodes, q).conns <==> d in PinAt(s.nodes, q).conns && d !in order
      {
        var before := PinAt(s.nodes, q).conns;
        var mid := PinAt(s2.nodes, q).conns;
        var after := PinAt(t.nodes, q).conns;
        assert forall d :: d in mid <==> d in before && d != c;
        assert forall d :: d in after <==> d in mid && d !in order[1..];
        assert forall d :: d in order <==> d == c || d in order[1..];
      }
    }
  }

  /** Take the selected nodes off the scene. */
  function RemoveNodes(items: seq<Item>, selected: seq<Item>): (r: seq<Item>)
    ensures forall it :: it in r <==> it in items && !(it.NodeItem? && it in selected)
  {
    if selected == [] then items
    else
      var rest := RemoveNodes(items, selected[1..]);
      if selected[0].NodeItem? then Without(rest, selected[0]) else rest
  }

  /** `order` lists the collected set once each, in the order the set is
      iterated. */
  ghost predicate Enumerates(order: seq<nat>, doomed: set<nat>)
  {
    NoDups(order) && forall c :: c in order <==> c in doomed
  }

  /** The Delete key as written. The scene's own connection list is left as
      it was. */
  function DeleteSelected(s: Scene, selected: seq<Item>, order: seq<nat>): (t: Scene)
    requires ArenaOk(s) && SelectionOk(s, selected)
    requires Enumerates(order, Doomed(s, selected))
    ensures ArenaOk(t)
    ensures t.connections == s.connections && t.lines == s.lines && |t.nodes| == |s.nodes|
    ensures forall q :: ValidPin(t.nodes, q) <==> ValidPin(s.nodes, q)
    ensures forall it :: it in t.items <==>
              && it in s.items
              && !(it.LineItem? && it.line in Doomed(s, selected))
              && !(it.NodeItem? && it in selected)
  {
    DoomedInArena(s, selected);
    var s1 := Sever(s, order);
    s1.(items := RemoveNodes(s1.items, selected))
  }

  /** Every connection listed by a pin of a selected node is collected. */
  lemma {:induction false} SelectedPinsDoomed(s: Scene, selected: seq<Item>, q: PinRef)
    requires ValidPin(s.nodes, q) && NodeItem(q.node) in selected
    ensures forall d :: d in PinAt(s.nodes, q).conns ==> d in Doomed(s, selected)
  {
    var n := s.nodes[q.node];
    forall d | d in PinAt(s.nodes, q).conns
      ensures d in Doomed(s, selected)
    {
      if q.dir == Input {
        assert d in PinConns(n.inputs);
      } else {
        assert d in PinConns(n.outputs);
      }
      assert d in NodeConns(n);
    }
  }

  /** In a linked scene, after the Delete key every pin lists exactly its
      connections that were not collected, so every pin of a selected node
      lists none, while unrelated connections stay listed. */
  lemma {:induction false} DeleteSeversConnections(s: Scene, selected: seq<Item>, order: seq<nat>)
    requires ArenaOk(s) && Linked(s.nodes, s.lines) && SelectionOk(s, selected)
    requires Enumerates(order, Doomed(s, selected))
    ensures var t := DeleteSelected(s, selected, order);
            forall q :: ValidPin(s.nodes, q) ==>
              forall d :: d in PinAt(t.nodes, q).conns <==> d in PinAt(s.nodes, q).conns && d !in Doomed(s, selected)
    ensures var t := DeleteSelected(s, selected, order);
            forall q, d :: ValidPin(s.nodes, q) && NodeItem(q.node) in selected ==> d !in PinAt(t.nodes, q).conns
  {
    DoomedInArena(s, selected);
    var t := DeleteSelected(s, selected, order);
    SeverRemovesExactly(s, order);
    assert t.nodes == Sever(s, order).nodes;
    forall q | ValidPin(s.nodes, q)
      ensures forall d :: d in PinAt(t.nodes, q).conns <==> d in PinAt(s.nodes, q).conns && d !in Doomed(s, selected)
    {
      assert forall d :: d in order <==> d in Doomed(s, selected);
    }
    forall q | ValidPin(s.nodes, q) && NodeItem(q.node) in selected
      ensures forall d :: d !in PinAt(t.nodes, q).conns
    {
      SelectedPinsDoomed(s, selected, q);
    }
  }
}
