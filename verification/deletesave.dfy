/** The Delete key followed by a save (CanvasWidget.py, then WorkflowIO.py).
    The key handler cleans each collected line off its pins and off the
    scene, but never takes it out of the scene's own connection list, which
    is the list `save_workflow` walks. A deleted line between two nodes that
    stay is therefore written to the file again, and comes back on the next
    load. `DeleteSelectedFixed` is the handler with the line also taken out
    of that list. */
module DeleteSave {
  import opened Types
  import opened Scene
  import opened CanvasWidget
  import opened WorkflowIO

  /** Every connection the scene lists is drawn: its line is an item. */
  ghost predicate ListedShown(s: Scene)
  {
    forall c :: c in s.connections ==> LineItem(c) in s.items
  }

  /** The list without the given ids, in order. */
  function Drop(cs: seq<nat>, gone: set<nat>): (r: seq<nat>)
    ensures forall c :: c in r <==> c in cs && c !in gone
    ensures |r| <= |cs|
  {
    if cs == [] then []
    else (if cs[0] in gone then [] else [cs[0]]) + Drop(cs[1..], gone)
  }

  /** Taking ids out of the connection list keeps a scene well-formed. */
  lemma {:induction false} DropArenaOk(t: Scene, gone: set<nat>)
    requires ArenaOk(t)
    ensures ArenaOk(t.(connections := Drop(t.connections, gone)))
  {
  }

  /** As written: a selected line whose two nodes are not selected leaves
      the items but stays listed, and its key is still among the keys the
      save writes. */
  lemma {:induction false} DeletedLineStillSaved(s: Scene, selected: seq<Item>, order: seq<nat>, c: nat)
    requires ArenaOk(s) && SelectionOk(s, selected) && Enumerates(order, Doomed(s, selected))
    requires c in s.connections && LineItem(c) in selected
    requires NodeItem(s.lines[c].start.node) in s.items && NodeItem(s.lines[c].start.node) !in selected
    requires NodeItem(s.lines[c].end.node) in s.items && NodeItem(s.lines[c].end.node) !in selected
    ensures var t := DeleteSelected(s, selected, order);
            var ids := GetAllNodes(t.items);
            && LineItem(c) !in t.items && c in t.connections && !ListedShown(t)
            && SavedKey(t, ids, c).Some?
            && SavedKey(t, ids, c).value in SaveConns(t, ids, t.connections, {})
  {
    var t := DeleteSelected(s, selected, order);
    var ids := GetAllNodes(t.items);
    assert c in Doomed(s, selected);
    var l := t.lines[c];
    assert NodeItem(l.start.node) in t.items && NodeItem(l.end.node) in t.items;
    assert l.start.node in ids && l.end.node in ids;
    var k := SavedKey(t, ids, c).value;
    assert KeyListed(t, ids, t.connections, k);
  }

  /** Corrected: the Delete key as written, with every collected line also
      taken out of the scene's connection list. */
  function DeleteSelectedFixed(s: Scene, selected: seq<Item>, order: seq<nat>): (t: Scene)
    requires ArenaOk(s) && SelectionOk(s, selected)
    requires Enumerates(order, Doomed(s, selected))
    ensures ArenaOk(t)
    ensures t.(connections := []) == DeleteSelected(s, selected, order).(connections := [])
    ensures t.lines == s.lines && |t.nodes| == |s.nodes|
    ensures forall c :: c in t.connections <==> c in s.connections && c !in Doomed(s, selected)
    ensures forall it :: it in t.items <==>
              && it in s.items
              && !(it.LineItem? && it.line in Doomed(s, selected))
              && !(it.NodeItem? && it in selected)
  {
    var t := DeleteSelected(s, selected, order);
    DropArenaOk(t, Doomed(s, selected));
    t.(connections := Drop(t.connections, Doomed(s, selected)))
  }

  /** Corrected: every listed connection stays drawn after the Delete key. */
  lemma {:induction false} DeleteFixedKeepsListedShown(s: Scene, selected: seq<Item>, order: seq<nat>)
    requires ArenaOk(s) && SelectionOk(s, selected) && Enumerates(order, Doomed(s, selected))
    requires ListedShown(s)
    ensures ListedShown(DeleteSelectedFixed(s, selected, order))
  {
    var t := DeleteSelectedFixed(s, selected, order);
    forall c | c in t.connections
      ensures LineItem(c) in t.items
    {
      assert c in s.connections && c !in Doomed(s, selected);
      assert LineItem(c) in s.items;
    }
  }

  /** Corrected: every key the save writes after the Delete key belongs to
      a listed connection that was not collected, so no deleted line is
      written. */
  lemma {:induction false} DeleteFixedSavesSurvivors(s: Scene, selected: seq<Item>, order: seq<nat>)
    requires ArenaOk(s) && SelectionOk(s, selected) && Enumerates(order, Doomed(s, selected))
    ensures var t := DeleteSelectedFixed(s, selected, order);
            var ids := GetAllNodes(t.items);
            forall k :: k in SaveConns(t, ids, t.connections, {}) ==>
              exists c :: c in s.connections && c !in Doomed(s, selected) && SavedKey(t, ids, c) == Some(k)
  {
    var t := DeleteSelectedFixed(s, selected, order);
    var ids := GetAllNodes(t.items);
    forall k | k in SaveConns(t, ids, t.connections, {})
      ensures exists c :: c in s.connections && c !in Doomed(s, selected) && SavedKey(t, ids, c) == Some(k)
    {
      assert KeyListed(t, ids, t.connections, k);
      var c :| c in t.connections && SavedKey(t, ids, c) == Some(k);
      assert c in s.connections && c !in Doomed(s, selected);
    }
  }
}
