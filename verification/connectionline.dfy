/** Detaching a connection line from its two pins (ConnectionLine.py,
    `cleanup_connections`). */
module ConnectionLine {
  import opened Types
  import opened Pins
  import opened Nodes
  import opened Scene

  /** Every pin's list is duplicate-free and names only lines that start or
      end at that pin. */
  ghost predicate Linked(nodes: seq<Node>, lines: seq<Line>)
  {
    forall r :: ValidPin(nodes, r) ==>
      && NoDups(PinAt(nodes, r).conns)
      && forall c :: c in PinAt(nodes, r).conns ==> c < |lines| && (lines[c].start == r || lines[c].end == r)
  }

  /** Removing a connection keeps every pin's list duplicate-free and
      naming only lines that start or end at the pin. */
  lemma {:induction false} RemoveKeepsLinked(s: Scene, c: nat)
    requires ArenaOk(s) && Linked(s.nodes, s.lines)
    ensures Linked(RemoveConnection(s, c).nodes, RemoveConnection(s, c).lines)
  {
    var t := RemoveConnection(s, c);
    if c in s.connections {
      forall r | ValidPin(t.nodes, r)
        ensures NoDups(PinAt(t.nodes, r).conns)
        ensures forall d :: d in PinAt(t.nodes, r).conns ==> d < |t.lines| && (t.lines[d].start == r || t.lines[d].end == r)
      {
        assert ValidPin(s.nodes, r);
      }
    }
  }

  /** After removing from a pin's list, set its flag from what is left. */
  function Settle(s: Scene, r: PinRef, c: nat): (t: Scene)
    requires ArenaOk(s) && ValidPin(s.nodes, r)
    ensures ArenaOk(t)
    ensures |t.nodes| == |s.nodes| && t.lines == s.lines && t.items == s.items && t.connections == s.connections
    ensures forall q :: ValidPin(t.nodes, q) <==> ValidPin(s.nodes, q)
    ensures forall q :: ValidPin(s.nodes, q) && q != r ==> PinAt(t.nodes, q) == PinAt(s.nodes, q)
    ensures var left := RemoveFirst(PinAt(s.nodes, r).conns, c);
            PinAt(t.nodes, r) == PinAt(s.nodes, r).(conns := left, connected := left != [])
    ensures forall i :: 0 <= i < |s.nodes| ==> t.nodes[i].info == s.nodes[i].info && t.nodes[i].title == s.nodes[i].title
  {
    var s1 := Detach(s, r, c);
    Flag(s1, r, PinAt(s1.nodes, r).conns != [])
  }

  /** Pin `after` is pin `before` cleaned of line `c`: one occurrence of
      the line removed and the flag set from what is left, when it listed
      the line; untouched otherwise. */
  predicate Cleaned(before: Pin, after: Pin, c: nat)
  {
    if c in before.conns then
      var left := RemoveFirst(before.conns, c);
      after == before.(conns := left, connected := left != [])
    else after == before
  }

  /** Clean line `c` off pin `r` when the pin lists it. */
  function CleanPin(s: Scene, r: PinRef, c: nat): (t: Scene)
    requires ArenaOk(s) && ValidPin(s.nodes, r)
    ensures ArenaOk(t)
    ensures |t.nodes| == |s.nodes| && t.lines == s.lines && t.items == s.items && t.connections == s.connections
    ensures forall q :: ValidPin(t.nodes, q) <==> ValidPin(s.nodes, q)
    ensures forall q :: ValidPin(s.nodes, q) && q != r ==> PinAt(t.nodes, q) == PinAt(s.nodes, q)
    ensures Cleaned(PinAt(s.nodes, r), PinAt(t.nodes, r), c)
    ensures c !in PinAt(s.nodes, r).conns ==> t == s
    ensures forall i :: 0 <= i < |s.nodes| ==> t.nodes[i].info == s.nodes[i].info && t.nodes[i].title == s.nodes[i].title
  {
    if c in PinAt(s.nodes, r).conns then Settle(s, r, c) else s
  }

  /** `cleanup_connections`: for the start pin and then the end pin, if the
      line is in the pin's list it is removed and the pin's flag is set to
      whether any connection is left; a pin that does not list the line is
      left alone. The scene's own list and item list are not touched. */
  function Cleanup(s: Scene, c: nat): (t: Scene)
    requires ArenaOk(s) && c < |s.lines|
    ensures ArenaOk(t)
    ensures |t.nodes| == |s.nodes| && t.lines == s.lines && t.items == s.items && t.connections == s.connections
    ensures forall q :: ValidPin(t.nodes, q) <==> ValidPin(s.nodes, q)
    ensures var l := s.lines[c];
            && Cleaned(PinAt(s.nodes, l.start), PinAt(t.nodes, l.start), c)
            && Cleaned(PinAt(s.nodes, l.end), PinAt(t.nodes, l.end), c)
    ensures var l := s.lines[c];
            forall q :: ValidPin(s.nodes, q) && q != l.start && q != l.end ==> PinAt(t.nodes, q) == PinAt(s.nodes, q)
    ensures var l := s.lines[c];
            c !in PinAt(s.nodes, l.start).conns && c !in PinAt(s.nodes, l.end).conns ==> t == s
    ensures forall i :: 0 <= i < |s.nodes| ==> t.nodes[i].info == s.nodes[i].info && t.nodes[i].title == s.nodes[i].title
  {
    var l := s.lines[c];
    assert l.start != l.end;
    var s1 := CleanPin(s, l.start, c);
    CleanPin(s1, l.end, c)
  }

  /** A second cleanup of the same line finds nothing left to remove. */
  lemma {:induction false} CleanupIdempotent(s: Scene, c: nat)
    requires ArenaOk(s) && c < |s.lines|
    requires NoDups(PinAt(s.nodes, s.lines[c].start).conns) && NoDups(PinAt(s.nodes, s.lines[c].end).conns)
    ensures Cleanup(Cleanup(s, c), c) == Cleanup(s, c)
  {
    var l := s.lines[c];
    var t := Cleanup(s, c);
    assert c !in PinAt(t.nodes, l.start).conns;
    assert c !in PinAt(t.nodes, l.end).conns;
  }

  /** In a linked scene, cleanup takes the line out of every pin's list and
      leaves every other connection where it was. */
  lemma {:induction false} CleanupSeversEverywhere(s: Scene, c: nat)
    requires ArenaOk(s) && c < |s.lines| && Linked(s.nodes, s.lines)
    ensures Linked(Cleanup(s, c).nodes, s.lines)
    ensures var t := Cleanup(s, c);
            forall q, d :: ValidPin(s.nodes, q) ==> (d in PinAt(t.nodes, q).conns <==> d in PinAt(s.nodes, q).conns && d != c)
  {
    var l := s.lines[c];
    var t := Cleanup(s, c);
    forall q | ValidPin(s.nodes, q)
      ensures forall d :: d in PinAt(t.nodes, q).conns <==> d in PinAt(s.nodes, q).conns && d != c
      ensures NoDups(PinAt(t.nodes, q).conns)
    {
      if q != l.start && q != l.end {
        assert c !in PinAt(s.nodes, q).conns;
      }
    }
  }

  /** A pin whose last connection is cleaned up shows its line edit again. */
  lemma {:induction false} CleanupRestoresEditor(s: Scene, c: nat)
    requires ArenaOk(s) && c < |s.lines|
    requires PinAt(s.nodes, s.lines[c].end).conns == [c]
    ensures var t := Cleanup(s, c);
            var e := PinAt(t.nodes, s.lines[c].end);
            e.conns == [] && (LineEditShown(e) <==> e.lineEdit.Some?) && (ComboEnabled(e) <==> e.combo.Some?)
  {
  }
}
