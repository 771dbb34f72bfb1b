/** Running the scheduled nodes (RunNodes.py, `run_node`). The runner keeps
    two tables keyed by pins: every output pin of a scheduled node with its
    current value, and for every connected input pin the upstream output pin
    it reads. Each node's computation is the `run` method of the node's own
    `Info` instance; it is a parameter here, given that instance (the node's
    schema copy, with its kind selections) and the input vector. */
module Executor {
  import opened Types
  import opened Pins
  import opened Nodes
  import opened Scene
  import opened Scheduler

  /** What a node's computation does with its input vector. */
  datatype Outcome = Returned(values: seq<Value>) | Raised

  /** A node's computation: its own schema copy and its input vector in,
      an outcome out. */
  type Compute = (NodeInfo, seq<Value>) -> Outcome

  /** `output_link`: output pin to value. */
  type Table = map<PinRef, Value>

  /** `input_link`: input pin to the upstream output pin it reads. */
  type Links = map<PinRef, PinRef>

  /** How a run ends. `executed` lists the nodes whose computation was
      called, in order. */
  datatype RunOutcome =
    | Completed(table: Table, executed: seq<nat>)
    | Halted(table: Table, executed: seq<nat>)
    | Failed(error: RunError, executed: seq<nat>)

  /** Output pin `r` belongs to a node of `run`. */
  predicate RunOutput(s: Scene, run: seq<nat>, r: PinRef)
  {
    r.dir == Output && r.node in run && r.node < |s.nodes| && r.index < |s.nodes[r.node].outputs|
  }

  /** Write `vals[i..]` into output pins `i..` of node `id`. */
  function Store(t: Table, id: nat, vals: seq<Value>, i: nat): (u: Table)
    requires i <= |vals|
    ensures forall r :: r in u <==> r in t || (r == PinRef(id, Output, r.index) && i <= r.index < |vals|)
    ensures forall r :: r in u ==>
              u[r] == if r == PinRef(id, Output, r.index) && i <= r.index < |vals| then vals[r.index] else t[r]
    decreases |vals| - i
  {
    if i == |vals| then t
    else Store(t[PinRef(id, Output, i) := vals[i]], id, vals, i + 1)
  }

  /** First phase: every output pin of every scheduled node holds `None`. */
  function RegisterOutputs(s: Scene, run: seq<nat>): (t: Table)
    requires forall id :: id in run ==> id < |s.nodes|
    ensures forall r :: r in t <==> RunOutput(s, run, r)
    ensures forall r :: r in t ==> t[r] == NoneV
  {
    if run == [] then map[]
    else
      var prev := run[..|run| - 1];
      var id := run[|run| - 1];
      assert forall x :: x in run <==> x in prev || x == id;
      assert id in run;
      Store(RegisterOutputs(s, prev), id, seq(|s.nodes[id].outputs|, _ => NoneV), 0)
  }

  /** The upstream pin of the first line listed on input pin `q`. */
  function FirstSource(s: Scene, q: PinRef): PinRef
    requires ArenaOk(s) && ValidPin(s.nodes, q) && PinAt(s.nodes, q).conns != []
  {
    var c := PinAt(s.nodes, q).conns[0];
    assert c in PinAt(s.nodes, q).conns;
    s.lines[c].start
  }

  /** Input pin `q` belongs to a node of `run` and is connected. */
  predicate ConnectedInput(s: Scene, run: seq<nat>, q: PinRef)
  {
    q.dir == Input && q.node in run && ValidPin(s.nodes, q) && PinAt(s.nodes, q).connected
  }

  /** Input pin `q` of node `id`, at `k` or after, is connected, has a line,
      and the upstream pin of its first line is in the table. */
  predicate Linkable(s: Scene, id: nat, k: nat, t: Table, q: PinRef)
    requires ArenaOk(s) && id < |s.nodes|
  {
    && q.node == id && q.dir == Input && k <= q.index < |s.nodes[id].inputs|
    && s.nodes[id].inputs[q.index].connected && s.nodes[id].inputs[q.index].conns != []
    && FirstSource(s, q) in t
  }

  /** Second phase for input pins `k..` of node `id`: each connected pin
      is linked to the upstream pin of its first line when that pin is in
      the table; a connected pin with no line raises. */
  function LinkPins(s: Scene, id: nat, k: nat, t: Table, links: Links): (r: Result<Links>)
    requires ArenaOk(s) && id < |s.nodes| && k <= |s.nodes[id].inputs|
    ensures r.Ok? <==> forall j :: k <= j < |s.nodes[id].inputs| && s.nodes[id].inputs[j].connected ==>
                         s.nodes[id].inputs[j].conns != []
    ensures r.Ok? ==> forall q :: q in r.value <==> q in links || Linkable(s, id, k, t, q)
    ensures r.Ok? ==> forall q :: q in r.value ==>
              r.value[q] == if Linkable(s, id, k, t, q) then FirstSource(s, q) else links[q]
    ensures r.Err? ==> r.error == NoConnection
    decreases |s.nodes[id].inputs| - k
  {
    if k == |s.nodes[id].inputs| then Ok(links)
    else
      var q := PinRef(id, Input, k);
      var p := s.nodes[id].inputs[k];
      assert ValidPin(s.nodes, q) && PinAt(s.nodes, q) == p;
      LinkableStep(s, id, k, t);
      if !p.connected then LinkPins(s, id, k + 1, t, links)
      else if p.conns == [] then Err(NoConnection)
      else
        var start := FirstSource(s, q);
        LinkPins(s, id, k + 1, t, if start in t then links[q := start] else links)
  }

  /** Moving past pin `k`: a pin linkable from `k` is pin `k` itself or is
      linkable from `k + 1`. */
  lemma {:induction false} LinkableStep(s: Scene, id: nat, k: nat, t: Table)
    requires ArenaOk(s) && id < |s.nodes| && k < |s.nodes[id].inputs|
    ensures forall q :: Linkable(s, id, k, t, q) <==>
              Linkable(s, id, k + 1, t, q) || (q == PinRef(id, Input, k) && Linkable(s, id, k, t, q))
  {
  }

  /** Second phase for the nodes of `run`: every connected input pin of a
      scheduled node is linked to the upstream pin of its first line, when
      that pin is in the table. A connected pin with no line raises. */
  function LinkInputs(s: Scene, run: seq<nat>, t: Table): (r: Result<Links>)
    requires ArenaOk(s) && forall id :: id in run ==> id < |s.nodes|
    ensures r.Ok? <==> forall q :: ConnectedInput(s, run, q) ==> PinAt(s.nodes, q).conns != []
    ensures r.Ok? ==> forall q :: q in r.value <==> ConnectedInput(s, run, q) && FirstSource(s, q) in t
    ensures r.Ok? ==> forall q :: q in r.value ==> r.value[q] == FirstSource(s, q)
    ensures r.Err? ==> r.error == NoConnection
  {
    if run == [] then Ok(map[])
    else
      var prev := run[..|run| - 1];
      var id := run[|run| - 1];
      assert forall x :: x in run <==> x in prev || x == id;
      match LinkInputs(s, prev, t)
      case Err(e) =>
        assert exists q :: ConnectedInput(s, prev, q) && PinAt(s.nodes, q).conns == [];
        Err(e)
      case Ok(links) =>
        assert id in run;
        var r := LinkPins(s, id, 0, t, links);
        assert r.Err? ==> exists q :: ConnectedInput(s, run, q) && PinAt(s.nodes, q).conns == [] by {
          if r.Err? {
            var j :| 0 <= j < |s.nodes[id].inputs| && s.nodes[id].inputs[j].connected && s.nodes[id].inputs[j].conns == [];
            assert ConnectedInput(s, run, PinRef(id, Input, j));
          }
        }
        r
  }

  /** Whether a pin contributes to the input vector: a connected pin
      without a kind selector, or any pin with one, reads its link; otherwise
      a pin with a line edit reads the text. */
  predicate ReadsLink(p: Pin)
  {
    (p.connected && p.combo.None?) || p.combo.Some?
  }

  predicate ReadsText(p: Pin)
  {
    !ReadsLink(p) && p.lineEdit.Some?
  }

  /** The value input pin `q` contributes, if any. Reading a link the pin
      does not have, or a pin missing from the table, raises. */
  function ReadInput(p: Pin, q: PinRef, links: Links, t: Table): (r: Result<Option<Value>>)
    ensures r.Err? <==> ReadsLink(p) && !(q in links && links[q] in t)
    ensures r == Ok(None) <==> !ReadsLink(p) && !ReadsText(p)
    ensures r.Ok? && ReadsLink(p) ==> r.value == Some(t[links[q]])
    ensures ReadsText(p) ==> r == Ok(Some(StrV(p.lineEdit.value)))
    ensures r.Err? ==> r.error == MissingLink
  {
    if ReadsLink(p) then
      if q in links && links[q] in t then Ok(Some(t[links[q]])) else Err(MissingLink)
    else if p.lineEdit.Some? then Ok(Some(StrV(p.lineEdit.value)))
    else Ok(None)
  }

  /** How many of the pins contribute a value. */
  function Contributing(ps: seq<Pin>): nat
  {
    if ps == [] then 0
    else (if ReadsLink(ps[0]) || ReadsText(ps[0]) then 1 else 0) + Contributing(ps[1..])
  }

  /** The input vector of node `id` from pin `k` on. */
  function InputVector(s: Scene, id: nat, k: nat, links: Links, t: Table): (r: Result<seq<Value>>)
    requires id < |s.nodes| && k <= |s.nodes[id].inputs|
    ensures r.Ok? <==> forall j :: k <= j < |s.nodes[id].inputs| ==>
                         ReadInput(s.nodes[id].inputs[j], PinRef(id, Input, j), links, t).Ok?
    ensures r.Ok? ==> |r.value| == Contributing(s.nodes[id].inputs[k..])
    ensures r.Err? ==> r.error == MissingLink
    decreases |s.nodes[id].inputs| - k
  {
    if k == |s.nodes[id].inputs| then Ok([])
    else
      var ps := s.nodes[id].inputs[k..];
      assert ps[0] == s.nodes[id].inputs[k] && ps[1..] == s.nodes[id].inputs[k + 1..];
      match ReadInput(s.nodes[id].inputs[k], PinRef(id, Input, k), links, t)
      case Err(e) => Err(e)
      case Ok(v) =>
        match InputVector(s, id, k + 1, links, t)
        case Err(e) => Err(e)
        case Ok(rest) => Ok((if v.Some? then [v.value] else []) + rest)
  }

  /** A list of outputs halts the run when it is non-empty and its first
      entry compares equal to `False`. */
  predicate HaltsRun(out: seq<Value>)
  {
    |out| > 0 && EqualsFalse(out[0])
  }

  function Prepend(id: nat, r: RunOutcome): RunOutcome
  {
    match r
    case Completed(t, ex) => Completed(t, [id] + ex)
    case Halted(t, ex) => Halted(t, [id] + ex)
    case Failed(e, ex) => Failed(e, [id] + ex)
  }

  /** Putting the node that ran first in front of what the rest of the run
      executed keeps the executed nodes a prefix of the run. */
  lemma {:induction false} PrependPrefix(run: seq<nat>, r: RunOutcome)
    requires run != [] && r.executed <= run[1..]
    ensures Prepend(run[0], r).executed <= run
    ensures r.Completed? && r.executed == run[1..] ==> Prepend(run[0], r).executed == run
    ensures Prepend(run[0], r).executed != []
    ensures Prepend(run[0], r).Failed? ==> r.Failed? && Prepend(run[0], r).error == r.error
    ensures Prepend(run[0], r).Completed? <==> r.Completed?
  {
    assert run == [run[0]] + run[1..];
  }

  /** Third phase: run the nodes in order. A node's computation gets its
      input vector; if the first output compares equal to `False` the loop
      stops without storing anything for that node; otherwise output `i` is
      stored into output pin `i`, which raises when there are fewer outputs
      than pins. */
  function Execute(s: Scene, run: seq<nat>, links: Links, t: Table, compute: Compute): (r: RunOutcome)
    requires forall id :: id in run ==> id < |s.nodes|
    ensures r.executed <= run
    ensures r.Completed? ==> r.executed == run
    ensures r.Halted? ==> r.executed != []
    ensures r.Failed? ==> r.error in {MissingLink, TooFewOutputs, ComputationRaised}
    decreases |run|
  {
    if run == [] then Completed(t, [])
    else
      var id := run[0];
      assert id in run;
      assert forall x :: x in run[1..] ==> x in run;
      match InputVector(s, id, 0, links, t)
      case Err(e) => Failed(e, [])
      case Ok(args) =>
        match compute(s.nodes[id].info, args)
        case Raised => Failed(ComputationRaised, [id])
        case Returned(out) =>
          if HaltsRun(out) then Halted(t, [id])
          else if |out| < |s.nodes[id].outputs| then Failed(TooFewOutputs, [id])
          else
            var t' := Store(t, id, out[..|s.nodes[id].outputs|], 0);
            var rest := Execute(s, run[1..], links, t', compute);
            PrependPrefix(run, rest);
            Prepend(id, rest)
  }

  /** One step of a run whose node stored its outputs. */
  predicate Stored(s: Scene, run: seq<nat>, links: Links, t: Table, compute: Compute, t': Table)
    requires run != [] && run[0] < |s.nodes|
  {
    var id := run[0];
    var n := |s.nodes[id].outputs|;
    && InputVector(s, id, 0, links, t).Ok?
    && var out := compute(s.nodes[id].info, InputVector(s, id, 0, links, t).value);
    && out.Returned? && !HaltsRun(out.values) && |out.values| >= n
    && t' == Store(t, id, out.values[..n], 0)
  }

  /** Storing a node's outputs adds only that node's output pins and
      leaves every other node's pins as they were. */
  lemma {:induction false} StoredChanges(s: Scene, run: seq<nat>, links: Links, t: Table, compute: Compute, t': Table)
    requires run != [] && run[0] < |s.nodes| && Stored(s, run, links, t, compute, t')
    ensures forall x :: x in t' <==> x in t || (x == PinRef(run[0], Output, x.index) && x.index < |s.nodes[run[0]].outputs|)
    ensures forall x :: x in t && x.node != run[0] ==> x in t' && t'[x] == t[x]
  {
  }

  /** Unfolding one step: a run continues past its first node exactly when
      that node stored its outputs. */
  lemma {:induction false} ExecuteUnfold(s: Scene, run: seq<nat>, links: Links, t: Table, compute: Compute)
    requires run != [] && forall id :: id in run ==> id < |s.nodes|
    ensures run[0] < |s.nodes| && forall x :: x in run[1..] ==> x in run
    ensures var r := Execute(s, run, links, t, compute);
            r.Completed? || (r.Halted? && |r.executed| > 1) ==>
              exists t' :: Stored(s, run, links, t, compute, t') && r == Prepend(run[0], Execute(s, run[1..], links, t', compute))
    ensures var r := Execute(s, run, links, t, compute);
            r.Halted? && |r.executed| == 1 ==> r.table == t
  {
    assert run[0] in run;
    var id := run[0];
    var r := Execute(s, run, links, t, compute);
    match InputVector(s, id, 0, links, t)
    case Err(_) =>
    case Ok(args) =>
      match compute(s.nodes[id].info, args)
      case Raised =>
      case Returned(out) =>
        if !HaltsRun(out) && |out| >= |s.nodes[id].outputs| {
          var t' := Store(t, id, out[..|s.nodes[id].outputs|], 0);
          assert Stored(s, run, links, t, compute, t');
        }
  }

  /** A run whose first node stored its outputs goes on with the rest of
      the run from the table holding them: the converse of `ExecuteUnfold`. */
  lemma {:induction false} StoredContinues(s: Scene, run: seq<nat>, links: Links, t: Table, compute: Compute, t': Table)
    requires run != [] && forall id :: id in run ==> id < |s.nodes|
    requires run[0] < |s.nodes| && Stored(s, run, links, t, compute, t')
    ensures forall x :: x in run[1..] ==> x in run
    ensures Execute(s, run, links, t, compute) == Prepend(run[0], Execute(s, run[1..], links, t', compute))
  {
    assert forall x :: x in run[1..] ==> x in run;
  }

  /** A run whose first node returns outputs starting with a value equal
      to `False` halts at once, having stored nothing. */
  lemma {:induction false} HaltFirst(s: Scene, run: seq<nat>, links: Links, t: Table, compute: Compute,
                   args: seq<Value>, out: seq<Value>)
    requires run != [] && forall id :: id in run ==> id < |s.nodes|
    requires run[0] < |s.nodes| && InputVector(s, run[0], 0, links, t) == Ok(args)
    requires compute(s.nodes[run[0]].info, args) == Returned(out) && HaltsRun(out)
    ensures Execute(s, run, links, t, compute) == Halted(t, [run[0]])
  {
    assert run[0] in run;
  }

  /** Node `id`, given the table `t`, reads its inputs and returns outputs
      that halt the run. */
  predicate HaltsAt(s: Scene, id: nat, links: Links, t: Table, compute: Compute)
    requires id < |s.nodes|
  {
    && InputVector(s, id, 0, links, t).Ok?
    && var out := compute(s.nodes[id].info, InputVector(s, id, 0, links, t).value);
    && out.Returned? && HaltsRun(out.values)
  }

  /** A halted run halted because of the last node it executed: with the
      table it ends with, that node read its inputs and returned outputs
      whose first entry equals `False`. */
  lemma {:induction false} HaltCause(s: Scene, run: seq<nat>, links: Links, t: Table, compute: Compute)
    requires forall id :: id in run ==> id < |s.nodes|
    ensures var r := Execute(s, run, links, t, compute);
            r.Halted? ==>
              var last := r.executed[|r.executed| - 1];
              last < |s.nodes| && HaltsAt(s, last, links, r.table, compute)
    decreases |run|
  {
    var r := Execute(s, run, links, t, compute);
    if run != [] && r.Halted? {
      var id := run[0];
      assert id in run;
      var n := |s.nodes[id].outputs|;
      var iv := InputVector(s, id, 0, links, t);
      if iv.Ok? && compute(s.nodes[id].info, iv.value).Returned? {
        var out := compute(s.nodes[id].info, iv.value).values;
        if !HaltsRun(out) && |out| >= n {
          var t' := Store(t, id, out[..n], 0);
          assert Stored(s, run, links, t, compute, t');
          StoredContinues(s, run, links, t, compute, t');
          HaltCause(s, run[1..], links, t', compute);
          var rest := Execute(s, run[1..], links, t', compute);
          assert r.executed[|r.executed| - 1] == rest.executed[|rest.executed| - 1];
        }
      }
    }
  }

  /** A run of one node whose computation returns `out`: it halts when
      `out` says so, and otherwise stores `out` and completes. */
  lemma {:induction false} ExecuteOne(s: Scene, id: nat, links: Links, t: Table, compute: Compute,
                   args: seq<Value>, out: seq<Value>)
    requires id < |s.nodes|
    requires InputVector(s, id, 0, links, t) == Ok(args)
    requires compute(s.nodes[id].info, args) == Returned(out)
    ensures HaltsRun(out) ==> Execute(s, [id], links, t, compute) == Halted(t, [id])
    ensures !HaltsRun(out) && |out| >= |s.nodes[id].outputs| ==>
              var n := |s.nodes[id].outputs|;
              Execute(s, [id], links, t, compute) == Completed(Store(t, id, out[..n], 0), [id])
  {
    var n := |s.nodes[id].outputs|;
    if !HaltsRun(out) && |out| >= n {
      var t' := Store(t, id, out[..n], 0);
      assert [id][1..] == [];
      assert Execute(s, [], links, t', compute) == Completed(t', []);
    }
  }

  /** Pins of nodes that were not scheduled keep their values. */
  lemma {:induction false} ExecuteKeepsUnscheduled(s: Scene, run: seq<nat>, links: Links, t: Table, compute: Compute)
    requires forall id :: id in run ==> id < |s.nodes|
    ensures var r := Execute(s, run, links, t, compute);
            r.Completed? || r.Halted? ==> forall x :: x in t && x.node !in run ==> x in r.table && r.table[x] == t[x]
    decreases |run|
  {
    if run != [] {
      ExecuteUnfold(s, run, links, t, compute);
      var r := Execute(s, run, links, t, compute);
      if r.Completed? || (r.Halted? && |r.executed| > 1) {
        var t' :| Stored(s, run, links, t, compute, t') && r == Prepend(run[0], Execute(s, run[1..], links, t', compute));
        ExecuteKeepsUnscheduled(s, run[1..], links, t', compute);
        assert forall x :: x in t && x.node !in run ==> x.node !in run[1..] && x in t' && t'[x] == t[x];
      }
    }
  }

  /** After a halt, the halting node and every node after it keep the values
      the table held, so their outputs are still `None` after the first
      phase. */
  lemma {:induction false} HaltKeepsLater(s: Scene, run: seq<nat>, links: Links, t: Table, compute: Compute)
    requires forall id :: id in run ==> id < |s.nodes|
    ensures var r := Execute(s, run, links, t, compute);
            r.Halted? ==> forall x :: x in t && x.node !in r.executed[..|r.executed| - 1] ==> x in r.table && r.table[x] == t[x]
    decreases |run|
  {
    if run != [] {
      ExecuteUnfold(s, run, links, t, compute);
      var r := Execute(s, run, links, t, compute);
      if r.Halted? && |r.executed| > 1 {
        var t' :| Stored(s, run, links, t, compute, t') && r == Prepend(run[0], Execute(s, run[1..], links, t', compute));
        var rest := Execute(s, run[1..], links, t', compute);
        HaltKeepsLater(s, run[1..], links, t', compute);
        HaltKeepsLaterStep(s, run, links, t, compute, t', rest);
      }
    }
  }

  /** One step of the above: the node that stored its outputs joins the
      nodes whose pins may have changed. */
  lemma {:induction false} HaltKeepsLaterStep(s: Scene, run: seq<nat>, links: Links, t: Table, compute: Compute,
                           t': Table, rest: RunOutcome)
    requires run != [] && run[0] < |s.nodes| && Stored(s, run, links, t, compute, t')
    requires rest.Halted? && rest.executed != []
    requires forall x :: x in t' && x.node !in rest.executed[..|rest.executed| - 1] ==> x in rest.table && rest.table[x] == t'[x]
    ensures var r := Prepend(run[0], rest);
            forall x :: x in t && x.node !in r.executed[..|r.executed| - 1] ==> x in r.table && r.table[x] == t[x]
  {
    var r := Prepend(run[0], rest);
    var done := r.executed[..|r.executed| - 1];
    assert done == [run[0]] + rest.executed[..|rest.executed| - 1];
    StoredChanges(s, run, links, t, compute, t');
    forall x | x in t && x.node !in done
      ensures x in r.table && r.table[x] == t[x]
    {
      assert x.node != run[0] && x.node !in rest.executed[..|rest.executed| - 1];
    }
  }

  /** When the table already lists every output pin of the scheduled nodes,
      a run adds no pin to it. */
  lemma {:induction false} ExecuteKeepsKeys(s: Scene, run: seq<nat>, links: Links, t: Table, compute: Compute)
    requires forall id :: id in run ==> id < |s.nodes|
    requires forall x :: RunOutput(s, run, x) ==> x in t
    ensures var r := Execute(s, run, links, t, compute);
            r.Completed? || r.Halted? ==> r.table.Keys == t.Keys
    decreases |run|
  {
    if run != [] {
      ExecuteUnfold(s, run, links, t, compute);
      var r := Execute(s, run, links, t, compute);
      if r.Completed? || (r.Halted? && |r.executed| > 1) {
        var t' :| Stored(s, run, links, t, compute, t') && r == Prepend(run[0], Execute(s, run[1..], links, t', compute));
        StoredSameKeys(s, run, links, t, compute, t');
        ExecuteKeepsKeys(s, run[1..], links, t', compute);
      }
    }
  }

  /** Storing a node's outputs into a table that already lists them adds
      no pin, and the table still lists the outputs of the rest of the run. */
  lemma {:induction false} StoredSameKeys(s: Scene, run: seq<nat>, links: Links, t: Table, compute: Compute, t': Table)
    requires run != [] && run[0] < |s.nodes| && (forall id :: id in run ==> id < |s.nodes|)
    requires forall x :: RunOutput(s, run, x) ==> x in t
    requires Stored(s, run, links, t, compute, t')
    ensures t'.Keys == t.Keys
    ensures forall x :: RunOutput(s, run[1..], x) ==> x in t'
  {
    var id := run[0];
    assert id in run;
    StoredChanges(s, run, links, t, compute, t');
    forall x | x in t'
      ensures x in t
    {
      if x == PinRef(id, Output, x.index) && x.index < |s.nodes[id].outputs| {
        assert RunOutput(s, run, x);
      }
    }
    forall x | RunOutput(s, run[1..], x)
      ensures x in t'
    {
      assert x.node in run;
      assert RunOutput(s, run, x);
    }
  }

  // ---------------------------------------------------------------------
  // A whole run
  // ---------------------------------------------------------------------

  /** The type name of the node at every list position, by which the sort
      finds the start node. */
  function TypeNames(s: Scene, list: seq<nat>): (names: seq<string>)
    requires forall id :: id in list ==> id < |s.nodes|
    ensures |names| == |list|
  {
    if list == [] then []
    else
      assert list[0] in list && forall id :: id in list[1..] ==> id in list;
      [s.nodes[list[0]].info.nodeName] + TypeNames(s, list[1..])
  }

  /** The node ids of the positions in `order`. */
  function AtPositions(list: seq<nat>, order: seq<nat>): (ids: seq<nat>)
    requires forall i :: 0 <= i < |order| ==> order[i] < |list|
    ensures |ids| == |order| && forall i :: 0 <= i < |order| ==> ids[i] == list[order[i]]
  {
    if order == [] then []
    else [list[order[0]]] + AtPositions(list, order[1..])
  }

  /** The nodes of `list` in the order they run: the sort works on list
      positions. */
  function RunOrder(s: Scene, list: seq<nat>, deps: seq<seq<nat>>): (run: seq<nat>)
    requires ArenaOk(s) && forall id :: id in list ==> id < |s.nodes|
    requires BuildDependencies(s, list) == Ok(deps)
    ensures forall id :: id in run ==> id in list
  {
    BuiltDepsOk(s, list);
    var order := TopologicalSort(deps, TypeNames(s, list));
    assert forall i :: 0 <= i < |order| ==> order[i] in order;
    var run := AtPositions(list, order);
    assert forall i :: 0 <= i < |run| ==> run[i] in list by {
      forall i | 0 <= i < |run|
        ensures run[i] in list
      {
        assert order[i] in order;
      }
    }
    run
  }

  /** `run_node` over the nodes of `list` (the scene's nodes, from
      `get_all_node`): build the dependencies, sort, set every output of a
      scheduled node to `None`, link the connected inputs, and execute. */
  function RunWorkflow(s: Scene, list: seq<nat>, compute: Compute): (r: RunOutcome)
    requires ArenaOk(s) && forall id :: id in list ==> id < |s.nodes|
    ensures (r.Failed? && r.error == ProviderNotListed) <==> exists k :: 0 <= k < |list| && !ProvidersListed(s, list, k)
    ensures forall id :: id in r.executed ==> id in list
  {
    match BuildDependencies(s, list)
    case Err(_) => Failed(ProviderNotListed, [])
    case Ok(deps) =>
      var run := RunOrder(s, list, deps);
      Launch(s, run, compute)
  }

  /** The three phases over the sorted nodes. */
  function Launch(s: Scene, run: seq<nat>, compute: Compute): (r: RunOutcome)
    requires ArenaOk(s) && forall id :: id in run ==> id < |s.nodes|
    ensures r.executed <= run && forall id :: id in r.executed ==> id in run
    ensures r.Completed? ==> r.executed == run
    ensures r.Failed? ==> r.error != ProviderNotListed
  {
    var t := RegisterOutputs(s, run);
    match LinkInputs(s, run, t)
    case Err(e) => Failed(e, [])
    case Ok(links) =>
      var r := Execute(s, run, links, t, compute);
      assert forall id :: id in r.executed ==> id in run by {
        forall id | id in r.executed
          ensures id in run
        {
          var i :| 0 <= i < |r.executed| && r.executed[i] == id;
          assert run[i] == id;
        }
      }
      r
  }

  /** Every node that runs, runs after every node feeding one of its input
      pins. */
  lemma {:induction false} RunRespectsDependencies(s: Scene, list: seq<nat>, compute: Compute)
    requires ArenaOk(s) && forall id :: id in list ==> id < |s.nodes|
    ensures var r := RunWorkflow(s, list, compute);
            forall a, p :: 0 <= a < |r.executed| && Provides(s, r.executed[a], p) ==> p in r.executed[..a]
  {
    var r := RunWorkflow(s, list, compute);
    if BuildDependencies(s, list).Ok? {
      var deps := BuildDependencies(s, list).value;
      BuiltDepsOk(s, list);
      var order := TopologicalSort(deps, TypeNames(s, list));
      var run := RunOrder(s, list, deps);
      assert run == AtPositions(list, order);
      assert r == Launch(s, run, compute);
      forall a, p | 0 <= a < |r.executed| && Provides(s, r.executed[a], p)
        ensures p in r.executed[..a]
      {
        ProviderRanBefore(s, list, deps, order, r.executed, a, p);
      }
    }
  }

  /** One step of the above: the provider of the `a`-th node to run is at a
      position the sort put before it. */
  lemma {:induction false} ProviderRanBefore(s: Scene, list: seq<nat>, deps: seq<seq<nat>>, order: seq<nat>, executed: seq<nat>, a: nat, p: nat)
    requires ArenaOk(s) && (forall id :: id in list ==> id < |s.nodes|)
    requires BuildDependencies(s, list) == Ok(deps) && Scheduled(deps, order)
    requires forall i :: 0 <= i < |order| ==> order[i] < |list|
    requires executed <= AtPositions(list, order)
    requires a < |executed| && Provides(s, executed[a], p)
    ensures p in executed[..a]
  {
    var run := AtPositions(list, order);
    var v := order[a];
    assert executed[a] == run[a] == list[v];
    assert ProvidersListed(s, list, v);
    var j := IndexOf(list, p).value;
    assert DepsOf(s, list, v, deps[v]);
    assert j in deps[v];
    assert order[a] == v;
    assert j in order[..a];
    var b :| 0 <= b < a && order[b] == j;
    assert executed[b] == run[b] == p;
  }

  /** After a halt, the table holds exactly the output pins of the
      scheduled nodes, and the halting node and every node that was still to
      run have `None` on all of them. */
  lemma {:induction false} HaltLeavesOutputsNone(s: Scene, run: seq<nat>, compute: Compute)
    requires ArenaOk(s) && forall id :: id in run ==> id < |s.nodes|
    ensures var r := Launch(s, run, compute);
            r.Halted? ==>
              && (forall x :: x in r.table <==> RunOutput(s, run, x))
              && (forall x :: x in r.table && x.node !in r.executed[..|r.executed| - 1] ==> r.table[x] == NoneV)
  {
    var r := Launch(s, run, compute);
    if r.Halted? {
      var t := RegisterOutputs(s, run);
      var links := LinkInputs(s, run, t).value;
      assert r == Execute(s, run, links, t, compute);
      HaltKeepsLater(s, run, links, t, compute);
      ExecuteKeepsKeys(s, run, links, t, compute);
    }
  }

  /** Where each input pin of a scheduled node gets its value: an
      unconnected pin with a visible line edit (and no kind selector) reads
      its text, a connected pin reads the value of the upstream pin of its
      first line, and an unconnected pin with a kind selector has no link
      and raises. */
  lemma {:induction false} InputSources(s: Scene, run: seq<nat>, t: Table, q: PinRef)
    requires ArenaOk(s) && (forall id :: id in run ==> id < |s.nodes|) && LinkInputs(s, run, t).Ok?
    requires q.dir == Input && q.node in run && ValidPin(s.nodes, q)
    ensures var p := PinAt(s.nodes, q);
            var links := LinkInputs(s, run, t).value;
            && (p.combo.None? && LineEditShown(p) ==> ReadInput(p, q, links, t) == Ok(Some(StrV(p.lineEdit.value))))
            && (p.connected && FirstSource(s, q) in t ==> ReadInput(p, q, links, t) == Ok(Some(t[FirstSource(s, q)])))
            && (p.combo.Some? && !p.connected ==> ReadInput(p, q, links, t) == Err(MissingLink))
  {
    var p := PinAt(s.nodes, q);
    var links := LinkInputs(s, run, t).value;
    if p.connected {
      assert ConnectedInput(s, run, q);
    }
    if !p.connected {
      assert !ConnectedInput(s, run, q) && q !in links;
    }
  }

  /** A position the sort leaves out names a node that does not run. */
  lemma {:induction false} LeftOutNotRun(list: seq<nat>, order: seq<nat>, v: nat)
    requires NoDups(list) && v < |list| && v !in order
    requires forall i :: 0 <= i < |order| ==> order[i] < |list|
    ensures list[v] !in AtPositions(list, order)
  {
    var run := AtPositions(list, order);
    forall i | 0 <= i < |run|
      ensures run[i] != list[v]
    {
      assert order[i] != v;
    }
  }

  /** Two nodes that feed each other depend on each other's positions. */
  lemma {:induction false} MutualDeps(s: Scene, list: seq<nat>, a: nat, b: nat)
    requires ArenaOk(s) && (forall id :: id in list ==> id < |s.nodes|) && NoDups(list)
    requires a < |list| && b < |list|
    requires Provides(s, list[a], list[b]) && Provides(s, list[b], list[a])
    requires BuildDependencies(s, list).Ok?
    ensures var deps := BuildDependencies(s, list).value;
            b in deps[a] && a in deps[b]
  {
    var deps := BuildDependencies(s, list).value;
    IndexOfDistinct(list, a);
    IndexOfDistinct(list, b);
    assert DepsOf(s, list, a, deps[a]) && DepsOf(s, list, b, deps[b]);
  }

  /** Two positions that depend on each other are left out of the
      order. */
  lemma {:induction false} MutualDepsUnscheduled(deps: seq<seq<nat>>, names: seq<string>, a: nat, b: nat)
    requires DepsOk(deps) && |names| == |deps| && a < |deps| && b < |deps|
    requires b in deps[a] && a in deps[b]
    ensures var order := TopologicalSort(deps, names);
            a !in order && b !in order
  {
    assert WaitsOnSome(deps[a], {a, b}) && WaitsOnSome(deps[b], {a, b});
    StuckNeverScheduled(deps, names, {a, b});
  }

  /** Two nodes that feed each other never run. */
  lemma {:induction false} MutualFeedNeverRuns(s: Scene, list: seq<nat>, compute: Compute, a: nat, b: nat)
    requires ArenaOk(s) && (forall id :: id in list ==> id < |s.nodes|) && NoDups(list)
    requires a < |list| && b < |list|
    requires Provides(s, list[a], list[b]) && Provides(s, list[b], list[a])
    ensures var r := RunWorkflow(s, list, compute);
            list[a] !in r.executed && list[b] !in r.executed
  {
    if BuildDependencies(s, list).Ok? {
      var deps := BuildDependencies(s, list).value;
      BuiltDepsOk(s, list);
      var names := TypeNames(s, list);
      var order := TopologicalSort(deps, names);
      MutualDeps(s, list, a, b);
      MutualDepsUnscheduled(deps, names, a, b);
      assert forall i :: 0 <= i < |order| ==> order[i] in order;
      LeftOutNotRun(list, order, a);
      LeftOutNotRun(list, order, b);
      var run := RunOrder(s, list, deps);
      assert run == AtPositions(list, order);
      assert RunWorkflow(s, list, compute) == Launch(s, run, compute);
    }
  }
}
