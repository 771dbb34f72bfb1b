/** Scheduling a run (RunNodes.py, `_build_dependencies`,
    `_topological_sort`, `_generate_pin_order`). The runner is given the
    scene's nodes as a list; a node is named by its position in that list,
    and the dependency map, the in-degrees and the execution order all speak
    of positions. */
module Scheduler {
  import opened Types
  import opened Pins
  import opened Nodes
  import opened Scene

  // ---------------------------------------------------------------------
  // Dependencies
  // ---------------------------------------------------------------------

  /** Node `provider` feeds input pin `k` or a later input pin of node `id`:
      one of those pins lists a line that ends at it and starts on
      `provider`. */
  ghost predicate ProvidesFrom(s: Scene, id: nat, k: nat, provider: nat)
  {
    && id < |s.nodes|
    && exists j, c :: k <= j < |s.nodes[id].inputs| && c in s.nodes[id].inputs[j].conns
         && c < |s.lines| && s.lines[c].end == PinRef(id, Input, j) && s.lines[c].start.node == provider
  }

  /** Node `provider` feeds some input pin of node `id`. */
  ghost predicate Provides(s: Scene, id: nat, provider: nat)
  {
    ProvidesFrom(s, id, 0, provider)
  }

  /** The provider of every line in `cs` that ends at input pin `k` of node
      `id`, in list order. */
  function PinProviders(s: Scene, id: nat, k: nat, cs: seq<nat>): (r: seq<nat>)
    requires forall c :: c in cs ==> c < |s.lines|
    ensures forall p :: p in r <==>
              exists c :: c in cs && s.lines[c].end == PinRef(id, Input, k) && s.lines[c].start.node == p
  {
    if cs == [] then []
    else
      assert forall c :: c in cs <==> c == cs[0] || c in cs[1..];
      assert cs[0] in cs;
      var rest := PinProviders(s, id, k, cs[1..]);
      var l := s.lines[cs[0]];
      (if l.end == PinRef(id, Input, k) then [l.start.node] else []) + rest
  }

  /** The providers met while scanning input pins `k`, `k + 1`, ... of node
      `id`, pin by pin and line by line. */
  function NodeProviders(s: Scene, id: nat, k: nat): (r: seq<nat>)
    requires ArenaOk(s) && id < |s.nodes| && k <= |s.nodes[id].inputs|
    ensures forall p :: p in r <==> ProvidesFrom(s, id, k, p)
    decreases |s.nodes[id].inputs| - k
  {
    if k == |s.nodes[id].inputs| then []
    else
      var pin := s.nodes[id].inputs[k];
      assert ValidPin(s.nodes, PinRef(id, Input, k)) && PinAt(s.nodes, PinRef(id, Input, k)) == pin;
      var here := PinProviders(s, id, k, pin.conns);
      var rest := NodeProviders(s, id, k + 1);
      assert forall p :: ProvidesFrom(s, id, k, p) ==> p in here || ProvidesFrom(s, id, k + 1, p) by {
        forall p | ProvidesFrom(s, id, k, p)
          ensures p in here || ProvidesFrom(s, id, k + 1, p)
        {
          var j, c :| k <= j < |s.nodes[id].inputs| && c in s.nodes[id].inputs[j].conns
                      && c < |s.lines| && s.lines[c].end == PinRef(id, Input, j) && s.lines[c].start.node == p;
          if j == k {
            assert p in here;
          } else {
            assert ProvidesFrom(s, id, k + 1, p);
          }
        }
      }
      here + rest
  }

  /** Resolve providers to list positions, as `nodes.index` does, adding
      each position not yet in `acc`. A provider that is not in the list
      makes the lookup raise. */
  function ResolveDeps(list: seq<nat>, prods: seq<nat>, acc: seq<nat>): (r: Result<seq<nat>>)
    ensures r.Ok? <==> forall p :: p in prods ==> p in list
    ensures r.Ok? ==> forall j: nat :: j in r.value <==>
              j in acc || (j < |list| && list[j] in prods && IndexOf(list, list[j]) == Some(j))
    ensures r.Ok? && NoDups(acc) ==> NoDups(r.value)
  {
    if prods == [] then Ok(acc)
    else
      assert forall p :: p in prods <==> p == prods[0] || p in prods[1..];
      match IndexOf(list, prods[0])
      case None => Err(ProviderNotListed)
      case Some(j) =>
        var acc' := if j in acc then acc else acc + [j];
        assert NoDups(acc) ==> NoDups(acc') by {
          if NoDups(acc) && j !in acc {
            NoDupsAppend(acc, [j]);
          }
        }
        ResolveDeps(list, prods[1..], acc')
  }

  /** Every provider of list position `k` is itself in the list. */
  ghost predicate ProvidersListed(s: Scene, list: seq<nat>, k: nat)
    requires k < |list|
  {
    forall p :: Provides(s, list[k], p) ==> p in list
  }

  /** `d` is a duplicate-free list of exactly the positions of the nodes
      feeding list position `k` (the first position, where a node is listed
      twice). */
  ghost predicate DepsOf(s: Scene, list: seq<nat>, k: nat, d: seq<nat>)
    requires k < |list|
  {
    && NoDups(d)
    && forall j: nat :: j in d <==> j < |list| && Provides(s, list[k], list[j]) && IndexOf(list, list[j]) == Some(j)
  }

  /** The dependency list of list position `k`. */
  function NodeDeps(s: Scene, list: seq<nat>, k: nat): (r: Result<seq<nat>>)
    requires ArenaOk(s) && (forall id :: id in list ==> id < |s.nodes|) && k < |list|
    ensures r.Ok? <==> ProvidersListed(s, list, k)
    ensures r.Ok? ==> DepsOf(s, list, k, r.value)
  {
    assert list[k] in list;
    ResolveDeps(list, NodeProviders(s, list[k], 0), [])
  }

  /** Dependency lists for the first `i` list positions. */
  function DepsUpTo(s: Scene, list: seq<nat>, i: nat): (r: Result<seq<seq<nat>>>)
    requires ArenaOk(s) && (forall id :: id in list ==> id < |s.nodes|) && i <= |list|
    ensures r.Ok? <==> forall k :: 0 <= k < i ==> ProvidersListed(s, list, k)
    ensures r.Ok? ==> |r.value| == i && forall k :: 0 <= k < i ==> DepsOf(s, list, k, r.value[k])
  {
    if i == 0 then Ok([])
    else
      match DepsUpTo(s, list, i - 1)
      case Err(e) => Err(e)
      case Ok(prev) =>
        match NodeDeps(s, list, i - 1)
        case Err(e) => Err(e)
        case Ok(d) =>
          DepsSnoc(s, list, prev, d);
          Ok(prev + [d])
  }

  lemma {:induction false} DepsSnoc(s: Scene, list: seq<nat>, prev: seq<seq<nat>>, d: seq<nat>)
    requires |prev| < |list|
    requires forall k :: 0 <= k < |prev| ==> DepsOf(s, list, k, prev[k])
    requires DepsOf(s, list, |prev|, d)
    ensures forall k :: 0 <= k <= |prev| ==> DepsOf(s, list, k, (prev + [d])[k])
  {
    forall k | 0 <= k <= |prev|
      ensures DepsOf(s, list, k, (prev + [d])[k])
    {
      if k < |prev| {
        assert (prev + [d])[k] == prev[k];
      }
    }
  }

  /** `_build_dependencies`: for every node of the list an initially empty
      list, extended with the position of each node feeding one of its input
      pins, once each. Fails when a provider is not in the list. */
  function BuildDependencies(s: Scene, list: seq<nat>): (r: Result<seq<seq<nat>>>)
    requires ArenaOk(s) && forall id :: id in list ==> id < |s.nodes|
    ensures r.Ok? <==> forall k :: 0 <= k < |list| ==> ProvidersListed(s, list, k)
    ensures r.Ok? ==> |r.value| == |list| && forall k :: 0 <= k < |list| ==> DepsOf(s, list, k, r.value[k])
  {
    DepsUpTo(s, list, |list|)
  }

  /** A dependency map as the sort expects it: lists are duplicate-free and
      name positions of the map. */
  predicate DepsOk(deps: seq<seq<nat>>)
  {
    forall v :: 0 <= v < |deps| ==> NoDups(deps[v]) && forall d :: d in deps[v] ==> d < |deps|
  }

  lemma {:induction false} BuiltDepsOk(s: Scene, list: seq<nat>)
    requires ArenaOk(s) && forall id :: id in list ==> id < |s.nodes|
    requires BuildDependencies(s, list).Ok?
    ensures DepsOk(BuildDependencies(s, list).value)
  {
    var deps := BuildDependencies(s, list).value;
    forall v | 0 <= v < |deps|
      ensures NoDups(deps[v]) && forall d :: d in deps[v] ==> d < |deps|
    {
      assert DepsOf(s, list, v, deps[v]);
    }
  }

  /** The in-degree the sort starts from: one per entry of a node's list. */
  function InDegrees(deps: seq<seq<nat>>): (r: seq<int>)
    ensures |r| == |deps|
    ensures forall v :: 0 <= v < |deps| ==> r[v] == |deps[v]|
  {
    seq(|deps|, v requires 0 <= v < |deps| => |deps[v]|)
  }

  /** The list positions of the nodes feeding list position `k`. */
  ghost function Feeding(s: Scene, list: seq<nat>, k: nat): set<nat>
    requires k < |list|
  {
    set j: nat | j < |list| && Provides(s, list[k], list[j])
  }

  /** A node's in-degree counts the distinct nodes feeding it, however many
      lines run between them. */
  lemma {:induction false} InDegreeCountsProviders(s: Scene, list: seq<nat>, deps: seq<seq<nat>>, k: nat)
    requires ArenaOk(s) && (forall id :: id in list ==> id < |s.nodes|) && NoDups(list)
    requires BuildDependencies(s, list) == Ok(deps) && k < |list|
    ensures InDegrees(deps)[k] == |Feeding(s, list, k)|
  {
    assert DepsOf(s, list, k, deps[k]);
    DistinctCard(deps[k]);
    DepsAreFeeding(s, list, k, deps[k]);
  }

  lemma {:induction false} DepsAreFeeding(s: Scene, list: seq<nat>, k: nat, d: seq<nat>)
    requires k < |list| && NoDups(list) && DepsOf(s, list, k, d)
    ensures (set x: nat | x in d) == Feeding(s, list, k)
  {
    var listed := set x: nat | x in d;
    var feeding := Feeding(s, list, k);
    forall j | j in feeding
      ensures j in listed
    {
      IndexOfDistinct(list, j);
    }
  }

  // ---------------------------------------------------------------------
  // Kahn's algorithm
  // ---------------------------------------------------------------------

  predicate Ascending(q: seq<nat>)
  {
    forall a, b :: 0 <= a < b < |q| ==> q[a] < q[b]
  }

  lemma {:induction false} AscendingNoDups(q: seq<nat>)
    requires Ascending(q)
    ensures NoDups(q)
  {
  }

  /** The positions from `v` on whose in-degree is zero, in index order. */
  function ZeroFrom(indeg: seq<int>, v: nat): (r: seq<nat>)
    requires v <= |indeg|
    ensures forall w: nat :: w in r <==> v <= w < |indeg| && indeg[w] == 0
    ensures forall i :: 0 <= i < |r| ==> v <= r[i] < |indeg|
    ensures Ascending(r)
    decreases |indeg| - v
  {
    if v == |indeg| then []
    else if indeg[v] == 0 then [v] + ZeroFrom(indeg, v + 1)
    else ZeroFrom(indeg, v + 1)
  }

  /** The position in `zero` of the first node whose type is `Start`. */
  function FindStart(zero: seq<nat>, names: seq<string>): (r: Option<nat>)
    requires forall i :: 0 <= i < |zero| ==> zero[i] < |names|
    ensures r.Some? ==> r.value < |zero| && names[zero[r.value]] == "Start"
    ensures r.Some? ==> forall j :: 0 <= j < r.value ==> names[zero[j]] != "Start"
    ensures r.None? <==> forall i :: 0 <= i < |zero| ==> names[zero[i]] != "Start"
  {
    if zero == [] then None
    else if names[zero[0]] == "Start" then Some(0)
    else
      match FindStart(zero[1..], names)
      case None => None
      case Some(k) => Some(k + 1)
  }

  /** In an ascending list, the first `Start` entry is also the smallest. */
  lemma {:induction false} FirstStartSmallest(zero: seq<nat>, names: seq<string>, k: nat)
    requires forall i :: 0 <= i < |zero| ==> zero[i] < |names|
    requires Ascending(zero) && FindStart(zero, names) == Some(k)
    ensures forall j :: 0 <= j < |zero| && zero[j] < zero[k] ==> names[zero[j]] != "Start"
  {
    forall j | 0 <= j < |zero| && zero[j] < zero[k]
      ensures names[zero[j]] != "Start"
    {
    }
  }

  lemma {:induction false} AscendingCons(x: nat, r: seq<nat>)
    requires Ascending(r) && forall b :: 0 <= b < |r| ==> x < r[b]
    ensures Ascending([x] + r)
  {
    var q := [x] + r;
    forall a, b | 0 <= a < b < |q|
      ensures q[a] < q[b]
    {
      assert q[b] == r[b - 1];
      if a > 0 {
        assert q[a] == r[a - 1];
      }
    }
  }

  lemma {:induction false} WithoutAscending(q: seq<nat>, x: nat)
    requires Ascending(q)
    ensures Ascending(Without(q, x))
  {
    if q != [] {
      WithoutAscending(q[1..], x);
      var rest := Without(q[1..], x);
      if q[0] != x {
        assert Without(q, x) == [q[0]] + rest;
        forall b | 0 <= b < |rest|
          ensures q[0] < rest[b]
        {
          assert rest[b] in rest;
          var i :| 0 <= i < |q[1..]| && q[1..][i] == rest[b];
          assert q[i + 1] == rest[b];
        }
        AscendingCons(q[0], rest);
      } else {
        assert Without(q, x) == rest;
      }
    }
  }

  /** The queue the sort starts from: the zero-in-degree nodes in index
      order, except that the first of them whose type is `Start` is moved to
      the front. */
  function InitialQueue(deps: seq<seq<nat>>, names: seq<string>): (q: seq<nat>)
    requires |names| == |deps|
    ensures NoDups(q)
    ensures forall v: nat :: v in q <==> v < |deps| && deps[v] == []
    ensures (exists v :: 0 <= v < |deps| && deps[v] == [] && names[v] == "Start") ==>
              && q != [] && q[0] < |deps| && names[q[0]] == "Start"
              && (forall v :: 0 <= v < q[0] && deps[v] == [] ==> names[v] != "Start")
              && Ascending(q[1..])
    ensures (forall v :: 0 <= v < |deps| && deps[v] == [] ==> names[v] != "Start") ==> Ascending(q)
  {
    var zero := ZeroFrom(InDegrees(deps), 0);
    AscendingNoDups(zero);
    match FindStart(zero, names)
    case None =>
      assert forall v :: 0 <= v < |deps| && deps[v] == [] ==> names[v] != "Start" by {
        forall v | 0 <= v < |deps| && deps[v] == []
          ensures names[v] != "Start"
        {
          assert v in zero;
        }
      }
      zero
    case Some(k) =>
      var st := zero[k];
      FirstStartSmallest(zero, names, k);
      assert forall v :: 0 <= v < st && deps[v] == [] ==> names[v] != "Start" by {
        forall v | 0 <= v < st && deps[v] == []
          ensures names[v] != "Start"
        {
          assert v in zero;
        }
      }
      var rest := Without(zero, st);
      WithoutAscending(zero, st);
      NoDupsAppend([st], rest);
      assert ([st] + rest)[1..] == rest;
      [st] + rest
  }

  /** How many of `ds` are not yet in `done`. */
  function Missing(ds: seq<nat>, done: seq<nat>): (r: nat)
    ensures r <= |ds|
    ensures r == 0 <==> forall d :: d in ds ==> d in done
    ensures done == [] ==> r == |ds|
  {
    if ds == [] then 0
    else
      assert forall d :: d in ds <==> d == ds[0] || d in ds[1..];
      (if ds[0] in done then 0 else 1) + Missing(ds[1..], done)
  }

  /** Finishing one more node lowers the count by one for the nodes that
      wait on it and leaves it alone for the rest. */
  lemma {:induction false} MissingAppend(ds: seq<nat>, done: seq<nat>, x: nat)
    requires NoDups(ds) && x !in done
    ensures Missing(ds, done + [x]) == Missing(ds, done) - (if x in ds then 1 else 0)
  {
    if ds != [] {
      assert NoDups(ds[1..]);
      MissingAppend(ds[1..], done, x);
      assert x in ds <==> x == ds[0] || x in ds[1..];
      if x == ds[0] {
        assert x !in ds[1..];
      }
    }
  }

  /** The inner loop once `current` is finished, from node `v` on: every
      node waiting on `current` has its in-degree lowered, and those that
      reach zero are collected in index order (the loop appends them to the
      queue). */
  function Relax(deps: seq<seq<nat>>, current: nat, indeg: seq<int>, v: nat): (r: (seq<int>, seq<nat>))
    requires |indeg| == |deps| && v <= |deps|
    ensures |r.0| == |deps|
    ensures forall w :: 0 <= w < v ==> r.0[w] == indeg[w]
    ensures forall w :: v <= w < |deps| ==> r.0[w] == if current in deps[w] then indeg[w] - 1 else indeg[w]
    ensures forall w: nat :: w in r.1 <==> v <= w < |deps| && current in deps[w] && indeg[w] == 1
    ensures forall i :: 0 <= i < |r.1| ==> v <= r.1[i]
    ensures Ascending(r.1)
    decreases |deps| - v
  {
    if v == |deps| then (indeg, [])
    else
      var hit := current in deps[v];
      var rest := Relax(deps, current, if hit then indeg[v := indeg[v] - 1] else indeg, v + 1);
      if hit && indeg[v] == 1 then (rest.0, [v] + rest.1) else rest
  }

  /** `indeg` counts each node's dependencies not yet finished. */
  ghost predicate CountsMissing(deps: seq<seq<nat>>, indeg: seq<int>, result: seq<nat>)
  {
    |indeg| == |deps| && forall v :: 0 <= v < |deps| ==> indeg[v] == Missing(deps[v], result)
  }

  /** Finished and queued nodes are distinct valid positions. */
  ghost predicate Listed(deps: seq<seq<nat>>, queue: seq<nat>, result: seq<nat>)
  {
    NoDups(result + queue) && forall v :: v in result + queue ==> v < |deps|
  }

  /** Queued nodes wait on nothing unfinished. */
  ghost predicate QueueReady(deps: seq<seq<nat>>, queue: seq<nat>, result: seq<nat>)
  {
    forall v :: v in queue ==> v < |deps| && Missing(deps[v], result) == 0
  }

  /** Every node that waits on nothing unfinished is finished or queued. */
  ghost predicate ReadyListed(deps: seq<seq<nat>>, queue: seq<nat>, result: seq<nat>)
  {
    forall v: nat :: v < |deps| && Missing(deps[v], result) == 0 ==> v in result + queue
  }

  /** Every node of `r` comes after all of its dependencies. */
  ghost predicate Ordered(deps: seq<seq<nat>>, r: seq<nat>)
  {
    forall k :: 0 <= k < |r| ==> r[k] < |deps| && forall d :: d in deps[r[k]] ==> d in r[..k]
  }

  /** What the loop of the sort keeps true from one step to the next. */
  ghost predicate KahnInv(deps: seq<seq<nat>>, indeg: seq<int>, queue: seq<nat>, result: seq<nat>)
  {
    && CountsMissing(deps, indeg, result)
    && Listed(deps, queue, result)
    && QueueReady(deps, queue, result)
    && ReadyListed(deps, queue, result)
    && Ordered(deps, result)
  }

  /** An execution order for a dependency map: distinct valid positions,
      each after all of its dependencies, and closed: a node all of whose
      dependencies are in the order is in it too. */
  ghost predicate Scheduled(deps: seq<seq<nat>>, r: seq<nat>)
  {
    && NoDups(r)
    && (forall v :: v in r ==> v < |deps|)
    && Ordered(deps, r)
    && Closed(deps, r)
  }

  /** A node all of whose dependencies are in `r` is in `r`. */
  ghost predicate Closed(deps: seq<seq<nat>>, r: seq<nat>)
  {
    forall v: nat :: v < |deps| && (forall d :: d in deps[v] ==> d in r) ==> v in r
  }

  lemma {:induction false} ListedAreReady(deps: seq<seq<nat>>, queue: seq<nat>, result: seq<nat>)
    requires Listed(deps, queue, result) && QueueReady(deps, queue, result) && Ordered(deps, result)
    ensures forall v :: v in result + queue ==> v < |deps| && Missing(deps[v], result) == 0
  {
    forall v | v in result + queue
      ensures v < |deps| && Missing(deps[v], result) == 0
    {
      if v in result {
        var k :| 0 <= k < |result| && result[k] == v;
        assert forall d :: d in result[..k] ==> d in result;
      } else {
        assert v in queue;
      }
    }
  }

  lemma {:induction false} StepCounts(deps: seq<seq<nat>>, indeg: seq<int>, result: seq<nat>, c: nat)
    requires DepsOk(deps) && CountsMissing(deps, indeg, result) && c !in result
    ensures CountsMissing(deps, Relax(deps, c, indeg, 0).0, result + [c])
  {
    var indeg' := Relax(deps, c, indeg, 0).0;
    forall v | 0 <= v < |deps|
      ensures indeg'[v] == Missing(deps[v], result + [c])
    {
      MissingAppend(deps[v], result, c);
    }
  }

  lemma {:induction false} StepListed(deps: seq<seq<nat>>, indeg: seq<int>, queue: seq<nat>, result: seq<nat>)
    requires CountsMissing(deps, indeg, result) && Listed(deps, queue, result)
    requires QueueReady(deps, queue, result) && Ordered(deps, result) && queue != []
    ensures Listed(deps, queue[1..] + Relax(deps, queue[0], indeg, 0).1, result + [queue[0]])
  {
    var added := Relax(deps, queue[0], indeg, 0).1;
    assert result + [queue[0]] + (queue[1..] + added) == (result + queue) + added;
    ListedAreReady(deps, queue, result);
    forall w | w in added
      ensures w !in result + queue
    {
      assert Missing(deps[w], result) == 1;
    }
    AscendingNoDups(added);
    NoDupsAppend(result + queue, added);
  }

  lemma {:induction false} StepReady(deps: seq<seq<nat>>, indeg: seq<int>, queue: seq<nat>, result: seq<nat>)
    requires DepsOk(deps) && CountsMissing(deps, indeg, result) && QueueReady(deps, queue, result)
    requires queue != [] && queue[0] !in result
    ensures QueueReady(deps, queue[1..] + Relax(deps, queue[0], indeg, 0).1, result + [queue[0]])
  {
    var c := queue[0];
    var added := Relax(deps, c, indeg, 0).1;
    forall v | v in queue[1..] + added
      ensures v < |deps| && Missing(deps[v], result + [c]) == 0
    {
      if v in queue[1..] {
        assert v in queue;
      }
      MissingAppend(deps[v], result, c);
    }
  }

  lemma {:induction false} StepComplete(deps: seq<seq<nat>>, indeg: seq<int>, queue: seq<nat>, result: seq<nat>)
    requires DepsOk(deps) && CountsMissing(deps, indeg, result) && ReadyListed(deps, queue, result)
    requires queue != [] && queue[0] !in result
    ensures ReadyListed(deps, queue[1..] + Relax(deps, queue[0], indeg, 0).1, result + [queue[0]])
  {
    var c := queue[0];
    var added := Relax(deps, c, indeg, 0).1;
    assert result + queue == result + [c] + queue[1..];
    forall v: nat | v < |deps| && Missing(deps[v], result + [c]) == 0
      ensures v in result + [c] + (queue[1..] + added)
    {
      MissingAppend(deps[v], result, c);
      if Missing(deps[v], result) != 0 {
        assert v in added;
      } else {
        assert v in result + queue;
      }
    }
  }

  lemma {:induction false} StepOrdered(deps: seq<seq<nat>>, queue: seq<nat>, result: seq<nat>)
    requires Ordered(deps, result) && QueueReady(deps, queue, result) && queue != []
    ensures Ordered(deps, result + [queue[0]])
  {
    var result' := result + [queue[0]];
    assert queue[0] in queue;
    forall k | 0 <= k < |result'|
      ensures result'[k] < |deps| && forall d :: d in deps[result'[k]] ==> d in result'[..k]
    {
      if k < |result| {
        assert result'[k] == result[k] && result'[..k] == result[..k];
      } else {
        assert result'[k] == queue[0] && result'[..k] == result;
      }
    }
  }

  /** One step of the loop keeps the invariant. */
  lemma {:induction false} KahnStep(deps: seq<seq<nat>>, indeg: seq<int>, queue: seq<nat>, result: seq<nat>)
    requires DepsOk(deps) && KahnInv(deps, indeg, queue, result) && queue != []
    ensures var r := Relax(deps, queue[0], indeg, 0);
            KahnInv(deps, r.0, queue[1..] + r.1, result + [queue[0]])
  {
    NoDupsDisjoint(result, queue);
    assert queue[0] in queue;
    StepCounts(deps, indeg, result, queue[0]);
    StepListed(deps, indeg, queue, result);
    StepReady(deps, indeg, queue, result);
    StepComplete(deps, indeg, queue, result);
    StepOrdered(deps, queue, result);
  }

  /** When the queue runs dry the finished list is an execution order. */
  lemma {:induction false} KahnDone(deps: seq<seq<nat>>, indeg: seq<int>, result: seq<nat>)
    requires KahnInv(deps, indeg, [], result)
    ensures [] <= result && Scheduled(deps, result)
  {
    assert result + [] == result;
    forall v: nat | v < |deps| && (forall d :: d in deps[v] ==> d in result)
      ensures v in result
    {
      assert Missing(deps[v], result) == 0;
    }
  }

  lemma {:induction false} PrefixGrows(result: seq<nat>, queue: seq<nat>, added: seq<nat>, r: seq<nat>)
    requires queue != []
    requires result + [queue[0]] + (queue[1..] + added) <= r
    ensures result + queue <= r
  {
    assert result + [queue[0]] + (queue[1..] + added) == (result + queue) + added;
  }

  /** The loop of `_topological_sort`: take the head of the queue, finish
      it, relax the nodes that wait on it, until the queue is empty. */
  function Kahn(deps: seq<seq<nat>>, indeg: seq<int>, queue: seq<nat>, result: seq<nat>): (r: seq<nat>)
    requires DepsOk(deps) && KahnInv(deps, indeg, queue, result)
    ensures result + queue <= r
    ensures Scheduled(deps, r)
    decreases |deps| - |result|
  {
    if queue == [] then
      KahnDone(deps, indeg, result);
      result
    else
      DistinctBounded(result + queue, |deps|);
      KahnStep(deps, indeg, queue, result);
      var next := Relax(deps, queue[0], indeg, 0);
      var r := Kahn(deps, next.0, queue[1..] + next.1, result + [queue[0]]);
      PrefixGrows(result, queue, next.1, r);
      r
  }

  /** `_topological_sort`. */
  function TopologicalSort(deps: seq<seq<nat>>, names: seq<string>): (r: seq<nat>)
    requires DepsOk(deps) && |names| == |deps|
    ensures Scheduled(deps, r)
    ensures InitialQueue(deps, names) <= r
    ensures |r| <= |deps|
  {
    var q := InitialQueue(deps, names);
    var indeg := InDegrees(deps);
    assert [] + q == q;
    assert KahnInv(deps, indeg, q, []);
    var r := Kahn(deps, indeg, q, []);
    DistinctBounded(r, |deps|);
    r
  }

  /** When some node waiting on nothing has type `Start`, the first such
      node runs first. */
  lemma {:induction false} StartRunsFirst(deps: seq<seq<nat>>, names: seq<string>, v: nat)
    requires DepsOk(deps) && |names| == |deps|
    requires v < |deps| && deps[v] == [] && names[v] == "Start"
    ensures var r := TopologicalSort(deps, names);
            && r != [] && r[0] < |deps| && names[r[0]] == "Start" && deps[r[0]] == []
            && forall w :: 0 <= w < r[0] && deps[w] == [] ==> names[w] != "Start"
  {
    var q := InitialQueue(deps, names);
    assert q[0] in q;
  }

  /** Node `v` is in the order when its rank is at most `m`, ranks falling
      along every dependency. */
  lemma {:induction false} RankedScheduled(deps: seq<seq<nat>>, r: seq<nat>, rank: seq<nat>, v: nat, m: nat)
    requires Closed(deps, r) && DepsOk(deps) && |rank| == |deps|
    requires forall u, d :: 0 <= u < |deps| && d in deps[u] ==> rank[d] < rank[u]
    requires v < |deps| && rank[v] <= m
    ensures v in r
    decreases m
  {
    forall d: nat | d in deps[v]
      ensures d in r
    {
      assert d < |deps| && rank[d] < rank[v];
      RankedScheduled(deps, r, rank, d, m - 1);
    }
  }

  /** With no cycle (witnessed by a rank that falls along every dependency)
      every node is ordered exactly once: the order is a permutation of the
      positions. */
  lemma {:induction false} AcyclicSchedulesAll(deps: seq<seq<nat>>, names: seq<string>, rank: seq<nat>)
    requires DepsOk(deps) && |names| == |deps| && |rank| == |deps|
    requires forall u, d :: 0 <= u < |deps| && d in deps[u] ==> rank[d] < rank[u]
    ensures var r := TopologicalSort(deps, names);
            && |r| == |deps|
            && NoDups(r)
            && forall v: nat :: v in r <==> v < |deps|
  {
    var r := TopologicalSort(deps, names);
    forall v: nat | v < |deps|
      ensures v in r
    {
      RankedScheduled(deps, r, rank, v, rank[v]);
    }
    CoverLength(r, |deps|);
  }

  /** A set in which every member waits on another member: a dependency
      cycle together with whatever depends on it. */
  ghost predicate Stuck(deps: seq<seq<nat>>, stuck: set<nat>)
  {
    forall v :: v in stuck ==> v < |deps| && WaitsOnSome(deps[v], stuck)
  }

  /** Some dependency in `ds` is in `stuck`. */
  ghost predicate WaitsOnSome(ds: seq<nat>, stuck: set<nat>)
  {
    exists d :: d in ds && d in stuck
  }

  /** The first `k` entries of an order hold no stuck node. */
  lemma {:induction false} StuckPrefix(deps: seq<seq<nat>>, r: seq<nat>, stuck: set<nat>, k: nat)
    requires Ordered(deps, r) && Stuck(deps, stuck) && k <= |r|
    ensures forall i :: 0 <= i < k ==> r[i] !in stuck
    decreases k
  {
    if k > 0 {
      StuckPrefix(deps, r, stuck, k - 1);
      if r[k - 1] in stuck {
        assert false;
      }
    }
  }

  /** Nodes on a dependency cycle, and nodes downstream of one, never
      run. */
  lemma {:induction false} StuckNeverScheduled(deps: seq<seq<nat>>, names: seq<string>, stuck: set<nat>)
    requires DepsOk(deps) && |names| == |deps| && Stuck(deps, stuck)
    ensures forall v :: v in stuck ==> v !in TopologicalSort(deps, names)
  {
    var r := TopologicalSort(deps, names);
    StuckPrefix(deps, r, stuck, |r|);
  }

  /** Two nodes feeding each other: nothing runs. */
  lemma {:induction false} TwoCycleRunsNothing()
    ensures TopologicalSort([[1], [0]], ["A", "B"]) == []
  {
    var deps: seq<seq<nat>> := [[1], [0]];
    assert DepsOk(deps);
    assert 1 in deps[0] && 0 in deps[1];
    assert WaitsOnSome(deps[0], {0, 1}) && WaitsOnSome(deps[1], {0, 1});
    StuckNeverScheduled(deps, ["A", "B"], {0, 1});
  }

  // ---------------------------------------------------------------------
  // Pin order
  // ---------------------------------------------------------------------

  /** One visit of `_generate_pin_order`: node position, pin index, side. */
  datatype Visit = Visit(node: nat, pin: nat, dir: Direction)

  /** The visits of one pin list, from pin `k` on. */
  function SideVisits(node: nat, dir: Direction, count: nat, k: nat): (r: seq<Visit>)
    requires k <= count
    ensures |r| == count - k
    ensures forall x :: x in r <==> x.node == node && x.dir == dir && k <= x.pin < count
    ensures forall i :: 0 <= i < |r| ==> r[i] == Visit(node, k + i, dir)
    decreases count - k
  {
    if k == count then []
    else [Visit(node, k, dir)] + SideVisits(node, dir, count, k + 1)
  }

  /** Pins in the scheduled nodes, summed. */
  function PinTotal(ns: seq<Node>, order: seq<nat>): nat
    requires forall v :: v in order ==> v < |ns|
  {
    if order == [] then 0
    else
      assert order[0] in order;
      assert forall v :: v in order <==> v == order[0] || v in order[1..];
      |ns[order[0]].inputs| + |ns[order[0]].outputs| + PinTotal(ns, order[1..])
  }

  /** `_generate_pin_order`: for each scheduled node in order, its input
      pins and then its output pins. */
  function GeneratePinOrder(ns: seq<Node>, order: seq<nat>): (r: seq<Visit>)
    requires forall v :: v in order ==> v < |ns|
    ensures |r| == PinTotal(ns, order)
    ensures forall x :: x in r <==> x.node in order && x.pin < |PinsOf(ns[x.node], x.dir)|
  {
    if order == [] then []
    else
      var v := order[0];
      assert v in order;
      assert forall w :: w in order <==> w == v || w in order[1..];
      SideVisits(v, Input, |ns[v].inputs|, 0) + SideVisits(v, Output, |ns[v].outputs|, 0)
        + GeneratePinOrder(ns, order[1..])
  }

  /** The visits of one node: its input pins from 0 up, then its output
      pins from 0 up. */
  lemma {:induction false} NodeVisits(ns: seq<Node>, v: nat)
    requires v < |ns|
    ensures GeneratePinOrder(ns, [v]) == SideVisits(v, Input, |ns[v].inputs|, 0) + SideVisits(v, Output, |ns[v].outputs|, 0)
  {
    assert GeneratePinOrder(ns, [v][1..]) == [];
  }

  /** Running one order after another visits the pins of the first and
      then those of the second. */
  lemma {:induction false} GeneratePinOrderAppend(ns: seq<Node>, a: seq<nat>, b: seq<nat>)
    requires forall v :: v in a + b ==> v < |ns|
    ensures (forall v :: v in a ==> v < |ns|) && (forall v :: v in b ==> v < |ns|)
    ensures GeneratePinOrder(ns, a + b) == GeneratePinOrder(ns, a) + GeneratePinOrder(ns, b)
  {
    if a == [] {
      assert a + b == b;
    } else {
      var v := a[0];
      var ab := a + b;
      assert ab[0] == v && v in ab && ab[1..] == a[1..] + b;
      assert forall w :: w in ab[1..] ==> w in ab;
      GeneratePinOrderAppend(ns, a[1..], b);
      assert forall w :: w in a ==> w == v || w in a[1..];
      var h := SideVisits(v, Input, |ns[v].inputs|, 0) + SideVisits(v, Output, |ns[v].outputs|, 0);
      var ra, rb := GeneratePinOrder(ns, a[1..]), GeneratePinOrder(ns, b);
      assert GeneratePinOrder(ns, ab) == h + (ra + rb);
      assert GeneratePinOrder(ns, a) == h + ra;
      Associate(h, ra, rb);
    }
  }

  /** Every input-pin visit of a node comes before every output-pin visit
      of the same node. */
  predicate InputsBeforeOutputs(r: seq<Visit>)
  {
    forall a, b :: 0 <= a < |r| && 0 <= b < |r| && r[a].node == r[b].node && r[a].dir == Input && r[b].dir == Output ==> a < b
  }

  /** Visits of one node followed by visits of other nodes keep inputs
      before outputs. */
  lemma {:induction false} InputsBeforeOutputsJoin(h: seq<Visit>, rest: seq<Visit>, v: nat)
    requires forall i :: 0 <= i < |h| ==> h[i].node == v
    requires forall x :: x in rest ==> x.node != v
    requires InputsBeforeOutputs(h) && InputsBeforeOutputs(rest)
    ensures InputsBeforeOutputs(h + rest)
  {
    var r := h + rest;
    forall a, b | 0 <= a < |r| && 0 <= b < |r| && r[a].node == r[b].node && r[a].dir == Input && r[b].dir == Output
      ensures a < b
    {
      if a >= |h| && b >= |h| {
        assert r[a] == rest[a - |h|] && r[b] == rest[b - |h|];
      } else if a < |h| && b < |h| {
        assert r[a] == h[a] && r[b] == h[b];
      }
    }
  }

  /** In the pin order of an order that lists each node once, every input
      pin of a node is visited before every output pin of that node. */
  lemma {:induction false} InputsVisitedFirst(ns: seq<Node>, order: seq<nat>)
    requires (forall v :: v in order ==> v < |ns|) && NoDups(order)
    ensures InputsBeforeOutputs(GeneratePinOrder(ns, order))
  {
    if order != [] {
      var v := order[0];
      assert v in order;
      assert forall w :: w in order[1..] ==> w in order;
      assert NoDups(order[1..]) && v !in order[1..] by {
        assert forall i :: 0 <= i < |order[1..]| ==> order[1..][i] == order[i + 1];
      }
      InputsVisitedFirst(ns, order[1..]);
      var ins := SideVisits(v, Input, |ns[v].inputs|, 0);
      var outs := SideVisits(v, Output, |ns[v].outputs|, 0);
      var h := ins + outs;
      assert forall i :: 0 <= i < |h| ==> h[i].node == v && (h[i].dir == Input <==> i < |ins|) by {
        forall i | 0 <= i < |h|
          ensures h[i].node == v && (h[i].dir == Input <==> i < |ins|)
        {
          if i < |ins| { assert h[i] == ins[i]; } else { assert h[i] == outs[i - |ins|]; }
        }
      }
      InputsBeforeOutputsJoin(h, GeneratePinOrder(ns, order[1..]), v);
    }
  }
}
