/** The `Add(int)` node type (CustomNodes/Add): two editable integer inputs,
    one integer output, and a computation that converts every argument with
    Python's `int(...)` and returns their sum. */
module AddNode {
  import opened Types
  import opened Pins
  import opened Nodes
  import opened Scene
  import opened Scheduler
  import opened Executor

  /** The node type's `Info` schema. */
  const AddInfo: NodeInfo := NodeInfo("Add(int)", "加(int)", [PinSpec(Int, true), PinSpec(Int, true)], [PinSpec(Int, false)])

  // ---------------------------------------------------------------------
  // Python's int(...)
  // ---------------------------------------------------------------------

  /** The ASCII characters `int(...)` skips around a literal. */
  predicate IsSpace(c: char)
  {
    c == ' ' || ('\t' <= c <= '\r') || ('\U{1C}' <= c <= '\U{1F}')
  }

  predicate IsDigit(c: char)
  {
    '0' <= c <= '9'
  }

  predicate AllDigits(s: string)
  {
    forall i :: 0 <= i < |s| ==> IsDigit(s[i])
  }

  /** Drop leading spaces. */
  function TrimLeft(s: string): (r: string)
    ensures |r| <= |s| && r == s[|s| - |r|..]
    ensures r == [] || !IsSpace(r[0])
    ensures forall i :: 0 <= i < |s| - |r| ==> IsSpace(s[i])
  {
    if s != [] && IsSpace(s[0]) then TrimLeft(s[1..]) else s
  }

  /** Drop trailing spaces. */
  function TrimRight(s: string): (r: string)
    ensures |r| <= |s| && r == s[..|r|]
    ensures r == [] || !IsSpace(r[|r| - 1])
    ensures forall i :: |r| <= i < |s| ==> IsSpace(s[i])
  {
    if s != [] && IsSpace(s[|s| - 1]) then TrimRight(s[..|s| - 1]) else s
  }

  function Trim(s: string): string
  {
    TrimRight(TrimLeft(s))
  }

  /** The value of a string of decimal digits, most significant first. */
  function DigitsValue(s: string): nat
    requires AllDigits(s)
  {
    if s == [] then 0
    else DigitsValue(s[..|s| - 1]) * 10 + (s[|s| - 1] as int - '0' as int)
  }

  /** An integer literal after trimming: an optional sign and at least one
      digit. */
  predicate IsLiteral(t: string)
  {
    var body := if t != [] && (t[0] == '-' || t[0] == '+') then t[1..] else t;
    body != [] && AllDigits(body)
  }

  /** `int(s)` for a string: spaces around the literal are skipped, a sign
      is optional, and anything else raises. */
  function ParseInt(s: string): (r: Option<int>)
    ensures r.Some? <==> IsLiteral(Trim(s))
  {
    var t := Trim(s);
    if t == [] then None
    else
      var neg := t[0] == '-';
      var body := if t[0] == '-' || t[0] == '+' then t[1..] else t;
      if body != [] && AllDigits(body) then
        var v: int := DigitsValue(body);
        Some(if neg then -v else v)
      else None
  }

  /** Decimal digits of a natural number, as `str(n)` writes them. */
  function ShowNat(n: nat): (r: string)
    ensures r != [] && AllDigits(r)
  {
    var d := ['0' + (n % 10) as char];
    if n < 10 then d else ShowNat(n / 10) + d
  }

  /** `str(n)` for an integer. */
  function ShowInt(n: int): string
  {
    if n < 0 then "-" + ShowNat(-n) else ShowNat(n)
  }

  lemma {:induction false} ShowNatValue(n: nat)
    ensures DigitsValue(ShowNat(n)) == n
  {
    var s := ShowNat(n);
    if n >= 10 {
      ShowNatValue(n / 10);
      assert s[..|s| - 1] == ShowNat(n / 10);
    }
  }

  /** Reading back what `str` wrote gives the same integer. */
  lemma {:induction false} ParseShowInt(n: int)
    ensures ParseInt(ShowInt(n)) == Some(n)
  {
    var s := ShowInt(n);
    var digits := if n < 0 then ShowNat(-n) else ShowNat(n);
    ShowNatValue(if n < 0 then -n else n);
    assert !IsSpace(s[0]) && !IsSpace(s[|s| - 1]);
    assert TrimLeft(s) == s;
    assert Trim(s) == s;
    if n < 0 {
      assert s[1..] == digits;
    } else {
      assert s[0] != '-' && s[0] != '+';
    }
  }

  /** Python truncates a float toward zero. */
  function Truncate(x: real): (r: int)
    ensures x >= 0.0 ==> r as real <= x < r as real + 1.0
    ensures x < 0.0 ==> r as real - 1.0 < x <= r as real
  {
    if x >= 0.0 then x.Floor else -((-x).Floor)
  }

  /** `int(v)`: integers as they are, booleans as 0 and 1, floats truncated,
      strings parsed; `None` and other objects raise. */
  function PyInt(v: Value): (r: Option<int>)
    ensures v.IntV? ==> r == Some(v.i)
    ensures v.BoolV? ==> r == Some(if v.b then 1 else 0)
    ensures v.StrV? ==> r == ParseInt(v.s)
    ensures v.FloatV? ==> r == Some(Truncate(v.r))
    ensures v.NoneV? || v.ObjectV? ==> r == None
  {
    match v
    case NoneV => None
    case BoolV(b) => Some(if b then 1 else 0)
    case IntV(i) => Some(i)
    case FloatV(x) => Some(Truncate(x))
    case StrV(s) => ParseInt(s)
    case ObjectV(_) => None
  }

  // ---------------------------------------------------------------------
  // The computation
  // ---------------------------------------------------------------------

  /** Convert every argument in order; the first failure raises. */
  function ConvertAll(args: seq<Value>): (r: Option<seq<int>>)
    ensures r.Some? <==> forall i :: 0 <= i < |args| ==> PyInt(args[i]).Some?
    ensures r.Some? ==> |r.value| == |args| && forall i :: 0 <= i < |args| ==> Some(r.value[i]) == PyInt(args[i])
  {
    if args == [] then Some([])
    else
      match PyInt(args[0])
      case None => None
      case Some(x) =>
        match ConvertAll(args[1..])
        case None => None
        case Some(xs) => Some([x] + xs)
  }

  function Sum(xs: seq<int>): int
  {
    if xs == [] then 0 else xs[0] + Sum(xs[1..])
  }

  /** `Info.run`: the one-element list holding the sum of the converted
      arguments. */
  function AddRun(args: seq<Value>): (r: Outcome)
    ensures r.Raised? <==> exists i :: 0 <= i < |args| && PyInt(args[i]).None?
    ensures r.Returned? ==> |r.values| == |AddInfo.output| && r.values[0].IntV?
  {
    match ConvertAll(args)
    case None => Raised
    case Some(xs) => Returned([IntV(Sum(xs))])
  }

  /** `compute` runs every node of type `Add(int)` as `AddRun`, whatever its
      schema copy holds. */
  ghost predicate AddComputes(compute: Compute)
  {
    forall info: NodeInfo, args: seq<Value> :: info.nodeName == "Add(int)" ==> compute(info, args) == AddRun(args)
  }

  /** Two arguments that convert are added. */
  lemma {:induction false} AddPair(x: Value, y: Value, a: int, b: int)
    requires PyInt(x) == Some(a) && PyInt(y) == Some(b)
    ensures AddRun([x, y]) == Returned([IntV(a + b)])
  {
    ConvertPair(x, y, a, b);
    SumPair(a, b);
  }

  lemma {:induction false} ConvertPair(x: Value, y: Value, a: int, b: int)
    requires PyInt(x) == Some(a) && PyInt(y) == Some(b)
    ensures ConvertAll([x, y]) == Some([a, b])
  {
    ConvertNone();
    ConvertCons(y, [], b, []);
    assert [y] + [] == [y] && [b] + [] == [b];
    ConvertCons(x, [y], a, [b]);
    assert [x] + [y] == [x, y] && [a] + [b] == [a, b];
  }

  lemma {:induction false} ConvertNone()
    ensures ConvertAll([]) == Some([])
  {
  }

  /** Converting one more argument in front. */
  lemma {:induction false} ConvertCons(v: Value, rest: seq<Value>, a: int, xs: seq<int>)
    requires PyInt(v) == Some(a) && ConvertAll(rest) == Some(xs)
    ensures ConvertAll([v] + rest) == Some([a] + xs)
  {
    assert ([v] + rest)[0] == v && ([v] + rest)[1..] == rest;
  }

  lemma {:induction false} SumPair(a: int, b: int)
    ensures Sum([a, b]) == a + b
  {
    var xs := [a, b];
    assert xs[1..] == [b] && [b][1..] == [];
    assert Sum([b]) == b + Sum([]);
  }

  /** The numbers the user typed are added. */
  lemma {:induction false} AddTypedNumbers(a: int, b: int)
    ensures AddRun([StrV(ShowInt(a)), StrV(ShowInt(b))]) == Returned([IntV(a + b)])
  {
    ParseShowInt(a);
    ParseShowInt(b);
    AddPair(StrV(ShowInt(a)), StrV(ShowInt(b)), a, b);
  }

  lemma {:induction false} ParseThree()
    ensures ParseInt("3") == Some(3)
  {
    assert TrimLeft("3") == "3" && TrimRight("3") == "3";
    assert DigitsValue("3") == 3;
  }

  lemma {:induction false} PaddedFour()
    ensures ParseInt(" 4 ") == Some(4)
  {
    var s := " 4 ";
    var l := "4 ";
    var t := "4";
    assert IsSpace(s[0]) && s[1..] == l;
    assert TrimLeft(s) == TrimLeft(l);
    assert !IsSpace(l[0]);
    assert TrimLeft(l) == l;
    assert IsSpace(l[|l| - 1]) && l[..|l| - 1] == t;
    assert TrimRight(l) == TrimRight(t);
    assert !IsSpace(t[|t| - 1]);
    assert TrimRight(t) == t;
    assert Trim(s) == t;
    assert t[..0] == [];
    assert DigitsValue(t) == 4;
  }

  /** Text that starts with a letter is not an integer literal. */
  lemma {:induction false} NotALiteral(w: string)
    requires w != [] && 'a' <= w[0] <= 'z'
    ensures ParseInt(w) == None
  {
    assert !IsSpace(w[0]);
    assert TrimLeft(w) == w;
    var t := TrimRight(w);
    assert t != [] && t[0] == w[0];
    assert !IsDigit(t[0]) && t[0] != '-' && t[0] != '+';
  }

  /** Typing 3 and 4 (with spaces around the 4) gives 7. */
  lemma {:induction false} AddExample()
    ensures AddRun([StrV("3"), StrV(" 4 ")]) == Returned([IntV(7)])
  {
    ParseThree();
    PaddedFour();
    AddPair(StrV("3"), StrV(" 4 "), 3, 4);
  }

  /** A second argument that starts with a letter raises, whatever the
      first one is. */
  lemma {:induction false} AddRaisesOnWord(x: Value, w: string)
    requires w != [] && 'a' <= w[0] <= 'z'
    ensures AddRun([x, StrV(w)]) == Raised
  {
    NotALiteral(w);
    var args := [x, StrV(w)];
    assert PyInt(args[1]).None?;
  }

  /** An Add node whose arguments cancel out returns 0, which compares equal
      to `False`, so the run stops at it. */
  lemma {:induction false} AddZeroHalts(args: seq<Value>)
    requires ConvertAll(args).Some? && Sum(ConvertAll(args).value) == 0
    ensures AddRun(args).Returned? && HaltsRun(AddRun(args).values)
  {
  }

  /** Created from a catalog that holds it, an Add node has two line edits,
      both empty and both shown, and one output pin without an editor. */
  lemma {:induction false} AddNodeShape(cat: Catalog, pos: Position)
    requires "Add(int)" in cat && cat["Add(int)"] == AddInfo
    ensures var n := CreateNode(cat, "Add(int)", pos);
            && n.Some?
            && |n.value.inputs| == 2 && |n.value.outputs| == 1
            && (forall i :: 0 <= i < 2 ==> n.value.inputs[i].lineEdit == Some("") && LineEditShown(n.value.inputs[i]))
            && n.value.outputs[0].lineEdit.None? && n.value.outputs[0].combo.None?
            && n.value.title == "加(int)"
  {
    var n := CreateNode(cat, "Add(int)", pos).value;
    forall i | 0 <= i < 2
      ensures n.inputs[i].lineEdit == Some("") && LineEditShown(n.inputs[i])
    {
      assert (n.inputs[i], n.info.input[i]) == NewPin(AddInfo.input[i]);
    }
    assert (n.outputs[0], n.info.output[0]) == NewPin(AddInfo.output[0]);
  }

  // ---------------------------------------------------------------------
  // An Add node running on its own
  // ---------------------------------------------------------------------

  /** An Add node with nothing connected and the texts `x` and `y` typed
      into its two line edits. */
  predicate TypedAdd(n: Node, x: string, y: string)
  {
    && n.info.nodeName == "Add(int)"
    && n.inputs == [Pin(Int, Some(x), None, false, []), Pin(Int, Some(y), None, false, [])]
    && |n.outputs| == 1 && n.outputs[0].conns == []
  }

  /** The scene holding only that node. */
  function Alone(n: Node): Scene
  {
    Scene([n], [], [NodeItem(0)], [])
  }

  lemma {:induction false} AloneArenaOk(n: Node, x: string, y: string)
    requires TypedAdd(n, x, y)
    ensures ArenaOk(Alone(n))
    ensures forall p :: !Provides(Alone(n), 0, p)
  {
    var s := Alone(n);
    forall r | ValidPin(s.nodes, r)
      ensures PinAt(s.nodes, r).conns == []
    {
      if r.dir == Input {
        assert PinAt(s.nodes, r) == n.inputs[r.index];
      }
    }
  }

  /** The lone node depends on nothing. */
  lemma {:induction false} AloneDeps(n: Node, x: string, y: string)
    requires TypedAdd(n, x, y)
    ensures ArenaOk(Alone(n))
    ensures BuildDependencies(Alone(n), [0]) == Ok([[]])
  {
    var s := Alone(n);
    AloneArenaOk(n, x, y);
    assert ProvidersListed(s, [0], 0);
    var deps := BuildDependencies(s, [0]).value;
    assert DepsOf(s, [0], 0, deps[0]);
    assert deps[0] == [];
    assert deps == [[]];
  }

  /** A single node without dependencies is sorted on its own. */
  lemma {:induction false} SortSingle(names: seq<string>)
    requires |names| == 1
    ensures TopologicalSort([[]], names) == [0]
  {
    AcyclicSchedulesAll([[]], names, [0]);
    var order := TopologicalSort([[]], names);
    assert 0 in order;
  }

  /** The lone node depends on nothing and is scheduled. */
  lemma {:induction false} AloneScheduled(n: Node, x: string, y: string)
    requires TypedAdd(n, x, y)
    ensures ArenaOk(Alone(n))
    ensures BuildDependencies(Alone(n), [0]) == Ok([[]])
    ensures RunOrder(Alone(n), [0], [[]]) == [0]
  {
    AloneDeps(n, x, y);
    SortSingle(TypeNames(Alone(n), [0]));
  }

  /** The input vector of the lone node is the two typed texts. */
  lemma {:induction false} AloneInputs(n: Node, x: string, y: string, t: Table)
    requires TypedAdd(n, x, y)
    ensures InputVector(Alone(n), 0, 0, map[], t) == Ok([StrV(x), StrV(y)])
  {
    var s := Alone(n);
    assert s.nodes[0] == n && |n.inputs| == 2;
    var p0 := s.nodes[0].inputs[0];
    var p1 := s.nodes[0].inputs[1];
    assert ReadInput(p0, PinRef(0, Input, 0), map[], t) == Ok(Some(StrV(x)));
    assert ReadInput(p1, PinRef(0, Input, 1), map[], t) == Ok(Some(StrV(y)));
    assert InputVector(s, 0, 2, map[], t) == Ok([]);
    assert [StrV(y)] + [] == [StrV(y)];
    assert InputVector(s, 0, 1, map[], t) == Ok([StrV(y)]);
    assert [StrV(x)] + [StrV(y)] == [StrV(x), StrV(y)];
  }

  /** The first two phases for the lone node: its output pin is `None`
      and no input is linked. */
  lemma {:induction false} AloneTables(n: Node, x: string, y: string)
    requires TypedAdd(n, x, y)
    ensures ArenaOk(Alone(n))
    ensures RegisterOutputs(Alone(n), [0]) == map[PinRef(0, Output, 0) := NoneV]
    ensures LinkInputs(Alone(n), [0], map[PinRef(0, Output, 0) := NoneV]) == Ok(map[])
  {
    var s := Alone(n);
    AloneArenaOk(n, x, y);
    var t := RegisterOutputs(s, [0]);
    var out := PinRef(0, Output, 0);
    assert RunOutput(s, [0], out);
    assert forall r :: r in t <==> r == out;
  }

  /** The lone node's computation on the two texts returns their sum. */
  lemma {:induction false} AloneComputes(info: NodeInfo, x: string, y: string, a: int, b: int, compute: Compute)
    requires info.nodeName == "Add(int)" && ParseInt(x) == Some(a) && ParseInt(y) == Some(b)
    requires AddComputes(compute)
    ensures compute(info, [StrV(x), StrV(y)]) == Returned([IntV(a + b)])
  {
    AddPair(StrV(x), StrV(y), a, b);
  }

  /** Storing one value over the lone node's `None` output. */
  lemma {:induction false} StoreSingle(v: Value)
    ensures Store(map[PinRef(0, Output, 0) := NoneV], 0, [v], 0) == map[PinRef(0, Output, 0) := v]
  {
    var out := PinRef(0, Output, 0);
    var t' := Store(map[out := NoneV], 0, [v], 0);
    assert forall r :: r in t' <==> r == out;
  }

  /** The third phase for the lone node when its computation returns a
      non-zero integer. */
  lemma {:induction false} AloneCompletes(n: Node, x: string, y: string, v: int, compute: Compute)
    requires TypedAdd(n, x, y) && v != 0
    requires compute(n.info, [StrV(x), StrV(y)]) == Returned([IntV(v)])
    ensures var t := map[PinRef(0, Output, 0) := NoneV];
            Execute(Alone(n), [0], map[], t, compute) == Completed(map[PinRef(0, Output, 0) := IntV(v)], [0])
  {
    var t := map[PinRef(0, Output, 0) := NoneV];
    AloneInputs(n, x, y, t);
    assert Alone(n).nodes[0] == n;
    ExecuteOne(Alone(n), 0, map[], t, compute, [StrV(x), StrV(y)], [IntV(v)]);
    assert [IntV(v)][..1] == [IntV(v)];
    StoreSingle(IntV(v));
  }

  /** The third phase for the lone node when its computation returns 0. */
  lemma {:induction false} AloneHalts(n: Node, x: string, y: string, compute: Compute)
    requires TypedAdd(n, x, y)
    requires compute(n.info, [StrV(x), StrV(y)]) == Returned([IntV(0)])
    ensures var t := map[PinRef(0, Output, 0) := NoneV];
            Execute(Alone(n), [0], map[], t, compute) == Halted(t, [0])
  {
    var t := map[PinRef(0, Output, 0) := NoneV];
    AloneInputs(n, x, y, t);
    assert Alone(n).nodes[0] == n;
    assert HaltsRun([IntV(0)]);
    ExecuteOne(Alone(n), 0, map[], t, compute, [StrV(x), StrV(y)], [IntV(0)]);
  }

  /** Run on its own, an Add node stores the sum of the two numbers typed
      into it in its output pin; when they cancel out, the sum compares
      equal to `False` and the run halts with the output still `None`. */
  lemma {:induction false} AddAloneRuns(n: Node, x: string, y: string, a: int, b: int, compute: Compute)
    requires TypedAdd(n, x, y) && ParseInt(x) == Some(a) && ParseInt(y) == Some(b)
    requires AddComputes(compute)
    ensures ArenaOk(Alone(n))
    ensures a + b != 0 ==> RunWorkflow(Alone(n), [0], compute) == Completed(map[PinRef(0, Output, 0) := IntV(a + b)], [0])
    ensures a + b == 0 ==> RunWorkflow(Alone(n), [0], compute) == Halted(map[PinRef(0, Output, 0) := NoneV], [0])
  {
    var s := Alone(n);
    AloneScheduled(n, x, y);
    AloneTables(n, x, y);
    AloneComputes(n.info, x, y, a, b, compute);
    if a + b != 0 {
      AloneCompletes(n, x, y, a + b, compute);
    } else {
      AloneHalts(n, x, y, compute);
    }
    assert RunWorkflow(s, [0], compute) == Launch(s, [0], compute);
  }

  /** Typing 3 and 4 into a lone Add node and running it leaves 7 on its
      output pin. */
  lemma {:induction false} AddThreeAndFour(n: Node, compute: Compute)
    requires TypedAdd(n, "3", " 4 ")
    requires AddComputes(compute)
    ensures ArenaOk(Alone(n))
    ensures RunWorkflow(Alone(n), [0], compute) == Completed(map[PinRef(0, Output, 0) := IntV(7)], [0])
  {
    ParseThree();
    PaddedFour();
    AddAloneRuns(n, "3", " 4 ", 3, 4, compute);
  }
}
