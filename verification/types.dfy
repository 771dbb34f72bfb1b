/** Shared vocabulary of the workflow engine model: optional and failing
    results, pin directions and data kinds, runtime values, pin schemas,
    and a few sequence helpers used by every other module. */
module Types {

  datatype Option<+T> = None | Some(value: T)

  datatype Result<+T> = Ok(value: T) | Err(error: RunError)

  /** The ways a run of the engine stops with a Python exception. */
  datatype RunError =
    | ProviderNotListed          // `self.nodes.index(provider)` raised ValueError
    | NoConnection               // `pin.connections[0]` on an empty list
    | MissingLink                // `self.input_link[pin]` raised KeyError
    | TooFewOutputs              // `_output[i]` past the end of the output vector
    | ComputationRaised          // the node's own `run` raised

  datatype Direction = Input | Output

  /** The data kinds a pin may carry. `Dynamic` is the schema kind spelled
      "none": its concrete kind is chosen through a combo box. */
  datatype Kind = Int | Str | Bool | Float | Logic | Dynamic | Img

  function KindName(k: Kind): string
  {
    match k
    case Int => "int"
    case Str => "str"
    case Bool => "bool"
    case Float => "float"
    case Logic => "logic"
    case Dynamic => "none"
    case Img => "img"
  }

  /** The entries of the kind selector, in the order they are added. */
  const ComboChoices: seq<Kind> := [Int, Str, Bool, Float]

  /** `QComboBox.findText` on the kind selector, answering the entry rather
      than its index. */
  function FindChoice(text: string): (r: Option<Kind>)
    ensures r.Some? ==> r.value in ComboChoices && KindName(r.value) == text
    ensures r.None? ==> forall k :: k in ComboChoices ==> KindName(k) != text
  {
    if text == "int" then Some(Int)
    else if text == "str" then Some(Str)
    else if text == "bool" then Some(Bool)
    else if text == "float" then Some(Float)
    else None
  }

  /** A Python value flowing between pins. `ObjectV` stands for anything
      else (an image array, say), identified only by a tag. */
  datatype Value =
    | NoneV
    | BoolV(b: bool)
    | IntV(i: int)
    | FloatV(r: real)
    | StrV(s: string)
    | ObjectV(tag: nat)

  /** Python's `v == False`: true for False and for numeric zero. */
  predicate EqualsFalse(v: Value)
  {
    v == BoolV(false) || v == IntV(0) || v == FloatV(0.0)
  }

  /** One schema entry `[kind, editable]` of a node type. */
  datatype PinSpec = PinSpec(kind: Kind, editable: bool)

  /** A node type's `Info`: identifier, display label, input and output
      schemas. */
  datatype NodeInfo = NodeInfo(nodeName: string, zhName: string, input: seq<PinSpec>, output: seq<PinSpec>)

  /** The node-type catalog: type identifier to a fresh `Info`. */
  type Catalog = map<string, NodeInfo>

  /** Every catalog entry is keyed by its own `node_name`. */
  predicate CatalogKeyed(cat: Catalog)
  {
    forall t :: t in cat ==> cat[t].nodeName == t
  }

  predicate NoDups<T(==)>(s: seq<T>)
  {
    forall i, j :: 0 <= i < j < |s| ==> s[i] != s[j]
  }

  /** The guarded removal `if x in L: L.remove(x)`: Python's `list.remove(x)`
      when `x` is present, the list unchanged otherwise. */
  function RemoveFirst<T(==)>(s: seq<T>, x: T): (r: seq<T>)
    ensures x in s ==> |r| == |s| - 1
    ensures x !in s ==> r == s
    ensures forall y :: y in r ==> y in s
    ensures forall y :: y in s && y != x ==> y in r
    ensures NoDups(s) ==> NoDups(r) && x !in r
  {
    if s == [] then []
    else if s[0] == x then
      assert s == [s[0]] + s[1..];
      s[1..]
    else
      var rest := RemoveFirst(s[1..], x);
      assert s == [s[0]] + s[1..];
      assert NoDups(s) ==> s[0] !in s[1..];
      [s[0]] + rest
  }

  /** `list.index(x)`: the first position holding `x`, if any. */
  function IndexOf<T(==)>(s: seq<T>, x: T): (r: Option<nat>)
    ensures r.Some? ==> r.value < |s| && s[r.value] == x && x !in s[..r.value]
    ensures r.None? <==> x !in s
  {
    if s == [] then None
    else if s[0] == x then Some(0)
    else
      match IndexOf(s[1..], x)
      case None => None
      case Some(k) =>
        assert s[..k + 1] == [s[0]] + s[1..][..k];
        Some(k + 1)
  }

  /** `list.remove(x)` takes out the first occurrence, the one `list.index`
      finds, and keeps the rest in order. */
  lemma {:induction false} RemoveFirstAt<T>(s: seq<T>, x: T)
    requires x in s
    ensures IndexOf(s, x).Some?
    ensures RemoveFirst(s, x) == s[..IndexOf(s, x).value] + s[IndexOf(s, x).value + 1..]
  {
    if s[0] == x {
      assert IndexOf(s, x) == Some(0);
      assert s[..0] + s[1..] == s[1..];
    } else {
      var t := s[1..];
      assert s == [s[0]] + t;
      assert x in t;
      RemoveFirstAt(t, x);
      var k := IndexOf(t, x).value;
      assert IndexOf(s, x) == Some(k + 1);
      var left, right := t[..k], t[k + 1..];
      assert RemoveFirst(s, x) == [s[0]] + (left + right);
      assert s[..k + 1] == [s[0]] + left;
      assert s[k + 2..] == right;
      Associate([s[0]], left, right);
    }
  }

  /** Concatenation regroups. This and `EmptyConcat` are stated on their
      own so that a proof with many quantified facts in scope can use them
      without searching for them. */
  lemma {:induction false} Associate<T>(a: seq<T>, b: seq<T>, c: seq<T>)
    ensures (a + b) + c == a + (b + c)
  {
  }

  lemma {:induction false} EmptyConcat<T>(a: seq<T>, b: seq<T>)
    requires a == []
    ensures a + b == b
  {
  }

  lemma {:induction false} IndexOfDistinct<T>(s: seq<T>, k: nat)
    requires NoDups(s) && k < |s|
    ensures IndexOf(s, s[k]) == Some(k)
  {
    var r := IndexOf(s, s[k]);
    assert r.Some?;
  }

  /** The elements of `s` other than `x`, in order. */
  function Without<T(==)>(s: seq<T>, x: T): (r: seq<T>)
    ensures forall y :: y in r ==> y in s && y != x
    ensures forall y :: y in s && y != x ==> y in r
    ensures |r| <= |s|
    ensures x in s ==> |r| < |s|
    ensures x !in s ==> r == s
    ensures NoDups(s) ==> NoDups(r) && |s| <= |r| + 1
  {
    if s == [] then []
    else
      var rest := Without(s[1..], x);
      assert NoDups(s) ==> s[0] !in s[1..];
      (if s[0] == x then [] else [s[0]]) + rest
  }

  /** A duplicate-free list of numbers below `n` holds at most `n` of them. */
  lemma {:induction false} DistinctBounded(s: seq<nat>, n: nat)
    requires NoDups(s)
    requires forall x :: x in s ==> x < n
    ensures |s| <= n
    decreases n
  {
    if |s| > 0 {
      assert s[0] in s;
      var t := Without<nat>(s, n - 1);
      DistinctBounded(t, n - 1);
    }
  }

  /** Joining two duplicate-free lists with nothing in common gives a
      duplicate-free list. */
  lemma {:induction false} NoDupsAppend<T>(a: seq<T>, b: seq<T>)
    requires NoDups(a) && NoDups(b)
    requires forall x :: x in b ==> x !in a
    ensures NoDups(a + b)
  {
    forall i, j | 0 <= i < j < |a + b|
      ensures (a + b)[i] != (a + b)[j]
    {
      if i < |a| && |a| <= j {
        assert (a + b)[j] == b[j - |a|] && b[j - |a|] in b;
      }
    }
  }

  /** The two halves of a duplicate-free list are duplicate-free and share
      nothing. */
  lemma {:induction false} NoDupsDisjoint<T>(a: seq<T>, b: seq<T>)
    requires NoDups(a + b)
    ensures NoDups(a) && NoDups(b)
    ensures forall x :: x in a ==> x !in b
  {
    assert forall i :: 0 <= i < |a| ==> (a + b)[i] == a[i];
    assert forall j :: 0 <= j < |b| ==> (a + b)[|a| + j] == b[j];
  }

  /** A duplicate-free list has as many elements as the set it lists. */
  lemma {:induction false} DistinctCard<T>(s: seq<T>)
    requires NoDups(s)
    ensures |set x | x in s| == |s|
  {
    if s != [] {
      assert NoDups(s[1..]);
      DistinctCard(s[1..]);
      assert (set x | x in s) == {s[0]} + (set x | x in s[1..]);
      assert s[0] !in s[1..];
    }
  }

  /** A duplicate-free list holding every number below `n` has at least `n`
      entries. */
  lemma {:induction false} CoverLength(s: seq<nat>, n: nat)
    requires NoDups(s)
    requires forall v: nat :: v < n ==> v in s
    ensures |s| >= n
    decreases n
  {
    if n > 0 {
      var t := Without<nat>(s, n - 1);
      forall v: nat | v < n - 1
        ensures v in t
      {
        assert v in s;
      }
      CoverLength(t, n - 1);
    }
  }
}
