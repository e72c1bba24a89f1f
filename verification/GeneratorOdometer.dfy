/**
 * Catch's generators (catch.hpp, GeneratorInfo and GeneratorsForTest): a test is run once for every
 * combination of generator indices, stepped like an odometer whose first wheel turns fastest.
 */
module GeneratorOdometer {

  // ---------- the wheels as a number ----------

  // Each generator has at least one value.
  predicate Sizes(sizes: seq<nat>) {
    forall n <- sizes :: n >= 1
  }

  predicate Tuple(sizes: seq<nat>, idx: seq<nat>) {
    |idx| == |sizes| && forall i :: 0 <= i < |sizes| ==> idx[i] < sizes[i]
  }

  function Product(sizes: seq<nat>): nat {
    if sizes == [] then 1 else sizes[0] * Product(sizes[1..])
  }

  // A mixed-radix number, the first wheel least significant.
  function Value(sizes: seq<nat>, idx: seq<nat>): nat
    requires |idx| == |sizes|
  {
    if sizes == [] then 0 else idx[0] + sizes[0] * Value(sizes[1..], idx[1..])
  }

  function Zeros(n: nat): seq<nat> {
    seq(n, _ => 0)
  }

  // moveNext from wheel i on: the new indices, and whether some wheel did not wrap.
  function Move(sizes: seq<nat>, idx: seq<nat>): (seq<nat>, bool)
    requires |idx| == |sizes|
  {
    if sizes == [] then ([], false)
    else if idx[0] + 1 != sizes[0] then ([idx[0] + 1] + idx[1..], true)
    else
      var (rest, moved) := Move(sizes[1..], idx[1..]);
      ([0] + rest, moved)
  }

  // ---------- arithmetic of the wheels ----------

  lemma MulStep(n: nat, v: nat, p: nat)
    requires v < p
    ensures n * v + n <= n * p
  {
    assert n * p == n * (p - 1) + n;
    if v < p - 1 {
      MulStep(n, v, p - 1);
    }
  }

  lemma Carry(n: nat, v: nat, p: nat)
    requires n >= 1 && v < p
    ensures n * (v + 1) == n * v + n
    ensures v + 1 < p ==> n * (v + 1) < n * p
    ensures v + 1 == p ==> n * v + n == n * p
  {
    if v + 1 < p {
      MulStep(n, v + 1, p);
    }
  }

  lemma {:induction false} ValueBound(sizes: seq<nat>, idx: seq<nat>)
    requires Tuple(sizes, idx)
    ensures Value(sizes, idx) < Product(sizes)
  {
    if sizes != [] {
      ValueBound(sizes[1..], idx[1..]);
      MulStep(sizes[0], Value(sizes[1..], idx[1..]), Product(sizes[1..]));
    }
  }

  // Different tuples are different numbers.
  lemma {:induction false} ValueInjective(sizes: seq<nat>, a: seq<nat>, b: seq<nat>)
    requires Tuple(sizes, a) && Tuple(sizes, b) && Value(sizes, a) == Value(sizes, b)
    ensures a == b
  {
    if sizes != [] {
      var n, x, y := sizes[0], Value(sizes[1..], a[1..]), Value(sizes[1..], b[1..]);
      if x < y {
        MulStep(n, x, y);
      } else if y < x {
        MulStep(n, y, x);
      }
      ValueInjective(sizes[1..], a[1..], b[1..]);
      assert a == [a[0]] + a[1..] && b == [b[0]] + b[1..];
    }
  }

  lemma {:induction false} ZerosValue(sizes: seq<nat>)
    requires Sizes(sizes)
    ensures Tuple(sizes, Zeros(|sizes|)) && Value(sizes, Zeros(|sizes|)) == 0
  {
    if sizes != [] {
      assert Zeros(|sizes|)[1..] == Zeros(|sizes[1..]|);
      assert forall n <- sizes[1..] :: n in sizes;
      ZerosValue(sizes[1..]);
      assert sizes[0] in sizes;
      forall i | 0 <= i < |sizes|
        ensures Zeros(|sizes|)[i] < sizes[i]
      {
        assert sizes[i] in sizes;
      }
    }
  }

  // moveNext adds one modulo the product of the sizes, and is false exactly when it comes round to zero.
  lemma {:induction false} MoveAddsOne(sizes: seq<nat>, idx: seq<nat>)
    requires Sizes(sizes) && Tuple(sizes, idx)
    ensures var (next, moved) := Move(sizes, idx);
            && Tuple(sizes, next)
            && (moved <==> Value(sizes, idx) + 1 < Product(sizes))
            && (if moved then Value(sizes, next) == Value(sizes, idx) + 1 else next == Zeros(|sizes|))
  {
    if sizes != [] {
      hide Value, Product, Move;
      assert sizes[0] in sizes && forall m <- sizes[1..] :: m in sizes;
      if idx[0] + 1 != sizes[0] {
        FirstWheelMoves(sizes, idx);
      } else {
        MoveAddsOne(sizes[1..], idx[1..]);
        FirstWheelWraps(sizes, idx);
      }
    }
  }

  // The definitions, one wheel at a time.
  lemma FirstWheel(sizes: seq<nat>, idx: seq<nat>)
    requires |idx| == |sizes| && sizes != []
    ensures Value(sizes, idx) == idx[0] + sizes[0] * Value(sizes[1..], idx[1..])
    ensures Product(sizes) == sizes[0] * Product(sizes[1..])
    ensures Move(sizes, idx) ==
              if idx[0] + 1 != sizes[0] then ([idx[0] + 1] + idx[1..], true)
              else ([0] + Move(sizes[1..], idx[1..]).0, Move(sizes[1..], idx[1..]).1)
  {
  }

  lemma FirstWheelMoves(sizes: seq<nat>, idx: seq<nat>)
    requires Tuple(sizes, idx) && sizes != [] && idx[0] + 1 != sizes[0]
    ensures Move(sizes, idx) == ([idx[0] + 1] + idx[1..], true) && Tuple(sizes, [idx[0] + 1] + idx[1..])
    ensures Value(sizes, [idx[0] + 1] + idx[1..]) == Value(sizes, idx) + 1 < Product(sizes)
  {
    hide Value, Product, Move;
    FirstWheel(sizes, idx);
    FirstWheel(sizes, [idx[0] + 1] + idx[1..]);
    var n, v, p := sizes[0], Value(sizes[1..], idx[1..]), Product(sizes[1..]);
    ValueBound(sizes[1..], idx[1..]);
    MulStep(n, v, p);
    assert ([idx[0] + 1] + idx[1..])[1..] == idx[1..];
  }

  lemma FirstWheelWraps(sizes: seq<nat>, idx: seq<nat>)
    requires Sizes(sizes) && Tuple(sizes, idx) && sizes != [] && idx[0] + 1 == sizes[0]
    requires var (rest, more) := Move(sizes[1..], idx[1..]);
             && Tuple(sizes[1..], rest)
             && (more <==> Value(sizes[1..], idx[1..]) + 1 < Product(sizes[1..]))
             && (if more then Value(sizes[1..], rest) == Value(sizes[1..], idx[1..]) + 1
                 else rest == Zeros(|sizes[1..]|))
    ensures var (next, moved) := Move(sizes, idx);
            && Tuple(sizes, next)
            && (moved <==> Value(sizes, idx) + 1 < Product(sizes))
            && (if moved then Value(sizes, next) == Value(sizes, idx) + 1 else next == Zeros(|sizes|))
  {
    hide Value, Product, Move;
    var n, v, p := sizes[0], Value(sizes[1..], idx[1..]), Product(sizes[1..]);
    var rest := Move(sizes[1..], idx[1..]).0;
    assert sizes[0] in sizes && ([0] + rest)[1..] == rest;
    FirstWheel(sizes, idx);
    FirstWheel(sizes, [0] + rest);
    ValueBound(sizes[1..], idx[1..]);
    MulStep(n, v, p);
    Carry(n, v, p);
    assert [0] + Zeros(|sizes[1..]|) == Zeros(|sizes|);
  }

  // Wheels that stand at their last value all turn to zero.
  lemma {:induction false} MoveWraps(sizes: seq<nat>, idx: seq<nat>, n: nat)
    requires |idx| == |sizes| && n <= |sizes|
    requires forall i :: 0 <= i < n ==> idx[i] + 1 == sizes[i]
    ensures var (rest, moved) := Move(sizes[n..], idx[n..]);
            Move(sizes, idx) == (Zeros(n) + rest, moved)
  {
    if n == 0 {
      assert sizes[0..] == sizes && idx[0..] == idx;
      assert Zeros(0) + Move(sizes, idx).0 == Move(sizes, idx).0;
    } else {
      MoveWraps(sizes[1..], idx[1..], n - 1);
      assert sizes[1..][n - 1..] == sizes[n..] && idx[1..][n - 1..] == idx[n..];
      var rest := Move(sizes[n..], idx[n..]).0;
      assert [0] + (Zeros(n - 1) + rest) == Zeros(n) + rest;
    }
  }

  // The first wheel that does not wrap moves on by one; if all wrap, the move is false.
  lemma MoveAt(sizes: seq<nat>, idx: seq<nat>, n: nat)
    requires |idx| == |sizes| && n <= |sizes|
    requires forall i :: 0 <= i < n ==> idx[i] + 1 == sizes[i]
    ensures n == |sizes| ==> Move(sizes, idx) == (Zeros(n) + [], false)
    ensures n < |sizes| && idx[n] + 1 != sizes[n] ==>
              Move(sizes, idx) == (Zeros(n) + ([idx[n] + 1] + idx[n + 1..]), true)
  {
    MoveWraps(sizes, idx, n);
    if n < |sizes| {
      assert idx[n..][1..] == idx[n + 1..];
    }
  }

  // ---------- the whole run ----------

  // The indices after k calls from all zeros.
  function After(sizes: seq<nat>, k: nat): (idx: seq<nat>)
    ensures |idx| == |sizes|
  {
    if k == 0 then Zeros(|sizes|)
    else
      MoveLength(sizes, After(sizes, k - 1));
      Move(sizes, After(sizes, k - 1)).0
  }

  lemma {:induction false} MoveLength(sizes: seq<nat>, idx: seq<nat>)
    requires |idx| == |sizes|
    ensures |Move(sizes, idx).0| == |sizes|
  {
    if sizes != [] {
      MoveLength(sizes[1..], idx[1..]);
    }
  }

  // The k-th combination is the number k.
  lemma {:induction false} AfterIsNumber(sizes: seq<nat>, k: nat)
    requires Sizes(sizes) && k < Product(sizes)
    ensures Tuple(sizes, After(sizes, k)) && Value(sizes, After(sizes, k)) == k
  {
    if k == 0 {
      ZerosValue(sizes);
    } else {
      AfterIsNumber(sizes, k - 1);
      MoveAddsOne(sizes, After(sizes, k - 1));
    }
  }

  lemma Start(sizes: seq<nat>)
    requires Sizes(sizes)
    ensures After(sizes, 0) == Zeros(|sizes|) && Product(sizes) > 0
  {
    ZerosValue(sizes);
    ValueBound(sizes, Zeros(|sizes|));
  }

  // One more call goes on to the next number, or comes round to zeros.
  lemma AfterNext(sizes: seq<nat>, k: nat)
    requires Sizes(sizes) && k < Product(sizes)
    ensures var (next, moved) := Move(sizes, After(sizes, k));
            && (moved <==> k + 1 < Product(sizes))
            && next == if moved then After(sizes, k + 1) else Zeros(|sizes|)
  {
    hide Move, Value, Product;
    AfterIsNumber(sizes, k);
    MoveAddsOne(sizes, After(sizes, k));
  }

  // Every index tuple is visited, at exactly one call.
  lemma EveryTupleOnce(sizes: seq<nat>, idx: seq<nat>, k: nat)
    requires Sizes(sizes) && Tuple(sizes, idx) && k < Product(sizes)
    ensures Value(sizes, idx) < Product(sizes) && After(sizes, Value(sizes, idx)) == idx
    ensures After(sizes, k) == idx ==> k == Value(sizes, idx)
  {
    ValueBound(sizes, idx);
    AfterIsNumber(sizes, Value(sizes, idx));
    ValueInjective(sizes, After(sizes, Value(sizes, idx)), idx);
    AfterIsNumber(sizes, k);
  }

  // ---------- the objects ----------

  class GeneratorInfo {
    const size: nat
    var currentIndex: nat

    constructor (size: nat)
      ensures this.size == size && currentIndex == 0
    {
      this.size, currentIndex := size, 0;
    }

    method MoveNext() returns (moved: bool)
      modifies this
      ensures moved <==> old(currentIndex) + 1 != size
      ensures currentIndex == if moved then old(currentIndex) + 1 else 0
    {
      currentIndex := currentIndex + 1;
      if currentIndex == size {
        currentIndex := 0;
        return false;
      }
      return true;
    }
  }

  class GeneratorsForTest {
    const inOrder: seq<GeneratorInfo>

    ghost predicate Valid() {
      forall i, j :: 0 <= i < j < |inOrder| ==> inOrder[i] != inOrder[j]
    }

    function SizesOf(): (r: seq<nat>)
      ensures |r| == |inOrder| && forall i :: 0 <= i < |r| ==> r[i] == inOrder[i].size
    {
      seq(|inOrder|, i requires 0 <= i < |inOrder| => inOrder[i].size)
    }

    function Indices(): (r: seq<nat>)
      reads inOrder
      ensures |r| == |inOrder| && forall i :: 0 <= i < |r| ==> r[i] == inOrder[i].currentIndex
    {
      seq(|inOrder|, i requires 0 <= i < |inOrder| reads inOrder => inOrder[i].currentIndex)
    }

    constructor (generators: seq<GeneratorInfo>)
      ensures inOrder == generators
    {
      inOrder := generators;
    }

    method MoveNext() returns (moved: bool)
      requires Valid()
      modifies inOrder
      ensures (Indices(), moved) == Move(SizesOf(), old(Indices()))
    {
      hide Move, SizesOf, Indices;
      ghost var sizes, was := SizesOf(), Indices();
      var it := 0;
      while it < |inOrder|
        invariant 0 <= it <= |inOrder|
        invariant forall j :: 0 <= j < it ==> was[j] + 1 == sizes[j] && inOrder[j].currentIndex == 0
        invariant forall j :: it <= j < |inOrder| ==> inOrder[j].currentIndex == was[j]
      {
        var more := inOrder[it].MoveNext();
        if more {
          MoveAt(sizes, was, it);
          assert Indices() == Zeros(it) + ([was[it] + 1] + was[it + 1..]);
          return true;
        }
        it := it + 1;
      }
      MoveAt(sizes, was, it);
      assert Indices() == Zeros(it) + [];
      return false;
    }

    // The outer loop of runTest: one run of the test per combination, until moveNext is false.
    method RunAll() returns (runs: seq<seq<nat>>)
      requires Valid() && Sizes(SizesOf()) && Indices() == Zeros(|inOrder|)
      modifies inOrder
      ensures |runs| == Product(SizesOf()) && Indices() == Zeros(|inOrder|)
      ensures forall k :: 0 <= k < |runs| ==> runs[k] == After(SizesOf(), k)
    {
      hide Move, Value, Product, SizesOf, Indices, Sizes, After, Tuple;
      ghost var sizes := SizesOf();
      assert |sizes| == |inOrder|;
      Start(sizes);
      runs := [];
      var more := true;
      while more
        invariant |runs| <= Product(sizes) && (more <==> |runs| < Product(sizes))
        invariant Indices() == if more then After(sizes, |runs|) else Zeros(|inOrder|)
        invariant forall k :: 0 <= k < |runs| ==> runs[k] == After(sizes, k)
        decreases Product(sizes) - |runs|
      {
        AfterNext(sizes, |runs|);
        runs := runs + [Indices()];
        more := MoveNext();
      }
    }
  }
}
