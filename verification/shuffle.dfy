/** Fisher–Yates shuffling. The random source is a parameter: `rand(i)` is
    the draw the loop makes when it reaches index `i`, and the index it
    swaps with is `rand(i) % (i + 1)`, the counterpart of
    `Math.floor(Math.random() * (i + 1))`. Every ordering of the input is
    produced by some choice of draws, so the program's other shuffles
    (`sort` with a random comparator) are modelled with this one as well. */
module Shuffle {

  /** The index in `[0, i]` that the draw for index `i` selects. */
  function Pick(rand: nat -> nat, i: nat): (j: nat)
    ensures j <= i
  {
    rand(i) % (i + 1)
  }

  /** Exchanges the elements at `i` and `j`. */
  function Swap<T>(a: seq<T>, i: nat, j: nat): (r: seq<T>)
    requires i < |a| && j < |a|
    ensures |r| == |a| && r[i] == a[j] && r[j] == a[i]
    ensures forall k :: 0 <= k < |a| && k != i && k != j ==> r[k] == a[k]
    ensures multiset(r) == multiset(a)
  {
    a[i := a[j]][j := a[i]]
  }

  /** The loop body run for `i`, `i - 1`, ..., `1`. */
  function Loop<T>(a: seq<T>, rand: nat -> nat, i: nat): (r: seq<T>)
    requires i < |a|
    ensures |r| == |a|
    ensures multiset(r) == multiset(a)
    decreases i
  {
    if i == 0 then a else Loop(Swap(a, i, Pick(rand, i)), rand, i - 1)
  }

  /** The shuffled copy: the loop runs from the last index down to 1. */
  function FisherYates<T>(xs: seq<T>, rand: nat -> nat): (r: seq<T>)
    ensures |r| == |xs|
    ensures multiset(r) == multiset(xs)
  {
    if |xs| == 0 then xs else Loop(xs, rand, |xs| - 1)
  }

  /** A shuffled sequence holds exactly the elements of its input. */
  lemma FisherYatesSameElements<T>(xs: seq<T>, rand: nat -> nat, x: T)
    ensures x in FisherYates(xs, rand) <==> x in xs
  {
    var r := FisherYates(xs, rand);
    assert x in r <==> x in multiset(r);
    assert x in xs <==> x in multiset(xs);
  }

  /** The imperative algorithm: an array copy of `xs` is shuffled in place by
      swaps, which leaves the input sequence itself untouched. */
  method FisherYatesInPlace<T>(xs: seq<T>, rand: nat -> nat) returns (r: seq<T>)
    ensures r == FisherYates(xs, rand)
    ensures multiset(r) == multiset(xs)
  {
    if |xs| == 0 {
      return xs;
    }
    var a := new T[|xs|](k requires 0 <= k < |xs| => xs[k]);
    assert a[..] == xs;
    var i := |xs| - 1;
    while i > 0
      invariant 0 <= i < a.Length
      invariant Loop(a[..], rand, i) == FisherYates(xs, rand)
    {
      var j := rand(i) % (i + 1);
      assert j == Pick(rand, i);
      ghost var before := a[..];
      ghost var after := Swap(before, i, j);
      assert Loop(before, rand, i) == Loop(after, rand, i - 1);
      a[i], a[j] := a[j], a[i];
      assert a[..] == after by {
        forall k | 0 <= k < a.Length ensures a[k] == after[k] {
        }
      }
      i := i - 1;
    }
    r := a[..];
  }

  /** No two positions of `a` share a key. */
  ghost predicate DistinctBy<T, K>(a: seq<T>, key: T -> K) {
    forall i, j :: 0 <= i < j < |a| ==> key(a[i]) != key(a[j])
  }

  /** A swap keeps a duplicate-free list duplicate-free. */
  lemma SwapKeepsDistinct<T, K>(a: seq<T>, i: nat, j: nat, key: T -> K)
    requires i < |a| && j < |a|
    requires DistinctBy(a, key)
    ensures DistinctBy(Swap(a, i, j), key)
  {
    var b := Swap(a, i, j);
    forall p, q | 0 <= p < q < |b| ensures key(b[p]) != key(b[q]) {
      var p' := if p == i then j else if p == j then i else p;
      var q' := if q == i then j else if q == j then i else q;
      assert p' != q';
      assert b[p] == a[p'] && b[q] == a[q'];
      if p' < q' {
        assert key(a[p']) != key(a[q']);
      } else {
        assert key(a[q']) != key(a[p']);
      }
    }
  }

  lemma {:induction false} LoopKeepsDistinct<T, K>(a: seq<T>, rand: nat -> nat, i: nat, key: T -> K)
    requires i < |a|
    requires DistinctBy(a, key)
    ensures DistinctBy(Loop(a, rand, i), key)
    decreases i
  {
    if i > 0 {
      SwapKeepsDistinct(a, i, Pick(rand, i), key);
      LoopKeepsDistinct(Swap(a, i, Pick(rand, i)), rand, i - 1, key);
    }
  }

  /** Shuffling never makes two elements share a key they did not share
      before: a duplicate-free list stays duplicate-free. */
  lemma FisherYatesKeepsDistinct<T, K>(xs: seq<T>, rand: nat -> nat, key: T -> K)
    requires DistinctBy(xs, key)
    ensures DistinctBy(FisherYates(xs, rand), key)
  {
    if |xs| > 0 {
      LoopKeepsDistinct(xs, rand, |xs| - 1, key);
    }
  }
}
