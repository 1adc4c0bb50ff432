/** Sequences without repetitions, what multisets say about them, and picking items. */
module Counting {

  ghost predicate Distinct<T>(xs: seq<T>) {
    forall i, j :: 0 <= i < j < |xs| ==> xs[i] != xs[j]
  }

  lemma {:induction false} DistinctCounts<T>(xs: seq<T>)
    requires Distinct(xs)
    ensures forall x :: x in xs ==> multiset(xs)[x] == 1
  {
    if xs == [] {
    } else {
      assert xs == [xs[0]] + xs[1..];
      assert xs[0] !in xs[1..];
      DistinctCounts(xs[1..]);
    }
  }

  lemma TwiceCountsTwo<T>(xs: seq<T>, i: nat, j: nat)
    requires i < j < |xs|
    ensures xs[i] == xs[j] ==> multiset(xs)[xs[j]] >= 2
  {
    assert xs == xs[..j] + [xs[j]] + xs[j + 1..];
    assert xs[..j][i] in multiset(xs[..j]);
  }

  lemma CountsDistinct<T(!new)>(xs: seq<T>)
    requires forall x :: multiset(xs)[x] <= 1
    ensures Distinct(xs)
  {
    forall i, j | 0 <= i < j < |xs|
      ensures xs[i] != xs[j]
    {
      TwiceCountsTwo(xs, i, j);
    }
  }

  /** What is no larger than a sequence without repetitions has none. */
  lemma SmallerDistinct<T(!new)>(xs: seq<T>, ys: seq<T>)
    requires Distinct(xs) && multiset(ys) <= multiset(xs)
    ensures Distinct(ys)
  {
    DistinctCounts(xs);
    forall x
      ensures multiset(ys)[x] <= 1
    {
      assert x in multiset(xs) ==> x in xs;
      assert multiset(ys)[x] <= multiset(xs)[x];
    }
    CountsDistinct(ys);
  }

  // ---------------------------------------------------------------------
  // Items picked by their places
  // ---------------------------------------------------------------------

  /** Places below `n`, in order. */
  predicate Places(at: seq<nat>, n: nat) {
    (forall k :: 0 <= k < |at| ==> at[k] < n) && (forall k, l :: 0 <= k < l < |at| ==> at[k] < at[l])
  }

  function Picked<T>(xs: seq<T>, at: seq<nat>): seq<T>
    requires Places(at, |xs|)
  {
    seq(|at|, k requires 0 <= k < |at| => xs[at[k]])
  }

  /** One more place at the end, or a later one instead of the last. */
  lemma PickedSnoc<T>(xs: seq<T>, n: nat, at: seq<nat>)
    requires |xs| == n + 1 && Places(at, n)
    ensures Places(at, |xs|) && Picked(xs, at) == Picked(xs[..n], at)
    ensures Places(at + [n], |xs|) && Picked(xs, at + [n]) == Picked(xs[..n], at) + [xs[n]]
    ensures at != [] ==>
              && Places(at[|at| - 1 := n], |xs|)
              && Picked(xs, at[|at| - 1 := n]) == Picked(xs[..n], at)[|at| - 1 := xs[n]]
              && Picked(xs[..n], at)[|at| - 1] == xs[at[|at| - 1]]
  {}
}
