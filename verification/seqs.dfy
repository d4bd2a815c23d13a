/** Sequence helpers: Python's list slice `xs[:n]` and the comprehension
    `[f(x) for x in xs if keep(x)]`, with a position-based description of
    the latter that pins down both its contents and its order. */
module Seqs {

  /** Python's `xs[:n]` for `n >= 0`: the first `n` elements, or all of
      them when there are fewer. */
  function Prefix<T>(xs: seq<T>, n: nat): (ys: seq<T>)
    ensures |ys| == if |xs| < n then |xs| else n
    ensures forall i :: 0 <= i < |ys| ==> ys[i] == xs[i]
  {
    if |xs| < n then xs else xs[..n]
  }

  predicate Increasing(idx: seq<nat>) {
    forall i, j :: 0 <= i < j < |idx| ==> idx[i] < idx[j]
  }

  /** The positions `i >= from` of `xs` whose element satisfies `keep`:
      every such position, only such positions, in ascending order. */
  function PositionsFrom<T>(xs: seq<T>, keep: T -> bool, from: nat): (idx: seq<nat>)
    requires from <= |xs|
    ensures Increasing(idx)
    ensures forall k :: 0 <= k < |idx| ==> from <= idx[k] < |xs| && keep(xs[idx[k]])
    ensures forall i :: from <= i < |xs| && keep(xs[i]) ==> i in idx
    decreases |xs| - from
  {
    if from == |xs| then []
    else
      var rest := PositionsFrom(xs, keep, from + 1);
      if keep(xs[from]) then [from] + rest else rest
  }

  /** The positions of `xs` whose element satisfies `keep`. */
  function Positions<T>(xs: seq<T>, keep: T -> bool): seq<nat> {
    PositionsFrom(xs, keep, 0)
  }

  /** Python's `[f(x) for x in xs if keep(x)]`. */
  function FilterMap<T, U>(xs: seq<T>, keep: T -> bool, f: T -> U): (ys: seq<U>)
    ensures |ys| <= |xs|
    ensures forall y :: y in ys ==> exists x :: x in xs && keep(x) && y == f(x)
    decreases |xs|
  {
    if xs == [] then []
    else
      var rest := FilterMap(xs[1..], keep, f);
      assert forall x :: x in xs[1..] ==> x in xs;
      (if keep(xs[0]) then [f(xs[0])] else []) + rest
  }

  /** One step of the comprehension over `xs[from..]`, and of the position
      list alongside it. */
  lemma FilterMapStep<T, U>(xs: seq<T>, keep: T -> bool, f: T -> U, from: nat)
    requires from < |xs|
    ensures FilterMap(xs[from..], keep, f) ==
      (if keep(xs[from]) then [f(xs[from])] else []) + FilterMap(xs[from + 1..], keep, f)
    ensures PositionsFrom(xs, keep, from) ==
      (if keep(xs[from]) then [from] else []) + PositionsFrom(xs, keep, from + 1)
  {
    assert xs[from..][1..] == xs[from + 1..];
  }

  /** The comprehension over `xs[from..]` follows the positions from `from` on. */
  lemma {:induction false} FilterMapFrom<T, U>(xs: seq<T>, keep: T -> bool, f: T -> U, from: nat)
    requires from <= |xs|
    ensures |FilterMap(xs[from..], keep, f)| == |PositionsFrom(xs, keep, from)|
    ensures forall k :: 0 <= k < |PositionsFrom(xs, keep, from)| ==>
      FilterMap(xs[from..], keep, f)[k] == f(xs[PositionsFrom(xs, keep, from)[k]])
    decreases |xs| - from
  {
    if from < |xs| {
      FilterMapFrom(xs, keep, f, from + 1);
      FilterMapStep(xs, keep, f, from);
      var rest := FilterMap(xs[from + 1..], keep, f);
      var next := PositionsFrom(xs, keep, from + 1);
      if keep(xs[from]) {
        ConsMatches(xs, f, rest, next, from);
      }
    }
  }

  /** Putting element `from` in front of both a mapped list and the
      positions it came from keeps the two in step. */
  lemma ConsMatches<T, U>(xs: seq<T>, f: T -> U, rest: seq<U>, next: seq<nat>, from: nat)
    requires from < |xs| && |rest| == |next|
    requires forall k :: 0 <= k < |next| ==> next[k] < |xs| && rest[k] == f(xs[next[k]])
    ensures forall k :: 0 <= k < |next| + 1 ==>
      ([from] + next)[k] < |xs| && ([f(xs[from])] + rest)[k] == f(xs[([from] + next)[k]])
  {
    forall k | 0 <= k < |next| + 1
      ensures ([from] + next)[k] < |xs| && ([f(xs[from])] + rest)[k] == f(xs[([from] + next)[k]])
    {
      if k > 0 {
        assert ([from] + next)[k] == next[k - 1];
        assert ([f(xs[from])] + rest)[k] == rest[k - 1];
      }
    }
  }

  /** The comprehension yields `f` of the kept elements, taken at their
      positions in ascending order: nothing kept is lost, nothing dropped
      appears, and the input order is kept. */
  lemma FilterMapAtPositions<T, U>(xs: seq<T>, keep: T -> bool, f: T -> U)
    ensures |FilterMap(xs, keep, f)| == |Positions(xs, keep)|
    ensures forall k :: 0 <= k < |Positions(xs, keep)| ==>
      FilterMap(xs, keep, f)[k] == f(xs[Positions(xs, keep)[k]])
  {
    FilterMapFrom(xs, keep, f, 0);
    assert xs[0..] == xs;
  }

  /** A comprehension that keeps every element and maps each to itself is
      the identity. */
  lemma {:induction false} FilterMapKeepsAll<T>(xs: seq<T>, keep: T -> bool, f: T -> T)
    requires forall i :: 0 <= i < |xs| ==> keep(xs[i]) && f(xs[i]) == xs[i]
    ensures FilterMap(xs, keep, f) == xs
    decreases |xs|
  {
    if xs != [] {
      FilterMapKeepsAll(xs[1..], keep, f);
      assert xs == [xs[0]] + xs[1..];
    }
  }

  /** The comprehension is empty exactly when no element is kept. */
  lemma {:induction false} FilterMapEmpty<T, U>(xs: seq<T>, keep: T -> bool, f: T -> U)
    ensures FilterMap(xs, keep, f) == [] <==> forall i :: 0 <= i < |xs| ==> !keep(xs[i])
    decreases |xs|
  {
    if xs != [] {
      FilterMapEmpty(xs[1..], keep, f);
      assert forall i :: 1 <= i < |xs| ==> xs[i] == xs[1..][i - 1];
    }
  }
}
