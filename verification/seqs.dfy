/**
 Sequence helpers for the ledger: linear search for the first element satisfying a
 condition (Python's `for … if …: break` scan) and removal of one position.
 */
module Seqs {
  import opened Wrappers

  /** The position of the first element of `xs` that satisfies `p`, or `None` when none does. */
  function FirstIndex<T>(xs: seq<T>, p: T -> bool): (r: Option<nat>)
    ensures r.Some? ==> r.value < |xs| && p(xs[r.value])
    ensures r.Some? ==> forall j :: 0 <= j < r.value ==> !p(xs[j])
    ensures r.None? <==> forall j :: 0 <= j < |xs| ==> !p(xs[j])
  {
    if |xs| == 0 then None
    else if p(xs[0]) then Some(0)
    else
      match FirstIndex(xs[1..], p)
      case None => None
      case Some(i) => Some(i + 1)
  }

  /** The sequence `xs` with position `i` taken out. */
  function RemoveAt<T>(xs: seq<T>, i: nat): (r: seq<T>)
    requires i < |xs|
    ensures |r| == |xs| - 1
    ensures forall j :: 0 <= j < i ==> r[j] == xs[j]
    ensures forall j :: i <= j < |r| ==> r[j] == xs[j + 1]
  {
    xs[..i] + xs[i + 1..]
  }

  /** The elements of `xs` that satisfy `p`, in their original order. */
  function Filter<T>(xs: seq<T>, p: T -> bool): (r: seq<T>)
    ensures |r| <= |xs|
    ensures forall j :: 0 <= j < |r| ==> r[j] in xs && p(r[j])
    ensures forall j :: 0 <= j < |xs| && p(xs[j]) ==> xs[j] in r
  {
    if |xs| == 0 then []
    else (if p(xs[0]) then [xs[0]] else []) + Filter(xs[1..], p)
  }

  /**
   When exactly one position of `xs` fails `p`, removing that position is the same as keeping
   every element that satisfies `p`.
   */
  lemma {:induction false} RemoveAtIsFilter<T>(xs: seq<T>, p: T -> bool, i: nat)
    requires i < |xs| && !p(xs[i])
    requires forall j :: 0 <= j < |xs| && j != i ==> p(xs[j])
    ensures RemoveAt(xs, i) == Filter(xs, p)
  {
    if i == 0 {
      FilterAll(xs[1..], p);
      assert RemoveAt(xs, 0) == xs[1..];
    } else {
      RemoveAtIsFilter(xs[1..], p, i - 1);
      assert RemoveAt(xs, i) == [xs[0]] + RemoveAt(xs[1..], i - 1);
    }
  }

  /** Filtering with a condition every element meets changes nothing. */
  lemma {:induction false} FilterAll<T>(xs: seq<T>, p: T -> bool)
    requires forall j :: 0 <= j < |xs| ==> p(xs[j])
    ensures Filter(xs, p) == xs
  {
    if |xs| > 0 {
      FilterAll(xs[1..], p);
      assert [xs[0]] + xs[1..] == xs;
    }
  }
}
