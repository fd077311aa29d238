/** Generic sequence operations the game engine is built from: the
    `Array.prototype.findIndex` search and the removal of one entry by index. */
module Sequences {
  import opened Wrappers

  /** The first index whose element satisfies `p`, or `None` when no element
      does (JavaScript's `findIndex` returning `-1`). */
  function FirstIndex<T>(xs: seq<T>, p: T -> bool): (r: Option<nat>)
    ensures r.Some? ==> r.value < |xs| && p(xs[r.value])
    ensures r.Some? ==> forall j :: 0 <= j < r.value ==> !p(xs[j])
    ensures r.None? <==> forall j :: 0 <= j < |xs| ==> !p(xs[j])
  {
    if |xs| == 0 then None
    else if p(xs[0]) then Some(0)
    else match FirstIndex(xs[1..], p)
      case None => None
      case Some(k) => Some(k + 1)
  }

  /** An index that satisfies `p` with no earlier index satisfying it is
      exactly what `FirstIndex` finds. */
  lemma FirstIndexIs<T>(xs: seq<T>, p: T -> bool, k: nat)
    requires k < |xs| && p(xs[k])
    requires forall j :: 0 <= j < k ==> !p(xs[j])
    ensures FirstIndex(xs, p) == Some(k)
  {
  }

  /** Putting an element that fails `p` in front shifts the first hit by one. */
  lemma FirstIndexCons<T>(x: T, xs: seq<T>, p: T -> bool)
    ensures !p(x) ==> (FirstIndex([x] + xs, p).Some? <==> FirstIndex(xs, p).Some?)
    ensures !p(x) && FirstIndex(xs, p).Some? ==>
      FirstIndex([x] + xs, p) == Some(FirstIndex(xs, p).value + 1)
  {
    assert ([x] + xs)[1..] == xs;
  }

  /** The sequence without its entry at index `i`; every other entry keeps its
      relative order. */
  function RemoveAt<T>(xs: seq<T>, i: nat): (r: seq<T>)
    requires i < |xs|
    ensures |r| == |xs| - 1
    ensures forall j :: 0 <= j < i ==> r[j] == xs[j]
    ensures forall j :: i <= j < |r| ==> r[j] == xs[j + 1]
    ensures multiset(r) + multiset{xs[i]} == multiset(xs)
  {
    assert xs == xs[..i] + [xs[i]] + xs[i + 1..];
    xs[..i] + xs[i + 1..]
  }

  /** Removing from a list with an element in front is removing from the
      rest, one index further on. */
  lemma RemoveAtCons<T>(x: T, xs: seq<T>, i: nat)
    requires i < |xs|
    ensures [x] + RemoveAt(xs, i) == RemoveAt([x] + xs, i + 1)
  {
    assert ([x] + xs)[..i + 1] == [x] + xs[..i];
    assert ([x] + xs)[i + 2..] == xs[i + 1..];
  }
}
