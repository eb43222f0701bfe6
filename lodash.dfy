/** The two lodash collection functions the vote page uses, `_.find` and
    `_.filter`, on arrays, with predicates that do not throw. */
module Lodash {
  import opened Values

  /** The index `_.find` stops at: the first element that satisfies `p`. */
  function FindIndex<T>(xs: seq<T>, p: T -> bool): (r: Option<nat>)
    ensures r.Some? ==> r.value < |xs| && p(xs[r.value])
    ensures r.Some? ==> forall j :: 0 <= j < r.value ==> !p(xs[j])
    ensures r.None? <==> forall j :: 0 <= j < |xs| ==> !p(xs[j])
  {
    if xs == [] then None
    else if p(xs[0]) then Some(0)
    else
      match FindIndex(xs[1..], p)
      case None => None
      case Some(i) => Some(i + 1)
  }

  /** `_.find(xs, p)`: the first element that satisfies `p`, or `undefined`. */
  function Find<T>(xs: seq<T>, p: T -> bool): (r: Option<T>)
    ensures r.None? <==> forall j :: 0 <= j < |xs| ==> !p(xs[j])
    ensures r.Some? ==> exists i :: 0 <= i < |xs| && xs[i] == r.value && p(xs[i]) &&
                                  forall j :: 0 <= j < i ==> !p(xs[j])
  {
    match FindIndex(xs, p)
    case None => None
    case Some(i) => Some(xs[i])
  }

  /** The positions of the elements of `xs` that satisfy `p`, ascending. */
  function FilterIndices<T>(xs: seq<T>, p: T -> bool): (r: seq<nat>)
    ensures forall k :: 0 <= k < |r| ==> r[k] < |xs| && p(xs[r[k]])
    ensures forall k, l :: 0 <= k < l < |r| ==> r[k] < r[l]
    ensures forall i :: 0 <= i < |xs| && p(xs[i]) ==> i in r
  {
    if xs == [] then []
    else
      var n := |xs| - 1;
      FilterIndices(xs[..n], p) + (if p(xs[n]) then [n] else [])
  }

  /** `_.filter(xs, p)`: the elements at `FilterIndices(xs, p)`, in that order,
      so exactly the elements that satisfy `p`, in their original order. */
  function Filter<T>(xs: seq<T>, p: T -> bool): (r: seq<T>)
    ensures |r| == |FilterIndices(xs, p)|
    ensures forall k :: 0 <= k < |r| ==> r[k] == xs[FilterIndices(xs, p)[k]]
    ensures forall k :: 0 <= k < |r| ==> r[k] in xs && p(r[k])
    ensures forall i :: 0 <= i < |xs| && p(xs[i]) ==> xs[i] in r
  {
    if xs == [] then []
    else
      var n := |xs| - 1;
      Filter(xs[..n], p) + (if p(xs[n]) then [xs[n]] else [])
  }

  /** The number of elements `_.filter` keeps. */
  function Count<T>(xs: seq<T>, p: T -> bool): nat
  {
    |FilterIndices(xs, p)|
  }
}
