/** Searching and splicing sequences, as `Array.prototype.find`, `findIndex` and `splice(i, 1)` do. */
module Seqs {
  import opened Wrappers

  /** The index of the first element equal to `x` (`findIndex` with an equality test), or None. */
  function FirstIndex<T(==)>(xs: seq<T>, x: T): (r: Option<nat>)
    ensures r.Some? ==> r.value < |xs| && xs[r.value] == x
    ensures r.Some? ==> forall j :: 0 <= j < r.value ==> xs[j] != x
    ensures r.None? <==> x !in xs
  {
    if xs == [] then None
    else if xs[0] == x then Some(0)
    else match FirstIndex(xs[1..], x)
      case None => None
      case Some(i) => Some(i + 1)
  }

  /** The first index is determined by where `x` occurs: an occurrence with none before it is the
      first, and no occurrence at all is `None`. */
  lemma FirstIndexUnique<T>(xs: seq<T>, x: T, r: Option<nat>)
    requires r.Some? ==> r.value < |xs| && xs[r.value] == x && forall j :: 0 <= j < r.value ==> xs[j] != x
    requires r.None? ==> x !in xs
    ensures FirstIndex(xs, x) == r
  {
    var t := FirstIndex(xs, x);
    if t.Some? {
      assert xs[t.value] == x;
    }
  }

  /** Searching a longer sequence finds the same first match when the prefix already has one,
      and otherwise continues into the appended part. */
  lemma FirstIndexAppend<T>(xs: seq<T>, ys: seq<T>, x: T)
    ensures FirstIndex(xs + ys, x) ==
      match FirstIndex(xs, x)
      case Some(i) => Some(i)
      case None => match FirstIndex(ys, x) { case None => None case Some(j) => Some(|xs| + j) }
  {
    var zs := xs + ys;
    match FirstIndex(xs, x)
    case Some(i) =>
      FirstIndexUnique(zs, x, Some(i));
    case None =>
      match FirstIndex(ys, x)
      case None =>
        FirstIndexUnique(zs, x, None);
      case Some(j) =>
        assert zs[|xs| + j] == ys[j];
        FirstIndexUnique(zs, x, Some(|xs| + j));
  }

  /** `splice(i, 1)`: the sequence without its i-th element. */
  function RemoveAt<T>(xs: seq<T>, i: nat): (r: seq<T>)
    requires i < |xs|
    ensures |r| == |xs| - 1
    ensures forall j :: 0 <= j < i ==> r[j] == xs[j]
    ensures forall j :: i <= j < |r| ==> r[j] == xs[j + 1]
  {
    xs[..i] + xs[i + 1..]
  }
}
