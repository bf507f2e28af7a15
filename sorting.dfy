/**
 * In-place sorting of an array by a caller-supplied order, the shape of Go's
 * `sort.Sort` / `slices.SortFunc`: the algorithm only compares and swaps.
 * Go's sorts are not stable, and neither is this one; the postcondition is
 * what both promise: the array ends up ordered and is a permutation of what
 * it held.
 */
module Sorting {

  /** `before(x, y)`: x may come before y.  Total and transitive. */
  ghost predicate TotalPreorder<T(!new)>(before: (T, T) -> bool)
  {
    && (forall x, y :: before(x, y) || before(y, x))
    && (forall x, y, z :: before(x, y) && before(y, z) ==> before(x, z))
  }

  ghost predicate SortedBy<T>(s: seq<T>, before: (T, T) -> bool)
  {
    forall i, j :: 0 <= i < j < |s| ==> before(s[i], s[j])
  }

  /** The exchange `s[i], s[j] = s[j], s[i]`. */
  method Swap<T>(a: array<T>, i: int, j: int)
    requires 0 <= i < a.Length && 0 <= j < a.Length
    modifies a
    ensures a[..] == old(a[..])[i := old(a[j])][j := old(a[i])]
    ensures multiset(a[..]) == multiset(old(a[..]))
  {
    a[i], a[j] := a[j], a[i];
  }

  method SelectionSort<T(!new)>(a: array<T>, before: (T, T) -> bool)
    requires TotalPreorder(before)
    modifies a
    ensures SortedBy(a[..], before)
    ensures multiset(a[..]) == multiset(old(a[..]))
  {
    var i := 0;
    while i < a.Length
      invariant 0 <= i <= a.Length
      invariant forall p, q :: 0 <= p < q < i ==> before(a[p], a[q])
      invariant forall p, q :: 0 <= p < i <= q < a.Length ==> before(a[p], a[q])
      invariant multiset(a[..]) == multiset(old(a[..]))
    {
      var m := i;
      var k := i + 1;
      while k < a.Length
        invariant i <= m < a.Length && i < k <= a.Length
        invariant forall q :: i <= q < k ==> before(a[m], a[q])
      {
        if !before(a[m], a[k]) {
          m := k;
        }
        k := k + 1;
      }
      Swap(a, i, m);
      i := i + 1;
    }
  }
}
