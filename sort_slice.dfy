/** `sort.Slice(latencies, less)` with `less` comparing durations: the
    slice is rearranged in place into ascending order. Go's library uses a
    pattern-defeating quicksort; the model sorts by insertion, which yields
    the same slice because an ascending permutation is unique
    (`Latencies.SortedPermutationUnique`). */
module SortSlice {
  import opened Latencies

  /** Swaps two adjacent elements; the multiset of elements is kept. */
  method SwapDown(a: array<int>, j: int)
    requires 0 < j < a.Length
    modifies a
    ensures a[..] == old(a[..])[j - 1 := old(a[j])][j := old(a[j - 1])]
    ensures multiset(a[..]) == multiset(old(a[..]))
  {
    a[j - 1], a[j] := a[j], a[j - 1];
  }

  /** Moves `a[i]` down into the ascending prefix `a[..i]`. */
  method InsertDown(a: array<int>, i: int)
    requires 0 < i < a.Length
    requires forall m, n :: 0 <= m < n < i ==> a[m] <= a[n]
    modifies a
    ensures forall m, n :: 0 <= m < n <= i ==> a[m] <= a[n]
    ensures multiset(a[..]) == multiset(old(a[..]))
  {
    var j := i;
    while j > 0 && a[j - 1] > a[j]
      invariant 0 <= j <= i
      invariant forall m, n :: 0 <= m < n <= i && m != j && n != j ==> a[m] <= a[n]
      invariant forall n :: j < n <= i ==> a[j] < a[n]
      invariant multiset(a[..]) == multiset(old(a[..]))
    {
      SwapDown(a, j);
      j := j - 1;
    }
  }

  method Sort(a: array<int>)
    modifies a
    ensures a[..] == SortAsc(old(a[..]))
  {
    var i := 1;
    while i < a.Length
      invariant 1 <= i || a.Length == 0
      invariant i <= a.Length || a.Length == 0
      invariant forall m, n :: 0 <= m < n < i && n < a.Length ==> a[m] <= a[n]
      invariant multiset(a[..]) == multiset(old(a[..]))
    {
      InsertDown(a, i);
      i := i + 1;
    }
    assert SortedAsc(a[..]);
    SortedPermutationUnique(a[..], SortAsc(old(a[..])));
  }
}
