/** Arithmetic over a list of latencies (`[]time.Duration`, as nanosecond
    integers) shared by the stress-test reports: the running total that the
    mean loops accumulate, the smallest and largest element, and the ascending
    order that `sort.Slice` produces. */
module Latencies {
  import opened GoNum

  /** The total of `s`, accumulated left to right as `mean += l` does. */
  function Sum(s: seq<int>): int
  {
    if s == [] then 0 else Sum(s[..|s| - 1]) + s[|s| - 1]
  }

  lemma SumAppend(s: seq<int>, x: int)
    ensures Sum(s + [x]) == Sum(s) + x
  {
    assert (s + [x])[..|s|] == s;
  }

  lemma {:induction false} SumConcat(a: seq<int>, b: seq<int>)
    ensures Sum(a + b) == Sum(a) + Sum(b)
    decreases |b|
  {
    if b == [] {
      assert a + b == a;
    } else {
      var init, last := b[..|b| - 1], b[|b| - 1];
      assert b == init + [last];
      assert a + b == (a + init) + [last];
      SumConcat(a, init);
      SumAppend(a + init, last);
      SumAppend(init, last);
    }
  }

  /** The total does not depend on the order of the elements: summing the
      sorted latencies gives the total of the unsorted ones. */
  lemma {:induction false} SumPermutation(a: seq<int>, b: seq<int>)
    requires multiset(a) == multiset(b)
    ensures Sum(a) == Sum(b)
    decreases |a|
  {
    if a == [] {
      assert |b| == |multiset(b)| == 0;
    } else {
      var init, x := a[..|a| - 1], a[|a| - 1];
      assert a == init + [x];
      assert x in multiset(b);
      var j :| 0 <= j < |b| && b[j] == x;
      var rest := b[..j] + b[j + 1..];
      RemoveAt(b, j);
      assert multiset(init) == multiset(a) - multiset{x};
      SumPermutation(init, rest);
      SumAppend(init, x);
    }
  }

  /** Taking out the element at `j` lowers the total by that element. */
  lemma RemoveAt(b: seq<int>, j: int)
    requires 0 <= j < |b|
    ensures Sum(b) == Sum(b[..j] + b[j + 1..]) + b[j]
    ensures multiset(b[..j] + b[j + 1..]) == multiset(b) - multiset{b[j]}
  {
    SplitAt(b, j);
    RemoveAtSum(b[..j], b[j], b[j + 1..]);
    RemoveAtMultiset(b[..j], b[j], b[j + 1..]);
  }

  lemma SplitAt(b: seq<int>, j: int)
    requires 0 <= j < |b|
    ensures b == (b[..j] + [b[j]]) + b[j + 1..]
  {
    assert b[..j + 1] == b[..j] + [b[j]];
    assert b == b[..j + 1] + b[j + 1..];
  }

  lemma RemoveAtMultiset(pre: seq<int>, x: int, post: seq<int>)
    ensures multiset(pre + post) == multiset((pre + [x]) + post) - multiset{x}
  {
    calc {
      multiset((pre + [x]) + post);
      multiset(pre + [x]) + multiset(post);
      multiset(pre) + multiset{x} + multiset(post);
    }
  }

  lemma RemoveAtSum(pre: seq<int>, x: int, post: seq<int>)
    ensures Sum((pre + [x]) + post) == Sum(pre + post) + x
  {
    SumConcat(pre + [x], post);
    SumAppend(pre, x);
    SumConcat(pre, post);
  }

  /** The smallest latency (`latencies[0]` after sorting). */
  function Least(s: seq<int>): (m: int)
    requires s != []
    ensures m in s
    ensures forall k :: 0 <= k < |s| ==> m <= s[k]
  {
    if |s| == 1 then s[0]
    else
      var t := Least(s[..|s| - 1]);
      assert t in s;
      if s[|s| - 1] < t then s[|s| - 1] else t
  }

  /** The largest latency (`latencies[len(latencies)-1]` after sorting). */
  function Greatest(s: seq<int>): (m: int)
    requires s != []
    ensures m in s
    ensures forall k :: 0 <= k < |s| ==> s[k] <= m
  {
    if |s| == 1 then s[0]
    else
      var t := Greatest(s[..|s| - 1]);
      assert t in s;
      if s[|s| - 1] > t then s[|s| - 1] else t
  }

  ghost predicate SortedAsc(s: seq<int>)
  {
    forall i, j :: 0 <= i < j < |s| ==> s[i] <= s[j]
  }

  /** Inserts `x` into an ascending sequence, keeping it ascending. */
  function Insert(x: int, s: seq<int>): (r: seq<int>)
    requires SortedAsc(s)
    ensures SortedAsc(r)
    ensures multiset(r) == multiset(s) + multiset{x}
  {
    if s == [] || x <= s[0] then
      [x] + s
    else
      var t := Insert(x, s[1..]);
      assert s == [s[0]] + s[1..];
      HeadStaysFirst(x, s, t);
      [s[0]] + t
  }

  /** Prefixing the head of `s` to `t`, which holds the rest of `s` and an
      `x` above the head, stays ascending. */
  lemma HeadStaysFirst(x: int, s: seq<int>, t: seq<int>)
    requires SortedAsc(s) && s != [] && s[0] < x && SortedAsc(t)
    requires multiset(t) == multiset(s[1..]) + multiset{x}
    ensures SortedAsc([s[0]] + t)
  {
    forall k | 0 <= k < |t|
      ensures s[0] <= t[k]
    {
      assert t[k] in multiset(t);
      if t[k] != x {
        assert t[k] in multiset(s[1..]);
        var j :| 0 <= j < |s[1..]| && s[1..][j] == t[k];
        assert s[j + 1] == t[k];
      }
    }
  }

  /** The ascending order `sort.Slice(latencies, less)` leaves behind, with
      `less` comparing by `<`: a sorted permutation of the input. */
  function SortAsc(s: seq<int>): (r: seq<int>)
    ensures SortedAsc(r)
    ensures multiset(r) == multiset(s)
    ensures |r| == |s|
  {
    if s == [] then []
    else
      assert s == s[..|s| - 1] + [s[|s| - 1]];
      var r := Insert(s[|s| - 1], SortAsc(s[..|s| - 1]));
      assert |r| == |multiset(r)| == |multiset(s)| == |s|;
      r
  }

  /** A sorted permutation is unique, so any correct sort (stable or not, as
      `sort.Slice` is not) yields `SortAsc`. */
  lemma {:induction false} SortedPermutationUnique(a: seq<int>, b: seq<int>)
    requires SortedAsc(a) && SortedAsc(b)
    requires multiset(a) == multiset(b)
    ensures a == b
    decreases |a|
  {
    if a != [] {
      assert |b| == |multiset(b)| == |a|;
      SortedHeadsAgree(a, b);
      DropHead(a);
      DropHead(b);
      SortedPermutationUnique(a[1..], b[1..]);
      assert a == [a[0]] + a[1..] && b == [b[0]] + b[1..];
    }
  }

  lemma DropHead(a: seq<int>)
    requires a != []
    ensures multiset(a[1..]) == multiset(a) - multiset{a[0]}
    ensures SortedAsc(a) ==> SortedAsc(a[1..])
  {
    assert a == [a[0]] + a[1..];
  }

  lemma SortedHeadsAgree(a: seq<int>, b: seq<int>)
    requires SortedAsc(a) && SortedAsc(b) && a != [] && b != []
    requires multiset(a) == multiset(b)
    ensures a[0] == b[0]
  {
    assert b[0] in multiset(a) && a[0] in multiset(b);
    var i :| 0 <= i < |a| && a[i] == b[0];
    var j :| 0 <= j < |b| && b[j] == a[0];
    assert a[0] <= a[i] && b[0] <= b[j];
  }

  /** After sorting, the first element is the least latency and the last the
      greatest. */
  lemma SortedEnds(s: seq<int>)
    requires s != []
    ensures SortAsc(s)[0] == Least(s)
    ensures SortAsc(s)[|s| - 1] == Greatest(s)
  {
    FirstIsLeast(SortAsc(s), s);
    LastIsGreatest(SortAsc(s), s);
  }

  lemma FirstIsLeast(r: seq<int>, s: seq<int>)
    requires SortedAsc(r) && s != [] && multiset(r) == multiset(s)
    ensures |r| == |s| && r[0] == Least(s)
  {
    assert |r| == |multiset(r)| == |multiset(s)| == |s|;
    assert Least(s) in multiset(r);
    var i :| 0 <= i < |r| && r[i] == Least(s);
    assert r[0] <= r[i];
    assert r[0] in multiset(s);
    var k :| 0 <= k < |s| && s[k] == r[0];
  }

  lemma LastIsGreatest(r: seq<int>, s: seq<int>)
    requires SortedAsc(r) && s != [] && multiset(r) == multiset(s)
    ensures |r| == |s| && r[|r| - 1] == Greatest(s)
  {
    assert |r| == |multiset(r)| == |multiset(s)| == |s|;
    var n := |r|;
    assert Greatest(s) in multiset(r);
    var j :| 0 <= j < n && r[j] == Greatest(s);
    assert r[j] <= r[n - 1];
    assert r[n - 1] in multiset(s);
    var l :| 0 <= l < n && s[l] == r[n - 1];
  }

  lemma {:induction false} SumBounds(s: seq<int>, lo: int, hi: int)
    requires forall k :: 0 <= k < |s| ==> lo <= s[k] <= hi
    ensures |s| * lo <= Sum(s) <= |s| * hi
    decreases |s|
  {
    if s != [] {
      SumBounds(s[..|s| - 1], lo, hi);
      assert |s| * lo == (|s| - 1) * lo + lo;
      assert |s| * hi == (|s| - 1) * hi + hi;
    }
  }

  /** A truncated quotient of a total bounded by `n * lo` and `n * hi` lies
      between `lo` and `hi`. */
  lemma QuoBetween(total: int, n: int, lo: int, hi: int)
    requires n > 0
    requires n * lo <= total <= n * hi
    ensures lo <= Quo(total, n) <= hi
  {
    QuoAtLeast(total, n, lo);
    QuoAtMost(total, n, hi);
  }

  lemma QuoAtLeast(total: int, n: int, lo: int)
    requires n > 0 && n * lo <= total
    ensures lo <= Quo(total, n)
  {
    var q := Quo(total, n);
    assert -n < total - q * n < n;
    if q < lo {
      assert (lo - 1) * n == lo * n - n;
      ScaleMonotone(q, lo - 1, n);
    }
  }

  lemma QuoAtMost(total: int, n: int, hi: int)
    requires n > 0 && total <= n * hi
    ensures Quo(total, n) <= hi
  {
    var q := Quo(total, n);
    assert -n < total - q * n < n;
    if q > hi {
      assert (hi + 1) * n == hi * n + n;
      ScaleMonotone(hi + 1, q, n);
    }
  }

  /** The truncated mean of a non-empty list lies between its least and its
      greatest element, for negative elements too. */
  lemma MeanWithinRange(s: seq<int>)
    requires s != []
    ensures Least(s) <= Quo(Sum(s), |s|) <= Greatest(s)
  {
    SumBounds(s, Least(s), Greatest(s));
    QuoBetween(Sum(s), |s|, Least(s), Greatest(s));
  }
}
