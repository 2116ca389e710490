/** The latency histogram of the stress test (`BuildHistogram`): buckets of
    a fixed width starting at 0 and reaching the largest latency, each
    counting the latencies that fall in it, plus a text rendering with one
    line per bucket. The text of a bucket line is kept as the bucket it
    shows; its `%v` formatting is not modelled. */
module StressHistogram {
  import opened GoNum
  import opened Latencies
  import opened StressReport

  datatype TextPiece = Line(s: string) | BucketLine(bucket: Bucket)

  const Header: string := "Latency Histogram:\n"
  const NoLatencies: string := "No latencies recorded"

  /** The largest latency, the scan starting from 0. */
  function MaxFromZero(ls: seq<int>): (m: int)
    ensures 0 <= m
    ensures forall k :: 0 <= k < |ls| ==> ls[k] <= m
    ensures m == 0 || m in ls
  {
    if ls == [] then 0
    else
      var m := MaxFromZero(ls[..|ls| - 1]);
      if ls[|ls| - 1] > m then ls[|ls| - 1] else m
  }

  function NumBuckets(ls: seq<int>, size: int): int
    requires size > 0
  {
    Quo(MaxFromZero(ls), size) + 1
  }

  /** The bucket `l` is counted in: `l / size`, clamped to the last. */
  function BucketIndex(l: int, size: int, n: int): (idx: int)
    requires size > 0 && n >= 1 && l > -size
    ensures 0 <= idx < n
  {
    QuoNonNegative(l, size);
    var q := Quo(l, size);
    if q >= n then n - 1 else q
  }

  ghost predicate Countable(ls: seq<int>, size: int)
  {
    size > 0 && forall k :: 0 <= k < |ls| ==> ls[k] > -size
  }

  /** The counts after `buckets[idx].Count++` for every latency in order. */
  function BucketCounts(ls: seq<int>, size: int, n: int): (c: seq<int>)
    requires Countable(ls, size) && n >= 1
    ensures |c| == n
  {
    if ls == [] then seq(n, i => 0)
    else
      var c := BucketCounts(ls[..|ls| - 1], size, n);
      var i := BucketIndex(ls[|ls| - 1], size, n);
      c[i := c[i] + 1]
  }

  /** The bucket of each latency, in order. */
  function Indices(ls: seq<int>, size: int, n: int): seq<int>
    requires Countable(ls, size) && n >= 1
  {
    seq(|ls|, k requires 0 <= k < |ls| => BucketIndex(ls[k], size, n))
  }

  /** The buckets `BuildHistogram` returns for a non-empty list. */
  function Histogram(ls: seq<int>, size: int): seq<Bucket>
    requires Countable(ls, size)
  {
    var n := NumBuckets(ls, size);
    QuoNonNegative(MaxFromZero(ls), size);
    var c := BucketCounts(ls, size, n);
    seq(n, i requires 0 <= i < n => Bucket(i * size, i * size + size, c[i]))
  }

  /** The text: a header line, then one line per bucket in order. */
  function Render(buckets: seq<Bucket>): seq<TextPiece>
  {
    [Line(Header)] + seq(|buckets|, i requires 0 <= i < |buckets| => BucketLine(buckets[i]))
  }

  function Counts(buckets: seq<Bucket>): seq<int>
  {
    seq(|buckets|, i requires 0 <= i < |buckets| => buckets[i].count)
  }

  /** The scan for the largest latency, starting from 0. */
  method MaxLatency(latencies: seq<int>) returns (maxLatency: int)
    ensures maxLatency == MaxFromZero(latencies)
  {
    maxLatency := 0;
    for k := 0 to |latencies|
      invariant maxLatency == MaxFromZero(latencies[..k])
    {
      assert latencies[..k + 1][..k] == latencies[..k];
      if latencies[k] > maxLatency {
        maxLatency := latencies[k];
      }
    }
    assert latencies[..|latencies|] == latencies;
  }

  /** `make([]Bucket, numBuckets)` and the loop setting each range. */
  method EmptyBuckets(numBuckets: int, bucketSize: int) returns (arr: array<Bucket>)
    requires numBuckets >= 1
    ensures fresh(arr) && arr.Length == numBuckets
    ensures forall j :: 0 <= j < numBuckets ==> arr[j] == Bucket(j * bucketSize, j * bucketSize + bucketSize, 0)
  {
    arr := new Bucket[numBuckets](_ => Bucket(0, 0, 0));
    for i := 0 to numBuckets
      invariant forall j :: 0 <= j < i ==> arr[j] == Bucket(j * bucketSize, j * bucketSize + bucketSize, 0)
    {
      var from := i * bucketSize;
      arr[i] := Bucket(from, from + bucketSize, 0);
    }
  }

  /** The loop incrementing, for each latency, the count of its bucket. */
  method CountInto(arr: array<Bucket>, latencies: seq<int>, bucketSize: int)
    requires Countable(latencies, bucketSize) && arr.Length >= 1
    requires forall j :: 0 <= j < arr.Length ==> arr[j].count == 0
    modifies arr
    ensures forall j :: 0 <= j < arr.Length ==>
      arr[j] == old(arr[j]).(count := BucketCounts(latencies, bucketSize, arr.Length)[j])
  {
    for k := 0 to |latencies|
      invariant forall j :: 0 <= j < arr.Length ==>
        arr[j] == old(arr[j]).(count := BucketCounts(latencies[..k], bucketSize, arr.Length)[j])
    {
      assert latencies[..k + 1][..k] == latencies[..k];
      QuoNonNegative(latencies[k], bucketSize);
      var idx := Quo(latencies[k], bucketSize);
      if idx >= arr.Length {
        idx := arr.Length - 1;
      }
      arr[idx] := arr[idx].(count := arr[idx].count + 1);
    }
    assert latencies[..|latencies|] == latencies;
  }

  /** The `strings.Builder` loop: a header, then one line per bucket. */
  method RenderText(buckets: seq<Bucket>) returns (text: seq<TextPiece>)
    ensures text == Render(buckets)
  {
    text := [Line(Header)];
    for i := 0 to |buckets|
      invariant text == [Line(Header)] + seq(i, j requires 0 <= j < i => BucketLine(buckets[j]))
    {
      text := text + [BucketLine(buckets[i])];
    }
  }

  method BuildHistogram(latencies: seq<int>, bucketSize: int) returns (buckets: seq<Bucket>, text: seq<TextPiece>)
    requires Countable(latencies, bucketSize)
    ensures latencies == [] ==> buckets == [] && text == [Line(NoLatencies)]
    ensures latencies != [] ==> buckets == Histogram(latencies, bucketSize) && text == Render(buckets)
  {
    if |latencies| == 0 {
      return [], [Line(NoLatencies)];
    }
    var maxLatency := MaxLatency(latencies);
    QuoNonNegative(maxLatency, bucketSize);
    var numBuckets := Quo(maxLatency, bucketSize) + 1;
    var arr := EmptyBuckets(numBuckets, bucketSize);
    CountInto(arr, latencies, bucketSize);
    buckets := arr[..];
    assert buckets == Histogram(latencies, bucketSize);
    text := RenderText(buckets);
  }

  // ---------------------------------------------------------------------
  // Properties of the histogram

  /** There are `max/size + 1` buckets of width `size`, contiguous and
      non-overlapping, the first starting at 0. */
  lemma HistogramShape(ls: seq<int>, size: int)
    requires Countable(ls, size)
    ensures var h := Histogram(ls, size);
      && |h| == MaxFromZero(ls) / size + 1
      && h[0].from == 0
      && (forall i :: 0 <= i < |h| ==> h[i].to == h[i].from + size)
      && (forall i :: 0 <= i < |h| - 1 ==> h[i].to == h[i + 1].from)
  {
    var h := Histogram(ls, size);
    forall i | 0 <= i < |h| - 1
      ensures h[i].to == h[i + 1].from
    {
      assert (i + 1) * size == i * size + size;
    }
  }

  lemma {:induction false} SumZeros(n: nat)
    ensures Sum(seq(n, i => 0)) == 0
  {
    if n > 0 {
      assert seq(n, i => 0)[..n - 1] == seq(n - 1, i => 0);
      SumZeros(n - 1);
    }
  }

  lemma {:induction false} SumBump(c: seq<int>, i: int)
    requires 0 <= i < |c|
    ensures Sum(c[i := c[i] + 1]) == Sum(c) + 1
  {
    var d := c[i := c[i] + 1];
    if i == |c| - 1 {
      assert d[..|d| - 1] == c[..|c| - 1];
    } else {
      assert d[..|d| - 1] == c[..|c| - 1][i := c[i] + 1];
      SumBump(c[..|c| - 1], i);
    }
  }

  /** Every latency is counted exactly once. */
  lemma {:induction false} BucketCountsTotal(ls: seq<int>, size: int, n: int)
    requires Countable(ls, size) && n >= 1
    ensures Sum(BucketCounts(ls, size, n)) == |ls|
  {
    if ls == [] {
      SumZeros(n);
    } else {
      var init := ls[..|ls| - 1];
      BucketCountsTotal(init, size, n);
      SumBump(BucketCounts(init, size, n), BucketIndex(ls[|ls| - 1], size, n));
    }
  }

  /** The bucket counts sum to the number of latencies. */
  lemma HistogramTotal(ls: seq<int>, size: int)
    requires Countable(ls, size)
    ensures Sum(Counts(Histogram(ls, size))) == |ls|
  {
    var n := NumBuckets(ls, size);
    QuoNonNegative(MaxFromZero(ls), size);
    assert Counts(Histogram(ls, size)) == BucketCounts(ls, size, n);
    BucketCountsTotal(ls, size, n);
  }

  /** Bucket i counts exactly the latencies whose bucket number is i. */
  lemma {:induction false} CountsAreIndexMultiplicities(ls: seq<int>, size: int, n: int)
    requires Countable(ls, size) && n >= 1
    ensures forall i :: 0 <= i < n ==> BucketCounts(ls, size, n)[i] == multiset(Indices(ls, size, n))[i]
  {
    if ls != [] {
      var init := ls[..|ls| - 1];
      CountsAreIndexMultiplicities(init, size, n);
      assert Indices(ls, size, n) == Indices(init, size, n) + [BucketIndex(ls[|ls| - 1], size, n)];
    }
  }

  /** No latency is clamped: each non-negative latency lands in the bucket
      whose range holds it, since no latency exceeds the maximum. */
  lemma EveryLatencyInItsBucket(ls: seq<int>, size: int, k: int)
    requires Countable(ls, size) && 0 <= k < |ls| && ls[k] >= 0
    ensures var h := Histogram(ls, size);
      var i := BucketIndex(ls[k], size, |h|);
      i == ls[k] / size && h[i].from <= ls[k] < h[i].to
  {
    var m := MaxFromZero(ls);
    QuoNonNegative(ls[k], size);
    QuoNonNegative(m, size);
    DivMonotone(ls[k], m, size);
  }

  /** The clamp to the last bucket never fires: every latency, including a
      negative one above `-size`, is counted at its truncated quotient. */
  lemma ClampNeverFires(ls: seq<int>, size: int, k: int)
    requires Countable(ls, size) && 0 <= k < |ls|
    ensures BucketIndex(ls[k], size, NumBuckets(ls, size)) == Quo(ls[k], size)
  {
    var m := MaxFromZero(ls);
    QuoMonotone(ls[k], m, size);
  }
}
