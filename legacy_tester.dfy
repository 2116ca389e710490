/** The statistics helpers of the first stress-test version: the mean of a
    list of latencies and an integer percentile. */
module LegacyTester {
  import opened GoNum
  import opened Latencies

  /** `calcMean`: the total divided by the count, truncated. The total is a
      `time.Duration`, so it wraps around past the int64 range; the mean lies
      between the least and the greatest latency when the exact total fits.
      Go divides by `len(latencies)`, so an empty list panics. */
  method CalcMean(latencies: seq<int>) returns (mean: int)
    requires |latencies| > 0
    ensures mean == Quo(Wrap64(Sum(latencies)), |latencies|)
    ensures MinInt64 <= Sum(latencies) <= MaxInt64 ==> Least(latencies) <= mean <= Greatest(latencies)
  {
    var total := 0;
    for k := 0 to |latencies|
      invariant total == Wrap64(Sum(latencies[..k]))
    {
      assert latencies[..k + 1] == latencies[..k] + [latencies[k]];
      SumAppend(latencies[..k], latencies[k]);
      WrapAdd(Sum(latencies[..k]), latencies[k]);
      total := Wrap64(total + latencies[k]);
    }
    assert latencies[..|latencies|] == latencies;
    mean := Quo(total, |latencies|);
    MeanWithinRange(latencies);
  }

  /** Two latencies of `MaxInt64` overflow the running total, which wraps to
      -2, and the mean comes out as -1: below both latencies. */
  lemma MeanWrapsOnOverflow()
    ensures Quo(Wrap64(Sum([MaxInt64, MaxInt64])), 2) == -1
    ensures Quo(Wrap64(Sum([MaxInt64, MaxInt64])), 2) < Least([MaxInt64, MaxInt64])
  {
    var ls := [MaxInt64, MaxInt64];
    assert ls[..1] == [MaxInt64] && [MaxInt64][..0] == [];
    assert Sum([MaxInt64]) == MaxInt64;
    assert Sum(ls) == 2 * MaxInt64;
    assert (2 * MaxInt64 - MinInt64) % TwoTo64 == MaxInt64 - 1;
    assert Wrap64(Sum(ls)) == -2;
    assert Quo(-2, 2) == -1;
    assert Least(ls) == MaxInt64;
  }

  /** The index `percentile` reads: `p*n/100` truncated, at most `n - 1`. */
  function PercentileIndex(n: int, p: int): int
    requires n > 0
  {
    var index := Quo(p * n, 100);
    if index >= n then n - 1 else index
  }

  /** `percentile`: 0 for no latencies, otherwise the element at
      `PercentileIndex`. An index below 0, which `p * n <= -100` gives,
      panics in Go. */
  function Percentile(latencies: seq<int>, p: int): (r: int)
    requires latencies == [] || p * |latencies| > -100
    ensures latencies == [] ==> r == 0
    ensures latencies != [] ==> r in latencies
  {
    if |latencies| == 0 then 0
    else
      QuoNonNegative(p * |latencies|, 100);
      latencies[PercentileIndex(|latencies|, p)]
  }

  /** p = 100 and above give the last element; p*n below 100 the first. */
  lemma PercentileEnds(latencies: seq<int>, p: int)
    requires latencies != []
    ensures p >= 100 ==> Percentile(latencies, p) == latencies[|latencies| - 1]
    ensures -100 < p * |latencies| < 100 ==> Percentile(latencies, p) == latencies[0]
  {
    var n := |latencies|;
    if p >= 100 {
      ScaleMonotone(100, p, n);
      QuoMonotone(100 * n, p * n, 100);
      assert Quo(100 * n, 100) == n;
    }
    if -100 < p * n < 100 {
      QuoMonotone(p * n, 99, 100);
      QuoNonNegative(p * n, 100);
    }
  }

  /** On an ascending list a higher percentile is never smaller. */
  lemma PercentileMonotone(latencies: seq<int>, p: int, q: int)
    requires SortedAsc(latencies) && latencies != []
    requires p * |latencies| > -100 && p <= q
    ensures Percentile(latencies, p) <= Percentile(latencies, q)
  {
    var n := |latencies|;
    ScaleMonotone(p, q, n);
    QuoMonotone(p * n, q * n, 100);
    QuoNonNegative(p * n, 100);
  }
}
