/** The first stress-test version's `main` package: its own report type
    (without a histogram) and the demonstration histogram it prints. Its
    `BuildHistogram` and its per-worker split are the same code as the later
    version's and are modelled by `StressHistogram` and `WorkSplit`. */
module LegacyCmd {
  import opened GoNum
  import opened Latencies
  import StressReport
  import opened StressHistogram

  /** `Report` of this version; P95 and P99 are not part of the model. */
  datatype LegacyReport = LegacyReport(
    totalRequests: int,
    successCount: int,
    statusCodes: map<int, int>,
    duration: int,
    latencies: seq<int>,
    min: int,
    max: int,
    mean: int)

  /** `calculateReport`: the same computation as the later
      `CalculateReport`, into this version's report type. Min and max are
      the two ends of the ascending latencies, and the status counts cover
      every result once. */
  method CalculateReport(results: seq<StressReport.Result>, totalDuration: int, detailed: bool) returns (report: LegacyReport)
    requires |results| > 0
    ensures report.totalRequests == |results|
    ensures report.successCount == StressReport.CountStatus(results, StressReport.StatusOK)
    ensures report.statusCodes == StressReport.Tally(results)
    ensures StressReport.KeysCover(report.statusCodes, StressReport.Codes(results))
    ensures StressReport.TotalOver(report.statusCodes, StressReport.Codes(results)) == |results|
    ensures var sorted := SortAsc(StressReport.Durations(results));
      report.min == sorted[0] && report.max == sorted[|results| - 1]
    ensures report.mean == Quo(Wrap64(Sum(StressReport.Durations(results))), |results|)
    ensures MinInt64 <= Sum(StressReport.Durations(results)) <= MaxInt64 ==> report.min <= report.mean <= report.max
    ensures report.latencies == if detailed then SortAsc(StressReport.Durations(results)) else []
  {
    var r := StressReport.CalculateReport(results, totalDuration, detailed);
    report := LegacyReport(r.totalRequests, r.successCount, r.statusCodes, r.duration,
                           r.latencies, r.min, r.max, r.mean);
    SortedEnds(StressReport.Durations(results));
    StressReport.TallyTotal(results);
  }

  /** The demonstration at the end of `main`: latencies of 50, 120, 180,
      220 and 900 ms in 100 ms buckets give ten buckets up to 1 s, with
      one latency in the first, two in the second, one in the third and one
      in the last. */
  lemma DemoHistogram()
    ensures var ms := Millisecond;
      var h := Histogram([50 * ms, 120 * ms, 180 * ms, 220 * ms, 900 * ms], 100 * ms);
      && |h| == 10 && h[9].to == 1000 * ms
      && Counts(h) == [1, 2, 1, 0, 0, 0, 0, 0, 0, 1]
  {
    var ms := Millisecond;
    var ls := [50 * ms, 120 * ms, 180 * ms, 220 * ms, 900 * ms];
    assert MaxFromZero(ls) == 900 * ms;
    assert NumBuckets(ls, 100 * ms) == 10;
    DemoCounts();
  }

  lemma DemoCounts()
    ensures var ms := Millisecond;
      var ls := [50 * ms, 120 * ms, 180 * ms, 220 * ms, 900 * ms];
      BucketCounts(ls, 100 * ms, 10) == [1, 2, 1, 0, 0, 0, 0, 0, 0, 1]
  {
    var ms := Millisecond;
    var ls := [50 * ms, 120 * ms, 180 * ms, 220 * ms, 900 * ms];
    var size := 100 * ms;
    assert BucketIndex(ls[0], size, 10) == 0;
    assert BucketIndex(ls[1], size, 10) == 1;
    assert BucketIndex(ls[2], size, 10) == 1;
    assert BucketIndex(ls[3], size, 10) == 2;
    assert BucketIndex(ls[4], size, 10) == 9;
    assert ls[..4][..3][..2][..1] == [ls[0]] && ls[..4][..3][..2] == [ls[0], ls[1]];
    assert ls[..4][..3] == [ls[0], ls[1], ls[2]] && ls[..4] == [ls[0], ls[1], ls[2], ls[3]];
    assert BucketCounts([], size, 10) == [0, 0, 0, 0, 0, 0, 0, 0, 0, 0];
    assert BucketCounts([ls[0]], size, 10) == [1, 0, 0, 0, 0, 0, 0, 0, 0, 0];
    assert BucketCounts([ls[0], ls[1]], size, 10) == [1, 1, 0, 0, 0, 0, 0, 0, 0, 0];
    assert BucketCounts([ls[0], ls[1], ls[2]], size, 10) == [1, 2, 0, 0, 0, 0, 0, 0, 0, 0];
    assert BucketCounts(ls[..4], size, 10) == [1, 2, 1, 0, 0, 0, 0, 0, 0, 0];
  }
}
