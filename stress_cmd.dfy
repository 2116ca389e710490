/** The end of the stress test's `main`: the report of all results, with a
    histogram of 100 ms buckets attached in detailed mode. */
module StressCmd {
  import opened GoNum
  import opened Latencies
  import opened StressReport
  import opened StressHistogram

  const HistogramBucket: int := 100 * Millisecond

  lemma SortedKeepsElements(ds: seq<int>, lo: int)
    requires forall k :: 0 <= k < |ds| ==> ds[k] > lo
    ensures forall k :: 0 <= k < |SortAsc(ds)| ==> SortAsc(ds)[k] > lo
  {
    var s := SortAsc(ds);
    forall k | 0 <= k < |s|
      ensures s[k] > lo
    {
      assert s[k] in multiset(s);
      assert s[k] in multiset(ds);
      var j :| 0 <= j < |ds| && ds[j] == s[k];
    }
  }

  /** `CalculateReport` followed by the histogram rule: a histogram of the
      sorted latencies is attached only in detailed mode with latencies
      present, and then its counts add up to the number of requests. */
  method Summarize(results: seq<Result>, totalDuration: int, detailed: bool) returns (report: Report)
    requires |results| > 0
    requires detailed ==> forall k :: 0 <= k < |results| ==> results[k].duration > -HistogramBucket
    ensures report.totalRequests == |results|
    ensures report.latencies == if detailed then SortAsc(Durations(results)) else []
    ensures !detailed ==> report.histogram == []
    ensures detailed ==> Countable(report.latencies, HistogramBucket)
    ensures detailed ==> report.histogram == Histogram(report.latencies, HistogramBucket)
    ensures detailed ==> Sum(Counts(report.histogram)) == report.totalRequests
  {
    report := CalculateReport(results, totalDuration, detailed);
    if detailed {
      SortedKeepsElements(Durations(results), -HistogramBucket);
    }
    if detailed && |report.latencies| > 0 {
      var hist, _ := BuildHistogram(report.latencies, HistogramBucket);
      report := report.(histogram := hist);
      HistogramTotal(report.latencies, HistogramBucket);
    }
  }
}
