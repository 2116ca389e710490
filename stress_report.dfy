/** The stress test's summary of a run (`CalculateReport`): request and
    success counts, a count per HTTP status, and the smallest, largest and
    mean latency; the latencies themselves, sorted, only in detailed mode. */
module StressReport {
  import opened GoNum
  import opened Latencies
  import SortSlice

  /** One request's outcome: its HTTP status and how long it took (ns). */
  datatype Result = Result(statusCode: int, duration: int)

  /** A histogram bucket: latencies in [from, to) (ns). */
  datatype Bucket = Bucket(from: int, to: int, count: int)

  /** `Report`; the P95 and P99 fields are not part of the model. */
  datatype Report = Report(
    totalRequests: int,
    successCount: int,
    statusCodes: map<int, int>,
    duration: int,
    latencies: seq<int>,
    min: int,
    max: int,
    mean: int,
    histogram: seq<Bucket>)

  const StatusOK: int := 200

  /** How many results carry status `code`. */
  function CountStatus(rs: seq<Result>, code: int): (c: nat)
    ensures c <= |rs|
    ensures c == 0 <==> forall i :: 0 <= i < |rs| ==> rs[i].statusCode != code
  {
    if rs == [] then 0
    else CountStatus(rs[..|rs| - 1], code) + (if rs[|rs| - 1].statusCode == code then 1 else 0)
  }

  function Durations(rs: seq<Result>): (ds: seq<int>)
    ensures |ds| == |rs| && forall i :: 0 <= i < |rs| ==> ds[i] == rs[i].duration
  {
    seq(|rs|, i requires 0 <= i < |rs| => rs[i].duration)
  }

  /** The status map after `statusCodes[r.StatusCode]++` for every result
      in order; a missing key reads as 0. */
  function Tally(rs: seq<Result>): map<int, int>
  {
    if rs == [] then map[]
    else
      var m := Tally(rs[..|rs| - 1]);
      var c := rs[|rs| - 1].statusCode;
      m[c := (if c in m then m[c] else 0) + 1]
  }

  /** The distinct status codes of `rs`, in order of first appearance. */
  function Codes(rs: seq<Result>): seq<int>
  {
    if rs == [] then []
    else
      var cs := Codes(rs[..|rs| - 1]);
      var c := rs[|rs| - 1].statusCode;
      if c in cs then cs else cs + [c]
  }

  ghost predicate Distinct(cs: seq<int>)
  {
    forall i, j :: 0 <= i < j < |cs| ==> cs[i] != cs[j]
  }

  ghost predicate KeysCover(m: map<int, int>, cs: seq<int>)
  {
    forall i :: 0 <= i < |cs| ==> cs[i] in m
  }

  /** The sum of `m`'s values at the keys `cs`. */
  function TotalOver(m: map<int, int>, cs: seq<int>): int
    requires KeysCover(m, cs)
  {
    if cs == [] then 0 else TotalOver(m, cs[..|cs| - 1]) + m[cs[|cs| - 1]]
  }

  /** Every status seen has an entry holding exactly the number of results
      with that status; no other status has one. */
  lemma {:induction false} TallyCounts(rs: seq<Result>)
    ensures forall c :: c in Tally(rs) <==> CountStatus(rs, c) > 0
    ensures forall c :: c in Tally(rs) ==> Tally(rs)[c] == CountStatus(rs, c)
  {
    if rs != [] {
      TallyCounts(rs[..|rs| - 1]);
    }
  }

  lemma {:induction false} CodesAreKeys(rs: seq<Result>)
    ensures Distinct(Codes(rs))
    ensures forall c :: c in Codes(rs) <==> c in Tally(rs)
  {
    if rs != [] {
      CodesAreKeys(rs[..|rs| - 1]);
    }
  }

  lemma {:induction false} TotalOverOther(m: map<int, int>, cs: seq<int>, c: int, v: int)
    requires KeysCover(m, cs)
    requires c !in cs
    ensures TotalOver(m[c := v], cs) == TotalOver(m, cs)
  {
    if cs != [] {
      TotalOverOther(m, cs[..|cs| - 1], c, v);
    }
  }

  lemma {:induction false} TotalOverBump(m: map<int, int>, cs: seq<int>, c: int)
    requires KeysCover(m, cs)
    requires Distinct(cs) && c in cs
    ensures TotalOver(m[c := m[c] + 1], cs) == TotalOver(m, cs) + 1
  {
    var init := cs[..|cs| - 1];
    if cs[|cs| - 1] == c {
      assert c !in init;
      TotalOverOther(m, init, c, m[c] + 1);
    } else {
      assert c in init;
      TotalOverBump(m, init, c);
    }
  }

  /** The status counts add up to the number of results: each result is
      counted under exactly one status. */
  lemma {:induction false} TallyTotal(rs: seq<Result>)
    ensures KeysCover(Tally(rs), Codes(rs))
    ensures forall c :: c in Codes(rs) <==> c in Tally(rs)
    ensures TotalOver(Tally(rs), Codes(rs)) == |rs|
  {
    CodesAreKeys(rs);
    if rs != [] {
      var init := rs[..|rs| - 1];
      TallyTotal(init);
      TallyStep(init, rs[|rs| - 1]);
      assert rs == init + [rs[|rs| - 1]];
    }
  }

  /** One more result adds one to the total over the distinct codes. */
  lemma TallyStep(init: seq<Result>, r: Result)
    requires KeysCover(Tally(init), Codes(init))
    ensures KeysCover(Tally(init + [r]), Codes(init + [r]))
    ensures TotalOver(Tally(init + [r]), Codes(init + [r])) == TotalOver(Tally(init), Codes(init)) + 1
  {
    var rs := init + [r];
    assert rs[..|rs| - 1] == init;
    var c := r.statusCode;
    CodesAreKeys(init);
    CodesAreKeys(rs);
    var m := Tally(init);
    if c in Codes(init) {
      assert Codes(rs) == Codes(init);
      TotalOverBump(m, Codes(init), c);
    } else {
      assert Codes(rs) == Codes(init) + [c];
      TotalOverOther(m, Codes(init), c, 1);
      assert Codes(rs)[..|Codes(rs)| - 1] == Codes(init);
    }
  }

  /** The loop over the results: status counts, successes, and the
      latencies copied out in order. */
  method Collect(results: seq<Result>) returns (statusCodes: map<int, int>, successCount: int, latencies: array<int>)
    ensures fresh(latencies)
    ensures statusCodes == Tally(results)
    ensures successCount == CountStatus(results, StatusOK)
    ensures latencies[..] == Durations(results)
  {
    statusCodes := map[];
    successCount := 0;
    latencies := new int[|results|];
    var k := 0;
    while k < |results|
      invariant 0 <= k <= |results|
      invariant statusCodes == Tally(results[..k])
      invariant successCount == CountStatus(results[..k], StatusOK)
      invariant latencies[..k] == Durations(results[..k])
    {
      assert results[..k + 1][..k] == results[..k];
      var r := results[k];
      statusCodes := statusCodes[r.statusCode := (if r.statusCode in statusCodes then statusCodes[r.statusCode] else 0) + 1];
      if r.statusCode == StatusOK {
        successCount := successCount + 1;
      }
      latencies[k] := r.duration;
      k := k + 1;
    }
    assert results[..k] == results;
  }

  /** The `mean += l` loop: the total of the latencies, kept in a
      `time.Duration` and so wrapped around past the int64 range. */
  method Total(latencies: array<int>) returns (total: int)
    ensures total == Wrap64(Sum(latencies[..]))
  {
    total := 0;
    var k := 0;
    while k < latencies.Length
      invariant 0 <= k <= latencies.Length
      invariant total == Wrap64(Sum(latencies[..k]))
    {
      assert latencies[..k + 1] == latencies[..k] + [latencies[k]];
      SumAppend(latencies[..k], latencies[k]);
      WrapAdd(Sum(latencies[..k]), latencies[k]);
      total := Wrap64(total + latencies[k]);
      k := k + 1;
    }
    assert latencies[..k] == latencies[..];
  }

  /** `CalculateReport`; Go indexes the first latency unguarded, so there
      must be at least one result. */
  method CalculateReport(results: seq<Result>, totalDuration: int, detailed: bool) returns (report: Report)
    requires |results| > 0
    ensures report.totalRequests == |results|
    ensures report.successCount == CountStatus(results, StatusOK)
    ensures report.statusCodes == Tally(results)
    ensures report.duration == totalDuration
    ensures report.min == Least(Durations(results)) && report.max == Greatest(Durations(results))
    ensures report.mean == Quo(Wrap64(Sum(Durations(results))), |results|)
    ensures MinInt64 <= Sum(Durations(results)) <= MaxInt64 ==> report.min <= report.mean <= report.max
    ensures report.latencies == if detailed then SortAsc(Durations(results)) else []
    ensures report.histogram == []
  {
    var statusCodes, successCount, latencies := Collect(results);
    ghost var unsorted := latencies[..];
    SortSlice.Sort(latencies);
    SortedEnds(unsorted);
    var n := latencies.Length;
    var min := latencies[0];
    var max := latencies[n - 1];
    var mean := Total(latencies);
    SumPermutation(latencies[..], unsorted);
    mean := Quo(mean, n);
    MeanWithinRange(unsorted);
    report := Report(|results|, successCount, statusCodes, totalDuration, [], min, max, mean, []);
    if detailed {
      report := report.(latencies := latencies[..]);
    }
  }
}
