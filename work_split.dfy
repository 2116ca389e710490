/** How the stress test divides its requests among its workers: every
    worker gets `requests / concurrency`, and the first
    `requests % concurrency` workers one more. */
module WorkSplit {
  import opened GoNum
  import opened Latencies

  /** Worker `i`'s share. Go's `/` and `%` truncate toward zero, which for a
      non-negative request count and a positive worker count is what `/` and
      `%` compute here. */
  function Share(requests: nat, concurrency: int, i: int): int
    requires concurrency > 0
  {
    requests / concurrency + (if i < requests % concurrency then 1 else 0)
  }

  function Shares(requests: nat, concurrency: int): (s: seq<int>)
    requires concurrency > 0
    ensures |s| == concurrency
  {
    seq(concurrency, i requires 0 <= i < concurrency => Share(requests, concurrency, i))
  }

  /** The loop in `main` computing each worker's `reqs`. The request count
      is the capacity of the results channel, which Go refuses to make
      negative; with no positive worker count the loop runs zero times. */
  method SplitRequests(requests: int, concurrency: int) returns (shares: seq<int>)
    requires requests >= 0
    ensures concurrency <= 0 ==> shares == []
    ensures concurrency > 0 ==> shares == Shares(requests, concurrency)
  {
    shares := [];
    var i := 0;
    while i < concurrency
      invariant concurrency > 0 ==> 0 <= i <= concurrency
      invariant concurrency <= 0 ==> i == 0
      invariant |shares| == i
      invariant forall j :: 0 <= j < |shares| ==> shares[j] == Share(requests, concurrency, j)
    {
      var reqs := requests / concurrency;
      if i < requests % concurrency {
        reqs := reqs + 1;
      }
      shares := shares + [reqs];
      i := i + 1;
    }
  }

  lemma {:induction false} SharesPrefixSum(requests: nat, concurrency: int, k: nat)
    requires concurrency > 0 && k <= concurrency
    ensures Sum(Shares(requests, concurrency)[..k])
         == k * (requests / concurrency) + Min(k, requests % concurrency)
  {
    var s := Shares(requests, concurrency);
    if k > 0 {
      SharesPrefixSum(requests, concurrency, k - 1);
      assert s[..k][..k - 1] == s[..k - 1];
      assert s[..k][k - 1] == Share(requests, concurrency, k - 1);
    }
  }

  /** The shares add up to exactly the requested number. */
  lemma SharesSum(requests: nat, concurrency: int)
    requires concurrency > 0
    ensures Sum(Shares(requests, concurrency)) == requests
  {
    SharesPrefixSum(requests, concurrency, concurrency);
    assert Shares(requests, concurrency)[..concurrency] == Shares(requests, concurrency);
  }

  /** Any two shares differ by at most one. */
  lemma SharesBalanced(requests: nat, concurrency: int)
    requires concurrency > 0
    ensures var s := Shares(requests, concurrency);
      forall i, j :: 0 <= i < concurrency && 0 <= j < concurrency ==> s[i] - s[j] <= 1
  {
  }

  /** Exactly the first `requests % concurrency` workers get the extra one. */
  lemma ExtraGoesToFirst(requests: nat, concurrency: int)
    requires concurrency > 0
    ensures var s := Shares(requests, concurrency);
      forall i :: 0 <= i < concurrency ==>
        (s[i] == requests / concurrency + 1 <==> i < requests % concurrency)
  {
  }
}
