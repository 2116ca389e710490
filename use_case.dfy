/** The admission engine of the rate limiter (`RateLimiterUseCase`): a
    fixed-window counter per key with blocking, over the Redis store. The
    pure `Decide` states what one `CheckAndIncrement` does to the store and
    answers; the class method is proved to do exactly that. */
module RateLimiterUseCase {
  import opened Wrappers
  import opened GoNum
  import opened Entity
  import opened RedisStorage

  /** The engine's settings; durations in nanoseconds. */
  datatype Policy = Policy(maxRequests: int, maxTokenReqs: int, window: int, blockDuration: int)

  /** Whether each of the three round trips of one request reaches Redis. */
  datatype Net = Net(isBlocked: Link, increment: Link, block: Link)

  const AllUp: Net := Net(Up, Up, Up)

  /** A non-empty token takes precedence over the client IP. */
  function ResolveKey(ip: string, token: string): string
  {
    if token != "" then "token:" + token else ip
  }

  function Quota(p: Policy, token: string): int
  {
    if token != "" then p.maxTokenReqs else p.maxRequests
  }

  function CallKey(c: Call): string
  {
    match c
    case IncrementCall(k, _) => k
    case BlockCall(k, _) => k
    case IsBlockedCall(k) => k
    case GetStateCall(k) => k
  }

  /** What one request does: whether it is admitted, the store error it
      reports, the keyspace afterwards and the store calls it made. */
  datatype Decision = Decision(allowed: bool, err: Option<StoreError>, kv: Keyspace, calls: seq<Call>)

  /** The request is admitted exactly when every call it makes succeeds, the
      key is not blocked and the incremented count is within the quota; a
      store error is reported and never admits. */
  function Decide(p: Policy, kv: Keyspace, ip: string, token: string, now: int, net: Net): (d: Decision)
    ensures d.err.Some? ==> !d.allowed
    ensures d.allowed <==>
      && net.isBlocked.Up? && !BlockedAt(kv, ResolveKey(ip, token), now)
      && var inc := IncrementCmd(kv, ResolveKey(ip, token), p.window, now, net.increment);
         inc.count.Ok? && inc.count.value <= Quota(p, token)
    ensures forall i :: 0 <= i < |d.calls| ==> CallKey(d.calls[i]) == ResolveKey(ip, token)
    ensures 1 <= |d.calls| <= 3 && d.calls[0].IsBlockedCall?
  {
    var key := ResolveKey(ip, token);
    var max := Quota(p, token);
    var checked := [IsBlockedCall(key)];
    match IsBlockedCmd(kv, key, now, net.isBlocked)
    case Err(e) => Decision(false, Some(e), kv, checked)
    case Ok(blocked) =>
      if blocked then Decision(false, None, kv, checked)
      else
        var inc := IncrementCmd(kv, key, p.window, now, net.increment);
        var counted := checked + [IncrementCall(key, p.window)];
        match inc.count
        case Err(e) => Decision(false, Some(e), inc.kv, counted)
        case Ok(count) =>
          if count > max then
            var b := BlockCmd(inc.kv, key, p.blockDuration, now, net.block);
            Decision(false, b.err, b.kv, counted + [BlockCall(key, p.blockDuration)])
          else Decision(true, None, inc.kv, counted)
  }

  class RateLimiterUseCase {
    const repo: RedisRateLimiter
    const maxRequests: int
    const maxTokenReqs: int
    const window: int
    const blockDuration: int

    /** `NewRateLimiterUseCase`. */
    constructor (repo: RedisRateLimiter, maxReq: int, maxToken: int, window: int, block: int)
      ensures this.repo == repo
      ensures CurrentPolicy() == Policy(maxReq, maxToken, window, block)
    {
      this.repo := repo;
      maxRequests := maxReq;
      maxTokenReqs := maxToken;
      this.window := window;
      blockDuration := block;
    }

    function CurrentPolicy(): Policy
    {
      Policy(maxRequests, maxTokenReqs, window, blockDuration)
    }

    method CheckAndIncrement(ip: string, token: string, now: int, net: Net) returns (allowed: bool, err: Option<StoreError>)
      requires repo.Valid() && repo.clock <= now
      modifies repo
      ensures repo.Valid() && repo.clock == now
      ensures var d := Decide(CurrentPolicy(), old(repo.kv), ip, token, now, net);
        && allowed == d.allowed && err == d.err
        && repo.kv == d.kv && repo.log == old(repo.log) + d.calls
    {
      var key := ResolveKey(ip, token);
      var max := Quota(CurrentPolicy(), token);
      var blocked, checkErr := repo.IsBlocked(key, now, net.isBlocked);
      if checkErr.Some? {
        return false, checkErr;
      }
      if blocked {
        return false, None;
      }
      var count, incErr := repo.Increment(key, window, now, net.increment);
      if incErr.Some? {
        return false, incErr;
      }
      if count > max {
        var blockErr := repo.Block(key, blockDuration, now, net.block);
        if blockErr.Some? {
          return false, blockErr;
        }
        return false, None;
      }
      return true, None;
    }

    method GetLimitState(ip: string, token: string, now: int, link: Link) returns (r: Result<RateLimit, StoreError>)
      requires repo.Valid() && repo.clock <= now
      modifies repo
      ensures repo.Valid() && repo.clock == now
      ensures r == GetStateCmd(old(repo.kv), ResolveKey(ip, token), now, link)
      ensures repo.kv == old(repo.kv)
      ensures repo.log == old(repo.log) + [GetStateCall(ResolveKey(ip, token))]
    {
      r := repo.GetState(ResolveKey(ip, token), now, link);
    }
  }

  // ---------------------------------------------------------------------
  // Properties of the engine

  /** A non-empty token picks the `token:` key and the token quota, and the
      IP then plays no part at all in the decision. */
  lemma TokenTakesPrecedence(p: Policy, kv: Keyspace, ip: string, ip': string, token: string, now: int, net: Net)
    requires token != ""
    ensures ResolveKey(ip, token) == "token:" + token && Quota(p, token) == p.maxTokenReqs
    ensures Decide(p, kv, ip, token, now, net) == Decide(p, kv, ip', token, now, net)
  {
  }

  /** Without a token the raw IP is the key and the IP quota applies. */
  lemma EmptyTokenUsesIp(p: Policy, ip: string)
    ensures ResolveKey(ip, "") == ip && Quota(p, "") == p.maxRequests
  {
  }

  /** An IP that is itself over its quota does not stop a token request
      that is within the token's quota. */
  lemma TokenAdmittedWhileIpOverLimit(p: Policy, kv: Keyspace, ip: string, token: string, now: int)
    requires token != "" && ip != ResolveKey(ip, token)
    requires CountAt(kv, ip, now) > p.maxRequests
    requires !BlockedAt(kv, ResolveKey(ip, token), now)
    requires !Live(kv, RateKey(ResolveKey(ip, token)), now) && p.maxTokenReqs >= 1
    ensures Decide(p, kv, ip, token, now, AllUp).allowed
  {
  }

  /** A failing block check is reported, and nothing else is called. */
  lemma BlockCheckFailure(p: Policy, kv: Keyspace, ip: string, token: string, now: int, net: Net)
    requires net.isBlocked.Down?
    ensures Decide(p, kv, ip, token, now, net)
         == Decision(false, Some(Unreachable(net.isBlocked.cause)), kv, [IsBlockedCall(ResolveKey(ip, token))])
  {
  }

  /** A blocked key is denied without an error, without counting and
      without a new block: the store is unchanged. */
  lemma BlockedIsDeniedUncounted(p: Policy, kv: Keyspace, ip: string, token: string, now: int, net: Net)
    requires net.isBlocked.Up? && BlockedAt(kv, ResolveKey(ip, token), now)
    ensures Decide(p, kv, ip, token, now, net)
         == Decision(false, None, kv, [IsBlockedCall(ResolveKey(ip, token))])
  {
  }

  /** A failing increment is reported and no block is issued. */
  lemma IncrementFailure(p: Policy, kv: Keyspace, ip: string, token: string, now: int, net: Net)
    requires net.isBlocked.Up? && !BlockedAt(kv, ResolveKey(ip, token), now)
    requires IncrementCmd(kv, ResolveKey(ip, token), p.window, now, net.increment).count.Err?
    ensures var key := ResolveKey(ip, token);
      var d := Decide(p, kv, ip, token, now, net);
      && !d.allowed
      && d.err == Some(IncrementCmd(kv, key, p.window, now, net.increment).count.error)
      && d.kv == kv
      && d.calls == [IsBlockedCall(key), IncrementCall(key, p.window)]
  {
  }

  /** Whenever the counter is incremented, it is with the resolved key and
      the engine's window. */
  lemma IncrementUsesWindow(p: Policy, kv: Keyspace, ip: string, token: string, now: int, net: Net)
    ensures var d := Decide(p, kv, ip, token, now, net);
      forall i :: 0 <= i < |d.calls| && d.calls[i].IncrementCall? ==>
        d.calls[i] == IncrementCall(ResolveKey(ip, token), p.window)
  {
  }

  /** A count strictly over the quota issues exactly one block, on the same
      key and for the engine's block duration, and denies; the block's own
      failure, if any, is what is reported. */
  lemma OverQuotaBlocksOnce(p: Policy, kv: Keyspace, ip: string, token: string, now: int, net: Net)
    requires net.isBlocked.Up? && !BlockedAt(kv, ResolveKey(ip, token), now)
    requires var inc := IncrementCmd(kv, ResolveKey(ip, token), p.window, now, net.increment);
      inc.count.Ok? && inc.count.value > Quota(p, token)
    ensures var key := ResolveKey(ip, token);
      var inc := IncrementCmd(kv, key, p.window, now, net.increment);
      var d := Decide(p, kv, ip, token, now, net);
      && !d.allowed
      && d.calls == [IsBlockedCall(key), IncrementCall(key, p.window), BlockCall(key, p.blockDuration)]
      && d.err == BlockCmd(inc.kv, key, p.blockDuration, now, net.block).err
      && (net.block.Up? ==> d.err == None && BlockedAt(d.kv, key, now))
  {
  }

  /** A count at or under the quota is admitted, the tie included, and
      no block is issued. */
  lemma WithinQuotaAdmitted(p: Policy, kv: Keyspace, ip: string, token: string, now: int, net: Net)
    requires net.isBlocked.Up? && !BlockedAt(kv, ResolveKey(ip, token), now)
    requires var inc := IncrementCmd(kv, ResolveKey(ip, token), p.window, now, net.increment);
      inc.count.Ok? && inc.count.value <= Quota(p, token)
    ensures var key := ResolveKey(ip, token);
      var d := Decide(p, kv, ip, token, now, net);
      && d.allowed && d.err == None
      && d.calls == [IsBlockedCall(key), IncrementCall(key, p.window)]
  {
  }

  /** The IP and token key spaces are disjoint as long as no IP begins with
      "token:" ... */
  lemma IpAndTokenKeysDisjoint(ip: string, ip': string, token: string)
    requires token != "" && !(|ip| >= 6 && ip[..6] == "token:")
    ensures ResolveKey(ip, "") != ResolveKey(ip', token)
  {
    var k := ResolveKey(ip', token);
    assert |k| >= 6 && k[..6] == "token:";
  }

  /** ... and an IP that does begins with it shares a token's counter. */
  lemma IpAndTokenKeysCanCollide()
    ensures ResolveKey("token:abc", "") == ResolveKey("10.0.0.1", "abc")
  {
  }

  /** `n` requests for one key at one instant, every call succeeding. */
  function Burst(p: Policy, kv: Keyspace, ip: string, token: string, now: int, n: nat): (r: (seq<bool>, Keyspace))
    ensures |r.0| == n
  {
    if n == 0 then ([], kv)
    else
      var prev := Burst(p, kv, ip, token, now, n - 1);
      var d := Decide(p, prev.1, ip, token, now, AllUp);
      (prev.0 + [d.allowed], d.kv)
  }

  /** The store after `j` requests of a one-instant burst for `key`. */
  ghost predicate BurstState(kv: Keyspace, key: string, now: int, j: nat, q: int)
  {
    && CountAt(kv, key, now) == Min(j, q + 1)
    && (BlockedAt(kv, key, now) <==> j > q)
    && (j == 0 ==> !Live(kv, RateKey(key), now))
    && (j > 0 ==> Live(kv, RateKey(key), now) && kv[RateKey(key)].val == Int(Min(j, q + 1)))
  }

  /** One more request of the burst: admitted exactly while `j < q`. */
  lemma BurstStep(p: Policy, kv: Keyspace, ip: string, token: string, now: int, j: nat)
    requires p.window > 0 && 0 <= Quota(p, token) < MaxInt64
    requires BurstState(kv, ResolveKey(ip, token), now, j, Quota(p, token))
    ensures var d := Decide(p, kv, ip, token, now, AllUp);
      && d.allowed == (j < Quota(p, token))
      && BurstState(d.kv, ResolveKey(ip, token), now, j + 1, Quota(p, token))
  {
    var key := ResolveKey(ip, token);
    var q := Quota(p, token);
    var d := Decide(p, kv, ip, token, now, AllUp);
    if j > q {
      assert d.kv == kv && !d.allowed;
    } else {
      var inc := IncrementCmd(kv, key, p.window, now, Up);
      assert inc.count == Ok(j + 1);
      KeyNamespaces(key, key);
      assert inc.kv[RateKey(key)].val == Int(j + 1);
      assert Live(inc.kv, RateKey(key), now);
      NamespacesSeparate(kv, key, key, p.window, p.blockDuration, now, now);
      if j + 1 > q {
        var b := BlockCmd(inc.kv, key, p.blockDuration, now, Up);
        assert d.kv == b.kv && !d.allowed;
        assert b.kv[RateKey(key)] == inc.kv[RateKey(key)];
      } else {
        assert d.kv == inc.kv && d.allowed;
      }
    }
  }

  /** Fixed window at one instant: from a key with no live counter and no
      block, exactly the first `quota` requests are admitted, the next one
      sets the block, and the counter stops at `quota + 1`. */
  lemma {:induction false} BurstAdmitsExactlyQuota(p: Policy, kv: Keyspace, ip: string, token: string, now: int, n: nat)
    requires p.window > 0 && 0 <= Quota(p, token) < MaxInt64
    requires !Live(kv, RateKey(ResolveKey(ip, token)), now) && !BlockedAt(kv, ResolveKey(ip, token), now)
    ensures var r := Burst(p, kv, ip, token, now, n);
      && (forall i :: 0 <= i < n ==> r.0[i] == (i < Quota(p, token)))
      && CountAt(r.1, ResolveKey(ip, token), now) == Min(n, Quota(p, token) + 1)
      && (BlockedAt(r.1, ResolveKey(ip, token), now) <==> n > Quota(p, token))
  {
    BurstInvariant(p, kv, ip, token, now, n);
  }

  lemma {:induction false} BurstInvariant(p: Policy, kv: Keyspace, ip: string, token: string, now: int, n: nat)
    requires p.window > 0 && 0 <= Quota(p, token) < MaxInt64
    requires !Live(kv, RateKey(ResolveKey(ip, token)), now) && !BlockedAt(kv, ResolveKey(ip, token), now)
    ensures var r := Burst(p, kv, ip, token, now, n);
      && (forall i :: 0 <= i < n ==> r.0[i] == (i < Quota(p, token)))
      && BurstState(r.1, ResolveKey(ip, token), now, n, Quota(p, token))
  {
    if n > 0 {
      BurstInvariant(p, kv, ip, token, now, n - 1);
      var prev := Burst(p, kv, ip, token, now, n - 1);
      BurstStep(p, prev.1, ip, token, now, n - 1);
      var d := Decide(p, prev.1, ip, token, now, AllUp);
      var r := Burst(p, kv, ip, token, now, n);
      assert r == (prev.0 + [d.allowed], d.kv);
      forall i | 0 <= i < n ensures r.0[i] == (i < Quota(p, token)) {
        if i < n - 1 {
          assert r.0[i] == prev.0[i];
        }
      }
    }
  }
}
