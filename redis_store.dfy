/** The Redis-backed store of the rate limiter. Redis itself is a keyspace
    of string keys to values with an optional absolute expiry instant, read
    against a logical clock `now` (nanoseconds) that each call receives.
    Counter keys are `rate:<key>` and block markers are `block:<key>`.
    Whether a round trip reaches the server is a `Link` parameter. */
module RedisStorage {
  import opened Wrappers
  import opened GoNum
  import opened Entity
  import Strconv

  /** A stored value: a number INCR can work on, or any other string. */
  datatype Value = Int(n: int) | Text(s: string)

  /** Redis holds a string that is the canonical decimal form of an int64
      as that integer, so an `Int` is within the int64 range and a `Text`
      is never such a form ("+5", "007", "-0" and "blocked" are `Text`). */
  ghost predicate ValidValue(v: Value)
  {
    match v
    case Int(n) => MinInt64 <= n <= MaxInt64
    case Text(s) => forall i :: MinInt64 <= i <= MaxInt64 ==> s != Strconv.FormatInt(i)
  }

  ghost predicate WellFormed(kv: Keyspace)
  {
    forall k :: k in kv ==> ValidValue(kv[k].val)
  }

  /** The integer go-redis's `Get(...).Int64()` reads from a value: its
      text through `strconv.ParseInt`, or nothing when that reports an
      error. */
  function ReadInt64(v: Value): (r: Option<int>)
    ensures r.Some? ==> MinInt64 <= r.value <= MaxInt64
  {
    match v
    case Int(n) => if MinInt64 <= n <= MaxInt64 then Some(n) else None
    case Text(s) => if Strconv.ParseIntError(s).None? then Some(Strconv.ParseInt(s)) else None
  }

  datatype Entry = Entry(val: Value, expiresAt: Option<int>)

  type Keyspace = map<string, Entry>

  /** The outcome of sending a command: delivered, or failed with a cause. */
  datatype Link = Up | Down(cause: string)

  datatype StoreError =
    | Unreachable(cause: string)
    | NotAnInteger(key: string)   // INCR or GET-as-integer on a non-number
    | Overflow(key: string)       // INCR past the int64 range

  /** The four operations of the repository interface, as issued. */
  datatype Call =
    | IncrementCall(key: string, window: int)
    | BlockCall(key: string, duration: int)
    | IsBlockedCall(key: string)
    | GetStateCall(key: string)

  /** go-redis `KeepTTL`: -1 nanosecond passed as a SET expiration. */
  const KeepTTL: int := -1

  const BlockedMarker: string := "blocked"

  function RateKey(key: string): string
  {
    "rate:" + key
  }

  function BlockKey(key: string): string
  {
    "block:" + key
  }

  /** A key exists at `now` when it was stored and its expiry, if any, is
      still in the future. An expired key reads as absent. */
  predicate Live(kv: Keyspace, k: string, now: int)
  {
    k in kv && (kv[k].expiresAt.None? || now < kv[k].expiresAt.value)
  }

  /** Whether a block marker for limiter key `key` exists at `now`. */
  predicate BlockedAt(kv: Keyspace, key: string, now: int)
  {
    Live(kv, BlockKey(key), now)
  }

  /** The counter a GET would read for limiter key `key`: 0 when absent. */
  function CountAt(kv: Keyspace, key: string, now: int): int
  {
    var rk := RateKey(key);
    if Live(kv, rk, now) && ReadInt64(kv[rk].val).Some? then ReadInt64(kv[rk].val).value else 0
  }

  /** Every key other than `k` is as it was. */
  predicate OthersUnchanged(kv: Keyspace, kv': Keyspace, k: string)
  {
    && (forall x :: x in kv' && x != k ==> x in kv && kv'[x] == kv[x])
    && (forall x :: x in kv && x != k ==> x in kv' && kv'[x] == kv[x])
  }

  datatype IncrOutcome = IncrOutcome(kv: Keyspace, count: Result<int, StoreError>)

  /** INCR on counter key `k`, followed by EXPIRE `window` when INCR
      answered 1. An expired or absent counter counts from 0 and carries no
      expiry until EXPIRE arms one; a live counter keeps its expiry. */
  function Incr(kv: Keyspace, k: string, window: int, now: int): (o: IncrOutcome)
    ensures OthersUnchanged(kv, o.kv, k)
    ensures WellFormed(kv) ==> WellFormed(o.kv)
    ensures o.count.Err? <==> Live(kv, k, now) && (kv[k].val.Text? || kv[k].val.n + 1 > MaxInt64)
    ensures o.count.Err? ==> o.count.error == if kv[k].val.Text? then NotAnInteger(k) else Overflow(k)
    ensures o.count.Err? ==> o.kv == kv
    ensures o.count.Ok? ==> k in o.kv && o.kv[k].val == Int(o.count.value) && o.count.value <= MaxInt64
    ensures o.count.Ok? && !Live(kv, k, now) ==> o.count.value == 1
    ensures o.count.Ok? && Live(kv, k, now) ==> kv[k].val.Int? && o.count.value == kv[k].val.n + 1
  {
    var base := if Live(kv, k, now) then kv[k] else Entry(Int(0), None);
    match base.val
    case Text(_) => IncrOutcome(kv, Err(NotAnInteger(k)))
    case Int(n) =>
      if n + 1 > MaxInt64 then IncrOutcome(kv, Err(Overflow(k)))
      else
        var expiry := if n + 1 == 1 then Some(now + window) else base.expiresAt;
        IncrOutcome(kv[k := Entry(Int(n + 1), expiry)], Ok(n + 1))
  }

  /** SET `k` "blocked" with go-redis's expiration rule: a positive duration
      expires after it; `KeepTTL` keeps the expiry of a live key; zero and
      every other negative duration store the key with no expiry. */
  function SetMarker(kv: Keyspace, k: string, d: int, now: int): (kv': Keyspace)
    ensures OthersUnchanged(kv, kv', k)
    ensures WellFormed(kv) ==> WellFormed(kv')
    ensures k in kv' && kv'[k].val == Text(BlockedMarker)
    ensures Live(kv', k, now)
  {
    MarkerIsText();
    var expiry :=
      if d > 0 then Some(now + d)
      else if d == KeepTTL && Live(kv, k, now) then kv[k].expiresAt
      else None;
    kv[k := Entry(Text(BlockedMarker), expiry)]
  }

  /** The marker is not the decimal form of any integer. */
  lemma MarkerIsText()
    ensures ValidValue(Text(BlockedMarker))
  {
    forall i | MinInt64 <= i <= MaxInt64
      ensures BlockedMarker != Strconv.FormatInt(i)
    {
      assert BlockedMarker[0] == 'b';
    }
  }

  /** The result of `Increment(key, window)` sent over `link`. */
  function IncrementCmd(kv: Keyspace, key: string, window: int, now: int, link: Link): IncrOutcome
  {
    if link.Down? then IncrOutcome(kv, Err(Unreachable(link.cause)))
    else Incr(kv, RateKey(key), window, now)
  }

  datatype WriteOutcome = WriteOutcome(kv: Keyspace, err: Option<StoreError>)

  /** The result of `Block(key, d)` sent over `link`. */
  function BlockCmd(kv: Keyspace, key: string, d: int, now: int, link: Link): WriteOutcome
  {
    if link.Down? then WriteOutcome(kv, Some(Unreachable(link.cause)))
    else WriteOutcome(SetMarker(kv, BlockKey(key), d, now), None)
  }

  /** The result of `IsBlocked(key)` sent over `link`: GET answering nil is
      "not blocked"; any value at all is "blocked". */
  function IsBlockedCmd(kv: Keyspace, key: string, now: int, link: Link): (r: Result<bool, StoreError>)
    ensures link.Up? <==> r.Ok?
    ensures r.Ok? ==> (r.value <==> BlockedAt(kv, key, now))
  {
    if link.Down? then Err(Unreachable(link.cause)) else Ok(BlockedAt(kv, key, now))
  }

  /** The result of `GetState(key)` sent over `link`: the counter read as an
      integer (0 when absent, an error when `ParseInt` rejects its text) and,
      when the marker has a positive remaining time to live, the instant it
      expires. */
  function GetStateCmd(kv: Keyspace, key: string, now: int, link: Link): (r: Result<RateLimit, StoreError>)
    ensures r.Ok? ==> r.value.key == key && r.value.count == CountAt(kv, key, now)
    ensures r.Ok? ==> (r.value.blockedUntil.Some? <==>
                         BlockedAt(kv, key, now) && kv[BlockKey(key)].expiresAt.Some?)
    ensures r.Ok? && r.value.blockedUntil.Some? ==> now < r.value.blockedUntil.value
    ensures r.Ok? && r.value.blockedUntil.Some? ==> r.value.blockedUntil == kv[BlockKey(key)].expiresAt
    ensures r.Err? <==> link.Down? || (Live(kv, RateKey(key), now) && ReadInt64(kv[RateKey(key)].val).None?)
  {
    if link.Down? then Err(Unreachable(link.cause))
    else
      var rk := RateKey(key);
      var bk := BlockKey(key);
      if Live(kv, rk, now) && ReadInt64(kv[rk].val).None? then Err(NotAnInteger(rk))
      else
        var until := if Live(kv, bk, now) && kv[bk].expiresAt.Some? then kv[bk].expiresAt else None;
        Ok(RateLimit(key, CountAt(kv, key, now), until))
  }

  /** `RedisRateLimiter`: a client of one Redis server. `kv` is the
      server's keyspace; `log` records the repository calls made on it, and
      `clock` the instant of the latest call: time never runs backwards, so
      an expired entry stays expired. */
  class RedisRateLimiter {
    const addr: string
    var kv: Keyspace
    ghost var log: seq<Call>
    ghost var clock: int

    /** The keyspace holds values as Redis holds them. */
    ghost predicate Valid()
      reads this
    {
      WellFormed(kv)
    }

    /** `NewRedisRateLimiter(addr)`: a client for the server at `addr`,
        whose keyspace holds whatever it holds at instant `start`. */
    constructor (addr: string, contents: Keyspace, ghost start: int)
      requires WellFormed(contents)
      ensures Valid()
      ensures this.addr == addr && kv == contents && log == [] && clock == start
    {
      this.addr := addr;
      kv := contents;
      log := [];
      clock := start;
    }

    method Increment(key: string, window: int, now: int, link: Link) returns (count: int, err: Option<StoreError>)
      requires Valid() && clock <= now
      modifies this
      ensures Valid() && clock == now
      ensures var o := IncrementCmd(old(kv), key, window, now, link);
        && kv == o.kv
        && (o.count.Ok? ==> count == o.count.value && err == None)
        && (o.count.Err? ==> count == 0 && err == Some(o.count.error))
      ensures log == old(log) + [IncrementCall(key, window)]
    {
      var o := IncrementCmd(kv, key, window, now, link);
      kv := o.kv;
      log := log + [IncrementCall(key, window)];
      clock := now;
      if o.count.Err? {
        return 0, Some(o.count.error);
      }
      return o.count.value, None;
    }

    method Block(key: string, blockDuration: int, now: int, link: Link) returns (err: Option<StoreError>)
      requires Valid() && clock <= now
      modifies this
      ensures Valid() && clock == now
      ensures var o := BlockCmd(old(kv), key, blockDuration, now, link);
        kv == o.kv && err == o.err
      ensures log == old(log) + [BlockCall(key, blockDuration)]
    {
      var o := BlockCmd(kv, key, blockDuration, now, link);
      kv := o.kv;
      log := log + [BlockCall(key, blockDuration)];
      clock := now;
      err := o.err;
    }

    method IsBlocked(key: string, now: int, link: Link) returns (blocked: bool, err: Option<StoreError>)
      requires Valid() && clock <= now
      modifies this
      ensures Valid() && clock == now
      ensures var r := IsBlockedCmd(old(kv), key, now, link);
        && (r.Ok? ==> blocked == r.value && err == None)
        && (r.Err? ==> !blocked && err == Some(r.error))
      ensures kv == old(kv) && log == old(log) + [IsBlockedCall(key)]
    {
      log := log + [IsBlockedCall(key)];
      clock := now;
      var r := IsBlockedCmd(kv, key, now, link);
      if r.Err? {
        return false, Some(r.error);
      }
      return r.value, None;
    }

    method GetState(key: string, now: int, link: Link) returns (r: Result<RateLimit, StoreError>)
      requires Valid() && clock <= now
      modifies this
      ensures Valid() && clock == now
      ensures r == GetStateCmd(old(kv), key, now, link)
      ensures kv == old(kv) && log == old(log) + [GetStateCall(key)]
    {
      log := log + [GetStateCall(key)];
      clock := now;
      r := GetStateCmd(kv, key, now, link);
    }
  }

  // ---------------------------------------------------------------------
  // Properties of the store

  /** Counter keys and block markers never collide, and each family is
      injective in the limiter key. */
  lemma KeyNamespaces(a: string, b: string)
    ensures RateKey(a) != BlockKey(b)
    ensures RateKey(a) == RateKey(b) <==> a == b
    ensures BlockKey(a) == BlockKey(b) <==> a == b
  {
    assert RateKey(a)[0] == 'r' && BlockKey(b)[0] == 'b';
    if RateKey(a) == RateKey(b) {
      assert a == RateKey(a)[5..] && b == RateKey(b)[5..];
    }
    if BlockKey(a) == BlockKey(b) {
      assert a == BlockKey(a)[6..] && b == BlockKey(b)[6..];
    }
  }

  /** An absent or expired counter answers 1 and arms the window from now. */
  lemma IncrementStartsWindow(kv: Keyspace, key: string, window: int, now: int)
    requires !Live(kv, RateKey(key), now)
    ensures var o := IncrementCmd(kv, key, window, now, Up);
      && o.count == Ok(1)
      && o.kv[RateKey(key)] == Entry(Int(1), Some(now + window))
  {
  }

  /** A live counter answers its previous value plus one, and the expiry it
      had is kept: only an answer of 1 arms the expiry. */
  lemma IncrementWithinWindow(kv: Keyspace, key: string, window: int, now: int)
    requires Live(kv, RateKey(key), now)
    requires kv[RateKey(key)].val.Int? && 1 <= kv[RateKey(key)].val.n < MaxInt64
    ensures var o := IncrementCmd(kv, key, window, now, Up);
      && o.count == Ok(kv[RateKey(key)].val.n + 1)
      && o.kv[RateKey(key)].expiresAt == kv[RateKey(key)].expiresAt
  {
  }

  /** Whatever it answers, a successful INCR changes the expiry only when it
      answers 1. */
  lemma ExpiryArmedOnlyAtOne(kv: Keyspace, key: string, window: int, now: int)
    requires Live(kv, RateKey(key), now)
    ensures var o := IncrementCmd(kv, key, window, now, Up);
      (o.count.Ok? && o.kv[RateKey(key)].expiresAt != kv[RateKey(key)].expiresAt) ==> o.count.value == 1
  {
  }

  /** A window's life: starting from no live counter, a second increment
      inside the window answers 2 and keeps the first expiry, and the first
      increment at or after the window's end answers 1 again. */
  lemma WindowLifecycle(kv: Keyspace, key: string, window: int, t0: int, t1: int, t2: int)
    requires !Live(kv, RateKey(key), t0) && window > 0
    requires t0 <= t1 < t0 + window <= t2
    ensures var o1 := IncrementCmd(kv, key, window, t0, Up);
      var o2 := IncrementCmd(o1.kv, key, window, t1, Up);
      var o3 := IncrementCmd(o2.kv, key, window, t2, Up);
      && o1.count == Ok(1) && o2.count == Ok(2) && o3.count == Ok(1)
      && o2.kv[RateKey(key)].expiresAt == Some(t0 + window)
      && o3.kv[RateKey(key)].expiresAt == Some(t2 + window)
  {
    var o1 := IncrementCmd(kv, key, window, t0, Up);
    assert o1.kv[RateKey(key)] == Entry(Int(1), Some(t0 + window));
    var o2 := IncrementCmd(o1.kv, key, window, t1, Up);
    assert Live(o1.kv, RateKey(key), t1);
    assert o2.kv[RateKey(key)] == Entry(Int(2), Some(t0 + window));
    assert !Live(o2.kv, RateKey(key), t2);
  }

  /** A block with a positive duration holds exactly until it elapses. */
  lemma BlockLastsItsDuration(kv: Keyspace, key: string, d: int, now: int, t: int)
    requires d > 0 && now <= t
    ensures var o := BlockCmd(kv, key, d, now, Up);
      o.err == None && (BlockedAt(o.kv, key, t) <==> t < now + d)
  {
  }

  /** A block with duration 0, or with any negative duration other than
      `KeepTTL`, never expires. */
  lemma NonPositiveBlockIsPermanent(kv: Keyspace, key: string, d: int, now: int, t: int)
    requires d <= 0 && d != KeepTTL
    ensures BlockedAt(BlockCmd(kv, key, d, now, Up).kv, key, t)
  {
  }

  /** A later block replaces an earlier one: only the last duration
      matters (unless it is `KeepTTL`, which inherits the live one). */
  lemma BlockOverwrites(kv: Keyspace, key: string, d1: int, d2: int, t1: int, t2: int)
    requires d2 != KeepTTL
    ensures BlockCmd(BlockCmd(kv, key, d1, t1, Up).kv, key, d2, t2, Up)
         == BlockCmd(kv, key, d2, t2, Up)
  {
  }

  /** Counters and markers are separate: a block leaves every count as it
      was, and an increment leaves every blocked status as it was. Both
      touch no key other than their own. */
  lemma NamespacesSeparate(kv: Keyspace, key: string, other: string, window: int, d: int, now: int, t: int)
    ensures CountAt(BlockCmd(kv, key, d, now, Up).kv, other, t) == CountAt(kv, other, t)
    ensures BlockedAt(IncrementCmd(kv, key, window, now, Up).kv, other, t) == BlockedAt(kv, other, t)
    ensures other != key ==> BlockedAt(BlockCmd(kv, key, d, now, Up).kv, other, t) == BlockedAt(kv, other, t)
    ensures other != key ==> CountAt(IncrementCmd(kv, key, window, now, Up).kv, other, t) == CountAt(kv, other, t)
  {
    KeyNamespaces(other, key);
    KeyNamespaces(key, other);
  }

  /** A failed round trip changes nothing. */
  lemma FailedCallsChangeNothing(kv: Keyspace, key: string, window: int, d: int, now: int, cause: string)
    ensures IncrementCmd(kv, key, window, now, Down(cause)) == IncrOutcome(kv, Err(Unreachable(cause)))
    ensures BlockCmd(kv, key, d, now, Down(cause)) == WriteOutcome(kv, Some(Unreachable(cause)))
  {
  }

  /** GET reads an integer and its canonical decimal text alike. */
  lemma IntegerTextReadsSame(n: int)
    requires MinInt64 <= n <= MaxInt64
    ensures ReadInt64(Text(Strconv.FormatInt(n))) == ReadInt64(Int(n)) == Some(n)
  {
    Strconv.ParseFormatRoundTrip(n);
  }

  /** On a well-formed keyspace an integer counter always reads back as
      itself, and INCR fails on it only at MaxInt64. */
  lemma WellFormedCounter(kv: Keyspace, key: string, window: int, now: int)
    requires WellFormed(kv) && Live(kv, RateKey(key), now) && kv[RateKey(key)].val.Int?
    ensures CountAt(kv, key, now) == kv[RateKey(key)].val.n
    ensures GetStateCmd(kv, key, now, Up).Ok?
    ensures IncrementCmd(kv, key, window, now, Up).count
         == if kv[RateKey(key)].val.n == MaxInt64 then Err(Overflow(RateKey(key)))
            else Ok(kv[RateKey(key)].val.n + 1)
  {
    assert ValidValue(kv[RateKey(key)].val);
  }

  /** GET after a successful INCR on a well-formed keyspace reads the count
      INCR answered, as long as the window is positive (EXPIRE with a
      non-positive window deletes the counter). */
  lemma IncrementThenRead(kv: Keyspace, key: string, window: int, now: int)
    requires WellFormed(kv) && window > 0
    requires IncrementCmd(kv, key, window, now, Up).count.Ok?
    ensures var o := IncrementCmd(kv, key, window, now, Up);
      && CountAt(o.kv, key, now) == o.count.value
      && GetStateCmd(o.kv, key, now, Up).Ok?
      && GetStateCmd(o.kv, key, now, Up).value.count == o.count.value
  {
    var o := IncrementCmd(kv, key, window, now, Up);
    var rk := RateKey(key);
    assert ValidValue(o.kv[rk].val);
    if Live(kv, rk, now) {
      assert ValidValue(kv[rk].val);
    }
    assert Live(o.kv, rk, now);
  }

  /** GET and INCR disagree on a counter holding "+5": `strconv.ParseInt`
      reads it as 5, while Redis INCR rejects the non-canonical text. */
  lemma SignedTextCounter(key: string, now: int)
    ensures var kv := map[RateKey(key) := Entry(Text("+5"), None)];
      && WellFormed(kv)
      && GetStateCmd(kv, key, now, Up) == Ok(RateLimit(key, 5, None))
      && IncrementCmd(kv, key, Second, now, Up).count == Err(NotAnInteger(RateKey(key)))
  {
    var kv := map[RateKey(key) := Entry(Text("+5"), None)];
    forall i | MinInt64 <= i <= MaxInt64
      ensures "+5" != Strconv.FormatInt(i)
    {
      assert "+5"[0] == '+';
    }
    assert Strconv.Unsigned("+5") == "5";
    assert "5"[1..] == [];
    assert Strconv.ParseUint("5") == Strconv.UintResult(5, None);
    KeyNamespaces(key, key);
  }

  /** A key that was never written reads as count 0 and not blocked. */
  lemma GetStateOfUnknownKey(key: string, now: int)
    ensures GetStateCmd(map[], key, now, Up) == Ok(RateLimit(key, 0, None))
  {
  }

  /** The counter outlives a shorter block: right after counting once in a
      window of `w` and blocking for `d < w`, the state shows count 1 and the
      block's end; once the block has expired but the window has not, the
      count is still 1 and the block is gone. */
  lemma CountOutlivesBlock(key: string, w: int, d: int, now: int, later: int)
    requires 0 < d < w && now + d <= later < now + w
    ensures var o := IncrementCmd(map[], key, w, now, Up);
      var b := BlockCmd(o.kv, key, d, now, Up);
      && GetStateCmd(b.kv, key, now, Up) == Ok(RateLimit(key, 1, Some(now + d)))
      && GetStateCmd(b.kv, key, later, Up) == Ok(RateLimit(key, 1, None))
  {
    var o := IncrementCmd(map[], key, w, now, Up);
    var b := BlockCmd(o.kv, key, d, now, Up);
    KeyNamespaces(key, key);
    assert b.kv[RateKey(key)] == Entry(Int(1), Some(now + w));
    assert b.kv[BlockKey(key)] == Entry(Text(BlockedMarker), Some(now + d));
  }
}
