/** Configuration loading of the rate limiter (`config.Load`): five
    environment variables become the quotas, the window and block durations,
    and the Redis address. The process environment is a map parameter; an
    unset variable reads as the empty string, as `os.Getenv` returns it. */
module RateLimiterConfig {
  import opened GoNum
  import opened Strconv

  datatype Config = Config(
    maxRequests: int,
    maxTokenRequests: int,
    window: int,          // nanoseconds
    blockDuration: int,   // nanoseconds
    redisAddr: string)

  type Environment = map<string, string>

  const DefaultRedisAddr: string := "localhost:6379"

  function Getenv(env: Environment, name: string): string
  {
    if name in env then env[name] else ""
  }

  /** `config.Load`. Parse errors are discarded, so an unset or malformed
      number reads as whatever `ParseInt` returns with its error. A window of
      exactly 0 seconds becomes 1 second; seconds are scaled to nanoseconds
      in int64 arithmetic. */
  function Load(env: Environment): (c: Config)
    ensures MinInt64 <= c.maxRequests <= MaxInt64
    ensures MinInt64 <= c.maxTokenRequests <= MaxInt64
    ensures MinInt64 <= c.window <= MaxInt64
    ensures MinInt64 <= c.blockDuration <= MaxInt64
    ensures c.redisAddr != ""
  {
    var maxReq := ParseInt(Getenv(env, "MAX_REQUESTS_PER_SECOND"));
    var maxToken := ParseInt(Getenv(env, "MAX_TOKEN_REQUESTS_PER_SECOND"));
    var windowSec := ParseInt(Getenv(env, "WINDOW_SECONDS"));
    var windowSec := if windowSec == 0 then 1 else windowSec;
    var blockSec := ParseInt(Getenv(env, "BLOCK_DURATION_SECONDS"));
    var redisAddr := Getenv(env, "REDIS_ADDR");
    var redisAddr := if redisAddr == "" then DefaultRedisAddr else redisAddr;
    Config(maxReq, maxToken, Wrap64(windowSec * Second), Wrap64(blockSec * Second), redisAddr)
  }

  /** Seconds that fit in an int64 count of nanoseconds. */
  predicate FitsAsDuration(sec: int)
  {
    -9_223_372_036 <= sec <= 9_223_372_036
  }

  /** The window is the configured number of seconds; only exactly 0 (which
      includes unset and unparsable) is replaced by one second, so a negative
      window is kept as it is. */
  lemma WindowRule(env: Environment)
    ensures var sec := ParseInt(Getenv(env, "WINDOW_SECONDS"));
      && (sec == 0 ==> Load(env).window == Second)
      && (sec != 0 && FitsAsDuration(sec) ==> Load(env).window == sec * Second)
  {
  }

  /** The block duration is the configured number of seconds, 0 included. */
  lemma BlockDurationRule(env: Environment)
    ensures var sec := ParseInt(Getenv(env, "BLOCK_DURATION_SECONDS"));
      FitsAsDuration(sec) ==> Load(env).blockDuration == sec * Second
  {
  }

  /** A seconds value past the int64 range of nanoseconds wraps around: a
      window of 2^55 seconds, a valid int64, becomes a zero window although
      zero is what the defaulting rule means to exclude. */
  lemma WindowCanWrapToZero()
    ensures Load(map["WINDOW_SECONDS" := FormatInt(36_028_797_018_963_968)]).window == 0
  {
    ParseFormatRoundTrip(36_028_797_018_963_968);
  }

  /** The Redis address defaults only when the variable is empty; any other
      value is used verbatim. */
  lemma RedisAddrRule(env: Environment)
    ensures Getenv(env, "REDIS_ADDR") == "" ==> Load(env).redisAddr == DefaultRedisAddr
    ensures Getenv(env, "REDIS_ADDR") != "" ==> Load(env).redisAddr == env["REDIS_ADDR"]
  {
  }

  /** Unset or unparsable numeric variables read as 0 (a value short enough
      to be rejected before any overflow is seen). */
  lemma UnparsableNumbersAreZero(env: Environment)
    ensures var s := Getenv(env, "MAX_REQUESTS_PER_SECOND");
      !IsDecimalLiteral(s) && |s| <= 19 ==> Load(env).maxRequests == 0
    ensures var s := Getenv(env, "MAX_TOKEN_REQUESTS_PER_SECOND");
      !IsDecimalLiteral(s) && |s| <= 19 ==> Load(env).maxTokenRequests == 0
    ensures var s := Getenv(env, "BLOCK_DURATION_SECONDS");
      !IsDecimalLiteral(s) && |s| <= 19 ==> Load(env).blockDuration == 0
    ensures var s := Getenv(env, "WINDOW_SECONDS");
      !IsDecimalLiteral(s) && |s| <= 19 ==> Load(env).window == Second
  {
    var names := ["MAX_REQUESTS_PER_SECOND", "MAX_TOKEN_REQUESTS_PER_SECOND",
                  "BLOCK_DURATION_SECONDS", "WINDOW_SECONDS"];
    forall i | 0 <= i < |names| && !IsDecimalLiteral(Getenv(env, names[i])) && |Getenv(env, names[i])| <= 19
      ensures ParseInt(Getenv(env, names[i])) == 0
    {
      UnparsableIsZero(Getenv(env, names[i]));
    }
    assert names[0] == "MAX_REQUESTS_PER_SECOND" && names[1] == "MAX_TOKEN_REQUESTS_PER_SECOND";
    assert names[2] == "BLOCK_DURATION_SECONDS" && names[3] == "WINDOW_SECONDS";
  }

  /** All five variables set: the values used verbatim, durations scaled. */
  lemma LoadAllVariables()
    ensures Load(map[
      "MAX_REQUESTS_PER_SECOND" := "3",
      "MAX_TOKEN_REQUESTS_PER_SECOND" := "7",
      "WINDOW_SECONDS" := "3",
      "BLOCK_DURATION_SECONDS" := "600",
      "REDIS_ADDR" := "test:6379"])
      == Config(3, 7, 3 * Second, 600 * Second, "test:6379")
  {
    ParseFormatRoundTrip(3);
    ParseFormatRoundTrip(7);
    ParseFormatRoundTrip(600);
    assert FormatInt(600) == "600";
  }

  /** Only the IP quota set: the window and address take their defaults. */
  lemma LoadOneVariable()
    ensures Load(map["MAX_REQUESTS_PER_SECOND" := "4"])
      == Config(4, 0, Second, 0, DefaultRedisAddr)
  {
    ParseFormatRoundTrip(4);
  }
}
