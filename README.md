# Rate limiter and stress-test metrics, modelled in Dafny

This project models two components of the `full-cycle-challenges`
repository and proves properties of them.

**The rate limiter** (`rate-limiter/`) is a fixed-window limiter with
blocking. A request is keyed by its API token, or by its client IP when no
token is given. The use case first asks the store whether the key is blocked.
If it is not, it increments the key's counter for the current window, and
blocks the key once the count is strictly above the quota. The store is
Redis:

- counters live under `rate:<key>` and get their expiry when INCR answers 1;
- block markers live under `block:<key>` and are written with SET and a
  duration.

The model holds Redis as a keyspace of strings to values with an optional
absolute expiry instant. Every operation reads that keyspace against a
logical clock `now` in nanoseconds that never runs backwards: the store
keeps the instant of its latest call as ghost state, and every call must pass
a `now` no earlier than it. Whether each round trip reaches the
server is a `Link` parameter. The store is a class (`RedisRateLimiter`)
whose `kv` field the methods update. A ghost `log` records which repository
calls were made. The use case (`RateLimiterUseCase`) is a class over that
store. The pure function `Decide` states what one `CheckAndIncrement` does
to the store and what it answers, and the method is proved equal to it. The
properties are lemmas about `Decide` and the store functions. Configuration
loading (`config.Load`) is a function of an environment map, with Go's
`strconv.ParseInt` and int64 `time.Duration` arithmetic written out.

**The stress-test metrics** (`stress-test/` and its first version
`Stress-Test/`) cover:

- the report over all request results: the status counts, the successes,
  and min/max/mean after an in-place sort;
- the latency histogram;
- the integer mean and percentile helpers;
- the rule that splits N requests over C workers.

The loops stay loops, the sort and the histogram buckets stay arrays, and
each method is proved against a specification function. The properties
(counts add up, buckets tile the range, shares balance) are proved about
those functions.

Durations are integers of nanoseconds. Go's truncating division is
`GoNum.Quo`, and int64 wrap-around is `GoNum.Wrap64` where the model uses
it.

Some behaviour of the code as written is worth knowing. The model states
each of these:

- A block with duration 0 never expires (`RedisStorage.NonPositiveBlockIsPermanent`).
  go-redis sends SET without an expiry for a zero duration. An unset
  `BLOCK_DURATION_SECONDS` therefore blocks an offending key for good. A
  test in the repository that expected otherwise is commented out.
- A `WINDOW_SECONDS` value large enough to overflow the int64 nanosecond
  product can yield a zero window (`RateLimiterConfig.WindowCanWrapToZero`).
- The raw IP is itself the key when there is no token. An IP string
  starting with `token:` shares a token's counter
  (`RateLimiterUseCase.IpAndTokenKeysCanCollide`). The key spaces are
  disjoint only without such IPs (`RateLimiterUseCase.IpAndTokenKeysDisjoint`).
- In the histogram, the clamp to the last bucket never fires, because every
  latency is at most the maximum the bucket count is computed from. This
  holds for negative latencies above `-bucketSize` too
  (`StressHistogram.ClampNeverFires`). A non-negative latency also lies
  inside its bucket's range (`StressHistogram.EveryLatencyInItsBucket`).
- The means are computed from a `time.Duration` running total that wraps
  around past the int64 range. Once the exact total overflows, the mean can
  fall outside the latencies' range: two latencies of MaxInt64 give a mean
  of -1 (`LegacyTester.MeanWrapsOnOverflow`).

## Model

| member | source | states |
|---|---|---|
| `RateLimiterConfig.Load` | rate-limiter/internal/config/config.go:17-37 | every numeric setting is an int64 value (parse errors ignored, durations wrapped as int64) and the Redis address is never empty |
| `RateLimiterConfig.WindowRule` | rate-limiter/internal/config/config.go:20-23 | a window parsed as exactly 0 (unset, unparsable or "0") becomes 1 s; any other value whose nanoseconds fit in int64, negative ones included, is that many seconds |
| `RateLimiterConfig.BlockDurationRule` | rate-limiter/internal/config/config.go:24-34 | the block duration is the parsed number of seconds, 0 included, without defaulting, whenever its nanoseconds fit in int64 |
| `RateLimiterConfig.WindowCanWrapToZero` | rate-limiter/internal/config/config.go:33 | WINDOW_SECONDS = 2^55 is a valid int64, yet the nanosecond product wraps to a zero window |
| `RateLimiterConfig.RedisAddrRule` | rate-limiter/internal/config/config.go:25-28 | the address defaults to localhost:6379 exactly when the variable is empty, and is copied verbatim otherwise |
| `RateLimiterConfig.UnparsableNumbersAreZero` | rate-limiter/internal/config/config.go:18-24 | an unset or non-numeric quota or block variable of at most 19 characters reads as 0, and such a window variable as 1 s |
| `RateLimiterConfig.LoadAllVariables` | rate-limiter/internal/config/config_test.go:11-23 | "3", "7", "3", "600", "test:6379" load as quotas 3 and 7, 3 s, 600 s and that address |
| `RateLimiterConfig.LoadOneVariable` | rate-limiter/internal/config/config_test.go:25-33 | with only the IP quota set, the window is 1 s and the address the default |
| `Strconv.ParseInt` | rate-limiter/internal/config/config.go:18 | base-10 parsing always yields an int64 value (its error cases are stated by `Strconv.UnparsableIsZero` and `Strconv.OutOfRangeClamps`) |
| `Strconv.ParseFormatRoundTrip` | rate-limiter/internal/config/config.go:18-20 | parsing the decimal form of any int64 gives that number back, without error |
| `Strconv.OutOfRangeClamps` | rate-limiter/internal/config/config.go:18-20 | a decimal literal above MaxInt64 (below MinInt64) is a range error whose value is MaxInt64 (MinInt64) |
| `Strconv.UnparsableIsZero` | rate-limiter/internal/config/config.go:18-24 | a string of at most 19 characters that is not a decimal literal is a syntax error and reads as 0 |
| `Strconv.ParseIntError` | rate-limiter/pkg/storage/redis_rate_limiter.go:58 | the error `strconv.ParseInt` reports: none only for a decimal literal, a syntax error only with value 0, a range error only with value MaxInt64 or MinInt64 |
| `RedisStorage.ReadInt64` | rate-limiter/pkg/storage/redis_rate_limiter.go:58 | go-redis `Int64()` on a stored value: an integer or a text `ParseInt` accepts reads as a number within int64; anything else is an error |
| `GoNum.Wrap64` | rate-limiter/internal/config/config.go:33-34 | the int64 result of a Duration product is congruent to the true product modulo 2^64, and equal to it when it fits |
| `GoNum.WrapAdd` | stress-test/internal/report.go:54-56 | adding to a wrapped Duration total gives the wrap of the exact total, so an accumulation loop holds `Wrap64` of the sum |
| `RedisStorage.Incr` | rate-limiter/pkg/storage/redis_rate_limiter.go:28-34 | INCR leaves every other key alone and keeps the keyspace well-formed; on success it answers 1 for an absent or expired counter and the previous value plus one for a live one; INCR errs exactly when the live counter is text (NotAnInteger) or already MaxInt64 (Overflow), and then changes nothing |
| `RedisStorage.SetMarker` | rate-limiter/pkg/storage/redis_rate_limiter.go:40 | SET writes the "blocked" marker, touches no other key, keeps the keyspace well-formed, and the marker exists right after |
| `RedisStorage.IsBlockedCmd` | rate-limiter/pkg/storage/redis_rate_limiter.go:43-52 | the answer is an error exactly when the round trip fails, and otherwise "blocked" exactly when the marker exists at that instant |
| `RedisStorage.GetStateCmd` | rate-limiter/pkg/storage/redis_rate_limiter.go:54-79 | the snapshot carries the key and the live count as `strconv.ParseInt` reads it (0 when absent); BlockedUntil is set exactly when the marker exists with an expiry, and is then that expiry, in the future; errors exactly on a failed round trip or a live counter whose text `ParseInt` rejects |
| `RedisStorage.RedisRateLimiter.constructor` | rate-limiter/pkg/storage/redis_rate_limiter.go:19-24 | a client of the given address over the server's keyspace, whose values are as Redis holds them (integers within int64, other text never a canonical integer), at a starting instant, with no calls made yet; every method keeps that keyspace well-formed |
| `RedisStorage.RedisRateLimiter.Increment` | rate-limiter/pkg/storage/redis_rate_limiter.go:26-36 | the new keyspace and the answer are those of INCR with EXPIRE on `rate:key`; on error the count is 0 and nothing changes; the call's instant is no earlier than the previous one and becomes the store's clock |
| `RedisStorage.RedisRateLimiter.Block` | rate-limiter/pkg/storage/redis_rate_limiter.go:38-41 | the new keyspace is the old one with the marker written under `block:key` with the duration's expiry; the call's instant is no earlier than the previous one and becomes the store's clock |
| `RedisStorage.RedisRateLimiter.IsBlocked` | rate-limiter/pkg/storage/redis_rate_limiter.go:43-52 | answers whether the marker exists, or (false, error); the keyspace is unchanged; the call's instant is no earlier than the previous one and becomes the store's clock |
| `RedisStorage.RedisRateLimiter.GetState` | rate-limiter/pkg/storage/redis_rate_limiter.go:54-79 | answers the snapshot `GetStateCmd` describes; the keyspace is unchanged; the call's instant is no earlier than the previous one and becomes the store's clock |
| `RedisStorage.KeyNamespaces` | rate-limiter/pkg/storage/redis_rate_limiter.go:27-44 | a counter key never equals a marker key, and each family is injective in the limiter key |
| `RedisStorage.IncrementStartsWindow` | rate-limiter/pkg/storage/redis_rate_limiter.go:28-34 | with no live counter, Increment answers 1 and arms the expiry at now + window |
| `RedisStorage.IncrementWithinWindow` | rate-limiter/pkg/storage/redis_rate_limiter_test.go:104-115 | with a live counter n where 1 <= n < MaxInt64, Increment answers n + 1 and keeps the counter's expiry |
| `RedisStorage.ExpiryArmedOnlyAtOne` | rate-limiter/pkg/storage/redis_rate_limiter.go:32-34 | a successful Increment that changes the counter's expiry answered 1 |
| `RedisStorage.WindowLifecycle` | rate-limiter/pkg/storage/redis_rate_limiter_test.go:13-33 | first increment 1, a second within the window 2 with the first expiry kept, the first after the window 1 again with a new expiry |
| `RedisStorage.BlockLastsItsDuration` | rate-limiter/pkg/storage/redis_rate_limiter_test.go:35-55 | after Block(k, d) with d > 0, k is blocked at instant t exactly when t < now + d |
| `RedisStorage.NonPositiveBlockIsPermanent` | rate-limiter/pkg/storage/redis_rate_limiter.go:40 | after Block(k, d) with d = 0 or d negative other than KeepTTL, k stays blocked at every instant |
| `RedisStorage.BlockOverwrites` | rate-limiter/pkg/storage/redis_rate_limiter.go:39-40 | a second Block replaces the first: the keyspace equals that of the second alone, unless the second duration is KeepTTL, which keeps the first block's expiry |
| `RedisStorage.NamespacesSeparate` | rate-limiter/pkg/storage/redis_rate_limiter.go:27-40 | Block changes no count, Increment changes no blocked status, and each leaves other limiter keys' counts and blocks alone |
| `RedisStorage.FailedCallsChangeNothing` | rate-limiter/pkg/storage/redis_rate_limiter.go:28-41 | a failed round trip of Increment or Block reports the failure and leaves the keyspace unchanged |
| `RedisStorage.IntegerTextReadsSame` | rate-limiter/pkg/storage/redis_rate_limiter.go:58 | GET's `Int64()` reads an int64 and its canonical decimal text as the same number |
| `RedisStorage.WellFormedCounter` | rate-limiter/pkg/storage/redis_rate_limiter.go:28-34 | on a well-formed keyspace a live integer counter n reads back as n, GET succeeds, and INCR answers n + 1 or, only at MaxInt64, Overflow (never NotAnInteger) |
| `RedisStorage.IncrementThenRead` | rate-limiter/pkg/storage/redis_rate_limiter.go:28-62 | on a well-formed keyspace with a positive window, GET right after a successful INCR reads the count INCR answered |
| `RedisStorage.SignedTextCounter` | rate-limiter/pkg/storage/redis_rate_limiter.go:28-58 | a counter holding "+5" reads as count 5 through `ParseInt`, while INCR rejects it as not an integer |
| `RedisStorage.GetStateOfUnknownKey` | rate-limiter/pkg/storage/redis_rate_limiter_test.go:57-66 | a key never written reads as count 0 and no BlockedUntil |
| `RedisStorage.CountOutlivesBlock` | rate-limiter/pkg/storage/redis_rate_limiter_test.go:134-152 | after one increment and a shorter block, the state shows count 1 and the block's end; after the block expires, count 1 and no block |
| `RateLimiterUseCase.Decide` | rate-limiter/internal/usecase/rate_limiter.go:29-57 | a request is admitted exactly when the block check succeeds and finds no block and the increment succeeds within the quota; an error never admits; every call made uses the resolved key, the block check first |
| `RateLimiterUseCase.RateLimiterUseCase.constructor` | rate-limiter/internal/usecase/rate_limiter.go:19-27 | the use case holds the given store, quotas, window and block duration |
| `RateLimiterUseCase.RateLimiterUseCase.CheckAndIncrement` | rate-limiter/internal/usecase/rate_limiter.go:29-57 | the answer, the error, the new keyspace and the calls made are exactly those of `Decide` |
| `RateLimiterUseCase.RateLimiterUseCase.GetLimitState` | rate-limiter/internal/usecase/rate_limiter.go:59-65 | answers the store's snapshot for the same resolved key as CheckAndIncrement, and changes nothing |
| `RateLimiterUseCase.TokenTakesPrecedence` | rate-limiter/internal/usecase/rate_limiter.go:30-35 | a non-empty token selects `token:`+token and the token quota, and the IP then has no influence on the decision |
| `RateLimiterUseCase.EmptyTokenUsesIp` | rate-limiter/internal/usecase/rate_limiter.go:30-31 | without a token the key is the raw IP and the quota the IP quota |
| `RateLimiterUseCase.TokenAdmittedWhileIpOverLimit` | rate-limiter/internal/usecase/rate_limiter_test.go:52-58 | a token request on a token with no live counter and a quota of at least 1 is admitted although the IP's own count is over the IP quota |
| `RateLimiterUseCase.BlockCheckFailure` | rate-limiter/internal/usecase/rate_limiter.go:37-40 | a failing block check gives (false, err), calls neither Increment nor Block, and changes nothing |
| `RateLimiterUseCase.BlockedIsDeniedUncounted` | rate-limiter/internal/usecase/rate_limiter.go:41-43 | a blocked key gives (false, nil) without Increment or Block, and the store is unchanged |
| `RateLimiterUseCase.IncrementFailure` | rate-limiter/internal/usecase/rate_limiter.go:45-48 | a failing Increment gives (false, err) and no Block is issued |
| `RateLimiterUseCase.IncrementUsesWindow` | rate-limiter/internal/usecase/rate_limiter.go:45 | every Increment call uses the resolved key and the use case's window |
| `RateLimiterUseCase.OverQuotaBlocksOnce` | rate-limiter/internal/usecase/rate_limiter.go:49-54 | a count strictly over the quota issues exactly one Block, on the same key for the block duration, and denies with Block's error if any; after a successful Block the key is blocked |
| `RateLimiterUseCase.WithinQuotaAdmitted` | rate-limiter/internal/usecase/rate_limiter.go:49-56 | a count at or below the quota, equality included, gives (true, nil) and issues no Block |
| `RateLimiterUseCase.IpAndTokenKeysDisjoint` | rate-limiter/internal/usecase/rate_limiter.go:30-35 | an IP that does not start with "token:" never shares a key with a token |
| `RateLimiterUseCase.IpAndTokenKeysCanCollide` | rate-limiter/internal/usecase/rate_limiter.go:30-33 | the IP "token:abc" and the token "abc" share one key |
| `RateLimiterUseCase.BurstAdmitsExactlyQuota` | rate-limiter/internal/usecase/rate_limiter.go:37-56 | of n requests at one instant on a fresh key, exactly the first `quota` are admitted; the count stops at quota + 1 and the key is blocked exactly when n > quota |
| `Latencies.SortAsc` | stress-test/internal/report.go:47-49 | the ascending order is sorted and a permutation of the latencies |
| `Latencies.SortedPermutationUnique` | stress-test/internal/report.go:47-49 | any two ascending permutations of the same latencies are equal, so every correct sort gives `SortAsc` |
| `SortSlice.Sort` | stress-test/internal/report.go:47-49 | the array is sorted in place into `SortAsc` of its old contents |
| `Latencies.Least` | stress-test/internal/report.go:51 | the least latency is one of them and no latency is smaller |
| `Latencies.Greatest` | stress-test/internal/report.go:52 | the greatest latency is one of them and no latency is larger |
| `Latencies.SortedEnds` | Stress-Test/cmd/main.go:72-77 | after sorting, the first element is the least latency and the last the greatest |
| `Latencies.SumPermutation` | stress-test/internal/report.go:53-56 | the total does not depend on the order, so summing the sorted slice gives the total of the results |
| `GoNum.Quo` | stress-test/internal/report.go:57 | Go's truncating division: the remainder is smaller than the divisor and has the dividend's sign |
| `Latencies.MeanWithinRange` | stress-test/internal/report.go:53-57 | the truncated mean of the exact total of a non-empty list lies between its least and greatest element; the report uses it when that total fits in int64 |
| `StressReport.CountStatus` | stress-test/internal/report.go:39-43 | the count of a status is at most the number of results, and 0 exactly when no result has it |
| `StressReport.TallyCounts` | stress-test/internal/report.go:35-40 | a status has an entry exactly when some result has it, and the entry is the number of results with that status |
| `StressReport.TallyTotal` | Stress-Test/cmd/main.go:64-70 | summed once over each distinct status, the status counts give the number of results |
| `StressReport.Collect` | stress-test/internal/report.go:39-45 | the loop's status map is the tally, its success count the number of 200s, and its latencies the durations in order |
| `StressReport.Total` | stress-test/internal/report.go:54-56 | the accumulation loop computes the total of the latencies, wrapped to int64 as a Duration |
| `StressReport.CalculateReport` | stress-test/internal/report.go:34-79 | total and success counts, status tally, least/greatest latency, truncated mean of the wrapped total (between the least and greatest when the exact total fits in int64), and the sorted latencies exactly in detailed mode |
| `StressHistogram.MaxFromZero` | stress-test/internal/histogram.go:14-19 | the scan's result is at least 0 and every latency, and is 0 or a latency |
| `StressHistogram.MaxLatency` | stress-test/internal/histogram.go:14-19 | the loop computes `MaxFromZero` |
| `StressHistogram.BucketIndex` | stress-test/internal/histogram.go:30-33 | the clamped quotient is a valid bucket number |
| `StressHistogram.EmptyBuckets` | stress-test/internal/histogram.go:21-27 | bucket i spans [i*size, i*size + size) with count 0 |
| `StressHistogram.CountInto` | stress-test/internal/histogram.go:29-35 | each bucket's count becomes the number of latencies mapped to it, ranges unchanged |
| `StressHistogram.RenderText` | stress-test/internal/histogram.go:37-41 | the text is the header followed by one line per bucket, in order |
| `StressHistogram.BuildHistogram` | stress-test/internal/histogram.go:9-44 | no buckets and "No latencies recorded" for no latencies; otherwise the buckets of `Histogram` and their rendering |
| `StressHistogram.HistogramShape` | Stress-Test/cmd/main.go:158-174 | there are max/size + 1 buckets of width size, contiguous and non-overlapping, from 0 |
| `StressHistogram.BucketCountsTotal` | stress-test/internal/histogram.go:29-35 | each latency increments exactly one count, so the counts sum to the number of latencies |
| `StressHistogram.HistogramTotal` | Stress-Test/cmd/main.go:177-183 | the bucket counts of the histogram sum to the number of latencies |
| `StressHistogram.CountsAreIndexMultiplicities` | stress-test/internal/histogram.go:29-35 | bucket i's count is the number of latencies whose bucket number is i |
| `StressHistogram.EveryLatencyInItsBucket` | stress-test/internal/histogram.go:21-34 | a non-negative latency's bucket is latency/size unclamped, and its range contains the latency |
| `StressHistogram.ClampNeverFires` | stress-test/internal/histogram.go:14-33 | every countable latency, negative ones included, is counted at its truncated quotient: the clamp to the last bucket never applies |
| `WorkSplit.SplitRequests` | stress-test/cmd/main.go:30-37 | one share per worker as requests/concurrency plus one for the first requests%concurrency; no workers when concurrency <= 0 |
| `WorkSplit.SharesSum` | Stress-Test/cmd/main.go:212-219 | the shares add up to exactly the number of requests |
| `WorkSplit.SharesBalanced` | stress-test/cmd/main.go:32-35 | any two shares differ by at most one |
| `WorkSplit.ExtraGoesToFirst` | stress-test/cmd/main.go:33-35 | a worker gets the extra request exactly when its index is below requests%concurrency |
| `StressCmd.Summarize` | stress-test/cmd/main.go:48-53 | the histogram of 100 ms buckets over the sorted latencies is attached exactly in detailed mode, and its counts then sum to the number of requests |
| `LegacyTester.CalcMean` | Stress-Test/internal/tester.go:113-119 | the mean is the truncated quotient of the int64-wrapped total by the count, and lies between the least and greatest latency when the exact total fits in int64 |
| `LegacyTester.MeanWrapsOnOverflow` | Stress-Test/internal/tester.go:114-118 | two latencies of MaxInt64 wrap the total to -2 and give a mean of -1, below every latency |
| `LegacyTester.Percentile` | Stress-Test/internal/tester.go:121-130 | 0 for no latencies, otherwise one of the latencies |
| `LegacyTester.PercentileEnds` | Stress-Test/internal/tester.go:125-129 | p >= 100 gives the last element; p*n below 100 gives the first |
| `LegacyTester.PercentileMonotone` | Stress-Test/internal/tester.go:125-129 | on sorted latencies a larger p never gives a smaller percentile |
| `LegacyCmd.CalculateReport` | Stress-Test/cmd/main.go:59-105 | counts, tally summing to the number of results, min and max as the ends of the sorted latencies, the truncated mean of the wrapped total (between them when the exact total fits in int64), latencies only in detailed mode |
| `LegacyCmd.DemoHistogram` | Stress-Test/cmd/main.go:233-241 | 50, 120, 180, 220 and 900 ms in 100 ms buckets give ten buckets up to 1 s counting 1, 2, 1, 0, 0, 0, 0, 0, 0, 1 |

## Left out

- The HTTP layer: the middleware that extracts the client IP and the
  `API_KEY` header and maps decisions to status codes, and the server's
  `main`, which pings Redis and wires the use case. That `main` passes a
  fixed one-second window rather than the configured one, so the
  configured window is not modelled as reaching the engine.
- `RateLimiterRepository`: the four-method interface is represented by its
  one implementation, `RedisStorage.RedisRateLimiter`, because the model
  has no interfaces.
- Redis concurrency and atomicity. The store is one sequential object, and
  each `CheckAndIncrement` reads one instant `now` for all its calls. The
  INCR/EXPIRE pair is not atomic in the source.
- RedisStorage.RedisRateLimiter.Increment: the EXPIRE that follows an INCR
  answering 1 is assumed to succeed. The source ignores its error, and a
  failed EXPIRE would leave a counter without expiry.
- RedisStorage.RedisRateLimiter.Increment: go-redis sends EXPIRE in whole
  seconds, and a positive window under one second as 1 s. The model arms the
  expiry at exactly now + window.
- RedisStorage.SetMarker: SET's PX/EX choice and its rounding to
  milliseconds or seconds are not modelled. A positive duration expires
  after exactly that long.
- RedisStorage.GetStateCmd: Redis answers TTL rounded to whole seconds, so a
  marker with less than half a second left reads as TTL 0 and a zero
  BlockedUntil. The model reports the exact expiry instant. The wall-clock
  `time.Now()` and the Redis clock are one logical clock here.
- Redis values are either integers or other strings. Other Redis types
  (lists, hashes) and the GET WRONGTYPE error are not modelled. INCR
  accepts exactly the canonical int64 decimals (held as `Int`), while GET's
  `Int64()` also accepts signed or zero-padded text such as "+5" or "007".
- `Stress-Test/cmd/main.go`: `BuildHistogram` (lines 152-193) and the
  worker split (lines 212-219) are the same code as
  `stress-test/internal/histogram.go:9-44` and `stress-test/cmd/main.go:30-37`.
  `StressHistogram.BuildHistogram` and `WorkSplit.SplitRequests` model both
  copies.
- The load generators: `Worker`, `worker` and `RunLoadTest`. They perform
  HTTP requests and goroutine/channel fan-out, and are not modelled.
- P95 and P99: their index uses float64 products (`len*0.95`, `len*0.99`),
  and the model omits both fields. With exactly one result that index is
  int(0.95) - 1 = -1 and Go panics. The model's report needs only one
  result, so it is defined there.
- StressHistogram.BuildHistogram: the int64 products `i*bucketSize` are not
  wrapped. Latencies at or below `-bucketSize` are excluded by the
  precondition, because Go panics on the negative index they produce.
- LegacyTester.Percentile: the int product `p*len` is not wrapped.
- Report printing (`PrintReport`, `printReport`, JSON and CSV output) and
  the `%v` formatting of histogram lines. Each line is kept as the bucket it
  shows.
- `sort.Slice`'s own algorithm (pattern-defeating quicksort). `SortSlice.Sort`
  sorts by insertion instead. Because an ascending permutation is unique,
  both leave the same slice.
- Client-Server-API, Multithreading and Clean-Architecture. These are HTTP
  and database plumbing, external CEP API races, and CRUD services over
  libraries, and none of them is modelled.
