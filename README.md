# promise-http-client, modelled in Dafny

This project models the core of `bohanyang/promise-http-client`, a PHP library
that wraps a Symfony HTTP client in Guzzle-style promises and adds a retrying
client on top. The model covers five parts.

- **Delay strategies** (`DelayStrategy`, `DelayStrategyFacts`). These are the
  nodes `ConstantDelay`, `ExponentialBackOff`, `IncrementalBackOff`,
  `RetryAfterHeader`, `DelayCap`, `DelayJitter` and `DelayStrategyChain`.
  - A strategy is a tree of `Strategy` nodes.
  - The relation `Possible(s, count, response, env, d)` holds every result one
    `getDelay` call may give. The jitter node's `mt_rand` draw is the only
    source of choice.
  - `GetDelay` is one recursive call, proved to give a possible result.
  - The constructors' argument checks are the `New…` functions.
  - `CreateDefault` is the default chain.
- **The `Retry-After` header** (`RetryAfterHeader`, `PhpStrings`). PHP's
  `trim`, its `(int)` cast and `(string)` of an integer are written out. The
  date parser and the clock are the `Env` parameter.
- **The default retry policy** (`RetryStrategy`). It retries a list of status
  codes and every transport exception except an invalid argument.
- **The retry driver of `RetryableHttpClient`** (`RetryableHttpClient`,
  `RetryFacts`). `doRequest`, `onFulfilled`, `onRejected` and `doRetry` are
  mutually recursive functions.
  - The inner client is a script from retry count to outcome.
  - The delay strategy is a function from (count, response) to a delay.
  - A `Run` is the final outcome plus every issuance made, with its options.
- **The promise pool, `WaitLoop` and `PromiseHttpClient`** (`Pool`,
  `Multiplexer`, `MultiplexerFacts`, `PromiseClient`, `StackFacts`). These are
  classes whose methods update the pool in place.
  - The pool records which responses are in flight and the state of each
    response's promise.
  - The wait loop consumes a script of chunk sequences, one per `stream` call.
  - `PromiseHttpClient.request` strips the `delay` option, attaches the
    response and applies the delay.

PHP semantics the model spells out:

- `round` rounds half away from zero (`PhpMath.Round`).
- `**` takes an integer exponent, and a negative exponent divides
  (`PhpMath.Pow`).
- A `null` neighbour counts as 0 in the jitter arithmetic.
- `mt_rand` on an empty range raises. `DelayJitter` can produce one, for
  example over a fallthrough `DelayCap` whose neighbour abstains while the
  inner delay is large. This result is `DrawFailed`. It escapes through
  `DelayCap` and `DelayStrategyChain`. Inside the retry handlers it rejects
  the request, modelled as `Rejected(RangeError)`.
- `['delay' => $d] + $options` keeps the left-hand `delay`.

A caller's `delay` option is not only applied to the first issuance. A retry
whose own delay is null or 0 keeps the options of the issuance before it
(`src/RetryableHttpClient.php:115-123`), including a caller's `delay`, so that
retry is postponed again (`RetryFacts.CallerDelayRepeats`).

An idle timeout of 0 switches the duration check off (`src/WaitLoop.php:73`
tests `$idleTimeout` for truth). With a positive maximum duration and an idle
timeout of 0, every `stream` call gets idle timeout 0 and `wait` returns only
once the pool is empty or the target is settled, however long that takes
(`MultiplexerFacts.ZeroIdleKeepsWaiting`).

The interface's doc comment says counts start at 1. `DelayJitter` still asks
its inner strategy for `count - 1`, which is 0 on the first retry, so no
strategy requires `count >= 1`.

## Model

| member | source | states |
|---|---|---|
| DelayStrategy.NewConstantDelay | src/DelayStrategy/ConstantDelay.php:16-25 | the constructor succeeds exactly when the delay is null or not negative, and then builds that constant |
| DelayStrategy.NewExponentialBackOff | src/DelayStrategy/ExponentialBackOff.php:19-35 | the constructor succeeds exactly when the initial delay is not negative and the multiplier is at least 1 |
| DelayStrategy.NewIncrementalBackOff | src/DelayStrategy/IncrementalBackOff.php:16-25 | the constructor succeeds exactly when the initial delay is not negative |
| DelayStrategy.NewDelayCap | src/DelayStrategy/DelayCap.php:22-33 | the constructor succeeds exactly when the maximum is not negative, keeping the inner strategy and the fallthrough flag |
| DelayStrategy.NewDelayJitter | src/DelayStrategy/DelayJitter.php:19-29 | the constructor succeeds exactly when the factor lies in [0, 1] |
| DelayStrategy.CreateDefault | src/DelayStrategy/DelayStrategyChain.php:36-48 | the default chain satisfies every constructor's parameter check |
| DelayStrategy.CapDelay | src/DelayStrategy/DelayCap.php:38-51 | a capped delay never exceeds the maximum; it is the inner delay, or the maximum when the inner one was larger and fallthrough is off; it abstains exactly when the inner one did, or was larger with fallthrough on; an exception passes through |
| DelayStrategy.HeaderDelay | src/DelayStrategy/RetryAfterHeader.php:15-30 | reading the header never raises |
| DelayStrategy.GetDelay | src/DelayStrategy/DelayStrategyChain.php:23-34 | one `getDelay` call, every node included (the chain's search is a loop), gives a result the strategy's meaning allows |
| DelayStrategyFacts.ConstantIgnoresArguments | src/DelayStrategy/ConstantDelay.php:30-33 | a constant's result is the same for every count, response and clock; it abstains exactly when configured with null; a delay equals the configured value and is not negative |
| DelayStrategyFacts.ExponentialNonNegative | src/DelayStrategy/ExponentialBackOff.php:40-45 | an exponential back-off is never negative, at any count |
| DelayStrategyFacts.ExponentialNonDecreasing | src/DelayStrategy/ExponentialBackOff.php:40-45 | an exponential back-off does not decrease as the count grows |
| DelayStrategyFacts.ExponentialFirstRetry | src/DelayStrategy/ExponentialBackOff.php:42-44 | at count 1 the back-off is the initial delay |
| DelayStrategyFacts.ExponentialExamples | tests/DelayStrategyTest.php:21-26 | the four (initial, multiplier, count) triples of the source's test data give 0, 3, 2645 and 4096 |
| DelayStrategyFacts.IncrementalStep | src/DelayStrategy/IncrementalBackOff.php:30-33 | an incremental back-off always gives a delay, and consecutive counts differ by exactly the initial delay |
| DelayStrategyFacts.IncrementalExamples | tests/DelayStrategyTest.php:37-40 | 500 ms incremental gives 500 at count 1 and 1000 at count 2 |
| DelayStrategyFacts.CapOverConstant | src/DelayStrategy/DelayCap.php:38-51 | a cap over a constant gives exactly the capped constant, whatever the count and response |
| DelayStrategyFacts.CapExamples | tests/DelayStrategyTest.php:51-58 | the six caps of the source's test data, including a maximum of 0, give exactly the expected results |
| DelayStrategyFacts.CapInner | src/DelayStrategy/DelayCap.php:38-51 | every capped result is the cap of a result the inner strategy gives for the same count and response |
| DelayStrategyFacts.JitterBounds | src/DelayStrategy/DelayJitter.php:37-41 | when the neighbours bracket the delay, the range's ends lie between the neighbours and bracket the delay |
| DelayStrategyFacts.JitterAbstainsWithInner | src/DelayStrategy/DelayJitter.php:34-45 | the jitter node abstains exactly when its inner strategy abstains at the count |
| DelayStrategyFacts.JitterAbstainsOnlyWithInner | src/DelayStrategy/DelayJitter.php:36-44 | an abstaining jitter node had an abstaining inner strategy |
| DelayStrategyFacts.JitterFactorZero | src/DelayStrategy/DelayJitter.php:39-41 | with factor 0 every delay drawn is a delay the inner strategy gives at the count |
| DelayStrategyFacts.JitterDrawBetween | src/DelayStrategy/DelayJitter.php:37-41 | with ordered neighbours the draw lies between the neighbouring delays and cannot fail |
| DelayStrategyFacts.JitterRangeNonEmpty | src/DelayStrategy/DelayJitter.php:34-45 | over an inner strategy that does not decrease around the count, the draw never fails unless the inner strategy raised, and each delay lies between neighbouring inner delays |
| DelayStrategyFacts.JitterOverExponential | src/DelayStrategy/DelayJitter.php:34-45 | jitter over an exponential back-off gives exactly the integers of the computed range |
| DelayStrategyFacts.ExponentialNeighbours | src/DelayStrategy/ExponentialBackOff.php:40-45 | the back-offs at count - 1, count and count + 1 are ordered and not negative |
| DelayStrategyFacts.HundredDoubling | tests/DelayStrategyTest.php:112-119 | 100 ms doubling gives 50, 100, 200, 400, 800 and 1600 at counts 0 to 5 |
| DelayStrategyFacts.JitterTwentyPercent | tests/DelayStrategyTest.php:112-128 | jitter 0.2 over 100 ms doubling at count 1 gives exactly the delays 90 to 120 |
| DelayStrategyFacts.JitterOnePercent | tests/DelayStrategyTest.php:112-128 | jitter 0.01 over 100 ms doubling at count 2 gives exactly the delays 199 to 202 |
| DelayStrategyFacts.JitterNoneAtAll | tests/DelayStrategyTest.php:112-128 | jitter 0 over 100 ms doubling at count 3 gives exactly 400 |
| DelayStrategyFacts.JitterFullRange | tests/DelayStrategyTest.php:112-128 | jitter 1 over 100 ms doubling at count 4 gives exactly the delays 400 to 1600 |
| DelayStrategyFacts.PossibleIsTotal | src/DelayStrategy/DelayStrategyChain.php:23-34 | every valid strategy has a result for every count, response and clock |
| DelayStrategyFacts.ChainChild | src/DelayStrategy/DelayStrategyChain.php:25-31 | each child the chain asks gets the chain's own count and response, and the search goes on exactly when it abstains |
| DelayStrategyFacts.ChainPassesAbstainer | src/DelayStrategy/DelayStrategyChain.php:28-30 | a child that always abstains leaves the search's result unchanged |
| DelayStrategyFacts.ChainSkipsAbstainers | src/DelayStrategy/DelayStrategyChain.php:25-31 | a run of abstaining first children is skipped |
| DelayStrategyFacts.ChainOfAbstainers | src/DelayStrategy/DelayStrategyChain.php:33 | a chain of abstainers, the empty chain included, abstains and gives nothing else |
| DelayStrategyFacts.ChainFirstDecides | src/DelayStrategy/DelayStrategyChain.php:25-31 | after abstainers, the first child that never abstains decides the chain's result |
| DelayStrategyFacts.PrependAbstainer | src/DelayStrategy/DelayStrategyChain.php:28-30 | putting an abstaining child in front does not change the chain's results |
| DelayStrategyFacts.DefaultBackOffDelays | src/DelayStrategy/DelayStrategyChain.php:43-45 | the default jittered back-off always gives a delay that is not negative |
| DelayStrategyFacts.DefaultBackOffCapped | src/DelayStrategy/DelayStrategyChain.php:41-46 | the default's second child always gives a delay in [0, 5000] |
| DelayStrategyFacts.DefaultUsesHeader | src/DelayStrategy/DelayStrategyChain.php:39-40 | a header delay of at most 10 seconds is the default chain's only result |
| DelayStrategyFacts.DefaultFallsBack | src/DelayStrategy/DelayStrategyChain.php:39-46 | without a header delay, or with one above 10 seconds, the default chain gives exactly what the capped back-off gives |
| DelayStrategyFacts.DefaultAlwaysDelays | src/DelayStrategy/DelayStrategyChain.php:36-48 | the default chain never abstains or raises, gives at most 10000 ms, and without a response gives a delay in [0, 5000] |
| RetryAfterHeader.RetryAfterMillis | src/DelayStrategy/RetryAfterHeader.php:15-30 | there is an answer only for a response that has the header, and it is a whole number of seconds in milliseconds |
| RetryAfterHeader.CanonicalSeconds | src/DelayStrategy/RetryAfterHeader.php:33-40 | a natural number in decimal, padded with `trim`'s characters, reads as itself |
| RetryAfterHeader.CanonicalHeader | src/DelayStrategy/RetryAfterHeader.php:20-25 | a padded decimal first header value gives that many seconds as milliseconds |
| RetryAfterHeader.NegativeNeverParsedAsDate | src/DelayStrategy/RetryAfterHeader.php:37 | a value whose cast is negative gives no answer, whatever the clock and date parser |
| RetryAfterHeader.NonNumericParsedAsDate | src/DelayStrategy/RetryAfterHeader.php:42-46 | any other value with a non-negative cast is read as a date: the signed distance from now, not clamped at 0, or no answer |
| RetryAfterHeader.NotAFixdate | src/DelayStrategy/RetryAfterHeader.php:42 | PHP's parser of the IMF-fixdate layout refuses an empty value and a value starting with a digit, as its day-name token needs a word |
| RetryAfterHeader.ZeroExample | tests/DelayStrategyTest.php:88 | "0" reads as 0 seconds |
| RetryAfterHeader.PaddedTwoExample | tests/DelayStrategyTest.php:89 | " 2 " reads as 2 seconds |
| RetryAfterHeader.FractionRefused | src/DelayStrategy/RetryAfterHeader.php:35-46 | a decimal fraction such as "2.1" gives no answer |
| RetryAfterHeader.NegativeRefused | src/DelayStrategy/RetryAfterHeader.php:35-37 | a padded negative integer gives no answer |
| RetryAfterHeader.ZeroHeaderExample | tests/DelayStrategyTest.php:88 | the header "0" gives 0 ms |
| RetryAfterHeader.PaddedHeaderExample | tests/DelayStrategyTest.php:89 | the header " 2 " gives 2000 ms |
| RetryAfterHeader.FractionHeaderExample | tests/DelayStrategyTest.php:90 | the header "2.1" gives no answer |
| RetryAfterHeader.NegativeHeaderExample | tests/DelayStrategyTest.php:91 | the header "-1" gives no answer |
| RetryAfterHeader.DateExamples | tests/DelayStrategyTest.php:94-98 | a letter-led date one second ahead gives 1000 ms, and a letter-led date the parser refuses (a zone word other than GMT) gives no answer |
| RetryAfterHeader.DigitLedRefused | src/DelayStrategy/RetryAfterHeader.php:35-46 | under a parser whose day-name token needs a word, a value made of a decimal number and then a non-digit, such as an ISO-style date, is no canonical integer, goes to the date parser, and gives no answer |
| RetryAfterHeader.IsoDateExample | tests/DelayStrategyTest.php:99 | the `Y-m-d H:i:s` date followed by " GMT" gives no answer |
| PhpStrings.DecimalRoundTrip | src/DelayStrategy/RetryAfterHeader.php:35-38 | the `(int)` cast of an integer's decimal form gives the integer back |
| PhpStrings.DecimalInjective | src/DelayStrategy/RetryAfterHeader.php:38 | two naturals with the same decimal form are equal |
| PhpStrings.CastStopsAtNonDigit | src/DelayStrategy/RetryAfterHeader.php:35 | the cast reads the leading digits and stops at the first other character |
| PhpStrings.CastOfNegative | src/DelayStrategy/RetryAfterHeader.php:35-37 | a minus sign before a decimal gives its negation |
| PhpStrings.TrimPadding | src/DelayStrategy/RetryAfterHeader.php:35 | `trim` removes exactly the padding around a value that does not start or end with a trim character |
| PhpMath.RoundMonotone | src/DelayStrategy/ExponentialBackOff.php:42-44 | PHP's `round` preserves order |
| PhpMath.PowMonotone | src/DelayStrategy/ExponentialBackOff.php:42-44 | with a base of at least 1, `**` does not decrease as the exponent grows |
| RetryStrategy.NewDefaultRetryStrategy | src/RetryStrategy/DefaultRetryStrategy.php:17-20 | a given status list is used as it is; without one the list is 429, 500, 502, 503 and 504 |
| RetryStrategy.DefaultStatusSet | src/RetryStrategy/DefaultRetryStrategy.php:22-25 | under the default list a response is retried exactly when its status is 429, 500, 502, 503 or 504 |
| RetryStrategy.CustomListReplaces | src/RetryStrategy/DefaultRetryStrategy.php:17-25 | a custom list replaces the default: under [418] only 418 is retried |
| RetryStrategy.OnExceptionKinds | src/RetryStrategy/DefaultRetryStrategy.php:27-30 | an invalid-argument exception is not retried; a timeout or other transport exception is |
| RetryableHttpClient.WithPolicy | src/RetryableHttpClient.php:37-49 | the driver asks the retry policy's `onResponse` and `onException`, and uses the given delay strategy and maximum |
| RetryableHttpClient.DefaultConfig | src/RetryableHttpClient.php:37-49 | with the constructor's defaults the driver retries at most 3 times, on statuses 429, 500, 502, 503 and 504 and on every transport exception but an invalid argument |
| RetryableHttpClient.WithDelay | src/RetryableHttpClient.php:115-123 | a positive delay is stored under `delay`, replacing any earlier value and keeping every other option; anything else leaves the options as they were |
| RetryableHttpClient.Request | src/RetryableHttpClient.php:51-54 | a request issues at least once and at most maxRetries + 1 times, the first time with the caller's options |
| RetryableHttpClient.DoRequest | src/RetryableHttpClient.php:56-73 | from retry count `count`, at most maxRetries - count + 1 issuances, the first with the given options |
| RetryableHttpClient.OnFulfilled | src/RetryableHttpClient.php:75-90 | a response the policy does not retry is the request's outcome and nothing more is issued |
| RetryableHttpClient.OnRejected | src/RetryableHttpClient.php:92-109 | a rejection that is not an approved transport exception rejects the request with the very same reason, and nothing more is issued |
| RetryableHttpClient.DoRetry | src/RetryableHttpClient.php:111-124 | the strategy is asked at the incremented count; its exception rejects the request; otherwise the next issuance carries the options with the delay applied |
| RetryFacts.RunShape | src/RetryableHttpClient.php:56-124 | every run is a chain of issuances, each following the one before at the next count exactly when retries were left, the outcome was retryable and the strategy did not raise; the outcome is that of the last issuance or the strategy's exception |
| RetryFacts.IssuancesBounded | src/RetryableHttpClient.php:60-72 | a request makes between 1 and maxRetries + 1 issuances |
| RetryFacts.SameTarget | src/RetryableHttpClient.php:111-123 | every issuance has the caller's method and URL |
| RetryFacts.NotRetriedKept | src/RetryableHttpClient.php:60-88 | with retries used up or an outcome not retryable, that outcome is returned after that single issuance |
| RetryFacts.DrawFailureRejects | src/RetryableHttpClient.php:111-124 | when the strategy raises on a retry, the request is rejected and nothing more is issued |
| RetryFacts.NoPositiveDelayKeepsOptions | src/RetryableHttpClient.php:115-123 | a strategy that never gives a positive delay leaves every issuance with the caller's options |
| RetryFacts.DefaultDelaysNeverReject | src/DelayStrategy/DelayStrategyChain.php:36-48 | with the default delay chain a request always comes to the outcome of its last issuance |
| RetryFacts.LastOutcomeStands | src/RetryableHttpClient.php:75-109 | with a strategy that never raises, the outcome is that of the last issuance |
| RetryFacts.DefaultDrawNeverFails | src/DelayStrategy/DelayStrategyChain.php:36-48 | delays drawn from the default chain, under any clock and parser per call, never raise |
| RetryFacts.ErrorsThenSuccessFrom | tests/RetryableHttpClientTest.php:78-94 | a script of `errors` 503s then a 200 ends in 200 exactly when errors is at most maxRetries, after min(errors, maxRetries) + 1 issuances with the same options |
| RetryFacts.MaxRetriesExamples | tests/RetryableHttpClientTest.php:66-75 | the five (errors, maxRetries) pairs of the source's test data end in 200, 200, 503, 200 and 503 |
| RetryFacts.RetryExceptionExamples | tests/RetryableHttpClientTest.php:96-149 | a timeout is retried and the next response returned; an invalid-argument exception rejects the request with that same exception after one issuance |
| RetryFacts.CallerDelayRepeats | src/RetryableHttpClient.php:115-123 | a caller's `delay` option is carried into a retry whose own delay is null |
| Pool.Settle | src/WaitLoop.php:55-64 | settling detaches exactly that response, fixes its promise, keeps every other promise, and keeps a promise pending exactly while attached |
| Pool.PromisePool.Count | src/WaitLoop.php:79-84 | the pool's size is the number of pending promises |
| Pool.PromisePool.constructor | src/PromiseHttpClient.php:29-34 | a new pool is empty |
| Pool.PromisePool.Attach | src/PromiseHttpClient.php:63 | a new response is attached with a new pending promise, and nothing else changes |
| Pool.PromisePool.Detach | src/WaitLoop.php:55-64 | detaching settles exactly that response's promise |
| Multiplexer.InitialIdle | src/WaitLoop.php:32-36 | a maximum of 0 or below gives an idle timeout of 0; under a positive maximum it is the given one when in [0, maximum / 5], maximum / 5 when none is given or the given one is larger, and 0 when it is negative; without a maximum it is unchanged |
| Multiplexer.Settlement | src/WaitLoop.php:42-64 | a last chunk fulfils; a failed chunk rejects with its error; a timeout chunk rejects only without a maximum duration; other chunks settle nothing |
| Multiplexer.Apply | src/WaitLoop.php:40-66 | handling a chunk keeps the pool consistent and never attaches a response |
| Multiplexer.ApplyAllKeys | src/WaitLoop.php:40-77 | handling chunks never adds or removes a promise, and only detaches responses |
| Multiplexer.ApplyAllConcat | src/WaitLoop.php:82 | handling two chunk sequences in turn is handling their concatenation |
| Multiplexer.QuietStep | src/WaitLoop.php:40-77 | an event that neither settles the target nor fires the duration check keeps the pass going, and the time left is the one its check measured, if one ran |
| Multiplexer.PassStops | src/WaitLoop.php:68-76 | a pass that stops at the target's settlement returns the time left before it; one broken off by the check returns the time that check measured |
| Multiplexer.RanStep | src/WaitLoop.php:39-82 | a stream call whose pass is as specified extends the record of the wait |
| Multiplexer.LoopingStep | src/WaitLoop.php:66-82 | after each stream call the wait has returned exactly when that call did not continue (target settled, pool empty, or no time left), with the pool size as count, and otherwise calls again; with a non-positive maximum duration it returns after the first call |
| Multiplexer.RanPool | src/WaitLoop.php:39-82 | the pool after every recorded stream call is consistent |
| Multiplexer.ConsumedStep | src/WaitLoop.php:39-82 | the chunks handled grow by those of the new stream call, in order |
| Multiplexer.WaitLoop.constructor | src/WaitLoop.php:22-26 | the loop works on the given pool |
| Multiplexer.WaitLoop.HandleChunk | src/WaitLoop.php:41-64 | a chunk that settles detaches its response, if pooled, and settles its promise; the pool changes as `Apply` says |
| Multiplexer.WaitLoop.Pass | src/WaitLoop.php:40-77 | a pass handles a prefix of the stream in order; it ends at the first chunk that settles the target, else at the first after which the idle timeout exceeds the time left, lowering the idle timeout to a fifth of it, else after every chunk; the time left is the last measured one |
| Multiplexer.WaitLoop.Step | src/WaitLoop.php:40-77 | one stream call runs a pass with the idle timeout the previous passes left and records it: its idle timeout, chunks handled, ending, time left and pool |
| Multiplexer.WaitLoop.Wait | src/WaitLoop.php:28-85 | the stream calls are as recorded; every call but the last continued (target unsettled, promises pending, time left); `wait` returns exactly when the last did not, with the number still pending; the pool is the start pool with the handled chunks applied; a maximum of 0 or below makes one stream call |
| MultiplexerFacts.FirstSettlement | src/WaitLoop.php:55-64 | there is a settlement for a response exactly when some chunk for it settles |
| MultiplexerFacts.ApplyCases | src/WaitLoop.php:42-64 | a chunk for a response not in the pool, a non-last chunk, or a bounded timeout leaves the pool unchanged; a last, failed or unbounded-timeout chunk settles that response alone |
| MultiplexerFacts.ApplyAllCharacterized | src/WaitLoop.php:40-77 | after a sequence of chunks a response stays attached exactly when no chunk settled it; a detached one has its first settlement; every other promise is unchanged |
| MultiplexerFacts.SettledDetached | src/WaitLoop.php:55-70 | a response whose chunk settled it is no longer in the pool |
| MultiplexerFacts.ReturnedWhen | src/WaitLoop.php:68-84 | `wait` returns only with an empty pool, with no time left, or with the target settled and detached |
| MultiplexerFacts.RanSchedule | src/WaitLoop.php:32-76 | the first idle timeout is the initial one; without a maximum every one is the given one; with one, each is non-negative and none rises above an earlier one |
| MultiplexerFacts.ZeroIdleCalls | src/WaitLoop.php:32-76 | with idle timeout 0 under a positive maximum, no pass is broken off and the time left stays the maximum |
| MultiplexerFacts.ZeroIdleKeepsWaiting | src/WaitLoop.php:32-84 | with idle timeout 0 under a positive maximum, `wait` returns only with an empty pool or the target settled |
| PromiseClient.PositiveDelay | src/PromiseHttpClient.php:41-42 | the delay is applied exactly when the `delay` option is an integer above 0 |
| PromiseClient.TransportOptions | src/PromiseHttpClient.php:41-45 | the transport gets every option except `delay`, unchanged |
| PromiseClient.PromiseHttpClient.constructor | src/PromiseHttpClient.php:29-34 | a new client has an empty pool and has made no call |
| PromiseClient.PromiseHttpClient.Request | src/PromiseHttpClient.php:39-77 | the transport gets the options without `delay`; a transport exception gives a rejected promise and leaves the pool unchanged; any other exception goes through; a response gets exactly one new pending entry; a positive delay goes to the pause handler in seconds, or the promise sleeps first |
| PromiseClient.PromiseHttpClient.Cancel | src/PromiseHttpClient.php:57-60 | cancelling a pending promise cancels its response and rejects and detaches it alone; a settled one is left as it is |
| PromiseClient.PromiseHttpClient.Wait | src/PromiseHttpClient.php:86-89 | `wait` runs the loop with no target, as `WaitOutcome` says; it returns with the number of pending promises, only with an empty pool or no time left, and with an empty pool when there is no maximum |
| PromiseClient.PromiseHttpClient.WaitFor | src/PromiseHttpClient.php:53-56 | a promise's wait runs the loop with its response as the target and no bounds, as `WaitOutcome` says; on return that response is no longer pending |
| StackFacts.RetryDelayIsConsumed | src/PromiseHttpClient.php:41-45 | a positive delay from the retry layer becomes the client's delay; any other leaves the caller's delay in force; the transport never sees it |

## Left out

- Guzzle's promise machinery (`then`, `wait`, running Guzzle's task queue, nested promise flattening) is not modelled. Promises are a three-state value, and retry chaining is recursion.
- Guzzle's rejection when a wait callback does not settle its promise is left out. `WaitFor` returns once the target is settled or the script ends.
- The callbacks the settlement of a promise queues are left out. They run at `src/WaitLoop.php:66` in the source.
- The sleeping promise's own `wait` and `cancel` are not modelled beyond its delay and pooled handle.
- The Symfony transport is a script. This covers `request`, `stream`, `cancel`, `getInfo('pause_handler')`, chunk objects and `MockResponse`.
  - The retry driver sees the outcome of the issuance with each retry count, so outcomes depend only on that count.
  - The wait loop sees one chunk sequence per `stream` call.
- Multiplexer.WaitLoop.Wait: when the chunk script has no further stream call, the model stops with `Exhausted`. The source would keep calling `stream`, so a loop without a maximum duration is modelled only as far as the script reaches.
- `usleep`, the pause handler's effect, `microtime` and `time()` are inputs.
  - The clock is `Env.now`.
  - The elapsed time is carried by each chunk event.
  - The sleep and the pause call are recorded, not performed.
- `DateTimeImmutable::createFromFormat` is the uninterpreted `Env.parseDate`. The fraction examples assume only what PHP's parser of the IMF-fixdate layout does with its leading day-name token: it refuses an empty value and a value that starts with a digit (`RetryAfterHeader.FixdateParser`).
- IEEE-754 arithmetic (`**`, `* factor`, `/ 5`) is exact real arithmetic plus PHP's `round`.
- The distribution of `mt_rand` is not modelled. Only membership in the range is stated. PHP versions before 8 return `false` instead of raising on an empty range; the model follows PHP 8.
- PHP integers are unbounded here. The saturation of `(int)` on huge numeric strings, and overflow of `* 1000` and `initial * count`, are not modelled.
- The `(int)` cast reads white space, a sign and decimal digits. It does not read exponents or leading-dot fractions, which no canonical comparison could accept anyway.
- The strict `in_array` of `onResponse` over a status list holding non-integers is not modelled; status codes are integers.
- The logger calls in `RetryableHttpClient` are left out, because they do not affect results.
- `__destruct`'s automatic wait is left out, because it is a destructor side effect.
- The interface files are left out. They only declare shapes, which the datatypes give.
- The tests that need a live server are not modelled.

