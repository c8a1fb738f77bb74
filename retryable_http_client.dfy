/**
 * The retry driver of `RetryableHttpClient`. Each issuance goes to the inner
 * client; while fewer than `maxRetries` retries were made, its outcome is
 * examined, and a retryable one leads to a new issuance with the retry count
 * one higher, after the delay strategy was asked for a delay.
 *
 * Promises become plain recursion. The inner client is a script: the outcome
 * of the issuance with retry count `k` is `transport(k)`, as each issuance of
 * one logical request has its own count. The delay strategy is the function
 * `delay`, giving what the strategy gave when asked at a count; since no two
 * issuances share a count, every sequence of jitter draws is some such function.
 */
module RetryableHttpClient {
  import opened Http
  import opened DelayStrategy
  import RetryStrategy

  /** The maximum number of retries when the constructor is given none. */
  const DefaultMaxRetries: int := 3

  /** One issuance to the inner client. */
  datatype Attempt = Attempt(httpMethod: string, url: string, options: Options)

  /** What a logical request came to, and every issuance it made, in order. */
  datatype Run = Run(outcome: Outcome, attempts: seq<Attempt>)

  datatype Config = Config(
    onResponse: Response -> bool,
    onException: TransportKind -> bool,
    delay: (int, Option<Response>) -> Delay,
    maxRetries: int)

  /** The configuration with a `DefaultRetryStrategy` as its retry policy. */
  function WithPolicy(policy: RetryStrategy.DefaultRetryStrategy, delay: (int, Option<Response>) -> Delay,
                      maxRetries: int): (c: Config)
    ensures forall r :: c.onResponse(r) == RetryStrategy.OnResponse(policy, r)
    ensures forall k :: c.onException(k) == RetryStrategy.OnException(policy, k)
    ensures c.delay == delay && c.maxRetries == maxRetries
  {
    Config(r => RetryStrategy.OnResponse(policy, r), k => RetryStrategy.OnException(policy, k), delay, maxRetries)
  }

  /**
   * The constructor with its defaults: a `DefaultRetryStrategy` with the
   * default status codes and at most 3 retries. `delay` gives the delays
   * the delay strategy draws, by default those of the default chain.
   */
  function DefaultConfig(delay: (int, Option<Response>) -> Delay): (c: Config)
    ensures c.maxRetries == 3 && c.delay == delay
    ensures forall r: Response :: c.onResponse(r) <==> r.status in {429, 500, 502, 503, 504}
    ensures forall k :: c.onException(k) <==> k != InvalidArgument
  {
    var policy := RetryStrategy.NewDefaultRetryStrategy(None);
    WithPolicy(policy, delay, DefaultMaxRetries)
  }

  /**
   * The options of the issuance after a retry that was given delay `d`: a
   * positive delay is stored under the `delay` key, replacing any value
   * there; anything else leaves the options as they were.
   */
  function WithDelay(options: Options, d: Delay): (r: Options)
    ensures r.Keys == options.Keys + (if d.Millis? && d.ms > 0 then {DelayKey} else {})
    ensures forall key | key in options && key != DelayKey :: r[key] == options[key]
    ensures d.Millis? && d.ms > 0 ==> r[DelayKey] == IntValue(d.ms)
    ensures !(d.Millis? && d.ms > 0) ==> r == options
  {
    if d.Millis? && d.ms > 0 then options[DelayKey := IntValue(d.ms)] else options
  }

  /** `request`: the first issuance has count 0. */
  function Request(c: Config, transport: nat -> Outcome, httpMethod: string, url: string, options: Options): (r: Run)
    ensures 1 <= |r.attempts| <= (if c.maxRetries > 0 then c.maxRetries else 0) + 1
    ensures r.attempts[0] == Attempt(httpMethod, url, options)
  {
    DoRequest(c, transport, httpMethod, url, options, 0)
  }

  /** `doRequest`: issue, then examine the outcome unless the retries are used up. */
  function DoRequest(c: Config, transport: nat -> Outcome, httpMethod: string, url: string, options: Options,
                     count: nat): (r: Run)
    ensures 1 <= |r.attempts| <= (if count < c.maxRetries then c.maxRetries - count else 0) + 1
    ensures r.attempts[0] == Attempt(httpMethod, url, options)
    decreases if count < c.maxRetries then c.maxRetries - count else 0, 2
  {
    var here := Attempt(httpMethod, url, options);
    var outcome := transport(count);
    if count < c.maxRetries then
      var rest := match outcome
        case Fulfilled(response) => OnFulfilled(c, transport, httpMethod, url, options, count, response)
        case Rejected(reason) => OnRejected(c, transport, httpMethod, url, options, count, reason);
      Run(rest.outcome, [here] + rest.attempts)
    else
      Run(outcome, [here])
  }

  /** The fulfilment handler: retry a retryable response, return any other unchanged. */
  function OnFulfilled(c: Config, transport: nat -> Outcome, httpMethod: string, url: string, options: Options,
                       count: nat, response: Response): (r: Run)
    requires count < c.maxRetries
    ensures |r.attempts| <= c.maxRetries - count
    ensures !c.onResponse(response) ==> r == Run(Fulfilled(response), [])
    decreases c.maxRetries - count, 1
  {
    if c.onResponse(response) then DoRetry(c, transport, httpMethod, url, options, count, Some(response))
    else Run(Fulfilled(response), [])
  }

  /**
   * The rejection handler: retry a transport exception the policy approves,
   * and reject with the very same reason otherwise.
   */
  function OnRejected(c: Config, transport: nat -> Outcome, httpMethod: string, url: string, options: Options,
                      count: nat, reason: Reason): (r: Run)
    requires count < c.maxRetries
    ensures |r.attempts| <= c.maxRetries - count
    ensures !(reason.TransportError? && c.onException(reason.kind)) ==> r == Run(Rejected(reason), [])
    decreases c.maxRetries - count, 1
  {
    if reason.TransportError? && c.onException(reason.kind) then
      DoRetry(c, transport, httpMethod, url, options, count, None)
    else
      Run(Rejected(reason), [])
  }

  /**
   * `doRetry`: ask for the delay at the next count, with the response if the
   * retry is for one; a positive delay is put under the `delay` key, over any
   * earlier one. An exception from the strategy rejects the request.
   */
  function DoRetry(c: Config, transport: nat -> Outcome, httpMethod: string, url: string, options: Options,
                   count: nat, response: Option<Response>): (r: Run)
    requires count < c.maxRetries
    ensures |r.attempts| <= c.maxRetries - count
    ensures c.delay(count + 1, response).DrawFailed? <==> r == Run(Rejected(RangeError), [])
    ensures !c.delay(count + 1, response).DrawFailed? ==>
              |r.attempts| >= 1 && r.attempts[0] == Attempt(httpMethod, url, WithDelay(options, c.delay(count + 1, response)))
    decreases c.maxRetries - count, 0
  {
    var next := count + 1;
    match c.delay(next, response)
    case DrawFailed => Run(Rejected(RangeError), [])
    case Millis(ms) =>
      if ms > 0 then DoRequest(c, transport, httpMethod, url, options + map[DelayKey := IntValue(ms)], next)
      else DoRequest(c, transport, httpMethod, url, options, next)
    case Abstain => DoRequest(c, transport, httpMethod, url, options, next)
  }
}
