/**
 * What a run of the retry driver looks like: which issuances it makes, with
 * which options, and what it comes to; then the scripts of the source's tests.
 */
module RetryFacts {
  import opened Http
  import opened DelayStrategy
  import RetryStrategy
  import DelayStrategyFacts
  import opened RetryableHttpClient

  /** The response a retry is asked about: the one that prompted it, if any. */
  function Prompt(o: Outcome): (r: Option<Response>)
    ensures r.Some? <==> o.Fulfilled?
    ensures r.Some? ==> r.value == o.response
  {
    if o.Fulfilled? then Some(o.response) else None
  }

  /** Whether the policy of `c` asks for another issuance after outcome `o`. */
  predicate Retryable(c: Config, o: Outcome) {
    match o
    case Fulfilled(response) => c.onResponse(response)
    case Rejected(reason) => reason.TransportError? && c.onException(reason.kind)
  }

  /**
   * Issuance `b` followed issuance `a`, whose retry count was `k`: retries
   * were left, the outcome was retryable, the delay strategy did not raise,
   * and `b` carries the delay it gave.
   */
  ghost predicate RetriedAfter(c: Config, transport: nat -> Outcome, k: nat, a: Attempt, b: Attempt) {
    var o := transport(k);
    var d := c.delay(k + 1, Prompt(o));
    k < c.maxRetries && Retryable(c, o) && !d.DrawFailed? &&
    b == Attempt(a.httpMethod, a.url, WithDelay(a.options, d))
  }

  /**
   * A request whose last issuance had retry count `last` came to `outcome`:
   * the outcome of that issuance, unless it was to be retried and the delay
   * strategy raised instead.
   */
  ghost predicate Ended(c: Config, transport: nat -> Outcome, last: nat, outcome: Outcome) {
    var o := transport(last);
    if last < c.maxRetries && Retryable(c, o) then
      c.delay(last + 1, Prompt(o)).DrawFailed? && outcome == Rejected(RangeError)
    else
      outcome == o
  }

  /** The shape of every run from an issuance with retry count `count`. */
  ghost predicate Trace(c: Config, transport: nat -> Outcome, httpMethod: string, url: string, options: Options,
                        count: nat, r: Run)
  {
    |r.attempts| >= 1 &&
    r.attempts[0] == Attempt(httpMethod, url, options) &&
    (forall k | 0 <= k < |r.attempts| - 1 :: RetriedAfter(c, transport, count + k, r.attempts[k], r.attempts[k + 1])) &&
    Ended(c, transport, count + |r.attempts| - 1, r.outcome)
  }

  /** Every run of the driver has that shape. */
  lemma {:induction false} RunShape(c: Config, transport: nat -> Outcome, httpMethod: string, url: string,
                                    options: Options, count: nat)
    ensures Trace(c, transport, httpMethod, url, options, count, DoRequest(c, transport, httpMethod, url, options, count))
    decreases if count < c.maxRetries then c.maxRetries - count else 0
  {
    var r := DoRequest(c, transport, httpMethod, url, options, count);
    var here := Attempt(httpMethod, url, options);
    var o := transport(count);
    if count < c.maxRetries && Retryable(c, o) {
      var d := c.delay(count + 1, Prompt(o));
      if !d.DrawFailed? {
        var next := WithDelay(options, d);
        RunShape(c, transport, httpMethod, url, next, count + 1);
        var rest := DoRequest(c, transport, httpMethod, url, next, count + 1);
        assert DoRetry(c, transport, httpMethod, url, options, count, Prompt(o)) == rest;
        assert r == Run(rest.outcome, [here] + rest.attempts);
        TracePrepend(c, transport, httpMethod, url, options, next, count, rest);
      }
    }
  }

  /** A retry in front of a run from the next count makes a run from this count. */
  lemma TracePrepend(c: Config, transport: nat -> Outcome, httpMethod: string, url: string, options: Options,
                     next: Options, count: nat, rest: Run)
    requires Trace(c, transport, httpMethod, url, next, count + 1, rest)
    requires RetriedAfter(c, transport, count, Attempt(httpMethod, url, options), Attempt(httpMethod, url, next))
    ensures Trace(c, transport, httpMethod, url, options, count,
                  Run(rest.outcome, [Attempt(httpMethod, url, options)] + rest.attempts))
  {
    var r := Run(rest.outcome, [Attempt(httpMethod, url, options)] + rest.attempts);
    forall k | 0 <= k < |r.attempts| - 1
      ensures RetriedAfter(c, transport, count + k, r.attempts[k], r.attempts[k + 1])
    {
      if k > 0 {
        assert r.attempts[k] == rest.attempts[k - 1];
        assert r.attempts[k + 1] == rest.attempts[k];
        assert RetriedAfter(c, transport, count + 1 + (k - 1), rest.attempts[k - 1], rest.attempts[k]);
      }
    }
    assert count + |r.attempts| - 1 == count + 1 + |rest.attempts| - 1;
  }

  /** `request` issues at least once and at most `maxRetries + 1` times. */
  lemma IssuancesBounded(c: Config, transport: nat -> Outcome, httpMethod: string, url: string, options: Options)
    ensures var r := Request(c, transport, httpMethod, url, options);
            1 <= |r.attempts| <= (if c.maxRetries > 0 then c.maxRetries else 0) + 1
  {
  }

  /** Every issuance of a request uses its method and URL. */
  lemma {:induction false} SameTarget(c: Config, transport: nat -> Outcome, httpMethod: string, url: string,
                                      options: Options, count: nat)
    ensures var r := DoRequest(c, transport, httpMethod, url, options, count);
            forall k | 0 <= k < |r.attempts| :: r.attempts[k].httpMethod == httpMethod && r.attempts[k].url == url
  {
    var r := DoRequest(c, transport, httpMethod, url, options, count);
    RunShape(c, transport, httpMethod, url, options, count);
    AttemptsKeepTarget(c, transport, count, r.attempts, |r.attempts| - 1);
  }

  lemma {:induction false} AttemptsKeepTarget(c: Config, transport: nat -> Outcome, count: nat, attempts: seq<Attempt>,
                                              n: nat)
    requires n < |attempts|
    requires forall k | 0 <= k < |attempts| - 1 :: RetriedAfter(c, transport, count + k, attempts[k], attempts[k + 1])
    ensures forall k | 0 <= k <= n :: attempts[k].httpMethod == attempts[0].httpMethod && attempts[k].url == attempts[0].url
  {
    if n > 0 {
      AttemptsKeepTarget(c, transport, count, attempts, n - 1);
      assert RetriedAfter(c, transport, count + (n - 1), attempts[n - 1], attempts[n]);
    }
  }

  /**
   * Once the retries are used up, or when the outcome is not retryable, the
   * outcome is returned as it is: a response unchanged, a rejection with the
   * identical reason.
   */
  lemma NotRetriedKept(c: Config, transport: nat -> Outcome, httpMethod: string, url: string, options: Options,
                       count: nat)
    requires count >= c.maxRetries || !Retryable(c, transport(count))
    ensures DoRequest(c, transport, httpMethod, url, options, count) ==
            Run(transport(count), [Attempt(httpMethod, url, options)])
  {
  }

  /** A delay strategy that raises rejects the request with its error, without a further issuance. */
  lemma DrawFailureRejects(c: Config, transport: nat -> Outcome, httpMethod: string, url: string, options: Options,
                           count: nat)
    requires count < c.maxRetries && Retryable(c, transport(count))
    requires c.delay(count + 1, Prompt(transport(count))).DrawFailed?
    ensures DoRequest(c, transport, httpMethod, url, options, count) ==
            Run(Rejected(RangeError), [Attempt(httpMethod, url, options)])
  {
  }

  /**
   * A delay strategy that never gives a positive delay leaves the options as
   * they were, on every issuance: a `delay` key the caller put there is
   * carried into every retry.
   */
  lemma {:induction false} NoPositiveDelayKeepsOptions(c: Config, transport: nat -> Outcome, httpMethod: string,
                                                       url: string, options: Options, count: nat)
    requires forall k: int, p: Option<Response> :: !(c.delay(k, p).Millis? && c.delay(k, p).ms > 0)
    ensures var r := DoRequest(c, transport, httpMethod, url, options, count);
            forall k | 0 <= k < |r.attempts| :: r.attempts[k].options == options
  {
    var r := DoRequest(c, transport, httpMethod, url, options, count);
    RunShape(c, transport, httpMethod, url, options, count);
    OptionsKept(c, transport, count, r.attempts, |r.attempts| - 1);
  }

  lemma {:induction false} OptionsKept(c: Config, transport: nat -> Outcome, count: nat, attempts: seq<Attempt>, n: nat)
    requires n < |attempts|
    requires forall k: int, p: Option<Response> :: !(c.delay(k, p).Millis? && c.delay(k, p).ms > 0)
    requires forall k | 0 <= k < |attempts| - 1 :: RetriedAfter(c, transport, count + k, attempts[k], attempts[k + 1])
    ensures forall k | 0 <= k <= n :: attempts[k].options == attempts[0].options
  {
    if n > 0 {
      OptionsKept(c, transport, count, attempts, n - 1);
      assert RetriedAfter(c, transport, count + (n - 1), attempts[n - 1], attempts[n]);
    }
  }

  /**
   * `delay` gives, at every count and response, a result strategy `s` may
   * give under some clock and parser: each call may see a different one.
   */
  ghost predicate DrawnFrom(delay: (int, Option<Response>) -> Delay, s: Strategy) {
    Valid(s) && forall k: int, p: Option<Response> :: exists env: Env :: Possible(s, k, p, env, delay(k, p))
  }

  /**
   * With the default delay chain, the delay strategy never raises, so a
   * request always comes to the outcome of its last issuance.
   */
  lemma DefaultDelaysNeverReject(c: Config, transport: nat -> Outcome, httpMethod: string, url: string,
                                 options: Options)
    requires DrawnFrom(c.delay, CreateDefault())
    ensures var r := Request(c, transport, httpMethod, url, options);
            r.outcome == transport(|r.attempts| - 1)
  {
    RunShape(c, transport, httpMethod, url, options, 0);
    forall k: int, p: Option<Response> ensures !c.delay(k, p).DrawFailed? {
      DefaultDrawNeverFails(c.delay, k, p);
    }
    LastOutcomeStands(c, transport, httpMethod, url, options, Request(c, transport, httpMethod, url, options));
  }

  /** When the delay strategy never raises, a run comes to the outcome of its last issuance. */
  lemma LastOutcomeStands(c: Config, transport: nat -> Outcome, httpMethod: string, url: string, options: Options,
                          r: Run)
    requires Trace(c, transport, httpMethod, url, options, 0, r)
    requires forall k: int, p: Option<Response> :: !c.delay(k, p).DrawFailed?
    ensures r.outcome == transport(|r.attempts| - 1)
  {
    assert Ended(c, transport, |r.attempts| - 1, r.outcome);
  }

  lemma DefaultDrawNeverFails(delay: (int, Option<Response>) -> Delay, k: int, p: Option<Response>)
    requires DrawnFrom(delay, CreateDefault())
    ensures !delay(k, p).DrawFailed?
  {
    var d := delay(k, p);
    var env: Env :| Possible(CreateDefault(), k, p, env, d);
    DelayStrategyFacts.DefaultAlwaysDelays(k, p, env, d);
  }

  // ---------------------------------------------------------------------
  // The scripts of the source's tests

  /** `errors` responses of status 503, then responses of status 200. */
  function StatusScript(errors: nat): nat -> Outcome {
    k => Fulfilled(Response(if k < errors then 503 else 200, map[]))
  }

  /** Retry on status 503 only, never on an exception, with a constant delay of 0. */
  function RetryOn503(maxRetries: int): Config {
    Config((r: Response) => r.status == 503, (k: TransportKind) => false, (n, p) => Millis(0), maxRetries)
  }

  function Min(a: int, b: int): int {
    if a < b then a else b
  }

  /**
   * From the issuance with retry count `count`, the script of `errors`
   * failures comes to 200 exactly when the retries suffice, after
   * `min(errors, maxRetries) - count + 1` issuances, all with the same options.
   */
  lemma {:induction false} ErrorsThenSuccessFrom(errors: nat, maxRetries: nat, httpMethod: string, url: string,
                                                 options: Options, count: nat)
    requires count <= errors && count <= maxRetries
    ensures var r := DoRequest(RetryOn503(maxRetries), StatusScript(errors), httpMethod, url, options, count);
            r.outcome.Fulfilled? &&
            r.outcome.response.status == (if errors <= maxRetries then 200 else 503) &&
            |r.attempts| == Min(errors, maxRetries) - count + 1 &&
            forall k | 0 <= k < |r.attempts| :: r.attempts[k] == Attempt(httpMethod, url, options)
    decreases maxRetries - count
  {
    var c := RetryOn503(maxRetries);
    var t := StatusScript(errors);
    var r := DoRequest(c, t, httpMethod, url, options, count);
    if count < maxRetries && count < errors {
      ErrorsThenSuccessFrom(errors, maxRetries, httpMethod, url, options, count + 1);
      var rest := DoRequest(c, t, httpMethod, url, options, count + 1);
      var response := t(count).response;
      assert response.status == 503 && c.onResponse(response);
      assert c.delay(count + 1, Some(response)) == Millis(0);
      assert DoRetry(c, t, httpMethod, url, options, count, Some(response)) == rest;
      assert OnFulfilled(c, t, httpMethod, url, options, count, response) == rest;
      assert r == Run(rest.outcome, [Attempt(httpMethod, url, options)] + rest.attempts);
    } else if count == errors {
      assert t(count).response.status == 200;
    } else {
      assert t(count).response.status == 503;
    }
  }

  /** The five combinations the source's tests try of failures and maximum retries. */
  lemma MaxRetriesExamples(httpMethod: string, url: string, options: Options)
    ensures Request(RetryOn503(3), StatusScript(2), httpMethod, url, options).outcome.response.status == 200
    ensures Request(RetryOn503(3), StatusScript(3), httpMethod, url, options).outcome.response.status == 200
    ensures Request(RetryOn503(3), StatusScript(4), httpMethod, url, options).outcome.response.status == 503
    ensures Request(RetryOn503(0), StatusScript(0), httpMethod, url, options).outcome.response.status == 200
    ensures Request(RetryOn503(0), StatusScript(1), httpMethod, url, options).outcome.response.status == 503
  {
    ErrorsThenSuccessFrom(2, 3, httpMethod, url, options, 0);
    ErrorsThenSuccessFrom(3, 3, httpMethod, url, options, 0);
    ErrorsThenSuccessFrom(4, 3, httpMethod, url, options, 0);
    ErrorsThenSuccessFrom(0, 0, httpMethod, url, options, 0);
    ErrorsThenSuccessFrom(1, 0, httpMethod, url, options, 0);
  }

  /** Retry a transport exception unless it is an invalid argument; never retry a response. */
  function RetryOnRuntimeException(): Config {
    Config((r: Response) => false, (k: TransportKind) => !k.InvalidArgument?, (n, p) => Millis(0), 2)
  }

  /**
   * A timed-out first issuance is retried and the second one's response
   * returned; an invalid-argument exception rejects the request with that
   * very exception, and nothing more is issued.
   */
  lemma RetryExceptionExamples(httpMethod: string, url: string, options: Options)
    ensures var timedOut := (k: nat) => if k == 0 then Rejected(TransportError(Timeout, 0))
                                        else Fulfilled(Response(200, map[]));
            var r := Request(RetryOnRuntimeException(), timedOut, httpMethod, url, options);
            r.outcome == Fulfilled(Response(200, map[])) && |r.attempts| == 2
    ensures var invalid := (k: nat) => if k == 0 then Rejected(TransportError(InvalidArgument, 1))
                                       else Rejected(TransportError(OtherTransport, 2));
            Request(RetryOnRuntimeException(), invalid, httpMethod, url, options) ==
            Run(Rejected(TransportError(InvalidArgument, 1)), [Attempt(httpMethod, url, options)])
  {
  }

  /**
   * A caller's `delay` of 250 ms stays in the options of the retry when the
   * delay strategy abstains, so the retry is deferred as well.
   */
  lemma CallerDelayRepeats(httpMethod: string, url: string, options: Options)
    requires options == map[DelayKey := IntValue(250)]
    ensures var c := Config((r: Response) => r.status == 503, (k: TransportKind) => false, (n, p) => Abstain, 3);
            var r := Request(c, StatusScript(1), httpMethod, url, options);
            |r.attempts| == 2 && r.attempts[1].options[DelayKey] == IntValue(250)
  {
    var c := Config((r: Response) => r.status == 503, (k: TransportKind) => false, (n, p) => Abstain, 3);
    NoPositiveDelayKeepsOptions(c, StatusScript(1), httpMethod, url, options, 0);
    var r := Request(c, StatusScript(1), httpMethod, url, options);
    assert StatusScript(1)(0).response.status == 503 && StatusScript(1)(1).response.status == 200;
  }
}
