/**
 * `PromiseHttpClient`: issue a request on the wrapped transport at once and
 * hand back a promise of its response, kept pending in the pool until the
 * wait loop sees the response complete or fail.
 *
 * The transport is a parameter of each call: whether `request` threw, and
 * whether the response it returned has a pause handler. Each response the
 * transport returns gets the next handle.
 */
module PromiseClient {
  import opened Http
  import opened Pool
  import opened Multiplexer
  import MultiplexerFacts

  /** What the transport's `request` did. */
  datatype Issue = Issued | Threw(reason: Reason)

  /** One call made on the transport. */
  datatype Sent = Sent(httpMethod: string, url: string, options: Options)

  /** The promise `request` returns. */
  datatype ClientPromise =
    | PoolPromise(handle: Handle)                  // the pooled promise itself
    | RejectedPromise(reason: Reason)              // already rejected with a transport exception
    | SleepingPromise(sleepMs: int, handle: Handle) // sleeps, then follows the pooled promise

  /** How `request` ends: with a promise, or by letting an exception through. */
  datatype RequestResult = Promised(promise: ClientPromise) | Raised(reason: Reason)

  /**
   * The delay to apply before issuing: the `delay` option when it is an
   * integer above 0, and nothing otherwise (absent, not an integer, or 0
   * or below).
   */
  function PositiveDelay(options: Options): (r: Option<int>)
    ensures r.Some? <==> DelayKey in options && options[DelayKey].IntValue? && options[DelayKey].i > 0
    ensures r.Some? ==> r.value > 0 && options[DelayKey] == IntValue(r.value)
  {
    if DelayKey in options && options[DelayKey].IntValue? && options[DelayKey].i > 0
    then Some(options[DelayKey].i) else None
  }

  /** The options the transport receives: all but `delay`, unchanged. */
  function TransportOptions(options: Options): (r: Options)
    ensures DelayKey !in r
    ensures forall k :: k in r <==> k in options && k != DelayKey
    ensures forall k | k in r :: r[k] == options[k]
  {
    options - {DelayKey}
  }

  class PromiseHttpClient {
    const pool: PromisePool
    const loop: WaitLoop
    /** The handle the next response the transport returns will get. */
    var nextHandle: nat
    /** The calls made on the transport, in order. */
    var sent: seq<Sent>
    /** The responses cancelled on the transport, in order. */
    var cancelled: seq<Handle>
    /** The calls of pause handlers: the response and the seconds passed. */
    var paused: seq<(Handle, real)>

    ghost predicate Valid()
      reads this, pool
    {
      pool.Valid() && loop.pool == pool && forall h | h in pool.promises :: h < nextHandle
    }

    constructor ()
      ensures Valid() && fresh(pool) && fresh(loop)
      ensures pool.attached == {} && pool.promises == map[]
      ensures nextHandle == 0 && sent == [] && cancelled == [] && paused == []
    {
      var p := new PromisePool();
      pool := p;
      loop := new WaitLoop(p);
      nextHandle := 0;
      sent := [];
      cancelled := [];
      paused := [];
    }

    /**
     * `request($method, $url, $options)`. A transport exception thrown by
     * the transport becomes an already rejected promise and anything else
     * thrown goes through; otherwise the response is pooled with a pending
     * promise. A positive `delay` is handed to the response's pause handler
     * in seconds, or, without one, the promise first sleeps that long.
     */
    method Request(httpMethod: string, url: string, options: Options, issue: Issue, hasPauseHandler: bool)
      returns (r: RequestResult)
      requires Valid()
      modifies this, pool
      ensures Valid()
      ensures sent == old(sent) + [Sent(httpMethod, url, TransportOptions(options))]
      ensures cancelled == old(cancelled)
      ensures issue.Threw? ==>
                pool.State() == old(pool.State()) && nextHandle == old(nextHandle) && paused == old(paused)
      ensures issue.Threw? && IsTransport(issue.reason) ==> r == Promised(RejectedPromise(issue.reason))
      ensures issue.Threw? && !IsTransport(issue.reason) ==> r == Raised(issue.reason)
      ensures issue.Issued? ==>
                old(nextHandle) !in old(pool.promises) &&
                pool.attached == old(pool.attached) + {old(nextHandle)} &&
                pool.promises == old(pool.promises)[old(nextHandle) := Pending] &&
                nextHandle == old(nextHandle) + 1
      ensures issue.Issued? && PositiveDelay(options).Some? && !hasPauseHandler ==>
                r == Promised(SleepingPromise(PositiveDelay(options).value, old(nextHandle))) && paused == old(paused)
      ensures issue.Issued? && PositiveDelay(options).Some? && hasPauseHandler ==>
                r == Promised(PoolPromise(old(nextHandle))) &&
                paused == old(paused) + [(old(nextHandle), PositiveDelay(options).value as real / 1000.0)]
      ensures issue.Issued? && PositiveDelay(options).None? ==>
                r == Promised(PoolPromise(old(nextHandle))) && paused == old(paused)
    {
      var delay := PositiveDelay(options);
      sent := sent + [Sent(httpMethod, url, TransportOptions(options))];
      if issue.Threw? {
        if IsTransport(issue.reason) {
          return Promised(RejectedPromise(issue.reason));
        }
        return Raised(issue.reason);
      }
      var h := nextHandle;
      nextHandle := nextHandle + 1;
      pool.Attach(h);
      if delay.Some? {
        if !hasPauseHandler {
          return Promised(SleepingPromise(delay.value, h));
        }
        paused := paused + [(h, delay.value as real / 1000.0)];
      }
      r := Promised(PoolPromise(h));
    }

    /**
     * Cancelling a pooled promise: a pending one has its response cancelled
     * and detached, and is rejected as cancelled; a settled one is left as
     * it is.
     */
    method Cancel(h: Handle)
      requires Valid()
      modifies this, pool
      ensures Valid()
      ensures h in old(pool.attached) ==>
                pool.State() == Settle(old(pool.State()), h, RejectedWith(Cancellation)) &&
                cancelled == old(cancelled) + [h]
      ensures h !in old(pool.attached) ==> pool.State() == old(pool.State()) && cancelled == old(cancelled)
      ensures nextHandle == old(nextHandle) && sent == old(sent) && paused == old(paused)
    {
      if h in pool.attached {
        cancelled := cancelled + [h];
        pool.Detach(h, RejectedWith(Cancellation));
      }
    }

    /**
     * `wait($maxDuration, $idleTimeout)`: the wait loop with no target.
     * It reports the promises still pending, and with no maximum duration
     * it only returns once there are none.
     */
    method Wait(maxDuration: Option<real>, idleTimeout: Option<real>, passes: seq<seq<Event>>)
      returns (r: WaitResult, ghost consumed: seq<Event>, ghost calls: seq<Call>)
      requires Valid()
      modifies pool
      ensures Valid()
      ensures WaitOutcome(None, maxDuration, idleTimeout, passes, old(pool.State()), pool.State(), r, consumed, calls)
      ensures r.Returned? ==> r.count == |pool.attached|
      ensures r.Returned? ==> pool.attached == {} || (maxDuration.Some? && calls[|calls| - 1].left <= 0.0)
      ensures maxDuration.None? && r.Returned? ==> r.count == 0 && pool.attached == {}
    {
      r, consumed, calls := loop.Wait(None, maxDuration, idleTimeout, passes);
      ApplyAllKeys(old(pool.State()), consumed, maxDuration.Some?);
      if r.Returned? {
        MultiplexerFacts.ReturnedWhen(None, maxDuration, idleTimeout, passes, old(pool.State()), pool.State(), r,
                                      consumed, calls);
      }
    }

    /**
     * The wait function of the promise of `h`: the wait loop with `h` as its
     * target and no time bounds. When it returns, the promise of `h` is
     * settled.
     */
    method WaitFor(h: Handle, passes: seq<seq<Event>>)
      returns (r: WaitResult, ghost consumed: seq<Event>, ghost calls: seq<Call>)
      requires Valid()
      modifies pool
      ensures Valid()
      ensures WaitOutcome(Some(h), None, None, passes, old(pool.State()), pool.State(), r, consumed, calls)
      ensures r.Returned? ==> r.count == |pool.attached| && h !in pool.attached
    {
      r, consumed, calls := loop.Wait(Some(h), None, None, passes);
      ApplyAllKeys(old(pool.State()), consumed, false);
      if r.Returned? {
        MultiplexerFacts.ReturnedWhen(Some(h), None, None, passes, old(pool.State()), pool.State(), r,
                                      consumed, calls);
      }
    }
  }
}
