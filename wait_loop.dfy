/**
 * `WaitLoop::wait`: drive the transport's stream of chunks over the pool,
 * settling the promise of each response whose last chunk arrives or whose
 * handling fails, until the pool is empty, a target response is settled, or
 * the time allowed runs out.
 *
 * The transport is a script: the chunks each call to `stream` yields, one
 * sequence per call. The clock is read at the duration check after each
 * chunk; each event carries the time elapsed since the start at that point.
 * When the script has no further stream call the model stops (`Exhausted`).
 */
module Multiplexer {
  import opened Http
  import opened Pool

  /** What the handling of one chunk finds. */
  datatype Chunk =
    | TimedOut         // the idle timeout passed without activity
    | First            // the headers arrived
    | Middle           // a piece of the body
    | Last             // the response is complete
    | Failed(error: Reason)  // reading the chunk or the status code threw

  datatype Event = Event(handle: Handle, chunk: Chunk, elapsed: real)

  datatype WaitResult = Returned(count: nat) | Exhausted

  function Max(a: real, b: real): real {
    if a < b then b else a
  }

  function Min(a: real, b: real): real {
    if a < b then a else b
  }

  /**
   * The idle timeout of the first stream call: 0 when the maximum duration is
   * exactly 0; otherwise, under a maximum duration, the given idle timeout
   * (the maximum duration if none) brought into [0, maxDuration / 5]; with no
   * maximum duration, the given one unchanged.
   */
  function InitialIdle(maxDuration: Option<real>, idleTimeout: Option<real>): (r: Option<real>)
    ensures maxDuration.None? ==> r == idleTimeout
    ensures maxDuration.Some? ==> r.Some? && r.value >= 0.0
    ensures maxDuration.Some? && maxDuration.value <= 0.0 ==> r == Some(0.0)
    ensures maxDuration.Some? && maxDuration.value > 0.0 ==> r.value <= maxDuration.value / 5.0
    ensures maxDuration.Some? && maxDuration.value > 0.0 && idleTimeout.None? ==> r == Some(maxDuration.value / 5.0)
    ensures maxDuration.Some? && idleTimeout.Some? && 0.0 <= idleTimeout.value <= maxDuration.value / 5.0 ==>
              r == idleTimeout
    ensures maxDuration.Some? && maxDuration.value > 0.0 && idleTimeout.Some? &&
              idleTimeout.value > maxDuration.value / 5.0 ==>
              r == Some(maxDuration.value / 5.0)
    ensures maxDuration.Some? && maxDuration.value > 0.0 && idleTimeout.Some? && idleTimeout.value < 0.0 ==>
              r == Some(0.0)
  {
    if maxDuration == Some(0.0) then Some(0.0)
    else if maxDuration.Some? then
      Some(Max(0.0, Min(maxDuration.value / 5.0, if idleTimeout.Some? then idleTimeout.value else maxDuration.value)))
    else idleTimeout
  }

  /**
   * What the handling of a chunk settles the response's promise as, if
   * anything. Without a maximum duration a timeout chunk is not skipped:
   * asking it whether it is the first chunk throws the timeout, and the
   * promise is rejected.
   */
  function Settlement(e: Event, bounded: bool): (r: Option<PromiseState>)
    ensures r.Some? ==> !r.value.Pending?
    ensures r.Some? <==> e.chunk.Last? || e.chunk.Failed? || (e.chunk.TimedOut? && !bounded)
    ensures e.chunk.Last? ==> r == Some(FulfilledWith(e.handle))
    ensures e.chunk.Failed? ==> r == Some(RejectedWith(e.chunk.error))
    ensures e.chunk.TimedOut? && !bounded ==> r == Some(RejectedWith(TransportError(Timeout, e.handle)))
  {
    match e.chunk
    case TimedOut => if bounded then None else Some(RejectedWith(TransportError(Timeout, e.handle)))
    case First => None
    case Middle => None
    case Last => Some(FulfilledWith(e.handle))
    case Failed(error) => Some(RejectedWith(error))
  }

  /** The pool after handling one chunk: a pooled response is detached and settled. */
  function Apply(s: PoolState, e: Event, bounded: bool): (r: PoolState)
    requires Consistent(s)
    ensures Consistent(r)
    ensures r.promises.Keys == s.promises.Keys && r.attached <= s.attached
  {
    var settled := Settlement(e, bounded);
    if settled.Some? && e.handle in s.attached then Settle(s, e.handle, settled.value) else s
  }

  /** The pool after handling a sequence of chunks in order. */
  function ApplyAll(s: PoolState, es: seq<Event>, bounded: bool): (r: PoolState)
    requires Consistent(s)
    ensures Consistent(r)
    decreases |es|
  {
    if es == [] then s else ApplyAll(Apply(s, es[0], bounded), es[1..], bounded)
  }

  /** Handling chunks never adds or removes a promise, and never attaches a response. */
  lemma {:induction false} ApplyAllKeys(s: PoolState, es: seq<Event>, bounded: bool)
    requires Consistent(s)
    ensures ApplyAll(s, es, bounded).promises.Keys == s.promises.Keys
    ensures ApplyAll(s, es, bounded).attached <= s.attached
    decreases |es|
  {
    if es != [] {
      ApplyAllKeys(Apply(s, es[0], bounded), es[1..], bounded);
    }
  }

  lemma {:induction false} ApplyAllAppend(s: PoolState, es: seq<Event>, e: Event, bounded: bool)
    requires Consistent(s)
    ensures ApplyAll(s, es + [e], bounded) == Apply(ApplyAll(s, es, bounded), e, bounded)
    decreases |es|
  {
    if es == [] {
      assert [e][1..] == [];
    } else {
      assert (es + [e])[1..] == es[1..] + [e];
      ApplyAllAppend(Apply(s, es[0], bounded), es[1..], e, bounded);
    }
  }

  /** How one pass over a stream ended. */
  datatype PassEnd =
    | TargetSettled   // the target response was settled: `wait` returns at once
    | Interrupted     // the idle timeout exceeded the time left: a new stream call
    | Completed       // the stream yielded all its chunks

  lemma {:induction false} ApplyAllConcat(s: PoolState, es: seq<Event>, fs: seq<Event>, bounded: bool)
    requires Consistent(s)
    ensures ApplyAll(s, es + fs, bounded) == ApplyAll(ApplyAll(s, es, bounded), fs, bounded)
    decreases |es|
  {
    if es == [] {
      assert es + fs == fs;
    } else {
      assert (es + fs)[1..] == es[1..] + fs;
      ApplyAllConcat(Apply(s, es[0], bounded), es[1..], fs, bounded);
    }
  }

  // ---------------------------------------------------------------------
  // The control flow of `wait`.

  /** Handling `e` settled the target's promise, so `wait` returns right after it. */
  predicate SettlesTarget(target: Option<Handle>, e: Event, bounded: bool) {
    target == Some(e.handle) && Settlement(e, bounded).Some?
  }

  /** The duration check runs only under a maximum duration and a non-zero idle timeout. */
  predicate Checks(maxDuration: Option<real>, idle: Option<real>) {
    maxDuration.Some? && idle.Some? && idle.value != 0.0
  }

  /** The time left once `e` was handled: never below 0. */
  function TimeLeft(maxDuration: real, e: Event): real {
    Max(0.0, maxDuration - e.elapsed)
  }

  /** The duration check after `e` breaks off the pass: the idle timeout exceeds the time left. */
  predicate Fires(maxDuration: Option<real>, idle: Option<real>, e: Event) {
    Checks(maxDuration, idle) && idle.value > TimeLeft(maxDuration.value, e)
  }

  /** The time left as of the last duration check after the events `checked`, or `remaining` if none ran. */
  function LeftAfter(maxDuration: Option<real>, idle: Option<real>, remaining: real, checked: seq<Event>): real {
    if |checked| > 0 && Checks(maxDuration, idle) then TimeLeft(maxDuration.value, checked[|checked| - 1])
    else remaining
  }

  /** The idle timeout of the next stream call: a fifth of the time left after an interruption. */
  function NextIdle(end: PassEnd, idle: Option<real>, remaining: real): Option<real> {
    if end.Interrupted? then Some(remaining / 5.0) else idle
  }

  /** No event of `es` settles the target or fires the duration check. */
  predicate Quiet(target: Option<Handle>, maxDuration: Option<real>, idle: Option<real>, es: seq<Event>) {
    forall k | 0 <= k < |es| :: !SettlesTarget(target, es[k], maxDuration.Some?) && !Fires(maxDuration, idle, es[k])
  }

  /**
   * How one pass over `events` goes, with idle timeout `idle` and `remaining`
   * time left before it: `handled` are the events handled, a prefix of them.
   * The pass ends at the first event that settles the target, at the first
   * that fires the duration check, or after all of them, none doing either.
   * `remaining'` is the time left as of the last check that ran.
   */
  predicate PassSpec(target: Option<Handle>, maxDuration: Option<real>, idle: Option<real>, remaining: real,
                     events: seq<Event>, end: PassEnd, remaining': real, handled: seq<Event>) {
    var n := |handled|;
    && n <= |events| && handled == events[..n]
    && match end
       case Completed =>
         n == |events| && Quiet(target, maxDuration, idle, handled) &&
         remaining' == LeftAfter(maxDuration, idle, remaining, handled)
       case TargetSettled =>
         n > 0 && Quiet(target, maxDuration, idle, handled[..n - 1]) &&
         SettlesTarget(target, handled[n - 1], maxDuration.Some?) &&
         remaining' == LeftAfter(maxDuration, idle, remaining, handled[..n - 1])
       case Interrupted =>
         n > 0 && Quiet(target, maxDuration, idle, handled[..n - 1]) &&
         !SettlesTarget(target, handled[n - 1], maxDuration.Some?) && Fires(maxDuration, idle, handled[n - 1]) &&
         remaining' == LeftAfter(maxDuration, idle, remaining, handled)
  }

  /** Handling one more event that neither settles the target nor fires the check keeps the pass going. */
  lemma QuietStep(target: Option<Handle>, maxDuration: Option<real>, idle: Option<real>, remaining: real,
                  es: seq<Event>, e: Event)
    requires Quiet(target, maxDuration, idle, es)
    requires !SettlesTarget(target, e, maxDuration.Some?) && !Fires(maxDuration, idle, e)
    ensures Quiet(target, maxDuration, idle, es + [e])
    ensures LeftAfter(maxDuration, idle, remaining, es + [e]) ==
            if Checks(maxDuration, idle) then TimeLeft(maxDuration.value, e)
            else LeftAfter(maxDuration, idle, remaining, es)
  {
    assert forall k | 0 <= k < |es| :: (es + [e])[k] == es[k];
  }

  /** A pass that stops at event `j` of `events`, the ones before it quiet, ends as `PassSpec` says. */
  lemma PassStops(target: Option<Handle>, maxDuration: Option<real>, idle: Option<real>, remaining: real,
                  events: seq<Event>, j: nat, end: PassEnd, remaining': real)
    requires j < |events| && Quiet(target, maxDuration, idle, events[..j])
    requires end.TargetSettled? ==>
               SettlesTarget(target, events[j], maxDuration.Some?) &&
               remaining' == LeftAfter(maxDuration, idle, remaining, events[..j])
    requires end.Interrupted? ==>
               !SettlesTarget(target, events[j], maxDuration.Some?) && Fires(maxDuration, idle, events[j]) &&
               remaining' == TimeLeft(maxDuration.value, events[j])
    requires !end.Completed?
    ensures PassSpec(target, maxDuration, idle, remaining, events, end, remaining', events[..j + 1])
  {
    assert events[..j + 1][..j] == events[..j];
  }

  /**
   * The record of one stream call of `wait`: its idle timeout, how many of
   * its chunks were handled, how its pass ended, and the time left and the
   * pool after it.
   */
  datatype Call = Call(idle: Option<real>, handled: nat, end: PassEnd, left: real, pool: PoolState)

  /** The time left before stream call `p`: the whole maximum duration before the first. */
  function LeftBefore(maxDuration: Option<real>, calls: seq<Call>, p: nat): real
    requires p <= |calls|
  {
    if p > 0 then calls[p - 1].left else if maxDuration.Some? then maxDuration.value else 0.0
  }

  /** The pool before stream call `p`. */
  function PoolBefore(s0: PoolState, calls: seq<Call>, p: nat): PoolState
    requires p <= |calls|
  {
    if p > 0 then calls[p - 1].pool else s0
  }

  /** The idle timeout of stream call `p`: the initial one, then as each pass left it. */
  function IdleBefore(maxDuration: Option<real>, idleTimeout: Option<real>, calls: seq<Call>, p: nat): Option<real>
    requires p <= |calls|
  {
    if p == 0 then InitialIdle(maxDuration, idleTimeout)
    else NextIdle(calls[p - 1].end, calls[p - 1].idle, calls[p - 1].left)
  }

  /** How many chunks of each stream call were handled fits what the script's call yielded. */
  predicate Fits(passes: seq<seq<Event>>, calls: seq<Call>) {
    |calls| <= |passes| && forall p | 0 <= p < |calls| :: calls[p].handled <= |passes[p]|
  }

  /** The chunks handled over the stream calls `calls`, in order. */
  function Consumed(passes: seq<seq<Event>>, calls: seq<Call>): seq<Event>
    requires Fits(passes, calls)
    decreases |calls|
  {
    if calls == [] then []
    else
      var n := |calls| - 1;
      Consumed(passes, calls[..n]) + passes[n][..calls[n].handled]
  }

  /**
   * Stream call `p` of `calls`: its idle timeout as the passes before it
   * left it, its pass as `PassSpec` says, and the pool after it.
   */
  ghost predicate Recorded(target: Option<Handle>, maxDuration: Option<real>, idleTimeout: Option<real>,
                           passes: seq<seq<Event>>, s0: PoolState, calls: seq<Call>, p: nat) {
    && p < |calls| <= |passes| && calls[p].handled <= |passes[p]|
    && calls[p].idle == IdleBefore(maxDuration, idleTimeout, calls, p)
    && PassSpec(target, maxDuration, calls[p].idle, LeftBefore(maxDuration, calls, p), passes[p], calls[p].end,
                calls[p].left, passes[p][..calls[p].handled])
    && Consistent(PoolBefore(s0, calls, p))
    && calls[p].pool == ApplyAll(PoolBefore(s0, calls, p), passes[p][..calls[p].handled], maxDuration.Some?)
  }

  /** `calls` are the stream calls of a `wait` over `passes` from pool `s0`, each as `Recorded` says. */
  ghost predicate Ran(target: Option<Handle>, maxDuration: Option<real>, idleTimeout: Option<real>,
                      passes: seq<seq<Event>>, s0: PoolState, calls: seq<Call>) {
    && |calls| <= |passes| && Consistent(s0)
    && forall p: nat | p < |calls| :: Recorded(target, maxDuration, idleTimeout, passes, s0, calls, p)
  }

  /**
   * `wait` makes another stream call after `c`: the target was not settled,
   * promises are still pending, and under a maximum duration time is left.
   */
  predicate Continued(maxDuration: Option<real>, c: Call) {
    !c.end.TargetSettled? && |c.pool.attached| > 0 && (maxDuration.Some? ==> c.left > 0.0)
  }

  /**
   * What `wait` over `passes` came to, from pool `s0` to pool `s`: the stream
   * calls `calls`, the events `consumed` handled in order, another stream
   * call after every one but the last, and a return exactly when the last
   * did not continue; `Exhausted` only when the script ran out.
   */
  ghost predicate WaitOutcome(target: Option<Handle>, maxDuration: Option<real>, idleTimeout: Option<real>,
                              passes: seq<seq<Event>>, s0: PoolState, s: PoolState, r: WaitResult,
                              consumed: seq<Event>, calls: seq<Call>) {
    var n := |calls|;
    && Ran(target, maxDuration, idleTimeout, passes, s0, calls)
    && s == PoolBefore(s0, calls, n)
    && Fits(passes, calls) && consumed == Consumed(passes, calls)
    && s == ApplyAll(s0, consumed, maxDuration.Some?)
    && (forall p | 0 <= p < n - 1 :: Continued(maxDuration, calls[p]))
    && (r.Returned? ==> n > 0 && r.count == |s.attached| && !Continued(maxDuration, calls[n - 1]))
    && (r.Exhausted? ==> n == |passes| && (n > 0 ==> Continued(maxDuration, calls[n - 1])))
  }

  /** One more stream call, whose pass is as `PassSpec` says, extends the record. */
  lemma RanStep(target: Option<Handle>, maxDuration: Option<real>, idleTimeout: Option<real>,
                passes: seq<seq<Event>>, s0: PoolState, calls: seq<Call>, c: Call)
    requires Ran(target, maxDuration, idleTimeout, passes, s0, calls) && |calls| < |passes|
    requires Consistent(PoolBefore(s0, calls, |calls|))
    requires c.idle == IdleBefore(maxDuration, idleTimeout, calls, |calls|) && c.handled <= |passes[|calls|]|
    requires PassSpec(target, maxDuration, c.idle, LeftBefore(maxDuration, calls, |calls|), passes[|calls|], c.end,
                      c.left, passes[|calls|][..c.handled])
    requires c.pool == ApplyAll(PoolBefore(s0, calls, |calls|), passes[|calls|][..c.handled], maxDuration.Some?)
    ensures Ran(target, maxDuration, idleTimeout, passes, s0, calls + [c])
  {
    var calls' := calls + [c];
    forall p: nat | p < |calls'|
      ensures Recorded(target, maxDuration, idleTimeout, passes, s0, calls', p)
    {
      if p < |calls| {
        assert Recorded(target, maxDuration, idleTimeout, passes, s0, calls, p);
        assert calls'[p] == calls[p];
        if p > 0 {
          assert calls'[p - 1] == calls[p - 1];
        }
      } else {
        assert calls'[p] == c;
        if p > 0 {
          assert calls'[p - 1] == calls[p - 1];
        }
      }
    }
  }

  /** The pool after the last stream call of a record. */
  lemma RanPool(target: Option<Handle>, maxDuration: Option<real>, idleTimeout: Option<real>,
                passes: seq<seq<Event>>, s0: PoolState, calls: seq<Call>)
    requires Ran(target, maxDuration, idleTimeout, passes, s0, calls)
    ensures Consistent(PoolBefore(s0, calls, |calls|))
  {
    if |calls| > 0 {
      assert Recorded(target, maxDuration, idleTimeout, passes, s0, calls, |calls| - 1);
    }
  }

  /** The record grows by one stream call; the chunks consumed grow by those it handled. */
  lemma ConsumedStep(passes: seq<seq<Event>>, calls: seq<Call>, c: Call)
    requires Fits(passes, calls) && |calls| < |passes| && c.handled <= |passes[|calls|]|
    ensures Fits(passes, calls + [c])
    ensures Consumed(passes, calls + [c]) == Consumed(passes, calls) + passes[|calls|][..c.handled]
  {
    assert (calls + [c])[..|calls|] == calls;
  }

  /**
   * The state of `wait` after the stream calls `calls`, with the pool at `s`:
   * what `WaitOutcome` says, and the idle timeout and time left the next
   * stream call gets; `done` once a `return` was taken.
   */
  ghost predicate Looping(target: Option<Handle>, maxDuration: Option<real>, idleTimeout: Option<real>,
                          passes: seq<seq<Event>>, s0: PoolState, s: PoolState, calls: seq<Call>,
                          consumed: seq<Event>, idle: Option<real>, remaining: real, done: bool, r: WaitResult) {
    var n := |calls|;
    && Ran(target, maxDuration, idleTimeout, passes, s0, calls) && Fits(passes, calls)
    && s == PoolBefore(s0, calls, n) && remaining == LeftBefore(maxDuration, calls, n)
    && idle == IdleBefore(maxDuration, idleTimeout, calls, n)
    && consumed == Consumed(passes, calls) && s == ApplyAll(s0, consumed, maxDuration.Some?)
    && (forall p | 0 <= p < n - 1 :: Continued(maxDuration, calls[p]))
    && (n > 0 ==> (done <==> !Continued(maxDuration, calls[n - 1])))
    && (done ==> n > 0 && r == Returned(|s.attached|))
    && (!done ==> r == Exhausted)
    && (maxDuration.Some? && maxDuration.value <= 0.0 ==>
          (n == 0 && idle == Some(0.0) && remaining == maxDuration.value) || (n == 1 && done))
  }

  /** Before the first stream call. */
  lemma LoopingStart(target: Option<Handle>, maxDuration: Option<real>, idleTimeout: Option<real>,
                     passes: seq<seq<Event>>, s0: PoolState)
    requires Consistent(s0)
    ensures Looping(target, maxDuration, idleTimeout, passes, s0, s0, [], [], InitialIdle(maxDuration, idleTimeout),
                    if maxDuration.Some? then maxDuration.value else 0.0, false, Exhausted)
  {
  }

  /** One more stream call `c`, as `Step` records it, keeps `Looping`; `wait` returns unless `c` continued. */
  lemma LoopingStep(target: Option<Handle>, maxDuration: Option<real>, idleTimeout: Option<real>,
                    passes: seq<seq<Event>>, s0: PoolState, calls: seq<Call>, consumed: seq<Event>,
                    idle: Option<real>, remaining: real, c: Call, idle': Option<real>)
    requires Looping(target, maxDuration, idleTimeout, passes, s0, PoolBefore(s0, calls, |calls|), calls, consumed,
                     idle, remaining, false, Exhausted)
    requires |calls| < |passes| && c.idle == idle
    requires Ran(target, maxDuration, idleTimeout, passes, s0, calls + [c]) && Fits(passes, calls + [c])
    requires idle' == IdleBefore(maxDuration, idleTimeout, calls + [c], |calls| + 1)
    requires c.pool == ApplyAll(s0, Consumed(passes, calls + [c]), maxDuration.Some?)
    requires !Checks(maxDuration, idle) ==> idle' == idle && c.left == remaining
    ensures var done := !Continued(maxDuration, c);
            Looping(target, maxDuration, idleTimeout, passes, s0, c.pool, calls + [c], Consumed(passes, calls + [c]),
                    idle', c.left, done, if done then Returned(|c.pool.attached|) else Exhausted)
  {
    var calls' := calls + [c];
    assert forall p | 0 <= p < |calls| :: calls'[p] == calls[p];
  }

  class WaitLoop {
    const pool: PromisePool

    constructor (pool: PromisePool)
      ensures this.pool == pool
    {
      this.pool := pool;
    }

    /**
     * The `try`/`catch` for one chunk: a response whose last chunk arrived,
     * or whose handling threw, is detached from the pool and its promise
     * settled.
     */
    method HandleChunk(e: Event, bounded: bool) returns (settled: Option<PromiseState>)
      requires pool.Valid()
      modifies pool
      ensures pool.Valid()
      ensures settled == Settlement(e, bounded)
      ensures pool.State() == Apply(old(pool.State()), e, bounded)
    {
      settled := Settlement(e, bounded);
      if settled.Some? && e.handle in pool.attached {
        pool.Detach(e.handle, settled.value);
      }
    }

    /**
     * One pass of the `foreach` over a stream: handle `events` in order until
     * the target is settled or the duration check breaks off the pass.
     * `handled` are the events handled.
     */
    method Pass(target: Option<Handle>, maxDuration: Option<real>, idle: Option<real>, remaining: real,
                events: seq<Event>)
      returns (end: PassEnd, idle': Option<real>, remaining': real, ghost handled: seq<Event>)
      requires pool.Valid()
      modifies pool
      ensures pool.Valid()
      ensures pool.State() == ApplyAll(old(pool.State()), handled, maxDuration.Some?)
      ensures PassSpec(target, maxDuration, idle, remaining, events, end, remaining', handled)
      ensures idle' == NextIdle(end, idle, remaining')
      ensures end.Interrupted? ==>
                maxDuration.Some? && idle.Some? && idle.value > remaining' >= 0.0 && idle' == Some(remaining' / 5.0)
      ensures !Checks(maxDuration, idle) ==> idle' == idle && remaining' == remaining
    {
      var bounded := maxDuration.Some?;
      idle' := idle;
      remaining' := remaining;
      handled := [];
      var j := 0;
      while j < |events|
        invariant 0 <= j <= |events| && handled == events[..j]
        invariant pool.Valid()
        invariant pool.State() == ApplyAll(old(pool.State()), handled, bounded)
        invariant idle' == idle
        invariant Quiet(target, maxDuration, idle, handled)
        invariant remaining' == LeftAfter(maxDuration, idle, remaining, handled)
      {
        var e := events[j];
        var settled := HandleChunk(e, bounded);
        ApplyAllAppend(old(pool.State()), handled, e, bounded);
        assert events[..j + 1] == handled + [e];
        // a chunk that settles nothing goes straight to the duration check;
        // the callbacks a settlement queued run before the target test
        if settled.Some? && target == Some(e.handle) {
          PassStops(target, maxDuration, idle, remaining, events, j, TargetSettled, remaining');
          return TargetSettled, idle', remaining', events[..j + 1];
        }
        // check_duration
        if bounded && idle.Some? && idle.value != 0.0 {
          remaining' := Max(0.0, maxDuration.value - e.elapsed);
          if idle.value > remaining' {
            idle' := Some(remaining' / 5.0);
            PassStops(target, maxDuration, idle, remaining, events, j, Interrupted, remaining');
            return Interrupted, idle', remaining', events[..j + 1];
          }
        }
        QuietStep(target, maxDuration, idle, remaining, handled, e);
        handled := handled + [e];
        j := j + 1;
      }
      end := Completed;
    }

    /**
     * One stream call of `wait`: a pass over its chunks, recorded as `c`.
     */
    method Step(target: Option<Handle>, maxDuration: Option<real>, idleTimeout: Option<real>,
                passes: seq<seq<Event>>, ghost s0: PoolState, ghost calls: seq<Call>, i: nat, idle: Option<real>,
                remaining: real, ghost consumed: seq<Event>)
      returns (end: PassEnd, idle': Option<real>, remaining': real, ghost c: Call)
      requires pool.Valid()
      requires Ran(target, maxDuration, idleTimeout, passes, s0, calls) && i == |calls| < |passes|
      requires pool.State() == PoolBefore(s0, calls, i)
      requires idle == IdleBefore(maxDuration, idleTimeout, calls, i) && remaining == LeftBefore(maxDuration, calls, i)
      requires Fits(passes, calls) && consumed == Consumed(passes, calls)
      requires pool.State() == ApplyAll(s0, consumed, maxDuration.Some?)
      modifies pool
      ensures pool.Valid()
      ensures c == Call(idle, c.handled, end, remaining', pool.State())
      ensures Ran(target, maxDuration, idleTimeout, passes, s0, calls + [c])
      ensures idle' == IdleBefore(maxDuration, idleTimeout, calls + [c], i + 1)
      ensures Fits(passes, calls + [c])
      ensures pool.State() == ApplyAll(s0, Consumed(passes, calls + [c]), maxDuration.Some?)
      ensures !Checks(maxDuration, idle) ==> idle' == idle && remaining' == remaining
    {
      ghost var handled;
      end, idle', remaining', handled := Pass(target, maxDuration, idle, remaining, passes[i]);
      c := Call(idle, |handled|, end, remaining', pool.State());
      RanStep(target, maxDuration, idleTimeout, passes, s0, calls, c);
      ConsumedStep(passes, calls, c);
      ApplyAllConcat(s0, consumed, handled, maxDuration.Some?);
    }

    /**
     * `wait($pendingResponse, $maxDuration, $idleTimeout)`. Besides the
     * result, `calls` records the stream calls made, and `consumed` the
     * events handled, in order.
     */
    method Wait(target: Option<Handle>, maxDuration: Option<real>, idleTimeout: Option<real>,
                passes: seq<seq<Event>>)
      returns (r: WaitResult, ghost consumed: seq<Event>, ghost calls: seq<Call>)
      requires pool.Valid()
      modifies pool
      ensures pool.Valid()
      ensures WaitOutcome(target, maxDuration, idleTimeout, passes, old(pool.State()), pool.State(), r, consumed, calls)
      ensures maxDuration.Some? && maxDuration.value <= 0.0 && |passes| > 0 ==> r.Returned? && |calls| == 1
    {
      var bounded := maxDuration.Some?;
      var idle := InitialIdle(maxDuration, idleTimeout);
      var remaining := if bounded then maxDuration.value else 0.0;
      var i := 0;
      var done := false;
      ghost var s0 := pool.State();
      consumed := [];
      calls := [];
      r := Exhausted;
      LoopingStart(target, maxDuration, idleTimeout, passes, s0);
      // the `do ... while` of the source, its returns setting `done`
      while !done && i < |passes|
        invariant 0 <= i <= |passes| && |calls| == i
        invariant pool.Valid()
        invariant Looping(target, maxDuration, idleTimeout, passes, s0, pool.State(), calls, consumed, idle, remaining,
                          done, r)
        decreases |passes| - i
      {
        var end;
        ghost var c;
        ghost var idle0, remaining0 := idle, remaining;
        end, idle, remaining, c := Step(target, maxDuration, idleTimeout, passes, s0, calls, i, idle, remaining, consumed);
        LoopingStep(target, maxDuration, idleTimeout, passes, s0, calls, consumed, idle0, remaining0, c, idle);
        calls := calls + [c];
        consumed := Consumed(passes, calls);
        i := i + 1;
        // `return` once the target is settled or the pool is empty (`count` is then 0), or when the time is up
        if end.TargetSettled? || |pool.attached| == 0 || (bounded && remaining <= 0.0) {
          r := Returned(|pool.attached|);
          done := true;
        }
      }
    }
  }
}
