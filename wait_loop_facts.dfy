/**
 * What handling a sequence of chunks does to the pool: each pooled response
 * is settled by the first chunk that settles it, and nothing else changes.
 */
module MultiplexerFacts {
  import opened Http
  import opened Pool
  import opened Multiplexer

  /** The settlement of the first event in `es` that settles `h`, if any. */
  function FirstSettlement(es: seq<Event>, h: Handle, bounded: bool): (r: Option<PromiseState>)
    ensures r.Some? ==> !r.value.Pending?
    ensures r.Some? <==> exists k | 0 <= k < |es| :: es[k].handle == h && Settlement(es[k], bounded).Some?
    decreases |es|
  {
    if es == [] then None
    else if es[0].handle == h && Settlement(es[0], bounded).Some? then Settlement(es[0], bounded)
    else
      var r := FirstSettlement(es[1..], h, bounded);
      assert forall k | 1 <= k < |es| :: es[k] == es[1..][k - 1];
      r
  }

  /** The chunk cases of one event. */
  lemma ApplyCases(s: PoolState, e: Event, bounded: bool)
    requires Consistent(s)
    ensures e.handle !in s.attached ==> Apply(s, e, bounded) == s
    ensures e.chunk.First? || e.chunk.Middle? || (e.chunk.TimedOut? && bounded) ==> Apply(s, e, bounded) == s
    ensures e.chunk.Last? && e.handle in s.attached ==>
              Apply(s, e, bounded) == Settle(s, e.handle, FulfilledWith(e.handle))
    ensures e.chunk.Failed? && e.handle in s.attached ==>
              Apply(s, e, bounded) == Settle(s, e.handle, RejectedWith(e.chunk.error))
    ensures e.chunk.TimedOut? && !bounded && e.handle in s.attached ==>
              Apply(s, e, bounded) == Settle(s, e.handle, RejectedWith(TransportError(Timeout, e.handle)))
  {
  }

  /**
   * After handling `es`, a response is still attached exactly when it was
   * and no event settled it; a response that was attached and is no longer
   * has the settlement of its first settling event; every other promise is
   * as it was.
   */
  lemma {:induction false} ApplyAllCharacterized(s: PoolState, es: seq<Event>, bounded: bool)
    requires Consistent(s)
    ensures var r := ApplyAll(s, es, bounded);
            r.promises.Keys == s.promises.Keys &&
            (forall h :: h in r.attached <==> h in s.attached && FirstSettlement(es, h, bounded).None?) &&
            (forall h | h in s.promises ::
               r.promises[h] == if h in s.attached && FirstSettlement(es, h, bounded).Some?
                                then FirstSettlement(es, h, bounded).value else s.promises[h])
    decreases |es|
  {
    if es != [] {
      var e := es[0];
      var s' := Apply(s, e, bounded);
      ApplyAllCharacterized(s', es[1..], bounded);
      var r := ApplyAll(s, es, bounded);
      assert r == ApplyAll(s', es[1..], bounded);
      forall h
        ensures h in r.attached <==> h in s.attached && FirstSettlement(es, h, bounded).None?
      {
        if h == e.handle && Settlement(e, bounded).Some? {
          assert h !in s'.attached;
        } else {
          assert h in s'.attached <==> h in s.attached;
        }
      }
      forall h | h in s.promises
        ensures r.promises[h] == if h in s.attached && FirstSettlement(es, h, bounded).Some?
                                 then FirstSettlement(es, h, bounded).value else s.promises[h]
      {
        if h == e.handle && Settlement(e, bounded).Some? {
          assert h !in s'.attached;
        } else {
          assert h in s'.attached <==> h in s.attached;
          assert s'.promises[h] == s.promises[h];
        }
      }
    }
  }

  /** A settling last event leaves its response detached. */
  lemma SettledDetached(s: PoolState, es: seq<Event>, bounded: bool)
    requires Consistent(s)
    requires |es| > 0 && Settlement(es[|es| - 1], bounded).Some?
    ensures es[|es| - 1].handle !in ApplyAll(s, es, bounded).attached
  {
    var n := |es|;
    assert es == es[..n - 1] + [es[n - 1]];
    ApplyAllAppend(s, es[..n - 1], es[n - 1], bounded);
  }

  /**
   * `wait` returns only when the pool is empty, when the time allowed is up,
   * or when the target was settled, and then the target is detached.
   */
  lemma ReturnedWhen(target: Option<Handle>, maxDuration: Option<real>, idleTimeout: Option<real>,
                     passes: seq<seq<Event>>, s0: PoolState, s: PoolState, r: WaitResult,
                     consumed: seq<Event>, calls: seq<Call>)
    requires WaitOutcome(target, maxDuration, idleTimeout, passes, s0, s, r, consumed, calls) && r.Returned?
    ensures var last := calls[|calls| - 1];
            || s.attached == {}
            || (maxDuration.Some? && last.left <= 0.0)
            || (target.Some? && last.end.TargetSettled? && target.value !in s.attached)
  {
    var n := |calls|;
    if calls[n - 1].end.TargetSettled? {
      assert Recorded(target, maxDuration, idleTimeout, passes, s0, calls, n - 1);
      SettledDetached(PoolBefore(s0, calls, n - 1), passes[n - 1][..calls[n - 1].handled], maxDuration.Some?);
    }
  }

  /**
   * The idle timeouts of the stream calls of a `wait`: the first is
   * `InitialIdle`; with no maximum duration each is the given idle timeout;
   * with one, each is set, non-negative and no larger than any before it.
   */
  lemma {:induction false} RanSchedule(target: Option<Handle>, maxDuration: Option<real>, idleTimeout: Option<real>,
                                       passes: seq<seq<Event>>, s0: PoolState, calls: seq<Call>, n: nat)
    requires Ran(target, maxDuration, idleTimeout, passes, s0, calls) && n <= |calls|
    ensures n > 0 ==> calls[0].idle == InitialIdle(maxDuration, idleTimeout)
    ensures maxDuration.None? ==> forall p | 0 <= p < n :: calls[p].idle == idleTimeout
    ensures maxDuration.Some? ==> forall p | 0 <= p < n :: calls[p].idle.Some? && calls[p].idle.value >= 0.0
    ensures maxDuration.Some? ==>
              forall j, k | 0 <= j <= k < n :: calls[k].idle.Some? && calls[k].idle.value <= calls[j].idle.value
  {
    if n > 0 {
      RanSchedule(target, maxDuration, idleTimeout, passes, s0, calls, n - 1);
      var q := n - 1;
      assert Recorded(target, maxDuration, idleTimeout, passes, s0, calls, q);
      if q > 0 {
        assert Recorded(target, maxDuration, idleTimeout, passes, s0, calls, q - 1);
      }
    }
  }

  /** Every stream call of an idle-timeout-0 `wait` under a positive maximum duration: the check never runs. */
  lemma {:induction false} ZeroIdleCalls(target: Option<Handle>, maxDuration: real, passes: seq<seq<Event>>,
                                         s0: PoolState, calls: seq<Call>, n: nat)
    requires Ran(target, Some(maxDuration), Some(0.0), passes, s0, calls) && maxDuration > 0.0 && n <= |calls|
    ensures forall p | 0 <= p < n ::
              calls[p].idle == Some(0.0) && !calls[p].end.Interrupted? && calls[p].left == maxDuration
  {
    if n > 0 {
      ZeroIdleCalls(target, maxDuration, passes, s0, calls, n - 1);
      assert Recorded(target, Some(maxDuration), Some(0.0), passes, s0, calls, n - 1);
    }
  }

  /**
   * With an idle timeout of 0 and a positive maximum duration, the
   * duration check never runs: every stream call gets idle timeout 0, no
   * pass is broken off, the time left stays the whole maximum duration,
   * and `wait` returns only once the pool is empty or the target is settled.
   */
  lemma ZeroIdleKeepsWaiting(target: Option<Handle>, maxDuration: real, passes: seq<seq<Event>>,
                             s0: PoolState, s: PoolState, r: WaitResult, consumed: seq<Event>, calls: seq<Call>)
    requires WaitOutcome(target, Some(maxDuration), Some(0.0), passes, s0, s, r, consumed, calls)
    requires maxDuration > 0.0
    ensures forall p | 0 <= p < |calls| ::
              calls[p].idle == Some(0.0) && !calls[p].end.Interrupted? && calls[p].left == maxDuration
    ensures r.Returned? ==> s.attached == {} || (target.Some? && target.value !in s.attached)
  {
    ZeroIdleCalls(target, maxDuration, passes, s0, calls, |calls|);
    if r.Returned? {
      ReturnedWhen(target, Some(maxDuration), Some(0.0), passes, s0, s, r, consumed, calls);
    }
  }
}
