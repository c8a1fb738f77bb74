/**
 * Properties of the delay strategies: each node's promise, the ranges a
 * jitter node draws from, the search a chain makes, and the default chain.
 */
module DelayStrategyFacts {
  import opened Http
  import opened PhpMath
  import opened DelayStrategy
  import RetryAfterHeader

  // ---------------------------------------------------------------------
  // Leaves

  /** A constant delay ignores its arguments; a non-null one is never negative. */
  lemma ConstantIgnoresArguments(ms: Option<int>, c1: int, r1: Option<Response>, e1: Env,
                                 c2: int, r2: Option<Response>, e2: Env, d: Delay)
    requires Valid(Constant(ms))
    requires Possible(Constant(ms), c1, r1, e1, d)
    ensures Possible(Constant(ms), c2, r2, e2, d)
    ensures ms.None? <==> d.Abstain?
    ensures d.Millis? ==> ms == Some(d.ms) && d.ms >= 0
  {
  }

  /** An exponential back-off never goes negative, whatever the count. */
  lemma ExponentialNonNegative(initial: int, multiplier: real, count: int)
    requires initial >= 0 && multiplier >= 1.0
    ensures ExponentialDelay(initial, multiplier, count) >= 0
  {
    ScaledRoundMonotone(initial, 0.0, Pow(multiplier, count - 1));
    assert Scaled(initial, 0.0) == 0.0;
    RoundOfInteger(0);
  }

  /** An exponential back-off does not decrease as the count grows. */
  lemma ExponentialNonDecreasing(initial: int, multiplier: real, c1: int, c2: int)
    requires initial >= 0 && multiplier >= 1.0
    requires c1 <= c2
    ensures 0 <= ExponentialDelay(initial, multiplier, c1)
    ensures ExponentialDelay(initial, multiplier, c1) <= ExponentialDelay(initial, multiplier, c2)
  {
    PowMonotone(multiplier, c1 - 1, c2 - 1);
    ScaledRoundMonotone(initial, Pow(multiplier, c1 - 1), Pow(multiplier, c2 - 1));
    ExponentialNonNegative(initial, multiplier, c1);
  }

  /** Scaling a non-negative integer by two ordered factors keeps the order of the rounded results. */
  lemma ScaledRoundMonotone(n: int, x: real, y: real)
    requires n >= 0 && x <= y
    ensures Round(Scaled(n, x)) <= Round(Scaled(n, y))
  {
    ScaleMonotone(n as real, x, y);
    RoundMonotone(Scaled(n, x), Scaled(n, y));
  }

  /** The first retry waits exactly the initial delay. */
  lemma ExponentialFirstRetry(initial: int, multiplier: real)
    requires multiplier >= 1.0
    ensures ExponentialDelay(initial, multiplier, 1) == initial
  {
    RoundOfInteger(initial);
  }

  lemma ExponentialExamples()
    ensures ExponentialDelay(0, 2.0, 2) == 0
    ensures ExponentialDelay(3, 1.0, 2) == 3
    ensures ExponentialDelay(500, 2.3, 3) == 2645
    ensures ExponentialDelay(1000, 1.6, 4) == 4096
  {
    assert Pow(2.0, 1) == 2.0;
    RoundOfInteger(0);
    assert Pow(1.0, 1) == 1.0;
    RoundOfInteger(3);
    assert Pow(2.3, 2) == 5.29;
    RoundOfInteger(2645);
    assert Pow(1.6, 3) == 4.096;
    RoundOfInteger(4096);
  }

  /** An incremental back-off grows by exactly its initial delay per count. */
  lemma IncrementalStep(initial: int, count: int, response: Option<Response>, env: Env, d0: Delay, d1: Delay)
    requires Valid(Incremental(initial))
    requires Possible(Incremental(initial), count, response, env, d0)
    requires Possible(Incremental(initial), count + 1, response, env, d1)
    ensures d0.Millis? && d1.Millis? && d1.ms == d0.ms + initial
  {
  }

  lemma IncrementalExamples(response: Option<Response>, env: Env)
    ensures Possible(Incremental(500), 1, response, env, Millis(500))
    ensures Possible(Incremental(500), 2, response, env, Millis(1000))
  {
  }

  // ---------------------------------------------------------------------
  // DelayCap

  /**
   * The six configurations of the cap's table, with a constant inner
   * strategy standing for the fixed stub; count 2 and no response.
   */
  lemma CapExamples(env: Env, d: Delay)
    ensures Possible(Cap(123, Constant(None), false), 2, None, env, d) <==> d == Abstain
    ensures Possible(Cap(321, Constant(None), true), 2, None, env, d) <==> d == Abstain
    ensures Possible(Cap(123, Constant(Some(321)), false), 2, None, env, d) <==> d == Millis(123)
    ensures Possible(Cap(123, Constant(Some(321)), true), 2, None, env, d) <==> d == Abstain
    ensures Possible(Cap(0, Constant(Some(123)), false), 2, None, env, d) <==> d == Millis(0)
    ensures Possible(Cap(0, Constant(Some(123)), true), 2, None, env, d) <==> d == Abstain
  {
    CapOverConstant(123, None, false, 2, None, env, d);
    CapOverConstant(321, None, true, 2, None, env, d);
    CapOverConstant(123, Some(321), false, 2, None, env, d);
    CapOverConstant(123, Some(321), true, 2, None, env, d);
    CapOverConstant(0, Some(123), false, 2, None, env, d);
    CapOverConstant(0, Some(123), true, 2, None, env, d);
  }

  /** A cap over a constant delay gives the cap of that constant. */
  lemma CapOverConstant(max: int, ms: Option<int>, fallthrough: bool, count: int, response: Option<Response>,
                        env: Env, d: Delay)
    requires Valid(Cap(max, Constant(ms), fallthrough))
    ensures Possible(Cap(max, Constant(ms), fallthrough), count, response, env, d) <==>
            d == CapDelay(if ms.Some? then Millis(ms.value) else Abstain, max, fallthrough)
  {
    assert Possible(Constant(ms), count, response, env, if ms.Some? then Millis(ms.value) else Abstain);
  }

  // ---------------------------------------------------------------------
  // DelayJitter

  /**
   * Between non-decreasing neighbours, the jitter range contains the delay and
   * stays within the neighbours.
   */
  lemma JitterBounds(delay: int, prev: int, next: int, factor: real)
    requires 0.0 <= factor <= 1.0
    requires prev <= delay <= next
    ensures prev <= JitterFrom(delay, prev, factor) <= delay <= JitterTo(delay, next, factor) <= next
  {
    RoundedFraction(delay - prev, factor);
    RoundedFraction(next - delay, factor);
  }

  /** A fraction of a non-negative integer, rounded, lies between 0 and that integer. */
  lemma RoundedFraction(n: int, factor: real)
    requires n >= 0 && 0.0 <= factor <= 1.0
    ensures 0 <= Round(n as real * factor) <= n
  {
    var a := n as real;
    var x := a * factor;
    assert 0.0 <= x by { ScaleMonotone(a, 0.0, factor); }
    assert x <= a by { ScaleMonotone(a, factor, 1.0); }
    RoundMonotone(0.0, x);
    RoundMonotone(x, a);
    RoundOfInteger(0);
    RoundOfInteger(n);
  }

  /** The inner result at the count that made a jitter node give `d`. */
  lemma JitterInner(factor: real, inner: Strategy, count: int, response: Option<Response>, env: Env, d: Delay)
    returns (x: Delay)
    requires Valid(Jitter(factor, inner))
    requires Possible(Jitter(factor, inner), count, response, env, d)
    ensures Possible(inner, count, response, env, x)
    ensures JitterAfterDelay(factor, inner, x, count, response, env, d)
  {
    x :| Possible(inner, count, response, env, x) && JitterAfterDelay(factor, inner, x, count, response, env, d);
  }

  /** The inner result at the count below, once the count itself gave a delay. */
  lemma JitterPrev(factor: real, inner: Strategy, x: Delay, count: int, response: Option<Response>, env: Env,
                   d: Delay)
    returns (p: Delay)
    requires Valid(inner) && x.Millis?
    requires JitterAfterDelay(factor, inner, x, count, response, env, d)
    ensures Possible(inner, count - 1, response, env, p)
    ensures JitterAfterPrev(factor, inner, x.ms, p, count, response, env, d)
  {
    p :| Possible(inner, count - 1, response, env, p) && JitterAfterPrev(factor, inner, x.ms, p, count, response, env, d);
  }

  /** The inner result at the count above, once the count below did not raise. */
  lemma JitterNext(factor: real, inner: Strategy, delay: int, p: Delay, count: int, response: Option<Response>,
                   env: Env, d: Delay)
    returns (n: Delay)
    requires Valid(inner) && !p.DrawFailed?
    requires JitterAfterPrev(factor, inner, delay, p, count, response, env, d)
    ensures Possible(inner, count + 1, response, env, n)
    ensures JitterOutcome(delay, p, n, factor, d)
  {
    n :| Possible(inner, count + 1, response, env, n) && JitterOutcome(delay, p, n, factor, d);
  }

  /** A jitter node abstains only when its inner strategy abstains at the count itself. */
  lemma JitterAbstainsOnlyWithInner(factor: real, inner: Strategy, count: int, response: Option<Response>, env: Env)
    requires Valid(Jitter(factor, inner))
    requires Possible(Jitter(factor, inner), count, response, env, Abstain)
    ensures Possible(inner, count, response, env, Abstain)
  {
    var x := JitterInner(factor, inner, count, response, env, Abstain);
    if x.Millis? {
      var p := JitterPrev(factor, inner, x, count, response, env, Abstain);
      var n := JitterNext(factor, inner, x.ms, p, count, response, env, Abstain);
      assert false;
    }
  }

  /**
   * A jitter node abstains exactly when its inner strategy may abstain at the
   * count itself; the neighbours play no part then.
   */
  lemma JitterAbstainsWithInner(factor: real, inner: Strategy, count: int, response: Option<Response>, env: Env)
    requires Valid(Jitter(factor, inner))
    ensures Possible(Jitter(factor, inner), count, response, env, Abstain) <==>
            Possible(inner, count, response, env, Abstain)
  {
    if Possible(Jitter(factor, inner), count, response, env, Abstain) {
      JitterAbstainsOnlyWithInner(factor, inner, count, response, env);
    }
    if Possible(inner, count, response, env, Abstain) {
      assert JitterAfterDelay(factor, inner, Abstain, count, response, env, Abstain);
    }
  }

  /** With factor 0 the jitter node gives the inner delay itself, unless a neighbour raised. */
  lemma JitterFactorZero(inner: Strategy, count: int, response: Option<Response>, env: Env, d: Delay)
    requires Valid(inner)
    requires Possible(Jitter(0.0, inner), count, response, env, d)
    ensures !d.DrawFailed? ==> Possible(inner, count, response, env, d)
  {
    var x := JitterInner(0.0, inner, count, response, env, d);
    if x.Millis? && !d.DrawFailed? {
      var p := JitterPrev(0.0, inner, x, count, response, env, d);
      var n := JitterNext(0.0, inner, x.ms, p, count, response, env, d);
      assert (x.ms - NeighbourValue(p)) as real * 0.0 == 0.0;
      assert (NeighbourValue(n) - x.ms) as real * 0.0 == 0.0;
      RoundOfInteger(0);
      assert d == x;
    }
  }

  /** Between non-decreasing neighbouring delays, the draw succeeds and stays between them. */
  lemma JitterDrawBetween(delay: int, p: Delay, n: Delay, factor: real, d: Delay)
    requires 0.0 <= factor <= 1.0
    requires p.Millis? && n.Millis? && p.ms <= delay <= n.ms
    requires JitterOutcome(delay, p, n, factor, d)
    ensures d.Millis? && p.ms <= d.ms <= n.ms
  {
    JitterBounds(delay, p.ms, n.ms, factor);
  }

  /**
   * If the inner strategy is non-decreasing around the count, the draw range
   * is never empty: the jitter node raises only when the inner strategy
   * itself raised at the count, and a delay it gives lies between the
   * neighbouring delays.
   */
  lemma JitterRangeNonEmpty(factor: real, inner: Strategy, count: int, response: Option<Response>,
                            env: Env, d: Delay)
    requires Valid(Jitter(factor, inner))
    requires forall p, x ::
               (Possible(inner, count - 1, response, env, p) && Possible(inner, count, response, env, x) && x.Millis?)
               ==> p.Millis? && p.ms <= x.ms
    requires forall x, n ::
               (Possible(inner, count, response, env, x) && Possible(inner, count + 1, response, env, n) && x.Millis?)
               ==> n.Millis? && x.ms <= n.ms
    requires Possible(Jitter(factor, inner), count, response, env, d)
    ensures d.DrawFailed? ==> Possible(inner, count, response, env, DrawFailed)
    ensures d.Millis? ==> exists p, n :: Possible(inner, count - 1, response, env, p) &&
                                        Possible(inner, count + 1, response, env, n) &&
                                        p.Millis? && n.Millis? && p.ms <= d.ms <= n.ms
  {
    var x := JitterInner(factor, inner, count, response, env, d);
    if x.Millis? {
      var p := JitterPrev(factor, inner, x, count, response, env, d);
      assert p.Millis? && p.ms <= x.ms;
      var n := JitterNext(factor, inner, x.ms, p, count, response, env, d);
      assert n.Millis? && x.ms <= n.ms;
      JitterDrawBetween(x.ms, p, n, factor, d);
    }
  }

  /**
   * Over an exponential back-off, the jitter node gives exactly the integers
   * of its range, which is never empty.
   */
  lemma JitterOverExponential(factor: real, initial: int, multiplier: real, count: int,
                              response: Option<Response>, env: Env, d: Delay)
    requires 0.0 <= factor <= 1.0 && initial >= 0 && multiplier >= 1.0
    ensures
      var delay := ExponentialDelay(initial, multiplier, count);
      var from := JitterFrom(delay, ExponentialDelay(initial, multiplier, count - 1), factor);
      var to := JitterTo(delay, ExponentialDelay(initial, multiplier, count + 1), factor);
      (Possible(Jitter(factor, Exponential(initial, multiplier)), count, response, env, d)
       <==> d.Millis? && from <= d.ms <= to)
  {
    var s := Exponential(initial, multiplier);
    var x := Millis(ExponentialDelay(initial, multiplier, count));
    var p := Millis(ExponentialDelay(initial, multiplier, count - 1));
    var n := Millis(ExponentialDelay(initial, multiplier, count + 1));
    ExponentialNeighbours(initial, multiplier, count);
    JitterBounds(x.ms, p.ms, n.ms, factor);
    if Possible(Jitter(factor, s), count, response, env, d) {
      var x' := JitterInner(factor, s, count, response, env, d);
      var p' := JitterPrev(factor, s, x', count, response, env, d);
      var n' := JitterNext(factor, s, x'.ms, p', count, response, env, d);
      assert x' == x && p' == p && n' == n;
    }
    if d.Millis? && JitterFrom(x.ms, p.ms, factor) <= d.ms <= JitterTo(x.ms, n.ms, factor) {
      assert JitterOutcome(x.ms, p, n, factor, d);
      assert Possible(s, count + 1, response, env, n);
      assert JitterAfterPrev(factor, s, x.ms, p, count, response, env, d);
      assert Possible(s, count - 1, response, env, p);
      assert JitterAfterDelay(factor, s, x, count, response, env, d);
      assert Possible(s, count, response, env, x);
    }
  }

  /** The neighbouring counts' exponential delays bracket the count's own. */
  lemma ExponentialNeighbours(initial: int, multiplier: real, count: int)
    requires initial >= 0 && multiplier >= 1.0
    ensures 0 <= ExponentialDelay(initial, multiplier, count - 1) <= ExponentialDelay(initial, multiplier, count)
                <= ExponentialDelay(initial, multiplier, count + 1)
  {
    ExponentialNonDecreasing(initial, multiplier, count - 1, count);
    ExponentialNonDecreasing(initial, multiplier, count, count + 1);
  }

  /** The values an exponential back-off from 100 ms by 2.0 takes at counts 0 to 5. */
  lemma HundredDoubling()
    ensures ExponentialDelay(100, 2.0, 0) == 50
    ensures ExponentialDelay(100, 2.0, 1) == 100
    ensures ExponentialDelay(100, 2.0, 2) == 200
    ensures ExponentialDelay(100, 2.0, 3) == 400
    ensures ExponentialDelay(100, 2.0, 4) == 800
    ensures ExponentialDelay(100, 2.0, 5) == 1600
  {
    assert Pow(2.0, -1) == 0.5;
    RoundOfInteger(50);
    RoundOfInteger(100);
    assert Pow(2.0, 1) == 2.0;
    RoundOfInteger(200);
    assert Pow(2.0, 2) == 4.0;
    RoundOfInteger(400);
    assert Pow(2.0, 3) == 8.0;
    RoundOfInteger(800);
    assert Pow(2.0, 4) == 16.0;
    RoundOfInteger(1600);
  }

  // The ranges the source's tests expect of a jitter over an exponential back-off from 100 ms by 2.0.

  /** Factor 0.2 at count 1: between 50, 100 and 200 ms, the range is 90 to 120. */
  lemma JitterTwentyPercent(response: Option<Response>, env: Env, d: Delay)
    ensures Possible(Jitter(0.2, Exponential(100, 2.0)), 1, response, env, d) <==> d.Millis? && 90 <= d.ms <= 120
  {
    HundredDoubling();
    RoundOfInteger(10);
    RoundOfInteger(20);
    JitterOverExponential(0.2, 100, 2.0, 1, response, env, d);
  }

  /** Factor 0.01 at count 2: between 100, 200 and 400 ms, the range is 199 to 202. */
  lemma JitterOnePercent(response: Option<Response>, env: Env, d: Delay)
    ensures Possible(Jitter(0.01, Exponential(100, 2.0)), 2, response, env, d) <==> d.Millis? && 199 <= d.ms <= 202
  {
    HundredDoubling();
    RoundOfInteger(1);
    RoundOfInteger(2);
    JitterOverExponential(0.01, 100, 2.0, 2, response, env, d);
  }

  /** Factor 0 at count 3: the delay of 400 ms alone. */
  lemma JitterNoneAtAll(response: Option<Response>, env: Env, d: Delay)
    ensures Possible(Jitter(0.0, Exponential(100, 2.0)), 3, response, env, d) <==> d == Millis(400)
  {
    HundredDoubling();
    RoundOfInteger(0);
    JitterOverExponential(0.0, 100, 2.0, 3, response, env, d);
  }

  /** Factor 1 at count 4: between 400, 800 and 1600 ms, the whole range from 400 to 1600. */
  lemma JitterFullRange(response: Option<Response>, env: Env, d: Delay)
    ensures Possible(Jitter(1.0, Exponential(100, 2.0)), 4, response, env, d) <==> d.Millis? && 400 <= d.ms <= 1600
  {
    HundredDoubling();
    RoundOfInteger(400);
    RoundOfInteger(800);
    JitterOverExponential(1.0, 100, 2.0, 4, response, env, d);
  }

  // ---------------------------------------------------------------------
  // Every strategy gives some result

  /** Every valid strategy has at least one result for every count, response and clock. */
  lemma {:induction false} PossibleIsTotal(s: Strategy, count: int, response: Option<Response>, env: Env)
    requires Valid(s)
    ensures exists d :: Possible(s, count, response, env, d)
    decreases s, 2, 0
  {
    match s
    case Constant(ms) =>
      assert Possible(s, count, response, env, if ms.Some? then Millis(ms.value) else Abstain);
    case Exponential(initial, multiplier) =>
      assert Possible(s, count, response, env, Millis(ExponentialDelay(initial, multiplier, count)));
    case Incremental(initial) =>
      assert Possible(s, count, response, env, Millis(initial * count));
    case RetryAfter =>
      assert Possible(s, count, response, env, HeaderDelay(response, env));
    case Cap(max, inner, fallthrough) =>
      PossibleIsTotal(inner, count, response, env);
      var x :| Possible(inner, count, response, env, x);
      assert Possible(s, count, response, env, CapDelay(x, max, fallthrough));
    case Jitter(factor, inner) =>
      PossibleIsTotal(inner, count, response, env);
      var x :| Possible(inner, count, response, env, x);
      var d := JitterIsTotal(factor, inner, x, count, response, env);
      assert Possible(s, count, response, env, d);
    case Chain(children) =>
      ChainIsTotal(children, 0, count, response, env);
      var d :| ChainPossible(children, 0, count, response, env, d);
      assert Possible(s, count, response, env, d);
  }

  /** Whatever the inner strategy gave at the count, the jitter node goes on to some result. */
  lemma {:induction false} JitterIsTotal(factor: real, inner: Strategy, x: Delay, count: int,
                                         response: Option<Response>, env: Env)
    returns (d: Delay)
    requires Valid(inner)
    ensures JitterAfterDelay(factor, inner, x, count, response, env, d)
    decreases Jitter(factor, inner), 1, 1
  {
    if !x.Millis? {
      d := x;
    } else {
      PossibleIsTotal(inner, count - 1, response, env);
      var p :| Possible(inner, count - 1, response, env, p);
      if p.DrawFailed? {
        d := DrawFailed;
      } else {
        PossibleIsTotal(inner, count + 1, response, env);
        var n :| Possible(inner, count + 1, response, env, n);
        if n.DrawFailed? {
          d := DrawFailed;
        } else {
          var lo := JitterFrom(x.ms, NeighbourValue(p), factor);
          var hi := JitterTo(x.ms, NeighbourValue(n), factor);
          d := if lo <= hi then Millis(lo) else DrawFailed;
        }
        assert JitterOutcome(x.ms, p, n, factor, d);
      }
      assert JitterAfterPrev(factor, inner, x.ms, p, count, response, env, d);
    }
  }

  /** A chain has some result from every starting child. */
  lemma {:induction false} ChainIsTotal(children: seq<Strategy>, i: nat, count: int, response: Option<Response>,
                                        env: Env)
    requires i <= |children|
    requires forall k | 0 <= k < |children| :: Valid(children[k])
    ensures exists d :: ChainPossible(children, i, count, response, env, d)
    decreases Chain(children), 0, |children| - i
  {
    if i == |children| {
      assert ChainPossible(children, i, count, response, env, Abstain);
    } else {
      PossibleIsTotal(children[i], count, response, env);
      var x :| Possible(children[i], count, response, env, x);
      if x.Abstain? {
        ChainIsTotal(children, i + 1, count, response, env);
        var d :| ChainPossible(children, i + 1, count, response, env, d);
        assert ChainPossible(children, i, count, response, env, d);
      } else {
        assert ChainPossible(children, i, count, response, env, x);
      }
    }
  }

  // ---------------------------------------------------------------------
  // DelayStrategyChain

  /** Every result of `s` at these arguments is `null`. */
  ghost predicate AlwaysAbstains(s: Strategy, count: int, response: Option<Response>, env: Env)
    requires Valid(s)
  {
    forall x :: Possible(s, count, response, env, x) ==> x.Abstain?
  }

  /** No result of `s` at these arguments is `null`. */
  ghost predicate NeverAbstains(s: Strategy, count: int, response: Option<Response>, env: Env)
    requires Valid(s)
  {
    forall x :: Possible(s, count, response, env, x) ==> !x.Abstain?
  }

  /** The result of the child at `i` from which a chain search went on to give `d`. */
  lemma ChainChild(children: seq<Strategy>, i: nat, count: int, response: Option<Response>, env: Env, d: Delay)
    returns (x: Delay)
    requires i < |children|
    requires forall k | 0 <= k < |children| :: Valid(children[k])
    requires ChainPossible(children, i, count, response, env, d)
    ensures Possible(children[i], count, response, env, x)
    ensures if x.Abstain? then ChainPossible(children, i + 1, count, response, env, d) else d == x
  {
    x :| Possible(children[i], count, response, env, x) &&
         (if x.Abstain? then ChainPossible(children, i + 1, count, response, env, d) else d == x);
  }

  /** A child that always abstains hands the search on to the next one. */
  lemma ChainPassesAbstainer(children: seq<Strategy>, i: nat, count: int, response: Option<Response>, env: Env,
                             d: Delay)
    requires i < |children|
    requires forall k | 0 <= k < |children| :: Valid(children[k])
    requires AlwaysAbstains(children[i], count, response, env)
    ensures ChainPossible(children, i, count, response, env, d) <==>
            ChainPossible(children, i + 1, count, response, env, d)
  {
    if ChainPossible(children, i, count, response, env, d) {
      var x := ChainChild(children, i, count, response, env, d);
    }
    if ChainPossible(children, i + 1, count, response, env, d) {
      PossibleIsTotal(children[i], count, response, env);
      var x :| Possible(children[i], count, response, env, x);
      assert ChainPossible(children, i, count, response, env, d);
    }
  }

  /** Children that always abstain may as well not be there. */
  lemma {:induction false} ChainSkipsAbstainers(children: seq<Strategy>, k: nat, count: int,
                                                response: Option<Response>, env: Env, d: Delay)
    requires k <= |children|
    requires forall j | 0 <= j < |children| :: Valid(children[j])
    requires forall j | 0 <= j < k :: AlwaysAbstains(children[j], count, response, env)
    ensures ChainPossible(children, 0, count, response, env, d) <==>
            ChainPossible(children, k, count, response, env, d)
    decreases k
  {
    if k > 0 {
      ChainSkipsAbstainers(children, k - 1, count, response, env, d);
      ChainPassesAbstainer(children, k - 1, count, response, env, d);
    }
  }

  /** A chain whose children all abstain, an empty one included, abstains. */
  lemma ChainOfAbstainers(children: seq<Strategy>, count: int, response: Option<Response>, env: Env, d: Delay)
    requires Valid(Chain(children))
    requires forall j | 0 <= j < |children| :: AlwaysAbstains(children[j], count, response, env)
    ensures Possible(Chain(children), count, response, env, d) <==> d == Abstain
  {
    ChainSkipsAbstainers(children, |children|, count, response, env, d);
  }

  /**
   * The first child that does not abstain decides: a chain whose children
   * before `k` always abstain and whose child `k` never does gives exactly
   * what child `k` gives.
   */
  lemma ChainFirstDecides(children: seq<Strategy>, k: nat, count: int, response: Option<Response>, env: Env,
                          d: Delay)
    requires Valid(Chain(children))
    requires k < |children|
    requires forall j | 0 <= j < k :: AlwaysAbstains(children[j], count, response, env)
    requires NeverAbstains(children[k], count, response, env)
    ensures Possible(Chain(children), count, response, env, d) <==> Possible(children[k], count, response, env, d)
  {
    ChainSkipsAbstainers(children, k, count, response, env, d);
    if ChainPossible(children, k, count, response, env, d) {
      var x := ChainChild(children, k, count, response, env, d);
    }
    if Possible(children[k], count, response, env, d) {
      assert ChainPossible(children, k, count, response, env, d);
    }
  }

  /** Searching `[a] + children` from child `i + 1` is searching `children` from child `i`. */
  lemma {:induction false} ChainShift(a: Strategy, children: seq<Strategy>, i: nat, count: int,
                                      response: Option<Response>, env: Env, d: Delay)
    requires Valid(a) && Valid(Chain(children))
    requires i <= |children|
    ensures forall j | 0 <= j < |[a] + children| :: Valid(([a] + children)[j])
    ensures ChainPossible([a] + children, i + 1, count, response, env, d) <==>
            ChainPossible(children, i, count, response, env, d)
    decreases |children| - i
  {
    var longer := [a] + children;
    assert forall j | 0 <= j < |longer| :: longer[j] == if j == 0 then a else children[j - 1];
    if i < |children| {
      ChainShift(a, children, i + 1, count, response, env, d);
      assert longer[i + 1] == children[i];
      if ChainPossible(longer, i + 1, count, response, env, d) {
        var x := ChainChild(longer, i + 1, count, response, env, d);
        assert ChainPossible(children, i, count, response, env, d);
      }
      if ChainPossible(children, i, count, response, env, d) {
        var x := ChainChild(children, i, count, response, env, d);
        assert ChainPossible(longer, i + 1, count, response, env, d);
      }
    }
  }

  /** Prepending a child that always abstains does not change what a chain gives. */
  lemma PrependAbstainer(a: Strategy, children: seq<Strategy>, count: int, response: Option<Response>, env: Env,
                         d: Delay)
    requires Valid(a) && Valid(Chain(children))
    requires AlwaysAbstains(a, count, response, env)
    ensures Valid(Chain([a] + children))
    ensures Possible(Chain([a] + children), count, response, env, d) <==> Possible(Chain(children), count, response, env, d)
  {
    ChainShift(a, children, 0, count, response, env, d);
    assert ([a] + children)[0] == a;
    ChainPassesAbstainer([a] + children, 0, count, response, env, d);
  }

  // ---------------------------------------------------------------------
  // The default chain

  /** The results of a cap node come from its inner strategy. */
  lemma CapInner(max: int, inner: Strategy, fallthrough: bool, count: int, response: Option<Response>, env: Env,
                 d: Delay)
    returns (x: Delay)
    requires Valid(Cap(max, inner, fallthrough))
    requires Possible(Cap(max, inner, fallthrough), count, response, env, d)
    ensures Possible(inner, count, response, env, x) && d == CapDelay(x, max, fallthrough)
  {
    x :| Possible(inner, count, response, env, x) && d == CapDelay(x, max, fallthrough);
  }

  /** The default back-off, before its cap, always gives a non-negative delay. */
  lemma DefaultBackOffDelays(count: int, response: Option<Response>, env: Env, x: Delay)
    requires Possible(Jitter(0.5, Exponential(500, 1.5)), count, response, env, x)
    ensures x.Millis? && x.ms >= 0
  {
    JitterOverExponential(0.5, 500, 1.5, count, response, env, x);
    ExponentialNeighbours(500, 1.5, count);
    JitterBounds(ExponentialDelay(500, 1.5, count), ExponentialDelay(500, 1.5, count - 1),
                 ExponentialDelay(500, 1.5, count + 1), 0.5);
  }

  /** The capped default back-off: never `null`, always within [0, 5000]. */
  lemma DefaultBackOffCapped(count: int, response: Option<Response>, env: Env, d: Delay)
    requires Possible(Cap(5000, Jitter(0.5, Exponential(500, 1.5)), false), count, response, env, d)
    ensures d.Millis? && 0 <= d.ms <= 5000
  {
    var x := CapInner(5000, Jitter(0.5, Exponential(500, 1.5)), false, count, response, env, d);
    DefaultBackOffDelays(count, response, env, x);
  }

  /**
   * When the `Retry-After` header asks for at most ten seconds, the default
   * chain gives exactly that, a date in the past giving a negative delay.
   */
  lemma DefaultUsesHeader(count: int, response: Option<Response>, env: Env, ms: int, d: Delay)
    requires RetryAfterHeader.RetryAfterMillis(response, env) == Some(ms) && ms <= 10000
    ensures Possible(CreateDefault(), count, response, env, d) <==> d == Millis(ms)
  {
    var children := CreateDefault().children;
    forall x | Possible(children[0], count, response, env, x) ensures !x.Abstain? {
      var y := CapInner(10000, RetryAfter, true, count, response, env, x);
    }
    ChainFirstDecides(children, 0, count, response, env, d);
    if d == Millis(ms) {
      assert Possible(RetryAfter, count, response, env, Millis(ms));
    } else if Possible(children[0], count, response, env, d) {
      var y := CapInner(10000, RetryAfter, true, count, response, env, d);
    }
  }

  /**
   * Otherwise, with no header, an unreadable one or one asking for more than
   * ten seconds, the default chain gives what the capped back-off gives.
   */
  lemma DefaultFallsBack(count: int, response: Option<Response>, env: Env, d: Delay)
    requires var h := RetryAfterHeader.RetryAfterMillis(response, env); h.None? || h.value > 10000
    ensures Possible(CreateDefault(), count, response, env, d) <==>
            Possible(Cap(5000, Jitter(0.5, Exponential(500, 1.5)), false), count, response, env, d)
  {
    var children := CreateDefault().children;
    forall x | Possible(children[0], count, response, env, x) ensures x.Abstain? {
      var y := CapInner(10000, RetryAfter, true, count, response, env, x);
    }
    forall x | Possible(children[1], count, response, env, x) ensures !x.Abstain? {
      DefaultBackOffCapped(count, response, env, x);
    }
    ChainFirstDecides(children, 1, count, response, env, d);
  }

  /**
   * The default chain never abstains and never raises; it waits at most ten
   * seconds, and without a response between 0 and 5 seconds.
   */
  lemma DefaultAlwaysDelays(count: int, response: Option<Response>, env: Env, d: Delay)
    requires Possible(CreateDefault(), count, response, env, d)
    ensures d.Millis? && d.ms <= 10000
    ensures response.None? ==> 0 <= d.ms <= 5000
  {
    var h := RetryAfterHeader.RetryAfterMillis(response, env);
    if h.Some? && h.value <= 10000 {
      DefaultUsesHeader(count, response, env, h.value, d);
    } else {
      DefaultFallsBack(count, response, env, d);
      DefaultBackOffCapped(count, response, env, d);
    }
  }
}
