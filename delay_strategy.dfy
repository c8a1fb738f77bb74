/**
 * The delay strategies: how many milliseconds to wait before retry number
 * `count`, given the response that prompted it, if any. A strategy may
 * abstain (PHP's `null`), leaving the decision to an outer strategy.
 *
 * A strategy is a tree of nodes. The leaves are fixed formulas; the inner
 * nodes cap, jitter or chain their children. Evaluation is deterministic
 * except at a jitter node, which draws uniformly from a computed range; so
 * the meaning of a strategy is the relation `Possible` between its arguments
 * and every result one call may give, and `GetDelay` is one such call.
 */
module DelayStrategy {
  import opened Http
  import opened PhpMath
  import RetryAfterHeader

  type Env = RetryAfterHeader.Env

  /**
   * What one `getDelay` call gives: no opinion (`null`), a delay, or the error
   * `mt_rand` raises when a jitter range is empty (its lower end above its
   * upper end), which escapes from the call like any exception.
   */
  datatype Delay = Abstain | Millis(ms: int) | DrawFailed

  datatype Strategy =
    | Constant(ms: Option<int>)                            // ConstantDelay
    | Exponential(initial: int, multiplier: real)          // ExponentialBackOff
    | Incremental(initial: int)                            // IncrementalBackOff
    | RetryAfter                                           // RetryAfterHeader
    | Cap(max: int, inner: Strategy, fallthrough: bool)    // DelayCap
    | Jitter(factor: real, inner: Strategy)                // DelayJitter
    | Chain(children: seq<Strategy>)                       // DelayStrategyChain

  /** The parameter ranges the constructors enforce, throughout the tree. */
  predicate Valid(s: Strategy) {
    match s
    case Constant(ms) => ms.None? || ms.value >= 0
    case Exponential(initial, multiplier) => initial >= 0 && multiplier >= 1.0
    case Incremental(initial) => initial >= 0
    case RetryAfter => true
    case Cap(max, inner, _) => max >= 0 && Valid(inner)
    case Jitter(factor, inner) => 0.0 <= factor <= 1.0 && Valid(inner)
    case Chain(children) => forall i | 0 <= i < |children| :: Valid(children[i])
  }

  // ---------------------------------------------------------------------
  // Construction: each constructor throws an InvalidArgumentException on a
  // parameter out of range; `Refused` stands for that exception.

  datatype Built = Built(strategy: Strategy) | Refused

  function NewConstantDelay(ms: Option<int>): (r: Built)
    ensures r.Built? <==> ms.None? || ms.value >= 0
    ensures r.Built? ==> r.strategy == Constant(ms) && Valid(r.strategy)
  {
    if ms.Some? && ms.value < 0 then Refused else Built(Constant(ms))
  }

  function NewExponentialBackOff(initialMs: int, multiplier: real): (r: Built)
    ensures r.Built? <==> initialMs >= 0 && multiplier >= 1.0
    ensures r.Built? ==> r.strategy == Exponential(initialMs, multiplier) && Valid(r.strategy)
  {
    if initialMs < 0 then Refused
    else if multiplier < 1.0 then Refused
    else Built(Exponential(initialMs, multiplier))
  }

  function NewIncrementalBackOff(initialMs: int): (r: Built)
    ensures r.Built? <==> initialMs >= 0
    ensures r.Built? ==> r.strategy == Incremental(initialMs) && Valid(r.strategy)
  {
    if initialMs < 0 then Refused else Built(Incremental(initialMs))
  }

  function NewDelayCap(max: int, inner: Strategy, fallthrough: bool): (r: Built)
    requires Valid(inner)
    ensures r.Built? <==> max >= 0
    ensures r.Built? ==> r.strategy == Cap(max, inner, fallthrough) && Valid(r.strategy)
  {
    if max < 0 then Refused else Built(Cap(max, inner, fallthrough))
  }

  function NewDelayJitter(factor: real, inner: Strategy): (r: Built)
    requires Valid(inner)
    ensures r.Built? <==> 0.0 <= factor <= 1.0
    ensures r.Built? ==> r.strategy == Jitter(factor, inner) && Valid(r.strategy)
  {
    if factor < 0.0 || factor > 1.0 then Refused else Built(Jitter(factor, inner))
  }

  /**
   * The default chain: the `Retry-After` header if it asks for at most ten
   * seconds, else an exponential back-off from 500 ms by 1.5, jittered by
   * half and capped at five seconds.
   */
  function CreateDefault(): (s: Strategy)
    ensures Valid(s)
  {
    Chain([Cap(10000, RetryAfter, true), Cap(5000, Jitter(0.5, Exponential(500, 1.5)), false)])
  }

  // ---------------------------------------------------------------------
  // What each node computes from the values it obtains.

  /** `round(initial * multiplier ** (count - 1))`. */
  function ExponentialDelay(initial: int, multiplier: real, count: int): int
    requires multiplier >= 1.0
  {
    Round(Scaled(initial, Pow(multiplier, count - 1)))
  }

  /** The cap applied to the inner strategy's result `d`. */
  function CapDelay(d: Delay, max: int, fallthrough: bool): (r: Delay)
    ensures r.Millis? ==> d.Millis? && r.ms <= max
    ensures r.Millis? ==> r == d || (!fallthrough && r.ms == max < d.ms)
    ensures r.Abstain? <==> d.Abstain? || (d.Millis? && d.ms > max && fallthrough)
    ensures r.DrawFailed? <==> d.DrawFailed?
  {
    if d.Millis? && d.ms > max then
      if fallthrough then Abstain else Millis(max)
    else d
  }

  /** A neighbouring result in the jitter arithmetic: PHP counts `null` as 0. */
  function NeighbourValue(d: Delay): int
    requires !d.DrawFailed?
  {
    if d.Millis? then d.ms else 0
  }

  /** Lower end of the jitter range: `delay - round((delay - prev) * factor)`. */
  function JitterFrom(delay: int, prev: int, factor: real): int {
    delay - Round((delay - prev) as real * factor)
  }

  /** Upper end of the jitter range: `delay + round((next - delay) * factor)`. */
  function JitterTo(delay: int, next: int, factor: real): int {
    delay + Round((next - delay) as real * factor)
  }

  /**
   * The results a jitter node may give once its inner strategy gave `delay`
   * at the count, a non-failing `prev` at the count below and `next` at the
   * count above: any integer of the range, or the error of an empty range.
   */
  ghost predicate JitterOutcome(delay: int, prev: Delay, next: Delay, factor: real, d: Delay)
    requires !prev.DrawFailed?
  {
    if next.DrawFailed? then d == DrawFailed
    else
      var lo := JitterFrom(delay, NeighbourValue(prev), factor);
      var hi := JitterTo(delay, NeighbourValue(next), factor);
      if lo <= hi then d.Millis? && lo <= d.ms <= hi else d == DrawFailed
  }

  function HeaderDelay(response: Option<Response>, env: Env): (d: Delay)
    ensures !d.DrawFailed?
  {
    match RetryAfterHeader.RetryAfterMillis(response, env)
    case Some(ms) => Millis(ms)
    case None => Abstain
  }

  // ---------------------------------------------------------------------
  // The meaning of a strategy.

  /**
   * `d` is a result that `s.getDelay(count, response)` may give when the
   * clock and date parser are `env`. Each node calls its children in the
   * source's order and with the source's arguments.
   */
  ghost predicate Possible(s: Strategy, count: int, response: Option<Response>, env: Env, d: Delay)
    requires Valid(s)
    decreases s, 2, 0
  {
    match s
    case Constant(ms) => d == (if ms.Some? then Millis(ms.value) else Abstain)
    case Exponential(initial, multiplier) => d == Millis(ExponentialDelay(initial, multiplier, count))
    case Incremental(initial) => d == Millis(initial * count)
    case RetryAfter => d == HeaderDelay(response, env)
    case Cap(max, inner, fallthrough) =>
      exists x :: Possible(inner, count, response, env, x) && d == CapDelay(x, max, fallthrough)
    case Jitter(factor, inner) =>
      exists x :: Possible(inner, count, response, env, x) && JitterAfterDelay(factor, inner, x, count, response, env, d)
    case Chain(children) => ChainPossible(children, 0, count, response, env, d)
  }

  /**
   * `d` is a result the jitter node may give once its inner strategy gave `x`
   * at the count: anything but a delay passes through, and a delay makes the
   * node evaluate the inner strategy at the count below.
   */
  ghost predicate JitterAfterDelay(factor: real, inner: Strategy, x: Delay, count: int,
                                   response: Option<Response>, env: Env, d: Delay)
    requires Valid(inner)
    decreases Jitter(factor, inner), 1, 1
  {
    if !x.Millis? then d == x
    else exists p :: Possible(inner, count - 1, response, env, p) &&
                     JitterAfterPrev(factor, inner, x.ms, p, count, response, env, d)
  }

  /**
   * `d` is a result the jitter node may give once the inner strategy gave
   * `delay` at the count and `p` at the count below: an exception escapes,
   * and otherwise the node evaluates the count above and draws.
   */
  ghost predicate JitterAfterPrev(factor: real, inner: Strategy, delay: int, p: Delay, count: int,
                                  response: Option<Response>, env: Env, d: Delay)
    requires Valid(inner)
    decreases Jitter(factor, inner), 1, 0
  {
    if p.DrawFailed? then d == DrawFailed
    else exists n :: Possible(inner, count + 1, response, env, n) && JitterOutcome(delay, p, n, factor, d)
  }

  /**
   * `d` is a result the chain may give when it starts its search at child `i`:
   * the first child that does not abstain decides, an exception escapes, and
   * a chain that runs out of children abstains.
   */
  ghost predicate ChainPossible(children: seq<Strategy>, i: nat, count: int, response: Option<Response>,
                                env: Env, d: Delay)
    requires i <= |children|
    requires forall k | 0 <= k < |children| :: Valid(children[k])
    decreases Chain(children), 0, |children| - i
  {
    if i == |children| then d == Abstain
    else exists x ::
           Possible(children[i], count, response, env, x) &&
           (if x.Abstain? then ChainPossible(children, i + 1, count, response, env, d) else d == x)
  }

  /**
   * One call of `getDelay`. The jitter node's `mt_rand($from, $to)` picks any
   * integer of the range.
   */
  method GetDelay(s: Strategy, count: int, response: Option<Response>, env: Env) returns (d: Delay)
    requires Valid(s)
    ensures Possible(s, count, response, env, d)
    decreases s
  {
    match s {
      case Constant(ms) =>
        d := if ms.Some? then Millis(ms.value) else Abstain;
      case Exponential(initial, multiplier) =>
        d := Millis(ExponentialDelay(initial, multiplier, count));
      case Incremental(initial) =>
        d := Millis(initial * count);
      case RetryAfter =>
        d := HeaderDelay(response, env);
      case Cap(max, inner, fallthrough) =>
        var x := GetDelay(inner, count, response, env);
        d := CapDelay(x, max, fallthrough);
      case Jitter(factor, inner) =>
        var x := GetDelay(inner, count, response, env);
        if !x.Millis? {
          d := x;
        } else {
          var p := GetDelay(inner, count - 1, response, env);
          if p.DrawFailed? {
            d := DrawFailed;
          } else {
            var n := GetDelay(inner, count + 1, response, env);
            if n.DrawFailed? {
              d := DrawFailed;
            } else {
              var lo := JitterFrom(x.ms, NeighbourValue(p), factor);
              var hi := JitterTo(x.ms, NeighbourValue(n), factor);
              if lo <= hi {
                var w :| lo <= w <= hi;
                d := Millis(w);
              } else {
                d := DrawFailed;
              }
            }
            assert JitterOutcome(x.ms, p, n, factor, d);
          }
          assert JitterAfterPrev(factor, inner, x.ms, p, count, response, env, d);
          assert JitterAfterDelay(factor, inner, x, count, response, env, d);
        }
      case Chain(children) =>
        var i := 0;
        while i < |children|
          invariant 0 <= i <= |children|
          invariant forall e :: ChainPossible(children, i, count, response, env, e) ==>
                                ChainPossible(children, 0, count, response, env, e)
        {
          var x := GetDelay(children[i], count, response, env);
          if !x.Abstain? {
            assert ChainPossible(children, i, count, response, env, x);
            return x;
          }
          forall e | ChainPossible(children, i + 1, count, response, env, e)
            ensures ChainPossible(children, 0, count, response, env, e)
          {
            assert ChainPossible(children, i, count, response, env, e);
          }
          i := i + 1;
        }
        d := Abstain;
    }
  }
}
