/**
 * The arithmetic the delay strategies borrow from PHP, on exact reals:
 * `round()` (half away from zero) and `**` with an integer exponent.
 */
module PhpMath {

  /**
   * PHP's `round($x)`: the nearest integer, ties away from zero.
   */
  function Round(x: real): (r: int)
    ensures x - 0.5 <= r as real <= x + 0.5
    ensures r as real == x + 0.5 ==> x >= 0.0
    ensures r as real == x - 0.5 ==> x < 0.0
  {
    if x >= 0.0 then (x + 0.5).Floor else -((-x + 0.5).Floor)
  }

  lemma RoundOfInteger(n: int)
    ensures Round(n as real) == n
  {
  }

  lemma RoundMonotone(x: real, y: real)
    requires x <= y
    ensures Round(x) <= Round(y)
  {
    if x >= 0.0 {
      assert (x + 0.5).Floor <= (y + 0.5).Floor;
    } else if y < 0.0 {
      assert (-y + 0.5).Floor <= (-x + 0.5).Floor;
    }
  }

  /** `m ** n` for a natural exponent. */
  function PowNat(m: real, n: nat): (r: real)
    ensures m > 0.0 ==> r > 0.0
    ensures m >= 1.0 ==> r >= 1.0
  {
    if n == 0 then 1.0 else m * PowNat(m, n - 1)
  }

  /** `m ** k` for any integer exponent; a negative one divides. */
  function Pow(m: real, k: int): (r: real)
    requires m > 0.0
    ensures r > 0.0
  {
    if k >= 0 then PowNat(m, k) else 1.0 / PowNat(m, -k)
  }

  lemma {:induction false} PowNatStep(m: real, n: nat)
    requires m >= 1.0
    ensures PowNat(m, n) <= PowNat(m, n + 1)
  {
    var p := PowNat(m, n);
    assert PowNat(m, n + 1) == m * p;
    ScaleMonotone(p, 1.0, m);
  }

  /** With a multiplier of at least one, each further power is at least as large. */
  lemma PowStep(m: real, k: int)
    requires m >= 1.0
    ensures Pow(m, k) <= Pow(m, k + 1)
  {
    if k >= 0 {
      PowNatStep(m, k);
    } else {
      var j: nat := -k;
      var a := PowNat(m, j);
      var b := PowNat(m, j - 1);
      PowNatStep(m, j - 1);
      assert b <= a;
      assert 0.0 < b;
      assert Pow(m, k) == 1.0 / a;
      assert Pow(m, k + 1) == 1.0 / b;
      assert (1.0 / a) * a == 1.0;
      assert (1.0 / b) * b == 1.0;
      assert (1.0 / a) * b <= (1.0 / a) * a;
    }
  }

  lemma {:induction false} PowMonotone(m: real, k1: int, k2: int)
    requires m >= 1.0
    requires k1 <= k2
    ensures Pow(m, k1) <= Pow(m, k2)
    decreases k2 - k1
  {
    if k1 < k2 {
      PowStep(m, k1);
      PowMonotone(m, k1 + 1, k2);
    }
  }

  /** An integer times a float, as PHP's `*` gives it (on exact reals). */
  function Scaled(n: int, factor: real): real
  {
    n as real * factor
  }

  /** A non-negative factor keeps the order of two reals. */
  lemma ScaleMonotone(a: real, x: real, y: real)
    requires a >= 0.0
    requires x <= y
    ensures a * x <= a * y
  {
  }
}
