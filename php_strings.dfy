/**
 * The string handling that the `Retry-After` parser borrows from PHP:
 * `trim()`, the `(int)` cast of a string, and `(string)` of a natural number.
 */
module PhpStrings {

  /** The characters PHP's `trim()` strips by default: " \t\n\r\0\x0B". */
  predicate IsTrimChar(c: char) {
    c == ' ' || c == '\t' || c == '\n' || c == '\r' || c == '\0' || c as int == 0x0B
  }

  /** The white space the `(int)` cast skips before the number: " \t\n\r\v\f". */
  predicate IsCastSpace(c: char) {
    c == ' ' || c == '\t' || c == '\n' || c == '\r' || c as int == 0x0B || c as int == 0x0C
  }

  predicate IsDigit(c: char) { '0' <= c <= '9' }

  function DigitValue(c: char): nat
    requires IsDigit(c)
  {
    c as int - '0' as int
  }

  function DigitChar(d: nat): (c: char)
    requires d < 10
    ensures IsDigit(c) && DigitValue(c) == d
  {
    ('0' as int + d) as char
  }

  /** `ltrim()`: drops the leading trim characters, and only those. */
  function TrimLeft(s: string): (r: string)
    ensures |r| <= |s|
    ensures |r| > 0 ==> !IsTrimChar(r[0])
    ensures forall i :: 0 <= i < |s| - |r| ==> IsTrimChar(s[i])
  {
    if |s| > 0 && IsTrimChar(s[0]) then TrimLeft(s[1..]) else s
  }

  /** `rtrim()`: drops the trailing trim characters, and only those. */
  function TrimRight(s: string): (r: string)
    ensures |r| <= |s|
    ensures |r| > 0 ==> !IsTrimChar(r[|r| - 1])
    ensures forall i :: |r| <= i < |s| ==> IsTrimChar(s[i])
  {
    if |s| > 0 && IsTrimChar(s[|s| - 1]) then TrimRight(s[..|s| - 1]) else s
  }

  function Trim(s: string): string {
    TrimRight(TrimLeft(s))
  }

  /** The longest prefix of `s` made of decimal digits. */
  function LeadingDigits(s: string): (r: string)
    ensures |r| <= |s|
    ensures forall i :: 0 <= i < |r| ==> IsDigit(r[i])
    ensures |r| < |s| ==> !IsDigit(s[|r|])
  {
    if |s| > 0 && IsDigit(s[0]) then [s[0]] + LeadingDigits(s[1..]) else []
  }

  /** The number a string of decimal digits denotes. */
  function DigitsValue(ds: string): nat
    requires forall i :: 0 <= i < |ds| ==> IsDigit(ds[i])
  {
    if ds == [] then 0 else DigitsValue(ds[..|ds| - 1]) * 10 + DigitValue(ds[|ds| - 1])
  }

  function SkipCastSpace(s: string): (r: string)
    ensures |r| <= |s|
    ensures |r| > 0 ==> !IsCastSpace(r[0])
  {
    if |s| > 0 && IsCastSpace(s[0]) then SkipCastSpace(s[1..]) else s
  }

  /**
   * PHP's `(int) $s` on a string: white space, an optional sign, then the
   * longest run of digits; no digits at all give 0.
   */
  function IntCast(s: string): int {
    var t := SkipCastSpace(s);
    if |t| > 0 && t[0] == '-' then -(DigitsValue(LeadingDigits(t[1..])) as int)
    else if |t| > 0 && t[0] == '+' then DigitsValue(LeadingDigits(t[1..]))
    else DigitsValue(LeadingDigits(t))
  }

  /** `(string) $n` for a natural number: its decimal digits, no leading zero. */
  function DecimalString(n: nat): (r: string)
    ensures |r| >= 1
    ensures forall i :: 0 <= i < |r| ==> IsDigit(r[i])
    ensures |r| > 1 ==> r[0] != '0'
  {
    if n < 10 then [DigitChar(n)] else DecimalString(n / 10) + [DigitChar(n % 10)]
  }

  lemma {:induction false} DecimalValue(n: nat)
    ensures DigitsValue(DecimalString(n)) == n
  {
    if n >= 10 {
      var s := DecimalString(n);
      assert s[..|s| - 1] == DecimalString(n / 10);
      DecimalValue(n / 10);
    }
  }

  lemma {:induction false} LeadingDigitsOfDigits(s: string)
    requires forall i :: 0 <= i < |s| ==> IsDigit(s[i])
    ensures LeadingDigits(s) == s
  {
    if |s| > 0 {
      LeadingDigitsOfDigits(s[1..]);
    }
  }

  lemma CastOfDigits(s: string)
    requires |s| > 0 && forall i :: 0 <= i < |s| ==> IsDigit(s[i])
    requires LeadingDigits(s) == s
    ensures IntCast(s) == DigitsValue(s)
  {
    assert IsDigit(s[0]);
    assert !IsCastSpace(s[0]);
    var t := SkipCastSpace(s);
    assert t == s;
    assert t[0] != '-' && t[0] != '+';
    assert IntCast(s) == DigitsValue(LeadingDigits(t));
  }

  lemma {:induction false} LeadingDigitsStop(x: string, rest: string)
    requires forall i :: 0 <= i < |x| ==> IsDigit(x[i])
    requires |rest| > 0 && !IsDigit(rest[0])
    ensures LeadingDigits(x + rest) == x
  {
    if |x| > 0 {
      assert (x + rest)[1..] == x[1..] + rest;
      LeadingDigitsStop(x[1..], rest);
    } else {
      assert x + rest == rest;
    }
  }

  /** The cast reads a leading natural number and stops at the first non-digit. */
  lemma CastStopsAtNonDigit(n: nat, rest: string)
    requires |rest| > 0 && !IsDigit(rest[0])
    ensures IntCast(DecimalString(n) + rest) == n
  {
    var d := DecimalString(n);
    var s := d + rest;
    assert s[0] == d[0] && IsDigit(s[0]);
    assert SkipCastSpace(s) == s;
    LeadingDigitsStop(d, rest);
    DecimalValue(n);
  }

  /** A minus sign in front of a decimal number casts to its negation. */
  lemma CastOfNegative(n: nat)
    ensures IntCast("-" + DecimalString(n)) == -(n as int)
  {
    var d := DecimalString(n);
    var s := "-" + d;
    assert SkipCastSpace(s) == s;
    assert s[1..] == d;
    LeadingDigitsOfDigits(d);
    DecimalValue(n);
  }

  /** Casting the decimal form of a natural number back gives that number. */
  lemma DecimalRoundTrip(n: nat)
    ensures IntCast(DecimalString(n)) == n
  {
    var s := DecimalString(n);
    LeadingDigitsOfDigits(s);
    DecimalValue(n);
    CastOfDigits(s);
  }

  /** Different natural numbers have different decimal forms. */
  lemma DecimalInjective(m: nat, n: nat)
    requires DecimalString(m) == DecimalString(n)
    ensures m == n
  {
    DecimalValue(m);
    DecimalValue(n);
  }

  lemma {:induction false} TrimLeftPadding(w: string, x: string)
    requires forall i :: 0 <= i < |w| ==> IsTrimChar(w[i])
    requires |x| > 0 && !IsTrimChar(x[0])
    ensures TrimLeft(w + x) == x
  {
    if |w| > 0 {
      assert (w + x)[1..] == w[1..] + x;
      TrimLeftPadding(w[1..], x);
    } else {
      assert w + x == x;
    }
  }

  lemma {:induction false} TrimRightPadding(x: string, w: string)
    requires forall i :: 0 <= i < |w| ==> IsTrimChar(w[i])
    requires |x| > 0 && !IsTrimChar(x[|x| - 1])
    ensures TrimRight(x + w) == x
  {
    if |w| > 0 {
      assert (x + w)[..|x + w| - 1] == x + w[..|w| - 1];
      TrimRightPadding(x, w[..|w| - 1]);
    } else {
      assert x + w == x;
    }
  }

  /** `trim()` removes padding of trim characters on both sides and nothing more. */
  lemma TrimPadding(w1: string, x: string, w2: string)
    requires forall i :: 0 <= i < |w1| ==> IsTrimChar(w1[i])
    requires forall i :: 0 <= i < |w2| ==> IsTrimChar(w2[i])
    requires |x| > 0 && !IsTrimChar(x[0]) && !IsTrimChar(x[|x| - 1])
    ensures Trim(w1 + x + w2) == x
  {
    assert w1 + x + w2 == w1 + (x + w2);
    assert (x + w2)[0] == x[0];
    TrimLeftPadding(w1, x + w2);
    TrimRightPadding(x, w2);
  }
}
