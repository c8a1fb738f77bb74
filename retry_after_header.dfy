/**
 * The `Retry-After` response header (section 7.1.3 of RFC 7231): either a
 * number of seconds, or an HTTP date in the IMF-fixdate layout of section
 * 7.1.1.1, e.g. "Sun, 06 Nov 1994 08:49:37 GMT".
 */
module RetryAfterHeader {
  import opened Http
  import opened PhpStrings

  /**
   * What the header strategy reads besides its arguments: the clock
   * (`time()`, in seconds) and the date parser of PHP's
   * `DateTimeImmutable::createFromFormat('D, d M Y H:i:s \G\M\T', ...)`, which
   * gives the Unix timestamp of a string it accepts.
   */
  datatype Env = Env(now: int, parseDate: string -> Option<int>)

  const HeaderName: string := "retry-after"

  /**
   * The seconds the header value asks to wait. A trimmed value that is the
   * decimal form of a natural number is that number. Otherwise, as long as its
   * integer cast is not negative, it is read as a date, and the answer is the
   * distance from now to that date, negative when the date is past. Anything
   * else gives no answer.
   */
  function ParseToSeconds(value: string, env: Env): Option<int> {
    var v := Trim(value);
    var seconds := IntCast(v);
    if seconds >= 0 then
      if v == DecimalString(seconds) then Some(seconds)
      else match env.parseDate(v)
        case Some(timestamp) => Some(timestamp - env.now)
        case None => None
    else None
  }

  /**
   * The delay in milliseconds the header of `response` asks for: only the
   * first value of the header is read, and a missing response or header
   * gives no answer.
   */
  function RetryAfterMillis(response: Option<Response>, env: Env): (r: Option<int>)
    ensures r.Some? ==> response.Some? && HeaderName in response.value.headers
                        && |response.value.headers[HeaderName]| > 0
    ensures r.Some? ==> r.value % 1000 == 0
  {
    if response.Some? && HeaderName in response.value.headers
       && |response.value.headers[HeaderName]| > 0
    then
      match ParseToSeconds(response.value.headers[HeaderName][0], env)
      case Some(seconds) => Some(seconds * 1000)
      case None => None
    else None
  }

  predicate IsPadding(w: string) {
    forall i :: 0 <= i < |w| ==> IsTrimChar(w[i])
  }

  /** A natural number in decimal, padded with trim characters, reads as itself. */
  lemma CanonicalSeconds(w1: string, n: nat, w2: string, env: Env)
    requires IsPadding(w1) && IsPadding(w2)
    ensures ParseToSeconds(w1 + DecimalString(n) + w2, env) == Some(n)
  {
    var d := DecimalString(n);
    assert IsDigit(d[0]) && IsDigit(d[|d| - 1]);
    TrimPadding(w1, d, w2);
    DecimalRoundTrip(n);
  }

  /** So a response whose first `Retry-After` value is such a number asks for n seconds. */
  lemma CanonicalHeader(response: Response, w1: string, n: nat, w2: string, env: Env)
    requires IsPadding(w1) && IsPadding(w2)
    requires HeaderName in response.headers && |response.headers[HeaderName]| > 0
    requires response.headers[HeaderName][0] == w1 + DecimalString(n) + w2
    ensures RetryAfterMillis(Some(response), env) == Some(n * 1000)
  {
    CanonicalSeconds(w1, n, w2, env);
  }

  /**
   * A value whose integer cast is negative gives no answer, whatever the date
   * parser would have said: the date branch is never reached.
   */
  lemma NegativeNeverParsedAsDate(value: string, env1: Env, env2: Env)
    requires IntCast(Trim(value)) < 0
    ensures ParseToSeconds(value, env1) == None
    ensures ParseToSeconds(value, env1) == ParseToSeconds(value, env2)
  {
  }

  /**
   * A value that is not the decimal form of any natural number (but whose cast
   * is not negative) is handed to the date parser, and a date gives its
   * distance from now, not clamped at zero.
   */
  lemma NonNumericParsedAsDate(value: string, env: Env)
    requires forall n: nat :: Trim(value) != DecimalString(n)
    requires IntCast(Trim(value)) >= 0
    ensures ParseToSeconds(value, env) ==
              match env.parseDate(Trim(value))
              case Some(timestamp) => Some(timestamp - env.now)
              case None => None
  {
    var seconds: nat := IntCast(Trim(value));
    assert Trim(value) != DecimalString(seconds);
  }

  predicate IsLetter(c: char) { 'a' <= c <= 'z' || 'A' <= c <= 'Z' }

  /**
   * What PHP's parser of the layout 'D, d M Y H:i:s \G\M\T' does with its
   * first token: 'D' reads a word up to a delimiter and looks it up among the
   * day names and relative-unit words, none of which starts with a digit. So
   * it refuses the empty string and every string that starts with a digit.
   */
  ghost predicate FixdateParser(parse: string -> Option<int>) {
    forall v :: parse(v).Some? ==> |v| > 0 && !IsDigit(v[0])
  }

  /** Such a parser refuses an empty string and one that starts with a digit. */
  lemma NotAFixdate(parse: string -> Option<int>, v: string)
    requires FixdateParser(parse)
    requires |v| == 0 || IsDigit(v[0])
    ensures parse(v).None?
  {
  }

  /** A string with nothing to trim at either end is its own trimmed form. */
  lemma TrimUnpadded(x: string)
    requires |x| > 0 && !IsTrimChar(x[0]) && !IsTrimChar(x[|x| - 1])
    ensures Trim(x) == x
  {
    TrimPadding("", x, "");
    assert "" + x + "" == x;
  }

  lemma ZeroExample(env: Env)
    ensures ParseToSeconds("0", env) == Some(0)
  {
    CanonicalSeconds("", 0, "", env);
    assert "" + DecimalString(0) + "" == "0";
  }

  lemma PaddedTwoExample(env: Env)
    ensures ParseToSeconds(" 2 ", env) == Some(2)
  {
    CanonicalSeconds(" ", 2, " ", env);
    assert " " + DecimalString(2) + " " == " 2 ";
  }

  /**
   * A decimal fraction, such as "2.1", is not an integer and not a date: it
   * gives no answer.
   */
  lemma FractionRefused(n: nat, digits: string, env: Env)
    requires FixdateParser(env.parseDate)
    requires |digits| > 0 && IsDigit(digits[|digits| - 1])
    ensures ParseToSeconds(DecimalString(n) + "." + digits, env) == None
  {
    var d := DecimalString(n);
    var v := d + "." + digits;
    assert v == d + ("." + digits);
    assert IsDigit(v[0]) && IsDigit(v[|v| - 1]);
    TrimUnpadded(v);
    CastStopsAtNonDigit(n, "." + digits);
    assert |v| > |d|;
    NotAFixdate(env.parseDate, v);
  }

  /** A negative integer, such as "-1", gives no answer. */
  lemma NegativeRefused(w1: string, n: nat, w2: string, env: Env)
    requires IsPadding(w1) && IsPadding(w2)
    requires n > 0
    ensures ParseToSeconds(w1 + "-" + DecimalString(n) + w2, env) == None
  {
    var v := "-" + DecimalString(n);
    assert w1 + "-" + DecimalString(n) + w2 == w1 + v + w2;
    assert v[|v| - 1] == DecimalString(n)[|DecimalString(n)| - 1];
    TrimPadding(w1, v, w2);
    CastOfNegative(n);
  }

  /** The first value of the `Retry-After` header of a response. */
  predicate HeaderIs(response: Response, value: string) {
    HeaderName in response.headers && |response.headers[HeaderName]| > 0
    && response.headers[HeaderName][0] == value
  }

  // The four integer-like header values of the source's tests.

  lemma ZeroHeaderExample(r: Response, env: Env)
    requires HeaderIs(r, "0")
    ensures RetryAfterMillis(Some(r), env) == Some(0)
  {
    assert "" + DecimalString(0) + "" == "0";
    CanonicalHeader(r, "", 0, "", env);
  }

  lemma PaddedHeaderExample(r: Response, env: Env)
    requires HeaderIs(r, " 2 ")
    ensures RetryAfterMillis(Some(r), env) == Some(2000)
  {
    assert " " + DecimalString(2) + " " == " 2 ";
    CanonicalHeader(r, " ", 2, " ", env);
  }

  lemma FractionHeaderExample(r: Response, env: Env)
    requires FixdateParser(env.parseDate)
    requires HeaderIs(r, "2.1")
    ensures RetryAfterMillis(Some(r), env) == None
  {
    assert DecimalString(2) + "." + "1" == "2.1";
    FractionRefused(2, "1", env);
  }

  lemma NegativeHeaderExample(r: Response, env: Env)
    requires HeaderIs(r, "-1")
    ensures RetryAfterMillis(Some(r), env) == None
  {
    assert "" + "-" + DecimalString(1) + "" == "-1";
    NegativeRefused("", 1, "", env);
  }

  /**
   * A date that starts with a letter, as the IMF-fixdate day name does, is
   * never an integer: its cast is 0, so it goes to the parser. Accepted one
   * second ahead of the clock it asks for 1000 ms; refused by the parser (a
   * zone other than the literal GMT, say) it gives no answer.
   */
  lemma DateExamples(response: Response, date: string, env: Env)
    requires |date| > 0 && IsLetter(date[0]) && !IsTrimChar(date[|date| - 1])
    requires HeaderIs(response, date)
    ensures env.parseDate(date) == Some(env.now + 1) ==> RetryAfterMillis(Some(response), env) == Some(1000)
    ensures env.parseDate(date).None? ==> RetryAfterMillis(Some(response), env) == None
  {
    TrimUnpadded(date);
    assert IntCast(date) == 0 by {
      assert SkipCastSpace(date) == date;
      assert LeadingDigits(date) == [];
    }
    assert date != DecimalString(0) by {
      assert DecimalString(0) == "0";
    }
  }

  /**
   * A value that starts with a decimal number followed by anything else, as
   * an ISO-style date "2026-10-14 12:00:01 GMT" does, is not a canonical
   * integer and goes to the parser, which refuses it: no answer.
   */
  lemma DigitLedRefused(response: Response, n: nat, rest: string, env: Env)
    requires FixdateParser(env.parseDate)
    requires |rest| > 0 && !IsDigit(rest[0]) && !IsTrimChar(rest[|rest| - 1])
    requires HeaderIs(response, DecimalString(n) + rest)
    ensures RetryAfterMillis(Some(response), env) == None
  {
    var d := DecimalString(n);
    var v := d + rest;
    assert IsDigit(v[0]) && v[|v| - 1] == rest[|rest| - 1];
    TrimUnpadded(v);
    CastStopsAtNonDigit(n, rest);
    assert |v| > |d|;
    NotAFixdate(env.parseDate, v);
  }

  /** The ISO-style date of the source's tests, `Y-m-d H:i:s` and " GMT", gives no answer. */
  lemma IsoDateExample(response: Response, env: Env)
    requires FixdateParser(env.parseDate)
    requires HeaderIs(response, "2026-10-14 12:00:01 GMT")
    ensures RetryAfterMillis(Some(response), env) == None
  {
    var v := "2026-10-14 12:00:01 GMT";
    TrimUnpadded(v);
    // the '-' keeps it from being any number's decimal form
    assert !IsDigit(v[4]);
    NotAFixdate(env.parseDate, v);
  }
}
