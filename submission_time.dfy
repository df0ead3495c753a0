/**
 * The timestamp resolver: turns the raw `timestamp` of a LeetCode submission into an
 * instant, in milliseconds since the Unix epoch. It never fails: when nothing can be
 * read out of the raw value the current instant is used instead.
 *
 * JavaScript's `parseInt` and the `Date` constructor are written out here. Turning a
 * calendar string into an instant (what `new Date(string)` does with an ISO string) is
 * a parameter, `parseDate`, giving the time value before the `Date` range check.
 */
module SubmissionTime {
  import opened Common

  /** The largest magnitude, in ms from the epoch, that a JavaScript `Date` can hold. */
  const MaxTimeMs: int := 8_640_000_000_000_000

  /** Integers above this are read as milliseconds, the others as seconds. */
  const SecondsThreshold: int := 9_999_999_999

  /** A `Date` built from this time value is not an 'Invalid Date'. */
  predicate IsValidTime(ms: int) {
    -MaxTimeMs <= ms <= MaxTimeMs
  }

  // ---------------------------------------------------------------------------
  // parseInt(string) with no radix, as ECMAScript defines it

  /** The characters ECMAScript's `parseInt` skips before a number (white space and line terminators). */
  predicate IsStrWhiteSpace(c: char) {
    c == '\t' || c == '\n' || c == '\U{000B}' || c == '\U{000C}' || c == '\r' || c == ' '
    || c == '\U{00A0}' || c == '\U{1680}' || ('\U{2000}' <= c <= '\U{200A}')
    || c == '\U{2028}' || c == '\U{2029}' || c == '\U{202F}' || c == '\U{205F}'
    || c == '\U{3000}' || c == '\U{FEFF}'
  }

  function TrimStart(s: string): (r: string)
    ensures |r| <= |s| && r == s[|s| - |r|..]
    ensures r == [] || !IsStrWhiteSpace(r[0])
  {
    if s != [] && IsStrWhiteSpace(s[0]) then TrimStart(s[1..]) else s
  }

  /** The value of a digit character in any radix up to 36, or -1 for a non-digit. */
  function DigitValue(c: char): int {
    if '0' <= c <= '9' then c as int - '0' as int
    else if 'a' <= c <= 'z' then c as int - 'a' as int + 10
    else if 'A' <= c <= 'Z' then c as int - 'A' as int + 10
    else -1
  }

  predicate IsDigitIn(c: char, radix: nat) {
    0 <= DigitValue(c) < radix
  }

  /** The longest prefix of `s` made of digits of the radix. */
  function DigitRun(s: string, radix: nat): (d: string)
    ensures |d| <= |s| && d == s[..|d|]
    ensures forall i :: 0 <= i < |d| ==> IsDigitIn(d[i], radix)
    ensures |d| < |s| ==> !IsDigitIn(s[|d|], radix)
  {
    if s != [] && IsDigitIn(s[0], radix) then [s[0]] + DigitRun(s[1..], radix) else []
  }

  lemma ProductNonNegative(a: nat, b: nat)
    ensures a * b >= 0
  {
  }

  /** The value of a string of digits, most significant digit first. */
  function ValueOf(d: string, radix: nat): nat
    requires forall i :: 0 <= i < |d| ==> IsDigitIn(d[i], radix)
  {
    if d == [] then 0
    else
      var front, last := d[..|d| - 1], d[|d| - 1];
      assert forall i :: 0 <= i < |front| ==> front[i] == d[i];
      assert IsDigitIn(last, radix);
      var v := ValueOf(front, radix);
      ProductNonNegative(v, radix);
      v * radix + DigitValue(last)
  }

  /**
   * `parseInt(s)`: skip leading white space, take an optional sign, then an optional
   * `0x`/`0X` (which switches to radix 16), then as many digits as there are.
   * `None` is `NaN`: no digit at all. Every integer a valid `Date` can take is exactly
   * representable as a JavaScript number, so the model keeps exact integers.
   */
  function ParseInt(s: string): (r: Option<int>)
    ensures TrimStart(s) == [] ==> r.None?
    ensures TrimStart(s) != [] && !IsDigitIn(TrimStart(s)[0], 10) && TrimStart(s)[0] != '-' && TrimStart(s)[0] != '+'
      ==> r.None?
    ensures TrimStart(s) != [] && '1' <= TrimStart(s)[0] <= '9' ==> r.Some? && r.value >= 0
    ensures r.Some? && r.value < 0 ==> TrimStart(s)[0] == '-'
  {
    var t := TrimStart(s);
    var negative := t != [] && t[0] == '-';
    var unsigned := if t != [] && (t[0] == '-' || t[0] == '+') then t[1..] else t;
    var hex := |unsigned| >= 2 && unsigned[0] == '0' && (unsigned[1] == 'x' || unsigned[1] == 'X');
    var radix := if hex then 16 else 10;
    var digits := DigitRun(if hex then unsigned[2..] else unsigned, radix);
    if digits == [] then None
    else
      var n: int := ValueOf(digits, radix);
      Some(if negative then -n else n)
  }

  // ---------------------------------------------------------------------------
  // parseSubmissionTime

  /** An integer above the threshold is taken as milliseconds, any other as seconds (modules/scheduledTasks.js:21). */
  function FromUnix(t: int): int {
    if t > SecondsThreshold then t else t * 1000
  }

  /** The instant a date-string parse gives, when it is a valid `Date`. */
  function DateParse(s: string, parseDate: string -> Option<int>): Option<int> {
    var p := parseDate(s);
    if p.Some? && IsValidTime(p.value) then p else None
  }

  /**
   * `parseSubmissionTime(submission)`, with `raw` the submission's `timestamp` field.
   * A falsy timestamp gives `nowMs`; an integer prefix gives seconds or milliseconds;
   * otherwise the date-string parse is tried; otherwise `nowMs` again.
   */
  function ParseSubmissionTime(raw: Option<string>, nowMs: int, parseDate: string -> Option<int>): (ms: int)
    ensures ms == nowMs || IsValidTime(ms)
  {
    if !Truthy(raw) then nowMs
    else
      var t := ParseInt(raw.value);
      if t.Some? && IsValidTime(FromUnix(t.value)) then FromUnix(t.value)
      else
        var d := DateParse(raw.value, parseDate);
        if d.Some? then d.value else nowMs
  }

  /** An absent or empty timestamp resolves to the current instant. */
  lemma FalsyTimestampIsNow(raw: Option<string>, nowMs: int, parseDate: string -> Option<int>)
    requires raw.None? || raw.value == ""
    ensures ParseSubmissionTime(raw, nowMs, parseDate) == nowMs
  {
  }

  /** An integer prefix `t` resolves to `t` ms above the threshold and `t*1000` ms otherwise, when that is a valid Date. */
  lemma IntegerPrefixResolves(s: string, t: int, nowMs: int, parseDate: string -> Option<int>)
    requires s != "" && ParseInt(s) == Some(t)
    requires IsValidTime(FromUnix(t))
    ensures t > SecondsThreshold ==> ParseSubmissionTime(Some(s), nowMs, parseDate) == t
    ensures t <= SecondsThreshold ==> ParseSubmissionTime(Some(s), nowMs, parseDate) == t * 1000
  {
  }

  /**
   * When the integer path fails, a valid date-string parse is used, and otherwise the
   * current instant: the resolver never fails.
   */
  lemma NonIntegerFallsBack(s: string, nowMs: int, parseDate: string -> Option<int>)
    requires s != ""
    requires ParseInt(s).None? || !IsValidTime(FromUnix(ParseInt(s).value))
    ensures DateParse(s, parseDate).Some? ==> ParseSubmissionTime(Some(s), nowMs, parseDate) == DateParse(s, parseDate).value
    ensures DateParse(s, parseDate).None? ==> ParseSubmissionTime(Some(s), nowMs, parseDate) == nowMs
  {
  }

  // ---------------------------------------------------------------------------
  // Decimal renderings of Unix times, and their round trip through the resolver

  function DigitChar(d: nat): (c: char)
    requires d < 10
    ensures IsDigitIn(c, 10) && DigitValue(c) == d
  {
    ('0' as int + d) as char
  }

  /** The decimal rendering of a natural number, without leading zeros. */
  function DecimalString(n: nat): (s: string)
    ensures |s| > 0
    ensures forall i :: 0 <= i < |s| ==> '0' <= s[i] <= '9'
    ensures |s| > 1 ==> s[0] != '0'
  {
    if n < 10 then [DigitChar(n)] else DecimalString(n / 10) + [DigitChar(n % 10)]
  }

  /** `DigitRun` stops exactly at the first non-digit. */
  lemma {:induction false} DigitRunUpTo(s: string, k: nat, radix: nat)
    requires k <= |s|
    requires forall i :: 0 <= i < k ==> IsDigitIn(s[i], radix)
    requires k < |s| ==> !IsDigitIn(s[k], radix)
    ensures DigitRun(s, radix) == s[..k]
  {
    if k > 0 {
      DigitRunUpTo(s[1..], k - 1, radix);
      assert [s[0]] + s[1..][..k - 1] == s[..k];
    }
  }

  /**
   * A string that starts with `k` decimal digits, followed by its end or a non-digit,
   * reads through `parseInt` as the value of those digits.
   */
  lemma LeadingDigitsParse(s: string, k: nat)
    requires 0 < k <= |s|
    requires forall i :: 0 <= i < k ==> '0' <= s[i] <= '9'
    requires k < |s| ==> !IsDigitIn(s[k], 10)
    requires k == 1 && s[0] == '0' && |s| >= 2 ==> s[1] != 'x' && s[1] != 'X'
    ensures forall i :: 0 <= i < k ==> IsDigitIn(s[..k][i], 10)
    ensures ParseInt(s) == Some(ValueOf(s[..k], 10))
  {
    assert !IsStrWhiteSpace(s[0]);
    assert TrimStart(s) == s;
    assert !(|s| >= 2 && s[0] == '0' && (s[1] == 'x' || s[1] == 'X')) by {
      if |s| >= 2 && s[0] == '0' && k >= 2 {
        assert '0' <= s[1] <= '9';
      }
    }
    DigitRunUpTo(s, k, 10);
  }

  /** A string made of decimal digits reads back through `parseInt` as its own value. */
  lemma AllDigitsParse(s: string)
    requires s != [] && forall i :: 0 <= i < |s| ==> '0' <= s[i] <= '9'
    ensures forall i :: 0 <= i < |s| ==> IsDigitIn(s[i], 10)
    ensures ParseInt(s) == Some(ValueOf(s, 10))
  {
    LeadingDigitsParse(s, |s|);
    assert s[..|s|] == s;
  }

  /** The decimal rendering of `n` has value `n`. */
  lemma {:induction false} DecimalValue(n: nat)
    ensures forall i :: 0 <= i < |DecimalString(n)| ==> IsDigitIn(DecimalString(n)[i], 10)
    ensures ValueOf(DecimalString(n), 10) == n
  {
    var s := DecimalString(n);
    if n >= 10 {
      DecimalValue(n / 10);
      assert s[..|s| - 1] == DecimalString(n / 10);
      assert ValueOf(s, 10) == ValueOf(DecimalString(n / 10), 10) * 10 + n % 10;
    }
  }

  /** parseInt is the inverse of the decimal rendering. */
  lemma ParseIntDecimal(n: nat)
    ensures ParseInt(DecimalString(n)) == Some(n)
  {
    DecimalValue(n);
    AllDigitsParse(DecimalString(n));
  }

  /**
   * A Unix time written in seconds (10 digits or fewer) and the same time written in
   * milliseconds resolve to the same instant, provided the millisecond count is above
   * the threshold (which holds from 10,000,000 s on, i.e. April 1970).
   */
  lemma SecondsAndMillisecondsAgree(t: nat, nowMs: int, parseDate: string -> Option<int>)
    requires 10_000_000 <= t <= SecondsThreshold
    ensures ParseSubmissionTime(Some(DecimalString(t)), nowMs, parseDate) == t * 1000
    ensures ParseSubmissionTime(Some(DecimalString(t * 1000)), nowMs, parseDate) == t * 1000
  {
    SecondsStringResolves(t, nowMs, parseDate);
    MillisecondsStringResolves(t * 1000, nowMs, parseDate);
  }

  /** A decimal count up to the threshold is read as seconds. */
  lemma SecondsStringResolves(t: nat, nowMs: int, parseDate: string -> Option<int>)
    requires t <= SecondsThreshold
    ensures ParseSubmissionTime(Some(DecimalString(t)), nowMs, parseDate) == t * 1000
  {
    ParseIntDecimal(t);
    assert FromUnix(t) == t * 1000;
    assert IsValidTime(t * 1000);
  }

  /** A decimal count above the threshold, within the Date range, is read as milliseconds. */
  lemma MillisecondsStringResolves(m: nat, nowMs: int, parseDate: string -> Option<int>)
    requires SecondsThreshold < m <= MaxTimeMs
    ensures ParseSubmissionTime(Some(DecimalString(m)), nowMs, parseDate) == m
  {
    ParseIntDecimal(m);
    assert FromUnix(m) == m;
  }

  /** A ten-digit timestamp is read as seconds, and the same instant in thirteen digits as milliseconds. */
  lemma Example1700000000()
    ensures ParseSubmissionTime(Some("1700000000"), 0, _ => None) == 1_700_000_000_000
    ensures ParseSubmissionTime(Some("1700000000000"), 0, _ => None) == 1_700_000_000_000
  {
    assert DecimalString(17) == "17";
    assert DecimalString(170) == "170";
    assert DecimalString(1700) == "1700";
    assert DecimalString(17000) == "17000";
    assert DecimalString(170000) == "170000";
    assert DecimalString(1700000) == "1700000";
    assert DecimalString(17000000) == "17000000";
    assert DecimalString(170000000) == "170000000";
    assert DecimalString(1700000000) == "1700000000";
    assert DecimalString(17000000000) == "17000000000";
    assert DecimalString(170000000000) == "170000000000";
    assert DecimalString(1700000000000) == "1700000000000";
    SecondsAndMillisecondsAgree(1_700_000_000, 0, _ => None);
  }

  // ---------------------------------------------------------------------------
  // The integer path also captures calendar strings

  /**
   * As written, an ISO timestamp never reaches the date-string parse: `parseInt` stops
   * at the first `-` and returns the year, which is then read as seconds since 1970.
   */
  lemma IsoStringReadAsSeconds(nowMs: int, parseDate: string -> Option<int>)
    ensures ParseSubmissionTime(Some("2024-01-15T10:00:00Z"), nowMs, parseDate) == 2_024_000
  {
    IsoStringParseInt();
  }

  lemma IsoStringParseInt()
    ensures ParseInt("2024-01-15T10:00:00Z") == Some(2024)
  {
    assert "2024-01-15T10:00:00Z" == "2024" + "-01-15T10:00:00Z";
    YearPrefixParse("-01-15T10:00:00Z");
  }

  /** Four year digits followed by a `-` read as the year. */
  lemma YearPrefixParse(rest: string)
    requires |rest| > 0 && rest[0] == '-'
    ensures ParseInt("2024" + rest) == Some(2024)
  {
    var s := "2024" + rest;
    assert s[..4] == "2024";
    assert s[4] == '-';
    assert DigitValue(s[4]) == -1;
    LeadingDigitsParse(s, 4);
    ValueOf2024();
  }

  lemma ValueOf2024()
    ensures ValueOf("2024", 10) == 2024
  {
    assert "2024"[..3] == "202";
    assert "202"[..2] == "20";
    assert "20"[..1] == "2";
    assert "2"[..0] == "";
  }

  predicate AllDecimalDigits(s: string) {
    s != [] && forall i :: 0 <= i < |s| ==> '0' <= s[i] <= '9'
  }

  /**
   * The resolver with the integer path taken only for a timestamp made entirely of
   * digits, so that calendar strings reach the date-string parse.
   */
  function ParseSubmissionTimeStrict(raw: Option<string>, nowMs: int, parseDate: string -> Option<int>): (ms: int)
    ensures ms == nowMs || IsValidTime(ms)
  {
    if !Truthy(raw) then nowMs
    else if AllDecimalDigits(raw.value) && IsValidTime(FromUnix(ValueOf(raw.value, 10))) then
      FromUnix(ValueOf(raw.value, 10))
    else
      var d := DateParse(raw.value, parseDate);
      if d.Some? then d.value else nowMs
  }

  /** On timestamps made of digits only (what LeetCode sends), the two resolvers agree. */
  lemma StrictAgreesOnDigitStrings(s: string, nowMs: int, parseDate: string -> Option<int>)
    requires AllDecimalDigits(s)
    ensures ParseSubmissionTimeStrict(Some(s), nowMs, parseDate) == ParseSubmissionTime(Some(s), nowMs, parseDate)
  {
    AllDigitsParse(s);
  }

  /** Any other non-empty string goes to the date-string parse, falling back to `nowMs`. */
  lemma StrictParsesCalendarStrings(s: string, nowMs: int, parseDate: string -> Option<int>)
    requires s != "" && !AllDecimalDigits(s)
    ensures DateParse(s, parseDate).Some? ==> ParseSubmissionTimeStrict(Some(s), nowMs, parseDate) == DateParse(s, parseDate).value
    ensures DateParse(s, parseDate).None? ==> ParseSubmissionTimeStrict(Some(s), nowMs, parseDate) == nowMs
  {
  }
}
