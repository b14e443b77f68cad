/** The few JavaScript string operations the core relies on:
    `String.prototype.trim`, `String(n)` for a natural number,
    `String.prototype.padStart`, and the `YYYY-MM-DD` date key built by
    `getLocalDateString` / `getCurrentDateString`. */
module JsText {
  import opened Common

  /** ECMAScript WhiteSpace and LineTerminator code points: what `trim`
      removes (this includes the ideographic space U+3000). */
  predicate IsWhiteSpace(c: char) {
    var n := c as int;
    n == 0x09 || n == 0x0A || n == 0x0B || n == 0x0C || n == 0x0D || n == 0x20
    || n == 0xA0 || n == 0x1680 || (0x2000 <= n <= 0x200A) || n == 0x2028
    || n == 0x2029 || n == 0x202F || n == 0x205F || n == 0x3000 || n == 0xFEFF
  }

  /** The number of white-space characters at the start of `s`. */
  function LeadingSpaces(s: string): (n: nat)
    ensures n <= |s|
    ensures forall k :: 0 <= k < n ==> IsWhiteSpace(s[k])
    ensures n < |s| ==> !IsWhiteSpace(s[n])
  {
    if s == [] || !IsWhiteSpace(s[0]) then 0 else 1 + LeadingSpaces(s[1..])
  }

  /** The number of white-space characters at the end of `s`. */
  function TrailingSpaces(s: string): (n: nat)
    ensures n <= |s|
    ensures forall k :: |s| - n <= k < |s| ==> IsWhiteSpace(s[k])
    ensures n < |s| ==> !IsWhiteSpace(s[|s| - n - 1])
  {
    if s == [] || !IsWhiteSpace(s[|s| - 1]) then 0 else 1 + TrailingSpaces(s[..|s| - 1])
  }

  /** `s.trim()`: the part of `s` between its leading and trailing white space. */
  function Trim(s: string): (r: string)
    ensures LeadingSpaces(s) + |r| <= |s|
    ensures r == s[LeadingSpaces(s)..LeadingSpaces(s) + |r|]
    ensures forall k :: LeadingSpaces(s) + |r| <= k < |s| ==> IsWhiteSpace(s[k])
    ensures r == [] || (!IsWhiteSpace(r[0]) && !IsWhiteSpace(r[|r| - 1]))
  {
    var rest := s[LeadingSpaces(s)..];
    rest[..|rest| - TrailingSpaces(rest)]
  }

  /** A trimmed string is empty exactly when the input was all white space,
      which is how `if (!name)` after `.trim()` rejects a blank name. */
  lemma TrimEmptyIff(s: string)
    ensures Trim(s) == [] <==> forall k :: 0 <= k < |s| ==> IsWhiteSpace(s[k])
  {
    if Trim(s) != [] {
      assert !IsWhiteSpace(s[LeadingSpaces(s)]);
    }
  }

  /** Trimming is idempotent. */
  lemma TrimIdempotent(s: string)
    ensures Trim(Trim(s)) == Trim(s)
  {
    var r := Trim(s);
    if r != [] {
      assert LeadingSpaces(r) == 0;
      assert TrailingSpaces(r) == 0;
    }
  }

  function DigitChar(d: nat): (c: char)
    requires d < 10
    ensures '0' <= c <= '9' && c as int - '0' as int == d
  {
    "0123456789"[d]
  }

  predicate AllDigits(s: string) {
    forall k :: 0 <= k < |s| ==> '0' <= s[k] <= '9'
  }

  /** `String(n)` for a natural number: its decimal digits, most significant first. */
  function DecimalString(n: nat): (s: string)
    ensures |s| >= 1 && AllDigits(s)
    ensures n < 10 <==> |s| == 1
    ensures s[0] == '0' <==> n == 0
    decreases n
  {
    if n < 10 then [DigitChar(n)] else DecimalString(n / 10) + [DigitChar(n % 10)]
  }

  /** The value of a string of decimal digits (leading zeros allowed). */
  function ParseDecimal(s: string): nat
    requires AllDigits(s)
  {
    if s == [] then 0 else ParseDecimal(s[..|s| - 1]) * 10 + (s[|s| - 1] as int - '0' as int)
  }

  /** `ParseDecimal` inverts `DecimalString`. */
  lemma {:induction false} ParseDecimalString(n: nat)
    ensures ParseDecimal(DecimalString(n)) == n
    decreases n
  {
    if n >= 10 {
      var s := DecimalString(n);
      assert s[..|s| - 1] == DecimalString(n / 10);
      ParseDecimalString(n / 10);
    }
  }

  /** A leading zero does not change the value of a digit string. */
  lemma {:induction false} ParseLeadingZero(s: string)
    requires AllDigits(s)
    ensures AllDigits("0" + s) && ParseDecimal("0" + s) == ParseDecimal(s)
    decreases |s|
  {
    if s != [] {
      assert ("0" + s)[..|s|] == "0" + s[..|s| - 1];
      ParseLeadingZero(s[..|s| - 1]);
    } else {
      assert ("0" + s)[..0] == [];
    }
  }

  /** `s.padStart(width, fill)`: `s` preceded by enough copies of `fill` to
      reach `width`; a string already that long is returned unchanged. */
  function PadStart(s: string, width: nat, fill: char): (r: string)
    ensures |r| == if |s| >= width then |s| else width
    ensures r[|r| - |s|..] == s
    ensures forall k :: 0 <= k < |r| - |s| ==> r[k] == fill
  {
    if |s| >= width then s else seq(width - |s|, _ => fill) + s
  }

  /** The two-digit month or day field: `String(n).padStart(2, '0')`. */
  function TwoDigits(n: nat): string {
    PadStart(DecimalString(n), 2, '0')
  }

  lemma TwoDigitsValue(n: nat)
    requires n < 100
    ensures |TwoDigits(n)| == 2 && AllDigits(TwoDigits(n)) && ParseDecimal(TwoDigits(n)) == n
  {
    var d := DecimalString(n);
    ParseDecimalString(n);
    if n < 10 {
      assert TwoDigits(n) == "0" + d;
      ParseLeadingZero(d);
    } else {
      assert |d| == 2 by {
        assert DecimalString(n / 10) == [DigitChar(n / 10)];
      }
    }
  }

  /** The `YYYY-MM-DD` key of a local calendar date, built the way
      `getLocalDateString` and `getCurrentDateString` build it from
      `getFullYear()`, the zero-based `getMonth()` and `getDate()`. */
  function DateString(year: nat, monthIndex: nat, day: nat): string {
    DecimalString(year) + "-" + TwoDigits(monthIndex + 1) + "-" + TwoDigits(day)
  }

  /** A date argument: either already a key string, or a calendar date. */
  datatype DateArg = DateText(text: string) | CalendarDate(year: nat, monthIndex: nat, day: nat)

  /** `getLocalDateString(date)`: a string passes through unchanged. */
  function LocalDateString(date: DateArg): string {
    match date
    case DateText(text) => text
    case CalendarDate(y, m, d) => DateString(y, m, d)
  }

  /** Reads a date key back into (year, month number 1..12, day). */
  function ParseDateString(s: string): Option<(nat, nat, nat)> {
    if |s| < 7 || s[|s| - 6] != '-' || s[|s| - 3] != '-' then None
    else
      var y, m, d := s[..|s| - 6], s[|s| - 5..|s| - 3], s[|s| - 2..];
      if AllDigits(y) && AllDigits(m) && AllDigits(d)
      then Some((ParseDecimal(y), ParseDecimal(m), ParseDecimal(d)))
      else None
  }

  /** Reading back a key assembled from a year part and two two-digit parts. */
  lemma ParseAssembledDate(ys: string, ms: string, ds: string)
    requires AllDigits(ys) && AllDigits(ms) && AllDigits(ds)
    requires |ys| >= 1 && |ms| == 2 && |ds| == 2
    ensures ParseDateString(ys + "-" + ms + "-" + ds)
         == Some((ParseDecimal(ys), ParseDecimal(ms), ParseDecimal(ds)))
  {
    var s := ys + "-" + ms + "-" + ds;
    var tail := "-" + ms + "-" + ds;
    assert s == ys + tail;
    assert ms == [ms[0], ms[1]] && ds == [ds[0], ds[1]];
    assert tail == ['-', ms[0], ms[1], '-', ds[0], ds[1]];
    assert |s| == |ys| + 6;
    assert s[|s| - 6] == '-' && s[|s| - 3] == '-';
    assert s[..|s| - 6] == ys;
    assert s[|s| - 5..|s| - 3] == tail[1..3] == ms;
    assert s[|s| - 2..] == tail[4..] == ds;
  }

  /** Every key `DateString` produces for a real calendar date reads back to
      that date, the month as `getMonth() + 1`. */
  lemma DateStringRoundTrip(year: nat, monthIndex: nat, day: nat)
    requires monthIndex < 12 && 1 <= day <= 31
    ensures ParseDateString(DateString(year, monthIndex, day)) == Some((year, monthIndex + 1, day))
  {
    TwoDigitsValue(monthIndex + 1);
    TwoDigitsValue(day);
    ParseDecimalString(year);
    ParseAssembledDate(DecimalString(year), TwoDigits(monthIndex + 1), TwoDigits(day));
  }

  /** Distinct calendar dates get distinct keys, so a day's record is never
      shared with another day. */
  lemma DateStringInjective(y1: nat, m1: nat, d1: nat, y2: nat, m2: nat, d2: nat)
    requires m1 < 12 && 1 <= d1 <= 31 && m2 < 12 && 1 <= d2 <= 31
    requires DateString(y1, m1, d1) == DateString(y2, m2, d2)
    ensures y1 == y2 && m1 == m2 && d1 == d2
  {
    DateStringRoundTrip(y1, m1, d1);
    DateStringRoundTrip(y2, m2, d2);
  }
}
