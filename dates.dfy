/**
 * Date keys: `t.Format(DateLayout)` with DateLayout = "2006-01-02"
 * (pkg/db/db.go:15, :77, :103). Go writes "2006" as the year through
 * appendInt with width 4, and "01"/"02" as month and day with width 2:
 * a '-' for a negative value, then the decimal digits left-padded with
 * '0' to the width. For years 0..9999 this is the full-date form of
 * section 5.6 of RFC 3339.
 */
module Dates {
  import opened Options

  type Month = m: int | 1 <= m <= 12 witness 1
  type Day = d: int | 1 <= d <= 31 witness 1

  /** The calendar date of a `time.Time` in its location. */
  datatype Date = Date(year: int, month: Month, day: Day)

  predicate IsDigit(c: char) {
    '0' <= c <= '9'
  }

  predicate AllDigits(s: string) {
    forall i :: 0 <= i < |s| ==> IsDigit(s[i])
  }

  function DigitChar(d: nat): (c: char)
    requires d < 10
    ensures IsDigit(c) && c as int - '0' as int == d
  {
    ('0' as int + d) as char
  }

  /** The value of a string of decimal digits, most significant first. */
  function Value(s: string): nat
    requires AllDigits(s)
  {
    if s == [] then 0 else Value(s[..|s| - 1]) * 10 + (s[|s| - 1] as int - '0' as int)
  }

  /** The shortest decimal form of n. */
  function Decimal(n: nat): (s: string)
    ensures 1 <= |s| && AllDigits(s) && Value(s) == n
    ensures n < 10 <==> |s| == 1
  {
    if n < 10 then [DigitChar(n)]
    else
      var s := Decimal(n / 10) + [DigitChar(n % 10)];
      assert s[..|s| - 1] == Decimal(n / 10);
      s
  }

  function Zeros(k: nat): (s: string)
    ensures |s| == k && AllDigits(s)
  {
    if k == 0 then [] else Zeros(k - 1) + ['0']
  }

  /** Leading zeros do not change a decimal value. */
  lemma {:induction false} ZerosValue(k: nat, t: string)
    requires AllDigits(t)
    ensures AllDigits(Zeros(k) + t) && Value(Zeros(k) + t) == Value(t)
  {
    var s := Zeros(k) + t;
    assert AllDigits(s) by {
      forall i | 0 <= i < |s| ensures IsDigit(s[i]) {
        if i < k { assert s[i] == Zeros(k)[i]; } else { assert s[i] == t[i - k]; }
      }
    }
    if t == [] {
      if k > 0 {
        assert s[..|s| - 1] == Zeros(k - 1) + [];
        ZerosValue(k - 1, []);
      }
    } else {
      var u := t[..|t| - 1];
      assert s[..|s| - 1] == Zeros(k) + u;
      ZerosValue(k, u);
    }
  }

  /** The digits of n, left-padded with '0' to at least `width` characters. */
  function Padded(n: nat, width: nat): (s: string)
    ensures AllDigits(s) && Value(s) == n
    ensures |s| == if |Decimal(n)| < width then width else |Decimal(n)|
  {
    var digits := Decimal(n);
    var k := if |digits| < width then width - |digits| else 0;
    ZerosValue(k, digits);
    Zeros(k) + digits
  }

  /** Go's appendInt(nil, x, width): the sign, then the padded magnitude. */
  function AppendInt(x: int, width: nat): string {
    if x < 0 then "-" + Padded(-x, width) else Padded(x, width)
  }

  /** `t.Format(DateLayout)`. */
  function Format(t: Date): (s: string)
    ensures |s| >= 10 && s[|s| - 6] == '-' && s[|s| - 3] == '-'
    ensures AllDigits(s[|s| - 5..|s| - 3]) && AllDigits(s[|s| - 2..])
  {
    TwoDigits(t.month, 12);
    TwoDigits(t.day, 31);
    var s := AppendInt(t.year, 4) + "-" + AppendInt(t.month, 2) + "-" + AppendInt(t.day, 2);
    assert s[|s| - 5..|s| - 3] == AppendInt(t.month, 2);
    assert s[|s| - 2..] == AppendInt(t.day, 2);
    s
  }

  /** Reads back a year written by AppendInt: an optional '-' then digits. */
  function ParseYear(s: string): Option<int> {
    if |s| > 0 && s[0] == '-' then
      if |s| > 1 && AllDigits(s[1..]) then Some(-(Value(s[1..]) as int)) else None
    else if |s| > 0 && AllDigits(s) then Some(Value(s))
    else None
  }

  /** Reads back a two-digit month or day no greater than hi. */
  function ParseTwo(s: string, hi: int): Option<int> {
    if |s| == 2 && AllDigits(s) && 1 <= Value(s) <= hi then Some(Value(s)) else None
  }

  /**
   * The inverse of Format: the last six characters are "-MM-DD", the rest
   * is the year.
   */
  function ParseDate(s: string): Option<Date> {
    if |s| < 7 || s[|s| - 6] != '-' || s[|s| - 3] != '-' then None
    else
      var y := ParseYear(s[..|s| - 6]);
      var m := ParseTwo(s[|s| - 5..|s| - 3], 12);
      var d := ParseTwo(s[|s| - 2..], 31);
      if y.Some? && m.Some? && d.Some? then Some(Date(y.value, m.value, d.value)) else None
  }

  /** Values below 100 have at most two digits, values below 10000 at most four. */
  lemma DecimalLength(n: nat)
    requires n < 10000
    ensures |Decimal(n)| <= 4
    ensures n < 100 ==> |Decimal(n)| <= 2
  {
    if n >= 10 {
      assert Decimal(n) == Decimal(n / 10) + [DigitChar(n % 10)];
      if n / 10 >= 10 {
        assert Decimal(n / 10) == Decimal(n / 100) + [DigitChar(n / 10 % 10)];
        if n / 100 >= 10 {
          assert Decimal(n / 100) == Decimal(n / 1000) + [DigitChar(n / 100 % 10)];
        }
      }
    }
  }

  /** A month or day, written with width 2, is exactly two digits and reads back. */
  lemma TwoDigits(x: int, hi: int)
    requires 1 <= x <= hi <= 31
    ensures |AppendInt(x, 2)| == 2 && ParseTwo(AppendInt(x, 2), hi) == Some(x)
  {
    DecimalLength(x);
  }

  /** A year, written with width 4, reads back. */
  lemma YearRoundTrip(y: int)
    ensures ParseYear(AppendInt(y, 4)) == Some(y)
  {
    if y < 0 {
      var s := AppendInt(y, 4);
      assert s[1..] == Padded(-y, 4);
    }
  }

  /** Where ParseDate finds the three parts of "Y-MM-DD". */
  lemma SplitKey(ys: string, ms: string, ds: string)
    requires |ys| >= 1 && |ms| == 2 && |ds| == 2
    ensures var s := ys + "-" + ms + "-" + ds;
      && |s| >= 7 && s[|s| - 6] == '-' && s[|s| - 3] == '-'
      && s[..|s| - 6] == ys && s[|s| - 5..|s| - 3] == ms && s[|s| - 2..] == ds
  {
  }

  /** Format is left-inverted by ParseDate. */
  lemma ParseFormat(t: Date)
    ensures ParseDate(Format(t)) == Some(t)
  {
    var ys, ms, ds := AppendInt(t.year, 4), AppendInt(t.month, 2), AppendInt(t.day, 2);
    TwoDigits(t.month, 12);
    TwoDigits(t.day, 31);
    YearRoundTrip(t.year);
    SplitKey(ys, ms, ds);
    assert Format(t) == ys + "-" + ms + "-" + ds;
  }

  /** Distinct dates are stored under distinct keys. */
  lemma FormatInjective(t: Date, u: Date)
    ensures Format(t) == Format(u) <==> t == u
  {
    ParseFormat(t);
    ParseFormat(u);
  }

  /** For years 0..9999 the key is RFC 3339's full-date: YYYY-MM-DD, ten characters. */
  lemma FullDate(t: Date)
    requires 0 <= t.year <= 9999
    ensures var s := Format(t);
      && |s| == 10 && s[4] == '-' && s[7] == '-'
      && AllDigits(s[..4]) && AllDigits(s[5..7]) && AllDigits(s[8..])
      && Value(s[..4]) == t.year && Value(s[5..7]) == t.month && Value(s[8..]) == t.day
  {
    DecimalLength(t.year);
    TwoDigits(t.month, 12);
    TwoDigits(t.day, 31);
    var s := Format(t);
    var ys, ms, ds := AppendInt(t.year, 4), AppendInt(t.month, 2), AppendInt(t.day, 2);
    assert s == ys + "-" + ms + "-" + ds;
    assert s[..4] == ys;
    assert s[5..7] == ms;
    assert s[8..] == ds;
  }
}
