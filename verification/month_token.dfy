/**
 The `YYYY-MM` month token: how `strftime('%Y-%m')` writes a month and which
 strings `datetime.strptime(token, '%Y-%m')` accepts. CPython's `_strptime`
 matches `%Y` as exactly four digits and `%m` as `1[0-2]|0[1-9]|[1-9]`, and
 fails when characters remain after the match; a year of 0 is then refused
 by the `datetime` constructor.
 */
module MonthToken {
  import opened Common
  import opened Calendar

  predicate IsDigit(c: char) {
    '0' <= c <= '9'
  }

  function DigitValue(c: char): (n: int)
    requires IsDigit(c)
    ensures 0 <= n <= 9
  {
    c as int - '0' as int
  }

  function DigitChar(n: int): (c: char)
    requires 0 <= n <= 9
    ensures IsDigit(c) && DigitValue(c) == n
  {
    ('0' as int + n) as char
  }

  lemma DivMod10(q: int, r: int)
    requires 0 <= r < 10
    ensures (10 * q + r) / 10 == q && (10 * q + r) % 10 == r
  {
  }

  /** `%Y`: the year as four zero-padded decimal digits. */
  function FormatYear(y: int): (s: string)
    requires 0 <= y <= MaxYear
    ensures |s| == 4 && IsDigit(s[0]) && IsDigit(s[1]) && IsDigit(s[2]) && IsDigit(s[3])
    ensures y == 1000 * DigitValue(s[0]) + 100 * DigitValue(s[1]) + 10 * DigitValue(s[2]) + DigitValue(s[3])
  {
    [DigitChar(y / 10 / 10 / 10), DigitChar(y / 10 / 10 % 10), DigitChar(y / 10 % 10), DigitChar(y % 10)]
  }

  /** `%m`: the month as two zero-padded decimal digits. */
  function FormatMonth(m: int): (s: string)
    requires 1 <= m <= 12
    ensures |s| == 2 && IsDigit(s[0]) && IsDigit(s[1])
    ensures m == 10 * DigitValue(s[0]) + DigitValue(s[1])
  {
    [DigitChar(m / 10), DigitChar(m % 10)]
  }

  /**
   `strftime('%Y-%m')` of a month: four zero-padded year digits, a dash, two
   zero-padded month digits.
   */
  function FormatKey(k: MonthKey): (s: string)
    requires 0 <= k.year <= MaxYear && 1 <= k.month <= 12
    ensures |s| == 7 && s[4] == '-'
    ensures forall i :: 0 <= i < 7 && i != 4 ==> IsDigit(s[i])
    ensures k.year == 1000 * DigitValue(s[0]) + 100 * DigitValue(s[1]) + 10 * DigitValue(s[2]) + DigitValue(s[3])
    ensures k.month == 10 * DigitValue(s[5]) + DigitValue(s[6])
  {
    FormatYear(k.year) + "-" + FormatMonth(k.month)
  }

  /** The value of the four leading decimal digits; formatting it gives them back. */
  function YearValue(s: string): (y: int)
    requires |s| >= 4 && IsDigit(s[0]) && IsDigit(s[1]) && IsDigit(s[2]) && IsDigit(s[3])
    ensures 0 <= y <= MaxYear
    ensures FormatYear(y) == s[..4]
  {
    var d0, d1, d2, d3 := DigitValue(s[0]), DigitValue(s[1]), DigitValue(s[2]), DigitValue(s[3]);
    DivMod10(100 * d0 + 10 * d1 + d2, d3);
    DivMod10(10 * d0 + d1, d2);
    DivMod10(d0, d1);
    1000 * d0 + 100 * d1 + 10 * d2 + d3
  }

  /**
   What `%m` accepts when it must consume the whole remainder `m`:
   one digit 1-9, or two digits 01-09 or 10-12. Two digits are the
   zero-padded month; one digit is the month without its padding.
   */
  function ParseMonthPart(m: string): (r: Option<int>)
    ensures r.Some? ==> 1 <= r.value <= 12
    ensures r.Some? && |m| == 2 ==> m == FormatMonth(r.value)
    ensures r.Some? && |m| != 2 ==> |m| == 1 && ['0'] + m == FormatMonth(r.value)
  {
    if |m| == 1 && '1' <= m[0] <= '9' then Some(DigitValue(m[0]))
    else if |m| == 2 && m[0] == '0' && '1' <= m[1] <= '9' then Some(DigitValue(m[1]))
    else if |m| == 2 && m[0] == '1' && '0' <= m[1] <= '2' then
      DivMod10(1, DigitValue(m[1]));
      Some(10 + DigitValue(m[1]))
    else None
  }

  /**
   `datetime.strptime(s, '%Y-%m')` reduced to the month it names; `None` is
   the ValueError. An accepted token formats back to itself, except that a
   one-digit month comes back zero-padded.
   */
  function ParseMonthToken(s: string): (r: Option<MonthKey>)
    ensures r.Some? ==> ValidKey(r.value)
    ensures r.Some? ==> |s| == 7 || |s| == 6
    ensures r.Some? && |s| == 7 ==> FormatKey(r.value) == s
    ensures r.Some? && |s| != 7 ==> FormatKey(r.value) == s[..5] + ['0'] + s[5..]
  {
    if |s| < 5 || !IsDigit(s[0]) || !IsDigit(s[1]) || !IsDigit(s[2]) || !IsDigit(s[3]) || s[4] != '-' then
      None
    else
      match ParseMonthPart(s[5..])
      case None => None
      case Some(m) =>
        var y := YearValue(s);
        if y < MinYear then None
        else
          assert s == s[..4] + "-" + s[5..];
          Some(MonthKey(y, m))
  }

  /** Every month in range survives a format/parse round trip. */
  lemma ParseFormat(k: MonthKey)
    requires ValidKey(k)
    ensures ParseMonthToken(FormatKey(k)) == Some(k)
  {
    var s := FormatKey(k);
    assert s[5..] == FormatMonth(k.month);
    assert s[..4] == FormatYear(k.year);
    var y := YearValue(s);
    var d0, d1, d2, d3 := DigitValue(s[0]), DigitValue(s[1]), DigitValue(s[2]), DigitValue(s[3]);
    assert y == k.year;
    var m := DigitValue(s[5]) * 10 + DigitValue(s[6]);
    assert m == k.month;
  }

  /** A month from January to September is also accepted without its zero padding (`2024-3`). */
  lemma ParseUnpadded(k: MonthKey)
    requires ValidKey(k) && k.month <= 9
    ensures ParseMonthToken(FormatYear(k.year) + "-" + [DigitChar(k.month)]) == Some(k)
  {
    var s := FormatYear(k.year) + "-" + [DigitChar(k.month)];
    assert s[..4] == FormatYear(k.year);
    assert s[5..] == [DigitChar(k.month)];
    assert YearValue(s) == k.year;
  }

  /** Python's ordering of strings: code point by code point, a proper prefix first. */
  predicate LexLess(a: string, b: string)
    ensures LexLess(a, b) ==> |b| > 0
    ensures |a| < |b| && a == b[..|a|] ==> LexLess(a, b)
  {
    if |a| == 0 then |b| > 0
    else if |b| == 0 then false
    else if a[0] != b[0] then a[0] < b[0]
    else LexLess(a[1..], b[1..])
  }

  lemma {:induction false} LexLessIrreflexive(a: string)
    ensures !LexLess(a, a)
  {
    if |a| > 0 {
      LexLessIrreflexive(a[1..]);
    }
  }

  /** The first position where two strings differ decides their order. */
  lemma {:induction false} LexLessAt(a: string, b: string, i: nat)
    requires i < |a| && i < |b| && a[..i] == b[..i] && a[i] != b[i]
    ensures LexLess(a, b) == (a[i] < b[i])
  {
    if i > 0 {
      assert a[0] == a[..i][0] && b[0] == b[..i][0];
      assert a[1..][..i - 1] == a[..i][1..];
      assert b[1..][..i - 1] == b[..i][1..];
      LexLessAt(a[1..], b[1..], i - 1);
    }
  }

  /**
   Sorting `strftime('%Y-%m')` strings, as the views do, sorts months
   chronologically: zero-padded fixed-width keys compare like the months.
   */
  lemma FormatKeyOrder(a: MonthKey, b: MonthKey)
    requires 0 <= a.year <= MaxYear && 1 <= a.month <= 12
    requires 0 <= b.year <= MaxYear && 1 <= b.month <= 12
    ensures LexLess(FormatKey(a), FormatKey(b)) <==> KeyLess(a, b)
  {
    if a.year != b.year {
      YearDecides(a, b);
    } else {
      MonthDecides(a, b);
    }
  }

  /** Keys of different years are ordered by their four year digits. */
  lemma YearDecides(a: MonthKey, b: MonthKey)
    requires 0 <= a.year <= MaxYear && 1 <= a.month <= 12
    requires 0 <= b.year <= MaxYear && 1 <= b.month <= 12
    requires a.year != b.year
    ensures LexLess(FormatKey(a), FormatKey(b)) <==> a.year < b.year
  {
    var sa, sb := FormatKey(a), FormatKey(b);
    PlaceValue(DigitValue(sa[0]), DigitValue(sa[1]), DigitValue(sa[2]), DigitValue(sa[3]),
               DigitValue(sb[0]), DigitValue(sb[1]), DigitValue(sb[2]), DigitValue(sb[3]));
    if sa[0] != sb[0] {
      LexLessAt(sa, sb, 0);
    } else if sa[1] != sb[1] {
      assert sa[..1] == sb[..1];
      LexLessAt(sa, sb, 1);
    } else if sa[2] != sb[2] {
      assert sa[..2] == sb[..2];
      LexLessAt(sa, sb, 2);
    } else {
      assert sa[..3] == sb[..3];
      LexLessAt(sa, sb, 3);
    }
  }

  /** Four-digit decimal numbers compare like their first differing digit. */
  lemma PlaceValue(x0: int, x1: int, x2: int, x3: int, y0: int, y1: int, y2: int, y3: int)
    requires 0 <= x0 <= 9 && 0 <= x1 <= 9 && 0 <= x2 <= 9 && 0 <= x3 <= 9
    requires 0 <= y0 <= 9 && 0 <= y1 <= 9 && 0 <= y2 <= 9 && 0 <= y3 <= 9
    ensures var x, y := 1000 * x0 + 100 * x1 + 10 * x2 + x3, 1000 * y0 + 100 * y1 + 10 * y2 + y3;
            && (x0 != y0 ==> (x < y <==> x0 < y0))
            && (x0 == y0 && x1 != y1 ==> (x < y <==> x1 < y1))
            && (x0 == y0 && x1 == y1 && x2 != y2 ==> (x < y <==> x2 < y2))
            && (x0 == y0 && x1 == y1 && x2 == y2 ==> (x < y <==> x3 < y3))
  {
  }

  /** Keys of the same year are ordered by their two month digits. */
  lemma MonthDecides(a: MonthKey, b: MonthKey)
    requires 0 <= a.year <= MaxYear && 1 <= a.month <= 12
    requires 0 <= b.year <= MaxYear && 1 <= b.month <= 12
    requires a.year == b.year
    ensures LexLess(FormatKey(a), FormatKey(b)) <==> a.month < b.month
  {
    var sa, sb := FormatKey(a), FormatKey(b);
    assert sa[..5] == sb[..5];
    assert sa[5..] == FormatMonth(a.month) && sb[5..] == FormatMonth(b.month);
    assert sa[5] == sa[5..][0] && sa[6] == sa[5..][1] && sb[5] == sb[5..][0] && sb[6] == sb[5..][1];
    if sa[5] != sb[5] {
      LexLessAt(sa, sb, 5);
    } else if sa[6] != sb[6] {
      assert sa[..6] == sb[..6];
      LexLessAt(sa, sb, 6);
    } else {
      assert sa == sb;
      LexLessIrreflexive(sa);
    }
  }
}
