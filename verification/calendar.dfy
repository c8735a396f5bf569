/**
 The slice of Python's `datetime` the aggregation views rely on: proleptic
 Gregorian dates in years 1..9999, a time of day in whole seconds, month
 keys (what `strftime('%Y-%m')` identifies), `replace(day=1)`, month
 rollover and whole-day `timedelta` arithmetic. Everything happens in one
 fixed time zone.
 */
module Calendar {
  import opened Common

  const MinYear := 1
  const MaxYear := 9999
  const SecondsPerDay := 86400

  predicate IsLeap(y: int) {
    y % 4 == 0 && (y % 100 != 0 || y % 400 == 0)
  }

  function DaysIn(y: int, m: int): (r: int)
    requires 1 <= m <= 12
    ensures 28 <= r <= 31
  {
    if m == 2 then (if IsLeap(y) then 29 else 28)
    else if m == 4 || m == 6 || m == 9 || m == 11 then 30
    else 31
  }

  /** A timestamp: calendar date plus the second of the day. */
  datatype DateTime = DateTime(year: int, month: int, day: int, sec: int)

  predicate ValidDate(d: DateTime) {
    && MinYear <= d.year <= MaxYear
    && 1 <= d.month <= 12
    && 1 <= d.day <= DaysIn(d.year, d.month)
    && 0 <= d.sec < SecondsPerDay
  }

  /** Chronological order of timestamps (Python's `<` on datetimes). */
  predicate Less(a: DateTime, b: DateTime) {
    || a.year < b.year
    || (a.year == b.year && a.month < b.month)
    || (a.year == b.year && a.month == b.month && a.day < b.day)
    || (a.year == b.year && a.month == b.month && a.day == b.day && a.sec < b.sec)
  }

  predicate LessEq(a: DateTime, b: DateTime) {
    Less(a, b) || a == b
  }

  /** A calendar month: what `strftime('%Y-%m')` identifies. */
  datatype MonthKey = MonthKey(year: int, month: int)

  predicate ValidKey(k: MonthKey) {
    MinYear <= k.year <= MaxYear && 1 <= k.month <= 12
  }

  function MonthOf(d: DateTime): MonthKey {
    MonthKey(d.year, d.month)
  }

  /** Chronological order of months. */
  predicate KeyLess(a: MonthKey, b: MonthKey) {
    a.year < b.year || (a.year == b.year && a.month < b.month)
  }

  /** Months counted from year 0; consecutive months have consecutive indices. */
  function MonthIndex(k: MonthKey): int {
    k.year * 12 + (k.month - 1)
  }

  /** The following month, rolling December over to January of the next year. */
  function NextMonth(k: MonthKey): (r: MonthKey)
    requires 1 <= k.month <= 12
    ensures 1 <= r.month <= 12
    ensures MonthIndex(r) == MonthIndex(k) + 1
  {
    if k.month == 12 then MonthKey(k.year + 1, 1) else MonthKey(k.year, k.month + 1)
  }

  /** Midnight on the first day of a month (`datetime.strptime(key, '%Y-%m')`). */
  function FirstOf(k: MonthKey): DateTime {
    DateTime(k.year, k.month, 1, 0)
  }

  /** `d.replace(day=1)`: the time of day is kept. */
  function WithDayOne(d: DateTime): (r: DateTime)
    requires ValidDate(d)
    ensures ValidDate(r) && MonthOf(r) == MonthOf(d) && r.day == 1 && r.sec == d.sec
    ensures LessEq(r, d)
  {
    d.(day := 1)
  }

  lemma KeyLessIndex(a: MonthKey, b: MonthKey)
    requires 1 <= a.month <= 12 && 1 <= b.month <= 12
    ensures KeyLess(a, b) <==> MonthIndex(a) < MonthIndex(b)
    ensures a == b <==> MonthIndex(a) == MonthIndex(b)
  {
  }

  /**
   A valid timestamp lies in the half-open interval from midnight of the
   first of month `k` to midnight of the first of the next month exactly
   when its month key is `k`.
   */
  lemma InMonthInterval(d: DateTime, k: MonthKey)
    requires ValidDate(d) && 1 <= k.month <= 12
    ensures LessEq(FirstOf(k), d) && Less(d, FirstOf(NextMonth(k))) <==> MonthOf(d) == k
  {
  }

  /**
   For a month-start timestamp that carries `now`'s time of day, being at or
   before `now` is the same as its month not being later than `now`'s.
   */
  lemma MonthStartAtOrBefore(c: DateTime, now: DateTime)
    requires ValidDate(now) && c.day == 1 && c.sec == now.sec && 1 <= c.month <= 12
    ensures LessEq(c, now) <==> MonthIndex(MonthOf(c)) <= MonthIndex(MonthOf(now))
  {
  }

  /** The days of months 1..m-1 of year `y`. */
  function DaysBeforeMonth(y: int, m: int): (r: int)
    requires 1 <= m <= 12
    ensures r >= 0
  {
    if m == 1 then 0 else DaysBeforeMonth(y, m - 1) + DaysIn(y, m - 1)
  }

  function YearLength(y: int): (r: int)
    ensures r > 0
  {
    DaysBeforeMonth(y, 12) + DaysIn(y, 12)
  }

  /**
   The days of the years from 1 up to, not including, `y`: 365 a year plus
   one for every leap year, counted in closed form as Python's `datetime`
   module does.
   */
  function DaysBeforeYear(y: int): int
    requires MinYear <= y
  {
    var p := y - 1;
    p * 365 + p / 4 - p / 100 + p / 400
  }

  /** A year has 366 days when it is a leap year and 365 otherwise. */
  lemma YearLengthValue(y: int)
    ensures YearLength(y) == if IsLeap(y) then 366 else 365
  {
    assert DaysBeforeMonth(y, 2) == 31;
    assert DaysBeforeMonth(y, 3) == 31 + DaysIn(y, 2);
    assert DaysBeforeMonth(y, 4) == DaysBeforeMonth(y, 3) + 31;
    assert DaysBeforeMonth(y, 5) == DaysBeforeMonth(y, 4) + 30;
    assert DaysBeforeMonth(y, 6) == DaysBeforeMonth(y, 5) + 31;
    assert DaysBeforeMonth(y, 7) == DaysBeforeMonth(y, 6) + 30;
    assert DaysBeforeMonth(y, 8) == DaysBeforeMonth(y, 7) + 31;
    assert DaysBeforeMonth(y, 9) == DaysBeforeMonth(y, 8) + 31;
    assert DaysBeforeMonth(y, 10) == DaysBeforeMonth(y, 9) + 30;
    assert DaysBeforeMonth(y, 11) == DaysBeforeMonth(y, 10) + 31;
    assert DaysBeforeMonth(y, 12) == DaysBeforeMonth(y, 11) + 30;
  }

  /** Consecutive years: the next year starts where this one ends. */
  lemma YearStep(y: int)
    requires MinYear <= y
    ensures DaysBeforeYear(y + 1) == DaysBeforeYear(y) + YearLength(y)
  {
    YearLengthValue(y);
    assert y % 100 == 0 ==> y % 4 == 0;
    assert y % 400 == 0 ==> y % 100 == 0;
    var p := y - 1;
    assert y / 4 == p / 4 + (if y % 4 == 0 then 1 else 0);
    assert y / 100 == p / 100 + (if y % 100 == 0 then 1 else 0);
    assert y / 400 == p / 400 + (if y % 400 == 0 then 1 else 0);
  }

  /**
   The day's ordinal counted from 0001-01-01 as day 0 (Python's
   `date.toordinal() - 1`); the time of day plays no part.
   */
  function DayNumber(d: DateTime): int
    requires ValidDate(d)
  {
    DaysBeforeYear(d.year) + DaysBeforeMonth(d.year, d.month) + d.day - 1
  }

  /** The ordinal of 9999-12-31, the last day Python represents. */
  function LastDayNumber(): int {
    DaysBeforeYear(MaxYear) + YearLength(MaxYear) - 1
  }

  /** Calendar-day order, ignoring the time of day. */
  predicate DayBefore(a: DateTime, b: DateTime) {
    || a.year < b.year
    || (a.year == b.year && a.month < b.month)
    || (a.year == b.year && a.month == b.month && a.day < b.day)
  }

  /** A month ends before any later month of the same year begins. */
  lemma {:induction false} MonthEndsBefore(y: int, m: int, m2: int)
    requires 1 <= m < m2 <= 12
    ensures DaysBeforeMonth(y, m) + DaysIn(y, m) <= DaysBeforeMonth(y, m2)
    decreases m2
  {
    if m2 > m + 1 {
      MonthEndsBefore(y, m, m2 - 1);
    }
  }

  /** A year ends before any later year begins. */
  lemma {:induction false} YearEndsBefore(y: int, y2: int)
    requires MinYear <= y < y2
    ensures DaysBeforeYear(y) + YearLength(y) <= DaysBeforeYear(y2)
    decreases y2
  {
    YearStep(y);
    if y2 > y + 1 {
      YearEndsBefore(y, y2 - 1);
      YearStep(y2 - 1);
    }
  }

  /** A valid day falls inside its year's run of days. */
  lemma DayInYear(d: DateTime)
    requires ValidDate(d)
    ensures DaysBeforeMonth(d.year, d.month) + d.day - 1 < YearLength(d.year)
  {
    if d.month < 12 {
      MonthEndsBefore(d.year, d.month, 12);
    }
  }

  /**
   The ordinal orders valid days as the calendar does, and two valid days
   share an ordinal exactly when they are the same day.
   */
  lemma DayNumberOrder(a: DateTime, b: DateTime)
    requires ValidDate(a) && ValidDate(b)
    ensures DayNumber(a) < DayNumber(b) <==> DayBefore(a, b)
    ensures DayNumber(a) == DayNumber(b) <==> a.year == b.year && a.month == b.month && a.day == b.day
  {
    if DayBefore(a, b) {
      DayBeforeNumber(a, b);
    }
    if DayBefore(b, a) {
      DayBeforeNumber(b, a);
    }
  }

  lemma DayBeforeNumber(a: DateTime, b: DateTime)
    requires ValidDate(a) && ValidDate(b) && DayBefore(a, b)
    ensures DayNumber(a) < DayNumber(b)
  {
    if a.year < b.year {
      DayInYear(a);
      YearEndsBefore(a.year, b.year);
    } else if a.month < b.month {
      MonthEndsBefore(a.year, a.month, b.month);
    }
  }

  /** 1970-01-01 has Python ordinal 719163, so day number 719162. */
  lemma EpochDayNumber()
    ensures DayNumber(DateTime(1970, 1, 1, 0)) == 719162
  {
  }

  /** Every valid day's ordinal lies between that of 0001-01-01 and that of 9999-12-31. */
  lemma DayNumberRange(d: DateTime)
    requires ValidDate(d)
    ensures 0 <= DayNumber(d) <= LastDayNumber()
    ensures DayNumber(d) == 0 <==> d.year == MinYear && d.month == 1 && d.day == 1
    ensures DayNumber(d) == LastDayNumber() <==> d.year == MaxYear && d.month == 12 && d.day == 31
  {
    var first, last := DateTime(MinYear, 1, 1, 0), DateTime(MaxYear, 12, 31, 0);
    DayNumberOrder(first, d);
    DayNumberOrder(d, last);
  }

  /** One day later (`d + timedelta(days=1)`); `None` past 9999-12-31. */
  function NextDay(d: DateTime): (r: Option<DateTime>)
    requires ValidDate(d)
    ensures r.Some? ==> ValidDate(r.value) && r.value.sec == d.sec && Less(d, r.value)
    ensures r.None? <==> d.year == MaxYear && d.month == 12 && d.day == 31
  {
    if d.day < DaysIn(d.year, d.month) then Some(d.(day := d.day + 1))
    else if d.month < 12 then Some(DateTime(d.year, d.month + 1, 1, d.sec))
    else if d.year < MaxYear then Some(DateTime(d.year + 1, 1, 1, d.sec))
    else None
  }

  /** One day earlier (`d - timedelta(days=1)`); `None` before 0001-01-01. */
  function PrevDay(d: DateTime): (r: Option<DateTime>)
    requires ValidDate(d)
    ensures r.Some? ==> ValidDate(r.value) && r.value.sec == d.sec && Less(r.value, d)
    ensures r.None? <==> d.year == MinYear && d.month == 1 && d.day == 1
  {
    if d.day > 1 then Some(d.(day := d.day - 1))
    else if d.month > 1 then Some(DateTime(d.year, d.month - 1, DaysIn(d.year, d.month - 1), d.sec))
    else if d.year > MinYear then Some(DateTime(d.year - 1, 12, 31, d.sec))
    else None
  }

  /** Stepping back a day and forward again returns to the same timestamp. */
  lemma PrevThenNext(d: DateTime)
    requires ValidDate(d) && PrevDay(d).Some?
    ensures NextDay(PrevDay(d).value) == Some(d)
  {
  }

  /** `d + timedelta(days=n)`; `None` where Python raises OverflowError. */
  function AddDays(d: DateTime, n: nat): (r: Option<DateTime>)
    requires ValidDate(d)
    ensures r.Some? ==> ValidDate(r.value) && r.value.sec == d.sec && LessEq(d, r.value)
    decreases n
  {
    if n == 0 then Some(d)
    else
      match NextDay(d)
      case None => None
      case Some(e) => AddDays(e, n - 1)
  }

  /** `d - timedelta(days=n)`; `None` where Python raises OverflowError. */
  function SubDays(d: DateTime, n: nat): (r: Option<DateTime>)
    requires ValidDate(d)
    ensures r.Some? ==> ValidDate(r.value) && r.value.sec == d.sec && LessEq(r.value, d)
    decreases n
  {
    if n == 0 then Some(d)
    else
      match PrevDay(d)
      case None => None
      case Some(e) => SubDays(e, n - 1)
  }

  /** The next day's ordinal is one more. */
  lemma NextDayOrdinal(d: DateTime)
    requires ValidDate(d) && NextDay(d).Some?
    ensures DayNumber(NextDay(d).value) == DayNumber(d) + 1
  {
    YearStep(d.year);
  }

  /** The previous day's ordinal is one less. */
  lemma PrevDayOrdinal(d: DateTime)
    requires ValidDate(d) && PrevDay(d).Some?
    ensures DayNumber(PrevDay(d).value) == DayNumber(d) - 1
  {
    if d.year > MinYear {
      YearStep(d.year - 1);
    }
  }

  /**
   `d + timedelta(days=n)` is the day whose ordinal is `n` more, at the same
   time of day (only one valid day has a given ordinal, by `DayNumberOrder`);
   it raises exactly when that would pass 9999-12-31.
   */
  lemma {:induction false} AddDaysOrdinal(d: DateTime, n: nat)
    requires ValidDate(d)
    ensures AddDays(d, n).None? <==> DayNumber(d) + n > LastDayNumber()
    ensures AddDays(d, n).Some? ==> DayNumber(AddDays(d, n).value) == DayNumber(d) + n
    decreases n
  {
    DayNumberRange(d);
    if n > 0 {
      if NextDay(d).None? {
        assert AddDays(d, n).None?;
        assert DayNumber(d) == LastDayNumber();
      } else {
        var e := NextDay(d).value;
        assert AddDays(d, n) == AddDays(e, n - 1);
        NextDayOrdinal(d);
        AddDaysOrdinal(e, n - 1);
      }
    }
  }

  /**
   `d - timedelta(days=n)` is the day whose ordinal is `n` less, at the same
   time of day; it raises exactly when that would precede 0001-01-01.
   */
  lemma {:induction false} SubDaysOrdinal(d: DateTime, n: nat)
    requires ValidDate(d)
    ensures SubDays(d, n).None? <==> DayNumber(d) < n
    ensures SubDays(d, n).Some? ==> DayNumber(SubDays(d, n).value) == DayNumber(d) - n
    decreases n
  {
    DayNumberRange(d);
    if n > 0 {
      if PrevDay(d).None? {
        assert SubDays(d, n).None?;
        assert DayNumber(d) == 0;
      } else {
        var e := PrevDay(d).value;
        assert SubDays(d, n) == SubDays(e, n - 1);
        PrevDayOrdinal(d);
        SubDaysOrdinal(e, n - 1);
      }
    }
  }

  /** Adding `a + b` days is adding `a` days and then `b` more. */
  lemma {:induction false} AddDaysSplit(d: DateTime, a: nat, b: nat)
    requires ValidDate(d)
    ensures AddDays(d, a + b) ==
              match AddDays(d, a)
              case None => None
              case Some(e) => AddDays(e, b)
    decreases a
  {
    if a > 0 {
      match NextDay(d)
      case None =>
      case Some(e) =>
        AddDaysSplit(e, a - 1, b);
    }
  }

  /** Adding a last day after `n` days is adding `n + 1` days. */
  lemma AddDaysLast(d: DateTime, n: nat)
    requires ValidDate(d)
    ensures AddDays(d, n + 1) ==
              match AddDays(d, n)
              case None => None
              case Some(e) => NextDay(e)
  {
    AddDaysSplit(d, n, 1);
  }

  /** Going back `n` days and then forward `n` days is the identity. */
  lemma {:induction false} SubThenAdd(d: DateTime, n: nat)
    requires ValidDate(d) && SubDays(d, n).Some?
    ensures AddDays(SubDays(d, n).value, n) == Some(d)
    decreases n
  {
    if n > 0 {
      var p := PrevDay(d).value;
      SubThenAdd(p, n - 1);
      AddDaysLast(SubDays(d, n).value, n - 1);
      PrevThenNext(d);
    }
  }

  /** Adding days that stay within the month only moves the day of month. */
  lemma {:induction false} AddDaysWithinMonth(d: DateTime, n: nat)
    requires ValidDate(d) && d.day + n <= DaysIn(d.year, d.month)
    ensures AddDays(d, n) == Some(d.(day := d.day + n))
    decreases n
  {
    if n > 0 {
      AddDaysWithinMonth(d.(day := d.day + 1), n - 1);
    }
  }

  /**
   The "+32 days" trick: from the first of a month, 32 days later is in the
   following month (every month has 28 to 31 days), on its day 33 - length.
   It overflows only from December 9999.
   */
  lemma AddThirtyTwoFromFirst(d: DateTime)
    requires ValidDate(d) && d.day == 1
    ensures MonthOf(d) == MonthKey(MaxYear, 12) <==> AddDays(d, 32).None?
    ensures AddDays(d, 32).Some? ==>
              var e := AddDays(d, 32).value;
              MonthOf(e) == NextMonth(MonthOf(d)) && e.sec == d.sec
  {
    if MonthOf(d) == MonthKey(MaxYear, 12) {
      ThirtyTwoOverflows(d);
    } else {
      ThirtyTwoRollsOver(d);
    }
  }

  lemma ThirtyTwoOverflows(d: DateTime)
    requires ValidDate(d) && d.day == 1 && MonthOf(d) == MonthKey(MaxYear, 12)
    ensures AddDays(d, 32).None?
  {
    ToMonthEnd(d);
    assert NextDay(d.(day := DaysIn(d.year, d.month))).None?;
  }

  lemma ThirtyTwoRollsOver(d: DateTime)
    requires ValidDate(d) && d.day == 1 && MonthOf(d) != MonthKey(MaxYear, 12)
    ensures AddDays(d, 32).Some?
    ensures MonthOf(AddDays(d, 32).value) == NextMonth(MonthOf(d)) && AddDays(d, 32).value.sec == d.sec
  {
    var len := DaysIn(d.year, d.month);
    ToMonthEnd(d);
    var first := NextMonthStart(d.(day := len));
    AddDaysWithinMonth(first, 32 - len);
  }

  /** The day after a month's last day is the first of the next month, at the same time of day. */
  lemma NextMonthStart(last: DateTime) returns (first: DateTime)
    requires ValidDate(last) && last.day == DaysIn(last.year, last.month)
    requires MonthOf(last) != MonthKey(MaxYear, 12)
    ensures NextDay(last) == Some(first)
    ensures ValidDate(first) && first.day == 1 && first.sec == last.sec
    ensures MonthOf(first) == NextMonth(MonthOf(last))
  {
    first := FirstOf(NextMonth(MonthOf(last))).(sec := last.sec);
  }

  /** From the first of a month, 32 days on is one day past the month's last day, then the rest. */
  lemma ToMonthEnd(d: DateTime)
    requires ValidDate(d) && d.day == 1
    ensures var last := d.(day := DaysIn(d.year, d.month));
            AddDays(d, 32) ==
              match NextDay(last)
              case None => None
              case Some(first) => AddDays(first, 32 - DaysIn(d.year, d.month))
  {
    var len := DaysIn(d.year, d.month);
    var last := d.(day := len);
    AddDaysWithinMonth(d, len - 1);
    assert AddDays(d, len - 1) == Some(last);
    AddDaysSplit(d, len - 1, 33 - len);
    assert AddDays(d, 32) == AddDays(last, 33 - len);
  }
}
