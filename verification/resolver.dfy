/**
 The month selector shared by `dashboard` and `generate_charts`: the
 `month` query parameter (defaulting to the current month's `YYYY-MM`) is
 parsed with `strptime`; on success the period is that calendar month from
 midnight of its first day; on any exception the period is rebuilt from
 `now` with `replace(day=1)` and the "+32 days" trick.
 */
module Resolver {
  import opened Common
  import opened Calendar
  import opened MonthToken

  /** The half-open interval `[start, end)` of the `date__gte` / `date__lt` filters. */
  datatype Period = Period(start: DateTime, end: DateTime)

  predicate Contains(p: Period, d: DateTime) {
    LessEq(p.start, d) && Less(d, p.end)
  }

  /** The token the view works on: the query parameter, or `now`'s month key. */
  function EffectiveToken(token: Option<string>, now: DateTime): (r: string)
    requires ValidDate(now)
    ensures token.Some? ==> r == token.value
    ensures token.None? ==> ParseMonthToken(r) == Some(MonthOf(now))
  {
    ParseFormat(MonthOf(now));
    token.GetOr(FormatKey(MonthOf(now)))
  }

  /**
   The month a token selects, when the `try` block completes: `strptime`
   must succeed and the December rollover `replace(year=year + 1)` must stay
   within year 9999.
   */
  function SelectedMonth(token: Option<string>, now: DateTime): (r: Option<MonthKey>)
    requires ValidDate(now)
    ensures r.Some? ==> ValidKey(r.value) && r.value != MonthKey(MaxYear, 12)
    ensures r.Some? ==> ParseMonthToken(EffectiveToken(token, now)) == r
    ensures r.None? <==> ParseMonthToken(EffectiveToken(token, now)) in {None, Some(MonthKey(MaxYear, 12))}
  {
    match ParseMonthToken(EffectiveToken(token, now))
    case Some(k) => if k == MonthKey(MaxYear, 12) then None else Some(k)
    case None => None
  }

  /**
   The period selected by the `month` parameter. `None` stands for the
   OverflowError the fallback's `+ timedelta(days=32)` raises in December
   9999, the only way the selector fails: a malformed token never does.
   */
  function Resolve(token: Option<string>, now: DateTime): (r: Option<Period>)
    requires ValidDate(now)
    // a parsed month runs from midnight on its first day to midnight on the next month's first day
    ensures SelectedMonth(token, now).Some? ==>
              var k := SelectedMonth(token, now).value;
              && r == Some(Period(FirstOf(k), FirstOf(NextMonth(k))))
              && forall d :: ValidDate(d) ==> (Contains(r.value, d) <==> MonthOf(d) == k)
    // otherwise: now's month, from day 1 at now's time of day to the next month's day 1 at that time
    ensures SelectedMonth(token, now).None? ==>
              && (r.None? <==> MonthOf(now) == MonthKey(MaxYear, 12))
              && (r.Some? ==>
                    var next := NextMonth(MonthOf(now));
                    && r.value.start == DateTime(now.year, now.month, 1, now.sec)
                    && r.value.end == DateTime(next.year, next.month, 1, now.sec)
                    && Contains(r.value, now))
  {
    match SelectedMonth(token, now)
    case Some(k) =>
      forall d | ValidDate(d) ensures Contains(Period(FirstOf(k), FirstOf(NextMonth(k))), d) <==> MonthOf(d) == k {
        InMonthInterval(d, k);
      }
      Some(Period(FirstOf(k), FirstOf(NextMonth(k))))
    case None =>
      var start := WithDayOne(now);
      AddThirtyTwoFromFirst(start);
      match AddDays(start, 32)
      case None => None
      case Some(e) => Some(Period(start, WithDayOne(e)))
  }

  /**
   Without a `month` parameter the view parses `now`'s own month key, so the
   period is `now`'s calendar month starting at midnight (not the fallback).
   */
  lemma AbsentTokenSelectsCurrentMonth(now: DateTime)
    requires ValidDate(now) && MonthOf(now) != MonthKey(MaxYear, 12)
    ensures Resolve(None, now) == Some(Period(FirstOf(MonthOf(now)), FirstOf(NextMonth(MonthOf(now)))))
  {
    ParseFormat(MonthOf(now));
  }
}
