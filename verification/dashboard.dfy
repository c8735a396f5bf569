/**
 The numbers on the dashboard page: the selected period's incomes and
 expenses, their totals and the net balance, and the month drop-down that
 lists every month holding a transaction plus the current month, newest
 first.
 */
module Dashboard {
  import opened Common
  import opened Calendar
  import opened MonthToken
  import opened Ledger
  import opened Grouping
  import opened MonthOrder
  import opened Resolver
  import opened Charts

  datatype Summary = Summary(
    period: Period,
    incomes: seq<Transaction>,
    expenses: seq<Transaction>,
    totalIncome: int,
    totalExpenses: int,
    netBalance: int,
    availableMonths: seq<MonthKey>)

  /**
   The drop-down's months: each month some transaction is dated in, and
   `now`'s month even when it has none, each once, newest first.
   */
  function AvailableMonths(rows: seq<Transaction>, now: DateTime): (r: seq<MonthKey>)
    ensures Descending(r)
    ensures forall k :: k in r <==> k in Months(rows) || k == MonthOf(now)
    ensures |r| > 0
  {
    var r := SortUniqueDescending(Months(rows) + [MonthOf(now)]);
    assert MonthOf(now) in r;
    r
  }

  /**
   Sorting the `'%Y-%m'` strings in reverse, as the view does, gives the
   same list: formatted, the months are in strictly descending string order.
   */
  lemma AvailableMonthsAsStrings(rows: seq<Transaction>, now: DateTime, i: int, j: int)
    requires WellFormed(rows) && ValidDate(now)
    requires 0 <= i < j < |AvailableMonths(rows, now)|
    ensures ValidKey(AvailableMonths(rows, now)[i]) && ValidKey(AvailableMonths(rows, now)[j])
    ensures LexLess(FormatKey(AvailableMonths(rows, now)[j]), FormatKey(AvailableMonths(rows, now)[i]))
  {
    var r := AvailableMonths(rows, now);
    AvailableMonthValid(rows, now, r[i]);
    AvailableMonthValid(rows, now, r[j]);
    FormatKeyOrder(r[j], r[i]);
  }

  /** Every month on the drop-down is a valid month. */
  lemma AvailableMonthValid(rows: seq<Transaction>, now: DateTime, k: MonthKey)
    requires WellFormed(rows) && ValidDate(now) && k in AvailableMonths(rows, now)
    ensures ValidKey(k)
  {
    if k in Months(rows) {
      var i :| 0 <= i < |rows| && Months(rows)[i] == k;
    }
  }

  /**
   The dashboard for the `month` parameter `token` at time `now`. `None`
   is the request raising, which happens exactly when the selector does.
   Otherwise the incomes and expenses are the rows of each kind in the
   selected period, the totals are their sums, and the balance is income
   minus expenses.
   */
  function Summarize(rows: seq<Transaction>, token: Option<string>, now: DateTime): (r: Option<Summary>)
    requires ValidDate(now)
    ensures r.None? <==> Resolve(token, now).None?
    ensures r.Some? ==>
              var s := r.value;
              && Some(s.period) == Resolve(token, now)
              && (forall t :: multiset(s.incomes)[t] ==
                    if t.kind == Income && Contains(s.period, t.date) then multiset(rows)[t] else 0)
              && (forall t :: multiset(s.expenses)[t] ==
                    if t.kind == Expense && Contains(s.period, t.date) then multiset(rows)[t] else 0)
              && s.totalIncome == Total(s.incomes)
              && s.totalExpenses == Total(s.expenses)
              && s.netBalance == s.totalIncome - s.totalExpenses
              && s.availableMonths == AvailableMonths(rows, now)
  {
    match Resolve(token, now)
    case None => None
    case Some(p) =>
      SelectMultiset(rows, OfKind(Income));
      SelectMultiset(Select(rows, OfKind(Income)), Between(p.start, p.end));
      SelectMultiset(rows, OfKind(Expense));
      SelectMultiset(Select(rows, OfKind(Expense)), Between(p.start, p.end));
      var incomes := InPeriod(rows, Income, p.start, p.end);
      var expenses := InPeriod(rows, Expense, p.start, p.end);
      var totalIncome := Total(incomes);
      var totalExpenses := Total(expenses);
      Some(Summary(p, incomes, expenses, totalIncome, totalExpenses, totalIncome - totalExpenses, AvailableMonths(rows, now)))
  }

  /**
   The totals are fixed by which rows fall in the period: any list holding
   each income row of the period as often as `rows` does adds up to the
   dashboard's income total, and likewise for expenses.
   */
  lemma SummaryTotalsFixed(rows: seq<Transaction>, token: Option<string>, now: DateTime,
                           incomes: seq<Transaction>, expenses: seq<Transaction>)
    requires ValidDate(now) && Resolve(token, now).Some?
    requires var p := Resolve(token, now).value;
             forall t :: multiset(incomes)[t] == if t.kind == Income && Contains(p, t.date) then multiset(rows)[t] else 0
    requires var p := Resolve(token, now).value;
             forall t :: multiset(expenses)[t] == if t.kind == Expense && Contains(p, t.date) then multiset(rows)[t] else 0
    ensures Summarize(rows, token, now).value.totalIncome == Total(incomes)
    ensures Summarize(rows, token, now).value.totalExpenses == Total(expenses)
  {
    var p := Resolve(token, now).value;
    var s := Summarize(rows, token, now).value;
    assert s.period == p;
    forall t ensures multiset(s.incomes)[t] == multiset(incomes)[t] && multiset(s.expenses)[t] == multiset(expenses)[t] {
    }
    assert multiset(s.incomes) == multiset(incomes);
    assert multiset(s.expenses) == multiset(expenses);
    TotalMultiset(s.incomes, incomes);
    TotalMultiset(s.expenses, expenses);
  }

  /**
   A parsed month selects exactly the rows whose `'%Y-%m'` key is that
   month.
   */
  lemma SelectedMonthRows(rows: seq<Transaction>, token: Option<string>, now: DateTime)
    requires ValidDate(now) && WellFormed(rows)
    requires SelectedMonth(token, now).Some?
    ensures Summarize(rows, token, now).Some?
    ensures var k := SelectedMonth(token, now).value;
            && Summarize(rows, token, now).value.incomes == Select(Select(rows, OfKind(Income)), InMonth(k))
            && Summarize(rows, token, now).value.expenses == Select(Select(rows, OfKind(Expense)), InMonth(k))
  {
    var k := SelectedMonth(token, now).value;
    MonthIntervalSelect(Select(rows, OfKind(Income)), k);
    MonthIntervalSelect(Select(rows, OfKind(Expense)), k);
  }

  /**
   The dashboard and the chart page agree: for the same parameter and
   clock, each kind's total is what its pie chart's slices add up to (0
   when the view draws no pie) and what its histogram amounts add up to.
   */
  lemma DashboardMatchesCharts(rows: seq<Transaction>, token: Option<string>, now: DateTime)
    requires ValidDate(now) && Resolve(token, now).Some?
    ensures var s := Summarize(rows, token, now).value;
            && s.totalIncome == (match Pie(rows, Income, s.period) case None => 0 case Some(b) => Sum(Totals(b)))
            && s.totalExpenses == (match Pie(rows, Expense, s.period) case None => 0 case Some(b) => Sum(Totals(b)))
            && (Histogram(rows, s.period).Some? ==>
                  && s.totalIncome == Sum(Histogram(rows, s.period).value.income)
                  && s.totalExpenses == Sum(Histogram(rows, s.period).value.expense))
            && (Histogram(rows, s.period).None? ==> s.totalIncome == 0 && s.totalExpenses == 0)
  {
  }
}
