/**
 The data behind the chart page (`generate_charts` and its helpers), with
 the plotting left out: what each chart would be drawn from, or `None`
 where the view skips the chart.
 */
module Charts {
  import opened Common
  import opened Calendar
  import opened Ledger
  import opened Grouping
  import opened MonthOrder
  import opened Resolver

  /** The number of days the trend and heatmap windows reach back from `now`. */
  const WindowDays := 180

  /** `(row.name, row.amount)` for each row, in order. */
  function NamePostings(rows: seq<Transaction>): (r: seq<(string, int)>)
    ensures KeysOf(r) == Names(rows)
    ensures AmountSum(r) == Total(rows)
    ensures forall n :: SumFor(r, n) == Total(Select(rows, Named(n)))
  {
    if |rows| == 0 then []
    else
      var init := rows[..|rows| - 1];
      var t := rows[|rows| - 1];
      var r := NamePostings(init) + [(t.name, t.amount)];
      assert r[..|r| - 1] == NamePostings(init);
      forall n ensures SumFor(r, n) == Total(Select(rows, Named(n))) {
        TotalAppend(Select(init, Named(n)), [t]);
      }
      r
  }

  /** `(row.date.strftime('%Y-%m'), row.amount)` for each row, in order. */
  function MonthPostings(rows: seq<Transaction>): (r: seq<(MonthKey, int)>)
    ensures KeysOf(r) == Months(rows)
    ensures AmountSum(r) == Total(rows)
    ensures forall k :: SumFor(r, k) == Total(Select(rows, InMonth(k)))
  {
    if |rows| == 0 then []
    else
      var init := rows[..|rows| - 1];
      var t := rows[|rows| - 1];
      var r := MonthPostings(init) + [(MonthOf(t.date), t.amount)];
      assert r[..|r| - 1] == MonthPostings(init);
      forall k ensures SumFor(r, k) == Total(Select(rows, InMonth(k))) {
        TotalAppend(Select(init, InMonth(k)), [t]);
      }
      r
  }

  /**
   The per-category totals of a set of rows (the pie and bar charts'
   `defaultdict`): one bucket per distinct name, holding the total of the
   rows with that name, the buckets together holding every row's amount.
   */
  function CategoryTotals(rows: seq<Transaction>): (r: seq<Bucket<string>>)
    ensures NoDups(Keys(r))
    ensures forall n :: n in Keys(r) <==> n in Names(rows)
    ensures forall n :: Get(r, n) == Total(Select(rows, Named(n)))
    ensures Sum(Totals(r)) == Total(rows)
  {
    Group(NamePostings(rows))
  }

  /**
   A period's pie chart for one kind: absent exactly when the kind has no
   row in the period; otherwise its slices are the names of the period's
   rows of that kind, and they add up to that kind's total for the period.
   */
  function Pie(rows: seq<Transaction>, kind: Kind, p: Period): (r: Option<seq<Bucket<string>>>)
    ensures r.None? <==> |InPeriod(rows, kind, p.start, p.end)| == 0
    ensures r.Some? ==>
              && NoDups(Keys(r.value))
              && (forall n :: n in Keys(r.value) <==> n in Names(InPeriod(rows, kind, p.start, p.end)))
              && Sum(Totals(r.value)) == Total(InPeriod(rows, kind, p.start, p.end))
              && forall n :: Get(r.value, n) == Total(Select(InPeriod(rows, kind, p.start, p.end), Named(n)))
  {
    var slices := CategoryTotals(InPeriod(rows, kind, p.start, p.end));
    SameMembersEmpty(Keys(slices), Names(InPeriod(rows, kind, p.start, p.end)));
    if |slices| == 0 then None else Some(slices)
  }

  datatype HistogramData = HistogramData(income: seq<int>, expense: seq<int>)

  /**
   The amounts the period's histogram bins: absent when the period has no
   row of either kind; otherwise each kind's list holds the amount of each
   of that kind's period rows, in row order, so it adds up to that kind's
   total for the period.
   */
  function Histogram(rows: seq<Transaction>, p: Period): (r: Option<HistogramData>)
    ensures r.None? <==> |InPeriod(rows, Income, p.start, p.end)| == 0 && |InPeriod(rows, Expense, p.start, p.end)| == 0
    ensures r.Some? ==>
              var incomes, expenses := InPeriod(rows, Income, p.start, p.end), InPeriod(rows, Expense, p.start, p.end);
              && |r.value.income| == |incomes| && |r.value.expense| == |expenses|
              && (forall i :: 0 <= i < |incomes| ==> r.value.income[i] == incomes[i].amount)
              && (forall i :: 0 <= i < |expenses| ==> r.value.expense[i] == expenses[i].amount)
              && Sum(r.value.income) == Total(incomes)
              && Sum(r.value.expense) == Total(expenses)
  {
    var income := Amounts(InPeriod(rows, Income, p.start, p.end));
    var expense := Amounts(InPeriod(rows, Expense, p.start, p.end));
    if |income| == 0 && |expense| == 0 then None else Some(HistogramData(income, expense))
  }

  datatype LineSeries = LineSeries(months: seq<MonthKey>, income: seq<int>, expense: seq<int>)

  /** Per-month totals of one kind (the line chart's `defaultdict` keyed by `'%Y-%m'`). */
  function MonthTotals(rows: seq<Transaction>, kind: Kind): (r: seq<Bucket<MonthKey>>)
    ensures forall k :: k in Keys(r) <==> k in Months(Select(rows, OfKind(kind)))
    ensures forall k :: Get(r, k) == Total(Select(Select(rows, OfKind(kind)), InMonth(k)))
  {
    Group(MonthPostings(Select(rows, OfKind(kind))))
  }

  /**
   The trend's month axis: the months of the rows, each once, in ascending
   order (`sorted(set(incomes) | set(expenses))`).
   */
  function TrendMonths(rows: seq<Transaction>): (r: seq<MonthKey>)
    ensures Ascending(r)
    ensures forall k :: k in r <==> k in Months(rows)
  {
    var both := Keys(MonthTotals(rows, Income)) + Keys(MonthTotals(rows, Expense));
    forall k ensures k in both <==> k in Months(rows) {
      MonthsByKind(rows, k);
    }
    SortUnique(both)
  }

  /** One kind's value for each month of an axis: its total in that month, 0 when it has none. */
  function MonthValues(rows: seq<Transaction>, kind: Kind, months: seq<MonthKey>): (r: seq<int>)
    ensures |r| == |months|
    ensures forall i :: 0 <= i < |months| ==> r[i] == Total(Select(Select(rows, OfKind(kind)), InMonth(months[i])))
  {
    Lookups(MonthTotals(rows, kind), months)
  }

  /**
   The monthly trend since `windowStart` (there is no upper bound, so
   future-dated rows count). Absent exactly when no row is that recent;
   otherwise the months are those of the recent rows in ascending order,
   and each kind's value for a month is that kind's total in the month, 0
   when it has none.
   */
  function LineChart(rows: seq<Transaction>, windowStart: DateTime): (r: Option<LineSeries>)
    ensures r.None? <==> |Select(rows, Since(windowStart))| == 0
    ensures r.Some? ==>
              var recent := Select(rows, Since(windowStart));
              && Ascending(r.value.months)
              && (forall k :: k in r.value.months <==> k in Months(recent))
              && |r.value.income| == |r.value.months| && |r.value.expense| == |r.value.months|
              && (forall i :: 0 <= i < |r.value.months| ==>
                    r.value.income[i] == Total(Select(Select(recent, OfKind(Income)), InMonth(r.value.months[i]))))
              && (forall i :: 0 <= i < |r.value.months| ==>
                    r.value.expense[i] == Total(Select(Select(recent, OfKind(Expense)), InMonth(r.value.months[i]))))
  {
    var recent := Select(rows, Since(windowStart));
    var months := TrendMonths(recent);
    SameMembersEmpty(months, Months(recent));
    if |months| == 0 then None
    else Some(LineSeries(months, MonthValues(recent, Income, months), MonthValues(recent, Expense, months)))
  }

  datatype BarData = BarData(categories: seq<string>, income: seq<int>, expense: seq<int>)

  /**
   The all-time category comparison. Absent exactly when there are no rows;
   otherwise each name used by any row appears once, each kind's value for a
   name is that kind's all-time total under it (0 when it has none), and
   each value list adds up to that kind's all-time total. The view lists the
   names in Python set order; this model lists them by first appearance.
   */
  function Bar(rows: seq<Transaction>): (r: Option<BarData>)
    ensures r.None? <==> |rows| == 0
    ensures r.Some? ==>
              && NoDups(r.value.categories)
              && (forall n :: n in r.value.categories <==> n in Names(rows))
              && |r.value.income| == |r.value.categories| && |r.value.expense| == |r.value.categories|
              && (forall i :: 0 <= i < |r.value.categories| ==>
                    r.value.income[i] == Total(Select(Select(rows, OfKind(Income)), Named(r.value.categories[i]))))
              && (forall i :: 0 <= i < |r.value.categories| ==>
                    r.value.expense[i] == Total(Select(Select(rows, OfKind(Expense)), Named(r.value.categories[i]))))
              && Sum(r.value.income) == Total(Select(rows, OfKind(Income)))
              && Sum(r.value.expense) == Total(Select(rows, OfKind(Expense)))
  {
    var incomeCategories := CategoryTotals(Select(rows, OfKind(Income)));
    var expenseCategories := CategoryTotals(Select(rows, OfKind(Expense)));
    BarAbsent(rows);
    if |incomeCategories| == 0 && |expenseCategories| == 0 then None
    else
      var categories := BarCategories(rows);
      BarAxisTotals(rows, Income);
      BarAxisTotals(rows, Expense);
      Some(BarData(categories, Lookups(incomeCategories, categories), Lookups(expenseCategories, categories)))
  }

  lemma BarAbsent(rows: seq<Transaction>)
    ensures |CategoryTotals(Select(rows, OfKind(Income)))| == 0 && |CategoryTotals(Select(rows, OfKind(Expense)))| == 0
            <==> |rows| == 0
  {
    var incomeCategories := CategoryTotals(Select(rows, OfKind(Income)));
    var expenseCategories := CategoryTotals(Select(rows, OfKind(Expense)));
    forall n ensures n in Keys(incomeCategories) + Keys(expenseCategories) <==> n in Names(rows) {
      NamesByKind(rows, n);
    }
    SameMembersEmpty(Keys(incomeCategories) + Keys(expenseCategories), Names(rows));
  }

  /**
   The bar chart's axis: the income names then the expense names, each
   name once. It lists exactly the names some row uses.
   */
  function BarCategories(rows: seq<Transaction>): (r: seq<string>)
    ensures NoDups(r)
    ensures forall n :: n in r <==> n in Names(rows)
  {
    var incomeKeys := Keys(CategoryTotals(Select(rows, OfKind(Income))));
    var expenseKeys := Keys(CategoryTotals(Select(rows, OfKind(Expense))));
    forall n ensures n in Dedup(incomeKeys + expenseKeys) <==> n in Names(rows) {
      KindNamesCover(rows, n);
    }
    Dedup(incomeKeys + expenseKeys)
  }

  /** Read along the axis, each kind's values add up to that kind's whole total. */
  lemma BarAxisTotals(rows: seq<Transaction>, kind: Kind)
    ensures Sum(Lookups(CategoryTotals(Select(rows, OfKind(kind))), BarCategories(rows)))
            == Total(Select(rows, OfKind(kind)))
  {
    var byName := CategoryTotals(Select(rows, OfKind(kind)));
    forall n | n in Keys(byName) ensures n in BarCategories(rows) {
      NameOfSelected(rows, OfKind(kind), n);
    }
    LookupsSum(byName, BarCategories(rows));
  }

  /** A name is on the bar chart's axis exactly when some row uses it. */
  lemma KindNamesCover(rows: seq<Transaction>, n: string)
    ensures var incomeKeys := Keys(CategoryTotals(Select(rows, OfKind(Income))));
            var expenseKeys := Keys(CategoryTotals(Select(rows, OfKind(Expense))));
            n in Dedup(incomeKeys + expenseKeys) <==> n in Names(rows)
  {
    NamesByKind(rows, n);
  }

  /**
   The months from `first` through `last`, one at a time; empty when `last`
   comes before `first`.
   */
  function MonthSpan(first: MonthKey, last: MonthKey): (r: seq<MonthKey>)
    requires 1 <= first.month <= 12
    ensures |r| == if MonthIndex(last) < MonthIndex(first) then 0 else MonthIndex(last) - MonthIndex(first) + 1
    ensures forall i :: 0 <= i < |r| ==> 1 <= r[i].month <= 12 && MonthIndex(r[i]) == MonthIndex(first) + i
    ensures ValidKey(first) && ValidKey(last) ==> forall i :: 0 <= i < |r| ==> ValidKey(r[i])
    decreases MonthIndex(last) - MonthIndex(first)
  {
    if MonthIndex(last) < MonthIndex(first) then [] else [first] + MonthSpan(NextMonth(first), last)
  }

  /** A run of months is fixed by where it starts and how long it is. */
  lemma SpanByIndex(s: seq<MonthKey>, first: MonthKey, last: MonthKey)
    requires 1 <= first.month <= 12 && MonthIndex(first) <= MonthIndex(last) + 1
    requires |s| == MonthIndex(last) - MonthIndex(first) + 1
    requires forall i :: 0 <= i < |s| ==> 1 <= s[i].month <= 12 && MonthIndex(s[i]) == MonthIndex(first) + i
    ensures s == MonthSpan(first, last)
  {
    var span := MonthSpan(first, last);
    forall i | 0 <= i < |s| ensures s[i] == span[i] {
      KeyLessIndex(s[i], span[i]);
    }
  }

  /** A non-empty span starts at its first month and ends at its last. */
  lemma SpanEnds(first: MonthKey, last: MonthKey)
    requires 1 <= first.month <= 12 && 1 <= last.month <= 12 && MonthIndex(first) <= MonthIndex(last)
    ensures MonthSpan(first, last)[0] == first
    ensures MonthSpan(first, last)[|MonthSpan(first, last)| - 1] == last
  {
    var span := MonthSpan(first, last);
    KeyLessIndex(span[0], first);
    KeyLessIndex(span[|span| - 1], last);
  }

  /**
   The view's stepping loop: starting from `start` (day 1, `now`'s time of
   day), collect each month and move to day 1 of the next while not past
   `now`. `None` is the ValueError of `replace(year=10000)` when stepping past
   December 9999.
   */
  method StepMonths(start: DateTime, now: DateTime) returns (r: Option<seq<MonthKey>>)
    requires ValidDate(start) && ValidDate(now) && start.day == 1 && start.sec == now.sec
    requires MonthIndex(MonthOf(start)) <= MonthIndex(MonthOf(now))
    ensures r.None? <==> MonthOf(now) == MonthKey(MaxYear, 12)
    ensures r.Some? ==> r.value == MonthSpan(MonthOf(start), MonthOf(now))
  {
    var first := MonthIndex(MonthOf(start));
    var current := start;
    var months: seq<MonthKey> := [];
    MonthStartAtOrBefore(current, now);
    while LessEq(current, now)
      invariant ValidDate(current) && current.day == 1 && current.sec == now.sec
      invariant first <= MonthIndex(MonthOf(current)) <= MonthIndex(MonthOf(now)) + 1
      invariant |months| == MonthIndex(MonthOf(current)) - first
      invariant forall i :: 0 <= i < |months| ==> 1 <= months[i].month <= 12 && MonthIndex(months[i]) == first + i
      invariant LessEq(current, now) <==> MonthIndex(MonthOf(current)) <= MonthIndex(MonthOf(now))
      decreases MonthIndex(MonthOf(now)) + 1 - MonthIndex(MonthOf(current))
    {
      months := months + [MonthOf(current)];
      if current.month == 12 {
        if current.year == MaxYear {
          return None;
        }
        current := current.(year := current.year + 1, month := 1);
      } else {
        current := current.(month := current.month + 1);
      }
      MonthStartAtOrBefore(current, now);
    }
    SpanByIndex(months, MonthOf(start), MonthOf(now));
    return Some(months);
  }

  /**
   The heatmap's month axis: from the month of `now - 180 days` through
   `now`'s month, one month at a time. `None` is the exception the view
   raises: the window start falls before year 1, or the month after
   December 9999 is needed.
   */
  method HeatmapMonths(now: DateTime) returns (r: Option<seq<MonthKey>>)
    requires ValidDate(now)
    ensures SubDays(now, WindowDays).None? ==> r.None?
    ensures SubDays(now, WindowDays).Some? ==> (r.None? <==> MonthOf(now) == MonthKey(MaxYear, 12))
    ensures r.Some? ==>
              var months := r.value;
              && months == MonthSpan(MonthOf(SubDays(now, WindowDays).value), MonthOf(now))
              && |months| > 0
              && months[0] == MonthOf(SubDays(now, WindowDays).value)
              && months[|months| - 1] == MonthOf(now)
              && (forall i :: 0 <= i < |months| ==> ValidKey(months[i]))
  {
    var windowStart := SubDays(now, WindowDays);
    if windowStart.None? {
      return None;
    }
    var start := WithDayOne(windowStart.value);
    MonthStartAtOrBefore(start, now);
    r := StepMonths(start, now);
    SpanEnds(MonthOf(start), MonthOf(now));
  }

  /**
   One heatmap cell as the view computes it: the rows named `name` dated in
   `[first of the month, first of the next month)`, incomes plus expenses.
   That is the total of the rows named `name` whose month key is the month.
   */
  function Cell(income: seq<Transaction>, expense: seq<Transaction>, name: string, month: MonthKey): (r: int)
    requires 1 <= month.month <= 12
    requires WellFormed(income) && WellFormed(expense)
    ensures r == Total(Select(Select(income, Named(name)), InMonth(month)))
               + Total(Select(Select(expense, Named(name)), InMonth(month)))
  {
    MonthIntervalSelect(Select(income, Named(name)), month);
    MonthIntervalSelect(Select(expense, Named(name)), month);
    Total(Select(Select(income, Named(name)), Between(FirstOf(month), FirstOf(NextMonth(month)))))
      + Total(Select(Select(expense, Named(name)), Between(FirstOf(month), FirstOf(NextMonth(month)))))
  }

  /**
   The heatmap's rows: the distinct income names followed by the distinct
   expense names. A concatenation, so a name used by both kinds is listed
   twice.
   */
  function HeatmapCategories(income: seq<Transaction>, expense: seq<Transaction>): (r: seq<string>)
    ensures |r| == |Elements(Names(income))| + |Elements(Names(expense))|
    ensures forall n :: n in r <==> n in Names(income) || n in Names(expense)
  {
    DedupCard(Names(income));
    DedupCard(Names(expense));
    Dedup(Names(income)) + Dedup(Names(expense))
  }

  datatype HeatmapData = HeatmapData(categories: seq<string>, months: seq<MonthKey>, cells: seq<seq<int>>)

  /**
   The matrix of `Cell`s, one row per listed name and one column per month;
   rows listing the same name are equal.
   */
  function HeatmapCells(income: seq<Transaction>, expense: seq<Transaction>, categories: seq<string>, months: seq<MonthKey>)
    : (r: seq<seq<int>>)
    requires WellFormed(income) && WellFormed(expense)
    requires forall j :: 0 <= j < |months| ==> ValidKey(months[j])
    ensures |r| == |categories|
    ensures forall i :: 0 <= i < |r| ==> |r[i]| == |months|
    ensures forall i, j :: 0 <= i < |r| && 0 <= j < |months| ==>
              r[i][j] == Total(Select(Select(income, Named(categories[i])), InMonth(months[j])))
                         + Total(Select(Select(expense, Named(categories[i])), InMonth(months[j])))
    ensures forall i, i' :: 0 <= i < |r| && 0 <= i' < |r| && categories[i] == categories[i'] ==> r[i] == r[i']
  {
    seq(|categories|, i requires 0 <= i < |categories| =>
      seq(|months|, j requires 0 <= j < |months| =>
        assert ValidKey(months[j]);
        Cell(income, expense, categories[i], months[j])))
  }

  /**
   The category-by-month matrix over the rows dated from `windowStart` on.
   Absent when there are no months or no such rows. Otherwise it has one row
   per listed name and one column per month, rows with the same name are
   equal, and cell (i, j) totals the recent incomes and expenses named
   `categories[i]` in month `months[j]`.
   */
  function Heatmap(rows: seq<Transaction>, windowStart: DateTime, months: seq<MonthKey>): (r: Option<HeatmapData>)
    requires WellFormed(rows)
    requires forall j :: 0 <= j < |months| ==> ValidKey(months[j])
    ensures r.None? <==> |months| == 0 || |Select(rows, Since(windowStart))| == 0
    ensures r.Some? ==>
              var income := Select(Select(rows, OfKind(Income)), Since(windowStart));
              var expense := Select(Select(rows, OfKind(Expense)), Since(windowStart));
              && r.value.months == months
              && r.value.categories == HeatmapCategories(income, expense)
              && r.value.cells == HeatmapCells(income, expense, r.value.categories, months)
  {
    var income := Select(Select(rows, OfKind(Income)), Since(windowStart));
    var expense := Select(Select(rows, OfKind(Expense)), Since(windowStart));
    var categories := HeatmapCategories(income, expense);
    assert WellFormed(Select(rows, OfKind(Income))) && WellFormed(Select(rows, OfKind(Expense)));
    RecentByKind(rows, windowStart);
    SameMembersEmpty(categories, Names(income) + Names(expense));
    if |months| == 0 || |categories| == 0 then None
    else Some(HeatmapData(categories, months, HeatmapCells(income, expense, categories, months)))
  }

  /**
   The window only cuts into the first month: every row dated in a later
   month is on or after `windowStart`.
   */
  lemma {:induction false} WindowCoversLaterMonth(rows: seq<Transaction>, windowStart: DateTime, kind: Kind, name: string, m: MonthKey)
    requires 1 <= windowStart.month <= 12 && 1 <= m.month <= 12
    requires MonthIndex(MonthOf(windowStart)) < MonthIndex(m)
    ensures Select(Select(Select(Select(rows, OfKind(kind)), Since(windowStart)), Named(name)), InMonth(m))
            == Select(Select(Select(rows, OfKind(kind)), Named(name)), InMonth(m))
  {
    var ofKind := Select(rows, OfKind(kind));
    SelectCommute(ofKind, Since(windowStart), Named(name));
    var named := Select(ofKind, Named(name));
    KeyLessIndex(MonthOf(windowStart), m);
    SelectDrop(named, Since(windowStart), InMonth(m));
  }

  /**
   Past the first column, a heatmap cell is the month's whole total for its
   name: the 180-day window drops nothing from a month that starts inside it.
   The months are consecutive from `windowStart`'s, as `MonthSpan` lists them.
   */
  lemma HeatmapLaterColumns(rows: seq<Transaction>, windowStart: DateTime, months: seq<MonthKey>, i: int, j: int)
    requires WellFormed(rows) && 1 <= windowStart.month <= 12
    requires forall k :: 0 <= k < |months| ==> ValidKey(months[k])
    requires forall k :: 0 <= k < |months| ==> MonthIndex(months[k]) == MonthIndex(MonthOf(windowStart)) + k
    requires Heatmap(rows, windowStart, months).Some?
    requires 0 <= i < |Heatmap(rows, windowStart, months).value.categories| && 1 <= j < |months|
    ensures var h := Heatmap(rows, windowStart, months).value;
            h.cells[i][j]
            == Total(Select(Select(Select(rows, OfKind(Income)), Named(h.categories[i])), InMonth(months[j])))
               + Total(Select(Select(Select(rows, OfKind(Expense)), Named(h.categories[i])), InMonth(months[j])))
  {
    var h := Heatmap(rows, windowStart, months).value;
    WindowCoversLaterMonth(rows, windowStart, Income, h.categories[i], months[j]);
    WindowCoversLaterMonth(rows, windowStart, Expense, h.categories[i], months[j]);
  }

  /** There are recent rows exactly when there are recent incomes or recent expenses. */
  lemma RecentByKind(rows: seq<Transaction>, windowStart: DateTime)
    ensures |Select(rows, Since(windowStart))| == 0 <==>
              |Select(Select(rows, OfKind(Income)), Since(windowStart))| == 0
              && |Select(Select(rows, OfKind(Expense)), Since(windowStart))| == 0
  {
    var recent := Select(rows, Since(windowStart));
    var incomes, expenses := Select(rows, OfKind(Income)), Select(rows, OfKind(Expense));
    var inc := Select(incomes, Since(windowStart));
    var exp := Select(expenses, Since(windowStart));
    if |recent| > 0 {
      var t := recent[0];
      assert t in recent;
      if t.kind == Income {
        assert t in incomes;
        assert t in inc;
      } else {
        assert t in expenses;
        assert t in exp;
      }
    }
    if |inc| > 0 {
      var t := inc[0];
      assert t in inc;
      assert t in incomes;
      assert t in recent;
    }
    if |exp| > 0 {
      var t := exp[0];
      assert t in exp;
      assert t in expenses;
      assert t in recent;
    }
  }

  /**
   A name used by both a recent income and a recent expense heads two rows
   of the heatmap.
   */
  lemma SharedNameListedTwice(income: seq<Transaction>, expense: seq<Transaction>, name: string)
    requires name in Names(income) && name in Names(expense)
    ensures exists i, j :: 0 <= i < j < |HeatmapCategories(income, expense)|
              && HeatmapCategories(income, expense)[i] == name && HeatmapCategories(income, expense)[j] == name
  {
    var a, b := Dedup(Names(income)), Dedup(Names(expense));
    var i :| 0 <= i < |a| && a[i] == name;
    var j :| 0 <= j < |b| && b[j] == name;
    assert HeatmapCategories(income, expense) == a + b;
    assert (a + b)[i] == name && (a + b)[|a| + j] == name;
  }

  /** The heatmap over the months from `windowStart`'s through `now`'s. */
  function RecentHeatmap(rows: seq<Transaction>, windowStart: DateTime, now: DateTime): Option<HeatmapData>
    requires WellFormed(rows) && ValidDate(windowStart) && ValidDate(now)
  {
    Heatmap(rows, windowStart, MonthSpan(MonthOf(windowStart), MonthOf(now)))
  }

  datatype ChartSet = ChartSet(
    period: Period,
    incomePie: Option<seq<Bucket<string>>>,
    expensePie: Option<seq<Bucket<string>>>,
    line: Option<LineSeries>,
    bar: Option<BarData>,
    histogram: Option<HistogramData>,
    heatmap: Option<HeatmapData>)

  /**
   `generate_charts` without the drawing. The page fails (`None`) only when
   `now` is at the ends of the calendar: within 180 days of 0001-01-01, or in
   December 9999. Otherwise every chart is computed from the same rows, the
   selected period and `now`, and each chart is absent exactly when it has
   nothing to show.
   */
  method BuildCharts(rows: seq<Transaction>, token: Option<string>, now: DateTime) returns (r: Option<ChartSet>)
    requires ValidDate(now) && WellFormed(rows)
    ensures r.None? <==> SubDays(now, WindowDays).None? || MonthOf(now) == MonthKey(MaxYear, 12)
    ensures r.Some? ==>
              var c := r.value;
              var windowStart := SubDays(now, WindowDays).value;
              && Resolve(token, now) == Some(c.period)
              && c.incomePie == Pie(rows, Income, c.period)
              && c.expensePie == Pie(rows, Expense, c.period)
              && c.line == LineChart(rows, windowStart)
              && c.bar == Bar(rows)
              && c.histogram == Histogram(rows, c.period)
              && c.heatmap == RecentHeatmap(rows, windowStart, now)
  {
    var period := Resolve(token, now);
    if period.None? {
      return None;
    }
    var p := period.value;
    var incomePie := Pie(rows, Income, p);
    var expensePie := Pie(rows, Expense, p);
    var windowStart := SubDays(now, WindowDays);
    if windowStart.None? {
      return None;
    }
    var line := LineChart(rows, windowStart.value);
    var bar := Bar(rows);
    var histogram := Histogram(rows, p);
    var months := HeatmapMonths(now);
    if months.None? {
      return None;
    }
    var heatmap := Heatmap(rows, windowStart.value, months.value);
    return Some(ChartSet(p, incomePie, expensePie, line, bar, histogram, heatmap));
  }
}
