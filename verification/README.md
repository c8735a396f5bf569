# FinSage aggregation core, modelled in Dafny

FinSage is a Django personal-finance app. Each user records incomes and
expenses: a category name, an amount in rupees with two decimal places, and
a timestamp. This project models the arithmetic behind its two read-only
pages. The chart page comes first, and the plotting itself is left out.

- **Dashboard** (`dashboard` in `finance/views.py`). It reads the `month`
  query parameter (`YYYY-MM`, default: the current month) and picks a
  period from it. If the token does not parse, it falls back to the
  current month. It then sums the period's incomes and expenses, shows the
  net balance, and offers a month drop-down.
- **Chart page** (`generate_charts` and its helpers). It computes the data
  for six charts:
  - two category pies for the selected period;
  - a monthly trend over the last 180 days;
  - an all-time category bar comparison;
  - the period's amount histogram;
  - a category-by-month heatmap over the last 180 days.

## Modules

- `common.dfy`, **Common**. Holds `Option` (`None` = the request raises or,
  for a chart helper, the chart is absent),
  integer sums, duplicate-free sequences, and first-occurrence
  de-duplication.
- `calendar.dfy`, **Calendar**. Holds Python `datetime` restricted to years
  1–9999: month keys, `replace(day=1)`, month rollover, a day ordinal, and whole-day
  `timedelta` steps. Stepping outside that range yields `None`, as Python
  raises OverflowError.
- `month_token.dfy`, **MonthToken**. Models `strftime('%Y-%m')` and the
  strings `strptime(..., '%Y-%m')` accepts. It also proves that sorting
  the key strings sorts the months chronologically.
- `ledger.dfy`, **Ledger**. Holds transactions and the queryset filters
  (`kind`, `name=`, `date__gte`/`date__lt`, month key), with exact totals.
- `grouping.dfy`, **Grouping**. Models the `defaultdict` running totals,
  which keep keys in first-insertion order, and `d.get(k, 0)`.
- `month_order.dfy`, **MonthOrder**. Models `sorted(set(...))` of month
  keys, ascending and descending.
- `resolver.dfy`, **Resolver**. Models the month selector shared by both
  pages.
- `charts.dfy`, **Charts**. Holds every chart's data and the whole chart
  page (`BuildCharts`).
- `dashboard.dfy`, **Dashboard**. Holds the dashboard summary and the month
  drop-down.

Amounts are whole paise (integers). The `DecimalField(decimal_places=2)`
makes that exact. Timestamps are `(year, month, day, second of day)`. The
clock is a parameter `now`.

## Model

| member | source | states |
|---|---|---|
| Calendar.NextMonth | finance/views.py:92-95 | The month after `k` is month 1..12 and exactly one month later; December becomes January of the following year |
| Calendar.WithDayOne | finance/views.py:98 | `replace(day=1)` moves to day 1 of the same month, keeps the time of day and is not after the original |
| Calendar.InMonthInterval | finance/views.py:101-102 | A valid timestamp lies in `[first of month k 00:00, first of next month 00:00)` exactly when its month key is `k` |
| Calendar.AddDays | finance/views.py:99 | `d + timedelta(days=n)`, when it does not raise, is a valid date at the same time of day and not before `d` |
| Calendar.SubDays | finance/views.py:362 | `d - timedelta(days=n)`, when it does not raise, is a valid date at the same time of day and not after `d` |
| Calendar.DayNumberOrder | finance/views.py:99 | The day ordinal (Python's `toordinal() - 1`) orders valid days as the calendar does, and two valid days share an ordinal exactly when they are the same day |
| Calendar.AddDaysOrdinal | finance/views.py:99 | `d + timedelta(days=n)` is the day exactly `n` ordinals later, and raises exactly when that passes 9999-12-31 |
| Calendar.SubDaysOrdinal | finance/views.py:362 | `d - timedelta(days=n)` is the day exactly `n` ordinals earlier, and raises exactly when that precedes 0001-01-01 |
| Calendar.YearStep | finance/views.py:362 | The closed-form count of days before a year grows by that year's length, 366 in leap years and 365 otherwise |
| Calendar.SubThenAdd | finance/views.py:361-362 | Going back `n` days and then forward `n` days returns to the same timestamp |
| Calendar.AddThirtyTwoFromFirst | finance/views.py:99 | From the first of a month, 32 days later lands in the following month at the same time of day; it overflows exactly in December 9999 |
| MonthToken.FormatKey | finance/views.py:114 | `strftime('%Y-%m')` writes a month as seven characters: the year zero-padded to four digits, a dash, and the month zero-padded to two digits, the digits reading back as the year and month |
| MonthToken.LexLess | finance/views.py:121 | Python string comparison: a proper prefix comes first, and only a non-empty string can come after another |
| MonthToken.ParseMonthToken | finance/views.py:89 | An accepted token names a valid month and is `YYYY-MM`, or `YYYY-M` for months 1-9; formatting the month gives the token back, zero-padded |
| MonthToken.ParseUnpadded | finance/views.py:89 | `strptime` also accepts a month from 1 to 9 written without its zero, and reads the same month |
| MonthToken.ParseFormat | finance/views.py:85-89 | The default token `now.strftime('%Y-%m')` always parses back to `now`'s month |
| MonthToken.FormatKeyOrder | finance/views.py:121 | Python string order on `'%Y-%m'` keys is exactly chronological order of the months, in both directions |
| Ledger.Select | finance/views.py:101-102 | A queryset filter keeps exactly the rows that satisfy the condition, never more rows than it started with, and only valid timestamps |
| Ledger.SelectCommute | finance/views.py:528-529 | Chained filters select the same rows in the same order whichever is applied first |
| Ledger.SelectDrop | finance/views.py:528-529 | A filter that every row kept by a later filter already passes can be dropped without changing the result |
| Ledger.SelectMultiset | finance/views.py:101-102 | A filter keeps each matching row exactly as many times as it is stored, so identical rows stay separate, and drops every other row |
| Ledger.Total | finance/views.py:104-105 | The sum of the amounts is never negative when no amount is |
| Ledger.TotalCons | finance/views.py:104-105 | The sum is the first row's amount plus the sum of the rest, so summing from the front agrees with summing from the back |
| Ledger.TotalMultiset | finance/views.py:104-105 | A sum of amounts depends only on which rows occur and how often, not on their order |
| Ledger.MonthIntervalSelect | finance/views.py:528-529 | Filtering by `[first of month, first of next month)` selects the same rows as filtering by month key |
| Ledger.Amounts | finance/views.py:458-459 | The amount list has one entry per row, equal to that row's amount, and adds up to the rows' total |
| Ledger.NamesByKind | finance/views.py:422 | A name is used by some row exactly when some income or some expense uses it |
| Ledger.MonthsByKind | finance/views.py:379 | A month holds some row exactly when it holds some income or some expense |
| Grouping.Get | finance/views.py:383-384 | `d.get(k, 0)` reads 0 for a key the dictionary lacks and the key's own running total for a key it holds |
| Grouping.Lookups | finance/views.py:423-424 | Reading a dictionary along an axis gives one value per axis entry, that entry's running total, or 0 when the dictionary lacks it |
| Grouping.Add | finance/views.py:299 | `d[k] += a` keeps keys distinct, appends a new key at the end, and adds `a` to the grand total |
| Grouping.AddGet | finance/views.py:299 | After `d[k] += a`, key `k` reads `a` more and every other key reads the same |
| Grouping.Group | finance/views.py:297-299 | After the loop, the keys are the distinct posted keys in first-appearance order; each reads the sum posted under it, and all together hold every posted amount |
| Grouping.LookupsSum | finance/views.py:422-424 | Reading a dictionary along a duplicate-free axis that covers its keys returns its whole total |
| Common.Dedup | finance/views.py:422 | The de-duplicated keys are distinct and have exactly the members of the input |
| MonthOrder.SortUnique | finance/views.py:379 | `sorted(set(s))` is strictly ascending and has exactly the members of `s` |
| MonthOrder.AscendingUnique | finance/views.py:379 | Two strictly ascending lists with the same members are equal, so the sorted list depends only on the set |
| MonthOrder.SortUniqueDescending | finance/views.py:121 | `sorted(set(s), reverse=True)` is strictly descending and has exactly the members of `s` |
| Resolver.EffectiveToken | finance/views.py:85 | The token is the `month` parameter when given; otherwise it is `now`'s month key, which always parses back to `now`'s month |
| Resolver.SelectedMonth | finance/views.py:88-95 | The try block finishes exactly for a parsable token whose month is not December 9999, and then selects the parsed month |
| Resolver.Resolve | finance/views.py:85-99 | A parsed month gives `[first 00:00, next month's first 00:00)`, which contains exactly that month's timestamps. Otherwise the fallback runs from `now`'s month, day 1, at `now`'s time of day, to the next month's day 1 at that time, and contains `now`. The selector fails only in December 9999 |
| Resolver.AbsentTokenSelectsCurrentMonth | finance/views.py:85-95 | Without a `month` parameter the period is `now`'s calendar month from midnight, not the fallback |
| Charts.CategoryTotals | finance/views.py:297-299 | The category dictionary has one key per distinct name of the rows; each reads the total of the rows with that name, and together they hold the rows' total |
| Charts.Pie | finance/views.py:296-320 | A kind's pie is absent exactly when the kind has no row in the period; its slices are the period's names of that kind and add up to the kind's period total |
| Charts.Histogram | finance/views.py:447-461 | The histogram is absent exactly when the period has no row of either kind; each list holds the amount of each period row of its kind, in row order |
| Charts.MonthTotals | finance/views.py:368-377 | The per-month dictionary of one kind has a key exactly for each month holding such a row and reads that month's total |
| Charts.TrendMonths | finance/views.py:379 | The trend's month axis is strictly ascending and holds exactly the months of the rows |
| Charts.MonthValues | finance/views.py:383-384 | Each kind's value for a month is its total in that month, 0 when it has none |
| Charts.LineChart | finance/views.py:361-384 | The trend is absent exactly when no row is dated on or after the window start; otherwise its months are the recent rows' months, ascending, with each kind's monthly totals |
| Charts.BarCategories | finance/views.py:422 | The bar chart's categories are distinct and are exactly the names used by any row |
| Charts.BarAbsent | finance/views.py:418 | Both category dictionaries are empty exactly when there are no rows at all |
| Charts.BarAxisTotals | finance/views.py:422-424 | Along the category axis, each kind's values add up to that kind's all-time total |
| Charts.Bar | finance/views.py:406-424 | The bar chart is absent exactly when there are no rows. Otherwise it lists each name once with each kind's all-time total under it (0 when none), and each value list adds up to that kind's all-time total |
| Charts.MonthSpan | finance/views.py:500-507 | The months from `first` through `last` are consecutive months, one per index, and valid when both ends are |
| Charts.SpanByIndex | finance/views.py:500-507 | A run of months with the right length and consecutive indices is the month span |
| Charts.StepMonths | finance/views.py:500-507 | The stepping loop ends; it yields exactly the month span from the start month through `now`'s month, or raises exactly when `now` is in December 9999 |
| Charts.HeatmapMonths | finance/views.py:493-507 | The heatmap's month axis runs from the month of `now - 180 days` through `now`'s month, consecutive and valid; it is absent exactly when a step leaves years 1..9999 |
| Charts.Cell | finance/views.py:520-532 | A cell, computed over `[month start, month end)`, is the total of the income and expense rows with that name whose month key is the month |
| Charts.HeatmapCategories | finance/views.py:510-512 | The heatmap rows number the distinct income names plus the distinct expense names, and a name is listed exactly when one of the two kinds uses it |
| Charts.SharedNameListedTwice | finance/views.py:512 | A name used by both a recent income and a recent expense heads two different rows |
| Charts.HeatmapCells | finance/views.py:514-532 | The matrix has one row per listed name and one column per month; cell (i, j) is the name's income plus expense total in month j, and rows for the same name are equal |
| Charts.Heatmap | finance/views.py:493-532 | The heatmap is absent exactly when there are no months or no recent rows; otherwise it is the matrix over the recent rows of each kind |
| Charts.WindowCoversLaterMonth | finance/views.py:496-529 | For a month later than the window start's month, the window filter drops none of the month's rows of a given kind and name |
| Charts.HeatmapLaterColumns | finance/views.py:514-532 | Past the first column, a heatmap cell is the name's whole income plus expense total for that month; only the first month is cut by the window |
| Charts.RecentByKind | finance/views.py:496-497 | There are recent rows exactly when there are recent incomes or recent expenses |
| Charts.BuildCharts | finance/views.py:275-356 | Leaving plotting errors aside, the chart page fails exactly when `now - 180 days` is before year 1 or `now` is in December 9999; otherwise every chart comes from the same rows, period and clock |
| Dashboard.AvailableMonths | finance/views.py:112-121 | The drop-down is strictly descending and non-empty, and holds exactly the months of the transactions plus `now`'s month |
| Dashboard.AvailableMonthsAsStrings | finance/views.py:121 | For four-digit years: formatted as `'%Y-%m'`, the drop-down's months are in strictly descending string order, so the view's string sort gives the same list |
| Dashboard.Summarize | finance/views.py:101-106 | The dashboard fails exactly when the selector does. Otherwise its incomes and expenses hold each row of that kind inside the period as often as it is stored, its totals are their sums, and the net balance is income minus expenses |
| Dashboard.SummaryTotalsFixed | finance/views.py:101-105 | Any list holding the period's rows of a kind with the stored multiplicities adds up to the dashboard's total for that kind, so the totals are determined |
| Dashboard.SelectedMonthRows | finance/views.py:88-102 | For a parsed month, the dashboard's rows are exactly the rows whose month key is that month |
| Dashboard.DashboardMatchesCharts | finance/views.py:104-105 | Each dashboard total equals its pie's slice sum (0 without a pie) and its histogram's amount sum |

## Left out

- Authentication, routing and the JSON create/update/delete endpoints (`finance/views.py:21-80`, `136-272`, `finance/urls.py`). They are session and database plumbing, not aggregation.
- All plotting and encoding: matplotlib, seaborn, numpy figure set-up, PNG/base64. Each chart is modelled as the data it would be drawn from, or `None` where the view returns `None`.
- Floating point. The views sum `float(amount)` in binary floating point (`finance/views.py:299`, `318`, `373`, `377`, `413`, `416`, `458-459`, `531`). The model sums exact paise, so it says nothing about rounding.
- The per-user filter (`user=user`). The model's rows are one user's rows.
- Time zones and `timezone.make_aware`. Everything is in one fixed zone. Microseconds are not modelled: a timestamp is a whole second of a day.
- The separate clock reads. The views call `timezone.now()` several times per request; the model uses one `now` for all of them.
- Calendar.AddDays: its own contract gives only the bounds of the result. The exact day, and when it raises, are stated in `Calendar.AddDaysOrdinal`.
- Calendar.SubDays: its own contract gives only the bounds of the result. The exact day, and when it raises, are stated in `Calendar.SubDaysOrdinal`.
- Charts.BuildCharts: exceptions raised by the plotting library are not modelled. For example, `plt.pie` (`finance/views.py:303`, `322`) rejects a negative wedge, which a category with a negative period total would give, since `DecimalField` (`finance/models.py:8`) accepts negative amounts. In that case the view fails while the model returns the chart data.
- ParseMonthToken: Python's `\d` also matches non-ASCII Unicode digits, which `strptime` would accept; the model accepts only ASCII `0`-`9`.
- Years below 1000. On common platforms `strftime('%Y')` does not zero-pad such years. The model always pads to four digits, so it leaves out two effects. First, the heatmap's re-parse of its own month keys would raise; the model starts the heatmap at year 1 at the earliest. Second, the drop-down order is affected, as the next line says.
- Dashboard.AvailableMonthsAsStrings: holds only for four-digit years. `add_income` accepts a date such as `0999-05-01` (`finance/views.py:147`). Its drop-down key is then `999-05` (`finance/views.py:114`). In string order `999-05` comes after `2024-05`, because `'9' > '2'`, so the descending sort lists it before later months (`finance/views.py:121`). Selecting it fails to parse (`finance/views.py:89`), and the page falls back to the current month.
- The histogram's all-time branch (`finance/views.py:453-456`). `generate_charts` always passes the period, and a `datetime` is always truthy, so that branch is never taken from the views modelled here.
- Category order. The bar chart lists categories in Python `set` order (`finance/views.py:422`), and the heatmap lists each kind's names in `set` order (`finance/views.py:510-512`). That order depends on string hashing. The model lists names by first appearance; its contracts do not depend on the order.
- Query-set order. Database rows come back in an unspecified order. The model keeps the stored order, and every contract about totals and members holds for any order.
- `js/scripts.js` (a browser-side copy of the totals) and `populate_sample_data.py` (random sample data). Neither is part of this model.
- Two behaviours of the code are kept as written:
  - The heatmap's cells sum the rows already limited to the last 180 days (`finance/views.py:496-497`, `528-529`), not all rows of the month. This only changes the first column (`Charts.HeatmapLaterColumns`).
  - Its row list is a concatenation of the two kinds' distinct names, so a name used by both kinds appears twice (`Charts.SharedNameListedTwice`), not once.
