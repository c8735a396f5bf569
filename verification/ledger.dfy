/**
 One user's transactions, as the `Income` and `Expense` tables hold them,
 and the queryset filters the views apply to them. Amounts are whole paise:
 a decimal with two places is an exact integer number of hundredths.
 */
module Ledger {
  import opened Common
  import opened Calendar

  datatype Kind = Income | Expense

  /** A row of either table: its category name, amount and timestamp. */
  datatype Transaction = Transaction(kind: Kind, name: string, amount: int, date: DateTime)

  /** Every stored timestamp is a real date (the database holds nothing else). */
  predicate WellFormed(rows: seq<Transaction>) {
    forall i :: 0 <= i < |rows| ==> ValidDate(rows[i].date)
  }

  /** One queryset `.filter(...)` condition. */
  datatype Query =
    | OfKind(kind: Kind)                      // which table
    | Named(name: string)                     // name=...
    | Between(start: DateTime, end: DateTime) // date__gte=start, date__lt=end
    | Since(start: DateTime)                  // date__gte=start
    | InMonth(key: MonthKey)                  // strftime('%Y-%m') == key

  predicate Matches(t: Transaction, q: Query) {
    match q
    case OfKind(k) => t.kind == k
    case Named(n) => t.name == n
    case Between(s, e) => LessEq(s, t.date) && Less(t.date, e)
    case Since(s) => LessEq(s, t.date)
    case InMonth(k) => MonthOf(t.date) == k
  }

  /** The rows satisfying a condition, in their original order. */
  function Select(rows: seq<Transaction>, q: Query): (r: seq<Transaction>)
    ensures |r| <= |rows|
    ensures forall t {:trigger t in r} :: t in r <==> t in rows && Matches(t, q)
    ensures WellFormed(rows) ==> WellFormed(r)
  {
    if |rows| == 0 then []
    else
      var init := Select(rows[..|rows| - 1], q);
      var t := rows[|rows| - 1];
      assert forall u :: u in rows <==> u in rows[..|rows| - 1] || u == t;
      assert WellFormed(rows) ==> WellFormed(rows[..|rows| - 1]);
      if Matches(t, q) then init + [t] else init
  }

  /**
   A filter keeps each matching row as often as it occurs: two identical
   purchases are two rows, and both are kept.
   */
  lemma {:induction false} SelectMultiset(rows: seq<Transaction>, q: Query)
    ensures forall t :: multiset(Select(rows, q))[t] == if Matches(t, q) then multiset(rows)[t] else 0
  {
    if |rows| > 0 {
      var t := rows[|rows| - 1];
      SelectMultiset(rows[..|rows| - 1], q);
      assert rows == rows[..|rows| - 1] + [t];
    }
  }

  /** Filtering a list with one more row at the end. */
  lemma SelectSnoc(rows: seq<Transaction>, t: Transaction, q: Query)
    ensures Select(rows + [t], q) == if Matches(t, q) then Select(rows, q) + [t] else Select(rows, q)
  {
    assert (rows + [t])[..|rows|] == rows;
  }

  /** Two filters give the same rows in either order (chained `.filter()` calls). */
  lemma {:induction false} SelectCommute(rows: seq<Transaction>, p: Query, q: Query)
    ensures Select(Select(rows, p), q) == Select(Select(rows, q), p)
  {
    if |rows| > 0 {
      var init, t := rows[..|rows| - 1], rows[|rows| - 1];
      SelectCommute(init, p, q);
      SelectSnoc(Select(init, p), t, q);
      SelectSnoc(Select(init, q), t, p);
    }
  }

  /** A filter that every row kept by `q` already passes changes nothing before `q`. */
  lemma {:induction false} SelectDrop(rows: seq<Transaction>, p: Query, q: Query)
    requires forall t :: t in rows && Matches(t, q) ==> Matches(t, p)
    ensures Select(Select(rows, p), q) == Select(rows, q)
  {
    if |rows| > 0 {
      var init, t := rows[..|rows| - 1], rows[|rows| - 1];
      assert forall u :: u in init ==> u in rows;
      SelectDrop(init, p, q);
      SelectSnoc(Select(init, p), t, q);
    }
  }

  /** Exact sum of the amounts (`sum(row.amount for row in rows)`). */
  function Total(rows: seq<Transaction>): (r: int)
    ensures (forall i :: 0 <= i < |rows| ==> rows[i].amount >= 0) ==> r >= 0
  {
    if |rows| == 0 then 0 else Total(rows[..|rows| - 1]) + rows[|rows| - 1].amount
  }

  /** The same sum taken from the front: the first amount plus the rest. */
  lemma {:induction false} TotalCons(rows: seq<Transaction>)
    requires |rows| > 0
    ensures Total(rows) == rows[0].amount + Total(rows[1..])
  {
    if |rows| > 1 {
      assert rows[1..][..|rows| - 2] == rows[..|rows| - 1][1..];
      TotalCons(rows[..|rows| - 1]);
    }
  }

  /** The amounts in row order (`[row.amount for row in rows]`). */
  function Amounts(rows: seq<Transaction>): (r: seq<int>)
    ensures |r| == |rows|
    ensures forall i :: 0 <= i < |rows| ==> r[i] == rows[i].amount
    ensures Sum(r) == Total(rows)
  {
    if |rows| == 0 then []
    else
      var init := Amounts(rows[..|rows| - 1]);
      SumAppend(init, [rows[|rows| - 1].amount]);
      init + [rows[|rows| - 1].amount]
  }

  /** The category name of each row, in order. */
  function Names(rows: seq<Transaction>): (r: seq<string>)
    ensures |r| == |rows|
    ensures forall i :: 0 <= i < |rows| ==> r[i] == rows[i].name
  {
    if |rows| == 0 then [] else Names(rows[..|rows| - 1]) + [rows[|rows| - 1].name]
  }

  /** The month key of each row, in order. */
  function Months(rows: seq<Transaction>): (r: seq<MonthKey>)
    ensures |r| == |rows|
    ensures forall i :: 0 <= i < |rows| ==> r[i] == MonthOf(rows[i].date)
  {
    if |rows| == 0 then [] else Months(rows[..|rows| - 1]) + [MonthOf(rows[|rows| - 1].date)]
  }

  /** A name used by some selected row is used by some row. */
  lemma NameOfSelected(rows: seq<Transaction>, q: Query, n: string)
    requires n in Names(Select(rows, q))
    ensures n in Names(rows)
  {
    var s := Select(rows, q);
    var j :| 0 <= j < |s| && Names(s)[j] == n;
    assert s[j] in s;
    var i :| 0 <= i < |rows| && rows[i] == s[j];
    assert Names(rows)[i] == n;
  }

  /** Every row is an income or an expense, so the two kinds' names make up all names. */
  lemma NamesByKind(rows: seq<Transaction>, n: string)
    ensures n in Names(rows) <==>
              n in Names(Select(rows, OfKind(Income))) || n in Names(Select(rows, OfKind(Expense)))
  {
    if n in Names(rows) {
      var i :| 0 <= i < |rows| && Names(rows)[i] == n;
      var part := Select(rows, OfKind(rows[i].kind));
      assert rows[i] in part;
      var j :| 0 <= j < |part| && part[j] == rows[i];
      assert Names(part)[j] == n;
    }
    if n in Names(Select(rows, OfKind(Income))) {
      NameOfSelected(rows, OfKind(Income), n);
    }
    if n in Names(Select(rows, OfKind(Expense))) {
      NameOfSelected(rows, OfKind(Expense), n);
    }
  }

  /** A month in which some selected row is dated is a month of some row. */
  lemma MonthOfSelected(rows: seq<Transaction>, q: Query, k: MonthKey)
    requires k in Months(Select(rows, q))
    ensures k in Months(rows)
  {
    var s := Select(rows, q);
    var j :| 0 <= j < |s| && Months(s)[j] == k;
    assert s[j] in s;
    var i :| 0 <= i < |rows| && rows[i] == s[j];
    assert Months(rows)[i] == k;
  }

  /** Every row is an income or an expense, so the two kinds' months make up all months. */
  lemma MonthsByKind(rows: seq<Transaction>, k: MonthKey)
    ensures k in Months(rows) <==>
              k in Months(Select(rows, OfKind(Income))) || k in Months(Select(rows, OfKind(Expense)))
  {
    if k in Months(rows) {
      var i :| 0 <= i < |rows| && Months(rows)[i] == k;
      var part := Select(rows, OfKind(rows[i].kind));
      assert rows[i] in part;
      var j :| 0 <= j < |part| && part[j] == rows[i];
      assert Months(part)[j] == k;
    }
    if k in Months(Select(rows, OfKind(Income))) {
      MonthOfSelected(rows, OfKind(Income), k);
    }
    if k in Months(Select(rows, OfKind(Expense))) {
      MonthOfSelected(rows, OfKind(Expense), k);
    }
  }

  /** The rows of one kind for which the interval filter holds. */
  function InPeriod(rows: seq<Transaction>, kind: Kind, start: DateTime, end: DateTime): seq<Transaction> {
    Select(Select(rows, OfKind(kind)), Between(start, end))
  }

  /** Filtering by two conditions that agree on every row gives the same rows. */
  lemma {:induction false} SelectSame(rows: seq<Transaction>, q1: Query, q2: Query)
    requires forall i :: 0 <= i < |rows| ==> (Matches(rows[i], q1) <==> Matches(rows[i], q2))
    ensures Select(rows, q1) == Select(rows, q2)
  {
    if |rows| > 0 {
      SelectSame(rows[..|rows| - 1], q1, q2);
    }
  }

  /**
   The interval `[first of month, first of next month)` selects exactly the
   rows whose month key is that month.
   */
  lemma MonthIntervalSelect(rows: seq<Transaction>, k: MonthKey)
    requires WellFormed(rows) && 1 <= k.month <= 12
    ensures Select(rows, Between(FirstOf(k), FirstOf(NextMonth(k)))) == Select(rows, InMonth(k))
  {
    forall i | 0 <= i < |rows|
      ensures Matches(rows[i], Between(FirstOf(k), FirstOf(NextMonth(k)))) <==> Matches(rows[i], InMonth(k))
    {
      InMonthInterval(rows[i].date, k);
    }
    SelectSame(rows, Between(FirstOf(k), FirstOf(NextMonth(k))), InMonth(k));
  }

  /**
   A total depends only on which rows occur and how often, not on their
   order.
   */
  lemma {:induction false} TotalMultiset(a: seq<Transaction>, b: seq<Transaction>)
    requires multiset(a) == multiset(b)
    ensures Total(a) == Total(b)
    decreases |a|
  {
    if |a| == 0 {
      assert |multiset(b)| == 0;
    } else {
      var x := a[|a| - 1];
      assert a == a[..|a| - 1] + [x];
      assert x in multiset(b);
      var i :| 0 <= i < |b| && b[i] == x;
      assert b == b[..i] + [x] + b[i + 1..];
      var rest := b[..i] + b[i + 1..];
      assert multiset(a) == multiset(a[..|a| - 1]) + multiset{x};
      assert multiset(b) == multiset(b[..i]) + multiset{x} + multiset(b[i + 1..]);
      assert multiset(rest) == multiset(b[..i]) + multiset(b[i + 1..]);
      assert multiset(a[..|a| - 1]) == multiset(a) - multiset{x};
      assert multiset(rest) == multiset(b) - multiset{x};
      TotalMultiset(a[..|a| - 1], rest);
      TotalAppend(b[..i], [x]);
      TotalAppend(b[..i] + [x], b[i + 1..]);
      TotalAppend(b[..i], b[i + 1..]);
    }
  }

  /** The total of two runs of rows is the sum of their totals. */
  lemma {:induction false} TotalAppend(a: seq<Transaction>, b: seq<Transaction>)
    ensures Total(a + b) == Total(a) + Total(b)
    decreases |b|
  {
    if |b| > 0 {
      assert (a + b)[..|a + b| - 1] == a + b[..|b| - 1];
      TotalAppend(a, b[..|b| - 1]);
    } else {
      assert a + b == a;
    }
  }
}
