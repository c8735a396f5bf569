/**
 `sorted(set(keys))` and `sorted(set(keys), reverse=True)` over month keys.
 The views sort `'%Y-%m'` strings; `MonthToken.FormatKeyOrder` shows that
 this is the chronological order of the months, which is the order used here.
 */
module MonthOrder {
  import opened Common
  import opened Calendar

  predicate Ascending(s: seq<MonthKey>) {
    forall i, j :: 0 <= i < j < |s| ==> KeyLess(s[i], s[j])
  }

  predicate Descending(s: seq<MonthKey>) {
    forall i, j :: 0 <= i < j < |s| ==> KeyLess(s[j], s[i])
  }

  /** Inserts a month into a strictly ascending sequence, keeping it so. */
  function Insert(s: seq<MonthKey>, k: MonthKey): (r: seq<MonthKey>)
    requires Ascending(s)
    ensures Ascending(r)
    ensures forall x :: x in r <==> x in s || x == k
  {
    if |s| == 0 then [k]
    else if s[0] == k then s
    else if KeyLess(k, s[0]) then [k] + s
    else
      var tail := Insert(s[1..], k);
      assert s == [s[0]] + s[1..];
      assert forall x :: x in s[1..] ==> KeyLess(s[0], x);
      assert KeyLess(s[0], k);
      assert forall x :: x in tail ==> KeyLess(s[0], x);
      [s[0]] + tail
  }

  /** The distinct months of `s` in ascending order (`sorted(set(s))`). */
  function SortUnique(s: seq<MonthKey>): (r: seq<MonthKey>)
    ensures Ascending(r)
    ensures forall x :: x in r <==> x in s
  {
    if |s| == 0 then []
    else
      assert forall x :: x in s <==> x in s[..|s| - 1] || x == s[|s| - 1];
      Insert(SortUnique(s[..|s| - 1]), s[|s| - 1])
  }

  /**
   A set of months has only one strictly ascending listing, so the result
   of `SortUnique` is determined by the set alone.
   */
  lemma {:induction false} AscendingUnique(a: seq<MonthKey>, b: seq<MonthKey>)
    requires Ascending(a) && Ascending(b) && forall x :: x in a <==> x in b
    ensures a == b
  {
    if |a| == 0 {
      assert Elements(b) == {};
      ElementsEmpty(b);
    } else if |b| == 0 {
      assert Elements(a) == {};
      ElementsEmpty(a);
    } else {
      AscendingHead(a);
      AscendingHead(b);
      assert a[0] in b && b[0] in a;
      AscendingUnique(a[1..], b[1..]);
      assert a == [a[0]] + a[1..] && b == [b[0]] + b[1..];
    }
  }

  /** The head of an ascending sequence is its least element, and the tail holds the rest. */
  lemma AscendingHead(a: seq<MonthKey>)
    requires Ascending(a) && |a| > 0
    ensures Ascending(a[1..])
    ensures forall x :: x in a ==> x == a[0] || KeyLess(a[0], x)
    ensures forall x :: x in a[1..] <==> x in a && x != a[0]
  {
    assert a == [a[0]] + a[1..];
    assert forall x :: x in a[1..] ==> KeyLess(a[0], x);
  }

  function Reverse(s: seq<MonthKey>): (r: seq<MonthKey>)
    ensures |r| == |s|
    ensures forall i :: 0 <= i < |s| ==> r[i] == s[|s| - 1 - i]
  {
    if |s| == 0 then [] else Reverse(s[1..]) + [s[0]]
  }

  /** `sorted(set(s), reverse=True)`. */
  function SortUniqueDescending(s: seq<MonthKey>): (r: seq<MonthKey>)
    ensures Descending(r)
    ensures forall x :: x in r <==> x in s
  {
    var up := SortUnique(s);
    var r := Reverse(up);
    forall x | x in up ensures x in r {
      var i :| 0 <= i < |up| && up[i] == x;
      assert r[|up| - 1 - i] == x;
    }
    r
  }
}
