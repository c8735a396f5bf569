/**
 The views' "group by a key into running totals" idiom:
 `d = defaultdict(float); for row in rows: d[key(row)] += amount(row)`.
 A Python dict remembers keys in first-insertion order, so the grouping is a
 sequence of buckets with distinct keys in that order. `d.get(k, 0)` reads a
 missing key as 0.
 */
module Grouping {
  import opened Common

  datatype Bucket<K> = Bucket(key: K, total: int)

  function Keys<K>(b: seq<Bucket<K>>): (r: seq<K>)
    ensures |r| == |b|
    ensures forall i :: 0 <= i < |b| ==> r[i] == b[i].key
  {
    if |b| == 0 then [] else [b[0].key] + Keys(b[1..])
  }

  function Totals<K>(b: seq<Bucket<K>>): (r: seq<int>)
    ensures |r| == |b|
    ensures forall i :: 0 <= i < |b| ==> r[i] == b[i].total
  {
    if |b| == 0 then [] else [b[0].total] + Totals(b[1..])
  }

  /** `d.get(k, 0)`. */
  function Get<K(==)>(b: seq<Bucket<K>>, k: K): (r: int)
    ensures k !in Keys(b) ==> r == 0
    ensures NoDups(Keys(b)) ==> forall i :: 0 <= i < |b| && b[i].key == k ==> r == b[i].total
  {
    if |b| == 0 then 0
    else if b[0].key == k then b[0].total
    else
      assert Keys(b) == [b[0].key] + Keys(b[1..]);
      assert NoDups(Keys(b)) ==> NoDups(Keys(b[1..]));
      Get(b[1..], k)
  }

  /** `d[k] += a`: an existing bucket grows, a new key is appended. */
  function Add<K(==)>(b: seq<Bucket<K>>, k: K, a: int): (r: seq<Bucket<K>>)
    requires NoDups(Keys(b))
    ensures NoDups(Keys(r))
    ensures Keys(r) == if k in Keys(b) then Keys(b) else Keys(b) + [k]
    ensures Sum(Totals(r)) == Sum(Totals(b)) + a
  {
    if |b| == 0 then
      [Bucket(k, a)]
    else if b[0].key == k then
      var r := [Bucket(k, b[0].total + a)] + b[1..];
      assert Keys(r) == Keys(b);
      assert Totals(b) == [b[0].total] + Totals(b[1..]);
      assert Totals(r) == [b[0].total + a] + Totals(b[1..]);
      r
    else
      assert Keys(b) == [b[0].key] + Keys(b[1..]);
      assert NoDups(Keys(b[1..]));
      var tail := Add(b[1..], k, a);
      var r := [b[0]] + tail;
      assert r[1..] == tail;
      assert Keys(r) == [b[0].key] + Keys(tail);
      assert Totals(r) == [b[0].total] + Totals(tail);
      assert Totals(b) == [b[0].total] + Totals(b[1..]);
      NoDupsCons(b[0].key, Keys(tail));
      NoDupsSnoc(Keys(b), k);
      r
  }

  lemma NoDupsCons<K>(x: K, s: seq<K>)
    requires NoDups(s) && x !in s
    ensures NoDups([x] + s)
  {
  }

  lemma NoDupsSnoc<K>(s: seq<K>, x: K)
    requires NoDups(s)
    ensures x !in s ==> NoDups(s + [x])
  {
  }

  /** After `d[k] += a`, key `k` reads `a` more and every other key is unchanged. */
  lemma {:induction false} AddGet<K>(b: seq<Bucket<K>>, k: K, a: int, j: K)
    requires NoDups(Keys(b))
    ensures Get(Add(b, k, a), j) == Get(b, j) + (if j == k then a else 0)
  {
    if |b| > 0 && b[0].key != k {
      assert Keys(b) == [b[0].key] + Keys(b[1..]);
      assert NoDups(Keys(b[1..]));
      AddGet(b[1..], k, a, j);
      assert Add(b, k, a)[1..] == Add(b[1..], k, a);
    }
  }

  /** The keys of a sequence of (key, amount) postings, in order. */
  function KeysOf<K>(p: seq<(K, int)>): seq<K> {
    if |p| == 0 then [] else KeysOf(p[..|p| - 1]) + [p[|p| - 1].0]
  }

  /** The sum of all posted amounts. */
  function AmountSum<K>(p: seq<(K, int)>): int {
    if |p| == 0 then 0 else AmountSum(p[..|p| - 1]) + p[|p| - 1].1
  }

  /** The sum of the amounts posted under key `k`. */
  function SumFor<K(==)>(p: seq<(K, int)>, k: K): int {
    if |p| == 0 then 0
    else SumFor(p[..|p| - 1], k) + (if p[|p| - 1].0 == k then p[|p| - 1].1 else 0)
  }

  /**
   The defaultdict after the loop over the postings: one bucket per distinct
   key in order of first appearance, each holding the sum posted under it;
   together they hold every posted amount.
   */
  function Group<K(==,!new)>(p: seq<(K, int)>): (r: seq<Bucket<K>>)
    ensures NoDups(Keys(r))
    ensures Keys(r) == Dedup(KeysOf(p))
    ensures forall k :: Get(r, k) == SumFor(p, k)
    ensures Sum(Totals(r)) == AmountSum(p)
  {
    if |p| == 0 then []
    else
      var prev := Group(p[..|p| - 1]);
      var (k, a) := p[|p| - 1];
      forall j ensures Get(Add(prev, k, a), j) == SumFor(p, j) {
        AddGet(prev, k, a, j);
      }
      Add(prev, k, a)
  }

  /** `[d.get(k, 0) for k in ks]`. */
  function Lookups<K(==)>(b: seq<Bucket<K>>, ks: seq<K>): (r: seq<int>)
    ensures |r| == |ks|
    ensures forall i :: 0 <= i < |ks| ==> r[i] == Get(b, ks[i])
  {
    if |ks| == 0 then [] else [Get(b, ks[0])] + Lookups(b, ks[1..])
  }

  /** Sum over `ks` of `v` where the element is `k`, else 0. */
  function HitSum<K(==)>(ks: seq<K>, k: K, v: int): int {
    if |ks| == 0 then 0 else (if ks[0] == k then v else 0) + HitSum(ks[1..], k, v)
  }

  lemma {:induction false} HitSumOnce<K>(ks: seq<K>, k: K, v: int)
    requires NoDups(ks)
    ensures HitSum(ks, k, v) == if k in ks then v else 0
  {
    if |ks| > 0 {
      assert NoDups(ks[1..]);
      HitSumOnce(ks[1..], k, v);
      assert k in ks <==> ks[0] == k || k in ks[1..];
      assert ks[0] == k ==> k !in ks[1..];
    }
  }

  lemma {:induction false} LookupsPeel<K>(b0: Bucket<K>, rest: seq<Bucket<K>>, ks: seq<K>)
    requires b0.key !in Keys(rest)
    ensures Sum(Lookups([b0] + rest, ks)) == Sum(Lookups(rest, ks)) + HitSum(ks, b0.key, b0.total)
  {
    if |ks| > 0 {
      LookupsPeel(b0, rest, ks[1..]);
      assert ([b0] + rest)[1..] == rest;
    }
  }

  /**
   Reading a grouping along any duplicate-free axis that covers its keys
   gives back all of its total: nothing is lost and nothing counted twice.
   */
  lemma {:induction false} LookupsSum<K>(b: seq<Bucket<K>>, ks: seq<K>)
    requires NoDups(Keys(b)) && NoDups(ks)
    requires forall k :: k in Keys(b) ==> k in ks
    ensures Sum(Lookups(b, ks)) == Sum(Totals(b))
  {
    if |b| == 0 {
      LookupsZero(b, ks);
    } else {
      var rest := b[1..];
      assert b == [b[0]] + rest;
      assert Keys(b) == [b[0].key] + Keys(rest);
      assert NoDups(Keys(rest));
      LookupsSum(rest, ks);
      LookupsPeel(b[0], rest, ks);
      HitSumOnce(ks, b[0].key, b[0].total);
      assert Totals(b) == [b[0].total] + Totals(rest);
    }
  }

  lemma {:induction false} LookupsZero<K>(b: seq<Bucket<K>>, ks: seq<K>)
    requires |b| == 0
    ensures Sum(Lookups(b, ks)) == 0
  {
    if |ks| > 0 {
      LookupsZero(b, ks[1..]);
    }
  }
}
