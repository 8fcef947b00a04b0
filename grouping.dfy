/** Sequence-level building blocks of the dashboards' loops and pandas/ORM
    pipelines: filter-and-append loops, counting, group-by sums, distinct values,
    key-ordered grouping, stable descending sorting and `head(n)`. */
module Grouping {
  import opened Strings

  // ---------------------------------------------------------------------------
  // Filter-and-append loops

  /** The outputs of f over s, in order, skipping the items f maps to None: the
      shape of every `for log in logs: ... rows.append(...)` loop. */
  function Collect<T, U>(s: seq<T>, f: T -> Option<U>): (r: seq<U>)
    ensures |r| <= |s|
  {
    if s == [] then [] else
      var last := s[|s| - 1];
      Collect(s[..|s| - 1], f) + (if f(last).Some? then [f(last).value] else [])
  }

  /** Collecting one more item of a prefix appends that item's output, if any. */
  lemma CollectStep<T, U>(s: seq<T>, i: nat, f: T -> Option<U>)
    requires i < |s|
    ensures Collect(s[..i + 1], f) == Collect(s[..i], f) + (if f(s[i]).Some? then [f(s[i]).value] else [])
  {
    assert s[..i + 1][..i] == s[..i];
  }

  /** Collecting over a concatenation collects each part in turn. */
  lemma {:induction false} CollectAppend<T, U>(a: seq<T>, b: seq<T>, f: T -> Option<U>)
    ensures Collect(a + b, f) == Collect(a, f) + Collect(b, f)
    decreases |b|
  {
    if b != [] {
      var b' := b[..|b| - 1];
      assert (a + b)[..|a + b| - 1] == a + b';
      assert (a + b)[|a + b| - 1] == b[|b| - 1];
      CollectAppend(a, b', f);
    } else {
      assert a + b == a;
    }
  }

  /** Every collected value comes from an item of s. */
  lemma {:induction false} CollectSound<T, U>(s: seq<T>, f: T -> Option<U>, y: U)
    requires y in Collect(s, f)
    ensures exists i :: 0 <= i < |s| && f(s[i]) == Some(y)
    decreases |s|
  {
    var s' := s[..|s| - 1];
    if y in Collect(s', f) {
      CollectSound(s', f, y);
      var i :| 0 <= i < |s'| && f(s'[i]) == Some(y);
      assert s[i] == s'[i];
    } else {
      assert f(s[|s| - 1]) == Some(y);
    }
  }

  /** Every item f keeps contributes its value. */
  lemma {:induction false} CollectComplete<T, U>(s: seq<T>, f: T -> Option<U>, i: nat)
    requires i < |s| && f(s[i]).Some?
    ensures f(s[i]).value in Collect(s, f)
    decreases |s|
  {
    if i < |s| - 1 {
      var s' := s[..|s| - 1];
      assert s'[i] == s[i];
      CollectComplete(s', f, i);
    }
  }

  // ---------------------------------------------------------------------------
  // Counting and summing

  /** Number of occurrences of x in s (`value_counts`, `Counter`, `Count(...)`). */
  function Count<T(==)>(s: seq<T>, x: T): (n: nat)
    ensures n <= |s|
    ensures n == 0 <==> x !in s
  {
    if s == [] then 0 else
      assert s == s[..|s| - 1] + [s[|s| - 1]];
      Count(s[..|s| - 1], x) + (if s[|s| - 1] == x then 1 else 0)
  }

  /** One row (x, 1) per item: a count is a sum of ones. */
  function Tally<T>(s: seq<T>): (r: seq<(T, int)>)
    ensures |r| == |s| && forall i :: 0 <= i < |s| ==> r[i] == (s[i], 1)
  {
    seq(|s|, i requires 0 <= i < |s| => (s[i], 1))
  }

  /** Sum of the amounts of all rows. */
  function Total<K>(rows: seq<(K, int)>): int
  {
    if rows == [] then 0 else Total(rows[..|rows| - 1]) + rows[|rows| - 1].1
  }

  /** Sum of the amounts of the rows with key k (`groupby(key).sum()` at k). */
  function SumFor<K(==)>(rows: seq<(K, int)>, k: K): int
  {
    if rows == [] then 0 else
      SumFor(rows[..|rows| - 1], k) + (if rows[|rows| - 1].0 == k then rows[|rows| - 1].1 else 0)
  }

  /** The rows with each key replaced by its image under f. */
  function Relabel<K, C>(rows: seq<(K, int)>, f: K -> C): (r: seq<(C, int)>)
    ensures |r| == |rows| && forall i :: 0 <= i < |rows| ==> r[i] == (f(rows[i].0), rows[i].1)
  {
    seq(|rows|, i requires 0 <= i < |rows| => (f(rows[i].0), rows[i].1))
  }

  /** One row per key of ks, in the order of ks, holding that key's sum. */
  function GroupSums<K(==)>(ks: seq<K>, rows: seq<(K, int)>): (g: seq<(K, int)>)
    ensures |g| == |ks| && forall i :: 0 <= i < |ks| ==> g[i] == (ks[i], SumFor(rows, ks[i]))
  {
    seq(|ks|, i requires 0 <= i < |ks| => (ks[i], SumFor(rows, ks[i])))
  }

  predicate NoDup<T(==)>(s: seq<T>)
  {
    forall i, j :: 0 <= i < j < |s| ==> s[i] != s[j]
  }

  /** Every key of rows occurs in ks. */
  predicate Covers<K(==)>(ks: seq<K>, rows: seq<(K, int)>)
  {
    forall i :: 0 <= i < |rows| ==> rows[i].0 in ks
  }

  lemma {:induction false} TotalAppend<K>(a: seq<(K, int)>, b: seq<(K, int)>)
    ensures Total(a + b) == Total(a) + Total(b)
    decreases |b|
  {
    if b != [] {
      assert (a + b)[..|a + b| - 1] == a + b[..|b| - 1];
      TotalAppend(a, b[..|b| - 1]);
    } else {
      assert a + b == a;
    }
  }

  /** Summing ones counts. */
  lemma {:induction false} SumForTally<T>(s: seq<T>, x: T)
    ensures SumFor(Tally(s), x) == Count(s, x)
    decreases |s|
  {
    if s != [] {
      assert Tally(s)[..|s| - 1] == Tally(s[..|s| - 1]);
      SumForTally(s[..|s| - 1], x);
    }
  }

  /** The ones of a tally add up to the number of items. */
  lemma {:induction false} TotalTally<T>(s: seq<T>)
    ensures Total(Tally(s)) == |s|
    decreases |s|
  {
    if s != [] {
      assert Tally(s)[..|s| - 1] == Tally(s[..|s| - 1]);
      TotalTally(s[..|s| - 1]);
    }
  }

  /** A key that labels no row sums to 0. */
  lemma {:induction false} SumForAbsent<K>(rows: seq<(K, int)>, k: K)
    requires forall i :: 0 <= i < |rows| ==> rows[i].0 != k
    ensures SumFor(rows, k) == 0
    decreases |rows|
  {
    if rows != [] {
      SumForAbsent(rows[..|rows| - 1], k);
    }
  }

  /** Sum over the keys in ks that f sends to c of the per-key sums of rows. */
  function CategorySum<K(==), C(==)>(ks: seq<K>, rows: seq<(K, int)>, f: K -> C, c: C): int
  {
    if ks == [] then 0 else
      CategorySum(ks[..|ks| - 1], rows, f, c) + (if f(ks[|ks| - 1]) == c then SumFor(rows, ks[|ks| - 1]) else 0)
  }

  lemma {:induction false} GroupedCategorySum<K, C>(ks: seq<K>, rows: seq<(K, int)>, f: K -> C, c: C)
    ensures SumFor(Relabel(GroupSums(ks, rows), f), c) == CategorySum(ks, rows, f, c)
    decreases |ks|
  {
    if ks != [] {
      var ks' := ks[..|ks| - 1];
      assert Relabel(GroupSums(ks, rows), f)[..|ks| - 1] == Relabel(GroupSums(ks', rows), f);
      GroupedCategorySum(ks', rows, f, c);
    }
  }

  lemma {:induction false} CategorySumNoRows<K, C>(ks: seq<K>, f: K -> C, c: C)
    ensures CategorySum(ks, [], f, c) == 0
    decreases |ks|
  {
    if ks != [] {
      CategorySumNoRows(ks[..|ks| - 1], f, c);
    }
  }

  lemma {:induction false} CategorySumSnoc<K, C>(ks: seq<K>, rows: seq<(K, int)>, k0: K, a: int, f: K -> C, c: C)
    requires NoDup(ks)
    ensures CategorySum(ks, rows + [(k0, a)], f, c)
            == CategorySum(ks, rows, f, c) + (if k0 in ks && f(k0) == c then a else 0)
    decreases |ks|
  {
    if ks != [] {
      var ks' := ks[..|ks| - 1];
      var kl := ks[|ks| - 1];
      assert ks == ks' + [kl];
      assert NoDup(ks');
      assert kl !in ks';
      assert (rows + [(k0, a)])[..|rows|] == rows;
      assert SumFor(rows + [(k0, a)], kl) == SumFor(rows, kl) + (if kl == k0 then a else 0);
      CategorySumSnoc(ks', rows, k0, a, f, c);
    }
  }

  lemma {:induction false} RelabelledSum<K, C>(ks: seq<K>, rows: seq<(K, int)>, f: K -> C, c: C)
    requires NoDup(ks) && Covers(ks, rows)
    ensures SumFor(Relabel(rows, f), c) == CategorySum(ks, rows, f, c)
    decreases |rows|
  {
    if rows == [] {
      CategorySumNoRows(ks, f, c);
    } else {
      var rows' := rows[..|rows| - 1];
      var r := rows[|rows| - 1];
      assert rows == rows' + [(r.0, r.1)];
      assert Relabel(rows, f)[..|rows| - 1] == Relabel(rows', f);
      RelabelledSum(ks, rows', f, c);
      CategorySumSnoc(ks, rows', r.0, r.1, f, c);
    }
  }

  /** Grouping first by key and then by category gives the same category sums
      as grouping by category directly (the two-stage ORM-then-pandas grouping). */
  lemma RegroupSums<K, C>(ks: seq<K>, rows: seq<(K, int)>, f: K -> C, c: C)
    requires NoDup(ks) && Covers(ks, rows)
    ensures SumFor(Relabel(GroupSums(ks, rows), f), c) == SumFor(Relabel(rows, f), c)
  {
    GroupedCategorySum(ks, rows, f, c);
    RelabelledSum(ks, rows, f, c);
  }

  lemma {:induction false} ConstantRelabel<K, C>(rows: seq<(K, int)>, f: K -> C, c: C)
    requires forall k :: f(k) == c
    ensures SumFor(Relabel(rows, f), c) == Total(rows)
    decreases |rows|
  {
    if rows != [] {
      assert Relabel(rows, f)[..|rows| - 1] == Relabel(rows[..|rows| - 1], f);
      ConstantRelabel(rows[..|rows| - 1], f, c);
    }
  }

  /** Grouping over keys that cover every row preserves the total. */
  lemma GroupTotal<K>(ks: seq<K>, rows: seq<(K, int)>)
    requires NoDup(ks) && Covers(ks, rows)
    ensures Total(GroupSums(ks, rows)) == Total(rows)
  {
    var f := (k: K) => 0;
    RegroupSums(ks, rows, f, 0);
    ConstantRelabel(GroupSums(ks, rows), f, 0);
    ConstantRelabel(rows, f, 0);
  }

  /** Relabelling keys keeps the total. */
  lemma RelabelTotal<K, C>(rows: seq<(K, int)>, f: K -> C)
    ensures Total(Relabel(rows, f)) == Total(rows)
  {
    var g := (k: C) => 0;
    var h := (k: K) => 0;
    ConstantRelabel(Relabel(rows, f), g, 0);
    assert Relabel(Relabel(rows, f), g) == Relabel(rows, h);
    ConstantRelabel(rows, h, 0);
  }

  // ---------------------------------------------------------------------------
  // Distinct values in first-occurrence order

  function Keys<K, V>(rows: seq<(K, V)>): (r: seq<K>)
    ensures |r| == |rows| && forall i :: 0 <= i < |rows| ==> r[i] == rows[i].0
  {
    seq(|rows|, i requires 0 <= i < |rows| => rows[i].0)
  }

  /** Index of the first occurrence of x in s, or |s| when x does not occur. */
  function Position<T(==)>(s: seq<T>, x: T): (i: nat)
    ensures i <= |s|
    ensures i < |s| <==> x in s
    ensures i < |s| ==> s[i] == x
    ensures forall j :: 0 <= j < i ==> s[j] != x
  {
    if s == [] then 0 else if s[0] == x then 0 else 1 + Position(s[1..], x)
  }

  lemma PositionPrefix<T>(s: seq<T>, m: nat, x: T)
    requires m <= |s| && x in s[..m]
    ensures Position(s, x) == Position(s[..m], x)
  {
    var p := Position(s[..m], x);
    assert s[p] == x;
    assert forall j :: 0 <= j < p ==> s[j] == s[..m][j];
  }

  /** The distinct items of s, in the order of their first occurrence (the key
      order of a `Counter` or of a dict filled in record order). */
  function Distinct<T(==, !new)>(s: seq<T>): (d: seq<T>)
    ensures NoDup(d)
    ensures forall x :: x in d <==> x in s
    ensures forall i, j :: 0 <= i < j < |d| ==> Position(s, d[i]) < Position(s, d[j])
    decreases |s|
  {
    if s == [] then [] else
      var s' := s[..|s| - 1];
      var d' := Distinct(s');
      var x := s[|s| - 1];
      assert s == s' + [x];
      DistinctFirstOccurrence(s, d');
      if x in d' then d' else d' + [x]
  }

  lemma DistinctFirstOccurrence<T>(s: seq<T>, d': seq<T>)
    requires s != []
    requires forall x :: x in d' <==> x in s[..|s| - 1]
    requires forall i :: 0 <= i < |d'| ==> Position(s[..|s| - 1], d'[i]) < |s| - 1
    ensures forall i :: 0 <= i < |d'| ==> Position(s, d'[i]) == Position(s[..|s| - 1], d'[i])
    ensures s[|s| - 1] !in d' ==> Position(s, s[|s| - 1]) == |s| - 1
  {
    forall i | 0 <= i < |d'|
      ensures Position(s, d'[i]) == Position(s[..|s| - 1], d'[i])
    {
      PositionPrefix(s, |s| - 1, d'[i]);
    }
  }

  // ---------------------------------------------------------------------------
  // Ascending integer keys (`order_by(key)`, `groupby` on an integer key)

  predicate Increasing(s: seq<int>)
  {
    forall i, j :: 0 <= i < j < |s| ==> s[i] < s[j]
  }

  function InsertAscending(s: seq<int>, x: int): (r: seq<int>)
    requires Increasing(s)
    ensures Increasing(r)
    ensures forall y :: y in r <==> y in s || y == x
  {
    if s == [] then [x]
    else if x < s[0] then
      AscendingCons(x, s);
      [x] + s
    else if x == s[0] then s
    else
      var r' := InsertAscending(s[1..], x);
      AscendingTail(s);
      assert x in r' && r'[0] in r';
      AscendingCons(s[0], r');
      [s[0]] + r'
  }

  /** A value below the head of an ascending sequence starts a longer one. */
  lemma AscendingCons(h: int, r: seq<int>)
    requires Increasing(r) && (r == [] || h < r[0])
    ensures Increasing([h] + r)
  {
    var s := [h] + r;
    forall i, j | 0 <= i < j < |s| ensures s[i] < s[j] {
      if i == 0 {
        assert s[j] == r[j - 1];
        assert r[0] <= r[j - 1];
      } else {
        assert s[i] == r[i - 1] && s[j] == r[j - 1];
      }
    }
  }

  /** The tail of an ascending sequence is ascending and above its head. */
  lemma AscendingTail(s: seq<int>)
    requires Increasing(s) && s != []
    ensures Increasing(s[1..]) && forall y :: y in s[1..] ==> s[0] < y
  {
    forall y | y in s[1..] ensures s[0] < y {
      var j :| 0 <= j < |s[1..]| && s[1..][j] == y;
      assert s[j + 1] == y;
    }
  }

  /** The distinct values of s in ascending order. */
  function SortedKeys(s: seq<int>): (r: seq<int>)
    ensures Increasing(r)
    ensures forall y :: y in r <==> y in s
  {
    if s == [] then [] else
      assert s == s[..|s| - 1] + [s[|s| - 1]];
      InsertAscending(SortedKeys(s[..|s| - 1]), s[|s| - 1])
  }

  lemma IncreasingNoDup(s: seq<int>)
    requires Increasing(s)
    ensures NoDup(s)
  {
  }

  /** Rows grouped by integer key, one row per key that occurs, ascending by key:
      `values(key).annotate(...).order_by(key)` or `groupby(key).sum()`. */
  function GroupByKey(rows: seq<(int, int)>): (g: seq<(int, int)>)
  {
    GroupSums(SortedKeys(Keys(rows)), rows)
  }

  /** The grouped table is ascending by key, has one row per key that occurs
      and no other, holds each key's sum, and keeps the total. */
  lemma GroupByKeyFacts(rows: seq<(int, int)>)
    ensures var g := GroupByKey(rows);
      Increasing(Keys(g))
      && (forall k :: k in Keys(g) <==> k in Keys(rows))
      && (forall i :: 0 <= i < |g| ==> g[i].1 == SumFor(rows, g[i].0))
      && Total(g) == Total(rows)
  {
    var ks := SortedKeys(Keys(rows));
    assert Keys(GroupByKey(rows)) == ks;
    IncreasingNoDup(ks);
    GroupTotal(ks, rows);
  }

  /** `values(key).annotate(count=Count('id')).order_by(key)`: one row per
      key that occurs, ascending, with its number of occurrences. */
  function CountByKey(keys: seq<int>): seq<(int, int)>
  {
    GroupByKey(Tally(keys))
  }

  /** The counted table is ascending by key, has a row exactly for each key
      that occurs, each with its positive number of occurrences, and the
      counts add up to the number of keys. */
  lemma CountByKeyFacts(keys: seq<int>)
    ensures var g := CountByKey(keys);
      Increasing(Keys(g))
      && (forall k :: k in Keys(g) <==> k in keys)
      && (forall i :: 0 <= i < |g| ==> g[i].1 == Count(keys, g[i].0) > 0)
      && Total(g) == |keys|
      && (g == [] <==> keys == [])
  {
    var g := CountByKey(keys);
    CountByKeyKeys(keys);
    CountByKeyCounts(keys);
    assert forall k :: k in Keys(g) <==> k in keys;
    if keys != [] {
      assert keys[0] in keys;
      assert keys[0] in Keys(g);
    } else {
      assert Total(g) == 0;
    }
  }

  lemma CountByKeyKeys(keys: seq<int>)
    ensures var g := CountByKey(keys);
      Increasing(Keys(g)) && (forall k :: k in Keys(g) <==> k in keys) && Total(g) == |keys|
  {
    var t := Tally(keys);
    GroupByKeyFacts(t);
    assert Keys(t) == keys;
    TotalTally(keys);
  }

  lemma CountByKeyCounts(keys: seq<int>)
    ensures var g := CountByKey(keys);
      forall i :: 0 <= i < |g| ==> g[i].1 == Count(keys, g[i].0) > 0
  {
    var g := CountByKey(keys);
    var t := Tally(keys);
    GroupByKeyFacts(t);
    assert Keys(t) == keys;
    forall i | 0 <= i < |g| ensures g[i].1 == Count(keys, g[i].0) > 0 {
      SumForTally(keys, g[i].0);
      assert Keys(g)[i] == g[i].0;
      assert g[i].0 in Keys(g);
    }
  }

  /** Grouping non-empty positive amounts gives at least one group and keeps
      the positive total. */
  lemma GroupByKeyPositive(rows: seq<(int, int)>)
    requires rows != [] && forall i :: 0 <= i < |rows| ==> rows[i].1 > 0
    ensures var g := GroupByKey(rows); |g| > 0 && Total(g) == Total(rows) && Total(rows) > 0
  {
    var g := GroupByKey(rows);
    GroupByKeyFacts(rows);
    assert Keys(rows)[0] == rows[0].0;
    assert rows[0].0 in Keys(g);
    SumForBounds(rows, rows[0].0);
  }

  // ---------------------------------------------------------------------------
  // Stable descending sort and head(n)

  predicate Descending<K>(rows: seq<(K, int)>)
  {
    forall i, j :: 0 <= i < j < |rows| ==> rows[i].1 >= rows[j].1
  }

  /** The rows whose amount is v, in their order. */
  function WithAmount<K>(rows: seq<(K, int)>, v: int): seq<(K, int)>
  {
    if rows == [] then [] else
      WithAmount(rows[..|rows| - 1], v) + (if rows[|rows| - 1].1 == v then [rows[|rows| - 1]] else [])
  }

  lemma {:induction false} WithAmountAppend<K>(a: seq<(K, int)>, b: seq<(K, int)>, v: int)
    ensures WithAmount(a + b, v) == WithAmount(a, v) + WithAmount(b, v)
    decreases |b|
  {
    if b != [] {
      assert (a + b)[..|a + b| - 1] == a + b[..|b| - 1];
      WithAmountAppend(a, b[..|b| - 1], v);
    } else {
      assert a + b == a;
    }
  }

  /** Where x goes among the rows of s: after the last row, scanning back from
      the end, whose amount is at least x's. */
  function InsertionPoint<K>(s: seq<(K, int)>, x: (K, int)): (k: nat)
    ensures k <= |s|
    ensures k == 0 || s[k - 1].1 >= x.1
    ensures forall i :: k <= i < |s| ==> s[i].1 < x.1
  {
    if s == [] || s[|s| - 1].1 >= x.1 then |s| else InsertionPoint(s[..|s| - 1], x)
  }

  /** x placed after every row whose amount is at least x's. */
  function InsertDescending<K>(s: seq<(K, int)>, x: (K, int)): (r: seq<(K, int)>)
    ensures multiset(r) == multiset(s) + multiset{x}
  {
    var k := InsertionPoint(s, x);
    assert s == s[..k] + s[k..];
    s[..k] + [x] + s[k..]
  }

  /** Row i of s with x inserted at position k. */
  function Placed<K>(s: seq<(K, int)>, x: (K, int), k: nat, i: nat): (K, int)
    requires k <= |s| && i <= |s|
  {
    if i < k then s[i] else if i == k then x else s[i - 1]
  }

  lemma InsertedAt<K>(s: seq<(K, int)>, x: (K, int), i: nat)
    requires i <= |s|
    ensures InsertDescending(s, x)[i] == Placed(s, x, InsertionPoint(s, x), i)
  {
  }

  lemma PlacedPair<K>(s: seq<(K, int)>, x: (K, int), k: nat, i: nat, j: nat)
    requires Descending(s) && k <= |s| && i < j <= |s|
    requires k == 0 || s[k - 1].1 >= x.1
    requires forall m :: k <= m < |s| ==> s[m].1 < x.1
    ensures Placed(s, x, k, i).1 >= Placed(s, x, k, j).1
  {
    if i < k && k <= j {
      assert s[i].1 >= s[k - 1].1;
    }
  }

  lemma InsertDescendingSorted<K>(s: seq<(K, int)>, x: (K, int))
    requires Descending(s)
    ensures Descending(InsertDescending(s, x))
  {
    forall i, j | 0 <= i < j < |InsertDescending(s, x)|
      ensures InsertDescending(s, x)[i].1 >= InsertDescending(s, x)[j].1
    {
      InsertedAt(s, x, i);
      InsertedAt(s, x, j);
      PlacedPair(s, x, InsertionPoint(s, x), i, j);
    }
  }

  lemma {:induction false} WithAmountNone<K>(s: seq<(K, int)>, v: int)
    requires forall i :: 0 <= i < |s| ==> s[i].1 != v
    ensures WithAmount(s, v) == []
    decreases |s|
  {
    if s != [] {
      WithAmountNone(s[..|s| - 1], v);
    }
  }

  lemma InsertDescendingStable<K>(s: seq<(K, int)>, x: (K, int), v: int)
    ensures WithAmount(InsertDescending(s, x), v) == WithAmount(s, v) + (if x.1 == v then [x] else [])
  {
    var k := InsertionPoint(s, x);
    var front, back := s[..k], s[k..];
    assert s == front + back;
    assert InsertDescending(s, x) == (front + [x]) + back;
    WithAmountAppend(front + [x], back, v);
    WithAmountAppend(front, [x], v);
    WithAmountAppend(front, back, v);
    assert WithAmount([x], v) == WithAmount([x][..0], v) + (if x.1 == v then [x] else []);
    if x.1 == v {
      WithAmountNone(back, v);
    }
  }

  /** Insertion sort by amount, largest first, keeping the input order among
      equal amounts. */
  function SortDescending<K>(rows: seq<(K, int)>): (r: seq<(K, int)>)
    ensures multiset(r) == multiset(rows)
    ensures Descending(r)
    decreases |rows|
  {
    if rows == [] then [] else
      var s := SortDescending(rows[..|rows| - 1]);
      assert rows == rows[..|rows| - 1] + [rows[|rows| - 1]];
      InsertDescendingSorted(s, rows[|rows| - 1]);
      InsertDescending(s, rows[|rows| - 1])
  }

  /** Sorting keeps, for every amount, the rows with that amount in input order. */
  lemma {:induction false} SortDescendingStable<K>(rows: seq<(K, int)>, v: int)
    ensures WithAmount(SortDescending(rows), v) == WithAmount(rows, v)
    decreases |rows|
  {
    if rows != [] {
      var rows' := rows[..|rows| - 1];
      var x := rows[|rows| - 1];
      SortDescendingStable(rows', v);
      InsertDescendingStable(SortDescending(rows'), x, v);
    }
  }

  lemma InsertDescendingTotal<K>(s: seq<(K, int)>, x: (K, int))
    ensures Total(InsertDescending(s, x)) == Total(s) + x.1
  {
    var k := InsertionPoint(s, x);
    assert s == s[..k] + s[k..];
    TotalAppend(s[..k] + [x], s[k..]);
    TotalAppend(s[..k], [x]);
    TotalAppend(s[..k], s[k..]);
    assert Total([x]) == Total([x][..0]) + x.1;
  }

  /** Sorting keeps the total. */
  lemma {:induction false} SortDescendingTotal<K>(rows: seq<(K, int)>)
    ensures Total(SortDescending(rows)) == Total(rows)
    decreases |rows|
  {
    if rows != [] {
      SortDescendingTotal(rows[..|rows| - 1]);
      InsertDescendingTotal(SortDescending(rows[..|rows| - 1]), rows[|rows| - 1]);
    }
  }

  /** `head(n)`, `[:n]`, `most_common(n)`: the first n rows, or all of them. */
  function Take<T>(s: seq<T>, n: nat): (r: seq<T>)
    ensures |r| == if |s| < n then |s| else n
    ensures r == s[..|r|]
  {
    if |s| <= n then s else s[..n]
  }

  /** A sorted table cut to its first n rows: at most n rows kept, each at least as
      large as every row dropped. */
  lemma TakeOfSorted<K>(s: seq<(K, int)>, n: nat)
    requires Descending(s)
    ensures Descending(Take(s, n))
    ensures forall i, j :: 0 <= i < |Take(s, n)| <= j < |s| ==> Take(s, n)[i].1 >= s[j].1
  {
  }

  // ---------------------------------------------------------------------------
  // Counts over a list of keys

  /** Counting one more item adds one to its own count only. */
  lemma CountSnoc<T>(s: seq<T>, x: T, c: T)
    ensures Count(s + [x], c) == Count(s, c) + (if x == c then 1 else 0)
  {
    assert (s + [x])[..|s|] == s;
  }

  /** Two sequences that hold their sought values at the same positions
      count them equally often. */
  lemma {:induction false} CountAlike<T, U>(s: seq<T>, x: T, r: seq<U>, y: U)
    requires |s| == |r| && forall i :: 0 <= i < |s| ==> (s[i] == x <==> r[i] == y)
    ensures Count(s, x) == Count(r, y)
    decreases |s|
  {
    if s != [] {
      var n := |s| - 1;
      CountAlike(s[..n], x, r[..n], y);
      assert s == s[..n] + [s[n]] && r == r[..n] + [r[n]];
      CountSnoc(s[..n], s[n], x);
      CountSnoc(r[..n], r[n], y);
    }
  }

  /** Sum over keys of the number of times each occurs in s. */
  function CountAll<T(==)>(s: seq<T>, keys: seq<T>): int
  {
    if keys == [] then 0 else CountAll(s, keys[..|keys| - 1]) + Count(s, keys[|keys| - 1])
  }

  /** Adding an item to s adds to the sum over keys the number of keys equal
      to it. */
  lemma {:induction false} CountAllSnoc<T>(s: seq<T>, x: T, keys: seq<T>)
    requires NoDup(keys)
    ensures CountAll(s + [x], keys) == CountAll(s, keys) + (if x in keys then 1 else 0)
    decreases |keys|
  {
    if keys != [] {
      var keys' := keys[..|keys| - 1];
      assert NoDup(keys');
      CountAllSnoc(s, x, keys');
      CountSnoc(s, x, keys[|keys| - 1]);
      assert keys == keys' + [keys[|keys| - 1]];
    }
  }

  /** When every item of s is one of the distinct keys, the counts of the
      keys add up to |s|. */
  lemma {:induction false} CountAllLength<T>(s: seq<T>, keys: seq<T>)
    requires NoDup(keys) && forall i :: 0 <= i < |s| ==> s[i] in keys
    ensures CountAll(s, keys) == |s|
    decreases |s|
  {
    if s == [] {
      CountAllEmpty<T>(keys);
    } else {
      var s' := s[..|s| - 1];
      assert forall i :: 0 <= i < |s'| ==> s'[i] == s[i];
      CountAllLength(s', keys);
      assert s == s' + [s[|s| - 1]];
      CountAllSnoc(s', s[|s| - 1], keys);
    }
  }

  lemma {:induction false} CountAllEmpty<T>(keys: seq<T>)
    ensures CountAll([], keys) == 0
    decreases |keys|
  {
    if keys != [] {
      CountAllEmpty(keys[..|keys| - 1]);
    }
  }

  // ---------------------------------------------------------------------------
  // Most common values

  lemma {:induction false} MultisetCount<T>(s: seq<T>, x: T)
    ensures multiset(s)[x] == Count(s, x)
    decreases |s|
  {
    if s != [] {
      assert s == s[..|s| - 1] + [s[|s| - 1]];
      MultisetCount(s[..|s| - 1], x);
    }
  }

  lemma {:induction false} CountTwo<T>(s: seq<T>, i: nat, j: nat)
    requires i < j < |s| && s[i] == s[j]
    ensures Count(s, s[i]) >= 2
    decreases |s|
  {
    var s' := s[..|s| - 1];
    if j < |s| - 1 {
      assert s'[i] == s[i] && s'[j] == s[j];
      CountTwo(s', i, j);
    } else {
      assert s'[i] == s[i];
    }
  }

  lemma {:induction false} NoDupCount<T>(s: seq<T>, x: T)
    requires NoDup(s)
    ensures Count(s, x) <= 1
    decreases |s|
  {
    if s != [] {
      var s' := s[..|s| - 1];
      NoDupCount(s', x);
    }
  }

  /** A rearrangement of rows with distinct keys has distinct keys. */
  lemma PermutationKeys<K>(a: seq<(K, int)>, b: seq<(K, int)>, f: K -> int)
    requires multiset(a) == multiset(b) && NoDup(Keys(a))
    requires forall i :: 0 <= i < |a| ==> a[i].1 == f(a[i].0)
    ensures NoDup(Keys(b))
    ensures forall i :: 0 <= i < |b| ==> b[i] in a
  {
    forall i | 0 <= i < |b| ensures b[i] in a {
      assert b[i] in multiset(b);
    }
    assert NoDup(a) by {
      forall i, j | 0 <= i < j < |a| ensures a[i] != a[j] {
        assert Keys(a)[i] != Keys(a)[j];
      }
    }
    forall i, j | 0 <= i < j < |b| ensures Keys(b)[i] != Keys(b)[j] {
      if b[i].0 == b[j].0 {
        var p :| 0 <= p < |a| && a[p] == b[i];
        var q :| 0 <= q < |a| && a[q] == b[j];
        assert b[i] == b[j];
        CountTwo(b, i, j);
        MultisetCount(b, b[i]);
        MultisetCount(a, b[i]);
        NoDupCount(a, b[i]);
      }
    }
  }

  /** `Counter(s).most_common(n)`: the n most frequent values with their counts,
      largest first, ties in first-occurrence order. */
  function MostCommon<T(==, !new)>(s: seq<T>, n: nat): seq<(T, int)>
  {
    Take(SortDescending(GroupSums(Distinct(s), Tally(s))), n)
  }

  lemma GroupSumsTally<T(!new)>(s: seq<T>)
    ensures var g := GroupSums(Distinct(s), Tally(s));
      NoDup(Keys(g)) && (forall i :: 0 <= i < |g| ==> g[i].0 in s && g[i].1 == Count(s, g[i].0))
      && forall x :: x in s ==> (x, Count(s, x)) in g
  {
    var d := Distinct(s);
    var g := GroupSums(d, Tally(s));
    assert Keys(g) == d;
    forall i | 0 <= i < |g| ensures g[i].1 == Count(s, g[i].0) {
      SumForTally(s, g[i].0);
    }
    forall x | x in s ensures (x, Count(s, x)) in g {
      var i :| 0 <= i < |d| && d[i] == x;
      assert g[i] == (x, Count(s, x));
    }
  }

  lemma TakeKeys<K>(sorted: seq<(K, int)>, n: nat)
    requires NoDup(Keys(sorted))
    ensures NoDup(Keys(Take(sorted, n)))
    ensures forall i :: 0 <= i < |Take(sorted, n)| ==> Take(sorted, n)[i] == sorted[i]
  {
    assert Keys(Take(sorted, n)) == Keys(sorted)[..|Take(sorted, n)|];
  }

  /** A row of a descending table is either kept by `head(n)` or no larger
      than every row kept; nothing is dropped when fewer than n are kept. */
  lemma TakeCut<K>(sorted: seq<(K, int)>, n: nat, x: (K, int))
    requires Descending(sorted) && x in sorted
    ensures var t := Take(sorted, n);
      (x in t || forall i :: 0 <= i < |t| ==> t[i].1 >= x.1) && (|t| < n ==> x in t)
  {
    var j :| 0 <= j < |sorted| && sorted[j] == x;
    var t := Take(sorted, n);
    if j < |t| {
      assert t[j] == x;
    }
  }

  /** At most n values, each with its number of occurrences, largest first, no
      value twice. */
  lemma MostCommonRows<T(!new)>(s: seq<T>, n: nat)
    ensures var r := MostCommon(s, n);
      |r| <= n && Descending(r) && NoDup(Keys(r))
      && forall i :: 0 <= i < |r| ==> r[i].0 in s && r[i].1 == Count(s, r[i].0)
  {
    var g := GroupSums(Distinct(s), Tally(s));
    var sorted := SortDescending(g);
    GroupSumsTally(s);
    PermutationKeys(g, sorted, k => Count(s, k));
    TakeOfSorted(sorted, n);
    TakeKeys(sorted, n);
  }

  /** A value left out occurs no more often than any value listed, and when
      fewer than n are listed every value is. */
  lemma MostCommonCut<T(!new)>(s: seq<T>, n: nat, x: T)
    requires x in s
    ensures var r := MostCommon(s, n);
      (x in Keys(r) || forall i :: 0 <= i < |r| ==> r[i].1 >= Count(s, x))
      && (|r| < n ==> x in Keys(r))
  {
    var g := GroupSums(Distinct(s), Tally(s));
    var sorted := SortDescending(g);
    GroupSumsTally(s);
    assert (x, Count(s, x)) in multiset(sorted);
    TakeCut(sorted, n, (x, Count(s, x)));
    var r := MostCommon(s, n);
    if (x, Count(s, x)) in r {
      var i :| 0 <= i < |r| && r[i] == (x, Count(s, x));
      assert Keys(r)[i] == x;
    }
  }

  /** Counting the items of vn for each distinct item of all: one row per
      item of all, holding its count in vn. */
  lemma GroupedCounts<T(!new)>(all: seq<T>, vn: seq<T>)
    ensures var g := GroupSums(Distinct(all), Tally(vn));
      NoDup(Keys(g))
      && (forall i :: 0 <= i < |g| ==> g[i].0 in all && g[i].1 == Count(vn, g[i].0))
      && forall x :: x in all ==> (x, Count(vn, x)) in g
  {
    var d := Distinct(all);
    var g := GroupSums(d, Tally(vn));
    assert Keys(g) == d;
    forall i | 0 <= i < |g| ensures g[i].1 == Count(vn, g[i].0) {
      SumForTally(vn, g[i].0);
    }
    forall x | x in all ensures (x, Count(vn, x)) in g {
      var i :| 0 <= i < |d| && d[i] == x;
      SumForTally(vn, x);
      assert g[i] == (x, Count(vn, x));
    }
  }

  /** The same rows sorted by count, largest first. */
  lemma RankedCounts<T(!new)>(all: seq<T>, vn: seq<T>)
    ensures var r := SortDescending(GroupSums(Distinct(all), Tally(vn)));
      |r| == |Distinct(all)| && Descending(r) && NoDup(Keys(r))
      && (forall i :: 0 <= i < |r| ==> r[i].0 in all && r[i].1 == Count(vn, r[i].0))
      && forall x :: x in all ==> (x, Count(vn, x)) in r
  {
    var g := GroupSums(Distinct(all), Tally(vn));
    var r := SortDescending(g);
    GroupedCounts(all, vn);
    assert |g| == |Distinct(all)|;
    CountRowsRearranged(all, vn, g, r);
  }

  /** A rearrangement of count rows keeps their facts. */
  lemma CountRowsRearranged<T>(all: seq<T>, vn: seq<T>, g: seq<(T, int)>, r: seq<(T, int)>)
    requires multiset(g) == multiset(r) && NoDup(Keys(g))
    requires forall i :: 0 <= i < |g| ==> g[i].0 in all && g[i].1 == Count(vn, g[i].0)
    requires forall x :: x in all ==> (x, Count(vn, x)) in g
    ensures |r| == |g| && NoDup(Keys(r))
    ensures forall i :: 0 <= i < |r| ==> r[i].0 in all && r[i].1 == Count(vn, r[i].0)
    ensures forall x :: x in all ==> (x, Count(vn, x)) in r
  {
    PermutationKeys(g, r, k => Count(vn, k));
    SameRows(g, r);
    forall i | 0 <= i < |r| ensures r[i].0 in all && r[i].1 == Count(vn, r[i].0) {
      var j :| 0 <= j < |g| && g[j] == r[i];
    }
  }

  /** A rearrangement has the same length and the same rows. */
  lemma SameRows<K>(g: seq<(K, int)>, r: seq<(K, int)>)
    requires multiset(g) == multiset(r)
    ensures |r| == |g| && forall x :: x in g ==> x in r
  {
    assert |multiset(r)| == |multiset(g)|;
    forall x | x in g ensures x in r {
      assert x in multiset(g);
    }
  }

  /** Among values with the same count, the order is that of first occurrence. */
  lemma MostCommonTies<T(!new)>(s: seq<T>, v: int)
    ensures WithAmount(SortDescending(GroupSums(Distinct(s), Tally(s))), v)
            == WithAmount(GroupSums(Distinct(s), Tally(s)), v)
  {
    SortDescendingStable(GroupSums(Distinct(s), Tally(s)), v);
  }

  // ---------------------------------------------------------------------------
  // Grouping by the keys that occur

  /** `groupby(key).sum()`: one row per key that occurs, in first-occurrence
      order. */
  function GroupFirst<K(==, !new)>(rows: seq<(K, int)>): seq<(K, int)>
  {
    GroupSums(Distinct(Keys(rows)), rows)
  }

  /** The grouped rows hold each key that occurs once and no other, each with
      its sum, and keep the total. */
  lemma GroupFirstFacts<K(!new)>(rows: seq<(K, int)>)
    ensures var g := GroupFirst(rows);
      NoDup(Keys(g)) && (forall k :: k in Keys(g) <==> k in Keys(rows))
      && (forall i :: 0 <= i < |g| ==> g[i].1 == SumFor(rows, g[i].0))
      && Total(g) == Total(rows)
  {
    var ks := Distinct(Keys(rows));
    assert Keys(GroupFirst(rows)) == ks;
    forall i | 0 <= i < |rows| ensures rows[i].0 in ks {
      assert Keys(rows)[i] == rows[i].0;
    }
    GroupTotal(ks, rows);
  }

  /** Reordering rows keeps the set of keys. */
  lemma PermutedKeys<K>(g: seq<(K, int)>, t: seq<(K, int)>)
    requires multiset(g) == multiset(t)
    ensures forall k :: k in Keys(t) <==> k in Keys(g)
  {
    forall k ensures k in Keys(t) <==> k in Keys(g) {
      if k in Keys(g) {
        var i :| 0 <= i < |g| && Keys(g)[i] == k;
        assert g[i] in multiset(t);
        var j :| 0 <= j < |t| && t[j] == g[i];
        assert Keys(t)[j] == k;
      }
      if k in Keys(t) {
        var j :| 0 <= j < |t| && Keys(t)[j] == k;
        assert t[j] in multiset(g);
        var i :| 0 <= i < |g| && g[i] == t[j];
        assert Keys(g)[i] == k;
      }
    }
  }

  /** With positive amounts, a key's sum is at most the total, and positive
      when the key occurs. */
  lemma {:induction false} SumForBounds<K>(rows: seq<(K, int)>, k: K)
    requires forall i :: 0 <= i < |rows| ==> rows[i].1 > 0
    ensures 0 <= SumFor(rows, k) <= Total(rows)
    ensures k in Keys(rows) ==> SumFor(rows, k) > 0
    decreases |rows|
  {
    if rows != [] {
      var rows' := rows[..|rows| - 1];
      SumForBounds(rows', k);
      assert Keys(rows) == Keys(rows') + [rows[|rows| - 1].0];
    }
  }

  /** When every amount of a key lies between lo and hi, the key's sum lies
      between lo and hi times the key's number of rows. */
  lemma {:induction false} SumForBetween<K>(rows: seq<(K, int)>, k: K, lo: int, hi: int)
    requires forall i :: 0 <= i < |rows| && rows[i].0 == k ==> lo <= rows[i].1 <= hi
    ensures lo * Count(Keys(rows), k) <= SumFor(rows, k) <= hi * Count(Keys(rows), k)
    decreases |rows|
  {
    if rows != [] {
      var rows' := rows[..|rows| - 1];
      var last := rows[|rows| - 1];
      SumForBetween(rows', k, lo, hi);
      assert Keys(rows) == Keys(rows') + [last.0];
      CountSnoc(Keys(rows'), last.0, k);
      var n := Count(Keys(rows'), k);
      if last.0 == k {
        assert SumFor(rows, k) == SumFor(rows', k) + last.1;
        assert Count(Keys(rows), k) == n + 1;
        MulSucc(lo, n);
        MulSucc(hi, n);
      } else {
        assert SumFor(rows, k) == SumFor(rows', k);
        assert Count(Keys(rows), k) == n;
      }
    }
  }

  lemma MulSucc(a: int, n: int)
    ensures a * (n + 1) == a * n + a
  {
  }

  /** Two tables with the same amounts row by row have the same total. */
  lemma {:induction false} SameTotal<K, L>(a: seq<(K, int)>, b: seq<(L, int)>)
    requires |a| == |b| && forall i :: 0 <= i < |a| ==> a[i].1 == b[i].1
    ensures Total(a) == Total(b)
    decreases |a|
  {
    if a != [] {
      SameTotal(a[..|a| - 1], b[..|b| - 1]);
    }
  }

  /** Every group key of `GroupByKey` is a key of the rows. */
  lemma GroupByKeyOccurs(rows: seq<(int, int)>)
    ensures forall i :: 0 <= i < |GroupByKey(rows)| ==> GroupByKey(rows)[i].0 in Keys(rows)
  {
    var g := GroupByKey(rows);
    GroupByKeyFacts(rows);
    forall i | 0 <= i < |g| ensures g[i].0 in Keys(rows) {
      assert Keys(g)[i] == g[i].0;
    }
  }

  /** Grouping by key and then relabelling the groups gives each label the
      same sum as relabelling the rows directly. */
  lemma RegroupFirst<K(!new), C>(rows: seq<(K, int)>, f: K -> C, c: C)
    ensures SumFor(Relabel(GroupFirst(rows), f), c) == SumFor(Relabel(rows, f), c)
  {
    var ks := Distinct(Keys(rows));
    forall i | 0 <= i < |rows| ensures rows[i].0 in ks {
      assert Keys(rows)[i] == rows[i].0;
    }
    RegroupSums(ks, rows, f, c);
  }

  /** A label occurs among the relabelled groups exactly when it occurs among
      the relabelled rows. */
  lemma RelabelFirstKeys<K(!new), C>(rows: seq<(K, int)>, f: K -> C, c: C)
    ensures c in Keys(Relabel(GroupFirst(rows), f)) <==> c in Keys(Relabel(rows, f))
  {
    var g := GroupFirst(rows);
    GroupFirstFacts(rows);
    if c in Keys(Relabel(g, f)) {
      var i :| 0 <= i < |g| && Keys(Relabel(g, f))[i] == c;
      assert g[i].0 in Keys(g);
      var j :| 0 <= j < |rows| && Keys(rows)[j] == g[i].0;
      assert Keys(Relabel(rows, f))[j] == c;
    }
    if c in Keys(Relabel(rows, f)) {
      var j :| 0 <= j < |rows| && Keys(Relabel(rows, f))[j] == c;
      assert rows[j].0 in Keys(rows);
      var i :| 0 <= i < |g| && Keys(g)[i] == rows[j].0;
      assert Keys(Relabel(g, f))[i] == c;
    }
  }

  /** `groupby(key).sum().sort_values(ascending=False)`. */
  function RankedGroups<K(==, !new)>(rows: seq<(K, int)>): seq<(K, int)>
  {
    SortDescending(GroupFirst(rows))
  }

  /** The ranked table is largest first, holds each key that occurs once and no
      other, each with its sum, and keeps the total. */
  lemma RankedGroupsFacts<K(!new)>(rows: seq<(K, int)>)
    ensures var t := RankedGroups(rows);
      Descending(t) && NoDup(Keys(t)) && (forall k :: k in Keys(t) <==> k in Keys(rows))
      && (forall i :: 0 <= i < |t| ==> t[i].1 == SumFor(rows, t[i].0))
      && Total(t) == Total(rows)
  {
    var g := GroupFirst(rows);
    var t := SortDescending(g);
    GroupFirstFacts(rows);
    PermutationKeys(g, t, k => SumFor(rows, k));
    SortDescendingTotal(g);
    PermutedKeys(g, t);
    forall i | 0 <= i < |t| ensures t[i].1 == SumFor(rows, t[i].0) {
      assert t[i] in g;
    }
  }

  // ---------------------------------------------------------------------------
  // Numbers of distinct values

  lemma {:induction false} NoDupCard<T>(s: seq<T>)
    requires NoDup(s)
    ensures |set x | x in s| == |s|
    decreases |s|
  {
    if s != [] {
      var s' := s[..|s| - 1];
      var x := s[|s| - 1];
      assert NoDup(s');
      NoDupCard(s');
      assert (set y | y in s) == (set y | y in s') + {x};
      assert x !in (set y | y in s');
    }
  }

  /** The number of distinct items is the size of the set of items. */
  lemma DistinctCard<T(!new)>(s: seq<T>)
    ensures |Distinct(s)| == |set x | x in s|
  {
    NoDupCard(Distinct(s));
    assert (set x | x in Distinct(s)) == (set x | x in s);
  }

  /** A sequence has no more distinct items than items, and at least one when
      it is not empty. */
  lemma DistinctLength<T(!new)>(s: seq<T>)
    ensures |Distinct(s)| <= |s|
    ensures s != [] ==> |Distinct(s)| >= 1
  {
    DistinctCard(s);
    SetOfSeqCard(s);
    if s != [] {
      assert s[0] in Distinct(s);
    }
  }

  lemma {:induction false} SetOfSeqCard<T>(s: seq<T>)
    ensures |set x | x in s| <= |s|
    decreases |s|
  {
    if s != [] {
      var s' := s[..|s| - 1];
      SetOfSeqCard(s');
      assert (set y | y in s) == (set y | y in s') + {s[|s| - 1]};
    }
  }

  /** Items drawn from b have no more distinct values than b. */
  lemma DistinctSubset<T(!new)>(a: seq<T>, b: seq<T>)
    requires forall x :: x in a ==> x in b
    ensures |Distinct(a)| <= |Distinct(b)|
  {
    DistinctCard(a);
    DistinctCard(b);
    SubsetCard(set x | x in a, set x | x in b);
  }

  lemma SubsetCard<T>(A: set<T>, B: set<T>)
    requires A <= B
    ensures |A| <= |B|
  {
    assert B == A + (B - A);
    assert A * (B - A) == {};
  }
}
