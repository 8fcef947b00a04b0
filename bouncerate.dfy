/** `create_bounce_rate_gauge_chart`: the share of visiting addresses that
    appear only once among the POST records of the year scope. */
module BounceRate {
  import opened Strings
  import opened LogRecords
  import opened Grouping
  import opened Ratios
  import opened Scope

  /** A record's entry in the address list: its address when it has one. */
  function IpEntry(r: LogRecord): Option<string>
  {
    if r.ip != "" then Some(r.ip) else None
  }

  /** The `ip_data` list: the non-empty addresses of the records, in order. */
  function VisitorIps(logs: seq<LogRecord>): seq<string>
  {
    Collect(logs, IpEntry)
  }

  /** The loop that fills `ip_data`. */
  method CollectIps(logs: seq<LogRecord>) returns (ips: seq<string>)
    ensures ips == VisitorIps(logs)
  {
    ips := [];
    var i := 0;
    while i < |logs|
      invariant 0 <= i <= |logs|
      invariant ips == Collect(logs[..i], IpEntry)
    {
      assert logs[..i + 1][..i] == logs[..i];
      if logs[i].ip != "" {
        ips := ips + [logs[i].ip];
      }
      i := i + 1;
    }
    assert logs[..|logs|] == logs;
  }

  /** The list holds exactly the non-empty addresses of the records. */
  lemma VisitorIpsFacts(logs: seq<LogRecord>, x: string)
    ensures x in VisitorIps(logs) <==> x != "" && exists r :: r in logs && r.ip == x
  {
    if x in VisitorIps(logs) {
      CollectSound(logs, IpEntry, x);
    }
    if x != "" && exists r :: r in logs && r.ip == x {
      var r :| r in logs && r.ip == x;
      var i :| 0 <= i < |logs| && logs[i] == r;
      CollectComplete(logs, IpEntry, i);
    }
  }

  /** How many items of d satisfy p. */
  function CountWhere(d: seq<string>, p: string -> bool): (n: nat)
    ensures n <= |d|
  {
    if d == [] then 0 else
      CountWhere(d[..|d| - 1], p) + (if p(d[|d| - 1]) then 1 else 0)
  }

  /** `ip_counts == 1`: the address is seen exactly once. */
  predicate Once(ips: seq<string>, x: string)
  {
    Count(ips, x) == 1
  }

  function SeenOnce(ips: seq<string>): string -> bool
  {
    x => Once(ips, x)
  }

  /** `(ip_counts == 1).sum()`: distinct addresses seen exactly once. */
  function Bounces(ips: seq<string>): nat
  {
    CountWhere(Distinct(ips), SeenOnce(ips))
  }

  /** The bounce rate in percent: 0 for no addresses, otherwise the bounces
      over `ip_counts.shape[0]`, the number of distinct addresses. */
  function Rate(ips: seq<string>): real
  {
    if ips == [] then 0.0 else Percent(Bounces(ips), |Distinct(ips)|)
  }

  /** The rate of the POST records of a scope. */
  function BounceRateOf(rows: seq<LogRecord>, s: Scope): real
  {
    Rate(VisitorIps(PostsIn(rows, s)))
  }

  /** All items of d satisfy p exactly when the count is |d|, and none does
      exactly when it is 0. */
  lemma {:induction false} CountWhereAll(d: seq<string>, p: string -> bool)
    ensures CountWhere(d, p) == |d| <==> forall k :: 0 <= k < |d| ==> p(d[k])
    ensures CountWhere(d, p) == 0 <==> forall k :: 0 <= k < |d| ==> !p(d[k])
    decreases |d|
  {
    if d != [] {
      var d' := d[..|d| - 1];
      CountWhereAll(d', p);
      assert forall k :: 0 <= k < |d'| ==> d'[k] == d[k];
    }
  }

  /** Over distinct items, the count is the size of the set of those that
      satisfy p. */
  lemma {:induction false} CountWhereCard(d: seq<string>, p: string -> bool)
    requires NoDup(d)
    ensures CountWhere(d, p) == |set x | x in d && p(x)|
    decreases |d|
  {
    if d != [] {
      var d' := d[..|d| - 1];
      var x := d[|d| - 1];
      assert NoDup(d');
      CountWhereCard(d', p);
      assert d == d' + [x];
      SnocSet(d', x, p);
      assert x !in (set y | y in d' && p(y));
    }
  }

  /** The items of d + [x] that satisfy p are those of d, and x if it does. */
  lemma SnocSet(d: seq<string>, x: string, p: string -> bool)
    ensures (set y | y in d + [x] && p(y)) == (set y | y in d && p(y)) + (if p(x) then {x} else {})
  {
    var A := set y | y in d && p(y);
    var B := set y | y in d + [x] && p(y);
    forall y ensures y in B <==> y in A + (if p(x) then {x} else {}) {
      assert y in d + [x] <==> y in d || y == x;
    }
  }

  /** `(ip_counts == 1).sum()` is the number of addresses seen exactly once. */
  lemma BouncesCount(ips: seq<string>)
    ensures Bounces(ips) == |set x | x in ips && Once(ips, x)|
  {
    var d := Distinct(ips);
    var p := SeenOnce(ips);
    CountWhereCard(d, p);
    SameOnceSet(d, ips);
  }

  lemma SameOnceSet(d: seq<string>, ips: seq<string>)
    requires forall x :: x in d <==> x in ips
    ensures (set x | x in d && SeenOnce(ips)(x)) == (set x | x in ips && Once(ips, x))
  {
    var A := set x | x in d && SeenOnce(ips)(x);
    var B := set x | x in ips && Once(ips, x);
    forall x ensures x in A <==> x in B {
      assert SeenOnce(ips)(x) == Once(ips, x);
    }
  }

  /** No address repeats exactly when every address is seen once. */
  lemma NoDupCounts(ips: seq<string>)
    ensures NoDup(ips) <==> forall x :: x in ips ==> Count(ips, x) == 1
  {
    if NoDup(ips) {
      forall x | x in ips ensures Count(ips, x) == 1 {
        NoDupCount(ips, x);
      }
    }
    if forall x :: x in ips ==> Count(ips, x) == 1 {
      forall i, j | 0 <= i < j < |ips| ensures ips[i] != ips[j] {
        if ips[i] == ips[j] {
          CountTwo(ips, i, j);
        }
      }
    }
  }

  /** A property holds of every item of d exactly when it holds of every
      item of a sequence with the same items. */
  lemma SameItemsEvery(d: seq<string>, ips: seq<string>, p: string -> bool)
    requires forall x :: x in d <==> x in ips
    ensures (forall k :: 0 <= k < |d| ==> p(d[k])) <==> forall x :: x in ips ==> p(x)
  {
    if forall k :: 0 <= k < |d| ==> p(d[k]) {
      forall x | x in ips ensures p(x) {
        var k :| 0 <= k < |d| && d[k] == x;
      }
    }
  }

  /** The listed addresses are all seen once exactly when the list has no
      repeats. */
  lemma AllSingles(ips: seq<string>)
    ensures Bounces(ips) == |Distinct(ips)| <==> NoDup(ips)
  {
    var p := SeenOnce(ips);
    CountWhereAll(Distinct(ips), p);
    NoDupCounts(ips);
    SameItemsEvery(Distinct(ips), ips, p);
  }

  /** None of the listed addresses is seen once exactly when each is seen at
      least twice. */
  lemma NoSingles(ips: seq<string>)
    ensures Bounces(ips) == 0 <==> forall x :: x in ips ==> Count(ips, x) >= 2
  {
    var p := SeenOnce(ips);
    CountWhereAll(Distinct(ips), p);
    SameItemsEvery(Distinct(ips), ips, x => !p(x));
  }

  /** The rate is a percentage; it is 0 without addresses; with addresses it
      is 100 exactly when no address repeats and 0 exactly when every address
      comes back at least once. */
  lemma RateFacts(ips: seq<string>)
    ensures 0.0 <= Rate(ips) <= 100.0
    ensures ips == [] ==> Rate(ips) == 0.0
    ensures ips != [] ==> (Rate(ips) == 100.0 <==> NoDup(ips))
    ensures ips != [] ==> (Rate(ips) == 0.0 <==> forall x :: x in ips ==> Count(ips, x) >= 2)
  {
    if ips != [] {
      DistinctLength(ips);
      AllSingles(ips);
      NoSingles(ips);
      PercentBounds(Bounces(ips), |Distinct(ips)|);
    }
  }

  /** `create_bounce_rate_gauge_chart(year)` up to the figure: the address
      list of the scope's POST records, then the rate. */
  method BounceRateGauge(rows: seq<LogRecord>, s: Scope) returns (rate: real)
    ensures rate == BounceRateOf(rows, s)
  {
    var ips := CollectIps(PostsIn(rows, s));
    rate := Rate(ips);
  }

  /** The rate of a scope is a percentage over exactly the non-empty
      addresses of the scope's POST records. */
  lemma BounceRateOfFacts(rows: seq<LogRecord>, s: Scope, x: string)
    ensures 0.0 <= BounceRateOf(rows, s) <= 100.0
    ensures x in VisitorIps(PostsIn(rows, s))
      <==> x != "" && exists r :: r in rows && IsPost(r) && InScope(s, r) && r.ip == x
  {
    RateFacts(VisitorIps(PostsIn(rows, s)));
    VisitorIpsFacts(PostsIn(rows, s), x);
  }
}
