/** The `dashboard` view: request counts by status, distinct visitors overall and
    per day, and the most frequent user agents. */
module Dashboard {
  import opened Strings
  import opened Calendar
  import opened LogRecords
  import opened Grouping

  function Statuses(rows: seq<LogRecord>): (s: seq<int>)
    ensures |s| == |rows| && forall i :: 0 <= i < |rows| ==> s[i] == rows[i].status
  {
    seq(|rows|, i requires 0 <= i < |rows| => rows[i].status)
  }

  function Ips(rows: seq<LogRecord>): (s: seq<string>)
    ensures |s| == |rows| && forall i :: 0 <= i < |rows| ==> s[i] == rows[i].ip
  {
    seq(|rows|, i requires 0 <= i < |rows| => rows[i].ip)
  }

  function Agents(rows: seq<LogRecord>): (s: seq<string>)
    ensures |s| == |rows| && forall i :: 0 <= i < |rows| ==> s[i] == rows[i].userAgent
  {
    seq(|rows|, i requires 0 <= i < |rows| => rows[i].userAgent)
  }

  /** The five counts at the top of the view. */
  datatype Summary = Summary(total: nat, successful: nat, notFound: nat, serverErrors: nat, uniqueVisitors: nat)

  function Summarize(rows: seq<LogRecord>): Summary
  {
    var st := Statuses(rows);
    Summary(|rows|, Count(st, 200), Count(st, 404), Count(st, 500), |Distinct(Ips(rows))|)
  }

  lemma {:induction false} ThreeCounts(s: seq<int>, a: int, b: int, c: int)
    requires a != b && b != c && a != c
    ensures Count(s, a) + Count(s, b) + Count(s, c) <= |s|
    decreases |s|
  {
    if s != [] {
      ThreeCounts(s[..|s| - 1], a, b, c);
    }
  }

  /** The three status counts never exceed the total, there are no more visitors
      than requests, and there is a visitor exactly when there is a request. */
  lemma SummaryBounds(rows: seq<LogRecord>)
    ensures var m := Summarize(rows);
      m.successful + m.notFound + m.serverErrors <= m.total
      && m.uniqueVisitors <= m.total && (m.uniqueVisitors == 0 <==> m.total == 0)
  {
    ThreeCounts(Statuses(rows), 200, 404, 500);
    DistinctLength(Ips(rows));
  }

  // ---------------------------------------------------------------------------
  // Distinct visitors per day

  /** The addresses of the requests made on the day with key k. */
  function IpsOn(rows: seq<LogRecord>, k: int): seq<string>
  {
    Collect(rows, (r: LogRecord) => if DayKey(r) == k then Some(r.ip) else None)
  }

  /** `values("timestamp__date").annotate(Count("ip_address", distinct=True))
      .order_by("timestamp__date")`: per day, the number of distinct addresses. */
  function VisitorsPerDay(rows: seq<LogRecord>): (g: seq<(int, int)>)
  {
    var ks := SortedKeys(DayKeys(rows));
    seq(|ks|, i requires 0 <= i < |ks| => (ks[i], |Distinct(IpsOn(rows, ks[i]))|))
  }

  /** The set of addresses that made a request on the day with key k. */
  function VisitorsOn(rows: seq<LogRecord>, k: int): set<string>
  {
    set r | r in rows && DayKey(r) == k :: r.ip
  }

  /** The days come in ascending order, each day with a request exactly once;
      each count is the number of different addresses seen that day, so at
      least one and at most the number of distinct visitors overall. */
  lemma VisitorsPerDayFacts(rows: seq<LogRecord>)
    ensures var g := VisitorsPerDay(rows);
      Increasing(Keys(g))
      && (forall r :: r in rows ==> DayKey(r) in Keys(g))
      && (forall i :: 0 <= i < |g| ==> exists r :: r in rows && DayKey(r) == g[i].0)
      && (forall i :: 0 <= i < |g| ==> g[i].1 == |VisitorsOn(rows, g[i].0)|)
      && (forall i :: 0 <= i < |g| ==> 1 <= g[i].1 <= |Distinct(Ips(rows))|)
  {
    var ks := SortedKeys(DayKeys(rows));
    var g := VisitorsPerDay(rows);
    assert Keys(g) == ks;
    forall r | r in rows ensures DayKey(r) in ks {
      var j :| 0 <= j < |rows| && rows[j] == r;
      assert DayKeys(rows)[j] == DayKey(r);
    }
    forall i | 0 <= i < |g|
      ensures (exists r :: r in rows && DayKey(r) == g[i].0) && g[i].1 == |VisitorsOn(rows, g[i].0)|
      ensures 1 <= g[i].1 <= |Distinct(Ips(rows))|
    {
      assert ks[i] in DayKeys(rows);
      DayVisitors(rows, ks[i]);
      DayVisitorSet(rows, ks[i]);
    }
  }

  /** Removing repeats from a day's addresses leaves the set of them. */
  lemma DayVisitorSet(rows: seq<LogRecord>, k: int)
    ensures |Distinct(IpsOn(rows, k))| == |VisitorsOn(rows, k)|
  {
    var f := (r: LogRecord) => if DayKey(r) == k then Some(r.ip) else None;
    DistinctCard(IpsOn(rows, k));
    forall x | x in IpsOn(rows, k) ensures x in VisitorsOn(rows, k) {
      CollectSound(rows, f, x);
      var m :| 0 <= m < |rows| && f(rows[m]) == Some(x);
      assert rows[m] in rows;
    }
    forall x | x in VisitorsOn(rows, k) ensures x in IpsOn(rows, k) {
      var r :| r in rows && DayKey(r) == k && r.ip == x;
      var m :| 0 <= m < |rows| && rows[m] == r;
      CollectComplete(rows, f, m);
    }
    assert (set x | x in IpsOn(rows, k)) == VisitorsOn(rows, k);
  }

  lemma DayVisitors(rows: seq<LogRecord>, k: int)
    requires k in DayKeys(rows)
    ensures exists r :: r in rows && DayKey(r) == k
    ensures 1 <= |Distinct(IpsOn(rows, k))| <= |Distinct(Ips(rows))|
  {
    var j :| 0 <= j < |rows| && DayKeys(rows)[j] == k;
    assert rows[j] in rows;
    var f := (r: LogRecord) => if DayKey(r) == k then Some(r.ip) else None;
    CollectComplete(rows, f, j);
    DistinctLength(IpsOn(rows, k));
    forall x | x in IpsOn(rows, k) ensures x in Ips(rows) {
      CollectSound(rows, f, x);
      var m :| 0 <= m < |rows| && f(rows[m]) == Some(x);
      assert Ips(rows)[m] == x;
    }
    DistinctSubset(IpsOn(rows, k), Ips(rows));
  }

  /** `DateFormat(d).format("Y-m-d")`. */
  function DateLabel(d: Date): (s: string)
    requires ValidDate(d)
    ensures |s| == 10 && s[4] == '-' && s[7] == '-'
  {
    Fixed(d.year, 4) + "-" + Fixed(d.month, 2) + "-" + Fixed(d.day, 2)
  }

  /** The chart labels of the per-day visitor counts. */
  function DayLabels(g: seq<(int, int)>): (labels: seq<string>)
    requires forall i :: 0 <= i < |g| ==> ValidDate(DateOfKey(g[i].0))
    ensures |labels| == |g|
  {
    seq(|g|, i requires 0 <= i < |g| => DateLabel(DateOfKey(g[i].0)))
  }

  /** A label reads back as the date it names. */
  lemma DateLabelValue(d: Date)
    requires ValidDate(d)
    ensures var s := DateLabel(d);
      AllDigits(s[..4]) && AllDigits(s[5..7]) && AllDigits(s[8..])
      && DecValue(s[..4]) == d.year && DecValue(s[5..7]) == d.month && DecValue(s[8..]) == d.day
  {
    var s := DateLabel(d);
    assert s[..4] == Fixed(d.year, 4) && s[5..7] == Fixed(d.month, 2) && s[8..] == Fixed(d.day, 2);
    assert Pow10(4) == 10000 && Pow10(2) == 100;
    FixedValue(d.year, 4);
    FixedValue(d.month, 2);
    FixedValue(d.day, 2);
  }

  // ---------------------------------------------------------------------------
  // User agents

  /** `values("user_agent").annotate(Count("user_agent")).order_by("-request_count")[:10]`. */
  function TopAgents(rows: seq<LogRecord>): seq<(string, int)>
  {
    MostCommon(Agents(rows), 10)
  }

  /** At most ten agents, most frequent first, each with its number of
      requests; an agent left out made no more requests than any listed. */
  lemma TopAgentsFacts(rows: seq<LogRecord>, a: string)
    requires a in Agents(rows)
    ensures var t := TopAgents(rows);
      |t| <= 10 && Descending(t) && NoDup(Keys(t))
      && (forall i :: 0 <= i < |t| ==> t[i].1 == Count(Agents(rows), t[i].0))
      && (a !in Keys(t) ==> |t| == 10 && forall i :: 0 <= i < |t| ==> t[i].1 >= Count(Agents(rows), a))
  {
    MostCommonRows(Agents(rows), 10);
    MostCommonCut(Agents(rows), 10, a);
  }
}
