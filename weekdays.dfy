/** The day-of-week table of the overview's daily averages chart
    (`create_daily_avg_chart`) and of the standalone line chart
    (`get_daily_avg_data`): visitors, sales and conversion per weekday. */
module Weekdays {
  import opened Strings
  import opened Calendar
  import opened LogRecords
  import opened Grouping
  import opened Ratios
  import opened Scope

  /** `datetime.fromisoformat(str(ts)).strftime('%A')` of a record. */
  function DayOf(r: LogRecord): string
    requires ValidDate(r.timestamp.date)
  {
    DayName(Weekday(r.timestamp.date))
  }

  /** The weekday names of the records, in order (`visitor_days`, `sale_days`). */
  function DayNames(rows: seq<LogRecord>): (d: seq<string>)
    requires Dated(rows)
    ensures |d| == |rows| && forall i :: 0 <= i < |rows| ==> d[i] == DayOf(rows[i])
  {
    seq(|rows|, i requires 0 <= i < |rows| => DayOf(rows[i]))
  }

  /** `days`: Monday to Sunday. */
  function Days(): (days: seq<string>)
    ensures |days| == 7 && forall w :: 0 <= w < 7 ==> days[w] == DayName(w)
  {
    seq(7, w requires 0 <= w < 7 => DayName(w))
  }

  /** One row of the table. */
  datatype DayRow = DayRow(dayName: string, visitors: int, sales: int, conversionRate: real)

  /** A row: `sales_count / visitors * 100` when there are visitors, else 0. */
  function DayRowOf(day: string, visitors: int, sales: int): DayRow
  {
    DayRow(day, visitors, sales, if visitors > 0 then Percent(sales, visitors) else 0.0)
  }

  /** The table: one row per day of `days`, in order, with the number of
      visitor and sale names equal to it (`value_counts().get(day, 0)`). */
  function DayTable(vd: seq<string>, sd: seq<string>, days: seq<string>): (t: seq<DayRow>)
    ensures |t| == |days|
    ensures forall w :: 0 <= w < |days| ==> t[w] == DayRowOf(days[w], Count(vd, days[w]), Count(sd, days[w]))
  {
    seq(|days|, w requires 0 <= w < |days| => DayRowOf(days[w], Count(vd, days[w]), Count(sd, days[w])))
  }

  /** The `for day in days` loop that appends the rows to `data`. */
  method DayRows(vd: seq<string>, sd: seq<string>, days: seq<string>) returns (data: seq<DayRow>)
    ensures data == DayTable(vd, sd, days)
  {
    data := [];
    for w := 0 to |days|
      invariant data == DayTable(vd, sd, days)[..w]
    {
      var day := days[w];
      var visitors := Count(vd, day);
      var salesCount := Count(sd, day);
      var conversion := if visitors > 0 then Percent(salesCount, visitors) else 0.0;
      data := data + [DayRow(day, visitors, salesCount, conversion)];
    }
  }

  /** `create_daily_avg_chart(year)` up to the figure: nothing when the scope
      holds no record, otherwise the table over the scope's records and the
      scope's POST records. */
  function DailyAverages(rows: seq<LogRecord>, s: Scope): Option<seq<DayRow>>
    requires Dated(rows)
  {
    var logs := InYearScope(rows, s);
    if logs == [] then None else Some(DayTable(DayNames(logs), DayNames(PostsIn(rows, s)), Days()))
  }

  /** The same chart computed from the rows, as the source does it. */
  method DailyAvgChart(rows: seq<LogRecord>, s: Scope) returns (data: Option<seq<DayRow>>)
    requires Dated(rows)
    ensures data == DailyAverages(rows, s)
  {
    var logs := InYearScope(rows, s);
    if logs == [] {
      return None;
    }
    var table := DayRows(DayNames(logs), DayNames(PostsIn(rows, s)), Days());
    data := Some(table);
  }

  /** `get_daily_avg_data()` of the line chart: the same table over all
      records and all POST records, nothing without records. */
  function DailyAvgData(rows: seq<LogRecord>): Option<seq<DayRow>>
    requires Dated(rows)
  {
    DailyAverages(rows, AllYears)
  }

  // ---------------------------------------------------------------------------
  // Properties

  /** Sum of the visitors column. */
  function VisitorsTotal(t: seq<DayRow>): int
  {
    if t == [] then 0 else VisitorsTotal(t[..|t| - 1]) + t[|t| - 1].visitors
  }

  /** Sum of the sales column. */
  function SalesTotal(t: seq<DayRow>): int
  {
    if t == [] then 0 else SalesTotal(t[..|t| - 1]) + t[|t| - 1].sales
  }

  /** The columns add up the counts of the days listed. */
  lemma {:induction false} TableTotals(vd: seq<string>, sd: seq<string>, days: seq<string>)
    ensures VisitorsTotal(DayTable(vd, sd, days)) == CountAll(vd, days)
    ensures SalesTotal(DayTable(vd, sd, days)) == CountAll(sd, days)
    decreases |days|
  {
    if days != [] {
      var days' := days[..|days| - 1];
      TableTotals(vd, sd, days');
      assert DayTable(vd, sd, days)[..|days'|] == DayTable(vd, sd, days');
    }
  }

  /** The seven names differ, and every record's day is one of them. */
  lemma DaysFacts(rows: seq<LogRecord>)
    requires Dated(rows)
    ensures NoDup(Days())
    ensures forall i :: 0 <= i < |DayNames(rows)| ==> DayNames(rows)[i] in Days()
  {
    assert Days() == ["Monday", "Tuesday", "Wednesday", "Thursday", "Friday", "Saturday", "Sunday"];
    forall i | 0 <= i < |rows| ensures DayNames(rows)[i] in Days() {
      assert DayNames(rows)[i] == Days()[Weekday(rows[i].timestamp.date)];
    }
  }

  /** One more record adds its day to the names. */
  lemma DayNamesSnoc(a: seq<LogRecord>, r: LogRecord)
    requires Dated(a) && ValidDate(r.timestamp.date)
    ensures Dated(a + [r]) && DayNames(a + [r]) == DayNames(a) + [DayOf(r)]
  {
    assert Dated(a + [r]);
    assert DayNames(a + [r]) == DayNames(a) + [DayOf(r)];
  }

  /** Keeping some records keeps no more names equal to a day. */
  lemma {:induction false} FilterDayCount(logs: seq<LogRecord>, keep: LogRecord -> bool, n: string)
    requires Dated(logs)
    ensures Count(DayNames(Filter(logs, keep)), n) <= Count(DayNames(logs), n)
    decreases |logs|
  {
    if logs != [] {
      var logs' := logs[..|logs| - 1];
      var r := logs[|logs| - 1];
      var kept := Filter(logs', keep);
      assert logs == logs' + [r];
      FilterDayCount(logs', keep, n);
      DayNamesSnoc(logs', r);
      CountSnoc(DayNames(logs'), DayOf(r), n);
      if keep(r) {
        assert Filter(logs, keep) == kept + [r];
        DayNamesSnoc(kept, r);
        CountSnoc(DayNames(kept), DayOf(r), n);
      } else {
        assert Filter(logs, keep) == kept;
      }
    }
  }

  /** A row with no more sales than visitors converts between 0 and 100
      percent, and 0 without visitors. */
  lemma RowFacts(day: string, visitors: nat, sales: nat)
    requires sales <= visitors
    ensures var r := DayRowOf(day, visitors, sales);
      0.0 <= r.conversionRate <= 100.0 && (visitors == 0 ==> r.conversionRate == 0.0)
  {
    PercentBounds(sales, visitors);
  }

  /** The overview's table: nothing exactly when the scope is empty; otherwise
      seven rows Monday to Sunday, each day's visitors and sales counted over
      the scope's records and POST records, no more sales than visitors,
      conversion a percentage (0 without visitors), and the columns adding up
      to the scope's records and POST records. */
  lemma DailyAveragesFacts(rows: seq<LogRecord>, s: Scope)
    requires Dated(rows)
    ensures DailyAverages(rows, s).None? <==> InYearScope(rows, s) == []
    ensures DailyAverages(rows, s).Some? ==> var t := DailyAverages(rows, s).value;
      |t| == 7
      && (forall w :: 0 <= w < 7 ==>
            t[w].dayName == DayName(w)
            && t[w].visitors == Count(DayNames(InYearScope(rows, s)), DayName(w))
            && t[w].sales == Count(DayNames(PostsIn(rows, s)), DayName(w))
            && t[w].sales <= t[w].visitors
            && 0.0 <= t[w].conversionRate <= 100.0
            && (t[w].visitors == 0 ==> t[w].conversionRate == 0.0))
      && VisitorsTotal(t) == |InYearScope(rows, s)|
      && SalesTotal(t) == |PostsIn(rows, s)|
  {
    var logs := InYearScope(rows, s);
    if logs != [] {
      var vd := DayNames(logs);
      var sd := DayNames(PostsIn(rows, s));
      var t := DayTable(vd, sd, Days());
      PostsInFilter(rows, s);
      forall w | 0 <= w < 7
        ensures t[w].sales <= t[w].visitors
        ensures 0.0 <= t[w].conversionRate <= 100.0 && (t[w].visitors == 0 ==> t[w].conversionRate == 0.0)
      {
        FilterDayCount(logs, IsPost, DayName(w));
        RowFacts(DayName(w), t[w].visitors, t[w].sales);
      }
      TableTotals(vd, sd, Days());
      DaysFacts(logs);
      DaysFacts(PostsIn(rows, s));
      CountAllLength(vd, Days());
      CountAllLength(sd, Days());
    }
  }

  /** The line chart's table: nothing exactly when there are no records;
      otherwise seven rows Monday to Sunday whose visitors add up to the
      number of records and whose sales add up to the number of POST
      records. */
  lemma DailyAvgDataFacts(rows: seq<LogRecord>)
    requires Dated(rows)
    ensures DailyAvgData(rows).None? <==> rows == []
    ensures DailyAvgData(rows).Some? ==> var t := DailyAvgData(rows).value;
      |t| == 7
      && (forall w :: 0 <= w < 7 ==>
            t[w].dayName == DayName(w)
            && t[w].visitors == Count(DayNames(rows), DayName(w))
            && t[w].sales <= t[w].visitors
            && 0.0 <= t[w].conversionRate <= 100.0)
      && VisitorsTotal(t) == |rows|
      && SalesTotal(t) == |Filter(rows, IsPost)|
  {
    DailyAveragesFacts(rows, AllYears);
    PostsInFilter(rows, AllYears);
  }
}
