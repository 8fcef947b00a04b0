/** The server-logs-per-day line charts (`get_log_data` of the `SimpleDash`
    and `LineChartDash` apps): the records counted per calendar day
    (`TruncDay('timestamp')`, `Count('id')`), in day order, each day reduced to
    its date. */
module DailyLogs {
  import opened Strings
  import opened Calendar
  import opened LogRecords
  import opened Grouping

  /** One point of the line: `day` and `total_logs`. */
  datatype DayCount = DayCount(day: Date, totalLogs: int)

  function DayCounts(g: seq<(int, int)>): (t: seq<DayCount>)
    ensures |t| == |g| && forall i :: 0 <= i < |g| ==> t[i] == DayCount(DateOfKey(g[i].0), g[i].1)
  {
    seq(|g|, i requires 0 <= i < |g| => DayCount(DateOfKey(g[i].0), g[i].1))
  }

  /** `get_log_data()` and the figure's rows: nothing when the query gives no
      row, otherwise one point per counted day. */
  function LogsPerDay(rows: seq<LogRecord>): Option<seq<DayCount>>
  {
    var g := CountByKey(DayKeys(rows));
    if g == [] then None else Some(DayCounts(g))
  }

  /** The date of every record, in record order. */
  function Dates(rows: seq<LogRecord>): (ds: seq<Date>)
    ensures |ds| == |rows| && forall i :: 0 <= i < |rows| ==> ds[i] == rows[i].timestamp.date
  {
    seq(|rows|, i requires 0 <= i < |rows| => rows[i].timestamp.date)
  }

  /** The days of the points, in order. */
  function Days(t: seq<DayCount>): (ds: seq<Date>)
    ensures |ds| == |t| && forall i :: 0 <= i < |t| ==> ds[i] == t[i].day
  {
    seq(|t|, i requires 0 <= i < |t| => t[i].day)
  }

  /** The sum of the `total_logs` column. */
  function LogsTotal(t: seq<DayCount>): int
  {
    if t == [] then 0 else LogsTotal(t[..|t| - 1]) + t[|t| - 1].totalLogs
  }

  /** Day a comes before day b in the calendar. */
  predicate Before(a: Date, b: Date)
  {
    a.year < b.year || (a.year == b.year && (a.month < b.month || (a.month == b.month && a.day < b.day)))
  }

  // ---------------------------------------------------------------------------
  // Properties

  /** Two calendar dates have the same key exactly when they are equal. */
  lemma DateKeySame(a: Date, b: Date)
    requires ValidDate(a) && ValidDate(b)
    ensures DateKey(a) == DateKey(b) <==> a == b
  {
    DateKeyRoundTrip(a);
    DateKeyRoundTrip(b);
  }

  /** A key earlier than another is of an earlier day. */
  lemma BeforeOfKeys(a: Date, b: Date)
    requires ValidDate(a) && ValidDate(b) && DateKey(a) < DateKey(b)
    ensures Before(a, b)
  {
    DateKeyOrder(a, b);
  }

  /** Counting the day keys of dated records counts their dates. */
  lemma CountDayKeys(rows: seq<LogRecord>, d: Date)
    requires Dated(rows) && ValidDate(d)
    ensures Count(DayKeys(rows), DateKey(d)) == Count(Dates(rows), d)
  {
    forall i | 0 <= i < |rows| ensures DayKeys(rows)[i] == DateKey(d) <==> Dates(rows)[i] == d {
      assert rows[i] in rows;
      DateKeySame(rows[i].timestamp.date, d);
    }
    CountAlike(DayKeys(rows), DateKey(d), Dates(rows), d);
  }

  /** The points list the counted days as dates, keep the total, and come in
      calendar order when the keys ascend. */
  lemma {:induction false} DayCountsTotal(g: seq<(int, int)>)
    ensures LogsTotal(DayCounts(g)) == Total(g)
    decreases |g|
  {
    if g != [] {
      var g' := g[..|g| - 1];
      assert DayCounts(g)[..|g'|] == DayCounts(g');
      DayCountsTotal(g');
    }
  }

  /** A key of a dated record reads back as the record's date, and counts
      the records of that date. */
  lemma PointOfKey(rows: seq<LogRecord>, k: int)
    requires Dated(rows) && k in DayKeys(rows)
    ensures ValidDate(DateOfKey(k)) && DateKey(DateOfKey(k)) == k && DateOfKey(k) in Dates(rows)
    ensures Count(DayKeys(rows), k) == Count(Dates(rows), DateOfKey(k))
  {
    var j :| 0 <= j < |rows| && DayKeys(rows)[j] == k;
    var d := rows[j].timestamp.date;
    assert rows[j] in rows;
    DateKeyRoundTrip(d);
    assert Dates(rows)[j] == d;
    CountDayKeys(rows, d);
  }

  /** Nothing exactly when there are no records; otherwise the points are in
      calendar order, one per day with a record and no other, each counting
      that day's records, and the counts add up to the number of records. */
  lemma LogsPerDayFacts(rows: seq<LogRecord>)
    requires Dated(rows)
    ensures LogsPerDay(rows).None? <==> rows == []
    ensures LogsPerDay(rows).Some? ==> var t := LogsPerDay(rows).value;
      (forall i, j :: 0 <= i < j < |t| ==> Before(t[i].day, t[j].day))
      && (forall d :: d in Days(t) <==> d in Dates(rows))
      && (forall i :: 0 <= i < |t| ==> t[i].totalLogs == Count(Dates(rows), t[i].day) > 0)
      && LogsTotal(t) == |rows|
  {
    var keys := DayKeys(rows);
    var g := CountByKey(keys);
    CountByKeyFacts(keys);
    DayCountsTotal(g);
    if g != [] {
      var t := DayCounts(g);
      DayPoints(rows);
      DayOrder(rows);
    }
  }

  /** Each point is the date of a record and counts that date's records, and
      every record's date has a point. */
  lemma DayPoints(rows: seq<LogRecord>)
    requires Dated(rows)
    ensures var t := DayCounts(CountByKey(DayKeys(rows)));
      (forall d :: d in Days(t) <==> d in Dates(rows))
      && forall i :: 0 <= i < |t| ==> t[i].totalLogs == Count(Dates(rows), t[i].day) > 0
  {
    DayPointsSound(rows);
    DayPointsComplete(rows);
  }

  lemma DayPointsSound(rows: seq<LogRecord>)
    requires Dated(rows)
    ensures var t := DayCounts(CountByKey(DayKeys(rows)));
      forall i :: 0 <= i < |t| ==> t[i].day in Dates(rows) && t[i].totalLogs == Count(Dates(rows), t[i].day) > 0
  {
    var keys := DayKeys(rows);
    var g := CountByKey(keys);
    var t := DayCounts(g);
    CountByKeyFacts(keys);
    forall i | 0 <= i < |t| ensures t[i].day in Dates(rows) && t[i].totalLogs == Count(Dates(rows), t[i].day) > 0 {
      assert Keys(g)[i] == g[i].0;
      assert g[i].0 in keys;
      PointOfKey(rows, g[i].0);
    }
  }

  lemma DayPointsComplete(rows: seq<LogRecord>)
    requires Dated(rows)
    ensures var t := DayCounts(CountByKey(DayKeys(rows)));
      forall d :: d in Dates(rows) ==> d in Days(t)
  {
    forall d | d in Dates(rows) ensures d in Days(DayCounts(CountByKey(DayKeys(rows)))) {
      DateHasPoint(rows, d);
    }
  }

  /** The date of a record has a point. */
  lemma DateHasPoint(rows: seq<LogRecord>, d: Date)
    requires Dated(rows) && d in Dates(rows)
    ensures d in Days(DayCounts(CountByKey(DayKeys(rows))))
  {
    var keys := DayKeys(rows);
    var g := CountByKey(keys);
    var t := DayCounts(g);
    var j :| 0 <= j < |rows| && Dates(rows)[j] == d;
    assert rows[j] in rows;
    assert keys[j] == DateKey(d);
    assert DateKey(d) in keys;
    CountByKeyKeys(keys);
    assert DateKey(d) in Keys(g);
    var i :| 0 <= i < |g| && Keys(g)[i] == DateKey(d);
    DateKeyRoundTrip(d);
    assert t[i].day == DateOfKey(g[i].0) == d;
    assert Days(t)[i] == d;
  }

  /** The points come in calendar order. */
  lemma DayOrder(rows: seq<LogRecord>)
    requires Dated(rows)
    ensures var t := DayCounts(CountByKey(DayKeys(rows)));
      forall i, j :: 0 <= i < j < |t| ==> Before(t[i].day, t[j].day)
  {
    var keys := DayKeys(rows);
    var g := CountByKey(keys);
    var t := DayCounts(g);
    CountByKeyFacts(keys);
    forall i, j | 0 <= i < j < |t| ensures Before(t[i].day, t[j].day) {
      assert Keys(g)[i] == g[i].0 && Keys(g)[j] == g[j].0;
      assert g[i].0 in keys && g[j].0 in keys;
      PointOfKey(rows, g[i].0);
      PointOfKey(rows, g[j].0);
      BeforeOfKeys(t[i].day, t[j].day);
    }
  }
}
