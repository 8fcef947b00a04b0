/** The peak traffic hours bar charts: the histogram of `create_peak_hours_app`
    over all records, and `create_peak_hours_chart(year)` over the records of
    the chosen year. Both count the records per hour of the day
    (`ExtractHour('timestamp')`) and label each bar `"<hour>:00"`. */
module PeakHours {
  import opened Strings
  import opened LogRecords
  import opened Grouping
  import opened Scope

  /** The `hour` of every record, in record order. */
  function Hours(rows: seq<LogRecord>): (hs: seq<int>)
    ensures |hs| == |rows| && forall i :: 0 <= i < |rows| ==> hs[i] == Hour(rows[i])
  {
    seq(|rows|, i requires 0 <= i < |rows| => Hour(rows[i]))
  }

  /** One bar: the hour, its `time_of_day` label and its `count`. */
  datatype HourRow = HourRow(hour: int, timeOfDay: string, count: int)

  /** `f"{x}:00"`: the hour without zero padding. */
  function HourLabel(h: int): string
  {
    IntToStr(h) + ":00"
  }

  function HourRows(g: seq<(int, int)>): (t: seq<HourRow>)
    ensures |t| == |g| && forall i :: 0 <= i < |g| ==> t[i] == HourRow(g[i].0, HourLabel(g[i].0), g[i].1)
  {
    seq(|g|, i requires 0 <= i < |g| => HourRow(g[i].0, HourLabel(g[i].0), g[i].1))
  }

  /** The chart over some records: nothing ("No traffic data available") when
      the query gives no row, otherwise one labelled bar per counted hour. */
  function HourlyTraffic(rows: seq<LogRecord>): Option<seq<HourRow>>
  {
    var g := CountByKey(Hours(rows));
    if g == [] then None else Some(HourRows(g))
  }

  /** `get_hourly_traffic_data` and `create_histogram`: every record. */
  function PeakHoursHistogram(rows: seq<LogRecord>): Option<seq<HourRow>>
  {
    HourlyTraffic(rows)
  }

  /** `create_peak_hours_chart(year)`: the records of the scope. */
  function PeakHoursChart(rows: seq<LogRecord>, s: Scope): Option<seq<HourRow>>
  {
    HourlyTraffic(InYearScope(rows, s))
  }

  /** The hours of the bars, in order. */
  function BarHours(t: seq<HourRow>): (hs: seq<int>)
    ensures |hs| == |t| && forall i :: 0 <= i < |t| ==> hs[i] == t[i].hour
  {
    seq(|t|, i requires 0 <= i < |t| => t[i].hour)
  }

  /** The sum of the `count` column. */
  function CountTotal(t: seq<HourRow>): int
  {
    if t == [] then 0 else CountTotal(t[..|t| - 1]) + t[|t| - 1].count
  }

  // ---------------------------------------------------------------------------
  // Properties

  /** The label gives back its hour, so different hours have different labels. */
  lemma HourLabelFacts(h: int, k: int)
    ensures |HourLabel(h)| >= 4 && HourLabel(h)[|HourLabel(h)| - 3..] == ":00"
    ensures ParseInt(HourLabel(h)[..|HourLabel(h)| - 3]) == Some(h)
    ensures HourLabel(h) == HourLabel(k) ==> h == k
  {
    ParseIntToStr(h);
    ParseIntToStr(k);
    assert HourLabel(h)[..|HourLabel(h)| - 3] == IntToStr(h);
    assert HourLabel(k)[..|HourLabel(k)| - 3] == IntToStr(k);
  }

  /** The bars list the counted hours with their labels and keep the total. */
  lemma {:induction false} HourRowsTotal(g: seq<(int, int)>)
    ensures CountTotal(HourRows(g)) == Total(g)
    ensures BarHours(HourRows(g)) == Keys(g)
    decreases |g|
  {
    if g != [] {
      var g' := g[..|g| - 1];
      assert HourRows(g)[..|g'|] == HourRows(g');
      HourRowsTotal(g');
    }
  }

  /** An hour has a bar exactly when some record is of that hour. */
  lemma HoursOf(rows: seq<LogRecord>, h: int)
    ensures h in Hours(rows) <==> exists r :: r in rows && Hour(r) == h
  {
    if h in Hours(rows) {
      var i :| 0 <= i < |rows| && Hours(rows)[i] == h;
      assert rows[i] in rows;
    }
    if exists r :: r in rows && Hour(r) == h {
      var r :| r in rows && Hour(r) == h;
      var i :| 0 <= i < |rows| && rows[i] == r;
      assert Hours(rows)[i] == h;
    }
  }

  /** Nothing exactly when there are no records; otherwise the bars are in
      ascending hour order, one per hour that some record has and no other,
      each labelled by its hour and counting that hour's records, and the
      counts add up to the number of records. */
  lemma HourlyTrafficFacts(rows: seq<LogRecord>)
    ensures HourlyTraffic(rows).None? <==> rows == []
    ensures HourlyTraffic(rows).Some? ==> var t := HourlyTraffic(rows).value;
      Increasing(BarHours(t))
      && (forall h :: h in BarHours(t) <==> exists r :: r in rows && Hour(r) == h)
      && (forall i :: 0 <= i < |t| ==>
            t[i].timeOfDay == HourLabel(t[i].hour) && t[i].count == Count(Hours(rows), t[i].hour) > 0)
      && CountTotal(t) == |rows|
  {
    var g := CountByKey(Hours(rows));
    CountByKeyFacts(Hours(rows));
    HourRowsTotal(g);
    forall h ensures h in Keys(g) <==> exists r :: r in rows && Hour(r) == h {
      HoursOf(rows, h);
    }
  }

  /** Records with valid timestamps only give bars between 0:00 and 23:00. */
  lemma HourlyTrafficRange(rows: seq<LogRecord>)
    requires forall r :: r in rows ==> ValidTimestamp(r.timestamp)
    ensures HourlyTraffic(rows).Some? ==> var t := HourlyTraffic(rows).value;
      |t| <= 24 && forall i :: 0 <= i < |t| ==> 0 <= t[i].hour < 24
  {
    if HourlyTraffic(rows).Some? {
      var t := HourlyTraffic(rows).value;
      HourlyTrafficFacts(rows);
      forall i | 0 <= i < |t| ensures 0 <= t[i].hour < 24 {
        assert t[i].hour in BarHours(t);
      }
      IncreasingWithin(BarHours(t), 0, 24);
    }
  }

  /** An increasing sequence of values from lo up to hi holds at most hi - lo
      of them. */
  lemma {:induction false} IncreasingWithin(s: seq<int>, lo: int, hi: int)
    requires lo <= hi && Increasing(s) && forall i :: 0 <= i < |s| ==> lo <= s[i] < hi
    ensures |s| <= hi - lo
    decreases |s|
  {
    if s != [] {
      var s' := s[1..];
      assert Increasing(s');
      forall i | 0 <= i < |s'| ensures s[0] + 1 <= s'[i] < hi {
        assert s'[i] == s[i + 1];
      }
      IncreasingWithin(s', s[0] + 1, hi);
    }
  }

  /** The histogram counts every record. */
  lemma PeakHoursHistogramFacts(rows: seq<LogRecord>)
    ensures PeakHoursHistogram(rows).None? <==> rows == []
    ensures PeakHoursHistogram(rows).Some? ==> CountTotal(PeakHoursHistogram(rows).value) == |rows|
  {
    HourlyTrafficFacts(rows);
  }

  /** The chart of a year counts the records of that year only, and all of
      them: nothing exactly when the scope is empty, otherwise a bar per hour
      of a record in scope, adding up to the records in scope. */
  lemma PeakHoursChartFacts(rows: seq<LogRecord>, s: Scope)
    ensures PeakHoursChart(rows, s).None? <==> InYearScope(rows, s) == []
    ensures PeakHoursChart(rows, s).Some? ==> var t := PeakHoursChart(rows, s).value;
      (forall h :: h in BarHours(t) <==> exists r :: r in rows && InScope(s, r) && Hour(r) == h)
      && CountTotal(t) == |InYearScope(rows, s)|
  {
    HourlyTrafficFacts(InYearScope(rows, s));
  }
}
