/** The sales trend chart (`extract_sales_data` and `create_trend_chart` of
    the trend app): sales with a product and a coded country, summed per
    week and sorted by year and week. */
module SalesTrend {
  import opened Strings
  import opened Calendar
  import opened LogRecords
  import opened Grouping
  import opened Countries
  import opened Scope
  import opened Sales

  /** The trend app's rows: every POST record (no year filter) naming a
      priced product whose stripped address has a code. */
  function TrendSales(rows: seq<LogRecord>): seq<Sale>
  {
    CountrySales(Filter(rows, IsPost), TrendPrefixes)
  }

  lemma TrendSalesDated(rows: seq<LogRecord>)
    requires Dated(rows)
    ensures SalesDated(TrendSales(rows)) && AllPriced(TrendSales(rows))
  {
    var sales := TrendSales(rows);
    forall i | 0 <= i < |sales| ensures ValidDate(sales[i].log.timestamp.date) && Priced(sales[i]) {
      CountrySalesSound(Filter(rows, IsPost), TrendPrefixes, sales[i]);
    }
  }

  // ---------------------------------------------------------------------------
  // Week keys

  /** Which year goes with the ISO week: the source takes the calendar year
      (`date().year`); the ISO year (`isocalendar()[0]`) is the one that
      belongs with the week number. */
  datatype YearRule = CalendarYear | IsoYear

  /** The `year` column of a date under a rule. */
  function WeekYear(rule: YearRule, d: Date): int
    requires ValidDate(d)
  {
    match rule
    case CalendarYear => d.year
    case IsoYear => IsoCalendar(d).isoYear
  }

  /** The `week` column: `isocalendar()[1]`. */
  function WeekOf(d: Date): int
    requires ValidDate(d)
  {
    IsoCalendar(d).week
  }

  /** (year, week) as one integer that orders as the pair does. */
  function WeekKey(rule: YearRule, d: Date): int
    requires ValidDate(d)
  {
    WeekYear(rule, d) * 100 + WeekOf(d)
  }

  /** A key gives back its year and week, and keys order as (year, week) pairs
      do. */
  lemma WeekKeyFacts(rule: YearRule, d: Date, e: Date)
    requires ValidDate(d) && ValidDate(e)
    ensures 1 <= WeekOf(d) <= 53
    ensures WeekKey(rule, d) / 100 == WeekYear(rule, d) && WeekKey(rule, d) % 100 == WeekOf(d)
    ensures WeekKey(rule, d) < WeekKey(rule, e) <==>
      WeekYear(rule, d) < WeekYear(rule, e) || (WeekYear(rule, d) == WeekYear(rule, e) && WeekOf(d) < WeekOf(e))
  {
    IsoCalendarFacts(d);
    IsoCalendarFacts(e);
  }

  /** With the ISO year, two dates share a key exactly when they lie in the
      same Monday-to-Sunday week. */
  lemma IsoKeyIsWeek(d: Date, e: Date)
    requires ValidDate(d) && ValidDate(e)
    ensures WeekKey(IsoYear, d) == WeekKey(IsoYear, e) <==> MondayOrdinal(d) == MondayOrdinal(e)
  {
    WeekKeyFacts(IsoYear, d, e);
    WeekKeyFacts(IsoYear, e, d);
    IsoWeekIsMondayWeek(d, e);
  }

  /** With the calendar year, 2024-12-30 (ISO week 1 of 2025) and 2024-01-01
      (ISO week 1 of 2024) fall in the same bucket, `2024-W01`, although they
      lie 52 weeks apart; with the ISO year they do not. */
  lemma CalendarYearMergesWeeks(d: Date, e: Date)
    requires d == Date(2024, 12, 30) && e == Date(2024, 1, 1)
    ensures ValidDate(d) && ValidDate(e)
    ensures WeekKey(CalendarYear, d) == WeekKey(CalendarYear, e) == 2024 * 100 + 1
    ensures MondayOrdinal(d) == MondayOrdinal(e) + 52 * 7
    ensures WeekKey(IsoYear, d) == 2025 * 100 + 1 && WeekKey(IsoYear, e) == 2024 * 100 + 1
  {
    var y := d.year;
    DaysBeforeYearClosedForm(y - 1);
    DaysBeforeYearClosedForm(y);
    DaysBeforeYearClosedForm(y + 1);
    assert DaysBeforeYear(y - 1) == 738520;
    assert DaysBeforeYear(y) == 738885;
    assert DaysBeforeYear(y + 1) == 739251;
    assert Ordinal(d) == 739250 && Ordinal(e) == 738886;
    assert IsoWeek1Monday(y - 1) == 738522;
    assert IsoWeek1Monday(y) == 738886;
    assert IsoWeek1Monday(y + 1) == 739250;
    assert IsoCalendar(d) == IsoDate(2025, 1, 1);
    assert IsoCalendar(e) == IsoDate(2024, 1, 1);
  }

  // ---------------------------------------------------------------------------
  // The weekly table

  /** (key, amount) per row. */
  function KeyedAmounts(rule: YearRule, sales: seq<Sale>): (k: seq<(int, int)>)
    requires SalesDated(sales)
    ensures |k| == |sales|
    ensures forall i :: 0 <= i < |sales| ==> k[i] == (WeekKey(rule, sales[i].log.timestamp.date), sales[i].amount)
  {
    seq(|sales|, i requires 0 <= i < |sales| => (WeekKey(rule, sales[i].log.timestamp.date), sales[i].amount))
  }

  /** One row of the weekly table. */
  datatype WeekRow = WeekRow(year: int, week: int, yearWeek: string, amount: int)

  /** `df['year'].astype(str) + '-W' + df['week'].astype(str).str.zfill(2)`. */
  function WeekLabel(year: int, week: int): string
  {
    IntToStr(year) + "-W" + ZFill2(IntToStr(week))
  }

  /** A row from a (key, sum) group. */
  function RowOfGroup(g: (int, int)): WeekRow
  {
    WeekRow(g.0 / 100, g.0 % 100, WeekLabel(g.0 / 100, g.0 % 100), g.1)
  }

  function RowsOfGroups(g: seq<(int, int)>): (t: seq<WeekRow>)
    ensures |t| == |g| && forall i :: 0 <= i < |g| ==> t[i] == RowOfGroup(g[i])
  {
    seq(|g|, i requires 0 <= i < |g| => RowOfGroup(g[i]))
  }

  /** `create_trend_chart(df)` up to the figure: nothing without sales,
      otherwise `groupby(['year', 'week', 'year_week'])['amount'].sum()`
      sorted by year and week. */
  function WeeklyTable(rule: YearRule, sales: seq<Sale>): Option<seq<WeekRow>>
    requires SalesDated(sales)
  {
    if sales == [] then None else Some(RowsOfGroups(GroupByKey(KeyedAmounts(rule, sales))))
  }

  /** The chart as the source computes it (calendar year with ISO week). */
  function TrendChartAsWritten(rows: seq<LogRecord>): Option<seq<WeekRow>>
    requires Dated(rows)
  {
    TrendSalesDated(rows);
    WeeklyTable(CalendarYear, TrendSales(rows))
  }

  /** The chart with the ISO year that belongs with the ISO week. */
  function TrendChart(rows: seq<LogRecord>): Option<seq<WeekRow>>
    requires Dated(rows)
  {
    TrendSalesDated(rows);
    WeeklyTable(IsoYear, TrendSales(rows))
  }

  /** The sum of the amount column. */
  function AmountTotal(t: seq<WeekRow>): int
  {
    if t == [] then 0 else AmountTotal(t[..|t| - 1]) + t[|t| - 1].amount
  }

  /** The sum of the rows' amounts. */
  function SalesTotal(sales: seq<Sale>): int
  {
    if sales == [] then 0 else SalesTotal(sales[..|sales| - 1]) + sales[|sales| - 1].amount
  }

  lemma {:induction false} KeyedTotal(rule: YearRule, sales: seq<Sale>)
    requires SalesDated(sales)
    ensures Total(KeyedAmounts(rule, sales)) == SalesTotal(sales)
    decreases |sales|
  {
    if sales != [] {
      var sales' := sales[..|sales| - 1];
      assert SalesDated(sales');
      KeyedTotal(rule, sales');
      assert KeyedAmounts(rule, sales)[..|sales'|] == KeyedAmounts(rule, sales');
    }
  }

  lemma {:induction false} RowsTotal(g: seq<(int, int)>)
    ensures AmountTotal(RowsOfGroups(g)) == Total(g)
    decreases |g|
  {
    if g != [] {
      RowsTotal(g[..|g| - 1]);
      assert RowsOfGroups(g)[..|g| - 1] == RowsOfGroups(g[..|g| - 1]);
    }
  }

  /** The label writes the year, `-W`, and the week as digits (two of them for
      a one-digit week) that read back as the week. */
  lemma WeekLabelFacts(year: int, week: int)
    requires 1 <= week
    ensures var z := ZFill2(IntToStr(week));
      WeekLabel(year, week) == IntToStr(year) + "-W" + z
      && ParseInt(IntToStr(year)) == Some(year) && AllDigits(z) && DecValue(z) == week
      && |z| >= 2
  {
    ParseIntToStr(year);
    DecValueZFill2(week);
  }

  /** Each row has a week from 1 to 53, its label, a key `year * 100 + week`
      that occurs among the keyed rows, and the sum of that key's amounts. */
  predicate SummedWeeks(t: seq<WeekRow>, k: seq<(int, int)>)
  {
    forall i :: 0 <= i < |t| ==> SummedWeek(t[i], k)
  }

  predicate SummedWeek(r: WeekRow, k: seq<(int, int)>)
  {
    1 <= r.week <= 53 && r.yearWeek == WeekLabel(r.year, r.week)
    && r.year * 100 + r.week in Keys(k) && r.amount == SumFor(k, r.year * 100 + r.week)
  }

  /** The rows ascend strictly by (year, week). */
  predicate AscendingWeeks(t: seq<WeekRow>)
  {
    forall i, j :: 0 <= i < j < |t| ==>
      t[i].year < t[j].year || (t[i].year == t[j].year && t[i].week < t[j].week)
  }

  /** Every sale's (year, week) under the rule has a row. */
  predicate CoversSales(rule: YearRule, sales: seq<Sale>, t: seq<WeekRow>)
    requires SalesDated(sales)
  {
    forall i :: 0 <= i < |sales| ==>
      HasWeek(t, WeekYear(rule, sales[i].log.timestamp.date), WeekOf(sales[i].log.timestamp.date))
  }

  /** Some row is the row of that year and week. */
  predicate HasWeek(t: seq<WeekRow>, year: int, week: int)
  {
    exists j :: 0 <= j < |t| && t[j].year == year && t[j].week == week
  }

  /** Nothing exactly without sales; otherwise one row per (year, week) that
      occurs, in ascending (year, week) order, weeks 1 to 53, each row holding
      the sum of its week's amounts, and the rows adding up to all sales. */
  lemma WeeklyTableFacts(rule: YearRule, sales: seq<Sale>)
    requires SalesDated(sales)
    ensures WeeklyTable(rule, sales).None? <==> sales == []
    ensures WeeklyTable(rule, sales).Some? ==>
      SummedWeeks(WeeklyTable(rule, sales).value, KeyedAmounts(rule, sales))
      && AscendingWeeks(WeeklyTable(rule, sales).value)
      && CoversSales(rule, sales, WeeklyTable(rule, sales).value)
      && AmountTotal(WeeklyTable(rule, sales).value) == SalesTotal(sales)
  {
    if sales != [] {
      var k := KeyedAmounts(rule, sales);
      var g := GroupByKey(k);
      GroupByKeyFacts(k);
      KeyedTotal(rule, sales);
      RowsTotal(g);
      KeyedWeeks(rule, sales);
      GroupKeys(g, k);
      RowsOfGroupsFacts(g, k);
      RowsOfGroupsOrder(g);
      WeeklyCovers(rule, sales, g);
    }
  }

  /** The groups of the keyed rows give a row for every sale. */
  lemma WeeklyCovers(rule: YearRule, sales: seq<Sale>, g: seq<(int, int)>)
    requires SalesDated(sales)
    requires forall x :: x in Keys(g) <==> x in Keys(KeyedAmounts(rule, sales))
    ensures CoversSales(rule, sales, RowsOfGroups(g))
  {
    forall i | 0 <= i < |sales|
      ensures HasWeek(RowsOfGroups(g), WeekYear(rule, sales[i].log.timestamp.date), WeekOf(sales[i].log.timestamp.date))
    {
      WeeklyCover(rule, sales, g, i);
    }
  }

  /** Every key of the keyed rows has a week from 1 to 53. */
  lemma KeyedWeeks(rule: YearRule, sales: seq<Sale>)
    requires SalesDated(sales)
    ensures forall x :: x in Keys(KeyedAmounts(rule, sales)) ==> 1 <= x % 100 <= 53
  {
    var k := KeyedAmounts(rule, sales);
    forall x | x in Keys(k) ensures 1 <= x % 100 <= 53 {
      var m :| 0 <= m < |k| && Keys(k)[m] == x;
      WeekKeyFacts(rule, sales[m].log.timestamp.date, sales[m].log.timestamp.date);
    }
  }

  /** Every group's key is a key of the keyed rows, so it has a week from 1
      to 53. */
  lemma GroupKeys(g: seq<(int, int)>, k: seq<(int, int)>)
    requires forall x :: x in Keys(g) <==> x in Keys(k)
    requires forall x :: x in Keys(k) ==> 1 <= x % 100 <= 53
    ensures forall i :: 0 <= i < |g| ==> g[i].0 in Keys(k) && 1 <= g[i].0 % 100 <= 53
  {
    forall i | 0 <= i < |g| ensures g[i].0 in Keys(k) {
      assert Keys(g)[i] == g[i].0;
      assert Keys(g)[i] in Keys(g);
    }
  }

  /** Rows built from groups whose keys have weeks 1 to 53 carry those keys
      as (year, week) with their sums. */
  lemma RowsOfGroupsFacts(g: seq<(int, int)>, k: seq<(int, int)>)
    requires forall i :: 0 <= i < |g| ==> g[i].0 in Keys(k) && g[i].1 == SumFor(k, g[i].0)
    requires forall i :: 0 <= i < |g| ==> 1 <= g[i].0 % 100 <= 53
    ensures SummedWeeks(RowsOfGroups(g), k)
  {
    var t := RowsOfGroups(g);
    forall i | 0 <= i < |t| ensures SummedWeek(t[i], k) {
      RowOfGroupFacts(g[i]);
    }
  }

  /** Rows built from groups with ascending keys of weeks 1 to 53 ascend by
      (year, week). */
  lemma RowsOfGroupsOrder(g: seq<(int, int)>)
    requires Increasing(Keys(g))
    requires forall i :: 0 <= i < |g| ==> 1 <= g[i].0 % 100 <= 53
    ensures AscendingWeeks(RowsOfGroups(g))
  {
    var t := RowsOfGroups(g);
    forall i, j | 0 <= i < j < |t|
      ensures t[i].year < t[j].year || (t[i].year == t[j].year && t[i].week < t[j].week)
    {
      assert Keys(g)[i] < Keys(g)[j];
      RowOfGroupFacts(g[i]);
      RowOfGroupFacts(g[j]);
    }
  }

  /** A row of a group whose key has a week from 1 to 53 splits the key
      into its year and week and keeps the sum. */
  lemma RowOfGroupFacts(x: (int, int))
    requires 1 <= x.0 % 100 <= 53
    ensures var r := RowOfGroup(x);
      r.year * 100 + r.week == x.0 && 1 <= r.week <= 53
      && r.yearWeek == WeekLabel(r.year, r.week) && r.amount == x.1
  {
  }

  /** The group of a row's key gives a row with that row's year and week. */
  lemma WeeklyCover(rule: YearRule, sales: seq<Sale>, g: seq<(int, int)>, i: int)
    requires SalesDated(sales) && 0 <= i < |sales|
    requires forall x :: x in Keys(g) <==> x in Keys(KeyedAmounts(rule, sales))
    ensures HasWeek(RowsOfGroups(g), WeekYear(rule, sales[i].log.timestamp.date), WeekOf(sales[i].log.timestamp.date))
  {
    var d := sales[i].log.timestamp.date;
    var k := KeyedAmounts(rule, sales);
    var key := WeekKey(rule, d);
    assert Keys(k)[i] == key;
    assert key in Keys(k);
    assert key in Keys(g);
    var j :| 0 <= j < |g| && Keys(g)[j] == key;
    WeekKeyFacts(rule, d, d);
    assert RowsOfGroups(g)[j].year == WeekYear(rule, d);
  }
}
