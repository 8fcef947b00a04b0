/** The average weekly profit line chart (`create_referrer_chart`): the
    catalogue prices of the POST records of the chosen year, grouped by the
    week of their timestamp and averaged per week. A week is a `W` period of
    pandas, Monday to Sunday, and is shown by its Monday (`start_time`); here
    that Monday is kept as its day number (`Ordinal`). */
module WeeklyProfit {
  import opened Strings
  import opened Calendar
  import opened LogRecords
  import opened Grouping
  import opened Ratios
  import opened Catalog
  import opened Scope
  import opened Sales

  /** One point of the line: the week's Monday and `average_profit`. */
  datatype WeekMean = WeekMean(monday: int, averageProfit: real)

  /** The `week` and `amount` columns. */
  function WeekAmounts(sales: seq<Sale>): (rows: seq<(int, int)>)
    requires SalesDated(sales)
    ensures |rows| == |sales|
    ensures forall i :: 0 <= i < |sales| ==> rows[i] == (MondayOrdinal(sales[i].log.timestamp.date), sales[i].amount)
  {
    seq(|sales|, i requires 0 <= i < |sales| => (MondayOrdinal(sales[i].log.timestamp.date), sales[i].amount))
  }

  /** The groups all occur among the keyed rows. */
  predicate GroupsOf(g: seq<(int, int)>, rows: seq<(int, int)>)
  {
    forall i :: 0 <= i < |g| ==> g[i].0 in Keys(rows)
  }

  /** `mean()` of each week's group: its sum over its number of rows. */
  function WeekMeans(g: seq<(int, int)>, rows: seq<(int, int)>): (t: seq<WeekMean>)
    requires GroupsOf(g, rows)
    ensures |t| == |g| && forall i :: 0 <= i < |g| ==> t[i].monday == g[i].0
  {
    seq(|g|, i requires 0 <= i < |g| => WeekMean(g[i].0, Mean(g[i].1, Count(Keys(rows), g[i].0))))
  }

  /** `create_referrer_chart(year)` up to the figure: nothing ("No sales data
      available") without sales, otherwise
      `groupby("week")["amount"].mean()`, one point per week in week order. */
  function WeeklyAverage(rows: seq<LogRecord>, s: Scope): Option<seq<WeekMean>>
    requires Dated(rows)
  {
    ScopeSalesDated(rows, s);
    var sales := ScopeSales(rows, s);
    if sales == [] then None else
      var k := WeekAmounts(sales);
      GroupByKeyOccurs(k);
      Some(WeekMeans(GroupByKey(k), k))
  }

  /** The Mondays of the points, in order. */
  function Mondays(t: seq<WeekMean>): (m: seq<int>)
    ensures |m| == |t| && forall i :: 0 <= i < |t| ==> m[i] == t[i].monday
  {
    seq(|t|, i requires 0 <= i < |t| => t[i].monday)
  }

  /** The number of sales in the week starting on a Monday. */
  function SalesInWeek(sales: seq<Sale>, monday: int): nat
    requires SalesDated(sales)
  {
    Count(Keys(WeekAmounts(sales)), monday)
  }

  // ---------------------------------------------------------------------------
  // Properties

  /** Every keyed week starts on a Monday. */
  lemma WeekAmountsMondays(sales: seq<Sale>)
    requires SalesDated(sales)
    ensures forall i :: 0 <= i < |sales| ==> WeekdayOfOrdinal(WeekAmounts(sales)[i].0) == 0
  {
    forall i | 0 <= i < |sales| ensures WeekdayOfOrdinal(WeekAmounts(sales)[i].0) == 0 {
      WeekdayBelowOrdinal(sales[i].log.timestamp.date);
    }
  }

  /** A date lies in the week of its Monday: no earlier, fewer than seven days later. */
  lemma WeekOfSale(sales: seq<Sale>, i: nat)
    requires SalesDated(sales) && i < |sales|
    ensures var d := sales[i].log.timestamp.date;
      WeekAmounts(sales)[i].0 <= Ordinal(d) < WeekAmounts(sales)[i].0 + 7
  {
    var d := sales[i].log.timestamp.date;
    var w := WeekStart(d);
  }

  /** Every amount is a catalogue price. */
  lemma WeekAmountsPriced(sales: seq<Sale>)
    requires SalesDated(sales) && AllPriced(sales)
    ensures forall j :: 0 <= j < |sales| ==> MinPrice <= WeekAmounts(sales)[j].1 <= MaxPrice
  {
    forall j | 0 <= j < |sales| ensures MinPrice <= WeekAmounts(sales)[j].1 <= MaxPrice {
      assert Priced(sales[j]);
      PriceRange(sales[j].product);
    }
  }

  /** A group's mean is its sum over its number of rows, and lies between
      bounds that every amount lies between. */
  lemma GroupMeanBounds(k: seq<(int, int)>, i: nat, lo: int, hi: int)
    requires forall j :: 0 <= j < |k| ==> lo <= k[j].1 <= hi
    requires i < |GroupByKey(k)|
    ensures GroupsOf(GroupByKey(k), k)
    ensures var g := GroupByKey(k); var t := WeekMeans(g, k); var n := Count(Keys(k), g[i].0);
      n > 0 && t[i].averageProfit == Mean(SumFor(k, g[i].0), n)
      && lo as real <= t[i].averageProfit <= hi as real
  {
    var g := GroupByKey(k);
    GroupByKeyOccurs(k);
    GroupByKeyFacts(k);
    var key := g[i].0;
    var n := Count(Keys(k), key);
    assert n > 0;
    var t := WeekMeans(g, k);
    assert g[i].1 == SumFor(k, key);
    assert t[i].averageProfit == Mean(SumFor(k, key), n);
    SumForBetween(k, key, lo, hi);
    MeanBetween(SumFor(k, key), n, lo, hi);
  }

  /** Each point's average is the week's amounts over the week's sales, and
      lies between the cheapest and the dearest price. */
  predicate AveragedWeeks(sales: seq<Sale>, t: seq<WeekMean>)
    requires SalesDated(sales)
  {
    forall i :: 0 <= i < |t| ==>
      SalesInWeek(sales, t[i].monday) > 0
      && t[i].averageProfit == Mean(SumFor(WeekAmounts(sales), t[i].monday), SalesInWeek(sales, t[i].monday))
      && MinPrice as real <= t[i].averageProfit <= MaxPrice as real
  }

  lemma WeekMeansAveraged(sales: seq<Sale>)
    requires SalesDated(sales) && AllPriced(sales)
    ensures GroupsOf(GroupByKey(WeekAmounts(sales)), WeekAmounts(sales))
    ensures AveragedWeeks(sales, WeekMeans(GroupByKey(WeekAmounts(sales)), WeekAmounts(sales)))
  {
    var k := WeekAmounts(sales);
    var g := GroupByKey(k);
    GroupByKeyOccurs(k);
    var t := WeekMeans(g, k);
    WeekAmountsPriced(sales);
    forall i | 0 <= i < |t|
      ensures SalesInWeek(sales, t[i].monday) > 0
      ensures t[i].averageProfit == Mean(SumFor(k, t[i].monday), SalesInWeek(sales, t[i].monday))
      ensures MinPrice as real <= t[i].averageProfit <= MaxPrice as real
    {
      GroupMeanBounds(k, i, MinPrice, MaxPrice);
    }
  }

  /** A week has a point exactly when one of the sales falls in it. */
  ghost predicate CoversWeeks(sales: seq<Sale>, t: seq<WeekMean>)
    requires SalesDated(sales)
  {
    forall m :: m in Mondays(t) <==> exists i :: 0 <= i < |sales| && MondayOrdinal(sales[i].log.timestamp.date) == m
  }

  lemma WeekMeansCover(sales: seq<Sale>)
    requires SalesDated(sales)
    ensures GroupsOf(GroupByKey(WeekAmounts(sales)), WeekAmounts(sales))
    ensures CoversWeeks(sales, WeekMeans(GroupByKey(WeekAmounts(sales)), WeekAmounts(sales)))
  {
    var k := WeekAmounts(sales);
    var g := GroupByKey(k);
    GroupByKeyOccurs(k);
    var t := WeekMeans(g, k);
    assert Mondays(t) == Keys(g);
    forall m ensures m in Mondays(t) <==> exists i :: 0 <= i < |sales| && MondayOrdinal(sales[i].log.timestamp.date) == m {
      WeeksOfSales(sales, m);
    }
  }

  /** A week has a point exactly when one of the sales falls in it. */
  lemma WeeksOfSales(sales: seq<Sale>, m: int)
    requires SalesDated(sales)
    ensures m in Keys(GroupByKey(WeekAmounts(sales))) <==>
      exists i :: 0 <= i < |sales| && MondayOrdinal(sales[i].log.timestamp.date) == m
  {
    var k := WeekAmounts(sales);
    GroupByKeyFacts(k);
    if m in Keys(k) {
      var i :| 0 <= i < |k| && Keys(k)[i] == m;
    }
    if exists i :: 0 <= i < |sales| && MondayOrdinal(sales[i].log.timestamp.date) == m {
      var i :| 0 <= i < |sales| && MondayOrdinal(sales[i].log.timestamp.date) == m;
      assert Keys(k)[i] == m;
    }
  }

  /** The points are in ascending week order, each on a Monday. */
  lemma WeekOrder(sales: seq<Sale>)
    requires SalesDated(sales)
    ensures var k := WeekAmounts(sales); var g := GroupByKey(k);
      GroupsOf(g, k)
      && Increasing(Mondays(WeekMeans(g, k)))
      && forall i :: 0 <= i < |g| ==> WeekdayOfOrdinal(g[i].0) == 0
  {
    var k := WeekAmounts(sales);
    var g := GroupByKey(k);
    GroupByKeyOccurs(k);
    GroupByKeyFacts(k);
    WeekAmountsMondays(sales);
    assert Mondays(WeekMeans(g, k)) == Keys(g);
    forall i | 0 <= i < |g| ensures WeekdayOfOrdinal(g[i].0) == 0 {
      assert g[i].0 in Keys(k);
      var j :| 0 <= j < |k| && Keys(k)[j] == g[i].0;
    }
  }

  /** The chart is empty exactly when no POST record of the scope names a
      product; otherwise its points are in ascending week order, each on a
      Monday; a week has a point exactly when a sale falls in it; and each
      point's average is the week's amounts over the week's sales, between
      the cheapest and the dearest price. */
  lemma WeeklyAverageFacts(rows: seq<LogRecord>, s: Scope)
    requires Dated(rows)
    ensures WeeklyAverage(rows, s).None? <==>
      forall i :: 0 <= i < |rows| && IsPost(rows[i]) && InScope(s, rows[i]) ==> ProductOf(rows[i].url).None?
    ensures WeeklyAverage(rows, s).Some? ==>
      var t := WeeklyAverage(rows, s).value; var sales := ScopeSales(rows, s);
      SalesDated(sales)
      && Increasing(Mondays(t))
      && (forall i :: 0 <= i < |t| ==> WeekdayOfOrdinal(t[i].monday) == 0)
      && CoversWeeks(sales, t)
      && AveragedWeeks(sales, t)
  {
    ScopeSalesEmpty(rows, s);
    ScopeSalesDated(rows, s);
    var sales := ScopeSales(rows, s);
    if sales != [] {
      WeekOrder(sales);
      WeekMeansCover(sales);
      WeekMeansAveraged(sales);
    }
  }
}
