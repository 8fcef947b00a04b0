/** The profit gauge of the sales dashboard (`create_profit_gauge_chart`): the
    catalogue prices of the POST records of the chosen year, added up. With
    every year chosen (`'all'`) the gauge shows the mean of the yearly sums
    instead. */
module ProfitGauge {
  import opened Strings
  import opened LogRecords
  import opened Grouping
  import opened Ratios
  import opened Catalog
  import opened Scope
  import opened Sales

  /** `target`: the gauge's threshold line. */
  const Target: int := 15_000_000

  /** The `year` (from `timestamp.dt.year`) and `amount` columns. */
  function YearAmounts(sales: seq<Sale>): (rows: seq<(int, int)>)
    ensures |rows| == |sales| && forall i :: 0 <= i < |sales| ==> rows[i] == (Year(sales[i].log), sales[i].amount)
  {
    seq(|sales|, i requires 0 <= i < |sales| => (Year(sales[i].log), sales[i].amount))
  }

  /** `df.groupby('year')['amount'].sum().mean()` over at least one sale. */
  function YearlyMean(sales: seq<Sale>): real
    requires sales != []
  {
    var rows := YearAmounts(sales);
    GroupByKeyFacts(rows);
    assert Keys(rows)[0] in Keys(GroupByKey(rows));
    Mean(Total(GroupByKey(rows)), |GroupByKey(rows)|)
  }

  /** `avg_profit`: None when `int(year)` would raise; 0 without sales; the
      mean of the yearly sums when the year is `'all'`; otherwise the sum of
      the amounts, also when no year or an empty one is given and every year
      is kept. */
  function GaugeValue(rows: seq<LogRecord>, year: Option<string>): Option<real>
  {
    match ScopeOf(year)
    case None => None
    case Some(s) =>
      var sales := ScopeSales(rows, s);
      if sales == [] then Some(0.0)
      else if year == Some("all") then Some(YearlyMean(sales))
      else Some(Total(YearAmounts(sales)) as real)
  }

  /** The colour of the gauge's bar. */
  datatype Colour = Green | Orange | Red

  /** Green from the target up, orange from 60 percent of it, red below. */
  function BarColour(v: real): Colour
  {
    if v >= Target as real then Green else if v >= 0.6 * Target as real then Orange else Red
  }

  function ColourRank(c: Colour): int
  {
    match c
    case Red => 0
    case Orange => 1
    case Green => 2
  }

  /** The bar is red below 9 000 000, green from 15 000 000, orange between,
      and a larger value never gets a lower colour. */
  lemma BarColourFacts(v: real, w: real)
    ensures BarColour(v) == Red <==> v < 9_000_000.0
    ensures BarColour(v) == Green <==> v >= 15_000_000.0
    ensures BarColour(v) == Orange <==> 9_000_000.0 <= v < 15_000_000.0
    ensures v <= w ==> ColourRank(BarColour(v)) <= ColourRank(BarColour(w))
  {
  }

  // ---------------------------------------------------------------------------
  // Properties

  /** The amounts are catalogue prices, so each is positive. */
  lemma YearAmountsPositive(sales: seq<Sale>)
    requires AllPriced(sales)
    ensures forall i :: 0 <= i < |YearAmounts(sales)| ==> YearAmounts(sales)[i].1 >= MinPrice > 0
  {
    forall i | 0 <= i < |sales| ensures YearAmounts(sales)[i].1 >= MinPrice {
      assert Priced(sales[i]);
      PriceRange(sales[i].product);
    }
  }

  /** A year has a yearly sum exactly when some row is of that year. */
  lemma YearsOfAmounts(sales: seq<Sale>, y: int)
    ensures y in Keys(YearAmounts(sales)) <==> exists t :: t in sales && Year(t.log) == y
  {
    var rows := YearAmounts(sales);
    if y in Keys(rows) {
      var i :| 0 <= i < |rows| && Keys(rows)[i] == y;
      assert sales[i] in sales;
    }
    if exists t :: t in sales && Year(t.log) == y {
      var t :| t in sales && Year(t.log) == y;
      var i :| 0 <= i < |sales| && sales[i] == t;
      assert Keys(rows)[i] == y;
    }
  }

  /** The yearly mean is the total of the amounts over the number of years
      with a sale, one yearly sum per such year in ascending order; it is
      positive and at most the total. */
  lemma YearlyMeanFacts(sales: seq<Sale>)
    requires sales != [] && AllPriced(sales)
    ensures var g := GroupByKey(YearAmounts(sales)); var total := Total(YearAmounts(sales));
      |g| > 0 && Increasing(Keys(g))
      && (forall y :: y in Keys(g) <==> exists t :: t in sales && Year(t.log) == y)
      && YearlyMean(sales) == Mean(total, |g|)
      && 0.0 < YearlyMean(sales) <= total as real
  {
    var rows := YearAmounts(sales);
    var g := GroupByKey(rows);
    GroupByKeyFacts(rows);
    YearAmountsPositive(sales);
    MeanOfGroups(rows);
    forall y ensures y in Keys(g) <==> exists t :: t in sales && Year(t.log) == y {
      YearsOfAmounts(sales, y);
    }
  }

  /** The gauge has no value exactly when the year does not parse; without
      sales it shows 0; with `'all'` it shows the mean over the years with a
      sale, positive and at most the total; with any other year it shows the
      total itself, which is positive. */
  lemma GaugeValueFacts(rows: seq<LogRecord>, year: Option<string>)
    ensures GaugeValue(rows, year).None? <==> ScopeOf(year).None?
    ensures ScopeOf(year).Some? ==> var sales := ScopeSales(rows, ScopeOf(year).value);
      var total := Total(YearAmounts(sales)); var v := GaugeValue(rows, year).value;
      (sales == [] ==> v == 0.0)
      && (sales != [] && year == Some("all") ==>
            var g := GroupByKey(YearAmounts(sales));
            |g| > 0 && (forall y :: y in Keys(g) <==> exists t :: t in sales && Year(t.log) == y)
            && v == Mean(total, |g|) && 0.0 < v <= total as real)
      && (sales != [] && year != Some("all") ==> v == total as real && total > 0)
  {
    if ScopeOf(year).Some? {
      var sales := ScopeSales(rows, ScopeOf(year).value);
      CatalogSalesPriced(PostsIn(rows, ScopeOf(year).value));
      if sales != [] {
        YearlyMeanFacts(sales);
      }
    }
  }

  /** Given the year `'all'` the gauge averages the yearly sums, while no year
      or an empty one keeps the same records but shows their total: with sales
      in two different years the two values differ. */
  lemma AllDiffersFromUnset(rows: seq<LogRecord>, a: Sale, b: Sale)
    requires a in ScopeSales(rows, AllYears) && b in ScopeSales(rows, AllYears) && Year(a.log) != Year(b.log)
    ensures GaugeValue(rows, Some("all")).Some? && GaugeValue(rows, None).Some?
    ensures GaugeValue(rows, Some("all")).value < GaugeValue(rows, None).value
  {
    var sales := ScopeSales(rows, AllYears);
    CatalogSalesPriced(PostsIn(rows, AllYears));
    AllAndUnset(rows);
    TwoYearsMean(sales, a, b);
  }

  /** With every year kept, `'all'` gives the yearly mean and no year gives
      the total. */
  lemma AllAndUnset(rows: seq<LogRecord>)
    requires ScopeSales(rows, AllYears) != []
    ensures var sales := ScopeSales(rows, AllYears);
      GaugeValue(rows, Some("all")) == Some(YearlyMean(sales))
      && GaugeValue(rows, None) == Some(Total(YearAmounts(sales)) as real)
  {
  }

  /** Over sales of two different years the yearly mean is below the total. */
  lemma TwoYearsMean(sales: seq<Sale>, a: Sale, b: Sale)
    requires AllPriced(sales) && a in sales && b in sales && Year(a.log) != Year(b.log)
    ensures YearlyMean(sales) < Total(YearAmounts(sales)) as real
  {
    var g := GroupByKey(YearAmounts(sales));
    YearlyMeanFacts(sales);
    assert Year(a.log) in Keys(g) && Year(b.log) in Keys(g);
    TwoMembers(Keys(g), Year(a.log), Year(b.log));
    TwoGroupsMean(Total(YearAmounts(sales)), |g|);
  }

  /** A sequence holding two different values has at least two elements. */
  lemma TwoMembers(s: seq<int>, x: int, y: int)
    requires x in s && y in s && x != y
    ensures |s| >= 2
  {
    var i :| 0 <= i < |s| && s[i] == x;
    var j :| 0 <= j < |s| && s[j] == y;
  }

  /** Dividing a positive total by two or more makes it smaller. */
  lemma TwoGroupsMean(total: int, n: int)
    requires total > 0 && n >= 2
    ensures Mean(total, n) < total as real
  {
    MeanTimes(total, n);
  }
}
