/** The aggregations of the sales dashboard over the rows of
    `extract_sales_data`: the traffic-source pie, the profit share per product,
    the yearly-profit and sale-day gauges, and the virtual-assistant share. */
module SalesDashboard {
  import opened Strings
  import opened Calendar
  import opened LogRecords
  import opened Grouping
  import opened Ratios
  import opened Catalog
  import opened Countries
  import opened Referrers
  import opened Scope
  import opened Sales

  /** Gauge targets: average yearly profit and days with a sale. */
  const ProfitTarget := 4_000_000
  const SaleDaysTarget := 50

  // ---------------------------------------------------------------------------
  // Traffic sources

  /** The `source` column: the seven-way category of the row's referrer. */
  function Sources(sales: seq<Sale>): (s: seq<string>)
    ensures |s| == |sales| && forall i :: 0 <= i < |sales| ==> s[i] == SourceName(Categorize(sales[i].log.referrer))
  {
    seq(|sales|, i requires 0 <= i < |sales| => SourceName(Categorize(sales[i].log.referrer)))
  }

  /** `groupby('source').size()` sorted by count, largest first; nothing for no
      sales. */
  function TrafficSources(sales: seq<Sale>): Option<seq<(string, int)>>
  {
    if sales == [] then None else Some(RankedGroups(Tally(Sources(sales))))
  }

  /** The pie has a slice exactly when there are sales: one per source that
      occurs, largest first, each holding the number of sales from that source,
      and the slices add up to the number of sales. */
  lemma TrafficSourcesFacts(sales: seq<Sale>)
    ensures TrafficSources(sales).None? <==> sales == []
    ensures TrafficSources(sales).Some? ==> var t := TrafficSources(sales).value;
      Descending(t) && NoDup(Keys(t))
      && (forall k :: k in Keys(t) <==> k in Sources(sales))
      && (forall i :: 0 <= i < |t| ==> t[i].1 == Count(Sources(sales), t[i].0))
      && Total(t) == |sales|
  {
    var src := Sources(sales);
    RankedGroupsFacts(Tally(src));
    assert Keys(Tally(src)) == src;
    TotalTally(src);
    var t := RankedGroups(Tally(src));
    forall i | 0 <= i < |t| ensures t[i].1 == Count(src, t[i].0) {
      SumForTally(src, t[i].0);
    }
  }

  // ---------------------------------------------------------------------------
  // Profit share per product

  /** The (product, profit) columns. */
  function ProfitRows(sales: seq<Sale>): (rows: seq<(string, int)>)
    requires AllPriced(sales)
    ensures |rows| == |sales| && forall i :: 0 <= i < |sales| ==> rows[i] == (sales[i].product, SaleProfit(sales[i]))
  {
    seq(|sales|, i requires 0 <= i < |sales| => (sales[i].product, SaleProfit(sales[i])))
  }

  /** Each group's sum as a percentage of the total. */
  function Shares<K>(g: seq<(K, int)>, total: int): (r: seq<(K, real)>)
    ensures |r| == |g| && forall i :: 0 <= i < |g| ==> r[i] == (g[i].0, Percent(g[i].1, total))
  {
    seq(|g|, i requires 0 <= i < |g| => (g[i].0, Percent(g[i].1, total)))
  }

  function RealTotal<K>(r: seq<(K, real)>): real
  {
    if r == [] then 0.0 else RealTotal(r[..|r| - 1]) + r[|r| - 1].1
  }

  /** `groupby('product')['profit'].sum()` and each sum's percentage of the
      total profit; nothing for no sales. */
  function ProfitShare(sales: seq<Sale>): Option<seq<(string, real)>>
    requires AllPriced(sales)
  {
    if sales == [] then None else
      var g := GroupFirst(ProfitRows(sales));
      Some(Shares(g, Total(g)))
  }

  /** Percentages of one total add up to the percentage of their sum. */
  lemma {:induction false} SharesTotal<K>(g: seq<(K, int)>, total: int)
    ensures RealTotal(Shares(g, total)) == Percent(Total(g), total)
    decreases |g|
  {
    if g != [] {
      var g' := g[..|g| - 1];
      assert Shares(g, total)[..|g| - 1] == Shares(g', total);
      SharesTotal(g', total);
      PercentAdd(Total(g'), g[|g| - 1].1, total);
    }
  }

  lemma PercentAdd(a: int, b: int, total: int)
    ensures Percent(a, total) + Percent(b, total) == Percent(a + b, total)
  {
    if total != 0 {
      assert (a as real / total as real) + (b as real / total as real) == (a + b) as real / total as real;
    }
  }

  /** Grouped positive amounts: every group's share is its key's sum as a
      percentage of the whole, above 0 and at most 100, and the shares add up
      to 100. */
  lemma GroupShares<K(!new)>(rows: seq<(K, int)>)
    requires rows != [] && forall i :: 0 <= i < |rows| ==> rows[i].1 > 0
    ensures var g := GroupFirst(rows); var r := Shares(g, Total(g));
      Keys(r) == Keys(g)
      && (forall i :: 0 <= i < |r| ==> r[i].1 == Percent(SumFor(rows, r[i].0), Total(rows)))
      && (forall i :: 0 <= i < |r| ==> 0.0 < r[i].1 <= 100.0) && RealTotal(r) == 100.0
  {
    var g := GroupFirst(rows);
    var r := Shares(g, Total(g));
    GroupFirstFacts(rows);
    forall i | 0 <= i < |g| ensures 0.0 < r[i].1 <= 100.0 {
      SumForBounds(rows, g[i].0);
      assert g[i].0 in Keys(g);
      PercentBounds(g[i].1, Total(g));
    }
    assert Keys(rows)[0] in Keys(g);
    SumForBounds(rows, Keys(rows)[0]);
    SharesTotal(g, Total(g));
    PercentBounds(Total(g), Total(g));
  }

  /** The products of the (product, profit) rows are those of the sales, and
      every profit is positive. */
  lemma ProfitRowsFacts(sales: seq<Sale>)
    requires AllPriced(sales)
    ensures forall p :: p in Keys(ProfitRows(sales)) <==> exists s :: s in sales && s.product == p
    ensures forall i :: 0 <= i < |sales| ==> ProfitRows(sales)[i].1 > 0
  {
    var rows := ProfitRows(sales);
    forall p ensures p in Keys(rows) <==> exists s :: s in sales && s.product == p {
      if p in Keys(rows) {
        var i :| 0 <= i < |rows| && Keys(rows)[i] == p;
        assert sales[i] in sales;
      }
      if exists s :: s in sales && s.product == p {
        var s :| s in sales && s.product == p;
        var i :| 0 <= i < |sales| && sales[i] == s;
        assert Keys(rows)[i] == p;
      }
    }
  }

  /** With sales, the pie names each product sold once and no other, gives each
      the product's profit as a percentage of the total profit, so above 0 and
      at most 100, and the shares add up to 100. */
  lemma ProfitShareFacts(sales: seq<Sale>)
    requires AllPriced(sales) && sales != []
    ensures var r := ProfitShare(sales).value;
      NoDup(Keys(r)) && (forall p :: p in Keys(r) <==> exists s :: s in sales && s.product == p)
      && (forall i :: 0 <= i < |r| ==> r[i].1 == Percent(SumFor(ProfitRows(sales), r[i].0), Total(ProfitRows(sales))))
      && (forall i :: 0 <= i < |r| ==> 0.0 < r[i].1 <= 100.0)
      && RealTotal(r) == 100.0
  {
    var rows := ProfitRows(sales);
    ProfitRowsFacts(sales);
    GroupFirstFacts(rows);
    GroupShares(rows);
  }

  // ---------------------------------------------------------------------------
  // Average yearly profit

  /** (year, profit) of each row. */
  function YearProfits(sales: seq<Sale>): (rows: seq<(int, int)>)
    requires AllPriced(sales)
    ensures |rows| == |sales| && forall i :: 0 <= i < |sales| ==> rows[i] == (Year(sales[i].log), SaleProfit(sales[i]))
  {
    seq(|sales|, i requires 0 <= i < |sales| => (Year(sales[i].log), SaleProfit(sales[i])))
  }

  /** `groupby('year')['profit'].sum()`. */
  function YearlyProfit(sales: seq<Sale>): seq<(int, int)>
    requires AllPriced(sales)
  {
    GroupByKey(YearProfits(sales))
  }

  /** The profit gauge's value: 0 without sales, otherwise the mean of the
      per-year profit sums. */
  function AverageYearlyProfit(sales: seq<Sale>): real
    requires AllPriced(sales)
  {
    if sales == [] then 0.0 else
      GroupByKeyFacts(YearProfits(sales));
      assert Keys(YearProfits(sales))[0] in Keys(YearlyProfit(sales));
      Mean(Total(YearlyProfit(sales)), |YearlyProfit(sales)|)
  }

  /** With sales, there is one yearly sum per year with a sale, in ascending
      year order, and the gauge's value is the profit of all the rows divided
      by the number of years, so positive and at most that profit. */
  lemma AverageYearlyProfitFacts(sales: seq<Sale>)
    requires AllPriced(sales)
    ensures sales == [] ==> AverageYearlyProfit(sales) == 0.0
    ensures sales != [] ==> var y := YearlyProfit(sales); var total := Total(ProfitRows(sales));
      Increasing(Keys(y))
      && (forall k :: k in Keys(y) <==> exists s :: s in sales && Year(s.log) == k)
      && |y| > 0 && AverageYearlyProfit(sales) == Mean(total, |y|)
      && 0.0 < AverageYearlyProfit(sales) <= total as real
  {
    if sales != [] {
      var rows := YearProfits(sales);
      GroupByKeyFacts(rows);
      YearsOfSales(sales);
      SameTotal(rows, ProfitRows(sales));
      MeanOfGroups(rows);
      var g := GroupByKey(rows);
      assert AverageYearlyProfit(sales) == Mean(Total(g), |g|);
    }
  }

  lemma YearsOfSales(sales: seq<Sale>)
    requires AllPriced(sales)
    ensures forall k :: k in Keys(YearProfits(sales)) <==> exists s :: s in sales && Year(s.log) == k
  {
    var rows := YearProfits(sales);
    forall k ensures k in Keys(rows) <==> exists s :: s in sales && Year(s.log) == k {
      if k in Keys(rows) {
        var i :| 0 <= i < |rows| && Keys(rows)[i] == k;
        assert sales[i] in sales;
      }
      if exists s :: s in sales && Year(s.log) == k {
        var s :| s in sales && Year(s.log) == k;
        var i :| 0 <= i < |sales| && sales[i] == s;
        assert Keys(rows)[i] == k;
      }
    }
  }

  // ---------------------------------------------------------------------------
  // Days with a sale

  function SaleDates(sales: seq<Sale>): (d: seq<Date>)
    ensures |d| == |sales| && forall i :: 0 <= i < |sales| ==> d[i] == sales[i].log.timestamp.date
  {
    seq(|sales|, i requires 0 <= i < |sales| => sales[i].log.timestamp.date)
  }

  /** `timestamp.dt.date.nunique()`, 0 without sales. */
  function SaleDays(sales: seq<Sale>): nat
  {
    if sales == [] then 0 else |Distinct(SaleDates(sales))|
  }

  /** There is a day with a sale exactly when there is a sale, and never more
      days than sales; the count is the number of different dates. */
  lemma SaleDaysFacts(sales: seq<Sale>)
    ensures SaleDays(sales) == 0 <==> sales == []
    ensures SaleDays(sales) <= |sales|
    ensures SaleDays(sales) == |set s: Sale | s in sales :: s.log.timestamp.date|
  {
    DistinctLength(SaleDates(sales));
    DistinctCard(SaleDates(sales));
    assert (set s: Sale | s in sales :: s.log.timestamp.date) == (set x | x in SaleDates(sales)) by {
      forall x | x in SaleDates(sales) ensures x in (set s: Sale | s in sales :: s.log.timestamp.date) {
        var i :| 0 <= i < |sales| && SaleDates(sales)[i] == x;
        assert sales[i] in sales;
      }
    }
  }

  // ---------------------------------------------------------------------------
  // Virtual-assistant requests

  const VirtualAssistant := "/virtual-assistant"

  /** All records, or those whose address the sales dashboard places in the
      chosen country. */
  function CountryLogs(rows: seq<LogRecord>, countryFilter: string): seq<LogRecord>
  {
    if countryFilter == "All" then rows else Filter(rows, (r: LogRecord) => SalesCountry(r.ip) == Some(countryFilter))
  }

  function AssistantLogs(logs: seq<LogRecord>): seq<LogRecord>
  {
    Filter(logs, (r: LogRecord) => Contains(r.url, VirtualAssistant))
  }

  /** `calculate_virtual_assistant_requests`: the percentage of the country's
      records whose URL contains `/virtual-assistant`, 0 when there are none. */
  function AssistantShare(rows: seq<LogRecord>, countryFilter: string): real
  {
    var logs := CountryLogs(rows, countryFilter);
    if logs == [] then 0.0 else Percent(|AssistantLogs(logs)|, |logs|)
  }

  /** The share lies in [0, 100]; it is 100 exactly when there are records and
      every one asks for the assistant, and 0 exactly when none does. */
  lemma AssistantShareFacts(rows: seq<LogRecord>, countryFilter: string)
    ensures var v := AssistantShare(rows, countryFilter); var logs := CountryLogs(rows, countryFilter);
      0.0 <= v <= 100.0
      && (v == 100.0 <==> logs != [] && forall i :: 0 <= i < |logs| ==> Contains(logs[i].url, VirtualAssistant))
      && (v == 0.0 <==> forall i :: 0 <= i < |logs| ==> !Contains(logs[i].url, VirtualAssistant))
  {
    FilterShare(CountryLogs(rows, countryFilter), (r: LogRecord) => Contains(r.url, VirtualAssistant));
  }

  /** The percentage of records a filter keeps lies in [0, 100]; it is 100
      exactly when there are records and it keeps them all, and 0 exactly when
      it keeps none. */
  lemma FilterShare(logs: seq<LogRecord>, keep: LogRecord -> bool)
    ensures var v := Percent(|Filter(logs, keep)|, |logs|);
      0.0 <= v <= 100.0
      && (v == 100.0 <==> logs != [] && forall i :: 0 <= i < |logs| ==> keep(logs[i]))
      && (v == 0.0 <==> forall i :: 0 <= i < |logs| ==> !keep(logs[i]))
  {
    var kept := Filter(logs, keep);
    PercentBounds(|kept|, |logs|);
    FilterAll(logs, keep);
    if kept != [] {
      assert kept[0] in logs;
      var i :| 0 <= i < |logs| && logs[i] == kept[0];
    }
    if exists i :: 0 <= i < |logs| && keep(logs[i]) {
      var i :| 0 <= i < |logs| && keep(logs[i]);
      assert logs[i] in kept;
    }
  }
}
