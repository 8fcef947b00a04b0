/** `create_sales_by_country_chart`: each country's sales against its target,
    split into the achieved, over-achieved and under-achieved parts. */
module SalesByCountry {
  import opened Strings
  import opened LogRecords
  import opened Grouping
  import opened Catalog
  import opened Countries
  import opened Scope
  import opened Sales

  /** `COUNTRY_TARGETS`. */
  const Targets: seq<(string, int)> :=
    [("Botswana", 10_000_000), ("Namibia", 5_000_000), ("Zambia", 2_000_000), ("Zimbabwe", 2_000_000)]

  /** `targets.get(c)` for a table of (country, target) rows; the chart uses it
      with `Targets` (`COUNTRY_TARGETS.get(c)`). */
  function Lookup(targets: seq<(string, int)>, c: string): (t: Option<int>)
    ensures t.Some? <==> c in Keys(targets)
  {
    var i := Position(Keys(targets), c);
    if i < |targets| then Some(targets[i].1) else None
  }

  /** Every country of the chart's prefix table has a positive target. */
  lemma TargetsCoverTable()
    ensures forall i :: 0 <= i < |TargetPrefixes| ==> Lookup(Targets, TargetPrefixes[i].1).Some? && Lookup(Targets, TargetPrefixes[i].1).value > 0
  {
    assert Keys(Targets) == ["Botswana", "Namibia", "Zambia", "Zimbabwe"];
  }

  /** One bar of the chart. */
  datatype TargetRow = TargetRow(country: string, amount: int, target: int, variance: int,
                                 achieved: int, overAchieved: int, underAchieved: int)

  /** The column expressions: variance, `min(amount, target)` and the positive
      and negative parts of the variance. */
  function Decompose(country: string, amount: int, target: int): TargetRow
  {
    var variance := amount - target;
    TargetRow(country, amount, target, variance,
              if amount <= target then amount else target,
              if variance > 0 then variance else 0,
              if variance < 0 then -variance else 0)
  }

  /** The stacked bar adds up: achieved plus over-achieved is the amount,
      achieved plus under-achieved is the target, at most one of the two is
      nonzero, neither is negative, and achieved is the smaller of amount and
      target. */
  lemma DecomposeFacts(country: string, amount: int, target: int)
    ensures var r := Decompose(country, amount, target);
      r.achieved + r.overAchieved == amount && r.achieved + r.underAchieved == target
      && (r.overAchieved == 0 || r.underAchieved == 0)
      && r.overAchieved >= 0 && r.underAchieved >= 0
      && r.achieved <= amount && r.achieved <= target && (r.achieved == amount || r.achieved == target)
      && (r.overAchieved > 0 <==> amount > target) && (r.underAchieved > 0 <==> amount < target)
  {
  }

  /** The country of a row of this chart (always present here). */
  function CountryName(s: Sale): string
  {
    if s.country.Some? then s.country.value else ""
  }

  /** The (country, amount) columns. */
  function CountryAmounts(sales: seq<Sale>): (rows: seq<(string, int)>)
    ensures |rows| == |sales| && forall i :: 0 <= i < |sales| ==> rows[i] == (CountryName(sales[i]), sales[i].amount)
  {
    seq(|sales|, i requires 0 <= i < |sales| => (CountryName(sales[i]), sales[i].amount))
  }

  /** Every row's country has a target. */
  predicate Targeted(sales: seq<Sale>, targets: seq<(string, int)>)
  {
    forall i :: 0 <= i < |sales| ==> Lookup(targets, CountryName(sales[i])).Some?
  }

  /** One decomposed bar per (country, amount) row. */
  function Bars(g: seq<(string, int)>, targets: seq<(string, int)>): (t: seq<TargetRow>)
    requires forall i :: 0 <= i < |g| ==> Lookup(targets, g[i].0).Some?
    ensures |t| == |g|
    ensures forall i :: 0 <= i < |g| ==> t[i] == Decompose(g[i].0, g[i].1, Lookup(targets, g[i].0).value)
  {
    seq(|g|, i requires 0 <= i < |g| => Decompose(g[i].0, g[i].1, Lookup(targets, g[i].0).value))
  }

  /** `groupby("country")["amount"].sum()` and the target columns; nothing for
      no sales. */
  function TargetTable(sales: seq<Sale>, targets: seq<(string, int)>): Option<seq<TargetRow>>
    requires Targeted(sales, targets)
  {
    if sales == [] then None else
      GroupedTargeted(sales, targets);
      Some(Bars(GroupFirst(CountryAmounts(sales)), targets))
  }

  lemma GroupedTargeted(sales: seq<Sale>, targets: seq<(string, int)>)
    requires Targeted(sales, targets)
    ensures var g := GroupFirst(CountryAmounts(sales)); forall i :: 0 <= i < |g| ==> Lookup(targets, g[i].0).Some?
  {
    var g := GroupFirst(CountryAmounts(sales));
    GroupFirstFacts(CountryAmounts(sales));
    forall i | 0 <= i < |g| ensures Lookup(targets, g[i].0).Some? {
      assert Keys(g)[i] == g[i].0;
      var j :| 0 <= j < |sales| && Keys(CountryAmounts(sales))[j] == g[i].0;
    }
  }

  /** The sales of the chart: POST records of the year scope with a product and
      a country from the chart's own prefix table. */
  function ChartSales(rows: seq<LogRecord>, s: Scope): seq<Sale>
  {
    CountrySales(PostsIn(rows, s), TargetPrefixes)
  }

  /** Every country the chart's table gives has a target. */
  lemma ChartSalesTargeted(rows: seq<LogRecord>, s: Scope)
    ensures Targeted(ChartSales(rows, s), Targets) && AllPriced(ChartSales(rows, s))
  {
    var sales := ChartSales(rows, s);
    CountrySalesPriced(PostsIn(rows, s), TargetPrefixes);
    TargetsCoverTable();
    forall i | 0 <= i < |sales| ensures Lookup(Targets, CountryName(sales[i])).Some? {
      CountrySalesSound(PostsIn(rows, s), TargetPrefixes, sales[i]);
    }
  }

  /** The chart: nothing when no sale qualifies, otherwise one decomposed bar
      per country. */
  function SalesByCountryChart(rows: seq<LogRecord>, s: Scope): Option<seq<TargetRow>>
  {
    ChartSalesTargeted(rows, s);
    TargetTable(ChartSales(rows, s), Targets)
  }

  function BarCountries(t: seq<TargetRow>): (c: seq<string>)
    ensures |c| == |t| && forall i :: 0 <= i < |t| ==> c[i] == t[i].country
  {
    seq(|t|, i requires 0 <= i < |t| => t[i].country)
  }

  function Amounts(t: seq<TargetRow>): (a: seq<(string, int)>)
    ensures |a| == |t| && forall i :: 0 <= i < |t| ==> a[i] == (t[i].country, t[i].amount)
  {
    seq(|t|, i requires 0 <= i < |t| => (t[i].country, t[i].amount))
  }

  /** The bars keep the (country, amount) rows in order, give each country
      its own target, and decompose so that the parts add up. */
  lemma BarsFacts(g: seq<(string, int)>, targets: seq<(string, int)>)
    requires forall i :: 0 <= i < |g| ==> Lookup(targets, g[i].0).Some?
    ensures var t := Bars(g, targets);
      BarCountries(t) == Keys(g) && Amounts(t) == g
      && forall i :: 0 <= i < |t| ==>
           Lookup(targets, t[i].country) == Some(t[i].target)
           && t[i].achieved + t[i].overAchieved == t[i].amount
           && t[i].achieved + t[i].underAchieved == t[i].target
           && (t[i].overAchieved == 0 || t[i].underAchieved == 0)
  {
    var t := Bars(g, targets);
    forall i | 0 <= i < |t|
      ensures Amounts(t)[i] == g[i] && BarCountries(t)[i] == Keys(g)[i]
      ensures Lookup(targets, t[i].country) == Some(t[i].target)
      ensures t[i].achieved + t[i].overAchieved == t[i].amount
           && t[i].achieved + t[i].underAchieved == t[i].target
           && (t[i].overAchieved == 0 || t[i].underAchieved == 0)
    {
      DecomposeFacts(g[i].0, g[i].1, Lookup(targets, g[i].0).value);
    }
    assert Amounts(t) == g;
    assert BarCountries(t) == Keys(g);
  }

  /** There is a bar exactly when there is a sale; each country with a sale
      has one bar, holding the sum of its sales' prices against its own target,
      decomposed so that the parts add up; the bars add up to all sales. */
  lemma TargetTableFacts(sales: seq<Sale>, targets: seq<(string, int)>)
    requires Targeted(sales, targets)
    ensures TargetTable(sales, targets).None? <==> sales == []
    ensures TargetTable(sales, targets).Some? ==> var t := TargetTable(sales, targets).value;
      NoDup(BarCountries(t))
      && (forall c :: c in BarCountries(t) <==> c in Keys(CountryAmounts(sales)))
      && (forall i :: 0 <= i < |t| ==>
            t[i].amount == SumFor(CountryAmounts(sales), t[i].country)
            && Lookup(targets, t[i].country) == Some(t[i].target)
            && t[i].achieved + t[i].overAchieved == t[i].amount
            && t[i].achieved + t[i].underAchieved == t[i].target
            && (t[i].overAchieved == 0 || t[i].underAchieved == 0))
      && Total(Amounts(t)) == Total(CountryAmounts(sales))
  {
    if sales != [] {
      var rows := CountryAmounts(sales);
      var g := GroupFirst(rows);
      GroupedTargeted(sales, targets);
      GroupFirstFacts(rows);
      BarsFacts(g, targets);
      var t := Bars(g, targets);
      assert TargetTable(sales, targets).value == t;
      forall i | 0 <= i < |t| ensures t[i].amount == SumFor(rows, t[i].country) {
        assert Amounts(t)[i] == g[i];
      }
    }
  }

  /** Each bar's country is the one the chart's table gives the stripped
      address of a POST record in scope that names a product. */
  lemma ChartCountries(rows: seq<LogRecord>, s: Scope, c: string)
    requires c in Keys(CountryAmounts(ChartSales(rows, s)))
    ensures exists r :: r in rows && IsPost(r) && InScope(s, r) && ProductOf(r.url).Some?
                        && FirstPrefix(IpText(r.ip), TargetPrefixes) == Some(c)
  {
    var sales := ChartSales(rows, s);
    var i :| 0 <= i < |sales| && Keys(CountryAmounts(sales))[i] == c;
    CountrySalesSound(PostsIn(rows, s), TargetPrefixes, sales[i]);
  }
}
