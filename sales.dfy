/** Sale derivation: the `extract_sales_data` loops that turn POST records into
    sales rows. A sale is a POST whose URL names a priced product; some charts
    also need a country for it. */
module Sales {
  import opened Strings
  import opened Calendar
  import opened LogRecords
  import opened Grouping
  import opened Catalog
  import opened Countries
  import opened Scope

  /** One sales row: the record it came from, the product, its catalogue price
      and, for the charts that need one, the country. */
  datatype Sale = Sale(log: LogRecord, product: string, amount: int, country: Option<string>)

  /** The row is priced from the catalogue and names the product of its record. */
  predicate Priced(s: Sale)
  {
    Price(s.product) == Some(s.amount) && ProductOf(s.log.url) == Some(s.product)
  }

  /** `PRODUCT_PRICES[p] - PRODUCT_COSTS[p]` of the row's product. */
  function SaleProfit(s: Sale): (v: int)
    requires Priced(s)
    ensures 0 < v < s.amount
  {
    Profit(s.product)
  }

  /** The employee credited with the row's promo code, if any. */
  function SaleEmployee(s: Sale): Option<string>
  {
    EmployeeOf(s.log.promoCode)
  }

  /** The product lines of the loops: a URL under `/solutions/` whose third
      piece is priced names a product; anything else names none. */
  method ProductFromUrl(url: string) returns (product: Option<string>)
    ensures product == ProductOf(url)
  {
    product := None;
    if StartsWith(url, Solutions) {
      SegmentAfterSolutions(url);
      var parts := Split(url, '/');
      var segment := if |parts| > 2 then Some(parts[2]) else None;
      if segment.Some? && Price(segment.value).Some? {
        product := segment;
      }
    }
  }

  // ---------------------------------------------------------------------------
  // The sales dashboard: country filter, then product

  /** A record's row in the sales dashboard: skipped when a country other than
      `All` is chosen and the record's country differs, or when it names no
      product. */
  function DashboardSaleOf(r: LogRecord, countryFilter: string): Option<Sale>
  {
    var c := SalesCountry(r.ip);
    if countryFilter != "All" && c != Some(countryFilter) then None
    else match ProductOf(r.url)
      case None => None
      case Some(p) => Some(Sale(r, p, Price(p).value, c))
  }

  /** The rows of the sales dashboard, in record order. */
  function DashboardSales(rows: seq<LogRecord>, countryFilter: string): seq<Sale>
  {
    Collect(Filter(rows, IsPost), r => DashboardSaleOf(r, countryFilter))
  }

  method DashboardSaleOfLog(r: LogRecord, countryFilter: string) returns (sale: Option<Sale>)
    ensures sale == DashboardSaleOf(r, countryFilter)
  {
    var c := CountryFromIp(r.ip);
    if countryFilter != "All" && c != Some(countryFilter) {
      return None;
    }
    var product := ProductFromUrl(r.url);
    sale := None;
    if product.Some? {
      sale := Some(Sale(r, product.value, Price(product.value).value, c));
    }
  }

  /** `extract_sales_data(country_filter)` of the sales dashboard. */
  method ExtractSalesData(rows: seq<LogRecord>, countryFilter: string) returns (sales: seq<Sale>)
    ensures sales == DashboardSales(rows, countryFilter)
  {
    var logs := Filter(rows, IsPost);
    sales := DashboardLoop(logs, countryFilter);
  }

  /** The loop of `extract_sales_data` over the POST records. */
  method DashboardLoop(logs: seq<LogRecord>, countryFilter: string) returns (sales: seq<Sale>)
    ensures sales == Collect(logs, r => DashboardSaleOf(r, countryFilter))
  {
    var f := (r: LogRecord) => DashboardSaleOf(r, countryFilter);
    sales := [];
    var i := 0;
    while i < |logs|
      invariant 0 <= i <= |logs|
      invariant sales == Collect(logs[..i], f)
    {
      CollectStep(logs, i, f);
      var sale := DashboardSaleOfLog(logs[i], countryFilter);
      assert f(logs[i]) == sale;
      if sale.Some? {
        sales := sales + [sale.value];
      }
      i := i + 1;
    }
    assert logs[..|logs|] == logs;
  }

  /** Every row of the sales dashboard comes from a POST record, is priced from
      the catalogue, and carries the country of its address; with a country
      chosen every row is of that country; an absent promo code credits no
      employee. */
  lemma DashboardSalesSound(rows: seq<LogRecord>, countryFilter: string, s: Sale)
    requires s in DashboardSales(rows, countryFilter)
    ensures s.log in rows && IsPost(s.log) && Priced(s)
    ensures s.country == SalesCountry(s.log.ip)
    ensures countryFilter != "All" ==> s.country == Some(countryFilter)
    ensures s.log.promoCode.None? ==> SaleEmployee(s).None?
  {
    var f := (r: LogRecord) => DashboardSaleOf(r, countryFilter);
    CollectSound(Filter(rows, IsPost), f, s);
  }

  /** Every POST record of the chosen country that names a product gives a row. */
  lemma DashboardSalesComplete(rows: seq<LogRecord>, countryFilter: string, i: nat)
    requires i < |rows| && IsPost(rows[i]) && ProductOf(rows[i].url).Some?
    requires countryFilter == "All" || SalesCountry(rows[i].ip) == Some(countryFilter)
    ensures exists s :: s in DashboardSales(rows, countryFilter) && s.log == rows[i]
  {
    var logs := Filter(rows, IsPost);
    assert rows[i] in logs;
    var j :| 0 <= j < |logs| && logs[j] == rows[i];
    var f := (r: LogRecord) => DashboardSaleOf(r, countryFilter);
    CollectComplete(logs, f, j);
  }

  // ---------------------------------------------------------------------------
  // Product and country (sales by country, sales trend)

  /** A record's row when a product and a country are both required; the
      country comes from the stripped address. */
  function CountrySaleOf(r: LogRecord, table: seq<(string, string)>): Option<Sale>
  {
    match ProductOf(r.url)
    case None => None
    case Some(p) =>
      match FirstPrefix(IpText(r.ip), table)
      case None => None
      case Some(c) => Some(Sale(r, p, Price(p).value, Some(c)))
  }

  function CountrySales(logs: seq<LogRecord>, table: seq<(string, string)>): seq<Sale>
  {
    Collect(logs, r => CountrySaleOf(r, table))
  }

  method CountrySaleOfLog(r: LogRecord, table: seq<(string, string)>) returns (sale: Option<Sale>)
    ensures sale == CountrySaleOf(r, table)
  {
    var product := ProductFromUrl(r.url);
    if product.None? {
      return None;
    }
    var country := FindPrefix(IpText(r.ip), table);
    sale := None;
    if country.Some? {
      sale := Some(Sale(r, product.value, Price(product.value).value, country));
    }
  }

  /** The loop of `create_sales_by_country_chart` and of the trend chart's
      `extract_sales_data` over the given POST records. */
  method ExtractCountrySales(logs: seq<LogRecord>, table: seq<(string, string)>) returns (sales: seq<Sale>)
    ensures sales == CountrySales(logs, table)
  {
    sales := [];
    var i := 0;
    while i < |logs|
      invariant 0 <= i <= |logs|
      invariant sales == Collect(logs[..i], r => CountrySaleOf(r, table))
    {
      CollectStep(logs, i, r => CountrySaleOf(r, table));
      var sale := CountrySaleOfLog(logs[i], table);
      if sale.Some? {
        sales := sales + [sale.value];
      }
      i := i + 1;
    }
    assert logs[..|logs|] == logs;
  }

  /** Each row comes from one of the records, is priced, and has the country
      the table gives its stripped address. */
  lemma CountrySalesSound(logs: seq<LogRecord>, table: seq<(string, string)>, s: Sale)
    requires s in CountrySales(logs, table)
    ensures s.log in logs && Priced(s)
    ensures s.country.Some? && FirstPrefix(IpText(s.log.ip), table) == s.country
  {
    CollectSound(logs, r => CountrySaleOf(r, table), s);
  }

  /** A record with a product and a matched address gives a row. */
  lemma CountrySalesComplete(logs: seq<LogRecord>, table: seq<(string, string)>, i: nat)
    requires i < |logs| && ProductOf(logs[i].url).Some? && FirstPrefix(IpText(logs[i].ip), table).Some?
    ensures exists s :: s in CountrySales(logs, table) && s.log == logs[i]
  {
    var f := (r: LogRecord) => CountrySaleOf(r, table);
    CollectComplete(logs, f, i);
    var s := f(logs[i]).value;
    assert s.log == logs[i];
    assert s in CountrySales(logs, table);
  }

  // ---------------------------------------------------------------------------
  // Product only (sales by product, profit gauge, weekly profit)

  function CatalogSaleOf(r: LogRecord): Option<Sale>
  {
    match ProductOf(r.url)
    case None => None
    case Some(p) => Some(Sale(r, p, Price(p).value, None))
  }

  function CatalogSales(logs: seq<LogRecord>): seq<Sale>
  {
    Collect(logs, CatalogSaleOf)
  }

  /** The loop of the product-sales, profit-gauge and weekly-profit charts over
      the given POST records. */
  method ExtractCatalogSales(logs: seq<LogRecord>) returns (sales: seq<Sale>)
    ensures sales == CatalogSales(logs)
  {
    sales := [];
    var i := 0;
    while i < |logs|
      invariant 0 <= i <= |logs|
      invariant sales == Collect(logs[..i], CatalogSaleOf)
    {
      CollectStep(logs, i, CatalogSaleOf);
      var product := ProductFromUrl(logs[i].url);
      if product.Some? {
        sales := sales + [Sale(logs[i], product.value, Price(product.value).value, None)];
      }
      i := i + 1;
    }
    assert logs[..|logs|] == logs;
  }

  /** Each row comes from one of the records and is priced; each record naming a
      product gives a row. */
  lemma CatalogSalesFacts(logs: seq<LogRecord>, s: Sale, i: nat)
    requires s in CatalogSales(logs)
    ensures s.log in logs && Priced(s)
    ensures i < |logs| && ProductOf(logs[i].url).Some? ==> exists t :: t in CatalogSales(logs) && t.log == logs[i]
  {
    CollectSound(logs, CatalogSaleOf, s);
    if i < |logs| && ProductOf(logs[i].url).Some? {
      CollectComplete(logs, CatalogSaleOf, i);
    }
  }

  /** There is no row exactly when no record names a product. */
  lemma CatalogSalesEmpty(logs: seq<LogRecord>)
    ensures CatalogSales(logs) == [] <==> forall i :: 0 <= i < |logs| ==> ProductOf(logs[i].url).None?
  {
    if CatalogSales(logs) != [] {
      CatalogSalesFacts(logs, CatalogSales(logs)[0], 0);
      var s := CatalogSales(logs)[0];
      var i :| 0 <= i < |logs| && logs[i] == s.log;
      assert ProductOf(logs[i].url).Some?;
    }
    forall i | 0 <= i < |logs| && ProductOf(logs[i].url).Some? ensures CatalogSales(logs) != [] {
      CollectComplete(logs, CatalogSaleOf, i);
    }
  }

  /** A product has a row exactly when one of the records names it. */
  lemma CatalogSalesOf(logs: seq<LogRecord>, p: string)
    ensures (exists s :: s in CatalogSales(logs) && s.product == p)
        <==> exists i :: 0 <= i < |logs| && ProductOf(logs[i].url) == Some(p)
  {
    if exists s :: s in CatalogSales(logs) && s.product == p {
      var s :| s in CatalogSales(logs) && s.product == p;
      CatalogSalesFacts(logs, s, 0);
      var i :| 0 <= i < |logs| && logs[i] == s.log;
      assert ProductOf(logs[i].url) == Some(p);
    }
    if exists i :: 0 <= i < |logs| && ProductOf(logs[i].url) == Some(p) {
      var i :| 0 <= i < |logs| && ProductOf(logs[i].url) == Some(p);
      CollectComplete(logs, CatalogSaleOf, i);
      assert CatalogSaleOf(logs[i]).value.product == p;
    }
  }

  /** The rows taken together are all priced. */
  predicate AllPriced(sales: seq<Sale>)
  {
    forall i :: 0 <= i < |sales| ==> Priced(sales[i])
  }

  lemma CatalogSalesPriced(logs: seq<LogRecord>)
    ensures AllPriced(CatalogSales(logs))
  {
    forall i | 0 <= i < |CatalogSales(logs)| ensures Priced(CatalogSales(logs)[i]) {
      CollectSound(logs, CatalogSaleOf, CatalogSales(logs)[i]);
    }
  }

  lemma CountrySalesPriced(logs: seq<LogRecord>, table: seq<(string, string)>)
    ensures AllPriced(CountrySales(logs, table))
    ensures forall i :: 0 <= i < |CountrySales(logs, table)| ==> CountrySales(logs, table)[i].country.Some?
  {
    forall i | 0 <= i < |CountrySales(logs, table)|
      ensures Priced(CountrySales(logs, table)[i]) && CountrySales(logs, table)[i].country.Some?
    {
      CountrySalesSound(logs, table, CountrySales(logs, table)[i]);
    }
  }

  lemma DashboardSalesPriced(rows: seq<LogRecord>, countryFilter: string)
    ensures AllPriced(DashboardSales(rows, countryFilter))
  {
    forall i | 0 <= i < |DashboardSales(rows, countryFilter)| ensures Priced(DashboardSales(rows, countryFilter)[i]) {
      DashboardSalesSound(rows, countryFilter, DashboardSales(rows, countryFilter)[i]);
    }
  }

  /** Every row's date is a calendar date. */
  predicate SalesDated(sales: seq<Sale>)
  {
    forall i :: 0 <= i < |sales| ==> ValidDate(sales[i].log.timestamp.date)
  }

  // ---------------------------------------------------------------------------
  // Product only, within the selected year (profit gauge, weekly profit)

  /** The rows of the loops of the profit gauge and the weekly profit chart:
      the POST records of the scope that name a priced product. */
  function ScopeSales(rows: seq<LogRecord>, s: Scope): seq<Sale>
  {
    CatalogSales(PostsIn(rows, s))
  }

  /** `filter_by_year(ServerLog.objects.filter(request_method="POST"), year)`
      followed by the loop, as the source runs it. */
  method ScopeSalesData(rows: seq<LogRecord>, s: Scope) returns (sales: seq<Sale>)
    ensures sales == ScopeSales(rows, s)
  {
    var logs := PostsIn(rows, s);
    sales := ExtractCatalogSales(logs);
  }

  /** Every row comes from a POST record of the scope and is priced; every
      such record that names a product gives a row. */
  lemma ScopeSalesFacts(rows: seq<LogRecord>, s: Scope, sale: Sale, i: nat)
    requires sale in ScopeSales(rows, s)
    ensures sale.log in rows && IsPost(sale.log) && InScope(s, sale.log) && Priced(sale)
    ensures i < |rows| && IsPost(rows[i]) && InScope(s, rows[i]) && ProductOf(rows[i].url).Some? ==>
      exists t :: t in ScopeSales(rows, s) && t.log == rows[i]
  {
    var logs := PostsIn(rows, s);
    CatalogSalesFacts(logs, sale, 0);
    if i < |rows| && IsPost(rows[i]) && InScope(s, rows[i]) && ProductOf(rows[i].url).Some? {
      assert rows[i] in logs;
      var j :| 0 <= j < |logs| && logs[j] == rows[i];
      CatalogSalesFacts(logs, sale, j);
    }
  }

  /** There is no row exactly when no POST record of the scope names a product. */
  lemma ScopeSalesEmpty(rows: seq<LogRecord>, s: Scope)
    ensures ScopeSales(rows, s) == [] <==>
      forall i :: 0 <= i < |rows| && IsPost(rows[i]) && InScope(s, rows[i]) ==> ProductOf(rows[i].url).None?
  {
    var logs := PostsIn(rows, s);
    CatalogSalesEmpty(logs);
    if ScopeSales(rows, s) == [] {
      forall i | 0 <= i < |rows| && IsPost(rows[i]) && InScope(s, rows[i]) ensures ProductOf(rows[i].url).None? {
        assert rows[i] in logs;
        var j :| 0 <= j < |logs| && logs[j] == rows[i];
      }
    } else {
      var j :| 0 <= j < |logs| && ProductOf(logs[j].url).Some?;
      assert logs[j] in logs;
      var k :| 0 <= k < |rows| && rows[k] == logs[j];
      assert IsPost(rows[k]) && InScope(s, rows[k]);
    }
  }

  /** The rows of dated records are priced and dated. */
  lemma ScopeSalesDated(rows: seq<LogRecord>, s: Scope)
    requires Dated(rows)
    ensures AllPriced(ScopeSales(rows, s)) && SalesDated(ScopeSales(rows, s))
  {
    var sales := ScopeSales(rows, s);
    forall i | 0 <= i < |sales| ensures Priced(sales[i]) && ValidDate(sales[i].log.timestamp.date) {
      ScopeSalesFacts(rows, s, sales[i], 0);
    }
  }
}
