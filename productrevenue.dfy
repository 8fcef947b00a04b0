/** The product sales revenue bar chart (`create_sales_by_product_app`): every
    POST record that names a priced product is a sale of that product at its
    catalogue price, and the bars are the revenue per product, largest first. */
module ProductRevenue {
  import opened Strings
  import opened LogRecords
  import opened Grouping
  import opened Catalog
  import opened Scope
  import opened Sales

  /** The rows of `extract_sales_data`: the POST records, with no year or
      country filter. */
  function ProductSales(rows: seq<LogRecord>): seq<Sale>
  {
    CatalogSales(Filter(rows, IsPost))
  }

  /** `extract_sales_data()` as the source runs it. */
  method ProductSalesData(rows: seq<LogRecord>) returns (sales: seq<Sale>)
    ensures sales == ProductSales(rows)
  {
    var logs := Filter(rows, IsPost);
    sales := ExtractCatalogSales(logs);
  }

  /** The `product` and `amount` columns of the frame. */
  function Amounts(sales: seq<Sale>): (rows: seq<(string, int)>)
    ensures |rows| == |sales| && forall i :: 0 <= i < |sales| ==> rows[i] == (sales[i].product, sales[i].amount)
  {
    seq(|sales|, i requires 0 <= i < |sales| => (sales[i].product, sales[i].amount))
  }

  /** The `product` column alone. */
  function SoldProducts(sales: seq<Sale>): (ps: seq<string>)
    ensures |ps| == |sales| && forall i :: 0 <= i < |sales| ==> ps[i] == sales[i].product
  {
    Keys(Amounts(sales))
  }

  /** `create_bar_chart` up to the figure: nothing ("No sales data available")
      without sales, otherwise `groupby('product')['amount'].sum()` sorted by
      amount, descending. */
  function Revenue(rows: seq<LogRecord>): Option<seq<(string, int)>>
  {
    var sales := ProductSales(rows);
    if sales == [] then None else Some(RankedGroups(Amounts(sales)))
  }

  /** Some POST record names the product. */
  predicate Sold(rows: seq<LogRecord>, p: string)
  {
    exists i :: 0 <= i < |rows| && IsPost(rows[i]) && ProductOf(rows[i].url) == Some(p)
  }

  /** Every sale of a product is at the product's price, so the product's sum
      is its price times its number of sales. */
  lemma PricedSum(sales: seq<Sale>, p: string)
    requires AllPriced(sales) && Price(p).Some?
    ensures SumFor(Amounts(sales), p) == Price(p).value * Count(SoldProducts(sales), p)
  {
    var rows := Amounts(sales);
    assert Keys(rows) == SoldProducts(sales);
    forall i | 0 <= i < |rows| && rows[i].0 == p ensures Price(p).value <= rows[i].1 <= Price(p).value {
      assert Priced(sales[i]);
    }
    SumForBetween(rows, p, Price(p).value, Price(p).value);
  }

  /** A product is among the sales exactly when a POST record names it. */
  lemma SoldProductsOf(rows: seq<LogRecord>, p: string)
    ensures p in SoldProducts(ProductSales(rows)) <==> Sold(rows, p)
  {
    if p in SoldProducts(ProductSales(rows)) {
      SoldProductNamed(rows, p);
    }
    if Sold(rows, p) {
      NamedProductSold(rows, p);
    }
  }

  lemma SoldProductNamed(rows: seq<LogRecord>, p: string)
    requires p in SoldProducts(ProductSales(rows))
    ensures Sold(rows, p)
  {
    var logs := Filter(rows, IsPost);
    var sales := ProductSales(rows);
    CatalogSalesOf(logs, p);
    var i :| 0 <= i < |sales| && SoldProducts(sales)[i] == p;
    assert sales[i] in sales && sales[i].product == p;
    var j :| 0 <= j < |logs| && ProductOf(logs[j].url) == Some(p);
    assert logs[j] in logs;
    var k :| 0 <= k < |rows| && rows[k] == logs[j];
    assert IsPost(rows[k]) && ProductOf(rows[k].url) == Some(p);
  }

  lemma NamedProductSold(rows: seq<LogRecord>, p: string)
    requires Sold(rows, p)
    ensures p in SoldProducts(ProductSales(rows))
  {
    var logs := Filter(rows, IsPost);
    var sales := ProductSales(rows);
    var k :| 0 <= k < |rows| && IsPost(rows[k]) && ProductOf(rows[k].url) == Some(p);
    assert rows[k] in logs;
    var j :| 0 <= j < |logs| && logs[j] == rows[k];
    assert ProductOf(logs[j].url) == Some(p);
    CollectComplete(logs, CatalogSaleOf, j);
    var s := CatalogSaleOf(logs[j]).value;
    assert s.product == p && s in sales;
    var i :| 0 <= i < |sales| && sales[i] == s;
    assert SoldProducts(sales)[i] == p;
  }

  /** There are no sales exactly when no POST record names a product. */
  lemma ProductSalesEmpty(rows: seq<LogRecord>)
    ensures ProductSales(rows) == [] <==> forall i :: 0 <= i < |rows| && IsPost(rows[i]) ==> ProductOf(rows[i].url).None?
  {
    var logs := Filter(rows, IsPost);
    CatalogSalesEmpty(logs);
    if ProductSales(rows) == [] {
      forall i | 0 <= i < |rows| && IsPost(rows[i]) ensures ProductOf(rows[i].url).None? {
        assert rows[i] in logs;
        var j :| 0 <= j < |logs| && logs[j] == rows[i];
      }
    } else {
      var j :| 0 <= j < |logs| && ProductOf(logs[j].url).Some?;
      assert logs[j] in logs;
      var k :| 0 <= k < |rows| && rows[k] == logs[j];
      assert IsPost(rows[k]);
    }
  }

  /** Each ranked product's sum is its price times its number of sales. */
  lemma RankedRevenue(sales: seq<Sale>)
    requires AllPriced(sales)
    ensures var t := RankedGroups(Amounts(sales));
      forall i :: 0 <= i < |t| ==>
        Price(t[i].0).Some? && t[i].1 == Price(t[i].0).value * Count(SoldProducts(sales), t[i].0)
  {
    var t := RankedGroups(Amounts(sales));
    RankedGroupsFacts(Amounts(sales));
    forall i | 0 <= i < |t|
      ensures Price(t[i].0).Some? && t[i].1 == Price(t[i].0).value * Count(SoldProducts(sales), t[i].0)
    {
      assert t[i].0 in Keys(t) && t[i].1 == SumFor(Amounts(sales), t[i].0);
      ProductSum(sales, t[i].0);
    }
  }

  /** A product among the sales has a price, and its sum is that price times
      its number of sales. */
  lemma ProductSum(sales: seq<Sale>, p: string)
    requires AllPriced(sales) && p in Keys(Amounts(sales))
    ensures Price(p).Some? && SumFor(Amounts(sales), p) == Price(p).value * Count(SoldProducts(sales), p)
  {
    assert Keys(Amounts(sales)) == SoldProducts(sales);
    var j :| 0 <= j < |sales| && SoldProducts(sales)[j] == p;
    assert Priced(sales[j]);
    PricedSum(sales, p);
  }

  /** The chart is empty exactly when no POST record names a product;
      otherwise its bars are largest first, one per product sold and no
      other, each the product's price times its number of sales, and together
      they add up to the amounts of all the sales. */
  lemma RevenueFacts(rows: seq<LogRecord>)
    ensures Revenue(rows).None? <==> forall i :: 0 <= i < |rows| && IsPost(rows[i]) ==> ProductOf(rows[i].url).None?
    ensures Revenue(rows).Some? ==> var t := Revenue(rows).value; var sales := ProductSales(rows);
      Descending(t) && NoDup(Keys(t))
      && (forall p :: p in Keys(t) <==> Sold(rows, p))
      && (forall i :: 0 <= i < |t| ==>
            Price(t[i].0).Some? && t[i].1 == Price(t[i].0).value * Count(SoldProducts(sales), t[i].0))
      && Total(t) == Total(Amounts(sales))
  {
    ProductSalesEmpty(rows);
    var sales := ProductSales(rows);
    if sales != [] {
      var t := RankedGroups(Amounts(sales));
      RankedGroupsFacts(Amounts(sales));
      assert Keys(Amounts(sales)) == SoldProducts(sales);
      CatalogSalesPriced(Filter(rows, IsPost));
      forall p ensures p in Keys(t) <==> Sold(rows, p) {
        SoldProductsOf(rows, p);
      }
      RankedRevenue(sales);
    }
  }
}
