/** The product views against purchases table of the overview's
    `create_product_chart` and of `get_product_data`: per product, the GET
    requests under `/solutions/` and the POST requests of the year scope,
    merged, ranked by views and cut to ten rows. */
module Products {
  import opened Strings
  import opened LogRecords
  import opened Grouping
  import opened Catalog
  import opened Scope

  /** `filter(url__startswith="/solutions/", request_method="GET")`. */
  predicate IsView(r: LogRecord)
  {
    IsGet(r) && StartsWith(r.url, Solutions)
  }

  /** The `product` column: `extract_product_name` of each record's URL. */
  function NamesOf(rows: seq<LogRecord>): (names: seq<string>)
    ensures |names| == |rows| && forall i :: 0 <= i < |rows| ==> names[i] == ProductName(rows[i].url)
  {
    seq(|rows|, i requires 0 <= i < |rows| => ProductName(rows[i].url))
  }

  /** The product of every view in scope, in record order. */
  function ViewNames(rows: seq<LogRecord>, s: Scope): seq<string>
  {
    NamesOf(Filter(InYearScope(rows, s), IsView))
  }

  /** The product of every purchase (POST record) in scope, in record order. */
  function BuyNames(rows: seq<LogRecord>, s: Scope): seq<string>
  {
    NamesOf(PostsIn(rows, s))
  }

  /** One row of the merged table. */
  datatype ProductRow = ProductRow(product: string, viewCount: int, purchaseCount: int)

  /** The outer merge on product with `fillna(0)`, as (product, views) rows,
      sorted by views, largest first. */
  function Ranked(vn: seq<string>, bn: seq<string>): seq<(string, int)>
  {
    SortDescending(GroupSums(Distinct(vn + bn), Tally(vn)))
  }

  /** The rows of a ranked table, with each product's purchases. */
  function Rows(ranked: seq<(string, int)>, bn: seq<string>): (t: seq<ProductRow>)
    ensures |t| == |ranked|
    ensures forall i :: 0 <= i < |ranked| ==> t[i] == ProductRow(ranked[i].0, ranked[i].1, Count(bn, ranked[i].0))
  {
    seq(|ranked|, i requires 0 <= i < |ranked| => ProductRow(ranked[i].0, ranked[i].1, Count(bn, ranked[i].0)))
  }

  /** Nothing when there is neither a view nor a purchase; otherwise the
      merged rows sorted by `view_count` descending, `head(10)`. */
  function ProductTable(vn: seq<string>, bn: seq<string>): Option<seq<ProductRow>>
  {
    if vn == [] && bn == [] then None else Some(Rows(Take(Ranked(vn, bn), 10), bn))
  }

  /** `get_product_data(year)`, and the data of the overview's product chart. */
  function ProductData(rows: seq<LogRecord>, s: Scope): Option<seq<ProductRow>>
  {
    ProductTable(ViewNames(rows, s), BuyNames(rows, s))
  }

  function ProductsOf(t: seq<ProductRow>): (p: seq<string>)
    ensures |p| == |t| && forall i :: 0 <= i < |t| ==> p[i] == t[i].product
  {
    seq(|t|, i requires 0 <= i < |t| => t[i].product)
  }

  // ---------------------------------------------------------------------------
  // Properties

  /** Nothing exactly when both sides are empty; otherwise at most ten rows,
      no product twice, each product from one of the two sides with its
      number of views and of purchases, views largest first. */
  lemma ProductTableFacts(vn: seq<string>, bn: seq<string>)
    ensures ProductTable(vn, bn).None? <==> vn == [] && bn == []
    ensures ProductTable(vn, bn).Some? ==> var t := ProductTable(vn, bn).value;
      |t| <= 10 && NoDup(ProductsOf(t))
      && (forall i :: 0 <= i < |t| ==>
            t[i].product in vn + bn
            && t[i].viewCount == Count(vn, t[i].product)
            && t[i].purchaseCount == Count(bn, t[i].product))
      && (forall i, j :: 0 <= i < j < |t| ==> t[i].viewCount >= t[j].viewCount)
  {
    if !(vn == [] && bn == []) {
      var r := Ranked(vn, bn);
      RankedCounts(vn + bn, vn);
      TakeOfSorted(r, 10);
      TakeKeys(r, 10);
      RowsFacts(Take(r, 10), vn + bn, vn, bn);
    }
  }

  /** Rows built from (product, views) pairs keep their products, views and
      order, and add each product's purchases. */
  lemma RowsFacts(k: seq<(string, int)>, all: seq<string>, vn: seq<string>, bn: seq<string>)
    requires Descending(k) && NoDup(Keys(k))
    requires forall i :: 0 <= i < |k| ==> k[i].0 in all && k[i].1 == Count(vn, k[i].0)
    ensures var t := Rows(k, bn);
      NoDup(ProductsOf(t))
      && (forall i :: 0 <= i < |t| ==>
            t[i].product in all
            && t[i].viewCount == Count(vn, t[i].product)
            && t[i].purchaseCount == Count(bn, t[i].product))
      && (forall i, j :: 0 <= i < j < |t| ==> t[i].viewCount >= t[j].viewCount)
  {
    assert ProductsOf(Rows(k, bn)) == Keys(k);
  }

  /** A product left out of the table has no more views than any listed one,
      and with fewer than ten rows no product is left out. */
  lemma ProductTableCut(vn: seq<string>, bn: seq<string>, x: string)
    requires x in vn + bn
    ensures ProductTable(vn, bn).Some?
    ensures var t := ProductTable(vn, bn).value;
      (x in ProductsOf(t) || forall i :: 0 <= i < |t| ==> t[i].viewCount >= Count(vn, x))
      && (|t| < 10 ==> x in ProductsOf(t))
  {
    var r := Ranked(vn, bn);
    RankedCounts(vn + bn, vn);
    TakeCut(r, 10, (x, Count(vn, x)));
    RowsCut(Take(r, 10), bn, x, Count(vn, x));
  }

  /** A pair kept among the rows puts its product among them. */
  lemma RowsCut(k: seq<(string, int)>, bn: seq<string>, x: string, c: int)
    requires (x, c) in k || forall i :: 0 <= i < |k| ==> k[i].1 >= c
    ensures var t := Rows(k, bn);
      (x in ProductsOf(t) || forall i :: 0 <= i < |t| ==> t[i].viewCount >= c)
      && ((x, c) in k ==> x in ProductsOf(t))
  {
    if (x, c) in k {
      var i :| 0 <= i < |k| && k[i] == (x, c);
      assert ProductsOf(Rows(k, bn))[i] == x;
    }
  }

  /** The product names over some records are exactly the names of their
      URLs. */
  lemma NamesOfFacts(rows: seq<LogRecord>, x: string)
    ensures x in NamesOf(rows) <==> exists r :: r in rows && ProductName(r.url) == x
  {
    if exists r :: r in rows && ProductName(r.url) == x {
      var r :| r in rows && ProductName(r.url) == x;
      var i :| 0 <= i < |rows| && rows[i] == r;
      assert NamesOf(rows)[i] == x;
    }
  }

  /** The chart's data is nothing exactly when the scope has neither a view
      nor a POST record. */
  lemma ProductDataEmpty(rows: seq<LogRecord>, s: Scope)
    ensures ProductData(rows, s).None? ==>
      forall r :: r in rows && InScope(s, r) ==> !IsView(r) && !IsPost(r)
    ensures ProductData(rows, s).Some? ==>
      exists r :: r in rows && InScope(s, r) && (IsView(r) || IsPost(r))
  {
    var views := Filter(InYearScope(rows, s), IsView);
    if views != [] {
      assert views[0] in views;
    } else if PostsIn(rows, s) != [] {
      assert PostsIn(rows, s)[0] in PostsIn(rows, s);
    }
  }

  /** A product has views only from GET records under `/solutions/` in
      scope and purchases only from POST records in scope. */
  lemma ProductNamesFacts(rows: seq<LogRecord>, s: Scope, x: string)
    ensures x in ViewNames(rows, s) <==>
      exists r :: r in rows && InScope(s, r) && IsView(r) && ProductName(r.url) == x
    ensures x in BuyNames(rows, s) <==>
      exists r :: r in rows && InScope(s, r) && IsPost(r) && ProductName(r.url) == x
  {
    NamesOfFacts(Filter(InYearScope(rows, s), IsView), x);
    NamesOfFacts(PostsIn(rows, s), x);
  }
}
