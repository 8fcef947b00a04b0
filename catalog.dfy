/** The product catalogue shared by the sales charts: the price and cost tables,
    how a purchase URL names a product, and the promo-code affiliates. */
module Catalog {
  import opened Strings
  import opened Grouping

  /** `PRODUCT_PRICES` and `PRODUCT_COSTS`: the two tables list the same
      products in the same order, so they are kept as one table of (product,
      price, cost) rows. */
  const Products: seq<(string, int, int)> := [
    ("smart-assist", 2000, 800), ("proto-genius", 5000, 2000), ("flow-optimizer", 15000, 6000),
    ("team-connect", 1200, 400), ("insight-dashboard", 8000, 3000), ("virtual-designer", 20000, 8000),
    ("rapid-launch", 12000, 5000), ("ai-inspector", 30000, 12000)]

  function ProductNames(): (names: seq<string>)
    ensures |names| == |Products| && forall i :: 0 <= i < |Products| ==> names[i] == Products[i].0
  {
    seq(|Products|, i requires 0 <= i < |Products| => Products[i].0)
  }

  /** The cheapest and the dearest catalogue price. */
  const MinPrice := 1200
  const MaxPrice := 30000

  /** Every row names a product without a `/`, prices it between the cheapest
      and the dearest price, and costs it at less than its price. */
  lemma ProductsFacts()
    ensures forall i :: 0 <= i < |Products| ==>
      NoChar(Products[i].0, '/') && 0 < Products[i].2 < Products[i].1
      && MinPrice <= Products[i].1 <= MaxPrice
  {
  }

  /** `PRODUCT_PRICES.get(p)`. */
  function Price(p: string): (v: Option<int>)
    ensures v.Some? <==> p in ProductNames()
  {
    var i := Position(ProductNames(), p);
    if i < |Products| then Some(Products[i].1) else None
  }

  /** `PRODUCT_COSTS.get(p)`. */
  function Cost(p: string): (v: Option<int>)
    ensures v.Some? <==> p in ProductNames()
  {
    var i := Position(ProductNames(), p);
    if i < |Products| then Some(Products[i].2) else None
  }

  /** Every price lies between the cheapest and the dearest one. */
  lemma PriceRange(p: string)
    requires Price(p).Some?
    ensures MinPrice <= Price(p).value <= MaxPrice
  {
    ProductsFacts();
  }

  /** `PRODUCT_PRICES[p] - PRODUCT_COSTS[p]`: positive, and less than the price. */
  function Profit(p: string): (v: int)
    requires Price(p).Some?
    ensures 0 < v < Price(p).value
  {
    ProductsFacts();
    Price(p).value - Cost(p).value
  }

  // ---------------------------------------------------------------------------
  // Purchase URLs

  const Solutions := "/solutions/"

  /** `url.split("/")[2] if len(parts) > 2`: the third `/`-separated piece. */
  function Segment(url: string): Option<string>
  {
    var parts := Split(url, '/');
    if |parts| > 2 then Some(parts[2]) else None
  }

  /** The product a purchase URL names: it starts with `/solutions/` and its
      third piece is a priced product. */
  function ProductOf(url: string): (p: Option<string>)
    ensures p.Some? ==> Price(p.value).Some? && StartsWith(url, Solutions + p.value)
    ensures p.Some? ==> |url| == |Solutions + p.value| || url[|Solutions + p.value|] == '/'
    ensures !StartsWith(url, Solutions) ==> p.None?
  {
    if !StartsWith(url, Solutions) then None else
      SegmentAfterSolutions(url);
      var s := Segment(url);
      if Price(s.value).Some? then Some(s.value) else None
  }

  /** `extract_product_name`: the third piece, or `"Unknown"` when there are
      fewer than three. */
  function ProductName(url: string): string
  {
    match Segment(url)
    case Some(s) => s
    case None => "Unknown"
  }

  lemma SplitAfter(a: string, c: char, b: string)
    requires NoChar(a, c)
    ensures Split(a + [c] + b, c) == [a] + Split(b, c)
  {
    IndexOfPrefix(a, c, b);
    var s := a + [c] + b;
    assert s[..|a|] == a && s[|a| + 1..] == b;
  }

  /** In `a/b/rest`, with no `/` in a or b, the third piece is the part of rest
      before its first `/`. */
  lemma SegmentOfParts(a: string, b: string, rest: string)
    requires NoChar(a, '/') && NoChar(b, '/')
    ensures Segment(a + ['/'] + (b + ['/'] + rest)) == Some(rest[..IndexOf(rest, '/')])
  {
    var t := b + ['/'] + rest;
    SplitAfter(a, '/', t);
    SplitAfter(b, '/', rest);
    SplitHead(rest, '/');
  }

  lemma SplitHead(s: string, c: char)
    ensures Split(s, c)[0] == s[..IndexOf(s, c)]
  {
  }

  lemma SolutionsParts(url: string)
    requires StartsWith(url, Solutions)
    ensures url == [] + ['/'] + ("solutions" + ['/'] + url[|Solutions|..])
    ensures NoChar("solutions", '/')
  {
    assert Solutions == [] + ['/'] + "solutions" + ['/'];
    assert url == Solutions + url[|Solutions|..];
  }

  /** Behind `/solutions/` the third piece runs to the next `/` or the end. */
  lemma SegmentAfterSolutions(url: string)
    requires StartsWith(url, Solutions)
    ensures var rest := url[|Solutions|..]; var k := IndexOf(rest, '/');
      Segment(url) == Some(rest[..k])
      && StartsWith(url, Solutions + rest[..k])
      && (k == |rest| || url[|Solutions| + k] == '/')
  {
    SolutionsParts(url);
    SegmentOfParts([], "solutions", url[|Solutions|..]);
    PrefixThenPiece(url, Solutions);
  }

  lemma PrefixThenPiece(url: string, pre: string)
    requires StartsWith(url, pre)
    ensures var rest := url[|pre|..]; var k := IndexOf(rest, '/');
      StartsWith(url, pre + rest[..k]) && (k == |rest| || url[|pre| + k] == '/')
  {
    var rest := url[|pre|..];
    var k := IndexOf(rest, '/');
    assert pre + rest[..k] == url[..|pre| + k];
  }

  /** A URL built from a product names it, with or without a further path. */
  lemma ProductOfUrl(p: string, tail: string)
    requires Price(p).Some? && (tail == [] || tail[0] == '/')
    ensures ProductOf(Solutions + p + tail) == Some(p)
    ensures ProductName(Solutions + p + tail) == p
  {
    var url := Solutions + p + tail;
    ProductNoSlash(p);
    assert StartsWith(url, Solutions);
    assert url[|Solutions|..] == p + tail;
    IndexOfNoChar(p, tail);
    SegmentAfterSolutions(url);
  }

  lemma ProductNoSlash(p: string)
    requires Price(p).Some?
    ensures NoChar(p, '/')
  {
    ProductsFacts();
    var i :| 0 <= i < |Products| && ProductNames()[i] == p;
  }

  lemma IndexOfNoChar(p: string, tail: string)
    requires NoChar(p, '/') && (tail == [] || tail[0] == '/')
    ensures IndexOf(p + tail, '/') == |p| && (p + tail)[..|p|] == p
  {
    var s := p + tail;
    if tail != [] {
      assert s[|p|] == tail[0];
    }
  }

  /** Whenever a URL names a product, `extract_product_name` gives that product. */
  lemma ProductNameOfProduct(url: string)
    requires ProductOf(url).Some?
    ensures ProductName(url) == ProductOf(url).value
  {
    SegmentAfterSolutions(url);
  }

  // ---------------------------------------------------------------------------
  // Affiliates

  /** `EMPLOYEE_AFFILIATES`: promo code, employee name and country. */
  const Affiliates: seq<(string, string, string)> := [
    ("BOTSALE1", "Ava Smith", "Botswana"), ("BOTSALE2", "Liam Jones", "Botswana"),
    ("BOTSALE3", "Emma Brown", "Botswana"), ("BOTSALE4", "Noah Davis", "Botswana"),
    ("ZASALE1", "Olivia Wilson", "South Africa"), ("ZASALE2", "James Taylor", "South Africa"),
    ("ZASALE3", "Sophia Clark", "South Africa"), ("NAMSALE1", "William Lee", "Namibia"),
    ("NAMSALE2", "Isabella Harris", "Namibia"), ("ZIMSALE1", "Lucas Martin", "Zimbabwe")]

  /** The name of the first affiliate with the given code. */
  function FindName(table: seq<(string, string, string)>, code: string): (r: Option<string>)
    ensures r.None? <==> forall i :: 0 <= i < |table| ==> table[i].0 != code
    ensures r.Some? ==> exists i :: 0 <= i < |table| && table[i].0 == code && table[i].1 == r.value
  {
    if table == [] then None
    else if table[0].0 == code then Some(table[0].1)
    else
      var r := FindName(table[1..], code);
      assert forall i :: 1 <= i < |table| ==> table[i] == table[1..][i - 1];
      r
  }

  /** `EMPLOYEE_AFFILIATES.get(promo, {}).get('name') if promo else None`: the
      affiliate's name, and nothing for an absent, empty or unknown code. */
  function EmployeeOf(promo: Option<string>): (e: Option<string>)
    ensures e.None? <==> promo.None? || forall i :: 0 <= i < |Affiliates| ==> Affiliates[i].0 != promo.value
    ensures e.Some? ==> exists i :: 0 <= i < |Affiliates| && Affiliates[i].0 == promo.value && Affiliates[i].1 == e.value
  {
    if promo.None? || promo.value == "" then None else FindName(Affiliates, promo.value)
  }
}
