/** IP-prefix country tables and the first-match lookup the dashboards use. */
module Countries {
  import opened Strings

  /** `COUNTRY_PREFIXES` of the sales dashboard, the product sales chart and the
      map, in declaration order. */
  const SalesPrefixes: seq<(string, string)> :=
    [("168.", "Botswana"), ("102.", "South Africa"), ("154.", "Namibia"), ("197.", "Zimbabwe")]

  /** `COUNTRY_PREFIXES` of the sales-by-country chart: `102.` is Zambia there. */
  const TargetPrefixes: seq<(string, string)> :=
    [("168.", "Botswana"), ("102.", "Zambia"), ("154.", "Namibia"), ("197.", "Zimbabwe")]

  /** `COUNTRY_PREFIXES` of the sales trend chart, with short codes. */
  const TrendPrefixes: seq<(string, string)> :=
    [("168.", "BW"), ("102.", "ZA"), ("154.", "Na"), ("197.", "ZW")]

  /** The country of the first row, in table order, whose prefix starts ip. */
  function FirstPrefix(ip: string, table: seq<(string, string)>): (r: Option<string>)
    ensures r.None? <==> forall i :: 0 <= i < |table| ==> !StartsWith(ip, table[i].0)
    ensures r.Some? ==> exists i :: 0 <= i < |table| && StartsWith(ip, table[i].0) && table[i].1 == r.value
                                    && forall j :: 0 <= j < i ==> !StartsWith(ip, table[j].0)
  {
    if table == [] then None
    else if StartsWith(ip, table[0].0) then Some(table[0].1)
    else
      var r := FirstPrefix(ip, table[1..]);
      assert forall i :: 1 <= i < |table| ==> table[i] == table[1..][i - 1];
      r
  }

  /** `for prefix, name in COUNTRY_PREFIXES.items(): if ip.startswith(prefix):
      country = name; break`. */
  method FindPrefix(ip: string, table: seq<(string, string)>) returns (country: Option<string>)
    ensures country == FirstPrefix(ip, table)
  {
    country := None;
    var i := 0;
    while i < |table|
      invariant 0 <= i <= |table|
      invariant FirstPrefix(ip, table) == FirstPrefix(ip, table[i..])
    {
      assert table[i..][1..] == table[i + 1..];
      if StartsWith(ip, table[i].0) {
        country := Some(table[i].1);
        return;
      }
      i := i + 1;
    }
  }

  /** `get_country_from_ip`: nothing for an empty address, otherwise the first
      matching prefix of the sales dashboard's table. */
  function SalesCountry(ip: string): (r: Option<string>)
    ensures ip == [] ==> r.None?
  {
    if ip == [] then None else FirstPrefix(ip, SalesPrefixes)
  }

  /** `get_country_from_ip` as written, with its guard and early returns. */
  method CountryFromIp(ip: string) returns (country: Option<string>)
    ensures country == SalesCountry(ip)
  {
    if ip == [] {
      return None;
    }
    var i := 0;
    while i < |SalesPrefixes|
      invariant 0 <= i <= |SalesPrefixes|
      invariant FirstPrefix(ip, SalesPrefixes) == FirstPrefix(ip, SalesPrefixes[i..])
    {
      assert SalesPrefixes[i..][1..] == SalesPrefixes[i + 1..];
      if StartsWith(ip, SalesPrefixes[i].0) {
        return Some(SalesPrefixes[i].1);
      }
      i := i + 1;
    }
    return None;
  }

  /** `str(ip).strip() if ip else ""`. */
  function IpText(ip: string): string { Strip(ip) }

  /** Prefixes of one length that differ pairwise: no address starts with two. */
  predicate Exclusive(table: seq<(string, string)>)
  {
    forall i, j :: 0 <= i < j < |table| ==> |table[i].0| == |table[j].0| && table[i].0 != table[j].0
  }

  /** An empty address matches no row of a table without empty prefixes. */
  lemma EmptyMatchesNothing(table: seq<(string, string)>)
    requires forall i :: 0 <= i < |table| ==> table[i].0 != []
    ensures FirstPrefix([], table) == None
  {
  }

  /** In a table of exclusive prefixes at most one row matches, so the first
      match is the only one and table order does not matter. */
  lemma OnlyMatch(ip: string, table: seq<(string, string)>, i: nat)
    requires Exclusive(table) && i < |table| && StartsWith(ip, table[i].0)
    ensures FirstPrefix(ip, table) == Some(table[i].1)
    ensures forall j :: 0 <= j < |table| && j != i ==> !StartsWith(ip, table[j].0)
  {
    forall j | 0 <= j < |table| && j != i ensures !StartsWith(ip, table[j].0) {
      assert |table[i].0| == |table[j].0| && table[i].0 != table[j].0;
    }
  }

  /** The three tables have exclusive non-empty prefixes, the same ones in the
      same order. */
  lemma TablesExclusive()
    ensures Exclusive(SalesPrefixes) && Exclusive(TargetPrefixes) && Exclusive(TrendPrefixes)
    ensures forall i :: 0 <= i < 4 ==> SalesPrefixes[i].0 != []
    ensures |SalesPrefixes| == |TargetPrefixes| == |TrendPrefixes| == 4
    ensures forall i :: 0 <= i < 4 ==> TargetPrefixes[i].0 == SalesPrefixes[i].0 == TrendPrefixes[i].0
  {
    FourPrefixes(SalesPrefixes);
    FourPrefixes(TargetPrefixes);
    FourPrefixes(TrendPrefixes);
  }

  /** The four prefixes of the tables differ in their second character. */
  lemma FourPrefixes(table: seq<(string, string)>)
    requires |table| == 4
    requires table[0].0 == "168." && table[1].0 == "102." && table[2].0 == "154." && table[3].0 == "197."
    ensures Exclusive(table) && forall i :: 0 <= i < 4 ==> |table[i].0| == 4
  {
    assert table[0].0[1] == '6' && table[1].0[1] == '0' && table[2].0[1] == '5' && table[3].0[1] == '9';
    forall i, j | 0 <= i < j < 4 ensures |table[i].0| == |table[j].0| && table[i].0 != table[j].0 {
      assert table[i].0[1] != table[j].0[1];
    }
  }

  /** A table with the same prefixes and renamed countries finds the renamed
      country of the first table's match. */
  lemma {:induction false} RenamedTable(ip: string, a: seq<(string, string)>, b: seq<(string, string)>, f: string -> string)
    requires |a| == |b| && forall i :: 0 <= i < |a| ==> b[i] == (a[i].0, f(a[i].1))
    ensures FirstPrefix(ip, b) == match FirstPrefix(ip, a) case None => None case Some(c) => Some(f(c))
    decreases |a|
  {
    if a != [] {
      assert forall i :: 0 <= i < |a| - 1 ==> b[1..][i] == b[i + 1] && a[1..][i] == a[i + 1];
      RenamedTable(ip, a[1..], b[1..], f);
    }
  }

  function ZambiaFor(country: string): string
  {
    if country == "South Africa" then "Zambia" else country
  }

  /** The sales-by-country table agrees with the sales dashboard's except that
      it calls the `102.` addresses Zambia rather than South Africa. */
  lemma TargetVersusSales(ip: string)
    ensures FirstPrefix(ip, TargetPrefixes)
      == match FirstPrefix(ip, SalesPrefixes) case None => None case Some(c) => Some(ZambiaFor(c))
  {
    RenamedTable(ip, SalesPrefixes, TargetPrefixes, ZambiaFor);
  }

  /** The trend chart's code for each country of the sales dashboard's table. */
  function CodeOf(country: string): string
  {
    if country == "Botswana" then "BW" else if country == "South Africa" then "ZA"
    else if country == "Namibia" then "Na" else "ZW"
  }

  /** The trend chart finds a country exactly when the sales dashboard does, and
      gives its code. */
  lemma TrendVersusSales(ip: string)
    ensures FirstPrefix(ip, TrendPrefixes)
      == match FirstPrefix(ip, SalesPrefixes) case None => None case Some(c) => Some(CodeOf(c))
  {
    RenamedTable(ip, SalesPrefixes, TrendPrefixes, CodeOf);
  }
}
