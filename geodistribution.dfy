/** `process_log_data` of the geographic distribution map: per-country record
    counts by address prefix, and a counter of addresses no prefix matches. */
module GeoDistribution {
  import opened Strings
  import opened LogRecords
  import opened Grouping
  import opened Countries
  import opened Scope

  /** `ISO_MAP`, in declaration order: the map's countries and their codes. */
  const IsoMap: seq<(string, string)> :=
    [("Botswana", "BWA"), ("South Africa", "ZAF"), ("Namibia", "NAM"), ("Zimbabwe", "ZWE")]

  /** One row of the map's data frame. */
  datatype MapRow = MapRow(country: string, logs: int, isoAlpha: string)

  /** The countries of a code table, in its order. */
  function Names(iso: seq<(string, string)>): (n: seq<string>)
    ensures |n| == |iso| && forall k :: 0 <= k < |iso| ==> n[k] == iso[k].0
  {
    seq(|iso|, k requires 0 <= k < |iso| => iso[k].0)
  }

  /** The country a record's stripped address is counted for, if any. */
  function Placed(prefixes: seq<(string, string)>): LogRecord -> Option<string>
  {
    (r: LogRecord) => FirstPrefix(IpText(r.ip), prefixes)
  }

  /** The countries the records are counted for, one per matched record. */
  function Matches(rows: seq<LogRecord>, prefixes: seq<(string, string)>): seq<string>
  {
    Collect(rows, Placed(prefixes))
  }

  /** A record with a non-empty stripped address that no prefix matches. */
  function Unmatched(prefixes: seq<(string, string)>): LogRecord -> bool
  {
    (r: LogRecord) => IpText(r.ip) != "" && FirstPrefix(IpText(r.ip), prefixes).None?
  }

  /** A record whose stripped address is empty. */
  predicate Blank(r: LogRecord)
  {
    IpText(r.ip) == ""
  }

  /** The data frame: one row per country of the code table, in its order,
      with the number of records counted for it and its code. */
  function GeoTable(rows: seq<LogRecord>, prefixes: seq<(string, string)>, iso: seq<(string, string)>): (t: seq<MapRow>)
    ensures |t| == |iso|
    ensures forall k :: 0 <= k < |iso| ==>
      t[k] == MapRow(iso[k].0, Count(Matches(rows, prefixes), iso[k].0), iso[k].1)
  {
    seq(|iso|, k requires 0 <= k < |iso| => MapRow(iso[k].0, Count(Matches(rows, prefixes), iso[k].0), iso[k].1))
  }

  /** The tables the map can count with: every prefix names a country of the
      code table (otherwise `country_counts[country]` would fail) and the code
      table names each country once. */
  predicate Compatible(prefixes: seq<(string, string)>, iso: seq<(string, string)>)
  {
    NoDup(Names(iso)) && forall i :: 0 <= i < |prefixes| ==> prefixes[i].1 in Names(iso)
  }

  /** The counters after one more item: one more for its country, if any. */
  function Bump(counts: map<string, int>, x: Option<string>): (r: map<string, int>)
    requires x.Some? ==> x.value in counts
    ensures r.Keys == counts.Keys
  {
    if x.Some? then counts[x.value := counts[x.value] + 1] else counts
  }

  /** The inner loop of `process_log_data`: the first prefix that starts the
      address adds one to its country's counter, then the search stops. */
  method CountFirstMatch(ipStr: string, prefixes: seq<(string, string)>, counts: map<string, int>)
    returns (countsOut: map<string, int>, matched: bool)
    requires forall i :: 0 <= i < |prefixes| ==> prefixes[i].1 in counts
    ensures matched <==> FirstPrefix(ipStr, prefixes).Some?
    ensures countsOut == Bump(counts, FirstPrefix(ipStr, prefixes))
  {
    countsOut := counts;
    matched := false;
    var j := 0;
    while j < |prefixes|
      invariant 0 <= j <= |prefixes|
      invariant FirstPrefix(ipStr, prefixes) == FirstPrefix(ipStr, prefixes[j..])
      invariant !matched && countsOut == counts
    {
      assert prefixes[j..][1..] == prefixes[j + 1..];
      if StartsWith(ipStr, prefixes[j].0) {
        countsOut := countsOut[prefixes[j].1 := countsOut[prefixes[j].1] + 1];
        matched := true;
        break;
      }
      j := j + 1;
    }
  }

  /** Counters that hold the counts of s hold, once bumped, the counts of s
      extended by the item. */
  lemma BumpCounts(counts: map<string, int>, s: seq<string>, x: Option<string>)
    requires x.Some? ==> x.value in counts
    requires Tallied(counts, s)
    ensures Tallied(Bump(counts, x), s + (if x.Some? then [x.value] else []))
  {
    if x.Some? {
      forall c | c in Bump(counts, x) ensures Bump(counts, x)[c] == Count(s + [x.value], c) {
        CountSnoc(s, x.value, c);
      }
    } else {
      assert s + [] == s;
    }
  }

  /** The body of the record loop of `process_log_data`: the record's
      stripped address bumps the counter of the first matching prefix's
      country, or, when it is non-empty and nothing matches, the unmatched
      counter. */
  method CountRecord(r: LogRecord, prefixes: seq<(string, string)>, counts: map<string, int>, invalid: int)
    returns (countsOut: map<string, int>, invalidOut: int)
    requires forall i :: 0 <= i < |prefixes| ==> prefixes[i].1 in counts
    ensures countsOut == Bump(counts, Placed(prefixes)(r))
    ensures invalidOut == invalid + (if Unmatched(prefixes)(r) then 1 else 0)
  {
    var ipStr := IpText(r.ip);
    var matched;
    countsOut, matched := CountFirstMatch(ipStr, prefixes, counts);
    invalidOut := invalid;
    if !matched && ipStr != "" {
      invalidOut := invalid + 1;
    }
  }

  /** One more record adds its country, if any, to the matches and itself, if
      unmatched, to the unmatched records. */
  lemma RecordStep(rows: seq<LogRecord>, i: nat, prefixes: seq<(string, string)>)
    requires i < |rows|
    ensures var x := Placed(prefixes)(rows[i]);
      Collect(rows[..i + 1], Placed(prefixes)) == Collect(rows[..i], Placed(prefixes)) + (if x.Some? then [x.value] else [])
    ensures |Filter(rows[..i + 1], Unmatched(prefixes))|
      == |Filter(rows[..i], Unmatched(prefixes))| + (if Unmatched(prefixes)(rows[i]) then 1 else 0)
  {
    assert rows[..i + 1][..i] == rows[..i];
  }

  /** The counters hold the counts of the items of s. */
  predicate Tallied(counts: map<string, int>, s: seq<string>)
  {
    forall c :: c in counts ==> counts[c] == Count(s, c)
  }

  /** The record loop of `process_log_data`, from the zeroed counters. */
  method CountLoop(rows: seq<LogRecord>, prefixes: seq<(string, string)>, countries: seq<string>)
    returns (countryCounts: map<string, int>, invalidCount: int)
    requires forall i :: 0 <= i < |prefixes| ==> prefixes[i].1 in countries
    ensures forall c :: c in countryCounts <==> c in countries
    ensures Tallied(countryCounts, Matches(rows, prefixes))
    ensures invalidCount == |Filter(rows, Unmatched(prefixes))|
  {
    countryCounts := map c | c in countries :: 0;
    invalidCount := 0;
    var place := Placed(prefixes);
    assert rows[..0] == [];
    var i := 0;
    while i < |rows|
      invariant 0 <= i <= |rows|
      invariant forall c :: c in countryCounts <==> c in countries
      invariant Tallied(countryCounts, Collect(rows[..i], place))
      invariant invalidCount == |Filter(rows[..i], Unmatched(prefixes))|
    {
      var x := place(rows[i]);
      ghost var seen := Collect(rows[..i], place);
      ghost var unmatched := |Filter(rows[..i], Unmatched(prefixes))|;
      RecordStep(rows, i, prefixes);
      assert Collect(rows[..i + 1], place) == seen + (if x.Some? then [x.value] else []);
      BumpCounts(countryCounts, seen, x);
      ghost var bumped := Bump(countryCounts, x);
      countryCounts, invalidCount := CountRecord(rows[i], prefixes, countryCounts, invalidCount);
      assert countryCounts == bumped;
      assert invalidCount == unmatched + (if Unmatched(prefixes)(rows[i]) then 1 else 0);
      i := i + 1;
    }
    assert rows[..|rows|] == rows;
  }

  /** The loops of `process_log_data` over a prefix table and a code table,
      and the data frame built from the counters in the code table's order. */
  method CountCountries(rows: seq<LogRecord>, prefixes: seq<(string, string)>, iso: seq<(string, string)>)
    returns (table: seq<MapRow>, invalidCount: int)
    requires Compatible(prefixes, iso)
    ensures table == GeoTable(rows, prefixes, iso)
    ensures invalidCount == |Filter(rows, Unmatched(prefixes))|
  {
    var countries := Names(iso);
    var countryCounts;
    countryCounts, invalidCount := CountLoop(rows, prefixes, countries);
    assert forall k :: 0 <= k < |iso| ==> iso[k].0 in countryCounts by {
      forall k | 0 <= k < |iso| ensures iso[k].0 in countryCounts {
        assert countries[k] == iso[k].0;
      }
    }
    table := seq(|iso|, k requires 0 <= k < |iso| => MapRow(iso[k].0, countryCounts[iso[k].0], iso[k].1));
  }

  /** `process_log_data()` over the store, with the map's own tables. */
  method ProcessLogData(rows: seq<LogRecord>) returns (table: seq<MapRow>, invalidCount: int)
    ensures table == GeoTable(rows, SalesPrefixes, IsoMap)
    ensures invalidCount == |Filter(rows, Unmatched(SalesPrefixes))|
  {
    MapTablesCompatible();
    table, invalidCount := CountCountries(rows, SalesPrefixes, IsoMap);
  }

  /** The map's prefix table names only countries of its code table, each
      once, and none of its prefixes is empty. */
  lemma MapTablesCompatible()
    ensures Compatible(SalesPrefixes, IsoMap)
    ensures forall i :: 0 <= i < |SalesPrefixes| ==> SalesPrefixes[i].0 != []
  {
    assert Names(IsoMap) == ["Botswana", "South Africa", "Namibia", "Zimbabwe"];
  }

  // ---------------------------------------------------------------------------
  // Conservation: every record is counted once, as a country, as unmatched,
  // or (empty address) nowhere.

  /** Sum of the logs column. */
  function LogsTotal(t: seq<MapRow>): int
  {
    if t == [] then 0 else LogsTotal(t[..|t| - 1]) + t[|t| - 1].logs
  }

  /** The logs column adds up the counts of the code table's countries. */
  lemma {:induction false} LogsTotalCounts(rows: seq<LogRecord>, prefixes: seq<(string, string)>, iso: seq<(string, string)>)
    ensures LogsTotal(GeoTable(rows, prefixes, iso)) == CountAll(Matches(rows, prefixes), Names(iso))
    decreases |iso|
  {
    if iso != [] {
      var iso' := iso[..|iso| - 1];
      LogsTotalCounts(rows, prefixes, iso');
      assert GeoTable(rows, prefixes, iso)[..|iso'|] == GeoTable(rows, prefixes, iso');
      assert Names(iso)[..|iso'|] == Names(iso');
    }
  }

  /** Each record is matched, unmatched or blank, and exactly one of these;
      blank records match nothing when no prefix is empty. */
  lemma {:induction false} RecordsSplit(rows: seq<LogRecord>, prefixes: seq<(string, string)>)
    requires forall i :: 0 <= i < |prefixes| ==> prefixes[i].0 != []
    ensures |Matches(rows, prefixes)| + |Filter(rows, Unmatched(prefixes))| + |Filter(rows, Blank)| == |rows|
    decreases |rows|
  {
    if rows != [] {
      var rows' := rows[..|rows| - 1];
      var r := rows[|rows| - 1];
      RecordsSplit(rows', prefixes);
      if IpText(r.ip) == "" {
        EmptyMatchesNothing(prefixes);
      }
      assert Placed(prefixes)(r).Some? || Unmatched(prefixes)(r) || Blank(r);
    }
  }

  /** Every matched record is counted for a country of the code table. */
  lemma MatchesNamed(rows: seq<LogRecord>, prefixes: seq<(string, string)>, iso: seq<(string, string)>)
    requires Compatible(prefixes, iso)
    ensures forall i :: 0 <= i < |Matches(rows, prefixes)| ==> Matches(rows, prefixes)[i] in Names(iso)
  {
    var m := Matches(rows, prefixes);
    forall i | 0 <= i < |m| ensures m[i] in Names(iso) {
      MatchNamed(rows, prefixes, iso, m[i]);
    }
  }

  lemma MatchNamed(rows: seq<LogRecord>, prefixes: seq<(string, string)>, iso: seq<(string, string)>, y: string)
    requires Compatible(prefixes, iso) && y in Matches(rows, prefixes)
    ensures y in Names(iso)
  {
    CollectSound(rows, Placed(prefixes), y);
    var k :| 0 <= k < |rows| && Placed(prefixes)(rows[k]) == Some(y);
    var r := rows[k];
    assert FirstPrefix(IpText(r.ip), prefixes) == Some(y);
    var j :| 0 <= j < |prefixes| && StartsWith(IpText(r.ip), prefixes[j].0) && prefixes[j].1 == y;
    assert prefixes[j].1 in Names(iso);
  }

  /** The country counts, the unmatched counter and the records with an empty
      address add up to the number of records, for compatible tables without
      empty prefixes. */
  lemma GeoConservation(rows: seq<LogRecord>, prefixes: seq<(string, string)>, iso: seq<(string, string)>)
    requires Compatible(prefixes, iso)
    requires forall i :: 0 <= i < |prefixes| ==> prefixes[i].0 != []
    ensures LogsTotal(GeoTable(rows, prefixes, iso)) + |Filter(rows, Unmatched(prefixes))| + |Filter(rows, Blank)| == |rows|
  {
    LogsTotalCounts(rows, prefixes, iso);
    MatchesNamed(rows, prefixes, iso);
    CountAllLength(Matches(rows, prefixes), Names(iso));
    RecordsSplit(rows, prefixes);
  }

  /** The map: four rows, Botswana, South Africa, Namibia and Zimbabwe with
      their codes, zero without records, and adding up with the unmatched
      counter and the blank records to all records. */
  lemma MapFacts(rows: seq<LogRecord>)
    ensures var t := GeoTable(rows, SalesPrefixes, IsoMap);
      |t| == 4
      && (forall k :: 0 <= k < 4 ==> t[k].country == IsoMap[k].0 && t[k].isoAlpha == IsoMap[k].1 && t[k].logs >= 0)
      && (rows == [] ==> forall k :: 0 <= k < 4 ==> t[k].logs == 0)
      && LogsTotal(t) + |Filter(rows, Unmatched(SalesPrefixes))| + |Filter(rows, Blank)| == |rows|
  {
    MapTablesCompatible();
    GeoConservation(rows, SalesPrefixes, IsoMap);
  }

  /** A record counts for a country exactly when its stripped address starts
      with that country's prefix; the map's prefixes are exclusive, so it
      counts for no other. */
  lemma RecordCountry(r: LogRecord, i: nat)
    requires i < |SalesPrefixes| && StartsWith(IpText(r.ip), SalesPrefixes[i].0)
    ensures Placed(SalesPrefixes)(r) == Some(SalesPrefixes[i].1)
    ensures forall j :: 0 <= j < |SalesPrefixes| && j != i ==> !StartsWith(IpText(r.ip), SalesPrefixes[j].0)
  {
    TablesExclusive();
    OnlyMatch(IpText(r.ip), SalesPrefixes, i);
  }
}
