/** The two traffic pies: sales by traffic source (`create_sales_pie_chart`,
    seven sources over the POST records) and the referrer pie
    (`create_pie_chart`, three platforms over all records). Both first count
    the records per raw referrer, as the ORM query does, and then regroup
    those counts by category. */
module Traffic {
  import opened Strings
  import opened LogRecords
  import opened Grouping
  import opened Referrers
  import opened Scope

  /** The `referrer` column of some records, in order. */
  function ReferrersOf(rows: seq<LogRecord>): (s: seq<Option<string>>)
    ensures |s| == |rows| && forall i :: 0 <= i < |rows| ==> s[i] == rows[i].referrer
  {
    seq(|rows|, i requires 0 <= i < |rows| => rows[i].referrer)
  }

  /** `values('referrer').annotate(count=Count('id'))`: one (referrer, count)
      row per distinct referrer. */
  function ReferrerCounts(rows: seq<LogRecord>): seq<(Option<string>, int)>
  {
    GroupFirst(Tally(ReferrersOf(rows)))
  }

  /** A per-referrer table is empty exactly when there are no records. */
  lemma ReferrerCountsEmpty(rows: seq<LogRecord>)
    ensures ReferrerCounts(rows) == [] <==> rows == []
  {
    var refs := ReferrersOf(rows);
    GroupFirstFacts(Tally(refs));
    if rows != [] {
      assert Keys(Tally(refs))[0] in Keys(Tally(refs));
    }
  }

  // ---------------------------------------------------------------------------
  // Sales by traffic source

  /** The `source` column: the seven-way category's label. */
  function SourceOf(referrer: Option<string>): string
  {
    SourceName(Categorize(referrer))
  }

  /** The source of each POST record, in order. */
  function PostSources(rows: seq<LogRecord>): (s: seq<string>)
    ensures var posts := Filter(rows, IsPost);
      |s| == |posts| && forall i :: 0 <= i < |posts| ==> s[i] == SourceOf(posts[i].referrer)
  {
    var posts := Filter(rows, IsPost);
    seq(|posts|, i requires 0 <= i < |posts| => SourceOf(posts[i].referrer))
  }

  /** `get_sales_by_referrer` then `create_sales_pie_chart` up to the figure:
      nothing without POST records, otherwise the per-referrer counts of the
      POST records summed per source, largest first. */
  function SalesBySource(rows: seq<LogRecord>): Option<seq<(string, int)>>
  {
    var c := ReferrerCounts(Filter(rows, IsPost));
    if c == [] then None else Some(RankedGroups(Relabel(c, SourceOf)))
  }

  /** Regrouping the per-referrer counts by a category counts, per category,
      the records of that category. */
  lemma RegroupReferrers<C>(rows: seq<LogRecord>, f: Option<string> -> C, cats: seq<C>, c: C)
    requires |cats| == |rows| && forall i :: 0 <= i < |rows| ==> cats[i] == f(rows[i].referrer)
    ensures SumFor(Relabel(ReferrerCounts(rows), f), c) == Count(cats, c)
    ensures c in Keys(Relabel(ReferrerCounts(rows), f)) <==> c in cats
  {
    var t := Tally(ReferrersOf(rows));
    RegroupFirst(t, f, c);
    RelabelFirstKeys(t, f, c);
    assert Relabel(t, f) == Tally(cats);
    assert Keys(Tally(cats)) == cats;
    SumForTally(cats, c);
  }

  /** Nothing exactly without POST records; otherwise one slice per source
      that occurs among the POST records and no other, largest first, each
      holding the number of POST records from that source, and the slices
      adding up to the number of POST records. */
  lemma SalesBySourceFacts(rows: seq<LogRecord>)
    ensures SalesBySource(rows).None? <==> Filter(rows, IsPost) == []
    ensures SalesBySource(rows).Some? ==> var t := SalesBySource(rows).value;
      Descending(t) && NoDup(Keys(t))
      && (forall k :: k in Keys(t) <==> k in PostSources(rows))
      && (forall i :: 0 <= i < |t| ==> t[i].1 == Count(PostSources(rows), t[i].0))
      && Total(t) == |Filter(rows, IsPost)|
  {
    var posts := Filter(rows, IsPost);
    var c := ReferrerCounts(posts);
    ReferrerCountsEmpty(posts);
    if c != [] {
      var src := PostSources(rows);
      var rel := Relabel(c, SourceOf);
      var t := RankedGroups(rel);
      RankedGroupsFacts(rel);
      forall k ensures k in Keys(t) <==> k in src {
        RegroupReferrers(posts, SourceOf, src, k);
      }
      forall i | 0 <= i < |t| ensures t[i].1 == Count(src, t[i].0) {
        RegroupReferrers(posts, SourceOf, src, t[i].0);
      }
      RelabelTotal(c, SourceOf);
      GroupFirstFacts(Tally(ReferrersOf(posts)));
      TotalTally(ReferrersOf(posts));
    }
  }

  // ---------------------------------------------------------------------------
  // Referrer pie

  /** The pie's `category` column: the three-way platform, or nothing. */
  function PlatformOf(referrer: Option<string>): Option<Source>
  {
    Platform(referrer)
  }

  /** The platform of every record, in order. */
  function Platforms(rows: seq<LogRecord>): (s: seq<Option<Source>>)
    ensures |s| == |rows| && forall i :: 0 <= i < |rows| ==> s[i] == PlatformOf(rows[i].referrer)
  {
    seq(|rows|, i requires 0 <= i < |rows| => PlatformOf(rows[i].referrer))
  }

  /** The platforms the pie can show, in the ascending order of their names
      that the grouped table has. */
  function PieOrder(): seq<Source>
  {
    [Google, LinkedIn, Twitter]
  }

  /** A platform's place in that order. */
  function Rank(p: Source): int
  {
    match p
    case Google => 0
    case LinkedIn => 1
    case Twitter => 2
    case _ => 3
  }

  /** `dropna(subset=['category']).groupby('category')['count'].sum()` over
      (category, count) rows: one row per platform of `ps` that occurs, with
      its sum; rows without a category reach no group. */
  function PieRows(ps: seq<Source>, g: seq<(Option<Source>, int)>): seq<(Source, int)>
  {
    if ps == [] then [] else
      var p := ps[|ps| - 1];
      PieRows(ps[..|ps| - 1], g) + (if Some(p) in Keys(g) then [(p, SumFor(g, Some(p)))] else [])
  }

  /** `create_pie_chart` up to the figure: nothing without records, otherwise
      the per-referrer counts summed per platform (each slice named by
      `SourceName` of its platform). */
  function ReferrerPie(rows: seq<LogRecord>): Option<seq<(Source, int)>>
  {
    var c := ReferrerCounts(rows);
    if c == [] then None else Some(PieRows(PieOrder(), Relabel(c, PlatformOf)))
  }

  /** Category rows that count the categories of some records. */
  predicate CountsOf(g: seq<(Option<Source>, int)>, cats: seq<Option<Source>>)
  {
    forall p :: (Some(p) in Keys(g) <==> Some(p) in cats) && SumFor(g, Some(p)) == Count(cats, Some(p))
  }

  /** The last row comes from the last platform, when that platform occurs. */
  lemma PieRowsSnoc(ps: seq<Source>, g: seq<(Option<Source>, int)>)
    requires ps != []
    ensures var p := ps[|ps| - 1]; var t' := PieRows(ps[..|ps| - 1], g);
      PieRows(ps, g) == t' + (if Some(p) in Keys(g) then [(p, SumFor(g, Some(p)))] else [])
  {
  }

  /** Over rows counting some records' categories: one row per listed
      platform that occurs among the records and no other, each holding that
      platform's number of records. */
  lemma {:induction false} PieRowsCounts(ps: seq<Source>, g: seq<(Option<Source>, int)>, cats: seq<Option<Source>>)
    requires CountsOf(g, cats)
    ensures var t := PieRows(ps, g);
      (forall p :: p in Keys(t) <==> p in ps && Some(p) in cats)
      && forall i :: 0 <= i < |t| ==> t[i].1 == Count(cats, Some(t[i].0)) > 0
    decreases |ps|
  {
    if ps != [] {
      var ps' := ps[..|ps| - 1];
      var p := ps[|ps| - 1];
      PieRowsCounts(ps', g, cats);
      PieRowsSnoc(ps, g);
      var t' := PieRows(ps', g);
      var extra := if Some(p) in Keys(g) then [(p, SumFor(g, Some(p)))] else [];
      assert (Some(p) in Keys(g) <==> Some(p) in cats) && SumFor(g, Some(p)) == Count(cats, Some(p));
      assert forall q :: q in ps <==> q in ps' || q == p;
      assert Keys(t' + extra) == Keys(t') + Keys(extra);
      assert Keys(extra) == if Some(p) in Keys(g) then [p] else [];
      forall q ensures q in Keys(t' + extra) <==> q in ps && Some(q) in cats {
        assert q in Keys(t') <==> q in ps' && Some(q) in cats;
      }
    }
  }

  /** Over platforms listed in ascending rank, the rows come in rank order. */
  lemma {:induction false} PieRowsOrder(ps: seq<Source>, g: seq<(Option<Source>, int)>)
    requires forall i, j :: 0 <= i < j < |ps| ==> Rank(ps[i]) < Rank(ps[j])
    ensures var t := PieRows(ps, g);
      (forall i :: 0 <= i < |t| ==> t[i].0 in ps)
      && forall i, j :: 0 <= i < j < |t| ==> Rank(t[i].0) < Rank(t[j].0)
    decreases |ps|
  {
    if ps != [] {
      var ps' := ps[..|ps| - 1];
      var p := ps[|ps| - 1];
      PieRowsOrder(ps', g);
      PieRowsSnoc(ps, g);
      var t' := PieRows(ps', g);
      forall i | 0 <= i < |t'| ensures Rank(t'[i].0) < Rank(p) {
        var k :| 0 <= k < |ps'| && ps'[k] == t'[i].0;
        assert ps[k] == ps'[k];
      }
    }
  }

  /** Over rows counting some records' categories, the rows add up to those
      records' count over the listed platforms. */
  lemma {:induction false} PieRowsTotal(ps: seq<Source>, g: seq<(Option<Source>, int)>, cats: seq<Option<Source>>)
    requires CountsOf(g, cats)
    ensures Total(PieRows(ps, g)) == CountAll(cats, SomeOf(ps))
    decreases |ps|
  {
    if ps != [] {
      var ps' := ps[..|ps| - 1];
      var p := ps[|ps| - 1];
      PieRowsTotal(ps', g, cats);
      PieRowsSnoc(ps, g);
      var extra := if Some(p) in Keys(g) then [(p, SumFor(g, Some(p)))] else [];
      TotalAppend(PieRows(ps', g), extra);
      assert SomeOf(ps)[..|ps'|] == SomeOf(ps');
    }
  }

  /** `Some` of each platform. */
  function SomeOf(ps: seq<Source>): (s: seq<Option<Source>>)
    ensures |s| == |ps| && forall i :: 0 <= i < |ps| ==> s[i] == Some(ps[i])
  {
    seq(|ps|, i requires 0 <= i < |ps| => Some(ps[i]))
  }

  /** Nothing exactly without records; otherwise one slice per platform among
      Google, LinkedIn and Twitter that some record's referrer names and no
      other, in that order, each holding that platform's number of records;
      the slices and the records without a platform add up to all records,
      so the slices never exceed the record count. */
  lemma ReferrerPieFacts(rows: seq<LogRecord>)
    ensures ReferrerPie(rows).None? <==> rows == []
    ensures ReferrerPie(rows).Some? ==> var t := ReferrerPie(rows).value;
      (forall p :: p in Keys(t) <==> p in PieOrder() && Some(p) in Platforms(rows))
      && (forall i :: 0 <= i < |t| ==> t[i].1 == Count(Platforms(rows), Some(t[i].0)) > 0)
      && (forall i, j :: 0 <= i < j < |t| ==> Rank(t[i].0) < Rank(t[j].0))
      && Total(t) + Count(Platforms(rows), None) == |rows|
  {
    ReferrerCountsEmpty(rows);
    if rows != [] {
      var cats := Platforms(rows);
      var g := Relabel(ReferrerCounts(rows), PlatformOf);
      forall p ensures (Some(p) in Keys(g) <==> Some(p) in cats) && SumFor(g, Some(p)) == Count(cats, Some(p)) {
        RegroupReferrers(rows, PlatformOf, cats, Some(p));
      }
      PieOrderFacts(rows);
      PieRowsCounts(PieOrder(), g, cats);
      PieRowsOrder(PieOrder(), g);
      PieRowsTotal(PieOrder(), g, cats);
      PieTotal(cats, PieOrder());
    }
  }

  /** When every category is one of some distinct platforms or nothing, the
      platforms' counts and the uncategorised count add up to all records. */
  lemma PieTotal(cats: seq<Option<Source>>, ps: seq<Source>)
    requires NoDup(ps)
    requires forall i :: 0 <= i < |cats| ==> cats[i] == None || cats[i].value in ps
    ensures CountAll(cats, SomeOf(ps)) + Count(cats, None) == |cats|
  {
    var keys := SomeOf(ps) + [None];
    assert keys[..|ps|] == SomeOf(ps);
    forall i | 0 <= i < |cats| ensures cats[i] in keys {
      if cats[i] != None {
        var j :| 0 <= j < |ps| && ps[j] == cats[i].value;
        assert keys[j] == cats[i];
      }
    }
    CountAllLength(cats, keys);
  }

  /** The three platforms are listed once each, in ascending rank, and the
      three-way policy yields only them. */
  lemma PieOrderFacts(rows: seq<LogRecord>)
    ensures NoDup(PieOrder()) && forall i, j :: 0 <= i < j < |PieOrder()| ==> Rank(PieOrder()[i]) < Rank(PieOrder()[j])
    ensures forall i :: 0 <= i < |rows| ==> Platforms(rows)[i] == None || Platforms(rows)[i].value in PieOrder()
  {
  }
}
