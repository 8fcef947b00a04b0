/** The most visited pages: the overview's `create_top_pages_chart` and the
    top pages chart with its `clean_url` shortener. Both count over all
    records, whatever year is selected. */
module Pages {
  import opened Strings
  import opened LogRecords
  import opened Grouping

  /** The `url` column, in record order. */
  function Urls(rows: seq<LogRecord>): (s: seq<string>)
    ensures |s| == |rows| && forall i :: 0 <= i < |rows| ==> s[i] == rows[i].url
  {
    seq(|rows|, i requires 0 <= i < |rows| => rows[i].url)
  }

  /** `Counter(urls).most_common(5)`, and
      `values('url').annotate(visit_count=Count('url')).order_by('-visit_count')[:5]`. */
  function TopPages(rows: seq<LogRecord>): seq<(string, int)>
  {
    MostCommon(Urls(rows), 5)
  }

  /** At most five pages, most visited first, each with its number of visits
      and none twice; a page left out has no more visits than any listed one,
      and the list is empty exactly when there are no records. */
  lemma TopPagesFacts(rows: seq<LogRecord>, u: string)
    ensures var t := TopPages(rows);
      |t| <= 5 && Descending(t) && NoDup(Keys(t))
      && (forall i :: 0 <= i < |t| ==> t[i].0 in Urls(rows) && t[i].1 == Count(Urls(rows), t[i].0))
      && (u in Urls(rows) && u !in Keys(t) ==>
            |t| == 5 && forall i :: 0 <= i < |t| ==> t[i].1 >= Count(Urls(rows), u))
      && (t == [] <==> rows == [])
  {
    MostCommonRows(Urls(rows), 5);
    if u in Urls(rows) {
      MostCommonCut(Urls(rows), 5, u);
    }
    if rows != [] {
      MostCommonCut(Urls(rows), 5, Urls(rows)[0]);
    }
  }

  // ---------------------------------------------------------------------------
  // Display labels

  /** `str(url).split('?')[0]`. */
  function QueryCut(url: string): string
  {
    Split(url, '?')[0]
  }

  /** `clean_url`: the URL without its query, and a URL longer than 40
      characters cut to its first 20 and last 15 around `...`. */
  function CleanUrl(url: string): string
  {
    var u := QueryCut(url);
    if |u| > 40 then u[..20] + "..." + u[|u| - 15..] else u
  }

  /** Cutting the query keeps the URL up to its first `?`. */
  lemma QueryCutFacts(url: string)
    ensures var u := QueryCut(url);
      StartsWith(url, u) && NoChar(u, '?') && (u == url || url[|u|] == '?')
  {
    var i := IndexOf(url, '?');
    if i < |url| {
      assert url == url[..i] + ['?'] + url[i + 1..];
    }
  }

  /** A URL without `?` has nothing to cut. */
  lemma QueryCutNone(url: string)
    requires NoChar(url, '?')
    ensures QueryCut(url) == url
  {
    IndexOfAbsent(url, '?');
  }

  /** The label has no `?` and at most 40 characters: 38 when the URL without
      its query is longer than 40, otherwise that URL itself; cleaning a
      label again leaves it unchanged. */
  lemma CleanUrlFacts(url: string)
    ensures var u := QueryCut(url); var c := CleanUrl(url);
      NoChar(c, '?') && |c| <= 40
      && (|u| > 40 ==> |c| == 38 && c[..20] == u[..20] && c[20..23] == "..." && c[23..] == u[|u| - 15..])
      && (|u| <= 40 ==> c == u)
    ensures CleanUrl(CleanUrl(url)) == CleanUrl(url)
  {
    var u := QueryCut(url);
    var c := CleanUrl(url);
    QueryCutFacts(url);
    if |u| > 40 {
      assert forall k :: 0 <= k < |c| ==> c[k] in u || c[k] == '.';
    }
    QueryCutNone(c);
  }

  /** A URL that is already short and has no query is its own label. */
  lemma CleanUrlShort(url: string)
    requires NoChar(url, '?') && |url| <= 40
    ensures CleanUrl(url) == url
  {
    QueryCutNone(url);
  }

  /** Each (url, visits) row with the URL's label in place of the URL. */
  function Labelled(t: seq<(string, int)>): (b: seq<(string, int)>)
    ensures |b| == |t| && forall i :: 0 <= i < |t| ==> b[i] == (CleanUrl(t[i].0), t[i].1)
  {
    seq(|t|, i requires 0 <= i < |t| => (CleanUrl(t[i].0), t[i].1))
  }

  /** The chart's bars: nothing without records, otherwise the top pages with
      their labels. */
  function TopPagesChart(rows: seq<LogRecord>): Option<seq<(string, int)>>
  {
    var t := TopPages(rows);
    if t == [] then None else Some(Labelled(t))
  }

  /** The bars are the top pages in order, each labelled by its cleaned URL. */
  lemma TopPagesChartFacts(rows: seq<LogRecord>)
    ensures TopPagesChart(rows).None? <==> rows == []
    ensures TopPagesChart(rows).Some? ==> var b := TopPagesChart(rows).value; var t := TopPages(rows);
      |b| == |t| <= 5 && Descending(b)
      && forall i :: 0 <= i < |b| ==> b[i] == (CleanUrl(t[i].0), Count(Urls(rows), t[i].0))
  {
    var t := TopPages(rows);
    TopPagesFacts(rows, if rows != [] then Urls(rows)[0] else "");
    assert Descending(t) ==> Descending(Labelled(t));
  }
}
