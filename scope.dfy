/** The shared year selector: `filter_by_year` and the record filters the
    charts apply before counting. */
module Scope {
  import opened Strings
  import opened LogRecords

  /** All records, or the records of one calendar year. */
  datatype Scope = AllYears | InYear(year: int)

  /** `if year and year != 'all': queryset.filter(timestamp__year=int(year))`:
      no year, an empty one or `'all'` keeps everything, anything else must be
      an integer (None when `int()` would raise). */
  function ScopeOf(year: Option<string>): (s: Option<Scope>)
    ensures year.None? || year == Some("") || year == Some("all") ==> s == Some(AllYears)
    ensures s == Some(AllYears) ==> year.None? || year == Some("") || year == Some("all")
  {
    if year.None? || year.value == "" || year.value == "all" then Some(AllYears)
    else match ParseInt(year.value)
      case None => None
      case Some(y) => Some(InYear(y))
  }

  /** A year written out as the year selector writes it selects that year. */
  lemma ScopeOfYear(y: int)
    ensures ScopeOf(Some(IntToStr(y))) == Some(InYear(y))
  {
    ParseIntToStr(y);
    assert IntToStr(y) != "all" by {
      if y < 0 { assert IntToStr(y)[1..] == Dec(-y); } else { assert IsDigit(IntToStr(y)[0]); }
    }
  }

  predicate InScope(s: Scope, r: LogRecord)
  {
    s.AllYears? || Year(r) == s.year
  }

  /** The records kept by a predicate, in their order. */
  function Filter(rows: seq<LogRecord>, keep: LogRecord -> bool): (out: seq<LogRecord>)
    ensures |out| <= |rows|
    ensures forall r :: r in out <==> r in rows && keep(r)
  {
    if rows == [] then [] else
      var out' := Filter(rows[..|rows| - 1], keep);
      var last := rows[|rows| - 1];
      assert rows == rows[..|rows| - 1] + [last];
      out' + (if keep(last) then [last] else [])
  }

  /** Records kept by a filter are followed in order by the records of the
      next batch kept by it. */
  lemma {:induction false} FilterAppend(a: seq<LogRecord>, b: seq<LogRecord>, keep: LogRecord -> bool)
    ensures Filter(a + b, keep) == Filter(a, keep) + Filter(b, keep)
    decreases |b|
  {
    if b == [] {
      assert a + b == a;
    } else {
      assert (a + b)[..|a + b| - 1] == a + b[..|b| - 1];
      FilterAppend(a, b[..|b| - 1], keep);
    }
  }

  /** A filter keeps every record exactly when the predicate holds of each. */
  lemma {:induction false} FilterAll(rows: seq<LogRecord>, keep: LogRecord -> bool)
    ensures |Filter(rows, keep)| == |rows| <==> forall i :: 0 <= i < |rows| ==> keep(rows[i])
    decreases |rows|
  {
    if rows != [] {
      var rows' := rows[..|rows| - 1];
      FilterAll(rows', keep);
      if forall i :: 0 <= i < |rows| ==> keep(rows[i]) {
        assert forall i :: 0 <= i < |rows'| ==> keep(rows'[i]) by {
          forall i | 0 <= i < |rows'| ensures keep(rows'[i]) { assert rows'[i] == rows[i]; }
        }
      }
      if |Filter(rows, keep)| == |rows| {
        forall i | 0 <= i < |rows| ensures keep(rows[i]) {
          if i < |rows'| { assert rows'[i] == rows[i]; }
        }
      }
    }
  }

  /** `filter_by_year(rows, year)` for a selector that parsed. */
  function InYearScope(rows: seq<LogRecord>, s: Scope): (out: seq<LogRecord>)
    ensures s.AllYears? ==> out == rows
    ensures forall r :: r in out <==> r in rows && InScope(s, r)
  {
    if s.AllYears? then rows else Filter(rows, r => InScope(s, r))
  }

  /** The POST records of a scope (`filter(request_method="POST")` followed by
      the year filter). */
  function PostsIn(rows: seq<LogRecord>, s: Scope): (out: seq<LogRecord>)
    ensures forall r :: r in out <==> r in rows && IsPost(r) && InScope(s, r)
    ensures |out| <= |InYearScope(rows, s)|
  {
    FilterTwice(rows, s);
    Filter(rows, r => IsPost(r) && InScope(s, r))
  }

  /** Keeping the POST records of a scope is keeping the POST records of the
      scope's records. */
  lemma FilterTwice(rows: seq<LogRecord>, s: Scope)
    ensures Filter(rows, r => IsPost(r) && InScope(s, r)) == Filter(InYearScope(rows, s), IsPost)
  {
    if s.AllYears? {
      FilterSame(rows, r => IsPost(r) && InScope(s, r), IsPost);
    } else {
      FilterFilter(rows, r => InScope(s, r), IsPost, r => IsPost(r) && InScope(s, r));
    }
  }

  /** The POST records of a scope are the POST records among the scope's
      records. */
  lemma PostsInFilter(rows: seq<LogRecord>, s: Scope)
    ensures PostsIn(rows, s) == Filter(InYearScope(rows, s), IsPost)
  {
    FilterTwice(rows, s);
  }

  lemma {:induction false} FilterSame(rows: seq<LogRecord>, f: LogRecord -> bool, g: LogRecord -> bool)
    requires forall r :: f(r) == g(r)
    ensures Filter(rows, f) == Filter(rows, g)
    decreases |rows|
  {
    if rows != [] {
      FilterSame(rows[..|rows| - 1], f, g);
    }
  }

  lemma {:induction false} FilterFilter(rows: seq<LogRecord>, f: LogRecord -> bool, g: LogRecord -> bool, h: LogRecord -> bool)
    requires forall r :: h(r) == (f(r) && g(r))
    ensures Filter(rows, h) == Filter(Filter(rows, f), g)
    decreases |rows|
  {
    if rows != [] {
      var rows' := rows[..|rows| - 1];
      var last := rows[|rows| - 1];
      FilterFilter(rows', f, g, h);
      FilterAppend(Filter(rows', f), if f(last) then [last] else [], g);
      assert Filter([last], g) == Filter([last][..0], g) + (if g(last) then [last] else []);
    }
  }
}
