/** The overview dashboard's year selector, `get_year_options`: "All Years"
    first, then every year that occurs among the records, ascending. */
module Overview {
  import opened Strings
  import opened LogRecords
  import opened Grouping
  import opened Scope

  /** One `{'label': ..., 'value': ...}` entry of the dropdown (the label is `name`). */
  datatype YearOption = YearOption(name: string, value: string)

  /** `ExtractYear('timestamp')` of every record, in record order. */
  function Years(rows: seq<LogRecord>): (ys: seq<int>)
    ensures |ys| == |rows| && forall i :: 0 <= i < |rows| ==> ys[i] == Year(rows[i])
  {
    seq(|rows|, i requires 0 <= i < |rows| => Year(rows[i]))
  }

  /** The entry of one year: `str(year)` as label and value. */
  function YearEntry(y: int): YearOption
  {
    YearOption(IntToStr(y), IntToStr(y))
  }

  function YearEntries(ys: seq<int>): (o: seq<YearOption>)
    ensures |o| == |ys| && forall i :: 0 <= i < |ys| ==> o[i] == YearEntry(ys[i])
  {
    seq(|ys|, i requires 0 <= i < |ys| => YearEntry(ys[i]))
  }

  /** `[{'label': 'All Years', 'value': 'all'}]` followed by one entry per
      distinct year, `sorted`. */
  function YearOptions(rows: seq<LogRecord>): seq<YearOption>
  {
    OptionsOf(SortedKeys(Years(rows)))
  }

  /** The options over a list of years. */
  function OptionsOf(ys: seq<int>): (o: seq<YearOption>)
    ensures |o| == |ys| + 1 && o[0] == YearOption("All Years", "all")
    ensures forall i :: 1 <= i < |o| ==> o[i] == YearEntry(ys[i - 1])
  {
    [YearOption("All Years", "all")] + YearEntries(ys)
  }

  /** Written-out years differ when the years do. */
  lemma IntToStrInjective(a: int, b: int)
    requires IntToStr(a) == IntToStr(b)
    ensures a == b
  {
    ParseIntToStr(a);
    ParseIntToStr(b);
  }

  /** The scope an option selects (`filter_by_year` of its value). */
  function Selected(o: YearOption): Option<Scope>
  {
    ScopeOf(Some(o.value))
  }

  /** Each year's entry is labelled by its value and selects that year. */
  lemma EntriesSelect(ys: seq<int>)
    ensures var e := YearEntries(ys);
      forall i :: 0 <= i < |e| ==> e[i].name == e[i].value && Selected(e[i]) == Some(InYear(ys[i]))
  {
    forall i | 0 <= i < |ys| ensures Selected(YearEntries(ys)[i]) == Some(InYear(ys[i])) {
      ScopeOfYear(ys[i]);
    }
  }

  /** Entries of distinct years have distinct values, none of them `all`. */
  lemma EntriesDistinct(ys: seq<int>)
    requires NoDup(ys)
    ensures var e := YearEntries(ys);
      (forall i, j :: 0 <= i < j < |e| ==> e[i].value != e[j].value)
      && forall i :: 0 <= i < |e| ==> e[i].value != "all"
  {
    var e := YearEntries(ys);
    EntriesSelect(ys);
    forall i, j | 0 <= i < j < |e| ensures e[i].value != e[j].value {
      if e[i].value == e[j].value {
        IntToStrInjective(ys[i], ys[j]);
      }
    }
  }

  /** Over ascending years: the first option selects all records, every
      other one is labelled by its value and selects its own year, later
      than the year of the option before it, and no two values are equal. */
  lemma OptionsFacts(ys: seq<int>)
    requires Increasing(ys)
    ensures var o := OptionsOf(ys);
      Selected(o[0]) == Some(AllYears)
      && (forall i :: 1 <= i < |o| ==> o[i].name == o[i].value && Selected(o[i]) == Some(InYear(ys[i - 1])))
      && (forall i, j :: 1 <= i < j < |o| ==> Selected(o[i]).value.year < Selected(o[j]).value.year)
      && forall i, j :: 0 <= i < j < |o| ==> o[i].value != o[j].value
  {
    var o := OptionsOf(ys);
    var e := YearEntries(ys);
    EntriesSelect(ys);
    IncreasingNoDup(ys);
    EntriesDistinct(ys);
    assert forall i :: 1 <= i < |o| ==> o[i] == e[i - 1];
  }

  /** The first option selects all records; every other option is labelled
      by its value and selects the year of some record, later than the year
      of the option before it; every record's year has an option, and no two
      options have the same value. */
  lemma YearOptionsFacts(rows: seq<LogRecord>)
    ensures var o := YearOptions(rows);
      |o| >= 1 && o[0] == YearOption("All Years", "all") && Selected(o[0]) == Some(AllYears)
      && forall i :: 1 <= i < |o| ==>
           o[i].name == o[i].value && Selected(o[i]).Some? && Selected(o[i]).value.InYear?
           && Selected(o[i]).value.year in Years(rows)
    ensures var o := YearOptions(rows);
      forall i, j :: 1 <= i < j < |o| ==> Selected(o[i]).value.year < Selected(o[j]).value.year
    ensures var o := YearOptions(rows);
      (forall r :: r in rows ==> YearEntry(Year(r)) in o)
      && forall i, j :: 0 <= i < j < |o| ==> o[i].value != o[j].value
  {
    var ys := SortedKeys(Years(rows));
    var o := YearOptions(rows);
    OptionsFacts(ys);
    forall r | r in rows ensures YearEntry(Year(r)) in o {
      var k :| 0 <= k < |rows| && rows[k] == r;
      assert Years(rows)[k] == Year(r);
      assert Year(r) in ys;
      var m :| 0 <= m < |ys| && ys[m] == Year(r);
      assert o[m + 1] == YearEntry(Year(r));
    }
  }
}
