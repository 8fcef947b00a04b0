/** `upload_logs` and `extract_promo_code`: an uploaded access log read line by
    line into stored `ServerLog` records, with the two counters of the upload
    loop and the messages they lead to. */
module Ingest {
  import opened Strings
  import opened LogRecords
  import opened LogFormat
  import opened Timestamps

  // ---------------------------------------------------------------------------
  // Promo codes

  const PromoKey: string := "promo_code="

  /** `param.split('=')[1]` for a parameter that starts with `promo_code=`: the
      text after the first `=`, up to the next `=` or the end. */
  function PromoValue(param: string): (v: string)
    requires StartsWith(param, PromoKey)
    ensures StartsWith(param[|PromoKey|..], v) && NoChar(v, '=')
    ensures |PromoKey| + |v| == |param| || param[|PromoKey| + |v|] == '='
  {
    var rest := param[|PromoKey|..];
    assert param == "promo_code" + ['='] + rest by {
      assert param[..|PromoKey|] == PromoKey;
      assert param == param[..|PromoKey|] + rest;
    }
    IndexOfPrefix("promo_code", '=', rest);
    var parts := Split(param, '=');
    var s := "promo_code" + ['='] + rest;
    assert s[..10] == "promo_code" && s[11..] == rest;
    assert parts == ["promo_code"] + Split(rest, '=');
    var k := IndexOf(rest, '=');
    assert Split(rest, '=')[0] == rest[..k];
    parts[1]
  }

  /** The loop of `extract_promo_code` over the `&`-separated parameters: the
      value of the first parameter that starts with `promo_code=`. */
  function FirstPromo(params: seq<string>): (r: Option<string>)
    ensures r.None? <==> forall i :: 0 <= i < |params| ==> !StartsWith(params[i], PromoKey)
    ensures r.Some? ==> exists i :: 0 <= i < |params| && StartsWith(params[i], PromoKey)
                                && (forall j :: 0 <= j < i ==> !StartsWith(params[j], PromoKey))
                                && r.value == PromoValue(params[i])
  {
    if params == [] then None
    else if StartsWith(params[0], PromoKey) then Some(PromoValue(params[0]))
    else
      var r := FirstPromo(params[1..]);
      assert forall i :: 1 <= i < |params| ==> params[i] == params[1..][i - 1];
      if r.Some? then
        var i :| 0 <= i < |params[1..]| && StartsWith(params[1..][i], PromoKey)
          && (forall j :: 0 <= j < i ==> !StartsWith(params[1..][j], PromoKey)) && r.value == PromoValue(params[1..][i]);
        assert params[i + 1] == params[1..][i];
        assert forall j :: 1 <= j < i + 1 ==> params[j] == params[1..][j - 1];
        r
      else
        r
  }

  /** `extract_promo_code(query_string)`: None for an absent or empty query. */
  function PromoCode(query: Option<string>): (r: Option<string>)
    ensures query.None? || query == Some("") ==> r.None?
  {
    if query.None? || query.value == "" then None else FirstPromo(Split(query.value, '&'))
  }

  /** The search loop of `extract_promo_code`, with its early return. */
  method ExtractPromoCode(query: Option<string>) returns (r: Option<string>)
    ensures r == PromoCode(query)
  {
    if query.None? || query.value == "" {
      return None;
    }
    var params := Split(query.value, '&');
    var i := 0;
    while i < |params|
      invariant 0 <= i <= |params|
      invariant FirstPromo(params) == FirstPromo(params[i..])
    {
      assert params[i..][1..] == params[i + 1..];
      if StartsWith(params[i], PromoKey) {
        return Some(PromoValue(params[i]));
      }
      i := i + 1;
    }
    return None;
  }

  lemma NoCharPromoKey()
    ensures NoChar(PromoKey, '&') && NoChar(PromoKey[..10], '=') && PromoKey[10] == '='
  {
  }

  /** The promo value of `promo_code=<v>` is v when v holds no `=`. */
  lemma PromoValueOf(v: string)
    requires NoChar(v, '=')
    ensures PromoValue(PromoKey + v) == v
  {
    var p := PromoKey + v;
    assert p[..|PromoKey|] == PromoKey && p[|PromoKey|..] == v;
    var w := PromoValue(p);
    assert StartsWith(v, w) && NoChar(w, '=');
  }

  /** The first parameter that starts with `promo_code=` is the one chosen. */
  lemma {:induction false} FirstPromoOf(before: seq<string>, p: string, after: seq<string>)
    requires forall i :: 0 <= i < |before| ==> !StartsWith(before[i], PromoKey)
    requires StartsWith(p, PromoKey)
    ensures FirstPromo(before + [p] + after) == Some(PromoValue(p))
    decreases |before|
  {
    var params := before + [p] + after;
    if before == [] {
      assert params[0] == p;
    } else {
      assert params[0] == before[0];
      assert params[1..] == before[1..] + [p] + after;
      FirstPromoOf(before[1..], p, after);
    }
  }

  lemma {:induction false} JoinLength(parts: seq<string>, c: char, k: nat)
    requires k < |parts|
    ensures |Join(parts, c)| >= |parts[k]|
    decreases |parts|
  {
    if |parts| > 1 && k > 0 {
      JoinLength(parts[1..], c, k - 1);
    }
  }

  lemma AmpFree(before: seq<string>, p: string, after: seq<string>)
    requires forall i :: 0 <= i < |before| ==> NoChar(before[i], '&')
    requires forall i :: 0 <= i < |after| ==> NoChar(after[i], '&')
    requires NoChar(p, '&')
    ensures var params := before + [p] + after;
      |before| < |params| && params[|before|] == p && forall k :: 0 <= k < |params| ==> NoChar(params[k], '&')
  {
    var params := before + [p] + after;
    forall k | 0 <= k < |params| ensures NoChar(params[k], '&') {
      if k < |before| { assert params[k] == before[k]; }
      else if k > |before| { assert params[k] == after[k - |before| - 1]; }
    }
  }

  /** A non-empty query is read by splitting it at `&`. */
  lemma PromoCodeOfParams(params: seq<string>, k: nat)
    requires k < |params| && |params[k]| > 0
    requires forall i :: 0 <= i < |params| ==> NoChar(params[i], '&')
    ensures PromoCode(Some(Join(params, '&'))) == FirstPromo(params)
  {
    SplitJoin(params, '&');
    JoinLength(params, '&', k);
  }

  /** A query written as parameters without `&`, whose first `promo_code=`
      parameter carries a value without `=`, gives that value back. */
  lemma PromoCodeOfQuery(before: seq<string>, v: string, after: seq<string>)
    requires forall i :: 0 <= i < |before| ==> NoChar(before[i], '&') && !StartsWith(before[i], PromoKey)
    requires forall i :: 0 <= i < |after| ==> NoChar(after[i], '&')
    requires NoChar(v, '&') && NoChar(v, '=')
    ensures PromoCode(Some(Join(before + [PromoKey + v] + after, '&'))) == Some(v)
  {
    var p := PromoKey + v;
    NoCharPromoKey();
    assert NoChar(p, '&') && StartsWith(p, PromoKey);
    AmpFree(before, p, after);
    PromoCodeOfParams(before + [p] + after, |before|);
    FirstPromoOf(before, p, after);
    PromoValueOf(v);
  }

  /** A `promo_code=` parameter with anything in front of it is not a promo
      code (`xpromo_code=A` gives None). */
  lemma PromoCodeNeedsPrefix(x: char, value: string)
    requires x != 'p' && x != '&' && NoChar(value, '&')
    ensures PromoCode(Some([x] + PromoKey + value)) == None
  {
    var q := [x] + PromoKey + value;
    NoCharPromoKey();
    assert NoChar(q, '&');
    IndexOfAbsent(q, '&');
    assert Split(q, '&') == [q];
    assert q[0] != PromoKey[0];
  }

  // ---------------------------------------------------------------------------
  // One line

  /** `data["referrer"] if data["referrer"] != "-" else None` */
  function ReferrerOf(text: string): (r: Option<string>)
    ensures r.None? <==> text == "-"
    ensures r.Some? ==> r.value == text
  {
    if text == "-" then None else Some(text)
  }

  /** The record `ServerLog.objects.create(...)` is given for a match whose
      timestamp parsed. */
  function RecordOf(m: Match, t: Timestamp): LogRecord
    requires Grammar(m)
  {
    LogRecord(m.ip, t, m.requestMethod, m.url, m.httpVersion, DecValue(m.status), DecValue(m.size),
              ReferrerOf(m.referrer), m.userAgent, PromoCode(m.query))
  }

  /** What the loop body does with one line: nothing for a line the pattern does
      not match, a counted error for one whose timestamp does not parse, and a
      stored record otherwise. */
  datatype LineOutcome = Skipped | Failed | Stored(record: LogRecord)

  function IngestLine(line: string): (o: LineOutcome)
    ensures o.Skipped? <==> Parse(line).None?
    ensures o.Failed? <==> Parse(line).Some? && ParseTimestamp(Parse(line).value.timestamp).None?
    ensures o.Stored? ==>
              ValidTimestamp(o.record.timestamp) && IpText(o.record.ip) && WordText(o.record.requestMethod)
              && NoChar(o.record.url, '?') && IsVersion(o.record.httpVersion)
              && o.record.status >= 0 && o.record.size >= 0 && o.record.referrer != Some("-")
  {
    match Parse(line)
    case None => Skipped
    case Some(m) =>
      ParseSound(line);
      match ParseTimestamp(m.timestamp)
      case None => Failed
      case Some(t) => Stored(RecordOf(m, t))
  }

  /** A well-formed line with a timestamp that parses is stored as the record
      built from its fields, whatever follows it on the line. */
  lemma IngestRender(m: Match, t: Timestamp, tail: string)
    requires WellFormed(m) && ParseTimestamp(m.timestamp) == Some(t)
    ensures IngestLine(Render(m) + tail) == Stored(RecordOf(m, t))
  {
    ParseRender(m, tail);
  }

  // ---------------------------------------------------------------------------
  // The upload loop

  /** The outcome of every line, in line order. */
  function Outcomes(lines: seq<string>): (os: seq<LineOutcome>)
    ensures |os| == |lines|
  {
    if lines == [] then [] else Outcomes(lines[..|lines| - 1]) + [IngestLine(lines[|lines| - 1])]
  }

  lemma {:induction false} OutcomesIndex(lines: seq<string>, i: nat)
    requires i < |lines|
    ensures Outcomes(lines)[i] == IngestLine(lines[i])
    decreases |lines|
  {
    if i < |lines| - 1 {
      OutcomesIndex(lines[..|lines| - 1], i);
    }
  }

  lemma OutcomesSnoc(lines: seq<string>, i: nat, os: seq<LineOutcome>, o: LineOutcome)
    requires i < |lines| && os == Outcomes(lines[..i]) && o == IngestLine(lines[i])
    ensures os + [o] == Outcomes(lines[..i + 1])
  {
    assert lines[..i + 1][..i] == lines[..i];
  }

  /** The records stored, in line order. */
  function StoredOf(os: seq<LineOutcome>): (rs: seq<LogRecord>)
    ensures |rs| <= |os|
  {
    if os == [] then [] else
      StoredOf(os[..|os| - 1]) + (if os[|os| - 1].Stored? then [os[|os| - 1].record] else [])
  }

  /** How many outcomes are counted errors (`error_count`). */
  function FailedOf(os: seq<LineOutcome>): nat
  {
    if os == [] then 0 else FailedOf(os[..|os| - 1]) + (if os[|os| - 1].Failed? then 1 else 0)
  }

  /** How many lines the pattern matches. */
  function MatchedCount(lines: seq<string>): (n: nat)
    ensures n <= |lines|
  {
    if lines == [] then 0 else
      MatchedCount(lines[..|lines| - 1]) + (if Parse(lines[|lines| - 1]).Some? then 1 else 0)
  }

  /** Every matching line is either stored or counted as an error, and a line
      that does not match contributes to neither. */
  lemma {:induction false} IngestCounts(lines: seq<string>)
    ensures |StoredOf(Outcomes(lines))| + FailedOf(Outcomes(lines)) == MatchedCount(lines)
    decreases |lines|
  {
    if lines != [] {
      IngestCounts(lines[..|lines| - 1]);
    }
  }

  /** Every record stored comes from an outcome that stored it. */
  lemma {:induction false} StoredOfSound(os: seq<LineOutcome>, k: nat)
    requires k < |StoredOf(os)|
    ensures exists i :: 0 <= i < |os| && os[i] == Stored(StoredOf(os)[k])
    decreases |os|
  {
    var front := os[..|os| - 1];
    if k < |StoredOf(front)| {
      StoredOfSound(front, k);
      var i :| 0 <= i < |front| && front[i] == Stored(StoredOf(front)[k]);
      assert os[i] == front[i];
    }
  }

  /** Every stored outcome contributes its record. */
  lemma {:induction false} StoredOfComplete(os: seq<LineOutcome>, i: nat)
    requires i < |os| && os[i].Stored?
    ensures os[i].record in StoredOf(os)
    decreases |os|
  {
    if i < |os| - 1 {
      var front := os[..|os| - 1];
      assert front[i] == os[i];
      StoredOfComplete(front, i);
    }
  }

  /** Every record an upload stores has a calendar date, which the charts
      that group by day, week or year rely on. */
  lemma StoredDated(lines: seq<string>)
    ensures Dated(StoredOf(Outcomes(lines)))
  {
    var os := Outcomes(lines);
    forall r | r in StoredOf(os) ensures ValidTimestamp(r.timestamp) {
      var k :| 0 <= k < |StoredOf(os)| && StoredOf(os)[k] == r;
      StoredOfSound(os, k);
      var i :| 0 <= i < |os| && os[i] == Stored(r);
      OutcomesIndex(lines, i);
      assert IngestLine(lines[i]) == Stored(r);
    }
  }

  lemma StoredOfSnoc(os: seq<LineOutcome>, o: LineOutcome)
    ensures StoredOf(os + [o]) == StoredOf(os) + (if o.Stored? then [o.record] else [])
    ensures FailedOf(os + [o]) == FailedOf(os) + (if o.Failed? then 1 else 0)
  {
    assert (os + [o])[..|os|] == os;
  }

  /** The body of the `for line in f` loop for one line. */
  method IngestOne(line: string) returns (o: LineOutcome)
    ensures o == IngestLine(line)
  {
    match Parse(line)
    case None =>
      o := Skipped;
    case Some(m) =>
      ParseSound(line);
      match ParseTimestamp(m.timestamp)
      case None =>
        o := Failed;
      case Some(t) =>
        var promo := ExtractPromoCode(m.query);
        o := Stored(LogRecord(m.ip, t, m.requestMethod, m.url, m.httpVersion, DecValue(m.status),
                              DecValue(m.size), ReferrerOf(m.referrer), m.userAgent, promo));
  }

  lemma ConcatAssoc<T>(a: seq<T>, b: seq<T>, c: seq<T>)
    ensures a + (b + c) == a + b + c
  {
  }

  /** The `ServerLog` table, in insertion order. */
  class ServerLogTable {
    var rows: seq<LogRecord>

    constructor ()
      ensures rows == []
    {
      rows := [];
    }

    /** The `for line in f` loop: one record stored per line that matches and
        whose timestamp parses; the two counters returned. */
    method UploadLines(lines: seq<string>) returns (logCount: nat, errorCount: nat)
      modifies this
      ensures rows == old(rows) + StoredOf(Outcomes(lines))
      ensures logCount == |StoredOf(Outcomes(lines))| && errorCount == FailedOf(Outcomes(lines))
      ensures logCount + errorCount == MatchedCount(lines)
    {
      logCount, errorCount := 0, 0;
      ghost var os: seq<LineOutcome> := [];
      var i := 0;
      while i < |lines|
        invariant 0 <= i <= |lines|
        invariant os == Outcomes(lines[..i])
        invariant rows == old(rows) + StoredOf(os)
        invariant logCount == |StoredOf(os)| && errorCount == FailedOf(os)
      {
        var o := IngestOne(lines[i]);
        OutcomesSnoc(lines, i, os, o);
        StoredOfSnoc(os, o);
        ConcatAssoc(old(rows), StoredOf(os), if o.Stored? then [o.record] else []);
        Keep(o);
        if o.Failed? {
          errorCount := errorCount + 1;
        } else if o.Stored? {
          logCount := logCount + 1;
        }
        os := os + [o];
        i := i + 1;
      }
      assert lines[..i] == lines;
      IngestCounts(lines);
    }

    /** `ServerLog.objects.create(...)` for a stored line; nothing otherwise. */
    method Keep(o: LineOutcome)
      modifies this
      ensures rows == old(rows) + (if o.Stored? then [o.record] else [])
    {
      if o.Stored? {
        rows := rows + [o.record];
      }
    }

    /** `upload_logs`: the request's file, if it is a `.txt` file, read line
        by line; the messages the view leaves for the dashboard returned. */
    method UploadLogs(isPost: bool, file: Option<UploadedFile>) returns (msgs: seq<Message>)
      modifies this
      ensures rows == old(rows) + UploadedRecords(isPost, file)
      ensures msgs == UploadMessages(isPost, file)
    {
      if !(isPost && file.Some? && file.value.name != "") {
        return [Error(NoFileText)];
      }
      if !EndsWith(file.value.name, ".txt") {
        return [Error(BadTypeText)];
      }
      var logCount, errorCount := UploadLines(file.value.lines);
      msgs := CountMessages(logCount, errorCount);
    }
  }

  // ---------------------------------------------------------------------------
  // The upload view's outcome

  /** An uploaded file: its name and the lines `for line in f` yields. An
      uploaded file with an empty name is falsy. */
  datatype UploadedFile = UploadedFile(name: string, lines: seq<string>)

  datatype Message = Error(text: string) | Success(text: string) | Warning(text: string)

  const NoFileText: string := "No file was uploaded."
  const BadTypeText: string := "Invalid file type. Please upload a .txt file."

  /** Whether the view reads the file at all. */
  predicate Accepted(isPost: bool, file: Option<UploadedFile>)
  {
    isPost && file.Some? && file.value.name != "" && EndsWith(file.value.name, ".txt")
  }

  function CountMessages(logCount: int, errorCount: int): seq<Message>
  {
    (if logCount > 0 then [Success("Successfully uploaded " + IntToStr(logCount) + " log entries.")] else [])
    + (if errorCount > 0 then [Warning(IntToStr(errorCount) + " log entries could not be processed.")] else [])
  }

  function UploadedRecords(isPost: bool, file: Option<UploadedFile>): (rs: seq<LogRecord>)
  {
    if Accepted(isPost, file) then StoredOf(Outcomes(file.value.lines)) else []
  }

  function UploadMessages(isPost: bool, file: Option<UploadedFile>): seq<Message>
  {
    if !(isPost && file.Some? && file.value.name != "") then [Error(NoFileText)]
    else if !EndsWith(file.value.name, ".txt") then [Error(BadTypeText)]
    else CountMessages(|StoredOf(Outcomes(file.value.lines))|, FailedOf(Outcomes(file.value.lines)))
  }

  /** A file whose name does not end in `.txt` is refused with one error before
      any line is read, and nothing is stored. */
  lemma RefuseNonText(file: UploadedFile)
    requires file.name != "" && !EndsWith(file.name, ".txt")
    ensures UploadMessages(true, Some(file)) == [Error(BadTypeText)]
    ensures UploadedRecords(true, Some(file)) == []
  {
  }

  /** The success message is there exactly when something was stored, the
      warning exactly when some matched line failed, the success message comes
      first, and neither is an error. */
  lemma CountMessagesFacts(n: nat, e: nat)
    ensures var msgs := CountMessages(n, e);
      (Success("Successfully uploaded " + IntToStr(n) + " log entries.") in msgs <==> n > 0)
      && (Warning(IntToStr(e) + " log entries could not be processed.") in msgs <==> e > 0)
      && |msgs| == (if n > 0 then 1 else 0) + (if e > 0 then 1 else 0)
      && (forall i :: 0 <= i < |msgs| ==> !msgs[i].Error?)
      && (n > 0 ==> msgs[0].Success?)
  {
  }

  /** An accepted file leads to the messages of its two counters, which add up
      to the number of lines the pattern matches. */
  lemma AcceptedMessages(isPost: bool, file: Option<UploadedFile>)
    requires Accepted(isPost, file)
    ensures var n := |UploadedRecords(isPost, file)|;
      var e := FailedOf(Outcomes(file.value.lines));
      UploadMessages(isPost, file) == CountMessages(n, e) && n + e == MatchedCount(file.value.lines)
  {
    IngestCounts(file.value.lines);
  }
}
