/** The `ServerLog` record: one stored access-log line. */
module LogRecords {
  import opened Strings
  import opened Calendar

  /** An aware datetime as `strptime` builds it: the wall-clock fields and the
      UTC offset, in microseconds east of UTC. */
  datatype Timestamp = Timestamp(date: Date, hour: int, minute: int, second: int, utcOffset: int)

  const DayMicros: int := 86_400_000_000

  /** The ranges `datetime` and `timezone` accept. */
  predicate ValidTimestamp(t: Timestamp)
  {
    ValidDate(t.date) && 0 <= t.hour < 24 && 0 <= t.minute < 60 && 0 <= t.second < 60
    && -DayMicros < t.utcOffset < DayMicros
  }

  /** A stored log line. `referrer` and `promoCode` are nullable columns, so an
      absent value (None) differs from every string, the empty one included;
      `status` and `size` are integer columns that are always present. */
  datatype LogRecord = LogRecord(
    ip: string,
    timestamp: Timestamp,
    requestMethod: string,
    url: string,
    httpVersion: string,
    status: int,
    size: int,
    referrer: Option<string>,
    userAgent: string,
    promoCode: Option<string>)

  /** Records whose timestamps carry a calendar date, as every stored
      `DateTimeField` value does. */
  predicate Dated(rows: seq<LogRecord>)
  {
    forall r :: r in rows ==> ValidDate(r.timestamp.date)
  }

  predicate IsPost(r: LogRecord) { r.requestMethod == "POST" }

  predicate IsGet(r: LogRecord) { r.requestMethod == "GET" }

  function Year(r: LogRecord): int { r.timestamp.date.year }

  function Hour(r: LogRecord): int { r.timestamp.hour }

  /** The calendar day of a record (`TruncDay('timestamp')`) as a grouping key. */
  function DayKey(r: LogRecord): int { DateKey(r.timestamp.date) }

  function DayKeys(rows: seq<LogRecord>): (s: seq<int>)
    ensures |s| == |rows| && forall i :: 0 <= i < |rows| ==> s[i] == DayKey(rows[i])
  {
    seq(|rows|, i requires 0 <= i < |rows| => DayKey(rows[i]))
  }

  /** `ServerLog.__str__`: `"<ip> - <method> <url> (<status>)"`. */
  function Describe(r: LogRecord): string
  {
    r.ip + " - " + r.requestMethod + " " + r.url + " (" + IntToStr(r.status) + ")"
  }

  /** Reads ip, method, url and status back out of a description: the ip runs to
      the first space, the method to the next, and the status sits between the
      last `(` and the closing `)`. */
  function ReadDescription(s: string): Option<(string, string, string, int)>
  {
    var i := IndexOf(s, ' ');
    if i + 3 > |s| || s[i..i + 3] != " - " then None else
      match ReadRequest(s[i + 3..])
      case None => None
      case Some((m, url, status)) => Some((s[..i], m, url, status))
  }

  /** `"<method> <url> (<status>)"`: the method runs to the first space. */
  function ReadRequest(rest: string): Option<(string, string, int)>
  {
    var j := IndexOf(rest, ' ');
    if j == |rest| then None else
      match ReadStatus(rest[j + 1..])
      case None => None
      case Some((url, status)) => Some((rest[..j], url, status))
  }

  /** `"<url> (<status>)"`: the status sits between the last `(` and a final `)`. */
  function ReadStatus(tail: string): Option<(string, int)>
  {
    var k := LastIndexOf(tail, '(');
    if k < 1 || tail[k - 1] != ' ' || tail[|tail| - 1] != ')' || k + 1 > |tail| - 1 then None else
      match ParseInt(tail[k + 1..|tail| - 1])
      case None => None
      case Some(status) => Some((tail[..k - 1], status))
  }

  lemma NoParenInIntToStr(i: int)
    ensures NoChar(IntToStr(i) + ")", '(')
  {
  }

  lemma WordThenSpace(w: string, sep: string, t: string)
    requires NoChar(w, ' ') && |sep| >= 1 && sep[0] == ' '
    ensures IndexOf(w + sep + t, ' ') == |w|
    ensures (w + sep + t)[..|w|] == w && (w + sep + t)[|w|..|w| + |sep|] == sep
    ensures (w + sep + t)[|w| + |sep|..] == t
  {
    assert w + sep + t == w + [' '] + (sep[1..] + t);
    IndexOfPrefix(w, ' ', sep[1..] + t);
  }

  lemma StatusAtEnd(url: string, st: string)
    requires NoChar(st + ")", '(')
    ensures var tail := url + " (" + st + ")";
      LastIndexOf(tail, '(') == |url| + 1 && tail[|url|] == ' ' && tail[|tail| - 1] == ')'
      && tail[|url| + 2..|tail| - 1] == st && tail[..|url|] == url
  {
    var tail := url + " (" + st + ")";
    assert tail == (url + " ") + ['('] + (st + ")");
    LastIndexOfSuffix(url + " ", '(', st + ")");
  }

  lemma ReadStatusOf(url: string, st: string, status: int)
    requires NoChar(st + ")", '(') && ParseInt(st) == Some(status)
    ensures ReadStatus(url + " (" + st + ")") == Some((url, status))
  {
    StatusAtEnd(url, st);
  }

  lemma ReadRequestOf(m: string, tail: string, url: string, status: int)
    requires NoChar(m, ' ') && ReadStatus(tail) == Some((url, status))
    ensures ReadRequest(m + " " + tail) == Some((m, url, status))
  {
    WordThenSpace(m, " ", tail);
  }

  lemma ReadDescriptionOf(ip: string, rest: string, m: string, url: string, status: int)
    requires NoChar(ip, ' ') && ReadRequest(rest) == Some((m, url, status))
    ensures ReadDescription(ip + " - " + rest) == Some((ip, m, url, status))
  {
    WordThenSpace(ip, " - ", rest);
  }

  /** A description gives back the ip, method, url and status it was made from,
      whenever ip and method hold no space (any url will do). */
  lemma ReadDescribe(r: LogRecord)
    requires NoChar(r.ip, ' ') && NoChar(r.requestMethod, ' ')
    ensures ReadDescription(Describe(r)) == Some((r.ip, r.requestMethod, r.url, r.status))
  {
    var st := IntToStr(r.status);
    var tail := r.url + " (" + st + ")";
    var rest := r.requestMethod + " " + tail;
    assert Describe(r) == r.ip + " - " + rest;
    NoParenInIntToStr(r.status);
    ParseIntToStr(r.status);
    ReadStatusOf(r.url, st, r.status);
    ReadRequestOf(r.requestMethod, tail, r.url, r.status);
    ReadDescriptionOf(r.ip, rest, r.requestMethod, r.url, r.status);
  }
}
