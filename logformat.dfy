/** The access-log line grammar `LOG_PATTERN` (the combined log format), as a
    hand-written parser that takes each field up to the first delimiter that can
    end it, the way the pattern's lazy groups first try. */
module LogFormat {
  import opened Strings

  /** The named groups of one match; `query` is None when the optional
      `?query` group did not take part. Status and size are still digit text. */
  datatype Match = Match(
    ip: string,
    timestamp: string,
    requestMethod: string,
    url: string,
    query: Option<string>,
    httpVersion: string,
    status: string,
    size: string,
    referrer: string,
    userAgent: string)

  /** `[\d\.]` */
  predicate IsIpChar(c: char) { IsDigit(c) || c == '.' }

  predicate IpText(s: string) { |s| >= 1 && forall i :: 0 <= i < |s| ==> IsIpChar(s[i]) }

  /** `\w+` */
  predicate WordText(s: string) { |s| >= 1 && forall i :: 0 <= i < |s| ==> IsWordChar(s[i]) }

  /** `\d+` */
  predicate Digits(s: string) { |s| >= 1 && AllDigits(s) }

  /** `HTTP\/\d\.\d` */
  predicate IsVersion(v: string)
  {
    |v| == 8 && v[..5] == "HTTP/" && IsDigit(v[5]) && v[6] == '.' && IsDigit(v[7])
  }

  /** `.` matches every character except a newline. */
  predicate OneLine(s: string) { NoChar(s, '\n') }

  // ---------------------------------------------------------------------------
  // Scanning

  predicate At(s: string, i: nat, pat: string)
  {
    i + |pat| <= |s| && s[i..i + |pat|] == pat
  }

  /** The first position from j on where pat occurs, or |s| when none does. */
  function FindFrom(s: string, pat: string, j: nat): (i: nat)
    requires |pat| >= 1 && j <= |s|
    ensures j <= i <= |s|
    ensures i < |s| ==> At(s, i, pat)
    ensures forall k :: j <= k < i ==> !At(s, k, pat)
    decreases |s| - j
  {
    if j == |s| then |s| else if At(s, j, pat) then j else FindFrom(s, pat, j + 1)
  }

  function Find(s: string, pat: string): (i: nat)
    requires |pat| >= 1
    ensures i <= |s|
    ensures i < |s| ==> At(s, i, pat)
    ensures forall k :: 0 <= k < i ==> !At(s, k, pat)
  {
    FindFrom(s, pat, 0)
  }

  /** The characters of d before position q are not `"`. */
  predicate QuoteFreeBefore(d: string, q: nat)
  {
    q < |d| && forall i :: 0 <= i < q ==> d[i] != '"'
  }

  /** In a + d + b with a free of `"`, the character q places after any position
      inside a is not a `"` when d has none before position q. */
  lemma NoEarlyQuote(a: string, d: string, b: string, q: nat, k: nat)
    requires QuoteFreeBefore(d, q) && NoChar(a, '"') && k < |a|
    ensures (a + d + b)[k + q] != '"'
  {
    var s := a + d + b;
    if k + q < |a| {
      assert s[k + q] == a[k + q];
    } else {
      assert s[k + q] == d[k + q - |a|];
    }
  }

  lemma AtChar(s: string, k: nat, pat: string, q: nat)
    requires q < |pat|
    ensures At(s, k, pat) ==> s[k + q] == pat[q]
  {
    if At(s, k, pat) {
      assert s[k + q] == s[k..k + |pat|][q];
    }
  }

  /** A delimiter whose first `"` is at position q cannot begin inside a prefix
      free of `"`: the first occurrence is where the prefix ends. */
  lemma FindAfter(a: string, pat: string, b: string, q: nat)
    requires QuoteFreeBefore(pat, q) && pat[q] == '"' && NoChar(a, '"')
    ensures Find(a + pat + b, pat) == |a|
  {
    var s := a + pat + b;
    assert s[|a|..|a| + |pat|] == pat;
    assert At(s, |a|, pat);
    forall k | 0 <= k < |a|
      ensures !At(s, k, pat)
    {
      NoEarlyQuote(a, pat, b, q, k);
      AtChar(s, k, pat, q);
    }
  }

  /** `" HTTP/d.d"` at position i: the text between the url (or query) and the
      status. */
  predicate VersionAt(s: string, i: nat)
  {
    i + 10 <= |s| && s[i] == ' ' && IsVersion(s[i + 1..i + 9]) && s[i + 9] == '"'
  }

  function FindVersionFrom(s: string, j: nat): (i: nat)
    requires j <= |s|
    ensures j <= i <= |s|
    ensures i < |s| ==> VersionAt(s, i)
    ensures forall k :: j <= k < i ==> !VersionAt(s, k)
    decreases |s| - j
  {
    if j == |s| then |s| else if VersionAt(s, j) then j else FindVersionFrom(s, j + 1)
  }

  function FindVersion(s: string): (i: nat)
    ensures i <= |s|
    ensures i < |s| ==> VersionAt(s, i)
    ensures forall k :: 0 <= k < i ==> !VersionAt(s, k)
  {
    FindVersionFrom(s, 0)
  }

  /** The marker that closes the request: `" HTTP/d.d"`. */
  function Marker(version: string): (d: string)
    ensures |d| == |version| + 2 && d[0] == ' ' && d[1..|d| - 1] == version && d[|d| - 1] == '"'
    ensures IsVersion(version) ==> QuoteFreeBefore(d, 9)
  {
    assert IsVersion(version) ==> forall i :: 0 <= i < 5 ==> version[i] == version[..5][i];
    " " + version + "\""
  }

  lemma FindVersionAfter(a: string, version: string, b: string)
    requires IsVersion(version) && NoChar(a, '"')
    ensures FindVersion(a + Marker(version) + b) == |a|
  {
    var d := Marker(version);
    var s := a + d + b;
    assert s[|a|..|a| + 10] == d;
    assert s[|a| + 1..|a| + 9] == d[1..9];
    assert VersionAt(s, |a|);
    forall k | 0 <= k < |a|
      ensures !VersionAt(s, k)
    {
      NoEarlyQuote(a, d, b, 9, k);
    }
  }

  // ---------------------------------------------------------------------------
  // The stages of the pattern

  /** A non-empty run of characters satisfying p, then the delimiter d. Since
      d does not begin with such a character, the run is the longest one. */
  function RunThen(s: string, p: char -> bool, d: string): (r: Option<(string, string)>)
    ensures r.Some? ==> |r.value.0| >= 1 && (forall i :: 0 <= i < |r.value.0| ==> p(r.value.0[i]))
    ensures r.Some? ==> s == r.value.0 + d + r.value.1
  {
    var n := Run(s, p);
    if n == 0 || !StartsWith(s[n..], d) then None
    else
      assert s == s[..n] + d + s[n + |d|..] by { assert s[n..][..|d|] == s[n..n + |d|]; }
      Some((s[..n], s[n + |d|..]))
  }

  lemma RunThenOf(w: string, d: string, rest: string, p: char -> bool)
    requires |w| >= 1 && forall i :: 0 <= i < |w| ==> p(w[i])
    requires |d| >= 1 && !p(d[0])
    ensures RunThen(w + d + rest, p, d) == Some((w, rest))
  {
    RunOf(w, d, rest, p);
    var s := w + d + rest;
    assert s[..|w|] == w && s[|w|..][..|d|] == d && s[|w| + |d|..] == rest;
  }

  /** `(?P<f>.*?)` followed by the delimiter pat: the field runs to the first
      occurrence of pat and may not cross a line end. */
  function Delimited(s: string, pat: string): (r: Option<(string, string)>)
    requires |pat| >= 1
    ensures r.Some? ==> OneLine(r.value.0) && s == r.value.0 + pat + r.value.1
    ensures r.Some? ==> forall k :: 0 <= k < |r.value.0| ==> !At(s, k, pat)
  {
    var i := Find(s, pat);
    if i == |s| || !OneLine(s[..i]) then None
    else
      assert s == s[..i] + pat + s[i + |pat|..] by { assert s[i..i + |pat|] == pat; }
      Some((s[..i], s[i + |pat|..]))
  }

  lemma DelimitedOf(f: string, pat: string, rest: string, q: nat)
    requires QuoteFreeBefore(pat, q) && pat[q] == '"'
    requires NoChar(f, '"') && OneLine(f)
    ensures Delimited(f + pat + rest, pat) == Some((f, rest))
  {
    FindAfter(f, pat, rest, q);
    var s := f + pat + rest;
    assert s[..|f|] == f && s[|f| + |pat|..] == rest;
  }

  /** The text `?query` contributes to a line. */
  function QueryText(q: Option<string>): string
  {
    match q
    case None => ""
    case Some(x) => "?" + x
  }

  /** `(?P<url>.*?)(?:\?(?P<query>.*?))?` once its end is known: the url stops at
      the first `?`, if there is one, and the rest is the query. */
  function SplitQuery(x: string): (r: (string, Option<string>))
    ensures NoChar(r.0, '?') && r.0 + QueryText(r.1) == x
  {
    var p := IndexOf(x, '?');
    if p < |x| then
      assert x == x[..p] + "?" + x[p + 1..] by { assert x[p..p + 1] == "?"; }
      (x[..p], Some(x[p + 1..]))
    else
      assert x[..p] == x;
      (x, None)
  }

  lemma SplitQueryOf(url: string, query: Option<string>)
    requires NoChar(url, '?')
    ensures SplitQuery(url + QueryText(query)) == (url, query)
  {
    match query
    case None =>
      assert url + QueryText(query) == url;
      IndexOfAbsent(url, '?');
    case Some(x) =>
      var s := url + QueryText(query);
      assert s == url + ['?'] + x;
      IndexOfPrefix(url, '?', x);
      assert s[..|url|] == url && s[|url| + 1..] == x;
  }

  /** The request target and the version: both lazy groups stop at the first
      version marker, which the target may not reach across a line end. */
  function ParseTarget(s: string): (r: Option<(string, string, string)>)
    ensures r.Some? ==> OneLine(r.value.0) && IsVersion(r.value.1)
    ensures r.Some? ==> s == r.value.0 + Marker(r.value.1) + r.value.2
  {
    var v := FindVersion(s);
    if v == |s| || !OneLine(s[..v]) then None
    else
      assert s == s[..v] + Marker(s[v + 1..v + 9]) + s[v + 10..] by {
        assert s[v..v + 10] == Marker(s[v + 1..v + 9]);
      }
      Some((s[..v], s[v + 1..v + 9], s[v + 10..]))
  }

  lemma ParseTargetOf(target: string, version: string, rest: string)
    requires IsVersion(version) && OneLine(target) && NoChar(target, '"')
    ensures ParseTarget(target + Marker(version) + rest) == Some((target, version, rest))
  {
    FindVersionAfter(target, version, rest);
    var s := target + Marker(version) + rest;
    assert s[..|target|] == target && s[|target| + 1..|target| + 9] == version;
    assert s[|target| + 10..] == rest;
  }

  /** ` (?P<status>\d+) (?P<size>\d+) "` */
  function ParseNumbers(s: string): (r: Option<(string, string, string)>)
    ensures r.Some? ==> Digits(r.value.0) && Digits(r.value.1)
    ensures r.Some? ==> s == " " + r.value.0 + " " + (r.value.1 + " \"" + r.value.2)
  {
    if |s| == 0 || s[0] != ' ' then None
    else
      match RunThen(s[1..], IsDigit, " ")
      case None => None
      case Some((status, t)) =>
        match RunThen(t, IsDigit, " \"")
        case None => None
        case Some((size, rest)) =>
          assert s == " " + s[1..];
          assert s == " " + status + " " + t;
          Some((status, size, rest))
  }

  lemma ParseNumbersOf(status: string, size: string, rest: string)
    requires Digits(status) && Digits(size)
    ensures ParseNumbers(" " + status + " " + (size + " \"" + rest)) == Some((status, size, rest))
  {
    var t := size + " \"" + rest;
    var s := " " + status + " " + t;
    assert s[1..] == status + " " + t;
    RunThenOf(status, " ", t, IsDigit);
    RunThenOf(size, " \"", rest, IsDigit);
  }

  /** `(?P<referrer>.*?)" "(?P<user_agent>.*?)"`: the referrer runs to the first
      `" "` and the user agent to the next `"`. */
  function ParseAgents(s: string): (r: Option<(string, string, string)>)
    ensures r.Some? ==> OneLine(r.value.0) && OneLine(r.value.1) && NoChar(r.value.1, '"')
    ensures r.Some? ==> s == r.value.0 + "\" \"" + (r.value.1 + "\"" + r.value.2)
  {
    match Delimited(s, "\" \"")
    case None => None
    case Some((referrer, t)) =>
      match UpToQuote(t)
      case None => None
      case Some((userAgent, rest)) => Some((referrer, userAgent, rest))
  }

  /** `(?P<f>.*?)"`: the text up to the first `"`, on one line. */
  function UpToQuote(t: string): (r: Option<(string, string)>)
    ensures r.Some? ==> OneLine(r.value.0) && NoChar(r.value.0, '"') && t == r.value.0 + "\"" + r.value.1
  {
    var j := IndexOf(t, '"');
    if j == |t| || !OneLine(t[..j]) then None
    else
      assert t == t[..j] + "\"" + t[j + 1..] by { assert t[j..j + 1] == "\""; }
      Some((t[..j], t[j + 1..]))
  }

  lemma ParseAgentsOf(referrer: string, userAgent: string, rest: string)
    requires OneLine(referrer) && NoChar(referrer, '"')
    requires OneLine(userAgent) && NoChar(userAgent, '"')
    ensures ParseAgents(referrer + "\" \"" + (userAgent + "\"" + rest)) == Some((referrer, userAgent, rest))
  {
    var t := userAgent + "\"" + rest;
    DelimitedOf(referrer, "\" \"", t, 0);
    assert t == userAgent + ['"'] + rest;
    IndexOfPrefix(userAgent, '"', rest);
    assert t[..|userAgent|] == userAgent && t[|userAgent| + 1..] == rest;
  }

  /** The pattern matched at the start of a line (`re.match`); whatever follows
      the closing quote of the user agent is ignored. */
  function Parse(line: string): Option<Match>
  {
    match RunThen(line, IsIpChar, " - - [")
    case None => None
    case Some((ip, s1)) =>
      match Delimited(s1, "] \"")
      case None => None
      case Some((timestamp, s2)) =>
        match RunThen(s2, IsWordChar, " ")
        case None => None
        case Some((requestMethod, s3)) =>
          match ParseTarget(s3)
          case None => None
          case Some((target, version, s4)) =>
            match ParseNumbers(s4)
            case None => None
            case Some((status, size, s5)) =>
              match ParseAgents(s5)
              case None => None
              case Some((referrer, userAgent, _)) =>
                var (url, query) := SplitQuery(target);
                Some(Match(ip, timestamp, requestMethod, url, query, version, status, size, referrer, userAgent))
  }

  // ---------------------------------------------------------------------------
  // Rendering and the round trip

  /** The text of a match followed by tail, built from the last field back. */
  function Line(m: Match, tail: string): string
  {
    m.ip + " - - [" + (m.timestamp + "] \"" + (m.requestMethod + " "
      + (m.url + QueryText(m.query) + Marker(m.httpVersion)
        + (" " + m.status + " " + (m.size + " \"" + (m.referrer + "\" \"" + (m.userAgent + "\"" + tail)))))))
  }

  /** The combined-log-format line a match reads:
      `ip - - [timestamp] "method url?query HTTP/d.d" status size "referrer" "agent"`. */
  function Render(m: Match): string
  {
    Line(m, "")
  }

  /** What every captured group satisfies. */
  predicate Grammar(m: Match)
  {
    IpText(m.ip) && OneLine(m.timestamp) && WordText(m.requestMethod)
    && NoChar(m.url, '?') && OneLine(m.url + QueryText(m.query)) && IsVersion(m.httpVersion)
    && Digits(m.status) && Digits(m.size) && OneLine(m.referrer) && OneLine(m.userAgent)
    && NoChar(m.userAgent, '"')
  }

  /** The matches a line can be written from and read back: the grammar, and no
      `"` inside the free-text fields. */
  predicate WellFormed(m: Match)
  {
    Grammar(m) && NoChar(m.timestamp, '"') && NoChar(m.url + QueryText(m.query), '"')
    && NoChar(m.referrer, '"')
  }

  lemma Assoc(a: string, b: string, c: string)
    ensures a + (b + c) == a + b + c
  {
  }

  /** What follows a rendered line can be written at its innermost end. */
  lemma LineRender(m: Match, tail: string)
    ensures Line(m, tail) == Render(m) + tail
  {
    var u := m.userAgent + "\"";
    assert u + "" == u;
    var p6 := m.referrer + "\" \"";
    var p5 := m.size + " \"";
    var p4 := " " + m.status + " ";
    var p3 := m.url + QueryText(m.query) + Marker(m.httpVersion);
    var p2 := m.requestMethod + " ";
    var p1 := m.timestamp + "] \"";
    var p0 := m.ip + " - - [";
    var x6 := p6 + u;
    var x5 := p5 + x6;
    var x4 := p4 + x5;
    var x3 := p3 + x4;
    var x2 := p2 + x3;
    var x1 := p1 + x2;
    assert Render(m) == p0 + x1;
    Assoc(p6, u, tail);
    Assoc(p5, x6, tail);
    Assoc(p4, x5, tail);
    Assoc(p3, x4, tail);
    Assoc(p2, x3, tail);
    Assoc(p1, x2, tail);
    Assoc(p0, x1, tail);
  }

  /** Writing a well-formed match as a line, followed by anything at all, and
      matching the pattern against it gives back the same match. */
  lemma ParseRender(m: Match, tail: string)
    requires WellFormed(m)
    ensures Parse(Render(m) + tail) == Some(m)
  {
    LineRender(m, tail);
    var target := m.url + QueryText(m.query);
    var s5 := m.referrer + "\" \"" + (m.userAgent + "\"" + tail);
    var s4 := " " + m.status + " " + (m.size + " \"" + s5);
    var s3 := target + Marker(m.httpVersion) + s4;
    var s2 := m.requestMethod + " " + s3;
    var s1 := m.timestamp + "] \"" + s2;
    RunThenOf(m.ip, " - - [", s1, IsIpChar);
    DelimitedOf(m.timestamp, "] \"", s2, 2);
    RunThenOf(m.requestMethod, " ", s3, IsWordChar);
    ParseTargetOf(target, m.httpVersion, s4);
    ParseNumbersOf(m.status, m.size, s5);
    ParseAgentsOf(m.referrer, m.userAgent, tail);
    SplitQueryOf(m.url, m.query);
  }

  /** Whatever the pattern matches satisfies the grammar and is exactly the
      rendering of the match, followed by the rest of the line. */
  lemma ParseSound(line: string)
    requires Parse(line).Some?
    ensures Grammar(Parse(line).value)
    ensures StartsWith(line, Render(Parse(line).value))
  {
    var m := Parse(line).value;
    var (ip, s1) := RunThen(line, IsIpChar, " - - [").value;
    var (timestamp, s2) := Delimited(s1, "] \"").value;
    var (requestMethod, s3) := RunThen(s2, IsWordChar, " ").value;
    var (target, version, s4) := ParseTarget(s3).value;
    var (status, size, s5) := ParseNumbers(s4).value;
    var (referrer, userAgent, tail) := ParseAgents(s5).value;
    assert line == Line(m, tail);
    LineRender(m, tail);
    assert line[..|Render(m)|] == Render(m);
  }
}
