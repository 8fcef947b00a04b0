/** Traffic-source classification of the referrer column: the seven-way policy
    of the sales charts and the three-way policy of the referrer pie. */
module Referrers {
  import opened Strings

  datatype Source = Google | LinkedIn | Twitter | Facebook | OtherSearch | OtherReferral | Direct

  /** The label a chart shows for a source. */
  function SourceName(s: Source): string
  {
    match s
    case Google => "Google"
    case LinkedIn => "LinkedIn"
    case Twitter => "Twitter"
    case Facebook => "Facebook"
    case OtherSearch => "Other Search"
    case OtherReferral => "Other Referral"
    case Direct => "Direct"
  }

  /** Different sources carry different labels. */
  lemma SourceNamesDiffer(a: Source, b: Source)
    requires a != b
    ensures SourceName(a) != SourceName(b)
  {
  }

  /** `not url or str(url).strip() == "-"`: no referrer, an empty one, or a dash
      with surrounding whitespace. */
  predicate NoReferrer(referrer: Option<string>)
  {
    referrer.None? || referrer.value == "" || Strip(referrer.value) == "-"
  }

  /** The seven-way `categorize_referrer`. The substring tests run on the
      lower-cased referrer in a fixed order, so the first domain named wins. */
  function Categorize(referrer: Option<string>): (s: Source)
    ensures s == Direct <==> NoReferrer(referrer)
    ensures !NoReferrer(referrer) ==> var u := Lower(referrer.value);
      (s == Google <==> Contains(u, "google.com"))
      && (s == LinkedIn <==> !Contains(u, "google.com") && Contains(u, "linkedin.com"))
      && (s == Twitter <==> !Contains(u, "google.com") && !Contains(u, "linkedin.com") && Contains(u, "twitter.com"))
      && (s == Facebook <==> !Contains(u, "google.com") && !Contains(u, "linkedin.com") && !Contains(u, "twitter.com") && Contains(u, "facebook.com"))
      && (s == OtherSearch <==> !Contains(u, "google.com") && !Contains(u, "linkedin.com") && !Contains(u, "twitter.com") && !Contains(u, "facebook.com") && (Contains(u, "bing.com") || Contains(u, "yahoo.com")))
      && (s == OtherReferral <==> !Contains(u, "google.com") && !Contains(u, "linkedin.com") && !Contains(u, "twitter.com") && !Contains(u, "facebook.com") && !Contains(u, "bing.com") && !Contains(u, "yahoo.com"))
  {
    if NoReferrer(referrer) then Direct else
      var u := Lower(referrer.value);
      if Contains(u, "google.com") then Google
      else if Contains(u, "linkedin.com") then LinkedIn
      else if Contains(u, "twitter.com") then Twitter
      else if Contains(u, "facebook.com") then Facebook
      else if Contains(u, "bing.com") || Contains(u, "yahoo.com") then OtherSearch
      else OtherReferral
  }

  /** The three-way `categorize_referrer` of the referrer pie: only the three
      named platforms, nothing for anything else. */
  function Platform(referrer: Option<string>): Option<Source>
  {
    if NoReferrer(referrer) then None else
      var u := Lower(referrer.value);
      if Contains(u, "google.com") then Some(Google)
      else if Contains(u, "linkedin.com") then Some(LinkedIn)
      else if Contains(u, "twitter.com") then Some(Twitter)
      else None
  }

  /** The pie's policy is the seven-way one with every source other than
      Google, LinkedIn and Twitter dropped. */
  lemma PlatformOfCategory(referrer: Option<string>)
    ensures Platform(referrer)
      == if Categorize(referrer) in {Google, LinkedIn, Twitter} then Some(Categorize(referrer)) else None
  {
  }

  /** A dash left after stripping is surrounded by whitespace only. */
  lemma StripDash(s: string, k: nat)
    requires Strip(s) == "-" && k < |s|
    ensures IsSpace(s[k]) || s[k] == '-'
  {
    var l := StripLeft(s);
    var r := StripRight(l);
    var d := |s| - |l|;
    assert r == "-";
    if k < d {
      assert IsSpace(s[k]);
    } else if k - d >= |r| {
      assert s[k] == l[k - d];
      assert IsSpace(l[k - d]);
    } else {
      assert s[k] == l[k - d];
      assert l[k - d] == r[k - d] == '-';
    }
  }

  /** A referrer naming Google is counted as Google, whatever else it names. */
  lemma GoogleFirst(before: string, after: string)
    ensures Categorize(Some(before + "google.com" + after)) == Google
  {
    var r := before + "google.com" + after;
    var u := Lower(r);
    var n := |before|;
    forall k | 0 <= k < 10 ensures u[n + k] == "google.com"[k] {
      assert r[n + k] == "google.com"[k];
    }
    assert u[n..n + 10] == "google.com";
    ContainsAt(u, "google.com", n);
    if Strip(r) == "-" {
      assert r[n] == 'g';
      StripDash(r, n);
    }
  }
}
