/** `datetime.strptime(text, "%d/%b/%Y:%H:%M:%S %z")`: each directive accepts
    the texts its pattern allows, the space in the format accepts any run of
    whitespace, the whole text must be used up, and the values must then make
    a valid aware datetime. */
module Timestamps {
  import opened Strings
  import opened Calendar
  import opened LogRecords

  const MonthLower: seq<string> := ["jan", "feb", "mar", "apr", "may", "jun",
                                    "jul", "aug", "sep", "oct", "nov", "dec"]

  const SecondMicros: int := 1_000_000
  const MinuteMicros: int := 60 * SecondMicros
  const HourMicros: int := 3600 * SecondMicros

  // ---------------------------------------------------------------------------
  // Directives

  lemma {:induction false} DecValueBound(s: string)
    requires AllDigits(s)
    ensures DecValue(s) < Pow10(|s|)
  {
    if s != [] {
      DecValueBound(s[..|s| - 1]);
    }
  }

  lemma DecValueTwo(s: string)
    requires |s| == 2 && AllDigits(s)
    ensures DecValue(s) == DigitValue(s[0]) * 10 + DigitValue(s[1])
  {
    assert s[..1][..0] == [];
    assert DecValue(s[..1]) == DigitValue(s[0]);
  }

  lemma FixedTwo(n: nat)
    requires n < 100
    ensures n < 60 ==> TwoDigits(Fixed(n, 2), '5')
    ensures TwoDigits(Fixed(n, 2), '9')
  {
    assert Fixed(n / 10, 1) == [DigitChar(n / 10)];
    assert Fixed(n, 2) == [DigitChar(n / 10), DigitChar(n % 10)];
  }

  /** A one- or two-digit field no larger than max: `%H` is `2[0-3]|[0-1]\d|\d`
      (max 23), `%M` is `[0-5]\d|\d` (59), `%S` is `6[0-1]|[0-5]\d|\d` (61). */
  function ReadSmall(s: string, max: int): (r: Option<int>)
    ensures r.Some? ==> 0 <= r.value <= max && r.value < 100
  {
    if (|s| == 1 || |s| == 2) && AllDigits(s) && DecValue(s) <= max then
      assert DecValue(s) < 100 by { DecValueBound(s); }
      Some(DecValue(s))
    else None
  }

  /** `%d`: `3[0-1]|[1-2]\d|0[1-9]|[1-9]| [1-9]`, that is 01 to 31, 1 to 9, or a
      space and 1 to 9. */
  function ReadDay(s: string): (r: Option<int>)
    ensures r.Some? ==> 1 <= r.value <= 31
  {
    if |s| == 2 && s[0] == ' ' then
      (if '1' <= s[1] <= '9' then Some(DigitValue(s[1])) else None)
    else match ReadSmall(s, 31)
      case Some(v) => if v >= 1 then Some(v) else None
      case None => None
  }

  /** `%Y`: exactly four digits. */
  function ReadYear(s: string): (r: Option<int>)
    ensures r.Some? ==> 0 <= r.value <= 9999
  {
    if |s| == 4 && AllDigits(s) then
      assert DecValue(s) < 10000 by { DecValueBound(s); }
      Some(DecValue(s))
    else None
  }

  function MonthFrom(s: string, k: nat): (r: Option<int>)
    requires k <= 12
    ensures r.Some? ==> k + 1 <= r.value <= 12 && s == MonthLower[r.value - 1]
    ensures r.None? ==> forall i :: k <= i < 12 ==> s != MonthLower[i]
    decreases 12 - k
  {
    if k == 12 then None else if s == MonthLower[k] then Some(k + 1) else MonthFrom(s, k + 1)
  }

  /** `%b`: a month abbreviation in any letter case, numbered from 1. */
  function ReadMonth(s: string): (r: Option<int>)
    ensures r.Some? ==> 1 <= r.value <= 12 && Lower(s) == MonthLower[r.value - 1]
    ensures r.None? ==> forall i :: 0 <= i < 12 ==> Lower(s) != MonthLower[i]
  {
    MonthFrom(Lower(s), 0)
  }

  /** `\d\d` after `%z`'s sign, `[0-5]\d` for its minutes and seconds. */
  predicate TwoDigits(s: string, maxFirst: char)
  {
    |s| == 2 && '0' <= s[0] <= maxFirst && IsDigit(s[1])
  }

  function Zeros(n: nat): (s: string)
    ensures |s| == n && AllDigits(s)
  {
    seq(n, _ => '0')
  }

  /** `(\.\d{1,6})?` after the seconds of `%z`, in microseconds: the digits are
      padded on the right with zeros to six. */
  function ReadFraction(s: string): (r: Option<int>)
    ensures r.Some? ==> 0 <= r.value < SecondMicros
  {
    if s == [] then Some(0)
    else if s[0] == '.' && 1 <= |s| - 1 <= 6 && AllDigits(s[1..]) then
      var padded := s[1..] + Zeros(6 - (|s| - 1));
      assert AllDigits(padded) && |padded| == 6;
      assert DecValue(padded) < 1_000_000 by { DecValueBound(padded); }
      Some(DecValue(padded))
    else None
  }

  /** The seconds of `%z` and what follows them, in microseconds. They take a
      `:` before them exactly when the minutes did: with one only before the
      minutes the offset is refused as inconsistent; with one only before the
      seconds the digits read as `:d` and `int` refuses them. */
  function ReadSeconds(rest: string, colon: bool): (r: Option<int>)
    ensures r.Some? ==> 0 <= r.value < MinuteMicros
  {
    if rest == [] then Some(0)
    else if (rest[0] == ':') != colon then None
    else
      var t := if colon then rest[1..] else rest;
      if |t| < 2 || !TwoDigits(t[..2], '5') then None
      else match ReadFraction(t[2..])
        case None => None
        case Some(f) =>
          assert DecValue(t[..2]) < 60 by { DecValueTwo(t[..2]); }
          Some(DecValue(t[..2]) * SecondMicros + f)
  }

  /** What follows the hours of `%z`: an optional `:`, the minutes, and the
      seconds, in microseconds. */
  function ReadClock(s: string): (r: Option<int>)
    ensures r.Some? ==> 0 <= r.value < HourMicros
  {
    var colon := |s| >= 1 && s[0] == ':';
    var m := if colon then s[1..] else s;
    if |m| < 2 || !TwoDigits(m[..2], '5') then None
    else match ReadSeconds(m[2..], colon)
      case None => None
      case Some(x) =>
        assert DecValue(m[..2]) < 60 by { DecValueTwo(m[..2]); }
        Some(DecValue(m[..2]) * MinuteMicros + x)
  }

  /** `%z`: `Z`, or a sign, two hour digits and the rest of the clock. The
      offset is in microseconds east of UTC; `timezone` then refuses a full day
      or more. */
  function ReadZone(z: string): (r: Option<int>)
    ensures r.Some? ==> -DayMicros < r.value < DayMicros
  {
    if z == "Z" then Some(0)
    else if |z| < 3 || !(z[0] == '+' || z[0] == '-') || !TwoDigits(z[1..3], '9') then None
    else match ReadClock(z[3..])
      case None => None
      case Some(x) =>
        var micros := DecValue(z[1..3]) * HourMicros + x;
        var offset := if z[0] == '-' then -micros else micros;
        if -DayMicros < offset < DayMicros then Some(offset) else None
  }

  // ---------------------------------------------------------------------------
  // The whole format

  /** The text up to the first c, and the text after it. */
  function Field(s: string, c: char): (r: Option<(string, string)>)
    ensures r.Some? ==> NoChar(r.value.0, c) && s == r.value.0 + [c] + r.value.1
  {
    var i := IndexOf(s, c);
    if i == |s| then None
    else
      assert s == s[..i] + [c] + s[i + 1..] by { assert s[i..i + 1] == [c]; }
      Some((s[..i], s[i + 1..]))
  }

  lemma FieldOf(f: string, c: char, rest: string)
    requires NoChar(f, c)
    ensures Field(f + [c] + rest, c) == Some((f, rest))
  {
    IndexOfPrefix(f, c, rest);
    var s := f + [c] + rest;
    assert s[..|f|] == f && s[|f| + 1..] == rest;
  }

  predicate NotSpace(c: char) { !IsSpace(c) }

  lemma RunSpace()
    ensures Run(" ", IsSpace) == 1
  {
    assert " "[1..] == [];
  }

  /** `%S` ends at the first whitespace; `\s+` takes the whole run of it, so
      the zone starts at the next other character. */
  function SplitSpace(s: string): (r: Option<(string, string)>)
    ensures r.Some? ==> forall i :: 0 <= i < |r.value.0| ==> NotSpace(r.value.0[i])
    ensures r.Some? ==> r.value.1 == [] || NotSpace(r.value.1[0])
  {
    var j := Run(s, NotSpace);
    if j == |s| then None
    else
      var w := Run(s[j..], IsSpace);
      Some((s[..j], s[j + w..]))
  }

  lemma SplitSpaceOf(f: string, z: string)
    requires forall i :: 0 <= i < |f| ==> NotSpace(f[i])
    requires z == [] || NotSpace(z[0])
    ensures SplitSpace(f + " " + z) == Some((f, z))
  {
    var s := f + " " + z;
    RunOf(f, " " + z, [], NotSpace);
    assert f + (" " + z) + [] == s;
    assert s[|f|..] == " " + z;
    if z != [] {
      RunOf(" ", z, [], IsSpace);
      assert " " + z + [] == s[|f|..];
    } else {
      RunSpace();
    }
    assert Run(s[|f|..], IsSpace) == 1;
    assert s[..|f|] == f && s[|f| + 1..] == z;
  }

  /** The values of the seven fields, checked the way `datetime` checks them:
      seconds 60 and 61 pass the pattern but not `datetime`, nor does a day
      past the end of its month or the year 0. */
  function Build(d: string, b: string, y: string, h: string, mi: string, sec: string, z: string): Option<Timestamp>
  {
    match (ReadDay(d), ReadMonth(b), ReadYear(y), ReadSmall(h, 23), ReadSmall(mi, 59), ReadSmall(sec, 61), ReadZone(z))
    case (Some(day), Some(month), Some(year), Some(hour), Some(minute), Some(second), Some(offset)) =>
      if second <= 59 && ValidDate(Date(year, month, day))
      then Some(Timestamp(Date(year, month, day), hour, minute, second, offset))
      else None
    case _ => None
  }

  /** The whole of text read with `%d/%b/%Y:%H:%M:%S %z`. */
  function ParseTimestamp(text: string): (r: Option<Timestamp>)
    ensures r.Some? ==> ValidTimestamp(r.value)
  {
    match Field(text, '/')
    case None => None
    case Some((d, r1)) =>
      match Field(r1, '/')
      case None => None
      case Some((b, r2)) =>
        match Field(r2, ':')
        case None => None
        case Some((y, r3)) =>
          match Field(r3, ':')
          case None => None
          case Some((h, r4)) =>
            match Field(r4, ':')
            case None => None
            case Some((mi, r5)) =>
              match SplitSpace(r5)
              case None => None
              case Some((sec, z)) => Build(d, b, y, h, mi, sec, z)
  }

  // ---------------------------------------------------------------------------
  // Writing a timestamp in the same format

  /** `%z` as `strftime` writes it: `+HHMM`, then the seconds only when there
      are seconds or microseconds, then the microseconds only when there are
      any. */
  function FormatZone(offset: int): string
  {
    var a: nat := if offset < 0 then -offset else offset;
    (if offset < 0 then "-" else "+") + Fixed(a / HourMicros, 2) + FormatClock(a % HourMicros)
  }

  function FormatClock(x: nat): string
  {
    Fixed(x / MinuteMicros, 2) + FormatSeconds(x % MinuteMicros)
  }

  function FormatSeconds(x: nat): string
  {
    if x == 0 then ""
    else Fixed(x / SecondMicros, 2) + (if x % SecondMicros == 0 then "" else "." + Fixed(x % SecondMicros, 6))
  }

  /** `%b` as `strftime` writes it: the abbreviation with a capital letter. */
  function Capital(w: string): string
  {
    if w == [] then [] else [UpperChar(w[0])] + w[1..]
  }

  function UpperChar(c: char): char
  {
    if 'a' <= c <= 'z' then (c as int - 32) as char else c
  }

  /** `%d/%b/%Y:%H:%M:%S %z` as `strftime` writes it. */
  function FormatTimestamp(t: Timestamp): string
    requires ValidTimestamp(t)
  {
    Fixed(t.date.day, 2) + "/" + (Capital(MonthLower[t.date.month - 1]) + "/" + (Fixed(t.date.year, 4) + ":"
      + (Fixed(t.hour, 2) + ":" + (Fixed(t.minute, 2) + ":" + (Fixed(t.second, 2) + " " + FormatZone(t.utcOffset))))))
  }

  // ---------------------------------------------------------------------------
  // Round trip

  lemma ReadSmallFixed(n: nat, max: int)
    requires n <= max && n < 100
    ensures ReadSmall(Fixed(n, 2), max) == Some(n)
  {
    FixedValue(n, 2);
  }

  lemma ReadDayFixed(n: nat)
    requires 1 <= n <= 31
    ensures ReadDay(Fixed(n, 2)) == Some(n)
  {
    ReadSmallFixed(n, 31);
  }

  lemma ReadYearFixed(n: nat)
    requires n <= 9999
    ensures ReadYear(Fixed(n, 4)) == Some(n)
  {
    FixedValue(n, 4);
  }

  predicate LowerWord(w: string) { forall i :: 0 <= i < |w| ==> 'a' <= w[i] <= 'z' }

  /** Lower-casing a capitalised lower-case word gives back the word. */
  lemma LowerCapital(w: string)
    requires LowerWord(w)
    ensures Lower(Capital(w)) == w
  {
    if w != [] {
      var c := Capital(w);
      assert LowerChar(UpperChar(w[0])) == w[0];
      assert forall i :: 1 <= i < |w| ==> c[i] == w[i];
    }
  }

  lemma MonthNamesFacts()
    ensures forall k :: 0 <= k < 12 ==> LowerWord(MonthLower[k])
    ensures forall i, j :: 0 <= i < 12 && 0 <= j < 12 && MonthLower[i] == MonthLower[j] ==> i == j
  {
  }

  lemma ReadMonthName(m: int)
    requires 1 <= m <= 12
    ensures ReadMonth(Capital(MonthLower[m - 1])) == Some(m)
  {
    MonthNamesFacts();
    LowerCapital(MonthLower[m - 1]);
  }

  lemma ReadSecondsFormat(x: int)
    requires 0 <= x < MinuteMicros
    ensures ReadSeconds(FormatSeconds(x), false) == Some(x)
  {
    if x != 0 {
      var ss := x / SecondMicros;
      var f := x % SecondMicros;
      DivMod(x, SecondMicros);
      assert ss < 60;
      FixedValue(ss, 2);
      FixedTwo(ss);
      var tail := if f == 0 then "" else "." + Fixed(f, 6);
      assert ReadFraction(tail) == Some(f) by {
        if f != 0 {
          ReadFractionFixed(f);
        }
      }
      assert FormatSeconds(x) == Fixed(ss, 2) + tail;
      ReadSecondsOf(Fixed(ss, 2), tail, f);
    }
  }

  lemma ReadFractionFixed(f: nat)
    requires f < SecondMicros
    ensures ReadFraction("." + Fixed(f, 6)) == Some(f)
  {
    var s := "." + Fixed(f, 6);
    FixedValue(f, 6);
    assert s[1..] == Fixed(f, 6);
    assert s[1..] + Zeros(0) == Fixed(f, 6);
  }

  lemma ReadSecondsOf(digits: string, tail: string, f: int)
    requires TwoDigits(digits, '5') && ReadFraction(tail) == Some(f)
    ensures ReadSeconds(digits + tail, false) == Some(DecValue(digits) * SecondMicros + f)
  {
    var t := digits + tail;
    assert t[0] == digits[0] && t[0] != ':';
    assert t[..2] == digits && t[2..] == tail;
  }

  lemma ReadClockOf(digits: string, rest: string, secs: int)
    requires TwoDigits(digits, '5') && ReadSeconds(rest, false) == Some(secs)
    ensures ReadClock(digits + rest) == Some(DecValue(digits) * MinuteMicros + secs)
  {
    var s := digits + rest;
    assert s[0] == digits[0] && s[0] != ':';
    assert s[..2] == digits && s[2..] == rest;
    assert DecValue(digits) < 60 by { DecValueTwo(digits); }
  }

  lemma ReadClockFormat(x: int)
    requires 0 <= x < HourMicros
    ensures ReadClock(FormatClock(x)) == Some(x)
  {
    var mm := x / MinuteMicros;
    var secs := x % MinuteMicros;
    assert mm < 60;
    FixedValue(mm, 2);
    FixedTwo(mm);
    ReadSecondsFormat(secs);
    calc {
      ReadClock(FormatClock(x));
      ReadClock(Fixed(mm, 2) + FormatSeconds(secs));
      { ReadClockOf(Fixed(mm, 2), FormatSeconds(secs), secs); }
      Some(DecValue(Fixed(mm, 2)) * MinuteMicros + secs);
      Some(mm * MinuteMicros + secs);
      { DivMod(x, MinuteMicros); }
      Some(x);
    }
  }

  lemma DivMod(x: int, d: int)
    requires d > 0
    ensures (x / d) * d + x % d == x
  {
  }

  lemma ReadZoneOf(sign: string, digits: string, rest: string, x: int)
    requires sign == "+" || sign == "-"
    requires TwoDigits(digits, '9') && ReadClock(rest) == Some(x)
    requires var micros := DecValue(digits) * HourMicros + x;
      -DayMicros < (if sign == "-" then -micros else micros) < DayMicros
    ensures var micros := DecValue(digits) * HourMicros + x;
      ReadZone(sign + digits + rest) == Some(if sign == "-" then -micros else micros)
  {
    var z := sign + digits + rest;
    assert z[1..3] == digits && z[3..] == rest && z[0] == sign[0];
    assert |z| >= 3 && z != "Z" by {
      assert z[0] != 'Z';
    }
    assert TwoDigits(z[1..3], '9') && ReadClock(z[3..]) == Some(x);
    assert (z[0] == '-') == (sign == "-");
  }

  lemma ReadFormatZone(offset: int)
    requires -DayMicros < offset < DayMicros
    ensures ReadZone(FormatZone(offset)) == Some(offset)
  {
    var a: nat := if offset < 0 then -offset else offset;
    var hh := a / HourMicros;
    var rest := a % HourMicros;
    assert hh < 24;
    FixedValue(hh, 2);
    FixedTwo(hh);
    ReadClockFormat(rest);
    var sign := if offset < 0 then "-" else "+";
    DivMod(a, HourMicros);
    assert DecValue(Fixed(hh, 2)) * HourMicros + rest == a;
    ReadZoneOf(sign, Fixed(hh, 2), FormatClock(rest), rest);
  }

  lemma ParseFields(d: string, b: string, y: string, h: string, mi: string, sec: string, z: string)
    requires NoChar(d, '/') && NoChar(b, '/') && NoChar(y, ':') && NoChar(h, ':') && NoChar(mi, ':')
    requires forall i :: 0 <= i < |sec| ==> NotSpace(sec[i])
    requires z == [] || NotSpace(z[0])
    ensures ParseTimestamp(d + "/" + (b + "/" + (y + ":" + (h + ":" + (mi + ":" + (sec + " " + z))))))
            == Build(d, b, y, h, mi, sec, z)
  {
    var r5 := sec + " " + z;
    var r4 := mi + ":" + r5;
    var r3 := h + ":" + r4;
    var r2 := y + ":" + r3;
    var r1 := b + "/" + r2;
    FieldOf(d, '/', r1);
    FieldOf(b, '/', r2);
    FieldOf(y, ':', r3);
    FieldOf(h, ':', r4);
    FieldOf(mi, ':', r5);
    SplitSpaceOf(sec, z);
  }

  lemma BuildFormat(t: Timestamp)
    requires ValidTimestamp(t)
    ensures Build(Fixed(t.date.day, 2), Capital(MonthLower[t.date.month - 1]), Fixed(t.date.year, 4),
                  Fixed(t.hour, 2), Fixed(t.minute, 2), Fixed(t.second, 2), FormatZone(t.utcOffset)) == Some(t)
  {
    ReadDayFixed(t.date.day);
    ReadMonthName(t.date.month);
    ReadYearFixed(t.date.year);
    ReadSmallFixed(t.hour, 23);
    ReadSmallFixed(t.minute, 59);
    ReadSmallFixed(t.second, 61);
    ReadFormatZone(t.utcOffset);
    BuildOfReads(Fixed(t.date.day, 2), Capital(MonthLower[t.date.month - 1]), Fixed(t.date.year, 4),
                 Fixed(t.hour, 2), Fixed(t.minute, 2), Fixed(t.second, 2), FormatZone(t.utcOffset), t);
  }

  /** Fields that each read back as a part of a valid timestamp build it. */
  lemma BuildOfReads(d: string, b: string, y: string, h: string, mi: string, sec: string, z: string, t: Timestamp)
    requires ValidTimestamp(t)
    requires ReadDay(d) == Some(t.date.day) && ReadMonth(b) == Some(t.date.month) && ReadYear(y) == Some(t.date.year)
    requires ReadSmall(h, 23) == Some(t.hour) && ReadSmall(mi, 59) == Some(t.minute)
    requires ReadSmall(sec, 61) == Some(t.second) && ReadZone(z) == Some(t.utcOffset)
    ensures Build(d, b, y, h, mi, sec, z) == Some(t)
  {
    assert Date(t.date.year, t.date.month, t.date.day) == t.date;
  }

  lemma DigitsSeparate(s: string)
    requires AllDigits(s)
    ensures NoChar(s, '/') && NoChar(s, ':') && forall i :: 0 <= i < |s| ==> NotSpace(s[i])
  {
  }

  /** A written month name holds no `/`. */
  lemma MonthNoSlash(m: int)
    requires 1 <= m <= 12
    ensures NoChar(Capital(MonthLower[m - 1]), '/')
  {
    var month := Capital(MonthLower[m - 1]);
    MonthNamesFacts();
    assert forall i :: 1 <= i < |month| ==> month[i] == MonthLower[m - 1][i];
  }

  /** A written offset starts with its sign. */
  lemma ZoneSigned(offset: int)
    requires -DayMicros < offset < DayMicros
    ensures |FormatZone(offset)| > 0 && NotSpace(FormatZone(offset)[0])
  {
    var zone := FormatZone(offset);
    assert zone[0] == '+' || zone[0] == '-';
  }

  /** The fields a valid timestamp is written with hold none of the separators
      that follow them. */
  lemma FieldsSeparate(t: Timestamp)
    requires ValidTimestamp(t)
    ensures NoChar(Fixed(t.date.day, 2), '/') && NoChar(Capital(MonthLower[t.date.month - 1]), '/')
    ensures NoChar(Fixed(t.date.year, 4), ':') && NoChar(Fixed(t.hour, 2), ':') && NoChar(Fixed(t.minute, 2), ':')
    ensures forall i :: 0 <= i < |Fixed(t.second, 2)| ==> NotSpace(Fixed(t.second, 2)[i])
    ensures FormatZone(t.utcOffset) == [] || NotSpace(FormatZone(t.utcOffset)[0])
  {
    MonthNoSlash(t.date.month);
    DigitsSeparate(Fixed(t.date.day, 2));
    DigitsSeparate(Fixed(t.date.year, 4));
    DigitsSeparate(Fixed(t.hour, 2));
    DigitsSeparate(Fixed(t.minute, 2));
    DigitsSeparate(Fixed(t.second, 2));
    ZoneSigned(t.utcOffset);
  }

  /** Every valid timestamp survives being written and read back. */
  lemma ParseFormat(t: Timestamp)
    requires ValidTimestamp(t)
    ensures ParseTimestamp(FormatTimestamp(t)) == Some(t)
  {
    FieldsSeparate(t);
    ParseFields(Fixed(t.date.day, 2), Capital(MonthLower[t.date.month - 1]), Fixed(t.date.year, 4),
                Fixed(t.hour, 2), Fixed(t.minute, 2), Fixed(t.second, 2), FormatZone(t.utcOffset));
    BuildFormat(t);
  }

  /** The month is read without regard to letter case. */
  lemma MonthAnyCase(s: string)
    ensures ReadMonth(Lower(s)) == ReadMonth(s)
  {
    LowerLower(s);
  }
}
