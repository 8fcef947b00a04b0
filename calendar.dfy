/** The proleptic Gregorian calendar as Python's `datetime.date` computes it:
    day ordinals (0001-01-01 is day 1), weekdays (Monday is 0) and the ISO 8601
    week date (section 4.1.4 of ISO 8601:2004) of `date.isocalendar()`. */
module Calendar {

  datatype Date = Date(year: int, month: int, day: int)

  predicate IsLeap(y: int) { y % 4 == 0 && (y % 100 != 0 || y % 400 == 0) }

  function DaysInYear(y: int): int { if IsLeap(y) then 366 else 365 }

  function DaysInMonth(y: int, m: int): int
    requires 1 <= m <= 12
  {
    if m == 2 then (if IsLeap(y) then 29 else 28)
    else if m == 4 || m == 6 || m == 9 || m == 11 then 30
    else 31
  }

  /** A date `datetime.date` accepts: year 1..9999, a month, a day of that month. */
  predicate ValidDate(d: Date)
  {
    1 <= d.year <= 9999 && 1 <= d.month <= 12 && 1 <= d.day <= DaysInMonth(d.year, d.month)
  }

  /** Days in the years before y: the lengths of years 1 .. y - 1 added up, and for
      y < 1 the years y .. 0 taken away. `DaysBeforeYearClosedForm` proves it equal
      to the closed formula of `_days_before_year`. */
  function DaysBeforeYear(y: int): int
    decreases if y >= 1 then y - 1 else 1 - y
  {
    if y == 1 then 0
    else if y > 1 then DaysBeforeYear(y - 1) + DaysInYear(y - 1)
    else DaysBeforeYear(y + 1) - DaysInYear(y)
  }

  /** `_days_before_year(y)`: `(y-1)*365 + (y-1)//4 - (y-1)//100 + (y-1)//400`. */
  function DaysBeforeYearFormula(y: int): int
  {
    var p := y - 1;
    p * 365 + p / 4 - p / 100 + p / 400
  }

  /** Days in the months of year y before month m (`_days_before_month`). */
  function DaysBeforeMonth(y: int, m: int): int
    requires 1 <= m <= 12
  {
    var base :=
      if m == 1 then 0 else if m == 2 then 31 else if m == 3 then 59 else if m == 4 then 90
      else if m == 5 then 120 else if m == 6 then 151 else if m == 7 then 181 else if m == 8 then 212
      else if m == 9 then 243 else if m == 10 then 273 else if m == 11 then 304 else 334;
    if m > 2 && IsLeap(y) then base + 1 else base
  }

  /** `date.toordinal()`. */
  function Ordinal(d: Date): int
    requires 1 <= d.month <= 12
  {
    DaysBeforeYear(d.year) + DaysBeforeMonth(d.year, d.month) + d.day
  }

  function WeekdayOfOrdinal(o: int): int { (o + 6) % 7 }

  /** `date.weekday()`: Monday is 0, Sunday is 6. */
  function Weekday(d: Date): (w: int)
    requires 1 <= d.month <= 12
    ensures 0 <= w < 7
  {
    WeekdayOfOrdinal(Ordinal(d))
  }

  /** `strftime('%A')`. */
  function DayName(w: int): string
    requires 0 <= w < 7
  {
    ["Monday", "Tuesday", "Wednesday", "Thursday", "Friday", "Saturday", "Sunday"][w]
  }

  function Jan1(y: int): int { DaysBeforeYear(y) + 1 }

  /** The Monday of the week holding day `first`, moved one week on when `first`
      falls on Friday, Saturday or Sunday (the body of `_isoweek1monday`). */
  function Week1MondayFrom(first: int): int
  {
    var wd := WeekdayOfOrdinal(first);
    if wd > 3 then first - wd + 7 else first - wd
  }

  /** Ordinal of the Monday that starts ISO week 1 of year y (`_isoweek1monday`). */
  function IsoWeek1Monday(y: int): int { Week1MondayFrom(Jan1(y)) }

  datatype IsoDate = IsoDate(isoYear: int, week: int, weekday: int)

  /** The steps of `date.isocalendar()` for day `today` of year y, given the
      ordinals w0, w1, w2 of the week-1 Mondays of years y - 1, y and y + 1. */
  function IsoWeekDate(y: int, today: int, w0: int, w1: int, w2: int): IsoDate
  {
    var week := (today - w1) / 7;
    var day := (today - w1) % 7;
    if week < 0 then
      IsoDate(y - 1, (today - w0) / 7 + 1, (today - w0) % 7 + 1)
    else if week >= 52 && today >= w2 then
      IsoDate(y + 1, 1, day + 1)
    else
      IsoDate(y, week + 1, day + 1)
  }

  /** `date.isocalendar()` for day `today` of year y. */
  function IsoOfDay(y: int, today: int): IsoDate
  {
    IsoWeekDate(y, today, IsoWeek1Monday(y - 1), IsoWeek1Monday(y), IsoWeek1Monday(y + 1))
  }

  /** `date.isocalendar()`. */
  function IsoCalendar(d: Date): IsoDate
    requires ValidDate(d)
  {
    IsoOfDay(d.year, Ordinal(d))
  }

  /** Ordinal of the Monday on or before d. */
  function MondayOrdinal(d: Date): int
    requires 1 <= d.month <= 12
  {
    Ordinal(d) - Weekday(d)
  }

  // ---------------------------------------------------------------------------
  // Facts about years

  lemma DivStep4(p: int)
    ensures (p + 1) / 4 - p / 4 == if (p + 1) % 4 == 0 then 1 else 0
  {
  }

  lemma DivStep100(p: int)
    ensures (p + 1) / 100 - p / 100 == if (p + 1) % 100 == 0 then 1 else 0
  {
  }

  lemma DivStep400(p: int)
    ensures (p + 1) / 400 - p / 400 == if (p + 1) % 400 == 0 then 1 else 0
  {
  }

  /** New Year's Days of consecutive years lie DaysInYear apart. */
  lemma YearLength(y: int)
    ensures Jan1(y + 1) - Jan1(y) == DaysInYear(y)
  {
  }

  lemma FormulaStep(y: int)
    ensures DaysBeforeYearFormula(y + 1) - DaysBeforeYearFormula(y) == DaysInYear(y)
  {
    DivStep4(y - 1);
    DivStep100(y - 1);
    DivStep400(y - 1);
  }

  /** The running sum of year lengths is Python's closed formula, for every year. */
  lemma {:induction false} DaysBeforeYearClosedForm(y: int)
    ensures DaysBeforeYear(y) == DaysBeforeYearFormula(y)
    decreases if y >= 1 then y - 1 else 1 - y
  {
    if y > 1 {
      DaysBeforeYearClosedForm(y - 1);
      FormulaStep(y - 1);
    } else if y < 1 {
      DaysBeforeYearClosedForm(y + 1);
      FormulaStep(y);
    }
  }

  lemma {:induction false} DaysBeforeYearGrows(y: int)
    requires y >= 1
    ensures DaysBeforeYear(y) >= 365 * (y - 1)
    decreases y
  {
    if y > 1 {
      DaysBeforeYearGrows(y - 1);
    }
  }

  /** The ordinal of a valid date falls inside its own year. */
  lemma OrdinalInYear(d: Date)
    requires ValidDate(d)
    ensures Jan1(d.year) <= Ordinal(d) < Jan1(d.year) + DaysInYear(d.year)
  {
  }

  /** 0001-01-01 is day 1, and every valid date has a positive ordinal. */
  lemma OrdinalPositive(d: Date)
    requires ValidDate(d)
    ensures Ordinal(d) >= 1
    ensures Ordinal(d) == 1 <==> d == Date(1, 1, 1)
  {
    DaysBeforeYearGrows(d.year);
  }

  lemma Week1MondayFromFacts(f: int)
    ensures WeekdayOfOrdinal(Week1MondayFrom(f)) == 0
    ensures f - 3 <= Week1MondayFrom(f) <= f + 3
  {
  }

  lemma Week1MondayFacts(y: int)
    ensures WeekdayOfOrdinal(IsoWeek1Monday(y)) == 0
    ensures Jan1(y) - 3 <= IsoWeek1Monday(y) <= Jan1(y) + 3
  {
    Week1MondayFromFacts(Jan1(y));
  }

  lemma MondayGap(a: int, b: int)
    requires WeekdayOfOrdinal(a) == 0 && WeekdayOfOrdinal(b) == 0
    requires 359 <= b - a <= 372
    ensures b - a == 364 || b - a == 371
  {
  }

  /** ISO years have 52 or 53 weeks. */
  lemma Week1MondayGap(y: int)
    ensures IsoWeek1Monday(y + 1) - IsoWeek1Monday(y) == 364 || IsoWeek1Monday(y + 1) - IsoWeek1Monday(y) == 371
  {
    YearLength(y);
    Week1MondayFacts(y);
    Week1MondayFacts(y + 1);
    MondayGap(IsoWeek1Monday(y), IsoWeek1Monday(y + 1));
  }

  /** Quotient and remainder by 7 are unique. */
  lemma DivMod7(x: int, q: int, r: int)
    requires x == 7 * q + r && 0 <= r < 7
    ensures x / 7 == q && x % 7 == r
  {
  }

  /** Distance from a Monday, modulo 7, is the weekday. */
  lemma DistanceFromMonday(t: int, w: int)
    requires WeekdayOfOrdinal(w) == 0
    ensures (t - w) % 7 == WeekdayOfOrdinal(t)
  {
    var c := (w + 6) / 7;
    assert w + 6 == 7 * c;
    DivMod7(t - w, (t + 6) / 7 - c, (t + 6) % 7);
  }

  /** `IsoWeekDate` picks the year whose week-1 Monday is the last one on or before
      `today`, and numbers the weeks and days from that Monday; W gives each
      year's week-1 Monday. */
  lemma IsoWeekDateFacts(y: int, today: int, W: int -> int)
    requires WeekdayOfOrdinal(W(y - 1)) == 0 && WeekdayOfOrdinal(W(y)) == 0 && WeekdayOfOrdinal(W(y + 1)) == 0
    requires W(y) - W(y - 1) == 364 || W(y) - W(y - 1) == 371
    requires W(y + 1) - W(y) == 364 || W(y + 1) - W(y) == 371
    requires W(y + 2) - W(y + 1) >= 364
    requires W(y) - 3 <= today < W(y + 1) + 3
    ensures W(IsoWeekDate(y, today, W(y - 1), W(y), W(y + 1)).isoYear) <= today
    ensures today < W(IsoWeekDate(y, today, W(y - 1), W(y), W(y + 1)).isoYear + 1)
    ensures today == W(IsoWeekDate(y, today, W(y - 1), W(y), W(y + 1)).isoYear)
                     + 7 * (IsoWeekDate(y, today, W(y - 1), W(y), W(y + 1)).week - 1)
                     + (IsoWeekDate(y, today, W(y - 1), W(y), W(y + 1)).weekday - 1)
    ensures IsoWeekDate(y, today, W(y - 1), W(y), W(y + 1)).weekday == WeekdayOfOrdinal(today) + 1
  {
    var w0, w1, w2 := W(y - 1), W(y), W(y + 1);
    var r := IsoWeekDate(y, today, w0, w1, w2);
    var week := (today - w1) / 7;
    if week < 0 {
      DistanceFromMonday(today, w0);
      assert r.isoYear == y - 1 && W(r.isoYear) == w0 && W(r.isoYear + 1) == w1;
    } else if week >= 52 && today >= w2 {
      DistanceFromMonday(today, w1);
      if w2 - w1 == 364 {
        DivMod7(today - w1, 52, today - w2);
      } else {
        DivMod7(today - w1, 53, today - w2);
      }
      assert r.isoYear == y + 1 && W(r.isoYear) == w2 && W(r.isoYear + 1) == W(y + 2);
    } else {
      DistanceFromMonday(today, w1);
      assert r.isoYear == y && W(r.isoYear + 1) == w2;
    }
  }

  /** Within year y, the ISO year is the one whose week 1 starts on or before the
      day and whose successor's week 1 starts after it. */
  lemma MondayPlusWeeks(w: int, k: int)
    requires WeekdayOfOrdinal(w) == 0
    ensures WeekdayOfOrdinal(w + 7 * k) == 0
  {
  }

  /** W lists one Monday per year, each ISO year 52 or 53 weeks long, as
      `IsoWeek1Monday` does. */
  ghost predicate MondayPerYear(W: int -> int)
  {
    && (forall a :: WeekdayOfOrdinal(W(a)) == 0)
    && (forall a, b :: a < b ==> 364 * (b - a) <= W(b) - W(a) <= 371 * (b - a))
  }

  /** ISO week date facts over any `MondayPerYear` W. */
  lemma IsoWeekDateRangeW(W: int -> int, y: int, t: int)
    requires MondayPerYear(W)
    requires W(y) - 3 <= t < W(y + 1) + 3
    ensures W(IsoWeekDate(y, t, W(y - 1), W(y), W(y + 1)).isoYear) <= t < W(IsoWeekDate(y, t, W(y - 1), W(y), W(y + 1)).isoYear + 1)
    ensures t - WeekdayOfOrdinal(t) == W(IsoWeekDate(y, t, W(y - 1), W(y), W(y + 1)).isoYear) + 7 * (IsoWeekDate(y, t, W(y - 1), W(y), W(y + 1)).week - 1)
    ensures 1 <= IsoWeekDate(y, t, W(y - 1), W(y), W(y + 1)).week <= 53
    ensures IsoWeekDate(y, t, W(y - 1), W(y), W(y + 1)).weekday == WeekdayOfOrdinal(t) + 1
  {
    Week1Gaps(W, y - 1);
    Week1Gaps(W, y);
    Week1Gaps(W, y + 1);
    IsoWeekDateFacts(y, t, W);
    var r := IsoWeekDate(y, t, W(y - 1), W(y), W(y + 1));
    Week1Gaps(W, r.isoYear);
  }

  lemma Week1Gaps(W: int -> int, a: int)
    requires MondayPerYear(W)
    ensures W(a + 1) - W(a) == 364 || W(a + 1) - W(a) == 371
  {
    MondayGap(W(a), W(a + 1));
  }

  /** A week counted from year a's week-1 Monday is not counted from a later year's. */
  lemma MondayNotInLaterYearW(W: int -> int, a: int, wa: int, ta: int, b: int, wb: int, m: int)
    requires MondayPerYear(W)
    requires 1 <= wa && W(a) <= ta < W(a + 1)
    requires m == W(a) + 7 * (wa - 1) && m <= ta < m + 7
    requires 1 <= wb && m == W(b) + 7 * (wb - 1)
    ensures b <= a
  {
    MondayPlusWeeks(W(a), wa - 1);
    if a < b {
      assert false;
    }
  }

  /** The Monday of an ISO week determines the ISO year it is numbered in. */
  lemma MondayDeterminesYearW(W: int -> int, a: int, wa: int, ta: int, b: int, wb: int, tb: int, m: int)
    requires MondayPerYear(W)
    requires 1 <= wa && W(a) <= ta < W(a + 1)
    requires m == W(a) + 7 * (wa - 1) && m <= ta < m + 7
    requires 1 <= wb && W(b) <= tb < W(b + 1)
    requires m == W(b) + 7 * (wb - 1) && m <= tb < m + 7
    ensures a == b
  {
    MondayNotInLaterYearW(W, a, wa, ta, b, wb, m);
    MondayNotInLaterYearW(W, b, wb, tb, a, wa, m);
  }

  /** Two days placed in ISO weeks k1 of year Y1 and k2 of year Y2 share year and
      week exactly when they share the Monday of their week. */
  lemma KeyFromBrackets(W: int -> int, Y1: int, k1: int, t1: int, Y2: int, k2: int, t2: int)
    requires MondayPerYear(W)
    requires 1 <= k1 && W(Y1) <= t1 < W(Y1 + 1) && t1 - WeekdayOfOrdinal(t1) == W(Y1) + 7 * (k1 - 1)
    requires 1 <= k2 && W(Y2) <= t2 < W(Y2 + 1) && t2 - WeekdayOfOrdinal(t2) == W(Y2) + 7 * (k2 - 1)
    ensures (Y1 == Y2 && k1 == k2) <==> t1 - WeekdayOfOrdinal(t1) == t2 - WeekdayOfOrdinal(t2)
  {
    var m1, m2 := t1 - WeekdayOfOrdinal(t1), t2 - WeekdayOfOrdinal(t2);
    if m1 == m2 {
      MondayDeterminesYearW(W, Y1, k1, t1, Y2, k2, t2, m1);
    }
  }

  lemma {:induction false} Week1MondaySpan(a: int, b: int)
    requires a < b
    ensures 364 * (b - a) <= IsoWeek1Monday(b) - IsoWeek1Monday(a) <= 371 * (b - a)
    decreases b - a
  {
    Week1MondayGap(b - 1);
    if a < b - 1 {
      Week1MondaySpan(a, b - 1);
    }
  }

  lemma Week1MondayPerYear()
    ensures MondayPerYear(IsoWeek1Monday)
  {
    forall a ensures WeekdayOfOrdinal(IsoWeek1Monday(a)) == 0 {
      Week1MondayFacts(a);
    }
    forall a, b | a < b
      ensures 364 * (b - a) <= IsoWeek1Monday(b) - IsoWeek1Monday(a) <= 371 * (b - a)
    {
      Week1MondaySpan(a, b);
    }
  }

  /** Day t of year y lies within three days of the year's week-1 Mondays. */
  lemma DayNearWeek1Mondays(y: int, t: int)
    requires Jan1(y) <= t < Jan1(y + 1)
    ensures IsoWeek1Monday(y) - 3 <= t < IsoWeek1Monday(y + 1) + 3
  {
    Week1MondayFacts(y);
    Week1MondayFacts(y + 1);
  }

  /** Day t lies in week k of ISO year Y: on or after that year's week-1 Monday,
      before the next year's, k weeks on. */
  ghost predicate IsoPlaced(Y: int, k: int, t: int)
  {
    1 <= k && IsoWeek1Monday(Y) <= t < IsoWeek1Monday(Y + 1)
    && t - WeekdayOfOrdinal(t) == IsoWeek1Monday(Y) + 7 * (k - 1)
  }

  lemma Week1MondayKey(Y1: int, k1: int, t1: int, Y2: int, k2: int, t2: int)
    requires IsoPlaced(Y1, k1, t1) && IsoPlaced(Y2, k2, t2)
    ensures (Y1 == Y2 && k1 == k2) <==> t1 - WeekdayOfOrdinal(t1) == t2 - WeekdayOfOrdinal(t2)
  {
    Week1MondayPerYear();
    KeyFromBrackets(IsoWeek1Monday, Y1, k1, t1, Y2, k2, t2);
  }

  /** For day t of year y, `IsoOfDay` names the ISO year and week holding t, a
      week number of at most 53, and the ISO weekday (Monday 1 .. Sunday 7). */
  lemma IsoOfDayFacts(y: int, t: int)
    requires Jan1(y) <= t < Jan1(y + 1)
    ensures IsoPlaced(IsoOfDay(y, t).isoYear, IsoOfDay(y, t).week, t)
    ensures IsoOfDay(y, t).week <= 53
    ensures IsoOfDay(y, t).weekday == WeekdayOfOrdinal(t) + 1
  {
    Week1MondayPerYear();
    DayNearWeek1Mondays(y, t);
    IsoWeekDateRangeW(IsoWeek1Monday, y, t);
  }

  /** `date.isocalendar()` of a valid date: the date lies in week `week` (1 to 53)
      of ISO year `isoYear`, and `weekday` is the ISO weekday. */
  lemma IsoCalendarFacts(d: Date)
    requires ValidDate(d)
    ensures IsoPlaced(IsoCalendar(d).isoYear, IsoCalendar(d).week, Ordinal(d))
    ensures 1 <= IsoCalendar(d).week <= 53
    ensures IsoCalendar(d).weekday == Weekday(d) + 1
  {
    OrdinalInYear(d);
    IsoOfDayFacts(d.year, Ordinal(d));
  }

  lemma IsoOfDayKey(y1: int, t1: int, y2: int, t2: int)
    requires Jan1(y1) <= t1 < Jan1(y1 + 1) && Jan1(y2) <= t2 < Jan1(y2 + 1)
    ensures (IsoOfDay(y1, t1).isoYear == IsoOfDay(y2, t2).isoYear && IsoOfDay(y1, t1).week == IsoOfDay(y2, t2).week)
            <==> t1 - WeekdayOfOrdinal(t1) == t2 - WeekdayOfOrdinal(t2)
  {
    IsoOfDayFacts(y1, t1);
    IsoOfDayFacts(y2, t2);
    Week1MondayKey(IsoOfDay(y1, t1).isoYear, IsoOfDay(y1, t1).week, t1, IsoOfDay(y2, t2).isoYear, IsoOfDay(y2, t2).week, t2);
  }

  /** Two dates share ISO year and ISO week exactly when they share the Monday
      that starts their week. */
  lemma IsoWeekIsMondayWeek(d1: Date, d2: Date)
    requires ValidDate(d1) && ValidDate(d2)
    ensures (IsoCalendar(d1).isoYear == IsoCalendar(d2).isoYear && IsoCalendar(d1).week == IsoCalendar(d2).week)
            <==> MondayOrdinal(d1) == MondayOrdinal(d2)
  {
    OrdinalInYear(d1);
    OrdinalInYear(d2);
    IsoOfDayKey(d1.year, Ordinal(d1), d2.year, Ordinal(d2));
  }

  // ---------------------------------------------------------------------------
  // Date keys and stepping back

  /** An integer that orders dates as (year, month, day) do; used as a grouping key. */
  function DateKey(d: Date): int { d.year * 10000 + d.month * 100 + d.day }

  function DateOfKey(k: int): Date { Date(k / 10000, (k / 100) % 100, k % 100) }

  /** The key of a date determines the date. */
  lemma DateKeyRoundTrip(d: Date)
    requires 1 <= d.month <= 12 && 1 <= d.day <= 31
    ensures DateOfKey(DateKey(d)) == d
  {
    var k := DateKey(d);
    assert k == d.year * 10000 + (d.month * 100 + d.day);
    assert k / 10000 == d.year;
    assert k % 10000 == d.month * 100 + d.day;
    assert k / 100 == d.year * 100 + d.month;
  }

  /** Key order is (year, month, day) order. */
  lemma DateKeyOrder(a: Date, b: Date)
    requires 1 <= a.month <= 12 && 1 <= a.day <= 31
    requires 1 <= b.month <= 12 && 1 <= b.day <= 31
    ensures DateKey(a) < DateKey(b) <==>
      (a.year < b.year || (a.year == b.year && (a.month < b.month || (a.month == b.month && a.day < b.day))))
  {
  }

  /** The day before d. */
  function PrevDay(d: Date): Date
    requires 1 <= d.month <= 12
  {
    if d.day > 1 then Date(d.year, d.month, d.day - 1)
    else if d.month > 1 then Date(d.year, d.month - 1, DaysInMonth(d.year, d.month - 1))
    else Date(d.year - 1, 12, 31)
  }

  lemma MonthStep(y: int, m: int)
    requires 2 <= m <= 12
    ensures DaysBeforeMonth(y, m) == DaysBeforeMonth(y, m - 1) + DaysInMonth(y, m - 1)
  {
  }

  lemma PrevDayFacts(d: Date)
    requires ValidDate(d) && Ordinal(d) > 1
    ensures ValidDate(PrevDay(d)) && Ordinal(PrevDay(d)) == Ordinal(d) - 1
  {
    OrdinalPositive(d);
    if d.day == 1 && d.month > 1 {
      MonthStep(d.year, d.month);
    } else if d.day == 1 {
      assert d.year > 1;
      assert DaysBeforeYear(d.year) == DaysBeforeYear(d.year - 1) + DaysInYear(d.year - 1);
    }
  }

  /** d stepped back n days. */
  function StepBack(d: Date, n: nat): Date
    requires ValidDate(d) && Ordinal(d) > n
    ensures ValidDate(StepBack(d, n)) && Ordinal(StepBack(d, n)) == Ordinal(d) - n
    decreases n
  {
    if n == 0 then d else
      PrevDayFacts(d);
      StepBack(PrevDay(d), n - 1)
  }

  lemma MondayOnOrBefore(o: int)
    requires o >= 1
    ensures o - WeekdayOfOrdinal(o) >= 1
    ensures WeekdayOfOrdinal(o - WeekdayOfOrdinal(o)) == 0
  {
  }

  lemma WeekdayBelowOrdinal(d: Date)
    requires ValidDate(d)
    ensures Ordinal(d) > Weekday(d)
    ensures WeekdayOfOrdinal(MondayOrdinal(d)) == 0
  {
    OrdinalPositive(d);
    MondayOnOrBefore(Ordinal(d));
  }

  /** The Monday on or before d (`to_period('W').start_time`, weeks ending on Sunday). */
  function WeekStart(d: Date): (s: Date)
    requires ValidDate(d)
    ensures ValidDate(s) && Ordinal(s) == MondayOrdinal(d)
    ensures Weekday(s) == 0
    ensures Ordinal(s) <= Ordinal(d) < Ordinal(s) + 7
  {
    WeekdayBelowOrdinal(d);
    StepBack(d, Weekday(d))
  }
}
