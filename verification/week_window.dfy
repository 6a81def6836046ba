/**
 * The query window the handler computes before calling the fixtures
 * provider: the calendar week (Sunday to Saturday) around today, both ends
 * rendered as `year-MM-DD`, and the season year.
 */
module WeekWindow {
  import opened Options
  import opened Text
  import opened CivilDates

  /** Going back as many days as today's weekday number lands on a Sunday. */
  lemma SundayBack(today: CivilDate)
    requires Valid(today)
    ensures DayOfWeek(SetDate(today, today.day - DayOfWeek(today))) == 0
  {
    var back := DayOfWeek(today);
    var sunday := SetDate(today, today.day - back);
    DayOfWeekAfter(today, sunday, -back);
    assert DayOfWeek(sunday) == (back - back) % 7;
  }

  /** Six days after a Sunday is a Saturday. */
  lemma SaturdayAfter(sunday: CivilDate)
    requires Valid(sunday) && DayOfWeek(sunday) == 0
    ensures DayOfWeek(SetDate(sunday, sunday.day + 6)) == 6
  {
    DayOfWeekAfter(sunday, SetDate(sunday, sunday.day + 6), 6);
  }

  /** `now.setDate(now.getDate() - now.getDay())`: the Sunday that starts
      today's week. */
  function WeekStart(today: CivilDate): (s: CivilDate)
    requires Valid(today)
    ensures Valid(s) && DayOfWeek(s) == 0
    ensures DayNumber(s) <= DayNumber(today) < DayNumber(s) + 7
  {
    SundayBack(today);
    SetDate(today, today.day - DayOfWeek(today))
  }

  /** The second `setDate` moves the already-moved date six days on: the
      Saturday that ends today's week. */
  function WeekEnd(today: CivilDate): (e: CivilDate)
    requires Valid(today)
    ensures Valid(e) && DayOfWeek(e) == 6
    ensures DayNumber(e) == DayNumber(WeekStart(today)) + 6
    ensures DayNumber(today) <= DayNumber(e)
  {
    var sunday := WeekStart(today);
    SaturdayAfter(sunday);
    SetDate(sunday, sunday.day + 6)
  }

  /** The week start is the Sunday in the seven days ending today, and no
      other date is. */
  lemma WeekStartIsMostRecentSunday(today: CivilDate, d: CivilDate)
    requires Valid(today) && Valid(d)
    ensures d == WeekStart(today) <==>
      DayOfWeek(d) == 0 && DayNumber(d) <= DayNumber(today) < DayNumber(d) + 7
  {
    var s := WeekStart(today);
    if DayOfWeek(d) == 0 && DayNumber(d) <= DayNumber(today) < DayNumber(d) + 7 {
      SameWeekdayWithinWeek(d, s);
    }
  }

  // ---------------------------------------------------------------------
  // Season year
  // ---------------------------------------------------------------------

  /** The starting year of the season a date belongs to: seasons begin in
      August (`getMonth() == 7`). */
  function SeasonOf(d: CivilDate): int {
    if d.month >= 7 then d.year else d.year - 1
  }

  /** Two dates at most six days apart are in the same month, in adjacent
      months of one year, or on either side of New Year. */
  lemma WithinAWeek(a: CivilDate, b: CivilDate)
    requires Valid(a) && Valid(b)
    requires DayNumber(a) <= DayNumber(b) <= DayNumber(a) + 6
    ensures
      || (b.year == a.year && (b.month == a.month || b.month == a.month + 1))
      || (b.year == a.year + 1 && a.month == 11 && b.month == 0)
  {
    YearOrder(a, b);
    DayNumberBounds(a);
    DayNumberBounds(b);
    if b.year == a.year {
      if b.month < a.month {
        DaysBeforeMonthMonotone(a.year, b.month + 1, a.month);
      } else if b.month > a.month + 1 {
        DaysBeforeMonthMonotone(a.year, a.month + 1, b.month);
        MonthStep(a.year, a.month);
      }
    } else {
      YearStep(a.year);
      DaysBeforeYearMonotone(a.year + 1, b.year);
      assert b.year == a.year + 1;
      if a.month < 11 {
        DaysBeforeMonthMonotone(a.year, a.month + 1, 11);
      }
      if b.month > 0 {
        DaysBeforeMonthMonotone(b.year, 0, b.month);
      }
    }
  }

  /** Lines 81-88 of the handler: by then `now` has been moved to the
      week's Saturday, so its month decides; from August on the year comes
      from a fresh clock reading (today), otherwise it is the Saturday's
      year minus one. The outcome is the season the Saturday belongs to. */
  function SeasonYear(today: CivilDate): (y: int)
    requires Valid(today)
    ensures y == SeasonOf(WeekEnd(today))
  {
    var saturday := WeekEnd(today);
    var currentYear := today.year;
    WithinAWeek(today, saturday);
    if saturday.month < 7 then saturday.year - 1 else currentYear
  }

  /** The season year differs from the season today belongs to exactly in
      a week that runs from July into August. */
  lemma SeasonYearAgainstToday(today: CivilDate)
    requires Valid(today)
    ensures SeasonYear(today) != SeasonOf(today) <==>
      today.month == 6 && WeekEnd(today).month == 7
  {
    WithinAWeek(today, WeekEnd(today));
  }

  /** A week running over New Year queries the season of its December
      days, whichever side of New Year today is on. */
  lemma NewYearWeekKeepsDecemberSeason(today: CivilDate)
    requires Valid(today)
    ensures WeekStart(today).year < WeekEnd(today).year ==> SeasonYear(today) == WeekStart(today).year
  {
    WithinAWeek(WeekStart(today), WeekEnd(today));
  }

  // ---------------------------------------------------------------------
  // formatDate
  // ---------------------------------------------------------------------

  /** Two-digit field of `formatDate`: `("" + n).padStart(2, "0")`. */
  function TwoDigitField(n: nat): (r: string)
    requires n < 100
    ensures |r| == 2 && AllDigits(r) && ParseNat(r) == n
  {
    var digits := NatToString(n);
    ParseNatToString(n);
    if |digits| == 1 then
      ParseNatLeadingZero(digits);
      assert PadStart(digits, 2, '0') == "0" + digits;
      PadStart(digits, 2, '0')
    else
      PadStart(digits, 2, '0')
  }

  /** Where the fields of `year-MM-DD` sit when month and day are two
      characters each. */
  lemma DateLayout(year: string, mm: string, dd: string)
    requires |mm| == 2 && |dd| == 2
    ensures var r := year + "-" + mm + "-" + dd;
      && |r| == |year| + 6
      && r[..|r| - 6] == year && r[|r| - 6] == '-'
      && r[|r| - 5..|r| - 3] == mm && r[|r| - 3] == '-'
      && r[|r| - 2..] == dd
  {
  }

  /** `formatDate`: the unpadded year, then month (1-based) and day of
      month, each padded to two digits, joined with `-`. */
  function FormatDate(d: CivilDate): (r: string)
    requires Valid(d)
    ensures |r| >= 7 && r[|r| - 6] == '-' && r[|r| - 3] == '-'
    ensures r[..|r| - 6] == IntToString(d.year)
  {
    var ys, mm, dd := IntToString(d.year), TwoDigitField(d.month + 1), TwoDigitField(d.day);
    DateLayout(ys, mm, dd);
    ys + "-" + mm + "-" + dd
  }

  /** The month field is the 1-based month and the day field the day of
      month, each as two digits (so they lie in 01..12 and 01..31); the
      year in front of them is not padded. */
  lemma FormatDateFields(d: CivilDate)
    requires Valid(d)
    ensures var r := FormatDate(d);
      && r[..|r| - 6] == IntToString(d.year)
      && r[|r| - 5..|r| - 3] == TwoDigitField(d.month + 1)
      && r[|r| - 2..] == TwoDigitField(d.day)
  {
    DateLayout(IntToString(d.year), TwoDigitField(d.month + 1), TwoDigitField(d.day));
  }

  /** The date named by the three fields of `year-MM-DD`, if they name one. */
  function DateOfFields(year: string, mm: string, dd: string): Option<CivilDate> {
    match ParseInt(year)
    case None => None
    case Some(y) =>
      if AllDigits(mm) && AllDigits(dd) && 1 <= ParseNat(mm) <= 12 then
        var d := CivilDate(y, ParseNat(mm) - 1, ParseNat(dd));
        if Valid(d) then Some(d) else None
      else None
  }

  /** Reads `year-MM-DD` back: a signed decimal year, then exactly two
      digits of month and two of day. */
  function ParseDate(s: string): Option<CivilDate> {
    if |s| < 7 || s[|s| - 6] != '-' || s[|s| - 3] != '-' then None
    else DateOfFields(s[..|s| - 6], s[|s| - 5..|s| - 3], s[|s| - 2..])
  }

  /** `formatDate` loses nothing: the date reads back from its rendering. */
  lemma ParseFormatDate(d: CivilDate)
    requires Valid(d)
    ensures ParseDate(FormatDate(d)) == Some(d)
  {
    FormatDateFields(d);
    ParseIntToString(d.year);
  }
}
