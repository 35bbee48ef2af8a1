/**
 * `DateDiff`: how many interval boundaries lie between two dates. The two
 * dates are put in order first, and the result is negated when they were
 * swapped. Years are folded into the later date's count one year at a time.
 * Hours, minutes and seconds assume days of 24 hours.
 */
module DateDiffs {
  import opened Outcomes
  import opened JavaInt
  import opened DateIntervals
  import opened DateFields

  /** The units (quarters, months, days, weeks) in the years from `y1` up to, not including, `y2`; none when `y2 <= y1`. */
  function UnitsBetween(unitsIn: int -> int, y1: int, y2: int): int
    decreases y2 - y1
  {
    if y2 <= y1 then 0 else UnitsBetween(unitsIn, y1, y2 - 1) + unitsIn(y2 - 1)
  }

  /** With the same number of units in every year, the years between hold that many units each. */
  lemma {:induction false} UnitsBetweenConstant(unitsIn: int -> int, k: int, y1: int, y2: int)
    requires forall y :: unitsIn(y) == k
    requires y1 <= y2
    ensures UnitsBetween(unitsIn, y1, y2) == k * (y2 - y1)
    decreases y2 - y1
  {
    if y2 > y1 {
      UnitsBetweenConstant(unitsIn, k, y1, y2 - 1);
      assert k * (y2 - y1) == k * (y2 - 1 - y1) + k;
    }
  }

  /** Counting from `y0` to `y2` is counting to `y1` and then on to `y2`. */
  lemma {:induction false} UnitsBetweenSplit(unitsIn: int -> int, y0: int, y1: int, y2: int)
    requires y0 <= y1 <= y2
    ensures UnitsBetween(unitsIn, y0, y2) == UnitsBetween(unitsIn, y0, y1) + UnitsBetween(unitsIn, y1, y2)
    decreases y2 - y1
  {
    if y2 > y1 {
      UnitsBetweenSplit(unitsIn, y0, y1, y2 - 1);
    }
  }

  /** Years of at least `lo` units each add up to at least `lo` units a year. */
  lemma {:induction false} UnitsBetweenLower(unitsIn: int -> int, lo: int, y1: int, y2: int)
    requires y1 <= y2
    requires forall y :: y1 <= y < y2 ==> lo <= unitsIn(y)
    ensures lo * (y2 - y1) <= UnitsBetween(unitsIn, y1, y2)
    decreases y2 - y1
  {
    if y2 > y1 {
      UnitsBetweenLower(unitsIn, lo, y1, y2 - 1);
      assert lo * (y2 - y1) == lo * (y2 - 1 - y1) + lo;
    }
  }

  /** Years of at most `hi` units each add up to at most `hi` units a year. */
  lemma {:induction false} UnitsBetweenUpper(unitsIn: int -> int, hi: int, y1: int, y2: int)
    requires y1 <= y2
    requires forall y :: y1 <= y < y2 ==> unitsIn(y) <= hi
    ensures UnitsBetween(unitsIn, y1, y2) <= hi * (y2 - y1)
    decreases y2 - y1
  {
    if y2 > y1 {
      UnitsBetweenUpper(unitsIn, hi, y1, y2 - 1);
      assert hi * (y2 - y1) == hi * (y2 - 1 - y1) + hi;
    }
  }

  /**
   * The year loops of `DateDiff` and `getDayDiff`: while the later year is
   * past the earlier one, step it back a year and add the units of the year
   * stepped into to the later date's count.
   */
  method FoldYears(y1: int, y2: int, v2: int, unitsIn: int -> int) returns (v: int)
    ensures v == v2 + UnitsBetween(unitsIn, y1, y2)
  {
    var y := y2;
    v := v2;
    while y > y1
      invariant v + UnitsBetween(unitsIn, y1, y) == v2 + UnitsBetween(unitsIn, y1, y2)
      decreases y - y1
    {
      y := y - 1;
      v := v + unitsIn(y);
    }
  }

  const QuartersIn: int -> int := y => 4
  const MonthsIn: int -> int := y => 12

  /** The weeks in each year under the given week settings. */
  function WeeksIn(rules: CalendarRules, firstDay: int, minDays: int): int -> int {
    y => rules.weeksInYear(y, firstDay, minDays)
  }

  /** The day difference `getDayDiff` computes. */
  function DaysBetween(rules: CalendarRules, c1: Stamp, c2: Stamp): int {
    c2.dayOfYear + UnitsBetween(rules.daysInYear, c1.year, c2.year) - c1.dayOfYear
  }

  /** The hour difference `getHourDiff` computes. */
  function HoursBetween(rules: CalendarRules, c1: Stamp, c2: Stamp): int {
    c2.hour + 24 * DaysBetween(rules, c1, c2) - c1.hour
  }

  /** The minute difference `getMinuteDiff` computes, in exact arithmetic. */
  function MinutesBetween(rules: CalendarRules, c1: Stamp, c2: Stamp): int {
    c2.minute + 60 * HoursBetween(rules, c1, c2) - c1.minute
  }

  /** The second difference of `DateDiff("s", …)`, in exact arithmetic. */
  function SecondsBetween(rules: CalendarRules, c1: Stamp, c2: Stamp): int {
    c2.second + 60 * MinutesBetween(rules, c1, c2) - c1.second
  }

  /**
   * The week difference of `DateDiff("ww", …)`: the week numbers, with each
   * date's year moved to the year its week belongs to, and the weeks of the
   * years between added to the later one.
   */
  function WeeksBetween(rules: CalendarRules, c1: Stamp, c2: Stamp, firstDay: int, minDays: int): int {
    var w1 := rules.weekOfYear(c1, firstDay, minDays);
    var w2 := rules.weekOfYear(c2, firstDay, minDays);
    var y1 := WeekOfYearYear(c1.year, c1.month, w1);
    var y2 := WeekOfYearYear(c2.year, c2.month, w2);
    w2 + UnitsBetween(WeeksIn(rules, firstDay, minDays), y1, y2) - w1
  }

  /** `getDayDiff`. */
  method DayDiff(rules: CalendarRules, c1: Stamp, c2: Stamp) returns (r: int)
    ensures r == DaysBetween(rules, c1, c2)
  {
    var d2 := FoldYears(c1.year, c2.year, c2.dayOfYear, rules.daysInYear);
    r := d2 - c1.dayOfYear;
  }

  /** `getHourDiff`. */
  method HourDiff(rules: CalendarRules, c1: Stamp, c2: Stamp) returns (r: int)
    ensures r == HoursBetween(rules, c1, c2)
  {
    var dayDiff := DayDiff(rules, c1, c2);
    r := (c2.hour + 24 * dayDiff) - c1.hour;
  }

  /** `getMinuteDiff`, in exact arithmetic (see `MinuteDiffAsWritten` for the `int` one). */
  method MinuteDiff(rules: CalendarRules, c1: Stamp, c2: Stamp) returns (r: int)
    ensures r == MinutesBetween(rules, c1, c2)
  {
    var hourDiff := HourDiff(rules, c1, c2);
    r := (c2.minute + 60 * hourDiff) - c1.minute;
  }

  /** The two dates in order, and the sign to give the difference: -1 when they were swapped. */
  function Ordered(a: Stamp, b: Stamp): (Stamp, Stamp, int) {
    if After(a, b) then (b, a, -1) else (a, b, 1)
  }

  /** The difference, for one interval, between dates already in order. */
  function IntervalDiff(i: Interval, c1: Stamp, c2: Stamp, firstDay: int, firstWeekType: int, rules: CalendarRules): Result<int, DateFault> {
    match i
    case Year => Ok(c2.year - c1.year)
    case Quarter => Ok(GetQuarter(c2.month) + UnitsBetween(QuartersIn, c1.year, c2.year) - GetQuarter(c1.month))
    case Month => Ok(c2.month + UnitsBetween(MonthsIn, c1.year, c2.year) - c1.month)
    case DayOfYear => Ok(DaysBetween(rules, c1, c2))
    case Day => Ok(DaysBetween(rules, c1, c2))
    case Weekday => Ok(JavaDiv(DaysBetween(rules, c1, c2), 7))
    case Week =>
      (match MinDaysInFirstWeek(firstWeekType)
       case Err(e) => Err(e)
       case Ok(minDays) => Ok(WeeksBetween(rules, c1, c2, firstDay, minDays)))
    case Hour => Ok(HoursBetween(rules, c1, c2))
    case Minute => Ok(MinutesBetween(rules, c1, c2))
    case Second => Ok(SecondsBetween(rules, c1, c2))
  }

  /**
   * What `DateDiff(intv, date1, date2, firstDay, firstWeekType)` evaluates
   * to: null when either date is null, an error for an unknown interval or
   * (for weeks) an unknown first-week type, and otherwise the signed
   * difference.
   */
  function DateDiffOf(intv: string, date1: Option<Stamp>, date2: Option<Stamp>, firstDay: int, firstWeekType: int, rules: CalendarRules): Result<Option<int>, DateFault> {
    if date1.None? || date2.None? then Ok(None)
    else
      match ParseInterval(intv)
      case Err(e) => Err(e)
      case Ok(i) =>
        var (c1, c2, sign) := Ordered(date1.value, date2.value);
        match IntervalDiff(i, c1, c2, firstDay, firstWeekType, rules)
        case Err(e) => Err(e)
        case Ok(v) => Ok(Some(v * sign))
  }

  /** `DateDiff`. */
  method DateDiff(intv: string, date1: Option<Stamp>, date2: Option<Stamp>, firstDay: int, firstWeekType: int, rules: CalendarRules)
    returns (r: Result<Option<int>, DateFault>)
    ensures r == DateDiffOf(intv, date1, date2, firstDay, firstWeekType, rules)
  {
    if date1.None? || date2.None? {
      return Ok(None);
    }
    var parsed := ParseInterval(intv);
    if parsed.Err? {
      return Err(parsed.error);
    }
    var c1, c2, sign := date1.value, date2.value, 1;
    if After(c1, c2) {
      c1, c2, sign := c2, c1, -1;
    }
    var result: int;
    match parsed.value {
      case Year =>
        result := c2.year - c1.year;
      case Quarter =>
        var q2 := FoldYears(c1.year, c2.year, GetQuarter(c2.month), QuartersIn);
        result := q2 - GetQuarter(c1.month);
      case Month =>
        var m2 := FoldYears(c1.year, c2.year, c2.month, MonthsIn);
        result := m2 - c1.month;
      case DayOfYear =>
        result := DayDiff(rules, c1, c2);
      case Day =>
        result := DayDiff(rules, c1, c2);
      case Weekday =>
        var dayDiff := DayDiff(rules, c1, c2);
        result := JavaDiv(dayDiff, 7);
      case Week =>
        var minDays := MinDaysInFirstWeek(firstWeekType);
        if minDays.Err? {
          return Err(minDays.error);
        }
        var w1 := rules.weekOfYear(c1, firstDay, minDays.value);
        var y1 := WeekOfYearYear(c1.year, c1.month, w1);
        var w2 := rules.weekOfYear(c2, firstDay, minDays.value);
        var y2 := WeekOfYearYear(c2.year, c2.month, w2);
        var folded := FoldYears(y1, y2, w2, WeeksIn(rules, firstDay, minDays.value));
        result := folded - w1;
      case Hour =>
        result := HourDiff(rules, c1, c2);
      case Minute =>
        result := MinuteDiff(rules, c1, c2);
      case Second =>
        var minuteDiff := MinuteDiff(rules, c1, c2);
        result := (c2.second + 60 * minuteDiff) - c1.second;
    }
    r := Ok(Some(result * sign));
  }

  /** A date is at no distance from itself, in any interval. */
  lemma IntervalDiffSame(i: Interval, c: Stamp, firstDay: int, firstWeekType: int, rules: CalendarRules)
    ensures IntervalDiff(i, c, c, firstDay, firstWeekType, rules).Err? <==> i == Week && !(1 <= firstWeekType <= 3)
    ensures IntervalDiff(i, c, c, firstDay, firstWeekType, rules).Ok? ==> IntervalDiff(i, c, c, firstDay, firstWeekType, rules).value == 0
  {
  }

  /**
   * Swapping the two dates negates the difference and keeps the errors, for
   * any two dates that are the same or one after the other.
   */
  lemma DateDiffAntisymmetric(intv: string, a: Stamp, b: Stamp, firstDay: int, firstWeekType: int, rules: CalendarRules)
    requires a == b || After(a, b) || After(b, a)
    ensures DateDiffOf(intv, Some(a), Some(b), firstDay, firstWeekType, rules).Err? <==> DateDiffOf(intv, Some(b), Some(a), firstDay, firstWeekType, rules).Err?
    ensures DateDiffOf(intv, Some(a), Some(b), firstDay, firstWeekType, rules).Ok? ==>
      && DateDiffOf(intv, Some(a), Some(b), firstDay, firstWeekType, rules).value.Some?
      && DateDiffOf(intv, Some(b), Some(a), firstDay, firstWeekType, rules).value.Some?
      && DateDiffOf(intv, Some(a), Some(b), firstDay, firstWeekType, rules).value.value
         == -DateDiffOf(intv, Some(b), Some(a), firstDay, firstWeekType, rules).value.value
  {
    if ParseInterval(intv).Ok? {
      var i := ParseInterval(intv).value;
      if a == b {
        IntervalDiffSame(i, a, firstDay, firstWeekType, rules);
      } else if After(a, b) {
        assert !After(b, a);
      } else {
        assert After(b, a);
      }
    }
  }

  /** Quarters, months and years between ordered dates, in closed form. */
  lemma CalendarDiffsClosedForm(c1: Stamp, c2: Stamp, firstDay: int, firstWeekType: int, rules: CalendarRules)
    requires c1.year <= c2.year
    ensures IntervalDiff(Year, c1, c2, firstDay, firstWeekType, rules) == Ok(c2.year - c1.year)
    ensures IntervalDiff(Quarter, c1, c2, firstDay, firstWeekType, rules)
      == Ok(4 * (c2.year - c1.year) + GetQuarter(c2.month) - GetQuarter(c1.month))
    ensures IntervalDiff(Month, c1, c2, firstDay, firstWeekType, rules)
      == Ok(12 * (c2.year - c1.year) + c2.month - c1.month)
  {
    UnitsBetweenConstant(QuartersIn, 4, c1.year, c2.year);
    UnitsBetweenConstant(MonthsIn, 12, c1.year, c2.year);
  }

  /** The day number of a date, counted from the first day of year `base` (which is day 1). */
  function DayNumber(rules: CalendarRules, base: int, c: Stamp): int {
    UnitsBetween(rules.daysInYear, base, c.year) + c.dayOfYear
  }

  /** The second number of a time, counted on a line of 24-hour days from the start of year `base`. */
  function SecondNumber(rules: CalendarRules, base: int, c: Stamp): int {
    ((DayNumber(rules, base, c) * 24 + c.hour) * 60 + c.minute) * 60 + c.second
  }

  /**
   * The day, hour, minute and second differences are differences of
   * positions on one line of 24-hour days, whatever year that line is
   * counted from.
   */
  lemma DiffsOnTimeline(rules: CalendarRules, base: int, c1: Stamp, c2: Stamp)
    requires base <= c1.year <= c2.year
    ensures DaysBetween(rules, c1, c2) == DayNumber(rules, base, c2) - DayNumber(rules, base, c1)
    ensures HoursBetween(rules, c1, c2) == (DayNumber(rules, base, c2) * 24 + c2.hour) - (DayNumber(rules, base, c1) * 24 + c1.hour)
    ensures SecondsBetween(rules, c1, c2) == SecondNumber(rules, base, c2) - SecondNumber(rules, base, c1)
  {
    UnitsBetweenSplit(rules.daysInYear, base, c1.year, c2.year);
  }

  /** A date whose fields lie in their calendar ranges. */
  predicate WellFormed(rules: CalendarRules, c: Stamp) {
    && 1 <= c.dayOfYear <= rules.daysInYear(c.year)
    && 0 <= c.hour < 24 && 0 <= c.minute < 60 && 0 <= c.second < 60
  }

  /** Between ordered, well-formed dates the day, hour, minute and second differences are not negative. */
  lemma DiffsFollowOrder(rules: CalendarRules, c1: Stamp, c2: Stamp)
    requires WellFormed(rules, c1) && WellFormed(rules, c2) && !After(c1, c2)
    requires forall y :: c1.year <= y < c2.year ==> 0 <= rules.daysInYear(y)
    ensures 0 <= DaysBetween(rules, c1, c2)
    ensures 0 <= HoursBetween(rules, c1, c2)
    ensures 0 <= MinutesBetween(rules, c1, c2)
    ensures 0 <= SecondsBetween(rules, c1, c2)
  {
    if c1.year < c2.year {
      UnitsBetweenSplit(rules.daysInYear, c1.year, c1.year + 1, c2.year);
      UnitsBetweenLower(rules.daysInYear, 0, c1.year + 1, c2.year);
      assert UnitsBetween(rules.daysInYear, c1.year, c1.year + 1) == rules.daysInYear(c1.year);
      assert DaysBetween(rules, c1, c2) >= 1;
    }
  }

  /**
   * `DateDiff("s", …)` as written: `getDayDiff`, `getHourDiff`,
   * `getMinuteDiff` and the seconds step all compute in Java `int`, whose
   * `+`, `-` and `*` are arithmetic modulo 2^32, so every step is the exact
   * value wrapped.
   */
  function SecondDiffAsWritten(rules: CalendarRules, c1: Stamp, c2: Stamp): int {
    Wrap32((c2.second + 60 * MinuteDiffAsWritten(rules, c1, c2)) - c1.second)
  }

  /** `getMinuteDiff` as written, in `int`. */
  function MinuteDiffAsWritten(rules: CalendarRules, c1: Stamp, c2: Stamp): int {
    Wrap32((c2.minute + 60 * HourDiffAsWritten(rules, c1, c2)) - c1.minute)
  }

  /** `getHourDiff` as written, in `int`. */
  function HourDiffAsWritten(rules: CalendarRules, c1: Stamp, c2: Stamp): int {
    Wrap32((c2.hour + 24 * Wrap32(DaysBetween(rules, c1, c2))) - c1.hour)
  }

  /** The `int` computation returns the exact second difference wrapped to 32 bits. */
  lemma SecondDiffAsWrittenWraps(rules: CalendarRules, c1: Stamp, c2: Stamp)
    ensures HourDiffAsWritten(rules, c1, c2) == Wrap32(HoursBetween(rules, c1, c2))
    ensures MinuteDiffAsWritten(rules, c1, c2) == Wrap32(MinutesBetween(rules, c1, c2))
    ensures SecondDiffAsWritten(rules, c1, c2) == Wrap32(SecondsBetween(rules, c1, c2))
  {
    var d := DaysBetween(rules, c1, c2);
    WrapScaled(c2.hour - c1.hour, 24, d);
    var h := HoursBetween(rules, c1, c2);
    WrapScaled(c2.minute - c1.minute, 60, h);
    var m := MinutesBetween(rules, c1, c2);
    WrapScaled(c2.second - c1.second, 60, m);
  }

  /**
   * A hundred years of 365 or 366 days each hold more seconds than an `int`
   * can: `DateDiff("s", …)` as written comes out negative between two dates a
   * century apart at the same time of year, where the exact count is positive.
   */
  lemma SecondDiffOverflows(rules: CalendarRules, c1: Stamp, c2: Stamp)
    requires c2.year == c1.year + 100
    requires forall y :: c1.year <= y < c2.year ==> 365 <= rules.daysInYear(y) <= 366
    requires c1.dayOfYear == c2.dayOfYear && c1.hour == c2.hour && c1.minute == c2.minute && c1.second == c2.second
    ensures SecondsBetween(rules, c1, c2) > 0 > SecondDiffAsWritten(rules, c1, c2)
  {
    UnitsBetweenLower(rules.daysInYear, 365, c1.year, c2.year);
    UnitsBetweenUpper(rules.daysInYear, 366, c1.year, c2.year);
    var s := SecondsBetween(rules, c1, c2);
    assert s == 86400 * UnitsBetween(rules.daysInYear, c1.year, c2.year);
    SecondDiffAsWrittenWraps(rules, c1, c2);
    WrapOnce(s);
  }

  /** Days in a year of the Gregorian calendar. */
  function GregorianDaysInYear(year: int): int {
    if (year % 4 == 0 && year % 100 != 0) || year % 400 == 0 then 366 else 365
  }

  /** Midnight on 1 January of a year. */
  function NewYear(year: int): Stamp {
    Stamp(year, JANUARY, 1, 1, 1, 0, 0, 0, 0)
  }

  /** `DateDiff("s", #1/1/1900#, #1/1/2000#)`: 3155673600 seconds exactly, a negative `int` as written. */
  lemma SecondDiffCenturyExample()
    ensures SecondsBetween(CalendarRules(GregorianDaysInYear, (c, f, m) => 1, (y, f, m) => 52), NewYear(1900), NewYear(2000)) > 0
    ensures SecondDiffAsWritten(CalendarRules(GregorianDaysInYear, (c, f, m) => 1, (y, f, m) => 52), NewYear(1900), NewYear(2000)) < 0
  {
    var rules := CalendarRules(GregorianDaysInYear, (c, f, m) => 1, (y, f, m) => 52);
    SecondDiffOverflows(rules, NewYear(1900), NewYear(2000));
  }
}
