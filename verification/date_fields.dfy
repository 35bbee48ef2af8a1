/**
 * The integer field arithmetic of the date functions, over the values a
 * `java.util.Calendar` reports: days of the week 1 (Sunday) to 7
 * (Saturday), months 0 (January) to 11, and the week settings `doWeekOp`
 * installs while it reads a week number.
 */
module DateFields {
  import opened Outcomes
  import opened JavaInt
  import opened DateIntervals

  /** `Calendar.JANUARY`. */
  const JANUARY: int := 0

  /**
   * `dayOfWeekToWeekDay`: the Calendar day of the week `day` renumbered so
   * that `firstDay` is day 1 of the week.
   */
  function DayOfWeekToWeekDay(day: int, firstDay: int): (r: int)
    ensures 1 <= day <= 7 && 1 <= firstDay <= 7 ==> 1 <= r <= 7 && (r - 1 - (day - firstDay)) % 7 == 0
    ensures 1 <= day <= 7 && 1 <= firstDay <= 7 ==> (r == 1 <==> day == firstDay)
  {
    JavaRem((day - 1) - (firstDay - 1) + 7, 7) + 1
  }

  /** `weekDayToDayOfWeek`: the Calendar day of the week that is day `weekday` of a week starting on `firstDay`. */
  function WeekDayToDayOfWeek(weekday: int, firstDay: int): (r: int)
    ensures 1 <= weekday <= 7 && 1 <= firstDay <= 7 ==> 1 <= r <= 7 && (r - 1 - (firstDay - 1 + weekday - 1)) % 7 == 0
  {
    JavaRem((firstDay - 1) + (weekday - 1), 7) + 1
  }

  /** Two numbers in 1..7 that agree modulo 7 are equal. */
  lemma SameDayOfWeek(a: int, b: int)
    requires 1 <= a <= 7 && 1 <= b <= 7 && (a - b) % 7 == 0
    ensures a == b
  {
    var d := a - b;
    assert -6 <= d <= 6;
    assert d == (d / 7) * 7 + d % 7;
  }

  /** Renumbering a day of the week and numbering it back gives the day again. */
  lemma WeekDayRoundTrip(day: int, firstDay: int)
    requires 1 <= day <= 7 && 1 <= firstDay <= 7
    ensures WeekDayToDayOfWeek(DayOfWeekToWeekDay(day, firstDay), firstDay) == day
  {
    var w := DayOfWeekToWeekDay(day, firstDay);
    var d := WeekDayToDayOfWeek(w, firstDay);
    assert (w - 1 - (day - firstDay)) % 7 == 0;
    assert (d - 1 - (firstDay - 1 + w - 1)) % 7 == 0;
    assert d - day == (d - 1 - (firstDay - 1 + w - 1)) + (w - 1 - (day - firstDay));
    SumOfMultiples(d - 1 - (firstDay - 1 + w - 1), w - 1 - (day - firstDay));
    SameDayOfWeek(d, day);
  }

  /** Numbering a week day as a day of the week and renumbering it gives the week day again. */
  lemma DayOfWeekRoundTrip(weekday: int, firstDay: int)
    requires 1 <= weekday <= 7 && 1 <= firstDay <= 7
    ensures DayOfWeekToWeekDay(WeekDayToDayOfWeek(weekday, firstDay), firstDay) == weekday
  {
    var d := WeekDayToDayOfWeek(weekday, firstDay);
    var w := DayOfWeekToWeekDay(d, firstDay);
    assert (d - 1 - (firstDay - 1 + weekday - 1)) % 7 == 0;
    assert (w - 1 - (d - firstDay)) % 7 == 0;
    assert w - weekday == (w - 1 - (d - firstDay)) + (d - 1 - (firstDay - 1 + weekday - 1));
    SumOfMultiples(w - 1 - (d - firstDay), d - 1 - (firstDay - 1 + weekday - 1));
    SameDayOfWeek(w, weekday);
  }

  lemma SumOfMultiples(a: int, b: int)
    requires a % 7 == 0 && b % 7 == 0
    ensures (a + b) % 7 == 0
  {
    assert a == (a / 7) * 7 && b == (b / 7) * 7;
    assert a + b == (a / 7 + b / 7) * 7;
  }

  /** `getQuarter`: the quarter (1 to 4) of a 0-based month. */
  function GetQuarter(month: int): (q: int)
    ensures 0 <= month <= 11 ==> 1 <= q <= 4 && 3 * (q - 1) <= month < 3 * q
  {
    JavaDiv(month, 3) + 1
  }

  /**
   * The "default" two-digit-year rule of `DateSerial`: years 0 to 29 are
   * read as 2000 to 2029, other years below 100 as 19xx, and years of 100
   * or more as given.
   */
  function TwoDigitYear(year: int): (r: int)
    ensures year >= 100 ==> r == year
    ensures year < 100 ==> r - year == (if year <= 29 then 2000 else 1900)
    ensures 0 <= year < 100 ==> 1930 <= r <= 2029 && r % 100 == year
  {
    if year < 100 then year + (if year <= 29 then 2000 else 1900) else year
  }

  /** A year the rule has already expanded is left alone. */
  lemma TwoDigitYearIdempotent(year: int)
    requires year >= 0
    ensures TwoDigitYear(TwoDigitYear(year)) == TwoDigitYear(year)
  {
  }

  /** The year, 0-based month and day of the month `DateSerial` sets on the calendar. */
  datatype CalendarDate = CalendarDate(year: int, month: int, dayOfMonth: int)

  /** `DateSerial`: the fields set on a cleared calendar, before the calendar resolves them to a date. */
  function DateSerialFields(year: int, month: int, day: int): (f: CalendarDate)
    ensures f.dayOfMonth == day && f.month + 1 == month
    ensures year >= 100 ==> f.year == year
    ensures 0 <= year < 100 ==> f.year % 100 == year && 1930 <= f.year <= 2029
  {
    CalendarDate(TwoDigitYear(year), month - 1, day)
  }

  /** The quarter of the month `DateSerial` sets is the quarter of the 1-based month passed in. */
  lemma DateSerialMonthRoundTrip(year: int, month: int, day: int)
    ensures 1 <= month <= 12 ==> GetQuarter(DateSerialFields(year, month, day).month) == (month + 2) / 3
  {
  }

  /**
   * The `minimalDaysInFirstWeek` setting for a first-week-of-year type
   * (`vbFirstJan1` 1, `vbFirstFourDays` 2, `vbFirstFullWeek` 3); any other
   * type is an error.
   */
  function MinDaysInFirstWeek(firstWeekType: int): (r: Result<int, DateFault>)
    ensures r.Err? <==> !(1 <= firstWeekType <= 3)
    ensures r.Err? ==> r.error == InvalidFirstWeekType(firstWeekType)
    ensures r.Ok? ==> r.value == 3 * firstWeekType - 2
  {
    match firstWeekType
    case 1 => Ok(1)
    case 2 => Ok(4)
    case 3 => Ok(7)
    case _ => Err(InvalidFirstWeekType(firstWeekType))
  }

  /**
   * `getWeekOfYearYear`: the year a week number belongs to. Week 52 or later
   * read in January belongs to the year before; week 1 read in any other
   * month belongs to the year after.
   */
  function WeekOfYearYear(year: int, month: int, weekOfYear: int): (r: int)
    ensures r - year in {-1, 0, 1}
    ensures r == year - 1 <==> month == JANUARY && weekOfYear >= 52
    ensures r == year + 1 <==> month != JANUARY && weekOfYear == 1
  {
    if month == JANUARY then
      if weekOfYear >= 52 then year - 1 else year
    else
      if weekOfYear == 1 then year + 1 else year
  }

  /**
   * The fields a `Calendar` reports for one date and time: the year, the
   * 0-based month, the day of the month, the day of the year, the day of the
   * week (1 = Sunday), the hour of the day and the minute, second and
   * millisecond.
   */
  datatype Stamp = Stamp(
    year: int, month: int, dayOfMonth: int, dayOfYear: int, dayOfWeek: int,
    hour: int, minute: int, second: int, millis: int)

  /**
   * `Calendar.after`: `a` is a later instant than `b`. Within one calendar the
   * instant is ordered by year, day of the year and time of day.
   */
  predicate After(a: Stamp, b: Stamp) {
    if a.year != b.year then a.year > b.year
    else if a.dayOfYear != b.dayOfYear then a.dayOfYear > b.dayOfYear
    else if a.hour != b.hour then a.hour > b.hour
    else if a.minute != b.minute then a.minute > b.minute
    else if a.second != b.second then a.second > b.second
    else a.millis > b.millis
  }

  /**
   * What the calendar library computes and the date functions only read:
   * the days in a year (`getActualMaximum(DAY_OF_YEAR)`), the week of the year
   * of a date, and the weeks in a year (`getActualMaximum(WEEK_OF_YEAR)`),
   * the last two under a first day of the week and a minimal number of days
   * in the first week.
   */
  datatype CalendarRules = CalendarRules(
    daysInYear: int -> int,
    weekOfYear: (Stamp, int, int) -> int,
    weeksInYear: (int, int, int) -> int)

  /** What `doWeekOp` reads: the week number, or the number of weeks in the year. */
  datatype WeekOp = GetWeek | GetNumWeeks

  /**
   * The week settings of a shared `Calendar` and what it reports under
   * them. How the calendar numbers weeks is library behaviour and is given
   * as the functions `weekOfYear` and `weeksInYear` of the two settings.
   */
  class WeekCalendar {
    var firstDayOfWeek: int
    var minimalDaysInFirstWeek: int
    const weekOfYear: (int, int) -> int
    const weeksInYear: (int, int) -> int

    constructor (firstDayOfWeek: int, minimalDaysInFirstWeek: int, weekOfYear: (int, int) -> int, weeksInYear: (int, int) -> int)
      ensures this.firstDayOfWeek == firstDayOfWeek && this.minimalDaysInFirstWeek == minimalDaysInFirstWeek
      ensures this.weekOfYear == weekOfYear && this.weeksInYear == weeksInYear
    {
      this.firstDayOfWeek := firstDayOfWeek;
      this.minimalDaysInFirstWeek := minimalDaysInFirstWeek;
      this.weekOfYear := weekOfYear;
      this.weeksInYear := weeksInYear;
    }

    /** What the calendar reports for `op` under its current settings. */
    function Read(op: WeekOp): int
      reads this
    {
      match op
      case GetWeek => weekOfYear(firstDayOfWeek, minimalDaysInFirstWeek)
      case GetNumWeeks => weeksInYear(firstDayOfWeek, minimalDaysInFirstWeek)
    }

    /**
     * `doWeekOp`: reads `op` with the week starting on `firstDay` and the
     * first week's minimal days taken from `firstWeekType`; the calendar's
     * own settings are put back afterwards, whether or not the type was valid.
     */
    method DoWeekOp(firstDay: int, firstWeekType: int, op: WeekOp) returns (r: Result<int, DateFault>)
      modifies this
      ensures firstDayOfWeek == old(firstDayOfWeek) && minimalDaysInFirstWeek == old(minimalDaysInFirstWeek)
      ensures r.Err? <==> MinDaysInFirstWeek(firstWeekType).Err?
      ensures r.Err? ==> r.error == InvalidFirstWeekType(firstWeekType)
      ensures r.Ok? ==> r.value == match op
        case GetWeek => weekOfYear(firstDay, MinDaysInFirstWeek(firstWeekType).value)
        case GetNumWeeks => weeksInYear(firstDay, MinDaysInFirstWeek(firstWeekType).value)
    {
      var origFirstDay := firstDayOfWeek;
      var origMinDays := minimalDaysInFirstWeek;
      var minDays := MinDaysInFirstWeek(firstWeekType);
      if minDays.Err? {
        r := Err(minDays.error);
      } else {
        firstDayOfWeek := firstDay;
        minimalDaysInFirstWeek := minDays.value;
        r := Ok(Read(op));
      }
      firstDayOfWeek := origFirstDay;
      minimalDaysInFirstWeek := origMinDays;
    }
  }
}
