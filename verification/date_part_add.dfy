/**
 * `DatePart`, which reads one calendar field of a date, and `DateAdd`, which
 * picks the calendar field and amount to add to a date.
 */
module DateParts {
  import opened Outcomes
  import opened JavaInt
  import opened DateIntervals
  import opened DateFields
  import opened DateDiffs

  /** The field of one date that `DatePart` reports for an interval. */
  function PartOf(i: Interval, c: Stamp, firstDay: int, firstWeekType: int, rules: CalendarRules): (r: Result<int, DateFault>)
    ensures r.Err? <==> i == Week && !(1 <= firstWeekType <= 3)
    ensures r.Err? ==> r.error == InvalidFirstWeekType(firstWeekType)
    ensures i == Quarter && 0 <= c.month <= 11 ==> 1 <= r.value <= 4
    ensures i == Month && 0 <= c.month <= 11 ==> 1 <= r.value <= 12
    ensures i == Weekday && 1 <= c.dayOfWeek <= 7 && 1 <= firstDay <= 7 ==>
      1 <= r.value <= 7 && (r.value == 1 <==> c.dayOfWeek == firstDay)
    ensures i == Week && 1 <= firstWeekType <= 3 ==> r.value == rules.weekOfYear(c, firstDay, 3 * firstWeekType - 2)
  {
    match i
    case Year => Ok(c.year)
    case Quarter => Ok(GetQuarter(c.month))
    case Month => Ok(c.month + 1)
    case DayOfYear => Ok(c.dayOfYear)
    case Day => Ok(c.dayOfMonth)
    case Weekday => Ok(DayOfWeekToWeekDay(c.dayOfWeek, firstDay))
    case Week =>
      (match MinDaysInFirstWeek(firstWeekType)
       case Err(e) => Err(e)
       case Ok(minDays) => Ok(rules.weekOfYear(c, firstDay, minDays)))
    case Hour => Ok(c.hour)
    case Minute => Ok(c.minute)
    case Second => Ok(c.second)
  }

  /**
   * `DatePart(intv, date, firstDay, firstWeekType)`: null for a null date,
   * otherwise the field the trimmed interval names, or an error.
   */
  function DatePart(intv: string, date: Option<Stamp>, firstDay: int, firstWeekType: int, rules: CalendarRules): (r: Result<Option<int>, DateFault>)
    ensures date.None? ==> r == Ok(None)
    ensures date.Some? ==> (r.Err? <==> ParseInterval(intv).Err? || (ParseInterval(intv) == Ok(Week) && !(1 <= firstWeekType <= 3)))
    ensures date.Some? && r.Ok? ==> r.value.Some?
  {
    if date.None? then Ok(None)
    else
      match ParseInterval(intv)
      case Err(e) => Err(e)
      case Ok(i) =>
        match PartOf(i, date.value, firstDay, firstWeekType, rules)
        case Err(e) => Err(e)
        case Ok(v) => Ok(Some(v))
  }

  /**
   * Between dates in year order, the year, quarter and month differences of
   * `DateDiff` are differences of what `DatePart` reads, with four quarters
   * and twelve months to each year in between.
   */
  lemma DiffsMatchParts(c1: Stamp, c2: Stamp, firstDay: int, firstWeekType: int, rules: CalendarRules)
    requires c1.year <= c2.year
    ensures IntervalDiff(Year, c1, c2, firstDay, firstWeekType, rules).value
      == PartOf(Year, c2, firstDay, firstWeekType, rules).value - PartOf(Year, c1, firstDay, firstWeekType, rules).value
    ensures IntervalDiff(Quarter, c1, c2, firstDay, firstWeekType, rules).value
      == 4 * (c2.year - c1.year) + PartOf(Quarter, c2, firstDay, firstWeekType, rules).value - PartOf(Quarter, c1, firstDay, firstWeekType, rules).value
    ensures IntervalDiff(Month, c1, c2, firstDay, firstWeekType, rules).value
      == 12 * (c2.year - c1.year) + PartOf(Month, c2, firstDay, firstWeekType, rules).value - PartOf(Month, c1, firstDay, firstWeekType, rules).value
  {
    CalendarDiffsClosedForm(c1, c2, firstDay, firstWeekType, rules);
  }

  /** The `Calendar` fields `DateAdd` adds to. */
  datatype CalendarField = YearField | MonthField | DayOfYearField | DayOfWeekField | WeekOfYearField | HourField | MinuteField | SecondField

  /**
   * The field and amount `DateAdd` passes to `Calendar.add` for an interval:
   * a quarter is three months, computed in `int` (`val * 3`); both day
   * intervals add to the day of the year.
   */
  function AddStep(i: Interval, val: int): (step: (CalendarField, int))
    ensures i == Quarter ==> step.0 == MonthField && step.1 == Wrap32(3 * val)
    ensures i != Quarter ==> step.1 == val
    ensures IsInt32(val) ==> IsInt32(step.1)
  {
    match i
    case Year => (YearField, val)
    case Quarter => (MonthField, Wrap32(val * 3))
    case Month => (MonthField, val)
    case DayOfYear => (DayOfYearField, val)
    case Day => (DayOfYearField, val)
    case Weekday => (DayOfWeekField, val)
    case Week => (WeekOfYearField, val)
    case Hour => (HourField, val)
    case Minute => (MinuteField, val)
    case Second => (SecondField, val)
  }

  /** Adding quarters is adding three times as many months, as long as that many months is an `int`. */
  lemma QuartersAreThreeMonths(val: int)
    requires IsInt32(3 * val)
    ensures AddStep(Quarter, val) == AddStep(Month, 3 * val)
  {
  }

  /** Different intervals add to different fields, except the two day intervals, which add the same. */
  lemma AddStepFields(i: Interval, j: Interval, val: int)
    requires i != j && i != Quarter && j != Quarter
    ensures AddStep(i, val).0 == AddStep(j, val).0 <==> {i, j} == {Day, DayOfYear}
  {
  }

  /**
   * `DateAdd(intv, val, date)`: null for a null date, otherwise the field
   * and amount to add to the date, or an error for an unknown interval.
   */
  function DateAdd(intv: string, val: int, date: Option<Stamp>): (r: Result<Option<(CalendarField, int)>, DateFault>)
    ensures date.None? ==> r == Ok(None)
    ensures date.Some? ==> (r.Err? <==> ParseInterval(intv).Err?)
    ensures r.Err? ==> r.error == InvalidInterval(Trim(intv))
    ensures date.Some? && r.Ok? ==> r.value == Some(AddStep(ParseInterval(intv).value, val))
  {
    if date.None? then Ok(None)
    else
      match ParseInterval(intv)
      case Err(e) => Err(e)
      case Ok(i) => Ok(Some(AddStep(i, val)))
  }
}
