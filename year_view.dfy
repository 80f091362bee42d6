/**
 * The year view (Main.java, class YearCalendar): a year from 1600 on and the
 * twelve month views it prints one after another.
 */
module YearView {
  import CalendarMath
  import MonthView

  /** The exception the constructor throws. */
  datatype Error = IllegalArgument(message: string)

  /** A constructed value, or the exception thrown instead. */
  datatype Result<T> = Ok(value: T) | Err(error: Error)

  /** The first year the calendar accepts. */
  const MIN_YEAR: int := 1600

  /** A calendar year; only `NewYearCalendar` builds valid ones. */
  datatype YearCalendar = YearCalendar(year: int) {

    predicate Valid()
    {
      year >= MIN_YEAR
    }

    /** Whether the year has a 29 February. */
    function IsLeap(): (leap: bool)
      ensures leap <==> year % 400 == 0 || (year % 4 == 0 && year % 100 != 0)
    {
      CalendarMath.IsLeap(year)
    }

    /** The view of month m of this year; m is not checked. */
    function Month(m: int): (mc: MonthView.MonthCalendar)
      ensures mc.Valid() <==> 1 <= m <= 12
      ensures 1 <= m <= 12 ==> mc.Length() == CalendarMath.MonthLength(year, m)
    {
      MonthView.MonthCalendar(year, m)
    }
  }

  /** The constructor: years before 1600 are refused. */
  function NewYearCalendar(year: int): (r: Result<YearCalendar>)
    ensures r.Ok? <==> year >= MIN_YEAR
    ensures r.Ok? ==> r.value.year == year && r.value.Valid()
    ensures r.Err? ==> r.error == IllegalArgument("Год ≥ 1600")
  {
    if year < MIN_YEAR then Err(IllegalArgument("Год ≥ 1600"))
    else Ok(YearCalendar(year))
  }

  /** The days of the month views 1..m - 1 of a year, added up. */
  function DaysOfMonths(yc: YearCalendar, m: int): int
    requires 1 <= m <= 13
  {
    if m == 1 then 0 else DaysOfMonths(yc, m - 1) + yc.Month(m - 1).Length()
  }

  /** The twelve months of a year hold 366 days in a leap year and 365 otherwise. */
  lemma YearDays(yc: YearCalendar)
    ensures DaysOfMonths(yc, 13) == if yc.IsLeap() then 366 else 365
  {
    CalendarMath.MonthsFillYear(yc.year);
    MonthViewsCount(yc, 13);
  }

  /** The month views count the days that precede each month. */
  lemma {:induction false} MonthViewsCount(yc: YearCalendar, m: int)
    requires 1 <= m <= 13
    ensures DaysOfMonths(yc, m) == CalendarMath.DaysBeforeMonth(yc.year, m)
  {
    if m > 1 {
      MonthViewsCount(yc, m - 1);
    }
  }

  /**
   * Each month's grid starts in the column right after the last day of the
   * previous month's grid, and January of the next year continues December.
   */
  lemma MonthsChain(yc: YearCalendar, m: int)
    requires yc.Valid() && 1 <= m <= 12
    ensures m < 12 ==>
      yc.Month(m + 1).FirstWeekday() == (yc.Month(m).FirstWeekday() + yc.Month(m).Length()) % 7
    ensures m == 12 ==>
      YearCalendar(yc.year + 1).Month(1).FirstWeekday() == (yc.Month(12).FirstWeekday() + yc.Month(12).Length()) % 7
  {
    if m < 12 {
      CalendarMath.MonthStep(yc.year, m);
    } else {
      assert CalendarMath.MonthLength(yc.year, 12) == 31;
      ChainToNextYear(yc.year);
    }
  }

  /** January 1 of the next year follows December 31. */
  lemma ChainToNextYear(y: int)
    ensures CalendarMath.DayOfWeek(y + 1, 1, 1) == (CalendarMath.DayOfWeek(y, 12, 1) + 31) % 7
  {
    var t := CalendarMath.YearTerm(y);
    CalendarMath.DayOfWeekMod(y + 1, 1, 1);
    CalendarMath.DayOfWeekMod(y, 12, 1);
    assert CalendarMath.DayOfWeek(y + 1, 1, 1) == (t + 7) % 7;
    assert CalendarMath.DayOfWeek(y, 12, 1) == (t + 11) % 7;
    CalendarMath.AddMod7(t + 11, 31);
    CalendarMath.CongruentMod7(t + 42, t + 7, 5);
  }

  /** Every month of a valid year has a grid of 4 to 6 week rows. */
  lemma MonthGrids(yc: YearCalendar, m: int)
    requires yc.Valid() && 1 <= m <= 12
    ensures 4 <= MonthView.RowCount(yc.Month(m).FirstWeekday(), yc.Month(m).Length()) <= 6
  {
    MonthView.GridRows(yc.Month(m));
  }

  /** 1600 is the first year accepted; it is a leap year starting on a Saturday. */
  lemma FirstYear()
    ensures NewYearCalendar(1599).Err? && NewYearCalendar(1600).Ok?
    ensures NewYearCalendar(1600).value.IsLeap()
    ensures NewYearCalendar(1600).value.Month(1).FirstWeekday() == 5
  {
    CalendarMath.SaturdayExamples();
  }
}
