/**
 * Proleptic Gregorian calendar arithmetic (Main.java, class CalendarMath):
 * the leap-year rule, the days-in-month table, the month-name table and
 * Sakamoto's day-of-week formula with Monday as day 0.
 *
 * The Java code works on `int` with truncating `/` and `%`; the model keeps
 * those operators (module JavaInt) so that no function needs a bound on the
 * year. Lemmas that compare the formula with counted days need the shifted
 * year to be non-negative, which the year-view's floor of 1600 guarantees.
 */
module CalendarMath {
  import JavaInt

  /** Days in each month of a common year, January first. */
  const BASE_LENGTHS: seq<int> := [31, 28, 31, 30, 31, 30, 31, 31, 30, 31, 30, 31]

  /** Display names of the months, January first. */
  const MONTH_NAMES: seq<string> := [
    "январь", "февраль", "март", "апрель", "май", "июнь",
    "июль", "август", "сентябрь", "октябрь", "ноябрь", "декабрь"
  ]

  /** Sakamoto's per-month offsets, January first. */
  const SAKAMOTO_OFFSETS: seq<int> := [0, 3, 2, 5, 0, 3, 5, 1, 4, 6, 2, 4]

  /** The first year of the day count used as a reference for `DayOfWeek`. */
  const EPOCH_YEAR: int := 1600

  /** Weekday of EPOCH_YEAR-01-01 (a Saturday) with Monday as 0. */
  const EPOCH_WEEKDAY: int := 5

  /** Gregorian leap year: divisible by 400, or by 4 and not by 100. */
  function IsLeap(y: int): (leap: bool)
    ensures leap <==> y % 400 == 0 || (y % 4 == 0 && y % 100 != 0)
  {
    JavaInt.RemZero(y, 400);
    JavaInt.RemZero(y, 4);
    JavaInt.RemZero(y, 100);
    JavaInt.Rem(y, 400) == 0 || (JavaInt.Rem(y, 4) == 0 && JavaInt.Rem(y, 100) != 0)
  }

  /** Days in month m of year y: the table, with 29 for a leap February. */
  function MonthLength(y: int, m: int): (n: int)
    requires 1 <= m <= 12
    ensures 28 <= n <= 31
    ensures n == 31 <==> m in {1, 3, 5, 7, 8, 10, 12}
    ensures n == 30 <==> m in {4, 6, 9, 11}
    ensures m == 2 ==> (n == 29 <==> IsLeap(y))
  {
    if m == 2 && IsLeap(y) then 29 else BASE_LENGTHS[m - 1]
  }

  /** Display name of month m. */
  function MonthName(m: int): (name: string)
    requires 1 <= m <= 12
    ensures |name| >= 3
  {
    MONTH_NAMES[m - 1]
  }

  /** Sakamoto's year shift: January and February count as months of the previous year. */
  function MarchYear(y: int, m: int): int
  {
    if m < 3 then y - 1 else y
  }

  /** The year part of Sakamoto's sum, with Java's truncating division. */
  function YearTerm(y: int): int
  {
    y + JavaInt.Div(y, 4) - JavaInt.Div(y, 100) + JavaInt.Div(y, 400)
  }

  /**
   * Weekday of y-m-d with Monday as 0: Sakamoto's sum taken modulo 7 in Java,
   * normalised into 0..6 (Sunday as 0), then shifted so that Monday is 0.
   */
  function DayOfWeek(y: int, m: int, d: int): (w: int)
    requires 1 <= m <= 12
    ensures 0 <= w < 7
  {
    var y := MarchYear(y, m);
    var w := JavaInt.Rem(YearTerm(y) + SAKAMOTO_OFFSETS[m - 1] + d, 7);
    var w := JavaInt.Rem(w + 7, 7);
    JavaInt.Rem(w + 6, 7)
  }

  // ---------------------------------------------------------------------------
  // The weekday formula in Euclidean terms

  /**
   * The three Java remainders compose to one Euclidean remainder: the weekday
   * is Sakamoto's sum plus 6, modulo 7, for every year.
   */
  lemma DayOfWeekMod(y: int, m: int, d: int)
    requires 1 <= m <= 12
    ensures DayOfWeek(y, m, d) == (YearTerm(MarchYear(y, m)) + SAKAMOTO_OFFSETS[m - 1] + d + 6) % 7
  {
    var s := YearTerm(MarchYear(y, m)) + SAKAMOTO_OFFSETS[m - 1] + d;
    JavaInt.Normalize(s);
    var w := JavaInt.Rem(JavaInt.Rem(s, 7) + 7, 7);
    assert DayOfWeek(y, m, d) == JavaInt.Rem(w + 6, 7);
    JavaInt.NonNegative(w + 6, 7);
    AddMod7(s, 6);
  }

  /** Adding k after reducing modulo 7 is the same as adding k before. */
  lemma AddMod7(a: int, k: int)
    ensures (a % 7 + k) % 7 == (a + k) % 7
  {
    var q, r := a / 7, a % 7;
    assert a == 7 * q + r;
    var q', r' := (r + k) / 7, (r + k) % 7;
    assert r + k == 7 * q' + r';
    assert a + k == 7 * (q + q') + r';
  }

  /** Numbers that differ by a multiple of 7 have the same remainder. */
  lemma CongruentMod7(a: int, b: int, k: int)
    requires a == b + 7 * k
    ensures a % 7 == b % 7
  {
    var q, r := b / 7, b % 7;
    assert b == 7 * q + r && 0 <= r < 7;
    assert a == 7 * (q + k) + r;
  }

  /** Within a month the weekday advances by one per day (for every year). */
  lemma NextDay(y: int, m: int, d: int)
    requires 1 <= m <= 12
    ensures DayOfWeek(y, m, d + 1) == (DayOfWeek(y, m, d) + 1) % 7
  {
    var s := YearTerm(MarchYear(y, m)) + SAKAMOTO_OFFSETS[m - 1] + d + 6;
    DayOfWeekMod(y, m, d);
    DayOfWeekMod(y, m, d + 1);
    AddMod7(s, 1);
  }

  /** Day d of a month falls d - 1 days after the first of that month. */
  lemma DayInMonth(y: int, m: int, d: int)
    requires 1 <= m <= 12
    ensures DayOfWeek(y, m, d) == (DayOfWeek(y, m, 1) + d - 1) % 7
  {
    var s := YearTerm(MarchYear(y, m)) + SAKAMOTO_OFFSETS[m - 1] + 7;
    DayOfWeekMod(y, m, d);
    DayOfWeekMod(y, m, 1);
    AddMod7(s, d - 1);
  }

  /** Euclidean quotients by b grow by one exactly at the multiples of b. */
  lemma DivStep(x: int, b: int)
    requires x >= 1 && (b == 4 || b == 100 || b == 400)
    ensures x / b - (x - 1) / b == if x % b == 0 then 1 else 0
  {
    if b == 4 {
      QuotientStep4(x);
    } else if b == 100 {
      QuotientStep100(x);
    } else {
      QuotientStep400(x);
    }
  }

  /** `DivStep` for the divisor 4. */
  lemma QuotientStep4(x: int)
    ensures x / 4 - (x - 1) / 4 == if x % 4 == 0 then 1 else 0
  {
  }

  /** `DivStep` for the divisor 100. */
  lemma QuotientStep100(x: int)
    ensures x / 100 - (x - 1) / 100 == if x % 100 == 0 then 1 else 0
  {
  }

  /** `DivStep` for the divisor 400. */
  lemma QuotientStep400(x: int)
    ensures x / 400 - (x - 1) / 400 == if x % 400 == 0 then 1 else 0
  {
  }

  /** From one year to the next the year term grows by one, and by one more after a leap day. */
  lemma YearTermStep(x: int)
    requires x >= 1
    ensures YearTerm(x) == YearTerm(x - 1) + 1 + (if IsLeap(x) then 1 else 0)
  {
    JavaInt.NonNegative(x, 4);
    JavaInt.NonNegative(x, 100);
    JavaInt.NonNegative(x, 400);
    JavaInt.NonNegative(x - 1, 4);
    JavaInt.NonNegative(x - 1, 100);
    JavaInt.NonNegative(x - 1, 400);
    assert YearTerm(x) == x + x / 4 - x / 100 + x / 400;
    assert YearTerm(x - 1) == x - 1 + (x - 1) / 4 - (x - 1) / 100 + (x - 1) / 400;
    DivStep(x, 4);
    DivStep(x, 100);
    DivStep(x, 400);
    Multiple400Is100(x);
    Multiple100Is4(x);
  }

  /** Multiples of 400 are multiples of 100. */
  lemma Multiple400Is100(x: int)
    ensures x % 400 == 0 ==> x % 100 == 0
  {
  }

  /** Multiples of 100 are multiples of 4. */
  lemma Multiple100Is4(x: int)
    ensures x % 100 == 0 ==> x % 4 == 0
  {
  }

  /** Over 400 years the year term grows by 497 = 71 weeks. */
  lemma YearTermPeriod(x: int)
    requires x >= 0
    ensures YearTerm(x + 400) == YearTerm(x) + 497
  {
    JavaInt.NonNegative(x, 4);
    JavaInt.NonNegative(x, 100);
    JavaInt.NonNegative(x, 400);
    JavaInt.NonNegative(x + 400, 4);
    JavaInt.NonNegative(x + 400, 100);
    JavaInt.NonNegative(x + 400, 400);
  }

  // ---------------------------------------------------------------------------
  // An independent reference: counting days from EPOCH_YEAR-01-01

  /** Days in year y. */
  function YearLength(y: int): (n: int)
    ensures n == 365 || n == 366
    ensures n == 366 <==> IsLeap(y)
  {
    if IsLeap(y) then 366 else 365
  }

  /** Days of year y before the first of month m (m == 13: the whole year). */
  function DaysBeforeMonth(y: int, m: int): (n: int)
    requires 1 <= m <= 13
    ensures 28 * (m - 1) <= n <= 31 * (m - 1)
    decreases m
  {
    if m == 1 then 0 else DaysBeforeMonth(y, m - 1) + MonthLength(y, m - 1)
  }

  /** Days from EPOCH_YEAR-01-01 to the first of January of year y. */
  function DaysBeforeYear(y: int): (n: int)
    requires y >= EPOCH_YEAR
    ensures 365 * (y - EPOCH_YEAR) <= n <= 366 * (y - EPOCH_YEAR)
    decreases y - EPOCH_YEAR
  {
    if y == EPOCH_YEAR then 0 else DaysBeforeYear(y - 1) + YearLength(y - 1)
  }

  /** Days from EPOCH_YEAR-01-01 to y-m-d (day numbers outside the month count on linearly). */
  function DaysSinceEpoch(y: int, m: int, d: int): int
    requires y >= EPOCH_YEAR && 1 <= m <= 12
  {
    DaysBeforeYear(y) + DaysBeforeMonth(y, m) + d - 1
  }

  /** The twelve month lengths add up to the length of the year. */
  lemma {:induction false} MonthsFillYear(y: int)
    ensures DaysBeforeMonth(y, 13) == YearLength(y)
  {
    assert DaysBeforeMonth(y, 3) == 59 + (if IsLeap(y) then 1 else 0);
    assert DaysBeforeMonth(y, 6) == DaysBeforeMonth(y, 3) + 92;
    assert DaysBeforeMonth(y, 9) == DaysBeforeMonth(y, 6) + 92;
    assert DaysBeforeMonth(y, 13) == DaysBeforeMonth(y, 9) + 122;
  }

  /**
   * Sakamoto's offsets advance, from month m to month m + 1, by the length of
   * month m modulo 7 (for every month but February, whose step also moves the
   * shifted year).
   */
  lemma OffsetStep(y: int, m: int)
    requires 1 <= m < 12 && m != 2
    ensures SAKAMOTO_OFFSETS[m] == SAKAMOTO_OFFSETS[m - 1] + MonthLength(y, m) - 7 * (if m in {4, 7, 10} then 5 else 4)
  {
  }

  /** The first of month m + 1 falls MonthLength(y, m) days after the first of month m. */
  lemma MonthStep(y: int, m: int)
    requires y >= 1 && 1 <= m < 12
    ensures DayOfWeek(y, m + 1, 1) == (DayOfWeek(y, m, 1) + MonthLength(y, m)) % 7
  {
    var a := YearTerm(MarchYear(y, m)) + SAKAMOTO_OFFSETS[m - 1] + 7;
    var b := YearTerm(MarchYear(y, m + 1)) + SAKAMOTO_OFFSETS[m] + 7;
    var n := MonthLength(y, m);
    DayOfWeekMod(y, m, 1);
    DayOfWeekMod(y, m + 1, 1);
    if m == 2 {
      assert MarchYear(y, 2) == y - 1 && MarchYear(y, 3) == y;
      YearTermStep(y);
      assert n == 28 + (if IsLeap(y) then 1 else 0);
      CongruentMod7(b, a + n, -4);
    } else {
      assert MarchYear(y, m + 1) == MarchYear(y, m);
      OffsetStep(y, m);
      CongruentMod7(b, a + n, -(if m in {4, 7, 10} then 5 else 4));
    }
    AddMod7(a, n);
  }

  /** January 1st of year y + 1 falls YearLength(y) days after January 1st of year y. */
  lemma YearStep(y: int)
    requires y >= 1
    ensures DayOfWeek(y + 1, 1, 1) == (DayOfWeek(y, 1, 1) + YearLength(y)) % 7
  {
    var a := YearTerm(y - 1) + 7;
    var b := YearTerm(y) + 7;
    var n := YearLength(y);
    assert MarchYear(y, 1) == y - 1 && MarchYear(y + 1, 1) == y;
    DayOfWeekMod(y, 1, 1);
    DayOfWeekMod(y + 1, 1, 1);
    YearTermStep(y);
    CongruentMod7(b, a + n, -52);
    AddMod7(a, n);
  }

  /** Weekday of January 1st of year y, by counting days from the epoch. */
  lemma {:induction false} FirstOfYear(y: int)
    requires y >= EPOCH_YEAR
    ensures DayOfWeek(y, 1, 1) == (EPOCH_WEEKDAY + DaysBeforeYear(y)) % 7
    decreases y - EPOCH_YEAR
  {
    if y == EPOCH_YEAR {
      assert DayOfWeek(EPOCH_YEAR, 1, 1) == EPOCH_WEEKDAY;
    } else {
      FirstOfYear(y - 1);
      YearStep(y - 1);
      AddMod7(EPOCH_WEEKDAY + DaysBeforeYear(y - 1), YearLength(y - 1));
    }
  }

  /** Weekday of the first of month m of year y, by counting days from the epoch. */
  lemma {:induction false} FirstOfMonth(y: int, m: int)
    requires y >= EPOCH_YEAR && 1 <= m <= 12
    ensures DayOfWeek(y, m, 1) == (EPOCH_WEEKDAY + DaysBeforeYear(y) + DaysBeforeMonth(y, m)) % 7
  {
    if m == 1 {
      FirstOfYear(y);
    } else {
      FirstOfMonth(y, m - 1);
      MonthStep(y, m - 1);
      AddMod7(EPOCH_WEEKDAY + DaysBeforeYear(y) + DaysBeforeMonth(y, m - 1), MonthLength(y, m - 1));
    }
  }

  /**
   * Sakamoto's formula agrees with counting days: the weekday of y-m-d is
   * the epoch's weekday advanced by the number of days since the epoch.
   */
  lemma {:induction false} WeekdayCountsDays(y: int, m: int, d: int)
    requires y >= EPOCH_YEAR && 1 <= m <= 12
    ensures DayOfWeek(y, m, d) == (EPOCH_WEEKDAY + DaysSinceEpoch(y, m, d)) % 7
  {
    FirstOfMonth(y, m);
    DayInMonth(y, m, d);
    AddMod7(EPOCH_WEEKDAY + DaysBeforeYear(y) + DaysBeforeMonth(y, m), d - 1);
  }

  /** Leap years repeat every 400 years. */
  lemma LeapCycle(y: int)
    ensures IsLeap(y + 400) == IsLeap(y)
  {
    var q4, q100, q400 := y / 4, y / 100, y / 400;
    assert y + 400 == 4 * (q4 + 100) + y % 4;
    assert y + 400 == 100 * (q100 + 4) + y % 100;
    assert y + 400 == 400 * (q400 + 1) + y % 400;
  }

  /** Weekdays repeat every 400 years: 400 Gregorian years are 20871 whole weeks. */
  lemma FourHundredYearCycle(y: int, m: int, d: int)
    requires y >= 1 && 1 <= m <= 12
    ensures DayOfWeek(y + 400, m, d) == DayOfWeek(y, m, d)
  {
    var x := MarchYear(y, m);
    assert MarchYear(y + 400, m) == x + 400;
    var a := YearTerm(x) + SAKAMOTO_OFFSETS[m - 1] + d + 6;
    DayOfWeekMod(y, m, d);
    DayOfWeekMod(y + 400, m, d);
    YearTermPeriod(x);
    CongruentMod7(a + 497, a, 71);
  }

  // ---------------------------------------------------------------------------
  // Fixed points

  lemma LeapExamples()
    ensures IsLeap(1600) && IsLeap(2000) && IsLeap(2024) && IsLeap(2400)
    ensures !IsLeap(1900) && !IsLeap(2100) && !IsLeap(2023)
  {
  }

  lemma MonthLengthExamples()
    ensures MonthLength(2024, 2) == 29 && MonthLength(2023, 2) == 28 && MonthLength(1900, 2) == 28
    ensures MonthLength(2000, 2) == 29
  {
  }

  /** A month other than February has the same length in every year. */
  lemma MonthLengthIgnoresYear(y1: int, y2: int, m: int)
    requires 1 <= m <= 12 && m != 2
    ensures MonthLength(y1, m) == MonthLength(y2, m)
  {
  }

  /** 1600-01-01 (the epoch) and 2000-01-01 were Saturdays. */
  lemma SaturdayExamples()
    ensures DayOfWeek(EPOCH_YEAR, 1, 1) == EPOCH_WEEKDAY == 5
    ensures DayOfWeek(2000, 1, 1) == 5
  {
  }

  /** 2024-02-01 and 2024-02-29 were Thursdays, 2023-02-01 a Wednesday. */
  lemma FebruaryExamples()
    ensures DayOfWeek(2024, 2, 1) == 3
    ensures DayOfWeek(2024, 2, 29) == 3
    ensures DayOfWeek(2023, 2, 1) == 2
  {
  }

  /** No two months share a name. */
  lemma MonthNamesDistinct(m1: int, m2: int)
    requires 1 <= m1 <= 12 && 1 <= m2 <= 12 && m1 != m2
    ensures MonthName(m1) != MonthName(m2)
  {
  }
}
