# Perpetual calendar, modelled in Dafny

The program prints a Gregorian wall calendar for one year: a header saying
whether the year is a leap year, then for each month a centred title, a row of
weekday names (Monday first) and the weeks of the month as rows of seven
slots. This project models its core:

- `CalendarMath` (`calendar_math.dfy`): the leap-year rule, month lengths,
  month names, and Sakamoto's day-of-week formula. The formula is written with
  Java's truncating `/` and `%`, which module `JavaInt` (`java_int.dfy`)
  spells out because Dafny's own operators are Euclidean. An independent
  reference counts days from 1600-01-01 (a Saturday), and the formula is
  proved to agree with it for every date from 1600 on.
- `MonthView` (`month_view.dfy`): the month view. It holds the month's
  length and the weekday of its first day, and builds the grid of week rows.
  As in the program, the grid is built by filling 7-slot `int` arrays and
  appending them to a list. The grid read row by row is specified by
  `Layout`: empty slots up to the first day's column, the days 1..n, then
  empty slots to the end of the last row. This module also holds the
  centring of the title and the text of one printed grid cell.
- `YearView` (`year_view.dfy`): the year view. Its constructor refuses years
  before 1600, it has the leap-year query, and it gives the twelve month
  views.

The two views have only `final` fields and never change after construction,
so they are datatypes. The grid rows are arrays that are written in place,
so the grid builder is a method with loops.

## Model

| member | source | states |
|---|---|---|
| JavaInt.Truncation | Main.java:31-33 | Java's `/` and `%` satisfy `a == b*(a/b) + a%b`, the remainder is smaller than the divisor in magnitude and has the sign of the dividend |
| JavaInt.RemZero | Main.java:10 | the `y % k == 0` tests of the leap rule (k = 4, 100, 400) mean "k divides y" for negative years as well |
| JavaInt.Normalize | Main.java:31-32 | Java's `(a % 7 + 7) % 7` is the non-negative remainder of a modulo 7 |
| CalendarMath.IsLeap | Main.java:9-11 | a year is leap exactly when it is divisible by 400, or by 4 but not by 100 |
| CalendarMath.LeapCycle | Main.java:9-11 | the leap rule repeats every 400 years |
| CalendarMath.LeapExamples | Main.java:9-11 | 1600, 2000, 2024 and 2400 are leap years; 1900, 2100 and 2023 are not |
| CalendarMath.MonthLength | Main.java:13-17 | every month has 28..31 days: 31 for months 1,3,5,7,8,10,12, 30 for 4,6,9,11, and February has 29 exactly in leap years |
| CalendarMath.MonthLengthIgnoresYear | Main.java:13-17 | every month except February has the same length in every year |
| CalendarMath.MonthLengthExamples | Main.java:13-17 | February has 29 days in 2024 and 2000 and 28 in 2023 and 1900 |
| CalendarMath.YearLength | Main.java:9-17 | a year has 366 days when it is leap and 365 otherwise |
| CalendarMath.MonthsFillYear | Main.java:13-17 | the twelve month lengths add up to the length of the year |
| CalendarMath.MonthName | Main.java:19-25 | every month 1..12 has a name of at least three letters |
| CalendarMath.MonthNamesDistinct | Main.java:19-25 | no two months share a name |
| CalendarMath.DayOfWeek | Main.java:27-33 | the weekday (Monday 0) is in 0..6 for every year, month 1..12 and day |
| CalendarMath.DayOfWeekMod | Main.java:27-33 | the three Java remainders compose to one Euclidean remainder: weekday = (year term + month offset + d + 6) mod 7, with January and February counted in the previous year |
| CalendarMath.NextDay | Main.java:27-33 | the next day of a month falls on the next weekday |
| CalendarMath.DayInMonth | Main.java:27-33 | day d of a month falls d - 1 weekdays after the first |
| CalendarMath.YearTermStep | Main.java:30 | from one year to the next, Sakamoto's year term grows by 1, plus 1 more when the new year is leap |
| CalendarMath.YearTermPeriod | Main.java:30 | over 400 years the year term grows by 497, which is 71 weeks |
| CalendarMath.MonthStep | Main.java:13-33 | the first of month m + 1 falls MonthLength(y, m) days after the first of month m |
| CalendarMath.YearStep | Main.java:9-33 | January 1 of year y + 1 falls YearLength(y) days after January 1 of year y |
| CalendarMath.FirstOfYear | Main.java:27-33 | from 1600 on, January 1 is the epoch's Saturday advanced by the days of all earlier years |
| CalendarMath.FirstOfMonth | Main.java:27-33 | from 1600 on, the first of each month is the epoch's Saturday advanced by the days counted to it |
| CalendarMath.WeekdayCountsDays | Main.java:27-33 | from 1600 on, Sakamoto's formula gives the epoch's weekday advanced by the number of days since 1600-01-01 |
| CalendarMath.FourHundredYearCycle | Main.java:27-33 | from year 1 on, each date falls on the same weekday 400 years later |
| CalendarMath.SaturdayExamples | Main.java:27-33 | 1600-01-01 and 2000-01-01 were Saturdays |
| CalendarMath.FebruaryExamples | Main.java:27-33 | 2024-02-01 and 2024-02-29 were Thursdays, and 2023-02-01 was a Wednesday |
| MonthView.MonthCalendar.Length | Main.java:45 | a month view has 28..31 days |
| MonthView.MonthCalendar.FirstWeekday | Main.java:47-49 | the first of the month lies in column 0..6 |
| MonthView.MonthCalendar.WeeksMatrix | Main.java:51-68 | the grid has RowCount rows of 7 slots. Read row by row it is `offset` empty slots, the days 1..n, then empty slots. Its non-empty slots are the days 1..n, each once and in order. The first row is empty before the first weekday's column and holds day 1 in that column |
| MonthView.FillWeeks | Main.java:51-68 | the same grid for any start column 0..6 and any day count of at least 1 |
| MonthView.FirstWeek | Main.java:57-60 | the first row is empty before column `offset`, holds day 1 in that column and then the following days until the row is full or the days run out |
| MonthView.NextWeek | Main.java:62-66 | each later row continues the days from column 0 and keeps the builder's state: every row but the last is full of days |
| MonthView.FillRow | Main.java:59-64 | the inner loop writes the next days into consecutive columns from its start column. It stops when the row is full or the last day is placed, and leaves the other slots unchanged |
| MonthView.AllPlaced | Main.java:62-67 | once every day is placed, the builder holds exactly RowCount rows and the month's layout |
| MonthView.LayoutDays | Main.java:51-68 | the non-empty slots of a layout are exactly the days 1..n, in order |
| MonthView.LayoutCells | Main.java:51-68 | slot i holds day i - offset + 1 when that is a day of the month and is empty otherwise. The grid has the fewest rows that hold every day |
| MonthView.EmptySlotsAtEnds | Main.java:57-66 | every empty slot lies before day 1 in the first row or after the last day in the last row |
| MonthView.MonthRowCount | Main.java:51-68 | a month of 28..31 days takes 4 to 6 rows. It takes 4 only for a 28-day month that starts on Monday, and 6 exactly when the first-day column plus the day count exceeds 35 |
| MonthView.GridRows | Main.java:47-68 | every valid month's grid has 4 to 6 rows |
| MonthView.FebruaryGrids | Main.java:47-68 | February 2024 starts in column 3, has 29 days and takes 5 rows. February 2023 starts in column 2, has 28 days and also takes 5 rows |
| MonthView.Spaces | Main.java:85 | `" ".repeat(n)` is n blanks |
| MonthView.Center | Main.java:82-86 | a string at least as wide as the field is returned unchanged. A shorter one gets only blanks in front of it, and its left margin is half the free width rounded down, so the right margin is equal or one wider |
| MonthView.Decimal | Main.java:76 | a numeral is one or more decimal digits, and has one digit exactly below 10 |
| MonthView.DecimalRoundTrip | Main.java:76 | reading a numeral back gives the number it was written from |
| MonthView.DecimalWidth | Main.java:76 | numbers below 1000 have at most three digits, and at most two exactly below 100 |
| MonthView.FormatInt | Main.java:76 | `%d` starts with a minus sign exactly for negative numbers |
| MonthView.PadLeft | Main.java:76 | `%3d` right-aligns in three columns: blanks, then the numeral. A wider numeral is kept whole |
| MonthView.Cell | Main.java:76 | every printed cell is at least four characters wide and ends with a blank |
| MonthView.CellBlank | Main.java:76 | a cell prints only blanks exactly when its slot is empty (0) |
| MonthView.CellRoundTrip | Main.java:76 | cells for 0..999 are exactly four characters wide, and the day printed in a cell reads back as the slot's value |
| MonthView.RowWidth | Main.java:74-78 | a row of slots holding 0..999 prints four characters per slot, so a week row is 28 characters wide |
| YearView.NewYearCalendar | Main.java:91-94 | the constructor succeeds exactly for years from 1600 on and keeps the year. Otherwise it throws IllegalArgumentException("Год ≥ 1600") |
| YearView.YearCalendar.IsLeap | Main.java:97 | the year view's leap flag follows the Gregorian rule |
| YearView.YearCalendar.Month | Main.java:98 | month m of the year is a valid month view exactly when m is 1..12, and its length is that month's length in this year |
| YearView.YearDays | Main.java:97-104 | the twelve month views of a year hold 366 days in a leap year and 365 otherwise |
| YearView.MonthViewsCount | Main.java:98-104 | the month views 1..m - 1 hold the days that precede month m |
| YearView.MonthsChain | Main.java:98-106 | each month's first day falls right after the last day of the month printed before it, and January of the next year continues December |
| YearView.ChainToNextYear | Main.java:27-33 | January 1 of year y + 1 falls 31 days after December 1 of year y |
| YearView.MonthGrids | Main.java:98-104 | every month printed for a valid year has 4 to 6 week rows |
| YearView.FirstYear | Main.java:91-97 | 1599 is refused and 1600 is accepted. 1600 is a leap year whose January starts on a Saturday |

## Left out

- Printing: `MonthCalendar.print` and `YearCalendar.print` (Main.java:70-80 and 100-107) write to standard output. The model has the texts they are built from (`Center`, `Cell`, `RowText`), not the output stream.
- The upper-casing of the month title with a locale (Main.java:71), the Russian weekday header (Main.java:73) and the year header strings (Main.java:101-102) are left out. They are fixed text or locale-dependent library behaviour.
- `Main.main` (Main.java:110-119) is left out: command-line handling and `Integer.parseInt`. The year reaches `NewYearCalendar` as a parameter.
- 32-bit `int` overflow is not modelled; all arithmetic is unbounded. Years accepted by the program overflow nothing in these formulas below about 1.7 billion.
- Invalid month numbers: Java's `monthLength`, `monthNameRu` and `dayOfWeekSakamotoMon0` throw ArrayIndexOutOfBoundsException for a month outside 1..12. The model makes month 1..12 a precondition (`MonthCalendar.Valid`) instead. `YearCalendar.Month` itself accepts any m, as in Java.
- MonthView.MonthCalendar.WeeksMatrix: does not state that the returned row arrays are distinct objects. Each is freshly allocated, but proving their pairwise distinctness in the loop was too costly for the verifier.
- CalendarMath.FourHundredYearCycle, CalendarMath.MonthStep, CalendarMath.YearStep: stated for years from 1 on. For year 0 and earlier, January and February move to a negative year, where Java's truncating division makes Sakamoto's year term differ from the Gregorian count. The program never reaches those years, because the constructor refuses years before 1600.
- CalendarMath.WeekdayCountsDays, CalendarMath.FirstOfYear, CalendarMath.FirstOfMonth: stated from 1600 on, the first year the program accepts and the epoch of the day count.
- MonthView.MonthCalendar.NameRu has no contract of its own. It returns `CalendarMath.MonthName(month)`, whose properties are stated there.
