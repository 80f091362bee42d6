/**
 * The month view (Main.java, class MonthCalendar): a (year, month) pair, the
 * derived month length and weekday of the first, and the grid of week rows
 * that the calendar prints. The grid builder fills 7-slot `int` arrays in
 * place and appends them to a list, as the Java code does; its result is
 * specified by `Layout`, the row-major reading of the grid.
 */
module MonthView {
  import CalendarMath

  // ---------------------------------------------------------------------------
  // The shape of a month grid

  /** n empty slots. */
  function Zeros(n: nat): seq<int>
  {
    seq(n, _ => 0)
  }

  /** The n consecutive day numbers lo, lo + 1, ..., lo + n - 1. */
  function DayRange(lo: int, n: nat): seq<int>
  {
    seq(n, i => lo + i)
  }

  /** Rows needed for `days` days when the first one sits in column `offset`. */
  function RowCount(offset: nat, days: nat): nat
  {
    (offset + days + 6) / 7
  }

  /**
   * The cells of a month grid read row by row: `offset` empty slots, the days
   * 1..days, then empty slots up to the end of the last row.
   */
  function Layout(offset: nat, days: nat): (cells: seq<int>)
  {
    Zeros(offset) + DayRange(1, days) + Zeros(7 * RowCount(offset, days) - offset - days)
  }

  /** The rows of a grid laid end to end. */
  function Flatten(rows: seq<seq<int>>): seq<int>
  {
    if rows == [] then [] else Flatten(rows[..|rows| - 1]) + rows[|rows| - 1]
  }

  /** The current contents of a list of row arrays. */
  function Rows(weeks: seq<array<int>>): (rows: seq<seq<int>>)
    reads weeks
    ensures |rows| == |weeks|
  {
    if weeks == [] then [] else Rows(weeks[..|weeks| - 1]) + [weeks[|weeks| - 1][..]]
  }

  /** The non-empty slots of a sequence of cells, in order. */
  function NonZero(s: seq<int>): seq<int>
  {
    if s == [] then [] else (if s[0] != 0 then [s[0]] else []) + NonZero(s[1..])
  }

  // ---------------------------------------------------------------------------
  // The month view

  /** A month of a year; the month must lie in 1..12 (the caller checks it). */
  datatype MonthCalendar = MonthCalendar(year: int, month: int) {

    predicate Valid()
    {
      1 <= month <= 12
    }

    /** Display name of the month. */
    function NameRu(): string
      requires Valid()
    {
      CalendarMath.MonthName(month)
    }

    /** Number of days in the month. */
    function Length(): (n: int)
      requires Valid()
      ensures 28 <= n <= 31
    {
      CalendarMath.MonthLength(year, month)
    }

    /** Weekday of the first of the month, Monday as 0. */
    function FirstWeekday(): (w: int)
      requires Valid()
      ensures 0 <= w < 7
    {
      CalendarMath.DayOfWeek(year, month, 1)
    }

    /**
     * The week rows of the month. The first row is filled from the column of
     * the first weekday, every later row from column 0, each until it is full
     * or the days run out; the loop ends once every day is placed.
     */
    method WeeksMatrix() returns (weeks: seq<array<int>>)
      requires Valid()
      ensures |weeks| == RowCount(FirstWeekday(), Length())
      ensures Weekly(weeks)
      ensures Flatten(Rows(weeks)) == Layout(FirstWeekday(), Length())
      ensures NonZero(Flatten(Rows(weeks))) == DayRange(1, Length())
      ensures weeks[0][..FirstWeekday()] == Zeros(FirstWeekday()) && weeks[0][FirstWeekday()] == 1
    {
      weeks := FillWeeks(FirstWeekday(), Length());
    }
  }

  /**
   * The grid-filling part of `MonthCalendar.WeeksMatrix`, for a first day in
   * column `offset` and a month of `days` days.
   */
  method FillWeeks(offset: int, days: int) returns (weeks: seq<array<int>>)
    requires 0 <= offset < 7 && days >= 1
    ensures |weeks| == RowCount(offset, days)
    ensures Weekly(weeks)
    ensures Flatten(Rows(weeks)) == Layout(offset, days)
    ensures NonZero(Flatten(Rows(weeks))) == DayRange(1, days)
    ensures weeks[0][..offset] == Zeros(offset) && weeks[0][offset] == 1
  {
    var row, day := FirstWeek(offset, days);
    AppendRow([], row);
    weeks := [row];
    while day <= days
      invariant |weeks| >= 1
      invariant Weekly(weeks)
      invariant Placed(Flatten(Rows(weeks)), |weeks|, offset, days, day)
      decreases days - day + 1
    {
      ghost var cells := Flatten(Rows(weeks));
      var next, after := NextWeek(cells, |weeks|, offset, days, day);
      AppendRow(weeks, next);
      weeks, day := weeks + [next], after;
    }
    AllPlaced(Flatten(Rows(weeks)), |weeks|, offset, days);
    FirstWeekStart(weeks, offset, days);
  }

  /** Every row of the grid is a week of 7 slots. */
  predicate Weekly(weeks: seq<array<int>>)
  {
    forall i :: 0 <= i < |weeks| ==> weeks[i].Length == 7
  }

  /**
   * The first turn of the builder: a row of empty slots filled from column
   * `offset` with the days from 1 on.
   */
  method FirstWeek(offset: nat, days: int) returns (row: array<int>, next: int)
    requires offset < 7 && days >= 1
    ensures row.Length == 7 && row[..offset] == Zeros(offset) && row[offset] == 1
    ensures 1 < next && Placed([] + row[..], 1, offset, days, next)
  {
    row := new int[7](_ => 0);
    assert row[..] == Zeros(7);
    next := FillRow(row, offset, 1, days);
    FirstRow(row[..], offset, days, next);
  }

  /**
   * A later turn of the builder: a fresh row filled from column 0 with the
   * days from `day` on, to follow the `rows` rows holding `cells`.
   */
  method NextWeek(ghost cells: seq<int>, ghost rows: nat, offset: nat, days: int, day: int)
    returns (row: array<int>, next: int)
    requires days >= 1 && day <= days
    requires Placed(cells, rows, offset, days, day)
    ensures row.Length == 7 && fresh(row)
    ensures day < next && Placed(cells + row[..], rows + 1, offset, days, next)
  {
    row := new int[7](_ => 0);
    assert row[..] == Zeros(7);
    next := FillRow(row, 0, day, days);
    NextRow(cells, row[..], rows, offset, days, day, next);
  }

  /**
   * Writes the days `day`, `day + 1`, ... into `row` from column `from` on,
   * until the row is full or the last day `days` is placed, and returns the
   * next day to place. Cells outside the written run keep their contents.
   */
  method FillRow(row: array<int>, from: int, day: int, days: int) returns (next: int)
    requires row.Length == 7 && 0 <= from <= 7 && 1 <= day <= days + 1
    modifies row
    ensures next == if days + 1 - day < 7 - from then days + 1 else day + 7 - from
    ensures row[..] == old(row[..])[..from] + DayRange(day, next - day) + old(row[..])[from + (next - day)..]
  {
    next := day;
    var c := from;
    while c < 7 && next <= days
      invariant from <= c <= 7 && next == day + (c - from) && next <= days + 1
      invariant row[..] == old(row[..])[..from] + DayRange(day, c - from) + old(row[..])[c..]
    {
      row[c] := next;
      next := next + 1;
      c := c + 1;
    }
  }

  // ---------------------------------------------------------------------------
  // Lemmas about the layout

  /** Appending a row array appends its contents to the flattened grid. */
  lemma AppendRow(weeks: seq<array<int>>, row: array<int>)
    ensures Rows(weeks + [row]) == Rows(weeks) + [row[..]]
    ensures Flatten(Rows(weeks + [row])) == Flatten(Rows(weeks)) + row[..]
  {
    var rows := Rows(weeks + [row]);
    assert rows[..|rows| - 1] == Rows(weeks);
  }

  /**
   * The state of the grid builder: `rows` rows whose cells, read row by row,
   * are the empty slots before day 1, the days 1..next - 1, and (only once
   * every day is placed) the empty slots closing the last row.
   */
  ghost predicate Placed(cells: seq<int>, rows: nat, offset: nat, days: nat, next: int)
  {
    && 1 <= next <= days + 1
    && 0 <= 7 * rows - offset - (next - 1) < 7
    && (next <= days ==> 7 * rows - offset - (next - 1) == 0)
    && cells == Zeros(offset) + DayRange(1, next - 1) + Zeros(7 * rows - offset - (next - 1))
  }

  /** The first row starts the grid: its empty slots, then day 1 onwards. */
  lemma FirstRow(row: seq<int>, offset: nat, days: nat, next: int)
    requires offset < 7 && days >= 1
    requires next == if days + 1 - 1 < 7 - offset then days + 1 else 1 + 7 - offset
    requires row == Zeros(7)[..offset] + DayRange(1, next - 1) + Zeros(7)[offset + (next - 1)..]
    ensures Placed([] + row, 1, offset, days, next)
    ensures row[..offset] == Zeros(offset) && row[offset] == 1
  {
    assert Zeros(7)[..offset] == Zeros(offset);
    assert Zeros(7)[offset + (next - 1)..] == Zeros(7 * 1 - offset - (next - 1));
  }

  /** Filling and appending one more row keeps the builder's state. */
  lemma NextRow(cells: seq<int>, row: seq<int>, rows: nat, offset: nat, days: nat, start: int, next: int)
    requires Placed(cells, rows, offset, days, start) && start <= days
    requires next == if days + 1 - start < 7 then days + 1 else start + 7
    requires row == Zeros(7)[..0] + DayRange(start, next - start) + Zeros(7)[0 + (next - start)..]
    ensures Placed(cells + row, rows + 1, offset, days, next)
  {
    var c := next - start;
    assert row == DayRange(start, c) + Zeros(7 - c);
    assert cells == Zeros(offset) + DayRange(1, start - 1) + Zeros(0);
    assert DayRange(1, start - 1) + DayRange(start, c) == DayRange(1, next - 1);
    assert 7 * (rows + 1) - offset - (next - 1) == 7 - c;
  }

  /** Once every day is placed, the builder has produced the month's layout. */
  lemma AllPlaced(cells: seq<int>, rows: nat, offset: nat, days: nat)
    requires Placed(cells, rows, offset, days, days + 1)
    ensures rows == RowCount(offset, days)
    ensures cells == Layout(offset, days)
    ensures NonZero(cells) == DayRange(1, days)
  {
    LayoutDays(offset, days);
  }

  /** The first row array holds the first cells of the grid. */
  lemma FirstWeekStart(weeks: seq<array<int>>, offset: nat, days: nat)
    requires |weeks| >= 1 && weeks[0].Length == 7 && offset < 7 && days >= 1
    requires Flatten(Rows(weeks)) == Layout(offset, days)
    ensures weeks[0][..offset] == Zeros(offset) && weeks[0][offset] == 1
  {
    RowsFirst(weeks);
    FlattenFirst(Rows(weeks));
    var cells := Layout(offset, days);
    assert cells[..7] == weeks[0][..];
    assert cells[..offset] == Zeros(offset) && cells[offset] == 1;
    assert weeks[0][..offset] == cells[..7][..offset];
  }

  /** The first row's contents come first in `Rows`. */
  lemma {:induction false} RowsFirst(weeks: seq<array<int>>)
    requires |weeks| >= 1
    ensures Rows(weeks)[0] == weeks[0][..]
  {
    if |weeks| > 1 {
      var init := weeks[..|weeks| - 1];
      RowsFirst(init);
      assert init[0] == weeks[0];
    }
  }

  /** A grid read row by row starts with its first row. */
  lemma {:induction false} FlattenFirst(rows: seq<seq<int>>)
    requires |rows| >= 1
    ensures |Flatten(rows)| >= |rows[0]| && Flatten(rows)[..|rows[0]|] == rows[0]
  {
    if |rows| > 1 {
      var init := rows[..|rows| - 1];
      FlattenFirst(init);
      assert init[0] == rows[0];
      assert Flatten(rows) == Flatten(init) + rows[|rows| - 1];
    }
  }

  /** Dropping empty slots distributes over concatenation. */
  lemma {:induction false} NonZeroAppend(s: seq<int>, t: seq<int>)
    ensures NonZero(s + t) == NonZero(s) + NonZero(t)
  {
    if s != [] {
      var head := if s[0] != 0 then [s[0]] else [];
      assert (s + t)[0] == s[0] && (s + t)[1..] == s[1..] + t;
      assert NonZero(s + t) == head + NonZero(s[1..] + t);
      NonZeroAppend(s[1..], t);
      assert head + (NonZero(s[1..]) + NonZero(t)) == (head + NonZero(s[1..])) + NonZero(t);
    } else {
      assert s + t == t;
    }
  }

  /** A run of empty slots contributes nothing. */
  lemma {:induction false} NonZeroZeros(n: nat)
    ensures NonZero(Zeros(n)) == []
  {
    if n > 0 {
      assert Zeros(n)[1..] == Zeros(n - 1);
      NonZeroZeros(n - 1);
    }
  }

  /** A run of positive day numbers is kept whole. */
  lemma {:induction false} NonZeroDays(lo: int, n: nat)
    requires lo >= 1
    ensures NonZero(DayRange(lo, n)) == DayRange(lo, n)
    decreases n
  {
    if n > 0 {
      assert DayRange(lo, n)[1..] == DayRange(lo + 1, n - 1);
      NonZeroDays(lo + 1, n - 1);
    }
  }

  /**
   * Read row by row, the non-empty cells of a month grid are exactly the days
   * 1..days, each once and in order.
   */
  lemma LayoutDays(offset: nat, days: nat)
    ensures NonZero(Layout(offset, days)) == DayRange(1, days)
  {
    var tail := 7 * RowCount(offset, days) - offset - days;
    NonZeroAppend(Zeros(offset) + DayRange(1, days), Zeros(tail));
    NonZeroAppend(Zeros(offset), DayRange(1, days));
    NonZeroZeros(offset);
    NonZeroZeros(tail);
    NonZeroDays(1, days);
  }

  /**
   * Cell i of the layout holds day i - offset + 1 when that is a day of the
   * month and is empty otherwise; the grid has the fewest rows that hold all
   * the days, so the trailing empty slots all lie in the last row.
   */
  lemma LayoutCells(offset: nat, days: nat)
    ensures |Layout(offset, days)| == 7 * RowCount(offset, days)
    ensures 7 * RowCount(offset, days) - 7 < offset + days <= 7 * RowCount(offset, days)
    ensures forall i :: 0 <= i < |Layout(offset, days)| ==>
      Layout(offset, days)[i] == if offset <= i < offset + days then i - offset + 1 else 0
  {
  }

  /**
   * With the first day in column 0..6, every empty slot lies before day 1 in
   * the first row or after the last day in the last row.
   */
  lemma EmptySlotsAtEnds(offset: nat, days: nat, i: nat)
    requires offset < 7 && days >= 1
    requires i < |Layout(offset, days)| && Layout(offset, days)[i] == 0
    ensures (i < offset && i < 7) || (offset + days <= i && i >= 7 * (RowCount(offset, days) - 1))
  {
    LayoutCells(offset, days);
  }

  /** A month grid has 4 to 6 rows; 4 only for a 28-day month starting on Monday. */
  lemma MonthRowCount(offset: nat, days: nat)
    requires offset < 7 && 28 <= days <= 31
    ensures 4 <= RowCount(offset, days) <= 6
    ensures RowCount(offset, days) == 4 <==> offset == 0 && days == 28
    ensures RowCount(offset, days) == 6 <==> offset + days > 35
  {
  }

  /** Every valid month's grid has 4 to 6 rows. */
  lemma GridRows(mc: MonthCalendar)
    requires mc.Valid()
    ensures 4 <= RowCount(mc.FirstWeekday(), mc.Length()) <= 6
  {
    MonthRowCount(mc.FirstWeekday(), mc.Length());
  }

  /** February 2024 starts on a Thursday, has 29 days and takes 5 rows; so does February 2023, starting on a Wednesday. */
  lemma FebruaryGrids()
    ensures MonthCalendar(2024, 2).FirstWeekday() == 3 && MonthCalendar(2024, 2).Length() == 29
    ensures RowCount(MonthCalendar(2024, 2).FirstWeekday(), MonthCalendar(2024, 2).Length()) == 5
    ensures MonthCalendar(2023, 2).FirstWeekday() == 2 && MonthCalendar(2023, 2).Length() == 28
    ensures RowCount(MonthCalendar(2023, 2).FirstWeekday(), MonthCalendar(2023, 2).Length()) == 5
  {
    CalendarMath.FebruaryExamples();
    CalendarMath.MonthLengthExamples();
  }

  // ---------------------------------------------------------------------------
  // Text helpers of the month view

  /** Every character of s is a blank. */
  predicate Blank(s: string)
  {
    forall i :: 0 <= i < |s| ==> s[i] == ' '
  }

  /** Every character of s is a decimal digit. */
  predicate Numeral(s: string)
  {
    forall i :: 0 <= i < |s| ==> '0' <= s[i] <= '9'
  }

  /** n blanks. */
  function Spaces(n: nat): (r: string)
    ensures |r| == n && Blank(r)
  {
    seq(n, _ => ' ')
  }

  /**
   * `s` padded on the left so that it sits in the middle of a field of width
   * `w`; a string at least as wide as the field is returned unchanged.
   */
  function Center(s: string, w: int): (r: string)
    ensures |r| >= |s| && r[|r| - |s|..] == s
    ensures Blank(r[..|r| - |s|])
    ensures |s| >= w ==> r == s
    ensures |s| < w ==> |r| <= w && (w - |r|) - (|r| - |s|) in {0, 1}
  {
    if |s| >= w then s
    else
      var left := (w - |s|) / 2;
      Spaces(left) + s
  }

  // ---------------------------------------------------------------------------
  // The text of one grid cell

  /** The character of decimal digit d. */
  function DigitChar(d: nat): (c: char)
    requires d < 10
    ensures '0' <= c <= '9' && c as int - '0' as int == d
  {
    "0123456789"[d]
  }

  /** The decimal numeral of n, without leading zeros ("0" for zero). */
  function Decimal(n: nat): (s: string)
    ensures 1 <= |s| && Numeral(s)
    ensures |s| == 1 <==> n < 10
  {
    if n < 10 then [DigitChar(n)] else Decimal(n / 10) + [DigitChar(n % 10)]
  }

  /** The value of a string of decimal digits; the empty string reads as 0. */
  function DecimalValue(s: string): nat
    requires Numeral(s)
  {
    if s == [] then 0
    else DecimalValue(s[..|s| - 1]) * 10 + (s[|s| - 1] as int - '0' as int)
  }

  /** Reading a numeral back gives the number it was written from. */
  lemma {:induction false} DecimalRoundTrip(n: nat)
    ensures DecimalValue(Decimal(n)) == n
  {
    if n >= 10 {
      var s := Decimal(n);
      assert s[..|s| - 1] == Decimal(n / 10);
      DecimalRoundTrip(n / 10);
    }
  }

  /** Numerals of numbers below 1000 have at most three digits. */
  lemma {:induction false} DecimalWidth(n: nat)
    requires n < 1000
    ensures |Decimal(n)| <= 3
    ensures |Decimal(n)| <= 2 <==> n < 100
  {
    if n >= 10 {
      DecimalWidth(n / 10);
    }
  }

  /** Java's `%d`: a minus sign for negative numbers, then the numeral. */
  function FormatInt(v: int): (s: string)
    ensures |s| >= 1 && (s[0] == '-' <==> v < 0)
  {
    if v < 0 then "-" + Decimal(-v) else Decimal(v)
  }

  /** `s` right-aligned in a field of width `w`; a wider string is kept whole. */
  function PadLeft(s: string, w: int): (r: string)
    ensures |r| == if |s| >= w then |s| else w
    ensures r[|r| - |s|..] == s && Blank(r[..|r| - |s|])
  {
    if |s| >= w then s else Spaces(w - |s|) + s
  }

  /**
   * The printed text of one grid cell: four blanks for an empty slot,
   * otherwise the day right-aligned in three columns and a blank (`%3d `).
   */
  function Cell(v: int): (c: string)
    ensures |c| >= 4 && c[|c| - 1] == ' '
  {
    if v == 0 then "    " else PadLeft(FormatInt(v), 3) + " "
  }

  /** A cell is all blanks exactly when its slot is empty. */
  lemma CellBlank(v: int)
    ensures Blank(Cell(v)) <==> v == 0
  {
    if v != 0 {
      var f := FormatInt(v);
      var c := Cell(v);
      assert c == PadLeft(f, 3) + " ";
      assert c[|c| - 1 - |f|] == f[0];
      if v > 0 {
        assert f == Decimal(v) && Numeral(f);
      }
    }
  }

  /** The decimal digits of a string, in order. */
  function DigitsOf(s: string): string
  {
    if s == [] then [] else (if '0' <= s[0] <= '9' then [s[0]] else []) + DigitsOf(s[1..])
  }

  /** The day number printed in a cell: the value of its digits, 0 for none. */
  function CellValue(c: string): nat
  {
    DigitsOfNumeral(c);
    DecimalValue(DigitsOf(c))
  }

  /** What `DigitsOf` keeps is digits only. */
  lemma {:induction false} DigitsOfNumeral(s: string)
    ensures Numeral(DigitsOf(s))
  {
    if s != [] {
      DigitsOfNumeral(s[1..]);
    }
  }

  /** Picking out the digits distributes over concatenation. */
  lemma {:induction false} DigitsOfAppend(s: string, t: string)
    ensures DigitsOf(s + t) == DigitsOf(s) + DigitsOf(t)
  {
    if s != [] {
      var head := if '0' <= s[0] <= '9' then [s[0]] else [];
      assert (s + t)[0] == s[0] && (s + t)[1..] == s[1..] + t;
      assert DigitsOf(s + t) == head + DigitsOf(s[1..] + t);
      DigitsOfAppend(s[1..], t);
      assert head + (DigitsOf(s[1..]) + DigitsOf(t)) == (head + DigitsOf(s[1..])) + DigitsOf(t);
    } else {
      assert s + t == t;
    }
  }

  /** Blanks hold no digits. */
  lemma {:induction false} DigitsOfSpaces(n: nat)
    ensures DigitsOf(Spaces(n)) == []
  {
    if n > 0 {
      assert Spaces(n)[1..] == Spaces(n - 1);
      DigitsOfSpaces(n - 1);
    }
  }

  /** A numeral is all digits. */
  lemma {:induction false} DigitsOfDecimal(n: nat)
    ensures DigitsOf(Decimal(n)) == Decimal(n)
  {
    var d := [DigitChar(n % 10)];
    assert DigitsOf(d) == d;
    if n >= 10 {
      DigitsOfAppend(Decimal(n / 10), d);
      DigitsOfDecimal(n / 10);
    }
  }

  /** A day's cell is its numeral right-aligned in three columns, then a blank. */
  lemma CellLayout(v: int)
    requires 0 < v < 1000
    ensures |Decimal(v)| <= 3
    ensures Cell(v) == (Spaces(3 - |Decimal(v)|) + Decimal(v)) + " "
  {
    var f := Decimal(v);
    DecimalWidth(v);
    var pad := Spaces(3 - |f|);
    assert FormatInt(v) == f;
    assert PadLeft(f, 3) == pad + f by {
      if |f| == 3 {
        assert pad == [];
      }
    }
  }

  /** Blanks around a numeral leave only the numeral's digits. */
  lemma PaddedDigits(k: nat, n: nat)
    ensures DigitsOf((Spaces(k) + Decimal(n)) + " ") == Decimal(n)
  {
    DigitsOfAppend(Spaces(k) + Decimal(n), " ");
    DigitsOfAppend(Spaces(k), Decimal(n));
    DigitsOfSpaces(k);
    DigitsOfDecimal(n);
    assert DigitsOf(" ") == [];
  }

  /** The digits of a day's cell are the day's numeral. */
  lemma CellDigits(v: int)
    requires 0 < v < 1000
    ensures |Cell(v)| == 4
    ensures DigitsOf(Cell(v)) == Decimal(v)
  {
    CellLayout(v);
    PaddedDigits(3 - |Decimal(v)|, v);
  }

  /**
   * Every cell of a month grid (a day 1..999 or an empty slot) prints four
   * characters wide, and the printed day can be read back from it.
   */
  lemma CellRoundTrip(v: int)
    requires 0 <= v < 1000
    ensures |Cell(v)| == 4
    ensures CellValue(Cell(v)) == v
  {
    if v == 0 {
      assert Cell(0) == Spaces(4);
      DigitsOfSpaces(4);
    } else {
      CellDigits(v);
      DecimalRoundTrip(v);
    }
  }

  /** The printed text of one grid row: its cells side by side. */
  function RowText(row: seq<int>): (text: string)
  {
    if row == [] then "" else RowText(row[..|row| - 1]) + Cell(row[|row| - 1])
  }

  /**
   * A row of cells holding days below 1000 or empty slots prints four
   * characters per cell; a week row of the grid is 28 characters wide.
   */
  lemma {:induction false} RowWidth(row: seq<int>)
    requires forall i :: 0 <= i < |row| ==> 0 <= row[i] < 1000
    ensures |RowText(row)| == 4 * |row|
  {
    if row != [] {
      RowWidth(row[..|row| - 1]);
      CellRoundTrip(row[|row| - 1]);
    }
  }
}
