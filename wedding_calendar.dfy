/**
 * The month grid and date header of the wedding calendar. The weekday of the
 * 1st, the month length and the date parts are inputs: the Date arithmetic
 * that produces them is not modelled.
 */
module WeddingCalendar {
  import opened Wrappers
  import Decimal

  /** A grid cell: a day of the month, or `null` for a blank. */
  type Cell = Option<int>

  /** Closed form of the cell at row-major position `index`: day `index - firstDay + 1` when that is a day of the month. */
  function FlatCell(firstDay: int, daysInMonth: int, index: int): Cell {
    var v := index - firstDay + 1;
    if 1 <= v <= daysInMonth then Some(v) else None
  }

  /** The cell in week `week`, column `weekday` (0 = Sunday). */
  function CellValue(firstDay: int, daysInMonth: int, week: int, weekday: int): Cell {
    FlatCell(firstDay, daysInMonth, 7 * week + weekday)
  }

  /** The first `n` weeks of the grid, seven cells each. */
  function GridRows(firstDay: int, daysInMonth: int, n: nat): seq<seq<Cell>> {
    seq(n, w => seq(7, d => CellValue(firstDay, daysInMonth, w, d)))
  }

  /** The whole six-week grid. */
  function CalendarGrid(firstDay: int, daysInMonth: int): seq<seq<Cell>> {
    GridRows(firstDay, daysInMonth, 6)
  }

  /** How many days the generator has placed before row-major position `index`. */
  function Placed(firstDay: int, daysInMonth: int, index: int): nat {
    var k := if index - firstDay < daysInMonth then index - firstDay else daysInMonth;
    if k < 0 then 0 else k
  }

  /**
   * `generateCalendar`: six weeks of seven cells, blanks before the 1st in the
   * first week, then the days counted up until the month runs out, then blanks.
   */
  method GenerateCalendar(firstDay: int, daysInMonth: int) returns (calendar: seq<seq<Cell>>)
    requires 0 <= firstDay <= 6
    ensures |calendar| == 6 && forall w :: 0 <= w < 6 ==> |calendar[w]| == 7
    ensures forall w, d :: 0 <= w < 6 && 0 <= d < 7 ==> calendar[w][d] == CellValue(firstDay, daysInMonth, w, d)
    ensures forall d :: 0 <= d < firstDay ==> calendar[0][d] == None
    ensures forall w, d :: 0 <= w < 6 && 0 <= d < 7 && 7 * w + d >= firstDay + daysInMonth ==> calendar[w][d] == None
    ensures calendar == CalendarGrid(firstDay, daysInMonth)
  {
    calendar := [];
    var day := 1;
    for week := 0 to 6
      invariant calendar == GridRows(firstDay, daysInMonth, week)
      invariant day == 1 + Placed(firstDay, daysInMonth, 7 * week)
    {
      var row := [];
      for weekday := 0 to 7
        invariant row == seq(weekday, d => CellValue(firstDay, daysInMonth, week, d))
        invariant day == 1 + Placed(firstDay, daysInMonth, 7 * week + weekday)
      {
        if week == 0 && weekday < firstDay {
          row := row + [None];
        } else if day > daysInMonth {
          row := row + [None];
        } else {
          row := row + [Some(day)];
          day := day + 1;
        }
      }
      calendar := calendar + [row];
    }
  }

  /** The grid read row-major. */
  function Flatten(grid: seq<seq<Cell>>): seq<Cell> {
    if grid == [] then [] else Flatten(grid[..|grid| - 1]) + grid[|grid| - 1]
  }

  /** The non-blank cells of a row-major reading, in order. */
  function Days(cells: seq<Cell>): seq<int> {
    if cells == [] then []
    else Days(cells[..|cells| - 1]) + match cells[|cells| - 1] { case Some(v) => [v] case None => [] }
  }

  /** The first `n` row-major cells, by the closed form. */
  function FlatCells(firstDay: int, daysInMonth: int, n: nat): seq<Cell> {
    seq(n, i => FlatCell(firstDay, daysInMonth, i))
  }

  lemma {:induction false} FlattenGridRows(firstDay: int, daysInMonth: int, n: nat)
    ensures Flatten(GridRows(firstDay, daysInMonth, n)) == FlatCells(firstDay, daysInMonth, 7 * n)
  {
    if n > 0 {
      var g := GridRows(firstDay, daysInMonth, n);
      FlattenGridRows(firstDay, daysInMonth, n - 1);
      assert g[..n - 1] == GridRows(firstDay, daysInMonth, n - 1);
      assert FlatCells(firstDay, daysInMonth, 7 * n)
          == FlatCells(firstDay, daysInMonth, 7 * (n - 1)) + g[n - 1];
    }
  }

  lemma {:induction false} DaysOfFlatCells(firstDay: int, daysInMonth: int, n: nat)
    requires firstDay >= 0 && daysInMonth >= 0
    ensures Days(FlatCells(firstDay, daysInMonth, n)) == seq(Placed(firstDay, daysInMonth, n), k => k + 1)
  {
    if n > 0 {
      var cells := FlatCells(firstDay, daysInMonth, n);
      DaysOfFlatCells(firstDay, daysInMonth, n - 1);
      assert cells[..n - 1] == FlatCells(firstDay, daysInMonth, n - 1);
      var before := Placed(firstDay, daysInMonth, n - 1);
      assert Days(cells) == Days(cells[..n - 1]) + match cells[n - 1] { case Some(v) => [v] case None => [] };
      assert cells[n - 1] == FlatCell(firstDay, daysInMonth, n - 1);
      match FlatCell(firstDay, daysInMonth, n - 1)
      case Some(v) =>
        assert v == before + 1 && Placed(firstDay, daysInMonth, n) == before + 1;
        assert seq(before, k => k + 1) + [v] == seq(before + 1, k => k + 1);
      case None =>
        assert Placed(firstDay, daysInMonth, n) == before;
    }
  }

  /**
   * Read row-major, the non-blank cells of the grid are exactly 1, 2, ...,
   * daysInMonth, each once and in order, for every possible weekday of the 1st
   * and every month length.
   */
  lemma CalendarListsEachDayOnce(firstDay: int, daysInMonth: int)
    requires 0 <= firstDay <= 6 && 0 <= daysInMonth <= 31
    ensures Days(Flatten(CalendarGrid(firstDay, daysInMonth))) == seq(daysInMonth, k => k + 1)
  {
    FlattenGridRows(firstDay, daysInMonth, 6);
    DaysOfFlatCells(firstDay, daysInMonth, 42);
  }

  /** The highlight test on a cell: its value is the wedding's day of the month (a blank never is). */
  predicate IsHighlighted(cell: Cell, weddingDay: int) {
    cell == Some(weddingDay)
  }

  /**
   * Exactly one cell is highlighted: the one whose row-major position is
   * `firstDay + weddingDay - 1`, which lies inside the grid.
   */
  lemma HighlightedExactlyOnce(firstDay: int, daysInMonth: int, weddingDay: int)
    requires 0 <= firstDay <= 6 && daysInMonth <= 31 && 1 <= weddingDay <= daysInMonth
    ensures 0 <= firstDay + weddingDay - 1 < 42
    ensures forall w, d :: 0 <= w < 6 && 0 <= d < 7 ==>
              (IsHighlighted(CalendarGrid(firstDay, daysInMonth)[w][d], weddingDay) <==> 7 * w + d == firstDay + weddingDay - 1)
  {
  }

  const Weekdays: seq<string> := ["SUN", "MON", "TUE", "WED", "THU", "FRI", "SAT"]

  /** The header `YYYY.MM.DD WDY`, from the year, the 0-based month, the day of the month and the weekday. */
  function FormattedDate(year: int, monthIndex: nat, dayOfMonth: nat, weekday: int): string
    requires 0 <= weekday < 7
  {
    Decimal.IntToString(year) + "." + Decimal.PadStart(Decimal.NatToString(monthIndex + 1), 2, '0')
    + "." + Decimal.PadStart(Decimal.NatToString(dayOfMonth), 2, '0') + " " + Weekdays[weekday]
  }

  /**
   * `r` is `y.mm.dd w`: the digits of `year` (`n` of them), a dot, two digits
   * for `month`, a dot, two digits for `day`, a space and `w`.
   */
  ghost predicate HeaderFields(r: string, n: nat, year: nat, month: nat, day: nat, w: string) {
    |r| == n + 7 + |w|
    && Decimal.ReadsAs(r[..n], year)
    && r[n] == '.' && r[n + 3] == '.' && r[n + 6] == ' '
    && Decimal.ReadsAs(r[n + 1..n + 3], month)
    && Decimal.ReadsAs(r[n + 4..n + 6], day)
    && r[n + 7..] == w
  }

  /**
   * The header splits back into its fields: the year's digits, the 1-based
   * month and the day as two digits each, and the weekday's three-letter name.
   */
  lemma FormattedDateFields(year: nat, monthIndex: nat, dayOfMonth: nat, weekday: int)
    requires monthIndex < 12 && 1 <= dayOfMonth <= 31 && 0 <= weekday < 7
    ensures HeaderFields(FormattedDate(year, monthIndex, dayOfMonth, weekday), |Decimal.NatToString(year)|,
                         year, monthIndex + 1, dayOfMonth, Weekdays[weekday])
  {
    var y := Decimal.NatToString(year);
    var m := Decimal.PadStart(Decimal.NatToString(monthIndex + 1), 2, '0');
    var d := Decimal.PadStart(Decimal.NatToString(dayOfMonth), 2, '0');
    var w := Weekdays[weekday];
    var r := FormattedDate(year, monthIndex, dayOfMonth, weekday);
    assert r == y + "." + m + "." + d + " " + w by {
      assert Decimal.IntToString(year) == y;
    }
    assert Decimal.ReadsAs(y, year) by { Decimal.NatToStringRoundTrip(year); }
    assert |m| == 2 && Decimal.ReadsAs(m, monthIndex + 1) by { Decimal.TwoDigits(monthIndex + 1); }
    assert |d| == 2 && Decimal.ReadsAs(d, dayOfMonth) by { Decimal.TwoDigits(dayOfMonth); }
    HeaderLayout(r, y, m, d, w, year, monthIndex + 1, dayOfMonth);
  }

  /** Where the fields of `y.m.d w` sit, for two-character `m` and `d`. */
  lemma HeaderLayout(r: string, y: string, m: string, d: string, w: string, year: nat, month: nat, day: nat)
    requires r == y + "." + m + "." + d + " " + w
    requires |m| == 2 && |d| == 2
    requires Decimal.ReadsAs(y, year) && Decimal.ReadsAs(m, month) && Decimal.ReadsAs(d, day)
    ensures HeaderFields(r, |y|, year, month, day, w)
  {
    var n := |y|;
    assert r[..n] == y && r[n + 1..n + 3] == m && r[n + 4..n + 6] == d && r[n + 7..] == w;
  }
}
