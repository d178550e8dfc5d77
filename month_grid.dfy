/** The month view the three calendar components share: the number of
    days, the weekday of the first, the grid of leading blanks and
    numbered cells, and the move to the previous or next month with
    `new Date(year, month ± 1)`. */
module MonthGrid {
  import Dates

  /** `new Date(year, month + 1, 0)`: day 0 of the next month. */
  function LastOfMonth(shown: Dates.Date): Dates.Date {
    Dates.MakeDate(shown.year, shown.month + 1, 0)
  }

  /** `new Date(year, month, 1)`. */
  function FirstOfMonth(shown: Dates.Date): Dates.Date {
    Dates.MakeDate(shown.year, shown.month, 1)
  }

  /** `daysInMonth`: the length of the shown month. */
  function DaysInMonth(shown: Dates.Date): int {
    Dates.MonthLength(shown.Month().Index())
  }

  /** `firstDayOfMonth`: the weekday of the first of the shown month. */
  function FirstDayOfMonth(shown: Dates.Date): int {
    Dates.Weekday(Dates.MonthStart(shown.Month().Index()))
  }

  /** `new Date(year, month + 1, 0).getDate()` is the Gregorian length
      of the shown month. */
  lemma DaysInMonthAsBuilt(shown: Dates.Date)
    requires 0 <= shown.month < 12
    ensures LastOfMonth(shown).day == DaysInMonth(shown) == Dates.DaysInMonth(shown.year, shown.month)
  {
    Dates.DayZeroOfNextMonth(shown.year, shown.month);
    Dates.MonthOfIndex(shown.Month());
  }

  /** `new Date(year, month, 1).getDay()` is a column 0 (Sunday) to 6
      (Saturday), the weekday of the first of the shown month. */
  lemma FirstDayAsBuilt(shown: Dates.Date)
    requires 0 <= shown.month < 12
    ensures Dates.Weekday(Dates.DayNumber(FirstOfMonth(shown))) == FirstDayOfMonth(shown)
    ensures 0 <= FirstDayOfMonth(shown) < 7
    ensures FirstDayOfMonth(shown) == Dates.Weekday(Dates.DayNumber(Dates.Date(shown.year, shown.month, 1)))
  {
    Dates.MakeDateDayNumber(shown.year, shown.month, 1);
    Dates.MonthOfIndex(shown.Month());
  }

  datatype Cell = Blank | Day(day: int)

  /** `blanks` empty cells, then the cells `1..days`. */
  function Layout(blanks: nat, days: nat): seq<Cell> {
    seq(blanks, _ => Blank) + seq(days, i => Day(i + 1))
  }

  /** `firstDayOfMonth` empty cells, then the cells `1..daysInMonth`. */
  function Grid(shown: Dates.Date): seq<Cell> {
    Layout(FirstDayOfMonth(shown), DaysInMonth(shown))
  }

  /** The layout holds the blanks and then every day once, in order. */
  lemma LayoutShape(blanks: nat, days: nat)
    ensures |Layout(blanks, days)| == blanks + days
    ensures forall i :: 0 <= i < blanks ==> Layout(blanks, days)[i] == Blank
    ensures forall n :: 1 <= n <= days ==> Layout(blanks, days)[blanks + n - 1] == Day(n)
  {
    var front: seq<Cell> := seq(blanks, _ => Blank);
    var back: seq<Cell> := seq(days, i => Day(i + 1));
    forall n | 1 <= n <= days
      ensures Layout(blanks, days)[blanks + n - 1] == Day(n)
    {
      assert (front + back)[blanks + n - 1] == back[n - 1];
    }
  }

  /** The grid holds the leading blanks and then every day of the month
      once, in order. */
  lemma GridLayout(shown: Dates.Date)
    requires 0 <= shown.month < 12
    ensures var first, length := FirstDayOfMonth(shown), Dates.DaysInMonth(shown.year, shown.month);
      && |Grid(shown)| == first + length
      && (forall i :: 0 <= i < first ==> Grid(shown)[i] == Blank)
      && (forall n :: 1 <= n <= length ==> Grid(shown)[first + n - 1] == Day(n))
  {
    assert DaysInMonth(shown) == Dates.DaysInMonth(shown.year, shown.month) by {
      Dates.MonthOfIndex(shown.Month());
    }
    LayoutShape(FirstDayOfMonth(shown), DaysInMonth(shown));
  }

  /** In seven columns starting on Sunday, the cell of day `n` sits in
      the column of its weekday. */
  lemma GridColumns(shown: Dates.Date, n: int)
    requires 0 <= shown.month < 12
    ensures (FirstDayOfMonth(shown) + (n - 1)) % 7 == Dates.Weekday(Dates.DayNumber(Dates.Date(shown.year, shown.month, n)))
  {
    var start := Dates.DayNumber(Dates.Date(shown.year, shown.month, 1));
    var day := Dates.DayNumber(Dates.Date(shown.year, shown.month, n));
    assert FirstDayOfMonth(shown) == (start + 4) % 7 by {
      FirstDayAsBuilt(shown);
    }
    assert day + 4 == start + 4 + (n - 1) by {
      DayOffset(shown.year, shown.month, n);
    }
    ModuloShift(start + 4, n - 1, FirstDayOfMonth(shown), day);
  }

  lemma DayOffset(year: int, month: int, n: int)
    requires 0 <= month < 12
    ensures Dates.DayNumber(Dates.Date(year, month, n)) == Dates.DayNumber(Dates.Date(year, month, 1)) + n - 1
  {
  }

  /** Counting on `b` days from weekday `a % 7` gives weekday `(a + b) % 7`. */
  lemma ModuloShift(a: int, b: int, first: int, day: int)
    requires first == a % 7 && day + 4 == a + b
    ensures (first + b) % 7 == Dates.Weekday(day)
  {
    var q := a / 7;
    assert a == 7 * q + a % 7;
    assert a + b == 7 * q + (a % 7 + b);
  }

  /** `new Date(year, month + delta)`: the day defaults to 1. */
  function Shift(shown: Dates.Date, delta: int): Dates.Date {
    Dates.MakeDate(shown.year, shown.month + delta, 1)
  }

  /** Moving by `delta` lands on the first of the month `delta` months
      away, carrying into the year. */
  lemma ShiftMoves(shown: Dates.Date, delta: int)
    ensures Shift(shown, delta).day == 1
    ensures Shift(shown, delta).Month() == Dates.MonthOf(shown.year * 12 + shown.month + delta)
  {
    var ym := Dates.MonthOf(shown.year * 12 + shown.month + delta);
    assert Dates.Normalize(ym.year, ym.month, 1) == Dates.Date(ym.year, ym.month, 1);
  }

  /** Previous then next, or next then previous, returns to the first of
      the shown month: navigation is one month each way, wrapping the year. */
  lemma PreviousThenNext(shown: Dates.Date)
    requires 0 <= shown.month < 12
    ensures Shift(Shift(shown, -1), 1) == Dates.Date(shown.year, shown.month, 1)
    ensures Shift(Shift(shown, 1), -1) == Dates.Date(shown.year, shown.month, 1)
    ensures Shift(shown, 1).Month().Index() == shown.Month().Index() + 1
    ensures Shift(shown, -1).Month().Index() == shown.Month().Index() - 1
  {
    var k := shown.Month().Index();
    ShiftMoves(shown, -1);
    ShiftMoves(shown, 1);
    ShiftMoves(Shift(shown, -1), 1);
    ShiftMoves(Shift(shown, 1), -1);
    Dates.MonthOfIndex(shown.Month());
    assert Shift(Shift(shown, -1), 1).Month() == shown.Month();
    assert Shift(Shift(shown, 1), -1).Month() == shown.Month();
  }
}
