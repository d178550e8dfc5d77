/** The month buckets the dashboards query: rows dated from
    `new Date(y, m, 1)` to `new Date(y, m + 1, 0)`, both bounds inclusive
    and both at midnight, and the income those rows add up to. */
module MonthWindows {
  import opened Entities
  import Dates
  import Money
  import Lists

  /** An inclusive range of timestamps, as `.gte(col, from).lte(col, to)` selects. */
  datatype Window = Window(from: int, to: int) {
    predicate Contains(t: int) { from <= t <= to }
  }

  /** The bounds the month query is built with: `new Date(y, m, 1)` and
      `new Date(y, m + 1, 0)`, both at midnight (either argument may be
      out of range and is carried as `Date` does). */
  function QueryWindow(year: int, month: int): Window {
    Window(Dates.TimeOf(Dates.MakeDate(year, month, 1), 0), Dates.TimeOf(Dates.MakeDate(year, month + 1, 0), 0))
  }

  /** The window of month `month` of `year` by day numbers: from the first
      midnight of the month to the midnight that starts its last day. */
  function MonthWindow(year: int, month: int): Window {
    var k := year * 12 + month;
    Window(Dates.Midnight(Dates.MonthStart(k)), Dates.Midnight(Dates.MonthStart(k) + Dates.MonthLength(k) - 1))
  }

  /** The query's bounds are exactly the month's window, and it is never
      empty. */
  lemma QueryWindowIsMonthWindow(year: int, month: int)
    ensures QueryWindow(year, month) == MonthWindow(year, month)
    ensures MonthWindow(year, month).from < MonthWindow(year, month).to
  {
    QueryWindowFrom(year, month);
    QueryWindowTo(year, month);
    var k := year * 12 + month;
    Dates.DaysToMsMonotone(Dates.MonthStart(k), Dates.MonthStart(k) + Dates.MonthLength(k) - 1);
  }

  /** `new Date(y, m, 1)` is midnight on the month's first day. */
  lemma QueryWindowFrom(year: int, month: int)
    ensures QueryWindow(year, month).from == MonthWindow(year, month).from
  {
    Dates.MakeDateDayNumber(year, month, 1);
  }

  /** `new Date(y, m + 1, 0)` is midnight on the month's last day. */
  lemma QueryWindowTo(year: int, month: int)
    ensures QueryWindow(year, month).to == MonthWindow(year, month).to
  {
    Dates.DayZeroNumber(year, month);
  }

  /** Windows of different months never share a timestamp. */
  lemma WindowsDisjoint(y1: int, m1: int, y2: int, m2: int, t: int)
    requires y1 * 12 + m1 != y2 * 12 + m2
    ensures !(MonthWindow(y1, m1).Contains(t) && MonthWindow(y2, m2).Contains(t))
  {
    var j, k := y1 * 12 + m1, y2 * 12 + m2;
    if j < k {
      Dates.MonthStartMonotone(j, k);
      Dates.DaysToMsMonotone(Dates.MonthStart(j) + Dates.MonthLength(j) - 1, Dates.MonthStart(k));
    } else {
      Dates.MonthStartMonotone(k, j);
      Dates.DaysToMsMonotone(Dates.MonthStart(k) + Dates.MonthLength(k) - 1, Dates.MonthStart(j));
    }
  }

  /** The windows end at midnight of the last day, so a row dated later
      on a month's last day falls into no month at all. */
  lemma LastDayAfterMidnightUncounted(year: int, month: int, y: int, m: int)
    ensures !MonthWindow(y, m).Contains(MonthWindow(year, month).to + 1)
  {
    var k, j := year * 12 + month, y * 12 + m;
    var last := Dates.MonthStart(k) + Dates.MonthLength(k) - 1;
    var first, final := Dates.MonthStart(j), Dates.MonthStart(j) + Dates.MonthLength(j) - 1;
    assert final <= last || last < first by {
      if j < k {
        Dates.MonthStartMonotone(j, k);
      } else if k < j {
        Dates.MonthStartMonotone(k, j);
      }
    }
    NotInWindowAfter(first, final, last);
  }

  /** A window from midnight of day `first` to midnight of day `final`
      misses the millisecond after midnight of any day `last` unless
      `first <= last < final`. */
  lemma NotInWindowAfter(first: int, final: int, last: int)
    requires final <= last || last < first
    ensures !Window(Dates.Midnight(first), Dates.Midnight(final)).Contains(Dates.Midnight(last) + 1)
  {
    if final <= last {
      Dates.DaysToMsMonotone(final, last);
    } else {
      Dates.DaysToMsMonotone(last, first);
    }
  }

  /** A row the month query returns: income of the user dated in the window. */
  predicate IsIncomeIn(t: Transaction, userId: string, w: Window) {
    t.kind == Income && t.userId == userId && w.Contains(t.date)
  }

  /** The month total: the dollar values of the rows the query returns,
      added in table order. */
  function WindowIncome(rows: seq<Transaction>, userId: string, w: Window): real {
    Money.SumUsd(Lists.Filter(rows, IncomeQuery(userId, w)))
  }

  /** The row filter of the month query. */
  function IncomeQuery(userId: string, w: Window): Transaction -> bool {
    t => IsIncomeIn(t, userId, w)
  }

  /** Rows outside the window, of another user, or expenses add nothing. */
  lemma WindowIncomeIgnoresOthers(rows: seq<Transaction>, extra: Transaction, userId: string, w: Window)
    requires !IsIncomeIn(extra, userId, w)
    ensures WindowIncome(rows + [extra], userId, w) == WindowIncome(rows, userId, w)
  {
    var p := IncomeQuery(userId, w);
    FilterSnoc(rows, extra, p);
    assert !p(extra);
    assert Lists.Filter(rows, p) + [] == Lists.Filter(rows, p);
  }

  /** A counted row adds its dollar value. */
  lemma WindowIncomeAddsRow(rows: seq<Transaction>, extra: Transaction, userId: string, w: Window)
    requires IsIncomeIn(extra, userId, w)
    ensures WindowIncome(rows + [extra], userId, w) == WindowIncome(rows, userId, w) + Money.UsdValue(extra)
  {
    var p := IncomeQuery(userId, w);
    FilterSnoc(rows, extra, p);
    Money.SumUsdAppend(Lists.Filter(rows, p), [extra]);
    assert Money.SumUsd([extra]) == Money.UsdValue(extra) by {
      assert [extra][..0] == [];
    }
  }

  lemma {:induction false} FilterSnoc<T>(xs: seq<T>, x: T, p: T -> bool)
    ensures Lists.Filter(xs + [x], p) == Lists.Filter(xs, p) + (if p(x) then [x] else [])
    decreases |xs|
  {
    if xs == [] {
      assert xs + [x] == [x];
      assert [x][1..] == [];
    } else {
      assert (xs + [x])[0] == xs[0];
      assert (xs + [x])[1..] == xs[1..] + [x];
      FilterSnoc(xs[1..], x, p);
    }
  }

  /** A month of a series: the month and its dollar total. */
  datatype MonthAmount = MonthAmount(month: Dates.YearMonth, amount: real)

  /** The series entry for `offset` months before the month `now`. */
  function SeriesEntry(now: Dates.YearMonth, offset: int, userId: string, rows: seq<Transaction>): MonthAmount {
    EntryOf(now, userId, rows)(offset)
  }

  /** The sum of a series' amounts. */
  function TotalOf(series: seq<MonthAmount>): real {
    if series == [] then 0.0 else TotalOf(series[..|series| - 1]) + series[|series| - 1].amount
  }

  /** Appending an entry adds its amount to the total. */
  lemma TotalOfSnoc(series: seq<MonthAmount>, e: MonthAmount)
    ensures TotalOf(series + [e]) == TotalOf(series) + e.amount
  {
    assert (series + [e])[..|series|] == series;
  }

  /** `f(count - 1)`, ..., `f(count - n)`, built by appending. */
  function Build<T>(f: int -> T, count: int, n: nat): (r: seq<T>)
    ensures |r| == n
  {
    if n == 0 then [] else Build(f, count, n - 1) + [f(count - n)]
  }

  /** Entry `j` of what `Build` appends is `f(count - 1 - j)`. */
  lemma {:induction false} BuildAt<T>(f: int -> T, count: int, n: nat, j: nat)
    requires j < n
    ensures Build(f, count, n)[j] == f(count - 1 - j)
  {
    var prev := Build(f, count, n - 1);
    assert Build(f, count, n) == prev + [f(count - n)];
    if j < n - 1 {
      BuildAt(f, count, n - 1, j);
      assert (prev + [f(count - n)])[j] == prev[j];
    }
  }

  /** The query of the month `offset` months before `now`: the month and
      the income in its window. */
  function EntryOf(now: Dates.YearMonth, userId: string, rows: seq<Transaction>): int -> MonthAmount {
    (offset: int) => MonthAmount(Dates.MonthOf(now.Index() - offset), WindowIncome(rows, userId, MonthWindow(now.year, now.month - offset)))
  }

  /** The first `n` entries of a `count`-month series ending with the
      month `now`: offsets `count - 1` down to `count - n`, oldest first. */
  function Series(now: Dates.YearMonth, userId: string, rows: seq<Transaction>, count: nat, n: nat): (r: seq<MonthAmount>)
    ensures |r| == n
  {
    Build(EntryOf(now, userId, rows), count, n)
  }

  /** Entry `j` of a series is the month `count - 1 - j` months back. */
  lemma SeriesAt(now: Dates.YearMonth, userId: string, rows: seq<Transaction>, count: nat, n: nat, j: nat)
    requires j < n
    ensures Series(now, userId, rows, count, n)[j] == SeriesEntry(now, count - 1 - j, userId, rows)
  {
    BuildAt(EntryOf(now, userId, rows), count, n, j);
  }

  /** Building one more entry appends the next month. */
  lemma SeriesSnoc(now: Dates.YearMonth, userId: string, rows: seq<Transaction>, count: nat, n: nat)
    ensures Series(now, userId, rows, count, n + 1) == Series(now, userId, rows, count, n) + [SeriesEntry(now, count - 1 - n, userId, rows)]
  {
    assert Build(EntryOf(now, userId, rows), count, n + 1) == Build(EntryOf(now, userId, rows), count, n) + [SeriesEntry(now, count - 1 - n, userId, rows)];
  }

  /** The last `m` entries of a `count + m`-month series are the
      `m`-month series. */
  lemma {:induction false} BuildSuffix<T>(f: int -> T, count: nat, m: nat, j: nat)
    requires j < m
    ensures Build(f, count + m, count + m)[count + j] == Build(f, m, m)[j]
  {
    BuildAt(f, count + m, count + m, count + j);
    BuildAt(f, m, m, j);
  }

  /** A full series runs over consecutive months and ends with `now`. */
  lemma SeriesMonths(now: Dates.YearMonth, userId: string, rows: seq<Transaction>, count: nat, j: nat)
    requires j < count
    ensures Series(now, userId, rows, count, count)[j].month.Index() == now.Index() - (count - 1 - j)
  {
    SeriesAt(now, userId, rows, count, count, j);
    var k: int := count - 1 - j;
    assert SeriesEntry(now, k, userId, rows).month == Dates.MonthOf(now.Index() - k);
  }
}
