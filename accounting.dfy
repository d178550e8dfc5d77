/** `loadFinancialData`: the current month's income, expenses, net income
    and pending payments of the signed-in user, in dollars. The month's
    bounds are built by mutating a `Date`; the end bound as the code
    writes it is modelled beside the corrected one the summary uses. */
module Accounting {
  import opened Wrappers
  import opened Entities
  import Dates
  import Money
  import Lists
  import MonthWindows

  const LoadError := "Failed to load financial data"

  /** The last millisecond of a day: `setHours(23, 59, 59, 999)`. */
  const EndOfDayMs: int := 23 * 3600000 + 59 * 60000 + 59 * 1000 + 999

  /** `setDate(1)` on today. */
  function StartOfMonth(today: Dates.Date): (d: Dates.Date)
    requires today.Valid()
    ensures d.Valid() && d.year == today.year && d.month == today.month && d.day == 1
  {
    Dates.Date(today.year, today.month, 1)
  }

  /** The end day as written: `setMonth(getMonth() + 1)` keeps the day of
      the month, so a day past the next month's length first carries one
      month further, and `setDate(0)` then steps back to the last day of
      the following month rather than of the current one. */
  function EndOfMonthAsWritten(today: Dates.Date): (d: Dates.Date)
    requires today.Valid()
    ensures d.Valid()
  {
    var advanced := Dates.MakeDate(today.year, today.month + 1, today.day);
    Dates.MakeDate(advanced.year, advanced.month, 0)
  }

  /** The intended end day: day 0 of the next month, the last day of the
      current month. */
  function EndOfMonth(today: Dates.Date): (d: Dates.Date)
    ensures d.Valid()
  {
    Dates.MakeDate(today.year, today.month + 1, 0)
  }

  /** On 31 January 2025 the written end lands on 28 February, so the
      "current month" spans two months. */
  lemma EndOfMonthAsWrittenOverruns()
    ensures EndOfMonthAsWritten(Dates.Date(2025, 0, 31)) == Dates.Date(2025, 1, 28)
    ensures EndOfMonth(Dates.Date(2025, 0, 31)) == Dates.Date(2025, 0, 31)
  {
    var feb, mar := Dates.YearMonth(2025, 1), Dates.YearMonth(2025, 2);
    Dates.MonthOfIndex(feb);
    Dates.MonthOfIndex(mar);
    assert !Dates.IsLeapYear(2025);
    assert Dates.DaysInMonth(2025, 1) == 28;
    assert Dates.Normalize(2025, 2, 3) == Dates.Date(2025, 2, 3);
    assert Dates.MakeDate(2025, 1, 31) == Dates.Date(2025, 2, 3);
    assert Dates.Normalize(2025, 1, 28) == Dates.Date(2025, 1, 28);
    assert Dates.MakeDate(2025, 2, 0) == Dates.Date(2025, 1, 28);
    EndOfMonthIsLastDay(Dates.Date(2025, 0, 31));
  }

  /** The corrected end day is the last day of the current month. */
  lemma EndOfMonthIsLastDay(today: Dates.Date)
    requires today.Valid()
    ensures EndOfMonth(today) == Dates.Date(today.year, today.month, Dates.DaysInMonth(today.year, today.month))
  {
    Dates.DayZeroOfNextMonth(today.year, today.month);
    Dates.MonthOfIndex(today.Month());
  }

  /** While today's day number exists in the next month the written end
      agrees with the intended one. */
  lemma {:induction false} EndOfMonthAsWrittenEarlyInMonth(today: Dates.Date)
    requires today.Valid()
    requires var n := Dates.MonthOf(today.year * 12 + today.month + 1); today.day <= Dates.DaysInMonth(n.year, n.month)
    ensures EndOfMonthAsWritten(today) == EndOfMonth(today)
  {
    var n := Dates.MonthOf(today.year * 12 + today.month + 1);
    Dates.MakeDateInMonth(today.year, today.month + 1, today.day);
    Dates.MakeDateSameIndex(n.year, n.month, today.year, today.month + 1, 0);
  }

  /** The window of the summary query: from midnight on the first to the
      last millisecond of the month's last day. */
  function MonthWindow(today: Dates.Date): (w: MonthWindows.Window)
    requires today.Valid()
  {
    MonthWindows.Window(Dates.TimeOf(StartOfMonth(today), 0), Dates.TimeOf(EndOfMonth(today), EndOfDayMs))
  }

  /** The first and last day of the window by day number. */
  lemma BoundDays(today: Dates.Date)
    requires today.Valid()
    ensures var k := today.year * 12 + today.month;
      && Dates.DayNumber(StartOfMonth(today)) == Dates.MonthStart(k)
      && Dates.DayNumber(EndOfMonth(today)) == Dates.MonthStart(k) + Dates.MonthLength(k) - 1
  {
    StartDay(today);
    EndDay(today);
  }

  lemma StartDay(today: Dates.Date)
    requires today.Valid()
    ensures Dates.DayNumber(StartOfMonth(today)) == Dates.MonthStart(today.year * 12 + today.month)
  {
    assert StartOfMonth(today) == Dates.Date(today.year, today.month, 1);
  }

  lemma EndDay(today: Dates.Date)
    ensures var k := today.year * 12 + today.month;
      Dates.DayNumber(EndOfMonth(today)) == Dates.MonthStart(k) + Dates.MonthLength(k) - 1
  {
    Dates.DayZeroNumber(today.year, today.month);
  }

  /** The window holds exactly the instants of the current month's days. */
  lemma MonthWindowIsMonth(today: Dates.Date, d: Dates.Date, msOfDay: int)
    requires today.Valid() && d.Valid() && 0 <= msOfDay < Dates.MsPerDay
    ensures MonthWindow(today).Contains(Dates.TimeOf(d, msOfDay)) <==> d.year == today.year && d.month == today.month
  {
    var k := today.year * 12 + today.month;
    var first, last, day := Dates.MonthStart(k), Dates.MonthStart(k) + Dates.MonthLength(k) - 1, Dates.DayNumber(d);
    assert MonthWindow(today) == MonthWindows.Window(Dates.Midnight(first), Dates.Midnight(last) + EndOfDayMs) by {
      BoundDays(today);
    }
    assert first <= day <= last <==> d.year == today.year && d.month == today.month by {
      Dates.InMonthIff(d, k);
      Dates.MonthOfIndex(d.Month());
    }
    WholeDays(first, last, day, msOfDay);
  }

  /** From midnight on day `first` to the last millisecond of day `last`
      lie exactly the instants of the days in between. */
  lemma WholeDays(first: int, last: int, day: int, msOfDay: int)
    requires 0 <= msOfDay < Dates.MsPerDay
    ensures MonthWindows.Window(Dates.Midnight(first), Dates.Midnight(last) + EndOfDayMs).Contains(Dates.Midnight(day) + msOfDay)
      <==> first <= day <= last
  {
    if day < first {
      Dates.DaysToMsMonotone(day, first);
    } else if day > last {
      Dates.DaysToMsMonotone(last, day);
    } else {
      Dates.DaysToMsMonotone(first, day);
      Dates.DaysToMsMonotone(day, last);
    }
  }

  predicate IsIncome(t: Transaction) { t.kind == Income }
  predicate IsExpense(t: Transaction) { t.kind != Income }
  predicate IsPendingIncome(t: Transaction) { t.kind == Income && t.status == Pending }

  /** The card totals: income, expenses and pending payments. */
  datatype Totals = Totals(income: real, expenses: real, pending: real)

  /** The `reduce` step: income adds to the income total (and to pending
      payments when pending), anything else to expenses. */
  function AddRow(acc: Totals, t: Transaction): Totals {
    var usd := Money.UsdValue(t);
    if t.kind == Income then
      Totals(acc.income + usd, acc.expenses, if t.status == Pending then acc.pending + usd else acc.pending)
    else Totals(acc.income, acc.expenses + usd, acc.pending)
  }

  /** The `reduce` over the rows, in order, from zero totals. */
  function Reduce(rows: seq<Transaction>): Totals {
    if rows == [] then Totals(0.0, 0.0, 0.0) else AddRow(Reduce(rows[..|rows| - 1]), rows[|rows| - 1])
  }

  /** Each total of the reduce is the dollar sum of the rows of its kind. */
  lemma {:induction false} ReduceIsSums(rows: seq<Transaction>)
    ensures Reduce(rows).income == Money.SumUsd(Lists.Filter(rows, IsIncome))
    ensures Reduce(rows).expenses == Money.SumUsd(Lists.Filter(rows, IsExpense))
    ensures Reduce(rows).pending == Money.SumUsd(Lists.Filter(rows, IsPendingIncome))
    decreases |rows|
  {
    if rows != [] {
      var init, t := rows[..|rows| - 1], rows[|rows| - 1];
      assert rows == init + [t];
      ReduceIsSums(init);
      var before, after := Reduce(init), Reduce(rows);
      assert after == AddRow(before, t);
      assert after.income == Money.SumUsd(Lists.Filter(rows, IsIncome)) by {
        SumFilterSnoc(init, t, IsIncome);
      }
      assert after.expenses == Money.SumUsd(Lists.Filter(rows, IsExpense)) by {
        SumFilterSnoc(init, t, IsExpense);
      }
      assert after.pending == Money.SumUsd(Lists.Filter(rows, IsPendingIncome)) by {
        SumFilterSnoc(init, t, IsPendingIncome);
      }
    }
  }

  /** The loop over the returned rows: after it, each total is the dollar
      sum of the rows of its kind. */
  method Summarize(rows: seq<Transaction>) returns (totalIncome: real, totalExpenses: real, pendingPayments: real)
    ensures totalIncome == Money.SumUsd(Lists.Filter(rows, IsIncome))
    ensures totalExpenses == Money.SumUsd(Lists.Filter(rows, IsExpense))
    ensures pendingPayments == Money.SumUsd(Lists.Filter(rows, IsPendingIncome))
  {
    totalIncome, totalExpenses, pendingPayments := 0.0, 0.0, 0.0;
    for i := 0 to |rows|
      invariant Totals(totalIncome, totalExpenses, pendingPayments) == Reduce(rows[..i])
    {
      var t := rows[i];
      var usdAmount := Money.UsdValue(t);
      if t.kind == Income {
        totalIncome := totalIncome + usdAmount;
        if t.status == Pending {
          pendingPayments := pendingPayments + usdAmount;
        }
      } else {
        totalExpenses := totalExpenses + usdAmount;
      }
      assert rows[..i + 1][..i] == rows[..i];
    }
    assert rows[..|rows|] == rows;
    ReduceIsSums(rows);
  }

  lemma SumFilterSnoc(rows: seq<Transaction>, t: Transaction, p: Transaction -> bool)
    ensures Money.SumUsd(Lists.Filter(rows + [t], p)) == Money.SumUsd(Lists.Filter(rows, p)) + (if p(t) then Money.UsdValue(t) else 0.0)
  {
    MonthWindows.FilterSnoc(rows, t, p);
    Money.SumUsdAppend(Lists.Filter(rows, p), if p(t) then [t] else []);
    assert Money.SumUsd([t]) == Money.UsdValue(t) by {
      assert [t][..0] == [];
    }
  }

  /** Every row is counted exactly once, as income or as an expense, so
      income plus expenses is the dollar sum of all rows. */
  lemma {:induction false} IncomeAndExpensesPartition(rows: seq<Transaction>)
    ensures Money.SumUsd(Lists.Filter(rows, IsIncome)) + Money.SumUsd(Lists.Filter(rows, IsExpense)) == Money.SumUsd(rows)
    decreases |rows|
  {
    if rows != [] {
      var init, t := rows[..|rows| - 1], rows[|rows| - 1];
      assert rows == init + [t];
      IncomeAndExpensesPartition(init);
      SumFilterSnoc(init, t, IsIncome);
      SumFilterSnoc(init, t, IsExpense);
    }
  }

  /** With no negative amounts, pending payments never exceed the income
      total. */
  lemma {:induction false} PendingWithinIncome(rows: seq<Transaction>)
    requires forall i :: 0 <= i < |rows| ==> Money.UsdValue(rows[i]) >= 0.0
    ensures Money.SumUsd(Lists.Filter(rows, IsPendingIncome)) <= Money.SumUsd(Lists.Filter(rows, IsIncome))
    decreases |rows|
  {
    if rows != [] {
      var init, t := rows[..|rows| - 1], rows[|rows| - 1];
      assert rows == init + [t];
      PendingWithinIncome(init);
      SumFilterSnoc(init, t, IsIncome);
      SumFilterSnoc(init, t, IsPendingIncome);
    }
  }

  /** The summary card values. */
  datatype FinancialSummary = FinancialSummary(totalIncome: real, totalExpenses: real, netIncome: real, pendingPayments: real)

  /** The row filter of the query: the user's rows dated in the window. */
  function RowQuery(userId: string, w: MonthWindows.Window): Transaction -> bool {
    (t: Transaction) => t.userId == userId && w.Contains(t.date)
  }

  /** The query returns exactly the user's rows dated in the window, in
      table order. */
  lemma RowQueryExactly(table: seq<Transaction>, userId: string, w: MonthWindows.Window)
    ensures forall t :: t in Lists.Filter(table, RowQuery(userId, w)) <==>
      t in table && t.userId == userId && w.Contains(t.date)
    ensures Lists.IsSubsequence(Lists.Filter(table, RowQuery(userId, w)), table)
  {
    var p := RowQuery(userId, w);
    assert forall t :: p(t) == (t.userId == userId && w.Contains(t.date));
    Lists.FilterIsSubsequence(table, p);
  }

  /** `loadFinancialData`; `failed` is the query's error. */
  method LoadFinancialData(user: Option<string>, today: Dates.Date, failed: bool, table: seq<Transaction>)
    returns (r: Result<FinancialSummary, string>)
    requires today.Valid()
    ensures user.None? || failed <==> r == Failure(LoadError)
    ensures r.Success? ==>
      var rows := Lists.Filter(table, RowQuery(user.value, MonthWindow(today)));
      && r.value.totalIncome == Money.SumUsd(Lists.Filter(rows, IsIncome))
      && r.value.totalExpenses == Money.SumUsd(Lists.Filter(rows, IsExpense))
      && r.value.pendingPayments == Money.SumUsd(Lists.Filter(rows, IsPendingIncome))
      && r.value.netIncome == r.value.totalIncome - r.value.totalExpenses
  {
    if user.None? || failed {
      return Failure(LoadError);
    }
    var rows := Lists.Filter(table, RowQuery(user.value, MonthWindow(today)));
    var totalIncome, totalExpenses, pendingPayments := Summarize(rows);
    r := Success(FinancialSummary(totalIncome, totalExpenses, totalIncome - totalExpenses, pendingPayments));
  }
}
