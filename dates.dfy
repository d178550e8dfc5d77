/** The Gregorian calendar as the components use it through JavaScript's
    `Date`: month numbers 0..11, the `new Date(year, month, day)`
    constructor that carries an out-of-range month or day into the
    neighbouring months, day numbers counted from 1970-01-01, weekdays
    and millisecond timestamps. Local time is taken to be UTC. */
module Dates {
  /** `1000 * 60 * 60 * 24`. */
  const MsPerDay: int := 86400000

  predicate IsLeapYear(year: int) {
    year % 4 == 0 && (year % 100 != 0 || year % 400 == 0)
  }

  /** The length of month `month` (0 = January) of `year`. */
  function DaysInMonth(year: int, month: int): (n: int)
    requires 0 <= month < 12
    ensures 28 <= n <= 31
    ensures month == 1 ==> (n == 29 <==> IsLeapYear(year))
  {
    if month == 1 then (if IsLeapYear(year) then 29 else 28)
    else if month == 3 || month == 5 || month == 8 || month == 10 then 30
    else 31
  }

  /** A calendar month; `month` runs 0..11 when the value is normalised. */
  datatype YearMonth = YearMonth(year: int, month: int) {
    function Index(): int { year * 12 + month }
  }

  /** The month with the given index (`year * 12 + month`): JavaScript's
      carry of an out-of-range month into the year. */
  function MonthOf(k: int): (ym: YearMonth)
    ensures 0 <= ym.month < 12
    ensures ym.Index() == k
  {
    YearMonth(k / 12, k % 12)
  }

  /** A normalised month is its own carry. */
  lemma MonthOfIndex(ym: YearMonth)
    requires 0 <= ym.month < 12
    ensures MonthOf(ym.Index()) == ym
  {
  }

  /** A calendar day; valid when the month is 0..11 and the day lies
      within the month. */
  datatype Date = Date(year: int, month: int, day: int) {
    predicate Valid() {
      0 <= month < 12 && 1 <= day <= DaysInMonth(year, month)
    }
    function Month(): YearMonth { YearMonth(year, month) }
  }

  /** Carries a day outside 1..DaysInMonth into earlier or later months. */
  function Normalize(year: int, month: int, day: int): (r: Date)
    requires 0 <= month < 12
    ensures r.Valid()
    decreases if day < 1 then 1 - day else 0, if day > 0 then day else 0
  {
    if day < 1 then
      var p := MonthOf(year * 12 + month - 1);
      Normalize(p.year, p.month, day + DaysInMonth(p.year, p.month))
    else if day > DaysInMonth(year, month) then
      var n := MonthOf(year * 12 + month + 1);
      Normalize(n.year, n.month, day - DaysInMonth(year, month))
    else
      Date(year, month, day)
  }

  /** `new Date(year, month, day)`: any integers, carried into a valid date. */
  function MakeDate(year: int, month: int, day: int): (r: Date)
    ensures r.Valid()
  {
    var ym := MonthOf(year * 12 + month);
    Normalize(ym.year, ym.month, day)
  }

  /** A day within the carried month is kept as it is. */
  lemma MakeDateInMonth(year: int, month: int, day: int)
    requires 1 <= day <= DaysInMonth(MonthOf(year * 12 + month).year, MonthOf(year * 12 + month).month)
    ensures MakeDate(year, month, day) == Date(MonthOf(year * 12 + month).year, MonthOf(year * 12 + month).month, day)
  {
  }

  /** Only the month index matters to `new Date`. */
  lemma MakeDateSameIndex(year1: int, month1: int, year2: int, month2: int, day: int)
    requires year1 * 12 + month1 == year2 * 12 + month2
    ensures MakeDate(year1, month1, day) == MakeDate(year2, month2, day)
  {
  }

  /** A valid date is built back unchanged. */
  lemma MakeDateOfValid(d: Date)
    requires d.Valid()
    ensures MakeDate(d.year, d.month, d.day) == d
  {
    MonthOfIndex(d.Month());
  }

  /** The index of January 1970, the month day numbers count from. */
  const EpochMonth: int := 1970 * 12

  /** The length of the month with index `k`. */
  function MonthLength(k: int): (n: int)
    ensures 28 <= n <= 31
  {
    var ym := MonthOf(k);
    DaysInMonth(ym.year, ym.month)
  }

  /** The day number of the first day of the month with index `k`: 0 for
      January 1970, and each month starts its predecessor's length after
      it. */
  function MonthStart(k: int): int
    decreases if k >= EpochMonth then k - EpochMonth else EpochMonth - k
  {
    if k == EpochMonth then 0
    else if k > EpochMonth then MonthStart(k - 1) + MonthLength(k - 1)
    else MonthStart(k + 1) - MonthLength(k)
  }

  /** The day number of a date: 0 for 1970-01-01. */
  function DayNumber(d: Date): int
    requires 0 <= d.month < 12
  {
    MonthStart(d.year * 12 + d.month) + d.day - 1
  }

  /** Each month begins the day after the previous month's last day. */
  lemma NextMonthStart(k: int)
    ensures MonthStart(k + 1) == MonthStart(k) + MonthLength(k)
  {
    if k + 1 <= EpochMonth {
      assert MonthStart(k) == MonthStart(k + 1) - MonthLength(k);
    }
  }

  /** Month starts strictly increase with the month index. */
  lemma {:induction false} MonthStartMonotone(j: int, k: int)
    requires j < k
    ensures MonthStart(j) + MonthLength(j) <= MonthStart(k)
    decreases k - j
  {
    NextMonthStart(j);
    if j + 1 < k {
      MonthStartMonotone(j + 1, k);
    }
  }

  /** The length of a normalised month, by its index. */
  lemma MonthAtIndex(year: int, month: int)
    requires 0 <= month < 12
    ensures MonthLength(year * 12 + month) == DaysInMonth(year, month)
  {
    MonthOfIndex(YearMonth(year, month));
  }

  /** `new Date(y, m, d)` lies `d - 1` days after the first of month `m`,
      whatever the range of `m` and `d`. */
  lemma {:induction false} NormalizeDayNumber(year: int, month: int, day: int)
    requires 0 <= month < 12
    ensures DayNumber(Normalize(year, month, day)) == MonthStart(year * 12 + month) + day - 1
    decreases if day < 1 then 1 - day else 0, if day > 0 then day else 0, 1
  {
    if day < 1 {
      NormalizeBefore(year, month, day);
    } else if day > DaysInMonth(year, month) {
      NormalizeAfter(year, month, day);
    } else {
      MonthAtIndex(year, month);
    }
  }

  /** A day before the first is carried into the previous month. */
  lemma {:induction false} NormalizeBefore(year: int, month: int, day: int)
    requires 0 <= month < 12 && day < 1
    ensures DayNumber(Normalize(year, month, day)) == MonthStart(year * 12 + month) + day - 1
    decreases 1 - day, 0, 0
  {
    var p := MonthOf(year * 12 + month - 1);
    NormalizeDayNumber(p.year, p.month, day + DaysInMonth(p.year, p.month));
    BeforeFromCarried(year, month, day);
  }

  /** The step of `NormalizeBefore`: from the carried date's day number
      to the original one. */
  lemma BeforeFromCarried(year: int, month: int, day: int)
    requires 0 <= month < 12 && day < 1
    requires var p := MonthOf(year * 12 + month - 1);
      DayNumber(Normalize(p.year, p.month, day + DaysInMonth(p.year, p.month)))
        == MonthStart(year * 12 + month - 1) + day + DaysInMonth(p.year, p.month) - 1
    ensures DayNumber(Normalize(year, month, day)) == MonthStart(year * 12 + month) + day - 1
  {
    NormalizeStepBack(year, month, day);
    StartAfterPrevious(year * 12 + month);
  }

  /** A day past the month's last is carried into the next month. */
  lemma {:induction false} NormalizeAfter(year: int, month: int, day: int)
    requires 0 <= month < 12 && day > DaysInMonth(year, month)
    ensures DayNumber(Normalize(year, month, day)) == MonthStart(year * 12 + month) + day - 1
    decreases 0, day, 0
  {
    var n := MonthOf(year * 12 + month + 1);
    NormalizeDayNumber(n.year, n.month, day - DaysInMonth(year, month));
    AfterFromCarried(year, month, day);
  }

  /** The step of `NormalizeAfter`: from the carried date's day number
      to the original one. */
  lemma AfterFromCarried(year: int, month: int, day: int)
    requires 0 <= month < 12 && day > DaysInMonth(year, month)
    requires var n := MonthOf(year * 12 + month + 1);
      DayNumber(Normalize(n.year, n.month, day - DaysInMonth(year, month)))
        == MonthStart(year * 12 + month + 1) + day - DaysInMonth(year, month) - 1
    ensures DayNumber(Normalize(year, month, day)) == MonthStart(year * 12 + month) + day - 1
  {
    NormalizeStepForward(year, month, day);
    MonthAtIndex(year, month);
    NextMonthStart(year * 12 + month);
  }

  lemma NormalizeStepBack(year: int, month: int, day: int)
    requires 0 <= month < 12 && day < 1
    ensures var p := MonthOf(year * 12 + month - 1);
      Normalize(year, month, day) == Normalize(p.year, p.month, day + DaysInMonth(p.year, p.month))
  {
  }

  lemma NormalizeStepForward(year: int, month: int, day: int)
    requires 0 <= month < 12 && day > DaysInMonth(year, month)
    ensures var n := MonthOf(year * 12 + month + 1);
      Normalize(year, month, day) == Normalize(n.year, n.month, day - DaysInMonth(year, month))
  {
  }

  /** Month `k` starts where month `k - 1`, carried, ends. */
  lemma StartAfterPrevious(k: int)
    ensures MonthStart(k) == MonthStart(k - 1) + DaysInMonth(MonthOf(k - 1).year, MonthOf(k - 1).month)
  {
    var p := MonthOf(k - 1);
    MonthAtIndex(p.year, p.month);
    NextMonthStart(k - 1);
  }

  lemma MakeDateDayNumber(year: int, month: int, day: int)
    ensures DayNumber(MakeDate(year, month, day)) == MonthStart(year * 12 + month) + day - 1
  {
    var ym := MonthOf(year * 12 + month);
    NormalizeDayNumber(ym.year, ym.month, day);
  }

  /** Day 0 of the next month is the last day of month `year * 12 + month`. */
  lemma DayZeroNumber(year: int, month: int)
    ensures DayNumber(MakeDate(year, month + 1, 0)) == MonthStart(year * 12 + month) + MonthLength(year * 12 + month) - 1
  {
    MakeDateDayNumber(year, month + 1, 0);
    NextMonthStart(year * 12 + month);
  }

  /** `new Date(y, m + 1, 0)` is the last day of month `m`, so its
      `getDate()` is the month's length. */
  lemma DayZeroOfNextMonth(year: int, month: int)
    ensures MakeDate(year, month + 1, 0) == Date(MonthOf(year * 12 + month).year, MonthOf(year * 12 + month).month, MonthLength(year * 12 + month))
  {
    var ym := MonthOf(year * 12 + month);
    var n := MonthOf(year * 12 + month + 1);
    MonthOfIndex(YearMonth(ym.year, ym.month));
    assert MonthOf(n.year * 12 + n.month - 1) == ym;
  }

  /** A valid date lies within its own month's day numbers. */
  lemma DayNumberInMonth(d: Date)
    requires d.Valid()
    ensures MonthStart(d.Month().Index()) <= DayNumber(d) < MonthStart(d.Month().Index()) + MonthLength(d.Month().Index())
  {
    MonthOfIndex(d.Month());
  }

  /** A day number falls within month `k` exactly when the date it belongs
      to is in month `k`: month windows never overlap. */
  lemma InMonthIff(d: Date, k: int)
    requires d.Valid()
    ensures MonthStart(k) <= DayNumber(d) < MonthStart(k) + MonthLength(k) <==> d.Month().Index() == k
  {
    var j := d.Month().Index();
    DayNumberInMonth(d);
    if j < k {
      MonthStartMonotone(j, k);
    } else if k < j {
      MonthStartMonotone(k, j);
    }
  }

  /** `getDay()`: 0 is Sunday; 1970-01-01 was a Thursday. */
  function Weekday(dayNumber: int): (w: int)
    ensures 0 <= w < 7
  {
    (dayNumber + 4) % 7
  }

  /** The weekday moves on by one each day, wrapping after Saturday. */
  lemma WeekdayNext(dayNumber: int)
    ensures Weekday(dayNumber + 1) == if Weekday(dayNumber) == 6 then 0 else Weekday(dayNumber) + 1
  {
  }

  /** The timestamp of midnight at the start of day `dayNumber`. */
  function Midnight(dayNumber: int): int {
    dayNumber * MsPerDay
  }

  /** Midnights keep the order of their days, a whole day apart. */
  lemma DaysToMsMonotone(a: int, b: int)
    requires a <= b
    ensures Midnight(a) <= Midnight(b)
    ensures a < b ==> Midnight(a) + MsPerDay <= Midnight(b)
  {
    assert MsPerDay == 86400000;
  }

  /** The millisecond timestamp of `hh:mm:ss.mmm` = `msOfDay` on date `d`. */
  function TimeOf(d: Date, msOfDay: int): int
    requires 0 <= d.month < 12
  {
    Midnight(DayNumber(d)) + msOfDay
  }

  /** The day a timestamp falls on. */
  function DayOfTime(t: int): int {
    t / MsPerDay
  }

  lemma DayOfTimeOf(d: Date, msOfDay: int)
    requires 0 <= d.month < 12 && 0 <= msOfDay < MsPerDay
    ensures DayOfTime(TimeOf(d, msOfDay)) == DayNumber(d)
  {
  }

  /** The index of the month holding day `n`, searched upward from the
      month with index `k`. */
  function MonthIndexAbove(n: int, k: int): (r: int)
    requires MonthStart(k) <= n
    ensures MonthStart(r) <= n < MonthStart(r) + MonthLength(r)
    decreases n - MonthStart(k)
  {
    NextMonthStart(k);
    if n < MonthStart(k) + MonthLength(k) then k else MonthIndexAbove(n, k + 1)
  }

  /** The index of the month holding day `n`, searched downward from the
      month with index `k`. */
  function MonthIndexBelow(n: int, k: int): (r: int)
    requires n < MonthStart(k) + MonthLength(k)
    ensures MonthStart(r) <= n < MonthStart(r) + MonthLength(r)
    decreases MonthStart(k) - n
  {
    NextMonthStart(k - 1);
    if MonthStart(k) <= n then k else MonthIndexBelow(n, k - 1)
  }

  /** The index of the month holding the day numbered `n`, any day at all. */
  function MonthIndexOfDay(n: int): (k: int)
    ensures MonthStart(k) <= n < MonthStart(k) + MonthLength(k)
  {
    if n >= 0 then MonthIndexAbove(n, EpochMonth) else MonthIndexBelow(n, EpochMonth)
  }

  /** `getMonth()` of the day numbered `n`, whatever its year. */
  function MonthOfDay(n: int): (m: int)
    ensures 0 <= m < 12
  {
    MonthOf(MonthIndexOfDay(n)).month
  }

  /** Months never overlap: a day lies in one month only. */
  lemma MonthIndexUnique(n: int, j: int, k: int)
    requires MonthStart(j) <= n < MonthStart(j) + MonthLength(j)
    requires MonthStart(k) <= n < MonthStart(k) + MonthLength(k)
    ensures j == k
  {
    if j < k {
      MonthStartMonotone(j, k);
    } else if k < j {
      MonthStartMonotone(k, j);
    }
  }

  /** The month of a valid date's day number is the date's own month, in
      any year. */
  lemma MonthOfDayOf(d: Date)
    requires d.Valid()
    ensures MonthIndexOfDay(DayNumber(d)) == d.Month().Index()
    ensures MonthOfDay(DayNumber(d)) == d.month
  {
    DayNumberInMonth(d);
    MonthIndexUnique(DayNumber(d), MonthIndexOfDay(DayNumber(d)), d.Month().Index());
    MonthOfIndex(d.Month());
  }
}
