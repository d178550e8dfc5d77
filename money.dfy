/** The arithmetic the dashboards share: `Math.round`, the guarded growth
    ratio, night counting, occupancy percentages and the conversion of a
    transaction to US dollars with the fixed rate 30.5. Amounts are exact
    reals. */
module Money {
  import opened Wrappers
  import opened Entities
  import Dates

  /** `Math.round`: the nearest integer, halves rounded up. */
  function Round(x: real): (r: int)
    ensures r as real - 0.5 <= x < r as real + 0.5
  {
    (x + 0.5).Floor
  }

  /** `Math.round` is determined by its bounds: no other integer is as close. */
  lemma RoundUnique(x: real, n: int)
    requires n as real - 0.5 <= x < n as real + 0.5
    ensures Round(x) == n
  {
  }

  /** `last > 0 ? (now - last) / last * 100 : 0`. */
  function Growth(now: real, last: real): (g: real)
    ensures last <= 0.0 ==> g == 0.0
  {
    if last > 0.0 then (now - last) / last * 100.0 else 0.0
  }

  /** The growth percentage recovers the current value from the previous one. */
  lemma GrowthInverse(now: real, last: real)
    requires last > 0.0
    ensures last + last * Growth(now, last) / 100.0 == now
  {
  }

  /** Growth is positive exactly when the value went up from a positive base. */
  lemma GrowthSign(now: real, last: real)
    requires last > 0.0
    ensures Growth(now, last) > 0.0 <==> now > last
    ensures Growth(now, last) == 0.0 <==> now == last
  {
    GrowthInverse(now, last);
  }

  /** `Math.floor((end - start) / (1000 * 60 * 60 * 24)) + 1`. */
  function Nights(start: int, end: int): (n: int)
    ensures (n - 1) * Dates.MsPerDay <= end - start < n * Dates.MsPerDay
  {
    (end - start) / Dates.MsPerDay + 1
  }

  /** For an event stored as whole days the count is inclusive of both ends. */
  lemma NightsOfDays(startDay: int, endDay: int)
    ensures Nights(startDay * Dates.MsPerDay, endDay * Dates.MsPerDay) == endDay - startDay + 1
  {
    var n := Nights(startDay * Dates.MsPerDay, endDay * Dates.MsPerDay);
    assert (n - 1) * Dates.MsPerDay <= (endDay - startDay) * Dates.MsPerDay < n * Dates.MsPerDay;
  }

  /** The nights of every event, summed left to right. */
  function BookedNights(events: seq<CalendarEvent>): (total: int)
    ensures (forall i :: 0 <= i < |events| ==> events[i].startDate <= events[i].endDate) ==> total >= |events|
  {
    if events == [] then 0
    else BookedNights(events[..|events| - 1]) + Nights(events[|events| - 1].startDate, events[|events| - 1].endDate)
  }

  /** `total > 0 ? Math.round(booked / total * 100) : 0`, not clamped. */
  function OccupancyRate(booked: int, total: int): (r: int)
    ensures total <= 0 ==> r == 0
    ensures total > 0 && 0 <= booked <= total ==> 0 <= r <= 100
  {
    if total > 0 then Round(booked as real / total as real * 100.0) else 0
  }

  /** With more nights booked than possible the rate passes 100. */
  lemma OccupancyNotClamped()
    ensures OccupancyRate(62, 31) == 200
  {
  }

  /** `transaction.original_amount || transaction.amount`: the original
      amount unless it is missing or zero. */
  function SourceAmount(t: Transaction): (a: real)
    ensures t.originalAmount.Some? && t.originalAmount.value != 0.0 ==> a == t.originalAmount.value
    ensures t.originalAmount.None? || t.originalAmount.value == 0.0 ==> a == t.amount
  {
    match t.originalAmount
    case Some(v) => if v != 0.0 then v else t.amount
    case None => t.amount
  }

  /** The dashboards' rate: 30.5 lira to the dollar. */
  const DashboardRate: real := 30.5

  /** The US-dollar value the dashboards add up: TRY divided by 30.5,
      anything else as it is. */
  function UsdValue(t: Transaction): (v: real)
    ensures t.originalCurrency == Some(TRY) ==> v * DashboardRate == SourceAmount(t)
    ensures t.originalCurrency != Some(TRY) ==> v == SourceAmount(t)
  {
    if t.originalCurrency == Some(TRY) then SourceAmount(t) / DashboardRate else SourceAmount(t)
  }

  /** A transaction entered in lira with its dollar value filled in is
      counted from the lira amount, not from the stored dollar amount. */
  lemma LiraPreferredOverStoredDollars(t: Transaction)
    requires t.originalCurrency == Some(TRY) && t.originalAmount.Some? && t.originalAmount.value != 0.0
    ensures UsdValue(t) == t.originalAmount.value / DashboardRate
  {
  }

  /** The `reduce` of `UsdValue` over a list, left to right. */
  function SumUsd(ts: seq<Transaction>): real {
    if ts == [] then 0.0 else SumUsd(ts[..|ts| - 1]) + UsdValue(ts[|ts| - 1])
  }

  /** Sums over a concatenation add up. */
  lemma {:induction false} SumUsdAppend(a: seq<Transaction>, b: seq<Transaction>)
    ensures SumUsd(a + b) == SumUsd(a) + SumUsd(b)
    decreases |b|
  {
    if b != [] {
      assert (a + b)[..|a + b| - 1] == a + b[..|b| - 1];
      assert (a + b)[|a + b| - 1] == b[|b| - 1];
      SumUsdAppend(a, b[..|b| - 1]);
    } else {
      assert a + b == a;
    }
  }
}
