/** The small availability calendar: a month grid whose numbered cells
    are coloured by a fixed sample of available, booked and maintenance
    days, with month navigation. */
module InlineCalendar {
  import Dates
  import MonthGrid

  datatype DayStatus = Available | Booked | UnderMaintenance | NoStatus

  /** The day numbers of each kind. */
  datatype Availability = Availability(available: seq<int>, booked: seq<int>, maintenance: seq<int>)

  /** The sample the component shows for every month. */
  const SampleAvailability := Availability([5, 6, 7, 12, 13, 19, 20], [1, 2, 8, 9, 15, 16, 22, 23, 29, 30], [14, 21, 28])

  /** `getDayStatus(day)`: the lists are tried in the order available,
      booked, maintenance; a day in none of them has no status. */
  function StatusOf(a: Availability, day: int): (s: DayStatus)
    ensures s == NoStatus <==> day !in a.available && day !in a.booked && day !in a.maintenance
    ensures s == Available <==> day in a.available
    ensures s == Booked ==> day in a.booked
    ensures s == UnderMaintenance ==> day in a.maintenance
  {
    if day in a.available then Available
    else if day in a.booked then Booked
    else if day in a.maintenance then UnderMaintenance
    else NoStatus
  }

  /** No day is listed under two kinds. */
  predicate Disjoint(a: Availability) {
    && (forall d :: d in a.available ==> d !in a.booked && d !in a.maintenance)
    && (forall d :: d in a.booked ==> d !in a.maintenance)
  }

  /** With disjoint lists the order of the checks does not matter: the
      status of a day is the one list that holds it. */
  lemma StatusIsTheListHoldingTheDay(a: Availability, day: int)
    requires Disjoint(a)
    ensures StatusOf(a, day) == Booked <==> day in a.booked
    ensures StatusOf(a, day) == UnderMaintenance <==> day in a.maintenance
  {
  }

  /** The sample's lists are disjoint, so each day has at most one
      matching kind. */
  lemma SampleIsDisjoint()
    ensures Disjoint(SampleAvailability)
  {
    AvailableApart();
    BookedApart();
  }

  /** The sample's available days fall on 5, 6 (mod 7) or the 7th; the
      booked on 1, 2; the maintenance days on 0 and after the 7th. */
  lemma AvailableApart()
    ensures forall d :: d in SampleAvailability.available ==> d !in SampleAvailability.booked && d !in SampleAvailability.maintenance
  {
    var a := SampleAvailability;
    assert forall i :: 0 <= i < |a.available| ==> a.available[i] % 7 == 5 || a.available[i] % 7 == 6 || a.available[i] == 7;
    assert forall i :: 0 <= i < |a.booked| ==> a.booked[i] % 7 == 1 || a.booked[i] % 7 == 2;
    assert forall i :: 0 <= i < |a.maintenance| ==> a.maintenance[i] % 7 == 0 && a.maintenance[i] != 7;
  }

  lemma BookedApart()
    ensures forall d :: d in SampleAvailability.booked ==> d !in SampleAvailability.maintenance
  {
    var a := SampleAvailability;
    assert forall i :: 0 <= i < |a.booked| ==> a.booked[i] % 7 == 1 || a.booked[i] % 7 == 2;
    assert forall i :: 0 <= i < |a.maintenance| ==> a.maintenance[i] % 7 == 0;
  }

  /** The numbered cells of the shown month with their status. */
  function Statuses(shown: Dates.Date): (r: seq<DayStatus>)
    ensures |r| == MonthGrid.DaysInMonth(shown)
    ensures forall i :: 0 <= i < |r| ==> r[i] == StatusOf(SampleAvailability, i + 1)
  {
    seq(MonthGrid.DaysInMonth(shown), i => StatusOf(SampleAvailability, i + 1))
  }

  class InlineView {
    var currentDate: Dates.Date

    constructor(today: Dates.Date)
      ensures currentDate == today
    {
      currentDate := today;
    }

    /** `previousMonth`: the first of the month before. */
    method PreviousMonth()
      modifies this
      ensures currentDate == MonthGrid.Shift(old(currentDate), -1)
    {
      currentDate := MonthGrid.Shift(currentDate, -1);
    }

    /** `nextMonth`: the first of the month after. */
    method NextMonth()
      modifies this
      ensures currentDate == MonthGrid.Shift(old(currentDate), 1)
    {
      currentDate := MonthGrid.Shift(currentDate, 1);
    }
  }
}
