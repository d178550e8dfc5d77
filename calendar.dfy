/** The sample property calendar: a month grid showing, on each day, the
    first of a fixed list of sample events set on that day of the month,
    with month navigation. */
module Calendar {
  import opened Wrappers
  import Dates
  import Lists
  import MonthGrid

  /** A sample event: the day of the month it falls on, a title, a kind. */
  datatype SampleEvent = SampleEvent(date: int, title: string, kind: string)

  const SampleEvents: seq<SampleEvent> := [
    SampleEvent(15, "Property Inspection", "inspection"),
    SampleEvent(20, "Tenant Check-in", "check-in"),
    SampleEvent(25, "Maintenance", "maintenance")
  ]

  function OnDate(day: int): SampleEvent -> bool {
    (e: SampleEvent) => e.date == day
  }

  /** `getEventForDay(day)`: the first event set on `day`, if any. */
  function EventForDay(events: seq<SampleEvent>, day: int): (r: Option<SampleEvent>)
    ensures r.None? <==> forall i :: 0 <= i < |events| ==> events[i].date != day
    ensures r.Some? ==> r.value.date == day
    ensures r.Some? ==> exists k :: 0 <= k < |events| && events[k] == r.value && (forall i :: 0 <= i < k ==> events[i].date != day)
  {
    assert forall e :: OnDate(day)(e) == (e.date == day);
    Lists.FindFirst(events, OnDate(day))
  }

  /** The sample shows an event on the 15th, the 20th and the 25th of
      every month and on no other day. */
  lemma SampleEventDays(day: int)
    ensures EventForDay(SampleEvents, day).Some? <==> day == 15 || day == 20 || day == 25
    ensures day == 20 ==> EventForDay(SampleEvents, day) == Some(SampleEvents[1])
  {
    if day == 20 {
      var r := EventForDay(SampleEvents, day);
      assert SampleEvents[0].date != day;
      var k :| 0 <= k < |SampleEvents| && SampleEvents[k] == r.value && (forall i :: 0 <= i < k ==> SampleEvents[i].date != day);
      assert k == 1;
    }
  }

  class CalendarView {
    var currentDate: Dates.Date

    constructor(today: Dates.Date)
      ensures currentDate == today
    {
      currentDate := today;
    }

    /** `previousMonth`: the first of the month before. */
    method PreviousMonth()
      modifies this
      ensures currentDate == MonthGrid.Shift(old(currentDate), -1)
    {
      currentDate := MonthGrid.Shift(currentDate, -1);
    }

    /** `nextMonth`: the first of the month after. */
    method NextMonth()
      modifies this
      ensures currentDate == MonthGrid.Shift(old(currentDate), 1)
    {
      currentDate := MonthGrid.Shift(currentDate, 1);
    }
  }
}
