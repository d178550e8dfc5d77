/** The administrator's month calendar: the events of the shown month,
    optionally narrowed to one property and one owner, listed on every
    day they cover. The `calendar_events` rows (joined with the owner of
    their property) are an input; the query keeps those starting on or
    after the first of the month and ending on or before midnight of its
    last day. */
module CalendarManager {
  import opened Wrappers
  import opened Entities
  import Dates
  import Lists
  import MonthWindows
  import MonthGrid

  const LoadError := "Failed to load calendar events"

  /** A `calendar_events` row with the `assigned_to` of its property. */
  datatype EventRow = EventRow(event: CalendarEvent, assignedTo: string)

  /** The filters of the events query: the month window and, unless
      `'all'` is selected, the property and the owner. */
  predicate IsLoaded(row: EventRow, property: Choice<string>, owner: Choice<string>, w: MonthWindows.Window) {
    row.event.startDate >= w.from && row.event.endDate <= w.to
    && property.Admits(row.event.propertyId) && owner.Admits(row.assignedTo)
  }

  function LoadQuery(property: Choice<string>, owner: Choice<string>, w: MonthWindows.Window): EventRow -> bool {
    row => IsLoaded(row, property, owner, w)
  }

  /** The events of the rows, in order. */
  function EventsOf(rows: seq<EventRow>): (r: seq<CalendarEvent>)
    ensures |r| == |rows| && forall i :: 0 <= i < |rows| ==> r[i] == rows[i].event
  {
    seq(|rows|, i requires 0 <= i < |rows| => rows[i].event)
  }

  /** The events the month query returns, in table order. The window is
      the query's own, `MonthWindows.QueryWindowIsMonthWindow`. */
  function Loaded(table: seq<EventRow>, property: Choice<string>, owner: Choice<string>, shown: Dates.Date): seq<CalendarEvent> {
    EventsOf(Lists.Filter(table, LoadQuery(property, owner, MonthWindows.MonthWindow(shown.year, shown.month))))
  }

  /** An event is loaded exactly when some row carrying it passes the
      filters: it starts no earlier than the first of the shown month, ends
      no later than midnight of its last day, and matches the selected
      property and owner. Events crossing a month boundary are left out. */
  lemma LoadedExactly(table: seq<EventRow>, property: Choice<string>, owner: Choice<string>, shown: Dates.Date, e: CalendarEvent)
    ensures e in Loaded(table, property, owner, shown) <==>
      exists row :: row in table && row.event == e
        && IsLoaded(row, property, owner, MonthWindows.MonthWindow(shown.year, shown.month))
  {
    var w := MonthWindows.MonthWindow(shown.year, shown.month);
    var p := LoadQuery(property, owner, w);
    var kept := Lists.Filter(table, p);
    assert forall row :: p(row) == IsLoaded(row, property, owner, w);
    if e in Loaded(table, property, owner, shown) {
      var i :| 0 <= i < |kept| && EventsOf(kept)[i] == e;
      assert kept[i] in table && IsLoaded(kept[i], property, owner, w);
    }
    if exists row :: row in table && row.event == e && IsLoaded(row, property, owner, w) {
      var row :| row in table && row.event == e && IsLoaded(row, property, owner, w);
      var j :| 0 <= j < |table| && table[j] == row;
      assert row in kept;
      var i :| 0 <= i < |kept| && kept[i] == row;
      assert EventsOf(kept)[i] == e;
    }
  }

  /** An event that begins before the first of the shown month or ends
      after midnight of its last day is not loaded, even though it runs
      through the month. */
  lemma CrossingEventLeftOut(table: seq<EventRow>, property: Choice<string>, owner: Choice<string>, shown: Dates.Date, e: CalendarEvent)
    requires var w := MonthWindows.MonthWindow(shown.year, shown.month);
      e.startDate < w.from || e.endDate > w.to
    ensures e !in Loaded(table, property, owner, shown)
  {
    LoadedExactly(table, property, owner, shown, e);
  }

  /** `new Date(year, month, day)` at midnight. */
  function DayStart(shown: Dates.Date, day: int): int {
    Dates.TimeOf(Dates.MakeDate(shown.year, shown.month, day), 0)
  }

  /** The midnight a day is compared at is that of the day counted from the
      first of the shown month (a day outside the month is carried into
      the next or the previous one), and consecutive days lie a day apart. */
  lemma DayStartIsMidnight(shown: Dates.Date, day: int)
    ensures DayStart(shown, day) == Dates.Midnight(Dates.MonthStart(shown.year * 12 + shown.month) + day - 1)
    ensures DayStart(shown, day + 1) == DayStart(shown, day) + Dates.MsPerDay
  {
    Dates.MakeDateDayNumber(shown.year, shown.month, day);
    Dates.MakeDateDayNumber(shown.year, shown.month, day + 1);
  }

  /** `date >= startDate && date <= endDate`. */
  predicate OnDay(e: CalendarEvent, t: int) {
    t >= e.startDate && t <= e.endDate
  }

  function DayQuery(t: int): CalendarEvent -> bool {
    e => OnDay(e, t)
  }

  /** `getDayEvents(day)`. */
  function DayEvents(events: seq<CalendarEvent>, shown: Dates.Date, day: int): seq<CalendarEvent> {
    Lists.Filter(events, DayQuery(DayStart(shown, day)))
  }

  /** A day lists exactly the events whose start and end enclose its
      midnight, whatever their status (cancelled events are only dimmed),
      in their original order. */
  lemma DayEventsExactly(events: seq<CalendarEvent>, shown: Dates.Date, day: int)
    ensures forall e :: e in DayEvents(events, shown, day) <==> e in events && OnDay(e, DayStart(shown, day))
    ensures Lists.IsSubsequence(DayEvents(events, shown, day), events)
  {
    var p := DayQuery(DayStart(shown, day));
    assert forall e :: p(e) == OnDay(e, DayStart(shown, day));
    Lists.FilterIsSubsequence(events, p);
  }

  /** An event that starts after midnight is not listed on the day it
      starts: the comparison is with the day's midnight. */
  lemma LateStartMissesFirstDay(events: seq<CalendarEvent>, shown: Dates.Date, e: CalendarEvent, msOfDay: int)
    requires 0 <= shown.month < 12 && 1 <= shown.day <= Dates.DaysInMonth(shown.year, shown.month)
    requires e.startDate == Dates.TimeOf(shown, msOfDay) && msOfDay > 0
    ensures e !in DayEvents(events, shown, shown.day)
  {
    Dates.MakeDateOfValid(shown);
    assert DayStart(shown, shown.day) < e.startDate;
    var p := DayQuery(DayStart(shown, shown.day));
    assert !p(e);
  }

  /** An added event is listed after the others on each day it covers and
      changes no other day. */
  lemma AddedEventListedLast(events: seq<CalendarEvent>, e: CalendarEvent, shown: Dates.Date, day: int)
    ensures DayEvents(events + [e], shown, day)
      == DayEvents(events, shown, day) + (if OnDay(e, DayStart(shown, day)) then [e] else [])
  {
    MonthWindows.FilterSnoc(events, e, DayQuery(DayStart(shown, day)));
  }

  class Manager {
    var currentDate: Dates.Date
    var selectedProperty: Choice<string>
    var selectedOwner: Choice<string>
    var events: seq<CalendarEvent>
    var loading: bool
    var error: Option<string>

    constructor(today: Dates.Date)
      ensures currentDate == today && selectedProperty == All && selectedOwner == All
      ensures events == [] && loading && error == None
    {
      currentDate := today;
      selectedProperty := All;
      selectedOwner := All;
      events := [];
      loading := true;
      error := None;
    }

    /** `loadEvents`: the error is cleared; on a failed read it is set and
        the events are kept, otherwise the events become the rows returned
        (none when the read returns no data). Loading ends either way. */
    method LoadEvents(failed: bool, table: Option<seq<EventRow>>)
      modifies this
      ensures currentDate == old(currentDate)
      ensures selectedProperty == old(selectedProperty) && selectedOwner == old(selectedOwner)
      ensures !loading
      ensures error == if failed then Some(LoadError) else None
      ensures events == if failed then old(events)
                        else Loaded(table.GetOr([]), selectedProperty, selectedOwner, currentDate)
    {
      error := None;
      if failed {
        error := Some(LoadError);
      } else {
        events := Loaded(table.GetOr([]), selectedProperty, selectedOwner, currentDate);
      }
      loading := false;
    }

    /** `handleAddEvent`: the new event goes at the end. */
    method AddEvent(e: CalendarEvent)
      modifies this
      ensures events == old(events) + [e]
      ensures currentDate == old(currentDate) && loading == old(loading) && error == old(error)
      ensures selectedProperty == old(selectedProperty) && selectedOwner == old(selectedOwner)
    {
      events := events + [e];
    }

    /** `previousMonth`: the first of the month before. */
    method PreviousMonth()
      modifies this
      ensures currentDate == MonthGrid.Shift(old(currentDate), -1)
      ensures events == old(events) && loading == old(loading) && error == old(error)
      ensures selectedProperty == old(selectedProperty) && selectedOwner == old(selectedOwner)
    {
      currentDate := MonthGrid.Shift(currentDate, -1);
    }

    /** `nextMonth`: the first of the month after. */
    method NextMonth()
      modifies this
      ensures currentDate == MonthGrid.Shift(old(currentDate), 1)
      ensures events == old(events) && loading == old(loading) && error == old(error)
      ensures selectedProperty == old(selectedProperty) && selectedOwner == old(selectedOwner)
    {
      currentDate := MonthGrid.Shift(currentDate, 1);
    }
  }
}
