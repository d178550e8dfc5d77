/** The year overview: per month, the number of events of the user's
    properties that run through it, shown as an activity level. The event
    rows are an input; the query keeps those starting on or after the
    first midnight of the year and ending on or before midnight on
    31 December. */
module YearlyCalendar {
  import opened Wrappers
  import opened Entities
  import Dates
  import MonthWindows
  import Analytics

  /** The dictionary key `${year}-${month}`. */
  datatype MonthKey = MonthKey(year: int, month: int)

  /** `counts[key] || 0`. */
  function Get(counts: map<MonthKey, int>, key: MonthKey): int {
    if key in counts then counts[key] else 0
  }

  /** `new Date(year, 0, 1)` to `new Date(year, 11, 31)`, both at midnight. */
  function YearWindow(year: int): MonthWindows.Window {
    MonthWindows.Window(Dates.TimeOf(Dates.Date(year, 0, 1), 0), Dates.TimeOf(Dates.Date(year, 11, 31), 0))
  }

  /** `new Date(event.start_date).getMonth()`: the calendar month of the
      start day, whatever year that day falls in. */
  function StartMonth(e: CalendarEvent): int {
    Dates.MonthOfDay(Dates.DayOfTime(e.startDate))
  }

  /** `new Date(event.end_date).getMonth()`. */
  function EndMonth(e: CalendarEvent): int {
    Dates.MonthOfDay(Dates.DayOfTime(e.endDate))
  }

  /** The number of events whose months run through `month`. */
  function Covering(events: seq<CalendarEvent>, month: int): (n: nat)
    ensures n <= |events|
  {
    if events == [] then 0
    else
      var e := events[|events| - 1];
      Covering(events[..|events| - 1], month) + (if StartMonth(e) <= month <= EndMonth(e) then 1 else 0)
  }

  /** The inner `for (month = startMonth; month <= endMonth; month++)`:
      each month from the start to the end month gains one. */
  method AddSpan(counts: map<MonthKey, int>, year: int, startMonth: int, endMonth: int) returns (counts': map<MonthKey, int>)
    requires 0 <= startMonth < 12 && endMonth < 12
    requires forall k :: k in counts ==> k.year == year && 0 <= k.month < 12
    ensures forall m :: Get(counts', MonthKey(year, m)) == Get(counts, MonthKey(year, m)) + (if startMonth <= m <= endMonth then 1 else 0)
    ensures forall k :: k in counts' ==> k.year == year && 0 <= k.month < 12
  {
    counts' := counts;
    var month := startMonth;
    while month <= endMonth
      invariant startMonth <= month && (startMonth <= endMonth ==> month <= endMonth + 1)
      invariant startMonth > endMonth ==> month == startMonth
      invariant forall m :: Get(counts', MonthKey(year, m)) == Get(counts, MonthKey(year, m)) + (if startMonth <= m < month then 1 else 0)
      invariant forall k :: k in counts' ==> k.year == year && 0 <= k.month < 12
      decreases endMonth - month
    {
      var key := MonthKey(year, month);
      counts' := counts'[key := Get(counts', key) + 1];
      month := month + 1;
    }
  }

  /** The `forEach` over the loaded events: every month an event runs
      through gains one. */
  method CountMonths(year: int, events: seq<CalendarEvent>) returns (counts: map<MonthKey, int>)
    ensures forall m :: Get(counts, MonthKey(year, m)) == Covering(events, m)
    ensures forall k :: k in counts ==> k.year == year && 0 <= k.month < 12
  {
    counts := map[];
    for i := 0 to |events|
      invariant forall m :: Get(counts, MonthKey(year, m)) == Covering(events[..i], m)
      invariant forall k :: k in counts ==> k.year == year && 0 <= k.month < 12
    {
      var startMonth := StartMonth(events[i]);
      var endMonth := EndMonth(events[i]);
      CoveringStep(events, i);
      counts := AddSpan(counts, year, startMonth, endMonth);
    }
    assert events[..|events|] == events;
  }

  lemma CoveringStep(events: seq<CalendarEvent>, i: int)
    requires 0 <= i < |events|
    ensures forall m ::
      Covering(events[..i + 1], m) == Covering(events[..i], m) + (if StartMonth(events[i]) <= m <= EndMonth(events[i]) then 1 else 0)
  {
    assert events[..i + 1][..i] == events[..i];
  }

  /** An event whose end month comes before its start month adds
      nothing: the inner loop does not run. */
  lemma {:induction false} BackwardsEventAddsNothing(events: seq<CalendarEvent>, e: CalendarEvent, month: int)
    requires EndMonth(e) < StartMonth(e)
    ensures Covering(events + [e], month) == Covering(events, month)
  {
    assert (events + [e])[..|events|] == events;
  }

  /** The query bounds only the start from below and the end from above,
      so a row that ends before it starts can come from outside the year:
      starting 10 March of the year (2025, say) and ending 20 December of
      the year before, it is loaded for the year and counted in March to
      December. */
  lemma BackwardsRowAcrossYears(e: CalendarEvent, propertyIds: seq<string>, year: int, start: Dates.Date, end: Dates.Date)
    requires e.propertyId in propertyIds
    requires start == Dates.Date(year, 2, 10) && e.startDate == Dates.TimeOf(start, 0)
    requires end == Dates.Date(year - 1, 11, 20) && e.endDate == Dates.TimeOf(end, 0)
    ensures Analytics.IsEventIn(e, propertyIds, YearWindow(year))
    ensures StartMonth(e) == 2 && EndMonth(e) == 11
    ensures forall m :: Covering([e], m) == (if 2 <= m <= 11 then 1 else 0)
  {
    RowOfEarlierYearLoaded(e, propertyIds, year, start, end);
    CoveringOne(e);
  }

  /** One event covers exactly the months from its start month to its end
      month. */
  lemma CoveringOne(e: CalendarEvent)
    ensures forall m :: Covering([e], m) == (if StartMonth(e) <= m <= EndMonth(e) then 1 else 0)
  {
    assert [e][..0] == [];
  }

  /** A row starting in the year and ending in an earlier year passes the
      year's query, with the months of its two dates. */
  lemma RowOfEarlierYearLoaded(e: CalendarEvent, propertyIds: seq<string>, year: int, start: Dates.Date, end: Dates.Date)
    requires start.Valid() && end.Valid() && start.year == year && end.year < year
    requires e.propertyId in propertyIds
    requires e.startDate == Dates.TimeOf(start, 0) && e.endDate == Dates.TimeOf(end, 0)
    ensures Analytics.IsEventIn(e, propertyIds, YearWindow(year))
    ensures StartMonth(e) == start.month && EndMonth(e) == end.month
  {
    Dates.DayOfTimeOf(start, 0);
    Dates.DayOfTimeOf(end, 0);
    Dates.MonthOfDayOf(start);
    Dates.MonthOfDayOf(end);
    NotBeforeYear(start);
    NotAfterYear(end, year);
  }

  /** A date of a year is on or after the year's first midnight. */
  lemma NotBeforeYear(d: Dates.Date)
    requires d.Valid()
    ensures YearWindow(d.year).from <= Dates.TimeOf(d, 0)
  {
    var first := Dates.Date(d.year, 0, 1);
    if d.month > 0 {
      Dates.MonthStartMonotone(d.year * 12, d.year * 12 + d.month);
    }
    assert Dates.DayNumber(first) <= Dates.DayNumber(d);
    Dates.DaysToMsMonotone(Dates.DayNumber(first), Dates.DayNumber(d));
  }

  /** A date of the year or before is on or before its last midnight. */
  lemma NotAfterYear(d: Dates.Date, year: int)
    requires d.Valid() && d.year <= year
    ensures Dates.TimeOf(d, 0) <= YearWindow(year).to
  {
    var last := Dates.Date(year, 11, 31);
    var j, k := d.year * 12 + d.month, year * 12 + 11;
    if j < k {
      Dates.MonthStartMonotone(j, k);
    }
    Dates.MonthAtIndex(d.year, d.month);
    assert Dates.DayNumber(d) <= Dates.DayNumber(last);
    Dates.DaysToMsMonotone(Dates.DayNumber(d), Dates.DayNumber(last));
  }

  /** The width of one event in months: `max(0, end - start + 1)`. */
  function Width(e: CalendarEvent): nat {
    if EndMonth(e) < StartMonth(e) then 0 else EndMonth(e) - StartMonth(e) + 1
  }

  /** The counts of months `0 .. n - 1` added up. */
  function MonthsTotal(events: seq<CalendarEvent>, n: nat): nat {
    if n == 0 then 0 else MonthsTotal(events, n - 1) + Covering(events, n - 1)
  }

  /** The widths of all events added up. */
  function WidthTotal(events: seq<CalendarEvent>): nat {
    if events == [] then 0 else WidthTotal(events[..|events| - 1]) + Width(events[|events| - 1])
  }

  /** How many of the months `0 .. n - 1` one event runs through. */
  function Hits(e: CalendarEvent, n: nat): nat {
    if n == 0 then 0 else Hits(e, n - 1) + (if StartMonth(e) <= n - 1 <= EndMonth(e) then 1 else 0)
  }

  lemma {:induction false} HitsOfYear(e: CalendarEvent, n: nat)
    requires n <= 12
    ensures Hits(e, n) == if n <= StartMonth(e) || EndMonth(e) < StartMonth(e) then 0
                                else if n <= EndMonth(e) then n - StartMonth(e)
                                else EndMonth(e) - StartMonth(e) + 1
  {
    if n > 0 {
      HitsOfYear(e, n - 1);
    }
  }

  lemma {:induction false} MonthsTotalSnoc(events: seq<CalendarEvent>, e: CalendarEvent, n: nat)
    ensures MonthsTotal(events + [e], n) == MonthsTotal(events, n) + Hits(e, n)
  {
    assert (events + [e])[..|events|] == events;
    if n > 0 {
      MonthsTotalSnoc(events, e, n - 1);
    }
  }

  lemma {:induction false} NoEventsNoTotal(n: nat)
    ensures MonthsTotal([], n) == 0
  {
    if n > 0 {
      NoEventsNoTotal(n - 1);
    }
  }

  /** Summed over the twelve months, the counts add up to the months each
      event spans. */
  lemma {:induction false} TotalIsSumOfWidths(events: seq<CalendarEvent>)
    ensures MonthsTotal(events, 12) == WidthTotal(events)
  {
    if events != [] {
      var init, e := events[..|events| - 1], events[|events| - 1];
      assert events == init + [e];
      TotalIsSumOfWidths(init);
      MonthsTotalSnoc(init, e, 12);
      HitsOfYear(e, 12);
      assert Hits(e, 12) == Width(e);
      assert WidthTotal(events) == WidthTotal(init) + Width(e);
    } else {
      NoEventsNoTotal(12);
    }
  }

  datatype Activity = NoActivity | Low | Medium | High

  /** `getMonthActivity`. */
  function ActivityOf(count: int): (a: Activity)
    ensures count == 0 <==> a == NoActivity
    ensures a == High <==> count > 5
    ensures a == Medium <==> 2 < count <= 5
    ensures count >= 0 ==> (a == Low <==> 1 <= count <= 2)
  {
    if count == 0 then NoActivity
    else if count <= 2 then Low
    else if count <= 5 then Medium
    else High
  }

  function Rank(a: Activity): nat {
    match a
    case NoActivity => 0
    case Low => 1
    case Medium => 2
    case High => 3
  }

  /** More events never show less activity. */
  lemma ActivityMonotone(a: int, b: int)
    requires 0 <= a <= b
    ensures Rank(ActivityOf(a)) <= Rank(ActivityOf(b))
  {
  }

  /** `getActivityColor`: every level has a colour; no activity takes the
      default. */
  function ActivityColor(level: Activity): (c: string)
    ensures level == NoActivity <==> c == "bg-dark-700"
  {
    match level
    case High => "bg-primary-600/50"
    case Medium => "bg-primary-500/30"
    case Low => "bg-primary-400/20"
    case NoActivity => "bg-dark-700"
  }

  /** Different levels are drawn in different colours. */
  lemma ColoursDistinct(a: Activity, b: Activity)
    requires a != b
    ensures ActivityColor(a) != ActivityColor(b)
  {
  }

  class YearView {
    var currentYear: int
    var events: map<MonthKey, int>
    var loading: bool

    constructor(thisYear: int)
      ensures currentYear == thisYear && events == map[] && loading
    {
      currentYear := thisYear;
      events := map[];
      loading := true;
    }

    /** The level shown for month `month` of the current year. */
    function MonthActivity(month: int): Activity
      reads this
    {
      ActivityOf(Get(events, MonthKey(currentYear, month)))
    }

    /** `loadYearlyEvents`: without a user or without properties the counts
        are kept; otherwise they are replaced by the counts of the events
        the query returns. Loading ends either way. */
    method LoadYearlyEvents(user: Option<string>, properties: Option<seq<Property>>, table: seq<CalendarEvent>)
      modifies this
      ensures currentYear == old(currentYear) && !loading
      ensures user.None? || properties.None? || properties.value == [] ==> events == old(events)
      ensures user.Some? && properties.Some? && properties.value != [] ==>
        var loaded := Analytics.EventsIn(table, Analytics.Ids(properties.value), YearWindow(currentYear));
        forall m :: Get(events, MonthKey(currentYear, m)) == Covering(loaded, m)
    {
      if user.None? || properties.None? || properties.value == [] {
        loading := false;
        return;
      }
      var loaded := Analytics.EventsIn(table, Analytics.Ids(properties.value), YearWindow(currentYear));
      events := CountMonths(currentYear, loaded);
      loading := false;
    }

    method PreviousYear()
      modifies this
      ensures currentYear == old(currentYear) - 1
      ensures events == old(events) && loading == old(loading)
    {
      currentYear := currentYear - 1;
    }

    method NextYear()
      modifies this
      ensures currentYear == old(currentYear) + 1
      ensures events == old(events) && loading == old(loading)
    {
      currentYear := currentYear + 1;
    }
  }

  /** The counts are keyed by year: after moving to another year and
      before a reload, every month of the new year shows no activity. */
  lemma OtherYearShowsNothing(counts: map<MonthKey, int>, year: int, other: int, month: int)
    requires forall k :: k in counts ==> k.year == year
    requires other != year
    ensures ActivityOf(Get(counts, MonthKey(other, month))) == NoActivity
  {
  }
}
