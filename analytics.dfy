/** `loadAnalytics`: six months of revenue (oldest first), revenue growth,
    occupancy of the current and previous month, average stay, bookings
    and per-property figures. The database is an input: the query results
    are the rows of the given tables that the queries' filters select, in
    table order; the property list is the result of its own query. */
module Analytics {
  import opened Wrappers
  import opened Entities
  import Dates
  import Money
  import Lists
  import MonthWindows

  const LoadError := "Failed to load analytics data"

  /** The six-month loop: for `i` from 5 down to 0 it queries the month
      `i` months back, appends its total and keeps the running total and
      the totals of last month and this month. */
  method MonthlyRevenue(now: Dates.YearMonth, userId: string, rows: seq<Transaction>)
    returns (series: seq<MonthWindows.MonthAmount>, total: real, lastMonth: real, thisMonth: real)
    ensures series == MonthWindows.Series(now, userId, rows, 6, 6)
    ensures total == MonthWindows.TotalOf(series)
    ensures lastMonth == series[4].amount && thisMonth == series[5].amount
  {
    series := [];
    total := 0.0;
    lastMonth := 0.0;
    thisMonth := 0.0;
    var i := 5;
    while i >= 0
      invariant -1 <= i <= 5
      invariant series == MonthWindows.Series(now, userId, rows, 6, 5 - i)
      invariant total == MonthWindows.TotalOf(series)
      invariant i < 1 ==> lastMonth == MonthWindows.SeriesEntry(now, 1, userId, rows).amount
      invariant i < 0 ==> thisMonth == MonthWindows.SeriesEntry(now, 0, userId, rows).amount
    {
      var entry := MonthWindows.SeriesEntry(now, i, userId, rows);
      MonthWindows.SeriesSnoc(now, userId, rows, 6, 5 - i);
      MonthWindows.TotalOfSnoc(series, entry);
      series := series + [entry];
      total := total + entry.amount;
      if i == 1 {
        lastMonth := entry.amount;
      }
      if i == 0 {
        thisMonth := entry.amount;
      }
      i := i - 1;
    }
    MonthWindows.SeriesAt(now, userId, rows, 6, 6, 4);
    MonthWindows.SeriesAt(now, userId, rows, 6, 6, 5);
  }

  /** The events a month query returns: on one of the properties, starting
      on or after the month's first midnight and ending on or before its
      last midnight. */
  predicate IsEventIn(e: CalendarEvent, propertyIds: seq<string>, w: MonthWindows.Window) {
    e.propertyId in propertyIds && e.startDate >= w.from && e.endDate <= w.to
  }

  function EventQuery(propertyIds: seq<string>, w: MonthWindows.Window): CalendarEvent -> bool {
    e => IsEventIn(e, propertyIds, w)
  }

  /** The rows the month's events query returns, in table order. */
  function EventsIn(events: seq<CalendarEvent>, propertyIds: seq<string>, w: MonthWindows.Window): (r: seq<CalendarEvent>)
    ensures forall i :: 0 <= i < |r| ==> r[i] in events && IsEventIn(r[i], propertyIds, w)
    ensures forall e :: e in events && IsEventIn(e, propertyIds, w) ==> e in r
  {
    var p := EventQuery(propertyIds, w);
    assert forall e :: p(e) == IsEventIn(e, propertyIds, w);
    Lists.Filter(events, p)
  }

  function Ids(properties: seq<Property>): (ids: seq<string>)
    ensures |ids| == |properties| && forall i :: 0 <= i < |ids| ==> ids[i] == properties[i].id
  {
    seq(|properties|, i requires 0 <= i < |properties| => properties[i].id)
  }

  datatype PropertyPerformance = PropertyPerformance(id: string, name: Option<string>, revenue: real, occupancy: int, rating: real)

  /** The income rows of one property in a window (no user filter). */
  function PropertyIncomeQuery(propertyId: string, w: MonthWindows.Window): Transaction -> bool {
    (t: Transaction) => t.kind == Income && t.propertyId == Some(propertyId) && w.Contains(t.date)
  }

  /** One property's figures for the current month: revenue, occupancy
      against the month's length (not clamped) and `rating || 0`. */
  function Performance(p: Property, w: MonthWindows.Window, daysInMonth: int, transactions: seq<Transaction>, events: seq<CalendarEvent>): (r: PropertyPerformance)
    requires daysInMonth > 0
    ensures r.id == p.id && r.name == p.name
    ensures r.rating == if p.rating.Some? then p.rating.value else 0.0
  {
    var booked := Money.BookedNights(EventsIn(events, [p.id], w));
    PropertyPerformance(
      p.id, p.name,
      Money.SumUsd(Lists.Filter(transactions, PropertyIncomeQuery(p.id, w))),
      Money.Round(booked as real / daysInMonth as real * 100.0),
      match p.rating case Some(v) => (if v != 0.0 then v else 0.0) case None => 0.0)
  }

  datatype Stats = Stats(
    totalRevenue: real,
    revenueGrowth: real,
    occupancyRate: int,
    occupancyGrowth: real,
    averageStayDuration: int,
    stayDurationGrowth: int,
    totalBookings: int,
    bookingsGrowth: real,
    propertyPerformance: seq<PropertyPerformance>,
    monthlyRevenue: seq<MonthWindows.MonthAmount>)

  /** `Math.round(bookedNights / (currentEvents.length || 1))`. */
  function AverageStay(booked: int, count: nat): (r: int)
    ensures count == 0 ==> r == booked
    ensures count > 0 ==> Money.Round(booked as real / count as real) == r
  {
    Money.Round(booked as real / (if count == 0 then 1 else count) as real)
  }

  /** `loadAnalytics` once the user and the properties have been read. */
  method LoadAnalytics(user: Option<string>, now: Dates.Date, properties: Option<seq<Property>>,
                       transactions: seq<Transaction>, events: seq<CalendarEvent>)
    returns (r: Result<Stats, string>)
    requires now.Valid()
    ensures user.None? || properties.None? ==> r == Failure(LoadError)
    ensures user.Some? && properties.Some? ==> r.Success?
    ensures r.Success? ==>
      var s := r.value;
      var days := Dates.MakeDate(now.year, now.month + 1, 0).day;
      var ids := Ids(properties.value);
      var current := EventsIn(events, ids, MonthWindows.MonthWindow(now.year, now.month));
      var previous := EventsIn(events, ids, MonthWindows.MonthWindow(now.year, now.month - 1));
      var possible := |properties.value| * days;
      && s.monthlyRevenue == MonthWindows.Series(now.Month(), user.value, transactions, 6, 6)
      && s.totalRevenue == MonthWindows.TotalOf(s.monthlyRevenue)
      && s.revenueGrowth == Money.Growth(s.monthlyRevenue[5].amount, s.monthlyRevenue[4].amount)
      && s.occupancyRate == Money.OccupancyRate(Money.BookedNights(current), possible)
      && s.occupancyGrowth == Money.Growth(s.occupancyRate as real, Money.OccupancyRate(Money.BookedNights(previous), possible) as real)
      && s.averageStayDuration == AverageStay(Money.BookedNights(current), |current|)
      && s.stayDurationGrowth == 0
      && s.totalBookings == |current|
      && s.bookingsGrowth == Money.Growth(|current| as real, |previous| as real)
      && |s.propertyPerformance| == |properties.value|
      && (forall i :: 0 <= i < |properties.value| ==>
            s.propertyPerformance[i] == Performance(properties.value[i], MonthWindows.MonthWindow(now.year, now.month), days, transactions, events))
  {
    if user.None? || properties.None? {
      return Failure(LoadError);
    }
    var daysInMonth := Dates.MakeDate(now.year, now.month + 1, 0).day;
    var userId := user.value;
    var props := properties.value;
    var series, totalRevenue, lastMonthRevenue, thisMonthRevenue := MonthlyRevenue(now.Month(), userId, transactions);
    var revenueGrowth := Money.Growth(thisMonthRevenue, lastMonthRevenue);

    var ids := Ids(props);
    var thisWindow := MonthWindows.MonthWindow(now.year, now.month);
    var current := EventsIn(events, ids, thisWindow);
    var previous := EventsIn(events, ids, MonthWindows.MonthWindow(now.year, now.month - 1));

    var possible := |props| * daysInMonth;
    var booked := Money.BookedNights(current);
    var lastBooked := Money.BookedNights(previous);
    var occupancyRate := Money.OccupancyRate(booked, possible);
    var lastOccupancy := Money.OccupancyRate(lastBooked, possible);
    var occupancyGrowth := Money.Growth(occupancyRate as real, lastOccupancy as real);

    var performance := seq(|props|, i requires 0 <= i < |props| => Performance(props[i], thisWindow, daysInMonth, transactions, events));

    r := Success(Stats(
      totalRevenue, revenueGrowth, occupancyRate, occupancyGrowth,
      AverageStay(booked, |current|), 0, |current|,
      Money.Growth(|current| as real, |previous| as real),
      performance, series));
  }

  /** Bookings growth is 0 when last month had no events. */
  lemma NoPreviousBookings(current: nat)
    ensures Money.Growth(current as real, 0 as real) == 0.0
  {
  }

  /** Per-property occupancy is not clamped: 62 booked nights in a
      31-day month show as 200%. */
  lemma PropertyOccupancyUnclamped(p: Property, w: MonthWindows.Window, transactions: seq<Transaction>, events: seq<CalendarEvent>)
    requires Money.BookedNights(EventsIn(events, [p.id], w)) == 62
    ensures Performance(p, w, 31, transactions, events).occupancy == 200
  {
  }
}
