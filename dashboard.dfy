/** `loadDashboardData`: the number of properties, this month's occupancy
    and nights, and twelve months of income ending with the current month.
    Query results are inputs: the profile's company name (absent when the
    profile row is missing), the user's properties and the event and
    transaction tables the queries filter. */
module Dashboard {
  import opened Wrappers
  import opened Entities
  import Dates
  import Money
  import MonthWindows
  import Analytics

  const NoUserError := "No authenticated user found"

  datatype Stats = Stats(
    totalProperties: int,
    occupancyRate: int,
    monthlyIncome: real,
    bookedNights: int,
    availableNights: int,
    monthlyIncomeData: seq<MonthWindows.MonthAmount>)

  /** What a load leaves behind: the statistics and, when the profile row
      was found, the company name to greet with. */
  datatype Loaded = Loaded(stats: Stats, userName: Option<string>)

  /** The twelve-month loop, oldest month first. */
  method MonthlyIncome(now: Dates.YearMonth, userId: string, rows: seq<Transaction>)
    returns (series: seq<MonthWindows.MonthAmount>)
    ensures series == MonthWindows.Series(now, userId, rows, 12, 12)
  {
    series := [];
    var i := 11;
    while i >= 0
      invariant -1 <= i <= 11
      invariant series == MonthWindows.Series(now, userId, rows, 12, 11 - i)
    {
      var entry := MonthWindows.SeriesEntry(now, i, userId, rows);
      MonthWindows.SeriesSnoc(now, userId, rows, 12, 11 - i);
      series := series + [entry];
      i := i - 1;
    }
  }

  /** `loadDashboardData` after the user, the profile and the properties
      have been read. */
  method LoadDashboard(user: Option<string>, now: Dates.Date, companyName: Option<string>,
                       properties: Option<seq<Property>>, transactions: seq<Transaction>, events: seq<CalendarEvent>)
    returns (r: Result<Loaded, string>)
    requires now.Valid()
    ensures user.None? <==> r == Failure(NoUserError)
    ensures r.Success? ==>
      var s := r.value.stats;
      var props := if properties.Some? then properties.value else [];
      var days := Dates.MakeDate(now.year, now.month + 1, 0).day;
      var booked := Money.BookedNights(Analytics.EventsIn(events, Analytics.Ids(props), MonthWindows.MonthWindow(now.year, now.month)));
      && r.value.userName == companyName
      && s.totalProperties == |props|
      && s.bookedNights == booked
      && s.occupancyRate == Money.OccupancyRate(booked, |props| * days)
      && s.availableNights == |props| * days - booked
      // the occupancy chart's total is every possible night, and its
      // available slice goes negative exactly when nights are overbooked
      && s.bookedNights + s.availableNights == s.totalProperties * days
      && (s.availableNights < 0 <==> s.bookedNights > s.totalProperties * days)
      && s.monthlyIncomeData == MonthWindows.Series(now.Month(), user.value, transactions, 12, 12)
      && s.monthlyIncome == s.monthlyIncomeData[11].amount
  {
    if user.None? {
      return Failure(NoUserError);
    }
    var props := if properties.Some? then properties.value else [];
    var totalProperties := |props|;
    var daysInMonth := Dates.MakeDate(now.year, now.month + 1, 0).day;
    var totalPossibleNights := totalProperties * daysInMonth;
    var current := Analytics.EventsIn(events, Analytics.Ids(props), MonthWindows.MonthWindow(now.year, now.month));
    var bookedNights := Money.BookedNights(current);
    var occupancyRate := Money.OccupancyRate(bookedNights, totalPossibleNights);
    var series := MonthlyIncome(now.Month(), user.value, transactions);
    r := Success(Loaded(
      Stats(totalProperties, occupancyRate, series[|series| - 1].amount, bookedNights,
            totalPossibleNights - bookedNights, series),
      companyName));
  }

  /** The income card shows the current month's total, the same figure
      the analytics page reports as this month's revenue; the last six
      months of the chart are the analytics page's series. */
  lemma {:induction false} IncomeAgreesWithAnalytics(now: Dates.YearMonth, userId: string, rows: seq<Transaction>)
    ensures MonthWindows.Series(now, userId, rows, 12, 12)[11] == MonthWindows.SeriesEntry(now, 0, userId, rows)
    ensures forall j :: 0 <= j < 6 ==>
      MonthWindows.Series(now, userId, rows, 12, 12)[6 + j] == MonthWindows.Series(now, userId, rows, 6, 6)[j]
  {
    MonthWindows.SeriesAt(now, userId, rows, 12, 12, 11);
    forall j | 0 <= j < 6
      ensures MonthWindows.Series(now, userId, rows, 12, 12)[6 + j] == MonthWindows.Series(now, userId, rows, 6, 6)[j]
    {
      MonthWindows.BuildSuffix(MonthWindows.EntryOf(now, userId, rows), 6, 6, j);
    }
  }
}
