/** The data manager object: it generates the record table once, when it is
    built, and answers the month-scoped queries of the dashboard from it. The
    lemmas here join the two halves: what generation guarantees of every row
    bounds what each view can show. */
module Dashboard {
  import opened Clinic
  import opened Grouping
  import opened Generator
  import opened Aggregation
  import opened Kpi

  /** What every generated table satisfies: each row is plausible and carries
      the wait time of its date's congestion. */
  predicate WellFormed(data: seq<Record>) {
    forall i :: 0 <= i < |data| ==>
      Plausible(data[i]) && data[i].waitTime == WaitTime(DailyVisits(data, data[i].date))
  }

  lemma FinalizedWellFormed(days: seq<DayInfo>, draws: nat -> DayDraw)
    requires RawRecords(days, draws) != []
    ensures WellFormed(Finalize(RawRecords(days, draws)))
  {
    GeneratedInvariants(days, draws);
  }

  /** The rows of a month of a well-formed table are plausible and wait
      between 5 and 120 minutes. */
  lemma MonthRowsPlausible(data: seq<Record>, p: Period)
    requires WellFormed(data)
    ensures forall r :: r in InMonth(data, p) ==> Plausible(r) && MinWait <= r.waitTime <= MaxWait
  {
    forall r | r in InMonth(data, p) ensures Plausible(r) && MinWait <= r.waitTime <= MaxWait {
      var i :| 0 <= i < |data| && data[i] == r;
    }
  }

  /** The average wait of a month, when there is one, lies between 5 and 120
      minutes. */
  lemma SummaryWaitBounds(data: seq<Record>, p: Period)
    requires WellFormed(data)
    ensures var s := MonthlySummary(data, p);
      s.waitTime.Some? ==> MinWait as real <= s.waitTime.value <= MaxWait as real
  {
    var ms := InMonth(data, p);
    if ms != [] {
      MonthRowsPlausible(data, p);
      MeanBounds(ms, WaitOf, MinWait, MaxWait);
    }
  }

  /** A month's revenue lies between its visit count times the cheapest
      acute visit and times the dearest checkup. */
  lemma SummaryRevenueBounds(data: seq<Record>, p: Period)
    requires WellFormed(data)
    ensures var s := MonthlySummary(data, p);
      s.visits * 1500 <= s.revenue <= s.visits * 20000
  {
    var ms := InMonth(data, p);
    MonthRowsPlausible(data, p);
    forall r | r in ms ensures 1500 <= RevenueOf(r) <= 20000 {
      assert RevenueMin(r.segment) >= 1500 && RevenueMax(r.segment) <= 20000;
    }
    SumBounds(ms, RevenueOf, 1500, 20000);
  }

  /** Every age shown lies between 20 and 85. */
  lemma AgeBounds(data: seq<Record>, p: Period)
    requires WellFormed(data)
    ensures forall a :: a in AgeDistribution(data, p) ==> MinAge <= a <= MaxAge
  {
    MonthRowsPlausible(data, p);
    AgeDistributionShape(data, p);
  }

  /** The heatmap's rows are opening hours and it has no Sunday column. */
  lemma HeatmapAxes(data: seq<Record>, p: Period)
    requires WellFormed(data)
    ensures var hm := HeatmapData(data, p);
      (forall h :: h in hm.hours ==> h in OpeningHours) && ClosedDay !in hm.weekdays
  {
    MonthRowsPlausible(data, p);
    HeatmapCells(data, p);
  }

  /** Checkups are only ever counted on Saturdays. */
  lemma CheckupsOnSaturday(data: seq<Record>, p: Period)
    requires WellFormed(data)
    ensures forall r :: r in Where(InMonth(data, p), SegmentOf, Checkup) ==> r.weekday == CheckupDay
  {
    MonthRowsPlausible(data, p);
  }

  /** The revenue card turns negative exactly when revenue fell against a
      positive previous revenue. */
  lemma RevenueCardNegative(data: seq<Record>, p: Period)
    ensures var s, prevRevenue := MonthlySummary(data, p), Sum(InMonth(data, Prev(p)), RevenueOf);
      (KpiDelta(s.revenueDelta, false).cls == Negative) <==> (prevRevenue > 0 && s.revenue < prevRevenue)
  {
    SummaryGuards(data, p);
    SummaryDeltaSigns(data, p);
  }

  /** The first-visit card turns negative exactly when the first-visit rate
      fell. */
  lemma FirstRateCardNegative(data: seq<Record>, p: Period)
    ensures var s := MonthlySummary(data, p);
      (KpiDelta(s.firstDelta, false).cls == Negative) <==> s.firstRate < FirstVisitRate(InMonth(data, Prev(p)))
  {
    SummaryGuards(data, p);
  }

  /** The visits card turns negative exactly when visits fell against a
      non-empty previous month. */
  lemma VisitsCardNegative(data: seq<Record>, p: Period)
    ensures var s, prev := MonthlySummary(data, p), InMonth(data, Prev(p));
      KpiDelta(s.visitsDelta, false).cls == Negative <==> prev != [] && s.visits < |prev|
  {
    SummaryGuards(data, p);
    SummaryDeltaSigns(data, p);
  }

  /** The wait card reads inversely: it turns negative exactly when the
      average wait rose against a positive previous average; a NaN change
      shows as positive. */
  lemma WaitCardNegative(data: seq<Record>, p: Period)
    ensures var s, prevWait := MonthlySummary(data, p), Mean(InMonth(data, Prev(p)), WaitOf);
      (KpiDeltaOf(s.waitDelta, true).cls == Negative) <==>
        (s.waitTime.Some? && prevWait.Some? && prevWait.value > 0.0 && s.waitTime.value > prevWait.value)
  {
    SummaryDeltaSigns(data, p);
    WaitDeltaUndefined(data, p);
  }

  /** `DataManager`: the record table, generated once by the constructor. */
  class DataManager {
    var data: seq<Record>

    predicate Valid()
      reads this
    {
      WellFormed(data)
    }

    /** `__init__`: the window's days and the random draws stand for
        `months_back`, today's date and the seed. A window with no rows makes
        the source raise, so it is excluded here. */
    constructor (days: seq<DayInfo>, draws: nat -> DayDraw)
      requires RawRecords(days, draws) != []
      ensures data == Finalize(RawRecords(days, draws))
      ensures Valid()
    {
      var r := GenerateData(days, draws);
      FinalizedWellFormed(days, draws);
      data := r.value;
    }

    function GetMonthlySummary(p: Period): (s: Summary)
      reads this
      ensures 0.0 <= s.firstRate <= 100.0
      ensures s.visits == |InMonth(data, p)|
      ensures Valid() ==> s.visits * 1500 <= s.revenue <= s.visits * 20000
      ensures Valid() && s.waitTime.Some? ==> MinWait as real <= s.waitTime.value <= MaxWait as real
    {
      if Valid() then
        SummaryRevenueBounds(data, p);
        SummaryWaitBounds(data, p);
        MonthlySummary(data, p)
      else MonthlySummary(data, p)
    }

    function GetDailyTrend(p: Period): (rows: seq<TrendRow>)
      reads this
      ensures Total(Column(rows, RowVisits)) == |InMonth(data, p)|
      ensures Total(Column(rows, RowRevenue)) == Sum(InMonth(data, p), RevenueOf)
      ensures forall i, j :: 0 <= i < j < |rows| ==> DateBefore(rows[i].date, rows[j].date)
    {
      DailyTrendTotals(data, p);
      DailyTrendShape(data, p);
      DailyTrend(data, p)
    }

    function GetHeatmapData(p: Period): (hm: Heatmap)
      reads this
      ensures GridTotal(hm.cells) == |InMonth(data, p)|
      ensures Valid() ==> ClosedDay !in hm.weekdays && forall h :: h in hm.hours ==> h in OpeningHours
    {
      HeatmapTotal(data, p);
      if Valid() then
        HeatmapAxes(data, p);
        HeatmapData(data, p)
      else HeatmapData(data, p)
    }

    function GetSegmentDistribution(p: Period): (rows: seq<SegmentRow>)
      reads this
      ensures Total(Column(rows, RowCount)) == |InMonth(data, p)|
      ensures forall i, j :: 0 <= i < j < |rows| ==> rows[i].count >= rows[j].count
    {
      SegmentTotal(data, p);
      SegmentDistributionShape(data, p);
      SegmentDistribution(data, p)
    }

    function GetAgeDistribution(p: Period): (ages: seq<int>)
      reads this
      ensures |ages| == |InMonth(data, p)|
      ensures Valid() ==> forall a :: a in ages ==> MinAge <= a <= MaxAge
    {
      AgeDistributionShape(data, p);
      if Valid() then
        AgeBounds(data, p);
        AgeDistribution(data, p)
      else AgeDistribution(data, p)
    }
  }
}
