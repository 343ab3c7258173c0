/** The month-scoped views of the data manager: the KPI summary against the
    previous month, the daily trend, the hour-by-weekday heatmap, the segment
    distribution and the age column. All are read-only projections of the
    record table. */
module Aggregation {
  import opened Clinic
  import opened Grouping

  /** The rows of one calendar month (`df['date'].dt.to_period('M') == p`). */
  function InMonth(data: seq<Record>, p: Period): (ms: seq<Record>)
    ensures |ms| <= |data|
    ensures forall r :: r in ms <==> r in data && PeriodOf(r.date) == p
  {
    Where(data, MonthOf, p)
  }

  // ---------------------------------------------------------------------------
  // Monthly summary

  /** The four KPIs of a month with their change against the previous month.
      An average over no rows is NaN in pandas, here None; a change computed
      from a NaN is None as well. */
  datatype Summary = Summary(
    revenue: int,
    revenueDelta: real,
    visits: nat,
    visitsDelta: real,
    waitTime: Option<real>,
    waitDelta: Option<real>,
    firstRate: real,
    firstDelta: real)

  /** `(cur - prev) / prev * 100`, only ever computed for a positive `prev`. */
  function PercentChange(cur: real, prev: real): (r: real)
    requires prev > 0.0
    ensures r * prev == (cur - prev) * 100.0
    ensures r > 0.0 <==> cur > prev
    ensures r < 0.0 <==> cur < prev
    ensures r == 0.0 <==> cur == prev
  {
    var q := (cur - prev) / prev;
    assert q * prev == cur - prev;
    q * 100.0
  }

  /** `df[col].mean()`: None (NaN) for no rows. */
  function Mean<T>(xs: seq<T>, val: T -> int): (m: Option<real>)
    ensures m.None? <==> xs == []
    ensures m.Some? ==> m.value * (|xs| as real) == Sum(xs, val) as real
  {
    if xs == [] then None else Some(Sum(xs, val) as real / |xs| as real)
  }

  /** `part / whole * 100` */
  function Percentage(part: nat, whole: nat): (r: real)
    requires part <= whole && whole > 0
    ensures 0.0 <= r <= 100.0
    ensures r * (whole as real) == (part as real) * 100.0
  {
    var x := part as real / whole as real;
    assert x * (whole as real) == part as real;
    x * 100.0
  }

  /** The number of first visits among the rows. */
  function FirstVisits(ms: seq<Record>): (n: nat)
    ensures n <= |ms|
  {
    |Where(ms, VisitTypeOf, FirstVisit)|
  }

  /** The share of first visits, in percent; 0 for no rows. */
  function FirstVisitRate(ms: seq<Record>): (rate: real)
    ensures 0.0 <= rate <= 100.0
    ensures ms == [] ==> rate == 0.0
    ensures ms != [] ==> rate * (|ms| as real) == (FirstVisits(ms) as real) * 100.0
  {
    if |ms| > 0 then Percentage(FirstVisits(ms), |ms|) else 0.0
  }

  /** `get_monthly_summary` */
  function MonthlySummary(data: seq<Record>, p: Period): Summary {
    var cur, prev := InMonth(data, p), InMonth(data, Prev(p));
    var totalRevenue, prevRevenue := Sum(cur, RevenueOf), Sum(prev, RevenueOf);
    var avgWait, prevWait := Mean(cur, WaitOf), Mean(prev, WaitOf);
    var rate, prevRate := FirstVisitRate(cur), FirstVisitRate(prev);
    Summary(
      totalRevenue,
      if prevRevenue > 0 then PercentChange(totalRevenue as real, prevRevenue as real) else 0.0,
      |cur|,
      if |prev| > 0 then PercentChange(|cur| as real, |prev| as real) else 0.0,
      avgWait,
      if prevWait.Some? && prevWait.value > 0.0 then
        (if avgWait.Some? then Some(PercentChange(avgWait.value, prevWait.value)) else None)
      else Some(0.0),
      rate,
      rate - prevRate)
  }

  /** The zero-denominator guards: a change against an empty or non-positive
      previous month is 0, never a division; an empty month has rate 0 and no
      average wait; the rate change is a difference of percentages. */
  lemma SummaryGuards(data: seq<Record>, p: Period)
    ensures var s, prev := MonthlySummary(data, p), InMonth(data, Prev(p));
      && (Sum(prev, RevenueOf) <= 0 ==> s.revenueDelta == 0.0)
      && (prev == [] ==> s.visitsDelta == 0.0 && s.waitDelta == Some(0.0) && s.firstDelta == s.firstRate)
      && (InMonth(data, p) == [] ==> s.revenue == 0 && s.visits == 0 && s.firstRate == 0.0 && s.waitTime == None)
      && s.firstDelta == s.firstRate - FirstVisitRate(prev)
  {
  }

  /** The sign of each change says which way the KPI moved. */
  lemma SummaryDeltaSigns(data: seq<Record>, p: Period)
    ensures var s, prev := MonthlySummary(data, p), InMonth(data, Prev(p));
      && (Sum(prev, RevenueOf) > 0 ==>
            (s.revenueDelta > 0.0 <==> s.revenue > Sum(prev, RevenueOf))
            && (s.revenueDelta < 0.0 <==> s.revenue < Sum(prev, RevenueOf)))
      && (prev != [] ==>
            (s.visitsDelta > 0.0 <==> s.visits > |prev|)
            && (s.visitsDelta < 0.0 <==> s.visits < |prev|))
      && (s.waitTime.Some? && Mean(prev, WaitOf).Some? && Mean(prev, WaitOf).value > 0.0 ==>
            s.waitDelta.Some?
            && (s.waitDelta.value > 0.0 <==> s.waitTime.value > Mean(prev, WaitOf).value)
            && (s.waitDelta.value < 0.0 <==> s.waitTime.value < Mean(prev, WaitOf).value))
      && -100.0 <= s.firstDelta <= 100.0
  {
  }

  /** The wait-time change is NaN exactly when this month has no rows while
      the previous month's average is positive. */
  lemma WaitDeltaUndefined(data: seq<Record>, p: Period)
    ensures var s, prevWait := MonthlySummary(data, p), Mean(InMonth(data, Prev(p)), WaitOf);
      s.waitDelta.None? <==> InMonth(data, p) == [] && prevWait.Some? && prevWait.value > 0.0
  {
  }

  /** An average of values within [lo, hi] lies within [lo, hi]. */
  lemma MeanBounds<T>(xs: seq<T>, val: T -> int, lo: int, hi: int)
    requires xs != []
    requires forall x :: x in xs ==> lo <= val(x) <= hi
    ensures Mean(xs, val).Some? && lo as real <= Mean(xs, val).value <= hi as real
  {
    SumBounds(xs, val, lo, hi);
    QuotientBounds(Sum(xs, val), |xs|, lo, hi);
  }

  /** A total between k * lo and k * hi, divided by k, lies in [lo, hi]. */
  lemma QuotientBounds(total: int, k: nat, lo: int, hi: int)
    requires k > 0
    requires k * lo <= total <= k * hi
    ensures lo as real <= total as real / k as real <= hi as real
  {
    var q := total as real / k as real;
    assert q * (k as real) == total as real;
    assert (k * lo) as real == (k as real) * (lo as real);
    assert (k * hi) as real == (k as real) * (hi as real);
    assert (q - lo as real) * (k as real) >= 0.0;
    assert (hi as real - q) * (k as real) >= 0.0;
  }

  // ---------------------------------------------------------------------------
  // Daily trend

  /** One row of `groupby('date').agg(revenue='sum', visits='count')`. */
  datatype TrendRow = TrendRow(date: Date, revenue: int, visits: nat)

  function RowVisits(t: TrendRow): int { t.visits }
  function RowRevenue(t: TrendRow): int { t.revenue }

  function MonthDates(p: Period, days: seq<int>): (ds: seq<Date>)
    ensures |ds| == |days|
    ensures forall i :: 0 <= i < |days| ==> ds[i] == Date(p.year, p.month, days[i])
  {
    seq(|days|, i requires 0 <= i < |days| => Date(p.year, p.month, days[i]))
  }

  function TrendRows(ms: seq<Record>, ds: seq<Date>): (rows: seq<TrendRow>)
    ensures |rows| == |ds|
    ensures forall i :: 0 <= i < |ds| ==> rows[i].date == ds[i]
  {
    seq(|ds|, i requires 0 <= i < |ds| =>
      TrendRow(ds[i], Sum(Where(ms, DateOf, ds[i]), RevenueOf), |Where(ms, DateOf, ds[i])|))
  }

  /** `get_daily_trend`: one row per date of the month that has visits, in
      date order. */
  function DailyTrend(data: seq<Record>, p: Period): seq<TrendRow> {
    var ms := InMonth(data, p);
    TrendRows(ms, MonthDates(p, SortedUnique(Column(ms, DayOf))))
  }

  /** The trend's columns add up to the month's visit count and revenue. */
  lemma DailyTrendTotals(data: seq<Record>, p: Period)
    ensures Total(Column(DailyTrend(data, p), RowVisits)) == |InMonth(data, p)|
    ensures Total(Column(DailyTrend(data, p), RowRevenue)) == Sum(InMonth(data, p), RevenueOf)
  {
    var ms := InMonth(data, p);
    var ds := MonthDates(p, SortedUnique(Column(ms, DayOf)));
    MonthDatesCover(data, p);
    TrendColumns(ms, ds);
    CountsPartition(ms, DateOf, ds);
    SumsPartition(ms, DateOf, ds, RevenueOf);
  }

  /** The trend agrees with the monthly summary's revenue and visit count. */
  lemma TrendMatchesSummary(data: seq<Record>, p: Period)
    ensures Total(Column(DailyTrend(data, p), RowRevenue)) == MonthlySummary(data, p).revenue
    ensures Total(Column(DailyTrend(data, p), RowVisits)) == MonthlySummary(data, p).visits
  {
    DailyTrendTotals(data, p);
  }

  /** The trend's columns are the per-date counts and revenue totals. */
  lemma TrendColumns(ms: seq<Record>, ds: seq<Date>)
    ensures Column(TrendRows(ms, ds), RowVisits) == Counts(ms, DateOf, ds)
    ensures Column(TrendRows(ms, ds), RowRevenue) == Sums(ms, DateOf, ds, RevenueOf)
  {
  }

  /** The group keys of the trend are distinct and cover every row of the month. */
  lemma MonthDatesCover(data: seq<Record>, p: Period)
    ensures var ms := InMonth(data, p);
      var ds := MonthDates(p, SortedUnique(Column(ms, DayOf)));
      Distinct(ds) && forall r :: r in ms ==> r.date in ds
  {
    var ms := InMonth(data, p);
    var days := SortedUnique(Column(ms, DayOf));
    var ds := MonthDates(p, days);
    forall r | r in ms ensures r.date in ds {
      var i :| 0 <= i < |ms| && ms[i] == r;
      assert Column(ms, DayOf)[i] == r.date.day;
      assert r.date.day in days;
      var j :| 0 <= j < |days| && days[j] == r.date.day;
      assert ds[j] == r.date;
    }
    forall i, j | 0 <= i < j < |ds| ensures ds[i] != ds[j] {
      assert days[i] < days[j];
    }
  }

  /** The trend is in ascending date order, each of its dates has visits and
      lies in the month, and every date of the month with visits has a row. */
  lemma DailyTrendShape(data: seq<Record>, p: Period)
    ensures var rows := DailyTrend(data, p);
      && (forall i, j :: 0 <= i < j < |rows| ==> DateBefore(rows[i].date, rows[j].date))
      && (forall i :: 0 <= i < |rows| ==> PeriodOf(rows[i].date) == p && rows[i].visits > 0)
      && (forall r :: r in InMonth(data, p) ==> exists i :: 0 <= i < |rows| && rows[i].date == r.date)
  {
    var ms := InMonth(data, p);
    var days := SortedUnique(Column(ms, DayOf));
    var ds := MonthDates(p, days);
    MonthDatesOrdered(p, days);
    TrendVisitsPositive(data, p);
    MonthDatesCover(data, p);
    forall r | r in ms ensures exists i :: 0 <= i < |ds| && TrendRows(ms, ds)[i].date == r.date {
      var i :| 0 <= i < |ds| && ds[i] == r.date;
      assert TrendRows(ms, ds)[i].date == r.date;
    }
  }

  lemma MonthDatesOrdered(p: Period, days: seq<int>)
    requires StrictlyIncreasing(days)
    ensures var ds := MonthDates(p, days);
      forall i, j :: 0 <= i < j < |ds| ==> DateBefore(ds[i], ds[j]) && PeriodOf(ds[i]) == p
  {
    var ds := MonthDates(p, days);
    forall i, j | 0 <= i < j < |ds| ensures DateBefore(ds[i], ds[j]) && PeriodOf(ds[i]) == p {
      assert days[i] < days[j];
    }
  }

  /** Every date of the trend lies in the month and has visits. */
  lemma TrendVisitsPositive(data: seq<Record>, p: Period)
    ensures var ms := InMonth(data, p);
      var rows := TrendRows(ms, MonthDates(p, SortedUnique(Column(ms, DayOf))));
      forall i :: 0 <= i < |rows| ==> PeriodOf(rows[i].date) == p && rows[i].visits > 0
  {
    var ms := InMonth(data, p);
    var days := SortedUnique(Column(ms, DayOf));
    var ds := MonthDates(p, days);
    var rows := TrendRows(ms, ds);
    forall i | 0 <= i < |rows| ensures PeriodOf(rows[i].date) == p && rows[i].visits > 0 {
      assert days[i] in Column(ms, DayOf);
      var k :| 0 <= k < |ms| && Column(ms, DayOf)[k] == days[i];
      assert ms[k] in Where(ms, DateOf, ds[i]);
    }
  }

  // ---------------------------------------------------------------------------
  // Heatmap

  /** `pivot(index='hour', columns='weekday', values='count').fillna(0)`:
      rows are the hours present in the month, columns the weekdays present,
      both ascending; `cells[i][j]` counts the rows with that hour and weekday. */
  datatype Heatmap = Heatmap(hours: seq<int>, weekdays: seq<int>, cells: seq<seq<nat>>)

  function HourWeekdayOf(r: Record): (int, int) { (r.hour, r.weekday) }

  /** `get_heatmap_data` */
  function HeatmapData(data: seq<Record>, p: Period): Heatmap {
    var ms := InMonth(data, p);
    var hours := SortedUnique(Column(ms, HourOf));
    var weekdays := SortedUnique(Column(ms, WeekdayOf));
    Heatmap(hours, weekdays,
      seq(|hours|, i requires 0 <= i < |hours| => Counts(Where(ms, HourOf, hours[i]), WeekdayOf, weekdays)))
  }

  /** The total of each row of a grid. */
  function RowTotals(g: seq<seq<nat>>): (ts: seq<int>)
    ensures |ts| == |g|
    ensures forall i :: 0 <= i < |g| ==> ts[i] == Total(g[i])
  {
    seq(|g|, i requires 0 <= i < |g| => Total(g[i]))
  }

  function GridTotal(g: seq<seq<nat>>): int {
    Total(RowTotals(g))
  }

  lemma {:induction false} WhereWhere(xs: seq<Record>, h: int, w: int)
    ensures Where(Where(xs, HourOf, h), WeekdayOf, w) == Where(xs, HourWeekdayOf, (h, w))
  {
    if xs != [] {
      var init, last := xs[..|xs| - 1], xs[|xs| - 1];
      assert xs == init + [last];
      WhereWhere(init, h, w);
      WhereSnoc(init, last, HourOf, h);
      WhereSnoc(init, last, HourWeekdayOf, (h, w));
      if last.hour == h {
        WhereSnoc(Where(init, HourOf, h), last, WeekdayOf, w);
      } else {
        assert Where(xs, HourOf, h) == Where(init, HourOf, h) + [];
        assert Where(init, HourOf, h) + [] == Where(init, HourOf, h);
      }
    }
  }

  /** Every cell is the number of the month's rows with that (hour, weekday)
      pair; the axes are exactly the hours and weekdays that occur, ascending;
      a pair with no rows has the cell 0. */
  lemma HeatmapCells(data: seq<Record>, p: Period)
    ensures var ms, hm := InMonth(data, p), HeatmapData(data, p);
      && StrictlyIncreasing(hm.hours) && StrictlyIncreasing(hm.weekdays)
      && (forall h :: h in hm.hours <==> exists r :: r in ms && r.hour == h)
      && (forall w :: w in hm.weekdays <==> exists r :: r in ms && r.weekday == w)
      && |hm.cells| == |hm.hours|
      && (forall i, j :: 0 <= i < |hm.hours| && 0 <= j < |hm.weekdays| ==>
            |hm.cells[i]| == |hm.weekdays|
            && hm.cells[i][j] == |Where(ms, HourWeekdayOf, (hm.hours[i], hm.weekdays[j]))|)
  {
    var ms, hm := InMonth(data, p), HeatmapData(data, p);
    ColumnValues(ms, HourOf);
    ColumnValues(ms, WeekdayOf);
    forall i, j | 0 <= i < |hm.hours| && 0 <= j < |hm.weekdays|
      ensures hm.cells[i][j] == |Where(ms, HourWeekdayOf, (hm.hours[i], hm.weekdays[j]))|
    {
      WhereWhere(ms, hm.hours[i], hm.weekdays[j]);
    }
  }

  lemma ColumnValues<K>(ms: seq<Record>, key: Record -> K)
    ensures forall k :: k in Column(ms, key) <==> exists r :: r in ms && key(r) == k
  {
    forall k | k in Column(ms, key) ensures exists r :: r in ms && key(r) == k {
      var i :| 0 <= i < |ms| && Column(ms, key)[i] == k;
      assert ms[i] in ms;
    }
    forall k | exists r :: r in ms && key(r) == k ensures k in Column(ms, key) {
      var r :| r in ms && key(r) == k;
      var i :| 0 <= i < |ms| && ms[i] == r;
      assert Column(ms, key)[i] == k;
    }
  }

  /** The heatmap's cells add up to the month's visit count. */
  lemma HeatmapTotal(data: seq<Record>, p: Period)
    ensures GridTotal(HeatmapData(data, p).cells) == |InMonth(data, p)|
  {
    var ms, hm := InMonth(data, p), HeatmapData(data, p);
    ColumnValues(ms, HourOf);
    ColumnValues(ms, WeekdayOf);
    StrictlyIncreasingIsDistinct(hm.hours);
    StrictlyIncreasingIsDistinct(hm.weekdays);
    var rowTotals := RowTotals(hm.cells);
    forall i | 0 <= i < |hm.hours| ensures rowTotals[i] == |Where(ms, HourOf, hm.hours[i])| {
      var sub := Where(ms, HourOf, hm.hours[i]);
      assert forall r :: r in sub ==> r in ms && WeekdayOf(r) in hm.weekdays;
      CountsPartition(sub, WeekdayOf, hm.weekdays);
    }
    assert rowTotals == Counts(ms, HourOf, hm.hours);
    CountsPartition(ms, HourOf, hm.hours);
  }

  // ---------------------------------------------------------------------------
  // Segment distribution

  datatype SegmentRow = SegmentRow(name: string, count: nat)

  function RowCount(s: SegmentRow): int { s.count }

  /** The display labels of `segment_map`. */
  function SegmentLabel(s: Segment): string {
    match s
    case Lifestyle => "生活習慣病"
    case Acute => "急性疾患"
    case Checkup => "検診・ドック"
  }

  lemma SegmentLabelInjective(s: Segment, t: Segment)
    requires SegmentLabel(s) == SegmentLabel(t)
    ensures s == t
  {
    assert SegmentLabel(s)[0] == SegmentLabel(t)[0];
  }

  function SegmentCount(ms: seq<Record>, s: Segment): nat {
    |Where(ms, SegmentOf, s)|
  }

  predicate CountDescending(ms: seq<Record>, xs: seq<Segment>) {
    forall i, j :: 0 <= i < j < |xs| ==> SegmentCount(ms, xs[i]) >= SegmentCount(ms, xs[j])
  }

  /** Inserts s before the first segment whose count is not larger than its
      own, so that s precedes the segments of equal count already placed. */
  function InsertByCount(ms: seq<Record>, s: Segment, ranked: seq<Segment>): (r: seq<Segment>)
    ensures |r| == |ranked| + 1
    ensures forall t :: t in r <==> t == s || t in ranked
    ensures CountDescending(ms, ranked) ==> CountDescending(ms, r)
    ensures s !in ranked && Distinct(ranked) ==> Distinct(r)
  {
    if ranked == [] then [s]
    else if SegmentCount(ms, s) >= SegmentCount(ms, ranked[0]) then
      ConsKeepsOrder(ms, s, ranked);
      [s] + ranked
    else
      var head, tail := ranked[0], ranked[1..];
      var t := InsertByCount(ms, s, tail);
      assert ranked == [head] + tail;
      assert CountDescending(ms, ranked) ==> CountDescending(ms, tail);
      assert Distinct(ranked) ==> Distinct(tail) && head !in tail;
      ConsKeepsOrder(ms, head, t);
      [head] + t
  }

  /** Putting a segment in front keeps a list ordered and distinct when it
      dominates and does not repeat what follows. */
  lemma ConsKeepsOrder(ms: seq<Record>, x: Segment, xs: seq<Segment>)
    ensures CountDescending(ms, xs) && (forall u :: u in xs ==> SegmentCount(ms, x) >= SegmentCount(ms, u))
      ==> CountDescending(ms, [x] + xs)
    ensures Distinct(xs) && x !in xs ==> Distinct([x] + xs)
  {
    var r := [x] + xs;
    if CountDescending(ms, xs) && (forall u :: u in xs ==> SegmentCount(ms, x) >= SegmentCount(ms, u)) {
      forall i, j | 0 <= i < j < |r| ensures SegmentCount(ms, r[i]) >= SegmentCount(ms, r[j]) {
        assert r[j] == xs[j - 1];
        if i > 0 {
          assert r[i] == xs[i - 1];
        }
      }
    }
    if Distinct(xs) && x !in xs {
      forall i, j | 0 <= i < j < |r| ensures r[i] != r[j] {
        assert r[j] == xs[j - 1];
        if i > 0 {
          assert r[i] == xs[i - 1];
        }
      }
    }
  }

  /** `value_counts()` order: descending count; equal counts keep their
      order of first appearance. */
  function RankByCount(ms: seq<Record>, segs: seq<Segment>): (r: seq<Segment>)
    ensures |r| == |segs|
    ensures forall t :: t in r <==> t in segs
    ensures CountDescending(ms, r)
    ensures Distinct(segs) ==> Distinct(r)
  {
    if segs == [] then []
    else
      var rest := RankByCount(ms, segs[1..]);
      assert segs == [segs[0]] + segs[1..];
      assert Distinct(segs) ==> Distinct(segs[1..]) && segs[0] !in segs[1..];
      InsertByCount(ms, segs[0], rest)
  }

  /** The segments that occur in the month, in `value_counts()` order. */
  function RankedSegments(ms: seq<Record>): (ranked: seq<Segment>)
    ensures Distinct(ranked)
    ensures CountDescending(ms, ranked)
    ensures forall t :: t in ranked <==> exists r :: r in ms && r.segment == t
  {
    ColumnValues(ms, SegmentOf);
    RankByCount(ms, FirstAppearance(Column(ms, SegmentOf)))
  }

  function SegmentRows(ms: seq<Record>, ranked: seq<Segment>): (rows: seq<SegmentRow>)
    ensures |rows| == |ranked|
    ensures forall i :: 0 <= i < |ranked| ==> rows[i] == SegmentRow(SegmentLabel(ranked[i]), SegmentCount(ms, ranked[i]))
  {
    seq(|ranked|, i requires 0 <= i < |ranked| => SegmentRow(SegmentLabel(ranked[i]), SegmentCount(ms, ranked[i])))
  }

  /** `get_segment_distribution` */
  function SegmentDistribution(data: seq<Record>, p: Period): seq<SegmentRow> {
    var ms := InMonth(data, p);
    SegmentRows(ms, RankedSegments(ms))
  }

  /** The segment counts add up to the month's visit count. */
  lemma SegmentTotal(data: seq<Record>, p: Period)
    ensures Total(Column(SegmentDistribution(data, p), RowCount)) == |InMonth(data, p)|
  {
    var ms := InMonth(data, p);
    var ranked := RankedSegments(ms);
    assert Column(SegmentRows(ms, ranked), RowCount) == Counts(ms, SegmentOf, ranked);
    CountsPartition(ms, SegmentOf, ranked);
  }

  /** One row per segment that occurs in the month, with distinct labels and
      positive counts in descending order. */
  lemma SegmentDistributionShape(data: seq<Record>, p: Period)
    ensures var ms, rows := InMonth(data, p), SegmentDistribution(data, p);
      && (forall i :: 0 <= i < |rows| ==> rows[i].count > 0)
      && (forall i, j :: 0 <= i < j < |rows| ==> rows[i].count >= rows[j].count && rows[i].name != rows[j].name)
      && (forall r :: r in ms ==> exists i :: 0 <= i < |rows| && rows[i].name == SegmentLabel(r.segment))
  {
    var ms := InMonth(data, p);
    var ranked := RankedSegments(ms);
    var rows := SegmentRows(ms, ranked);
    forall i | 0 <= i < |rows| ensures rows[i].count > 0 {
      assert ranked[i] in ranked;
      var r :| r in ms && r.segment == ranked[i];
      assert r in Where(ms, SegmentOf, ranked[i]);
    }
    forall i, j | 0 <= i < j < |rows| ensures rows[i].name != rows[j].name {
      if rows[i].name == rows[j].name {
        SegmentLabelInjective(ranked[i], ranked[j]);
      }
    }
    forall r | r in ms ensures exists i :: 0 <= i < |rows| && rows[i].name == SegmentLabel(r.segment) {
      assert r.segment in ranked;
      var i :| 0 <= i < |ranked| && ranked[i] == r.segment;
      assert rows[i].name == SegmentLabel(r.segment);
    }
  }

  // ---------------------------------------------------------------------------
  // Age distribution

  function AgeOf(r: Record): int { r.age }

  /** `get_age_distribution`: the month's ages, row by row, unbinned. */
  function AgeDistribution(data: seq<Record>, p: Period): seq<int> {
    Column(InMonth(data, p), AgeOf)
  }

  /** The age column has one entry per visit of the month, and its values are
      exactly the ages that occur. */
  lemma AgeDistributionShape(data: seq<Record>, p: Period)
    ensures |AgeDistribution(data, p)| == MonthlySummary(data, p).visits
    ensures forall a :: a in AgeDistribution(data, p) <==> exists r :: r in InMonth(data, p) && r.age == a
  {
    ColumnValues(InMonth(data, p), AgeOf);
  }
}
