/** The synthetic visit-record generator of the dashboard's data manager.

    The calendar and the random source are inputs: the window is a list of day
    descriptors (date and weekday), and every random draw the generator makes
    is taken from a `DayDraw` per day position and a `VisitDraw` per visit
    slot. What the generator guarantees therefore holds for all draws. */
module Generator {
  import opened Clinic
  import opened Grouping

  const ClosedDay: Weekday := 6   // Sunday
  const CheckupDay: Weekday := 5  // Saturday
  const BaseLambda: real := 60.0
  const MinDaily := 10
  const MaxDaily := 100
  const MinAge := 20
  const MaxAge := 85
  const OpeningHours: seq<int> := [9, 10, 11, 12, 14, 15, 16, 17]
  const PhysicianCapacity := 60
  const WaitScale := 30
  const MinWait := 5
  const MaxWait := 120

  /** An index into OpeningHours: the outcome of the categorical hour draw. */
  type HourSlot = i: int | 0 <= i < 8

  /** One day of the window, as the calendar supplies it. */
  datatype DayInfo = DayInfo(date: Date, weekday: Weekday)

  /** The draws made for one visit slot: the segment chosen, the uniform of
      the winter re-draw, the integer-truncated revenue and age samples of the
      segment's normal distribution, the uniform that picks the visit type,
      and the hour chosen. */
  datatype VisitDraw = VisitDraw(
    segment: Segment,
    winter: real,
    revenue: int,
    visitType: real,
    age: int,
    hour: HourSlot)

  /** The draws made for one day: the uniform of the rainy-day test, the
      Poisson sampler (given the day's mean) and the draws of each visit slot. */
  datatype DayDraw = DayDraw(rain: real, poisson: real -> int, visit: nat -> VisitDraw)

  /** Building the table from no rows fails: the 'date' column does not exist. */
  datatype GenError = NoRecords

  datatype Result<T> = Success(value: T) | Failure(error: GenError)

  /** Python's `max(lo, min(hi, x))`. */
  function Clamp(x: int, lo: int, hi: int): (r: int)
    requires lo <= hi
    ensures lo <= r <= hi
    ensures lo <= x <= hi ==> r == x
    ensures x < lo ==> r == lo
    ensures hi < x ==> r == hi
  {
    var m := if x < hi then x else hi;
    if lo > m then lo else m
  }

  // ---------------------------------------------------------------------------
  // Per-day rules

  function WeekdayCoef(w: Weekday): real {
    if w == 0 then 1.2 else if w == 3 || w == 5 then 0.6 else 1.0
  }

  /** The 5% rainy-day test on a uniform draw. */
  predicate IsRainy(u: real) {
    u < 0.05
  }

  function RainCoef(rainy: bool): real {
    if rainy then 0.8 else 1.0
  }

  /** The Poisson mean of a day. It depends on the weekday and the rain only:
      the winter coefficient the source computes is never applied. */
  function AdjustedLambda(w: Weekday, rainy: bool): (l: real)
    ensures 28.8 <= l <= 72.0
    ensures rainy ==> l < BaseLambda * WeekdayCoef(w)
    ensures !rainy ==> l == BaseLambda * WeekdayCoef(w)
  {
    BaseLambda * WeekdayCoef(w) * RainCoef(rainy)
  }

  /** The nominal number of visit slots of an open day. */
  function DailyCount(w: Weekday, rainy: bool, poisson: real -> int): (n: int)
    ensures MinDaily <= n <= MaxDaily
    ensures MinDaily <= poisson(AdjustedLambda(w, rainy)) <= MaxDaily ==> n == poisson(AdjustedLambda(w, rainy))
  {
    Clamp(poisson(AdjustedLambda(w, rainy)), MinDaily, MaxDaily)
  }

  // ---------------------------------------------------------------------------
  // Per-visit rules

  predicate IsWinter(m: MonthNum) {
    m == 12 || m == 1 || m == 2
  }

  /** The winter re-draw of acute cases: both outcomes of the draw keep the
      segment 'acute', so the segment never changes. */
  function WinterAdjust(s: Segment, m: MonthNum, u: real): (r: Segment)
    ensures r == s
  {
    if s == Acute && IsWinter(m) then (if u < 0.75 then Acute else s) else s
  }

  function RevenueMin(s: Segment): int {
    match s
    case Lifestyle => 3000
    case Acute => 1500
    case Checkup => 10000
  }

  function RevenueMax(s: Segment): int {
    match s
    case Lifestyle => 8000
    case Acute => 4000
    case Checkup => 20000
  }

  function ClampRevenue(s: Segment, sample: int): (r: int)
    ensures RevenueMin(s) <= r <= RevenueMax(s)
    ensures RevenueMin(s) <= sample <= RevenueMax(s) ==> r == sample
  {
    Clamp(sample, RevenueMin(s), RevenueMax(s))
  }

  /** 90% follow-ups among lifestyle cases, 40% first visits among acute
      cases, screenings for checkups. */
  function PickVisitType(s: Segment, u: real): (v: VisitType)
    ensures v == Screening <==> s == Checkup
  {
    match s
    case Lifestyle => if u < 0.9 then FollowUp else FirstVisit
    case Acute => if u < 0.4 then FirstVisit else FollowUp
    case Checkup => Screening
  }

  /** What every generated row satisfies, whatever the draws. */
  predicate Plausible(r: Record) {
    && r.weekday != ClosedDay
    && r.hour in OpeningHours
    && MinAge <= r.age <= MaxAge
    && RevenueMin(r.segment) <= r.revenue <= RevenueMax(r.segment)
    && (r.segment == Checkup ==> r.visitType == Screening && r.weekday == CheckupDay)
    && (r.segment != Checkup ==> r.visitType == FirstVisit || r.visitType == FollowUp)
  }

  /** The row one visit slot produces, or None when a checkup is drawn on a
      day other than Saturday (the slot is dropped, not re-drawn). */
  function NewVisit(day: DayInfo, rainy: bool, d: VisitDraw): (o: Option<Record>)
    ensures o.None? <==> d.segment == Checkup && day.weekday != CheckupDay
    ensures o.Some? ==> && o.value.date == day.date && o.value.weekday == day.weekday
                        && o.value.isRainy == rainy && o.value.segment == d.segment
                        && o.value.waitTime == 0
    ensures o.Some? && day.weekday != ClosedDay ==> Plausible(o.value)
  {
    var segment := WinterAdjust(d.segment, day.date.month, d.winter);
    if segment == Checkup && day.weekday != CheckupDay then None
    else
      Some(Record(day.date, segment, PickVisitType(segment, d.visitType),
                  Clamp(d.age, MinAge, MaxAge), ClampRevenue(segment, d.revenue),
                  OpeningHours[d.hour], day.weekday, rainy, 0))
  }

  function Emitted(o: Option<Record>): seq<Record> {
    if o.Some? then [o.value] else []
  }

  /** The rows of the first n visit slots of an open day. */
  function VisitsUpTo(day: DayInfo, rainy: bool, visit: nat -> VisitDraw, n: nat): (rs: seq<Record>)
    requires day.weekday != ClosedDay
    ensures |rs| <= n
    ensures forall r :: r in rs ==>
      && Plausible(r) && r.date == day.date && r.weekday == day.weekday
      && r.isRainy == rainy && r.waitTime == 0
  {
    if n == 0 then []
    else VisitsUpTo(day, rainy, visit, n - 1) + Emitted(NewVisit(day, rainy, visit(n - 1)))
  }

  /** The rows of one day: none on Sundays, otherwise at most the day's
      nominal count, all dated that day. */
  function DayRecords(day: DayInfo, dd: DayDraw): (rs: seq<Record>)
    ensures day.weekday == ClosedDay ==> rs == []
    ensures day.weekday != ClosedDay ==> |rs| <= DailyCount(day.weekday, IsRainy(dd.rain), dd.poisson)
    ensures |rs| <= MaxDaily
    ensures forall r :: r in rs ==>
      && Plausible(r) && r.date == day.date && r.weekday == day.weekday && r.waitTime == 0
  {
    if day.weekday == ClosedDay then []
    else
      var rainy := IsRainy(dd.rain);
      VisitsUpTo(day, rainy, dd.visit, DailyCount(day.weekday, rainy, dd.poisson))
  }

  /** The rows of the first k days of the window, before wait times exist. */
  function RawUpTo(days: seq<DayInfo>, draws: nat -> DayDraw, k: nat): (rs: seq<Record>)
    requires k <= |days|
    ensures forall r :: r in rs ==> Plausible(r) && r.waitTime == 0
    ensures forall r :: r in rs ==> exists i :: 0 <= i < k && r.date == days[i].date && r.weekday == days[i].weekday
  {
    if k == 0 then []
    else
      var before, today := RawUpTo(days, draws, k - 1), DayRecords(days[k - 1], draws(k - 1));
      assert forall r :: r in before + today ==> r in before || r in today;
      before + today
  }

  function RawRecords(days: seq<DayInfo>, draws: nat -> DayDraw): seq<Record> {
    RawUpTo(days, draws, |days|)
  }

  // ---------------------------------------------------------------------------
  // Wait times

  /** The number of rows sharing the date d (`groupby('date').size()`). */
  function DailyVisits(rs: seq<Record>, d: Date): nat {
    |Where(rs, DateOf, d)|
  }

  /** `int(((c / 60) ** 2) * 30)` in exact arithmetic. */
  function RawWait(c: nat): nat {
    (c * c * WaitScale) / (PhysicianCapacity * PhysicianCapacity)
  }

  /** The congestion rule, clipped to 5..120 minutes. */
  function WaitTime(c: nat): (w: int)
    ensures MinWait <= w <= MaxWait
  {
    Clamp(RawWait(c), MinWait, MaxWait)
  }

  /** The table with every row's wait time set from its date's row count. */
  function Finalize(raw: seq<Record>): seq<Record> {
    seq(|raw|, i requires 0 <= i < |raw| => raw[i].(waitTime := WaitTime(DailyVisits(raw, raw[i].date))))
  }

  /** What `_generate_data` returns: the finished table, or the failure of
      building a table from no rows. */
  function Generated(days: seq<DayInfo>, draws: nat -> DayDraw): Result<seq<Record>> {
    var raw := RawRecords(days, draws);
    if raw == [] then Failure(NoRecords) else Success(Finalize(raw))
  }

  /** `_generate_data`: day by day, slot by slot, appending rows; then the
      per-date counts and the wait-time column. */
  method GenerateData(days: seq<DayInfo>, draws: nat -> DayDraw) returns (r: Result<seq<Record>>)
    ensures r == Generated(days, draws)
    ensures r.Failure? <==> RawRecords(days, draws) == []
    ensures r.Success? ==> forall rec :: rec in r.value ==> Plausible(rec) && MinWait <= rec.waitTime <= MaxWait
  {
    var records: seq<Record> := [];
    for k := 0 to |days|
      invariant records == RawUpTo(days, draws, k)
    {
      var day := days[k];
      if day.weekday == ClosedDay {
        continue;
      }
      var dd := draws(k);
      var isRainy := IsRainy(dd.rain);
      var lambda := AdjustedLambda(day.weekday, isRainy);
      var dailyPatients := Clamp(dd.poisson(lambda), MinDaily, MaxDaily);
      var rows := SlotRows(day, isRainy, dd.visit, dailyPatients);
      records := records + rows;
      assert records == RawUpTo(days, draws, k + 1);
    }
    if records == [] {
      return Failure(NoRecords);
    }

    var table := AssignWaitTimes(records);
    GeneratedInvariants(days, draws);
    r := Success(table);
  }

  /** The inner loop of `_generate_data`: the rows of the visit slots of one
      open day, in slot order. */
  method SlotRows(day: DayInfo, isRainy: bool, visit: nat -> VisitDraw, dailyPatients: nat) returns (records: seq<Record>)
    requires day.weekday != ClosedDay
    ensures records == VisitsUpTo(day, isRainy, visit, dailyPatients)
  {
    var month := day.date.month;
    records := [];
    for i := 0 to dailyPatients
      invariant records == VisitsUpTo(day, isRainy, visit, i)
    {
      var draw := visit(i);
      ghost var emitted := NewVisit(day, isRainy, draw);
      assert VisitsUpTo(day, isRainy, visit, i + 1) == VisitsUpTo(day, isRainy, visit, i) + Emitted(emitted);
      var segment := draw.segment;
      if segment == Acute && IsWinter(month) {
        segment := if draw.winter < 0.75 then Acute else segment;
      }
      assert segment == draw.segment;
      var revenue: int;
      var visitType: VisitType;
      if segment == Lifestyle {
        revenue := Clamp(draw.revenue, 3000, 8000);
        visitType := if draw.visitType < 0.9 then FollowUp else FirstVisit;
      } else if segment == Acute {
        revenue := Clamp(draw.revenue, 1500, 4000);
        visitType := if draw.visitType < 0.4 then FirstVisit else FollowUp;
      } else {
        revenue := Clamp(draw.revenue, 10000, 20000);
        visitType := Screening;
        if day.weekday != CheckupDay {
          assert emitted == None;
          continue;
        }
      }
      var age := Clamp(draw.age, MinAge, MaxAge);
      var hour := OpeningHours[draw.hour];
      var row := Record(day.date, segment, visitType, age, revenue, hour, day.weekday, isRainy, 0);
      assert emitted == Some(row);
      records := records + [row];
    }
  }

  /** `df.groupby('date').size()`: the row count of every date present. */
  method CountByDate(rs: seq<Record>) returns (counts: map<Date, nat>)
    ensures forall d :: d in counts <==> DailyVisits(rs, d) > 0
    ensures forall d :: d in counts ==> counts[d] == DailyVisits(rs, d)
  {
    counts := map[];
    for j := 0 to |rs|
      invariant forall d :: DailyVisits(rs[..j], d) == (if d in counts then counts[d] else 0)
      invariant forall d :: d in counts ==> counts[d] > 0
    {
      assert rs[..j + 1] == rs[..j] + [rs[j]];
      DailyVisitsSnoc(rs[..j], rs[j]);
      var d := rs[j].date;
      var c := if d in counts then counts[d] else 0;
      counts := counts[d := c + 1];
    }
    assert rs[..|rs|] == rs;
  }

  /** The wait-time column: each row's date looked up in the per-date counts
      (`daily_counts.get(d, 0)`), put through the congestion rule and clipped. */
  method AssignWaitTimes(rs: seq<Record>) returns (table: seq<Record>)
    ensures table == Finalize(rs)
  {
    var dailyCounts := CountByDate(rs);
    table := rs;
    for j := 0 to |rs|
      invariant |table| == |rs|
      invariant forall i :: 0 <= i < j ==> table[i] == Finalize(rs)[i]
      invariant forall i :: j <= i < |rs| ==> table[i] == rs[i]
    {
      var d := table[j].date;
      var c := if d in dailyCounts then dailyCounts[d] else 0;
      var w := RawWait(c);
      table := table[j := table[j].(waitTime := Clamp(w, MinWait, MaxWait))];
    }
  }

  lemma DailyVisitsSnoc(rs: seq<Record>, r: Record)
    ensures forall d :: DailyVisits(rs + [r], d) == DailyVisits(rs, d) + (if r.date == d then 1 else 0)
  {
    forall d ensures DailyVisits(rs + [r], d) == DailyVisits(rs, d) + (if r.date == d then 1 else 0) {
      WhereSnoc(rs, r, DateOf, d);
    }
  }

  // ---------------------------------------------------------------------------
  // Properties of the generated table

  /** Wait times leave the other columns alone, so each date keeps its row count. */
  lemma FinalizeKeepsDates(raw: seq<Record>, d: Date)
    ensures |Finalize(raw)| == |raw|
    ensures forall i :: 0 <= i < |raw| ==> Finalize(raw)[i].(waitTime := raw[i].waitTime) == raw[i]
    ensures DailyVisits(Finalize(raw), d) == DailyVisits(raw, d)
  {
    WhereSameKeys(Finalize(raw), raw, DateOf, d);
  }

  /** Every row's wait time is the congestion rule applied to the number of
      rows in the finished table that share its date. */
  lemma WaitTimeRule(raw: seq<Record>, i: nat)
    requires i < |raw|
    ensures i < |Finalize(raw)|
    ensures Finalize(raw)[i].waitTime == WaitTime(DailyVisits(Finalize(raw), Finalize(raw)[i].date))
  {
    FinalizeKeepsDates(raw, raw[i].date);
  }

  /** Rows on the same date get the same wait time. */
  lemma SameDateSameWait(raw: seq<Record>, i: nat, j: nat)
    requires i < |raw| && j < |raw|
    requires raw[i].date == raw[j].date
    ensures i < |Finalize(raw)| && j < |Finalize(raw)|
    ensures Finalize(raw)[i].waitTime == Finalize(raw)[j].waitTime
  {
  }

  /** A busier day never waits less. */
  lemma {:induction false} WaitTimeMonotone(c1: nat, c2: nat)
    requires c1 <= c2
    ensures WaitTime(c1) <= WaitTime(c2)
  {
    SquareMonotone(c1, c2);
    var q1, q2 := c1 * c1, c2 * c2;
    assert RawWait(c1) == (q1 * 30) / 3600 && RawWait(c2) == (q2 * 30) / 3600;
  }

  lemma SquareMonotone(a: nat, b: nat)
    requires a <= b
    ensures a * a <= b * b
  {
    assert a * a <= a * b;
    assert a * b <= b * b;
  }

  /** The source formula, computed in exact real arithmetic, truncates to the
      integer rule: (c/60)^2 * 30 is c^2/120 exactly, and flooring it is
      integer division. */
  lemma RawWaitMatchesFormula(c: nat)
    ensures ((c as real / 60.0) * (c as real / 60.0) * 30.0).Floor == RawWait(c)
  {
    var q := c * c;
    var x := (c as real / 60.0) * (c as real / 60.0) * 30.0;
    assert x == q as real / 120.0;
    var k, m := q / 120, q % 120;
    assert q == 120 * k + m && 0 <= m < 120;
    assert x == k as real + m as real / 120.0;
    assert RawWait(c) == (q * 30) / 3600 == k by {
      assert q * 30 == 3600 * k + 30 * m;
    }
  }

  /** The generated table, when there is one, consists of plausible rows with
      wait times given by the congestion rule. */
  lemma GeneratedInvariants(days: seq<DayInfo>, draws: nat -> DayDraw)
    ensures Generated(days, draws).Success? ==>
      var t := Generated(days, draws).value;
      forall i :: 0 <= i < |t| ==>
        && Plausible(t[i])
        && t[i].waitTime == WaitTime(DailyVisits(t, t[i].date))
        && MinWait <= t[i].waitTime <= MaxWait
        && (exists k :: 0 <= k < |days| && t[i].date == days[k].date && t[i].weekday == days[k].weekday)
  {
    var raw := RawRecords(days, draws);
    if raw != [] {
      var t := Finalize(raw);
      forall i | 0 <= i < |t|
        ensures Plausible(t[i]) && t[i].waitTime == WaitTime(DailyVisits(t, t[i].date))
        ensures exists k :: 0 <= k < |days| && t[i].date == days[k].date && t[i].weekday == days[k].weekday
      {
        assert raw[i] in raw;
        WaitTimeRule(raw, i);
      }
    }
  }

  /** No date receives more rows than a day's nominal maximum, provided the
      window lists each date once (as a calendar range does). */
  lemma {:induction false} DailyVisitsBound(days: seq<DayInfo>, draws: nat -> DayDraw, k: nat, d: Date)
    requires k <= |days|
    requires forall i, j :: 0 <= i < j < |days| ==> days[i].date != days[j].date
    ensures DailyVisits(RawUpTo(days, draws, k), d) <= MaxDaily
    ensures (forall i :: 0 <= i < k ==> days[i].date != d) ==> DailyVisits(RawUpTo(days, draws, k), d) == 0
  {
    if k > 0 {
      var before, today := RawUpTo(days, draws, k - 1), DayRecords(days[k - 1], draws(k - 1));
      DailyVisitsBound(days, draws, k - 1, d);
      WhereAppend(before, today, DateOf, d);
      if days[k - 1].date == d {
        assert forall i :: 0 <= i < k - 1 ==> days[i].date != d;
        assert |Where(today, DateOf, d)| <= |today|;
      } else {
        NoneWhere(today, DateOf, d);
      }
    } else {
      NoneWhere(RawUpTo(days, draws, k), DateOf, d);
    }
  }

  lemma {:induction false} WhereAppend(a: seq<Record>, b: seq<Record>, key: Record -> Date, k: Date)
    ensures Where(a + b, key, k) == Where(a, key, k) + Where(b, key, k)
  {
    if b == [] {
      assert a + b == a;
    } else {
      var init, last := b[..|b| - 1], b[|b| - 1];
      assert a + b == (a + init) + [last];
      assert b == init + [last];
      WhereAppend(a, init, key, k);
      WhereSnoc(a + init, last, key, k);
      WhereSnoc(init, last, key, k);
    }
  }

  lemma {:induction false} NoneWhere(xs: seq<Record>, key: Record -> Date, k: Date)
    requires forall x :: x in xs ==> key(x) != k
    ensures Where(xs, key, k) == []
  {
    if xs != [] {
      var init := xs[..|xs| - 1];
      assert forall x :: x in init ==> x in xs;
      NoneWhere(init, key, k);
    }
  }
}
