/** The record table of the clinic dashboard: one row per simulated visit,
    with the calendar notions (dates, weekdays, monthly periods) it is keyed by. */
module Clinic {

  datatype Option<T> = None | Some(value: T)

  /** Python's `date.weekday()`: Monday is 0, Sunday is 6. */
  type Weekday = w: int | 0 <= w <= 6

  type MonthNum = m: int | 1 <= m <= 12 witness 1

  /** A calendar date as the table stores it. Calendar validity (the number of
      days in a month) is not checked: dates arrive as given day descriptors. */
  datatype Date = Date(year: int, month: MonthNum, day: int)

  /** A monthly period, as pandas' `Period(freq='M')`. */
  datatype Period = Period(year: int, month: MonthNum)

  /** `date.dt.to_period('M')` */
  function PeriodOf(d: Date): Period {
    Period(d.year, d.month)
  }

  /** Months counted from year 0, so that consecutive periods differ by one. */
  function MonthIndex(p: Period): int {
    p.year * 12 + p.month - 1
  }

  /** `period - 1`: the immediately preceding month. */
  function Prev(p: Period): (q: Period)
    ensures MonthIndex(q) == MonthIndex(p) - 1
    ensures p.month == 1 ==> q == Period(p.year - 1, 12)
    ensures p.month > 1 ==> q == Period(p.year, p.month - 1)
  {
    if p.month == 1 then Period(p.year - 1, 12) else Period(p.year, p.month - 1)
  }

  /** `period + 1`, the inverse of Prev. */
  function Next(p: Period): (q: Period)
    ensures MonthIndex(q) == MonthIndex(p) + 1
  {
    if p.month == 12 then Period(p.year + 1, 1) else Period(p.year, p.month + 1)
  }

  /** A period is determined by its month index. */
  lemma MonthIndexInjective(p: Period, q: Period)
    requires MonthIndex(p) == MonthIndex(q)
    ensures p == q
  {
    assert 12 * (p.year - q.year) == q.month - p.month;
  }

  lemma PrevNextInverse(p: Period)
    ensures Prev(Next(p)) == p && Next(Prev(p)) == p
  {
    MonthIndexInjective(Prev(Next(p)), p);
    MonthIndexInjective(Next(Prev(p)), p);
  }

  /** Chronological order of dates. */
  predicate DateBefore(a: Date, b: Date) {
    a.year < b.year
    || (a.year == b.year && a.month < b.month)
    || (a.year == b.year && a.month == b.month && a.day < b.day)
  }

  /** Case-mix bucket: 'lifestyle', 'acute', 'checkup'. */
  datatype Segment = Lifestyle | Acute | Checkup

  /** '初診' (first visit), '再診' (follow-up), '検診' (screening). */
  datatype VisitType = FirstVisit | FollowUp | Screening

  /** One row of the record table. `waitTime` is the column that is filled in
      after all rows exist; before that it holds 0. */
  datatype Record = Record(
    date: Date,
    segment: Segment,
    visitType: VisitType,
    age: int,
    revenue: int,
    hour: int,
    weekday: Weekday,
    isRainy: bool,
    waitTime: int)

  // Column selectors, used as grouping keys and summed values.
  function DateOf(r: Record): Date { r.date }
  function MonthOf(r: Record): Period { PeriodOf(r.date) }
  function DayOf(r: Record): int { r.date.day }
  function HourOf(r: Record): int { r.hour }
  function WeekdayOf(r: Record): int { r.weekday }
  function SegmentOf(r: Record): Segment { r.segment }
  function VisitTypeOf(r: Record): VisitType { r.visitType }
  function RevenueOf(r: Record): int { r.revenue }
  function WaitOf(r: Record): int { r.waitTime }
}
