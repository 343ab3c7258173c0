# Clinic dashboard data manager, modelled in Dafny

This project models the data layer of a clinic management dashboard, `app.py`.
A `DataManager` object builds a synthetic table of patient visits over a window
of days when it is created. Each visit row has a date, a case-mix segment, a
visit type, an age, a revenue, an hour, a weekday, a rain flag and a wait time.

The manager then answers five month-scoped queries:
- a KPI summary against the previous month;
- a daily trend;
- an hour-by-weekday congestion heatmap;
- a segment distribution;
- the age column.

A KPI card turns each change into a colour class, an arrow and a text.

The model has six modules:

- `Clinic` (`clinic.dfy`) holds the record type and the calendar notions the table is keyed by.
  - Calendar notions: dates, weekdays, and monthly periods with their predecessor.
- `Grouping` (`grouping.dfy`) holds the table operations the queries are built from: filter, column, grouped counts and sums, and sorted and first-appearance key lists.
  - It also holds the conservation lemmas for grouping over distinct, covering keys.
- `Generator` (`generator.dfy`) holds `_generate_data`, written imperatively as its source is.
  - The day loop with its Sunday `continue`, and the slot loop with its checkup `continue`, both append rows.
  - A per-date count map and a wait-time column follow.
  - `SlotRows` equals the recursive function `VisitsUpTo`.
  - The day loop of `GenerateData` equals the recursive function `RawUpTo`, and the whole method equals `Generated`.
  - `CountByDate` is specified date by date: its map holds a date exactly when `DailyVisits` of that date is positive, with that count as the value.
  - `AssignWaitTimes` equals `Finalize`, the table with each row's wait set from its date's count.
  - These specification functions carry the invariants that every generated row satisfies, for all random draws.
- `Aggregation` (`aggregation.dfy`) holds the five queries as functions on the record sequence, with their zero-denominator guards.
  - Lemmas relate each query's totals to the month's row count and revenue.
- `Kpi` (`kpi.dfy`) holds the class, arrow and zero-text decision of a KPI card.
- `Dashboard` (`dashboard.dfy`) holds the `DataManager` class, whose single field `data` is set by the constructor.
  - Its query functions carry bounds that follow from the generator's invariants.
  - Lemmas tie each of the four KPI cards (revenue, visits, wait time, first-visit rate) to the direction in which its KPI moved.

Randomness and the calendar are inputs:
- A day is a `DayInfo` (date and weekday).
- Day position `k` draws from `draws(k)`: the rain uniform, a Poisson sampler given the day's mean, and one `VisitDraw` per slot.
- A `VisitDraw` consists of the segment, the winter uniform, the integer revenue and age samples, the visit-type uniform and the hour slot.

Pandas behaviour that the model follows as the code does:
- A month with no rows has a NaN mean, modelled as `None`. A NaN change is `None` as well.
- The heatmap pivot has rows only for the hours and columns only for the weekdays that occur in the month, both ascending. Absent pairs are 0.
- `value_counts` ranks segments by descending count. Segments with equal counts are kept in order of first appearance.
- An empty record list makes `df['date']` raise. `GenerateData` returns `Failure(NoRecords)` for that case.

Where each source function lives:

| source | model |
|---|---|
| `__init__` (app.py:161-164) | `Dashboard.DataManager` constructor |
| `_generate_data` (app.py:166-274) | `Generator.GenerateData`, specified by `Generator.Generated`, `RawUpTo`, `Finalize` and `RawWait` |
| `get_monthly_summary` (app.py:276-305) | `Aggregation.MonthlySummary`, specified by `SummaryGuards`, `SummaryDeltaSigns` and `WaitDeltaUndefined` |
| `get_daily_trend` (app.py:307-316) | `Aggregation.DailyTrend`, specified by `DailyTrendTotals`, `DailyTrendShape` and `TrendMatchesSummary` |
| `get_heatmap_data` (app.py:318-325) | `Aggregation.HeatmapData`, specified by `HeatmapCells` and `HeatmapTotal` |
| `get_segment_distribution` (app.py:327-341) | `Aggregation.SegmentDistribution`, specified by `SegmentTotal` and `SegmentDistributionShape` |
| `get_age_distribution` (app.py:343-347) | `Aggregation.AgeDistribution`, specified by `AgeDistributionShape` |
| `render_kpi_card`, delta branch (app.py:364-366) | `Kpi.KpiDelta` and `Kpi.KpiDeltaOf` |

The query functions have no contract of their own. The lemmas named beside them state what they compute.

## Model

| member | source | states |
|---|---|---|
| Clinic.Prev | app.py:281 | The previous period is one month index earlier; the previous period of January is December of the prior year. |
| Clinic.Next | app.py:281 | The following period is one month index later (partner of `Prev`). |
| Clinic.MonthIndexInjective | app.py:281 | Periods with the same month index are equal. |
| Clinic.PrevNextInverse | app.py:281 | `Prev` and `Next` are mutually inverse. |
| Grouping.Where | app.py:278 | The filtered rows are exactly the rows whose key matches, and there are no more of them than rows. |
| Grouping.Column | app.py:347 | A column has one entry per row, which is that row's value. |
| Grouping.Counts | app.py:322 | Each group's count is the number of rows with that key. |
| Grouping.Sums | app.py:311-314 | Each group's total is the sum over the rows with that key. |
| Grouping.SortedUnique | app.py:311 | `groupby` keys are strictly increasing and are exactly the values that occur. |
| Grouping.FirstAppearance | app.py:337 | The keys in order of first appearance are distinct, are exactly the values that occur, and are listed in the order of their first occurrence. |
| Grouping.FirstIndex | app.py:337 | The first index of a key holds that key, and no earlier position does. |
| Grouping.FirstIndexPrefix | app.py:337 | Appending a key leaves the first index of every key already present unchanged, and a new key's first index is the old length. |
| Grouping.OrderSnoc | app.py:337 | Appending a key keeps the first-occurrence order of the keys seen so far, and a new key goes after all of them. |
| Grouping.InsertUnique | app.py:311 | Inserting into a strictly increasing key list keeps it strictly increasing and adds exactly that key. |
| Grouping.CountsPartition | app.py:311-322 | Over distinct keys that cover every row, the group counts add up to the number of rows. |
| Grouping.SumsPartition | app.py:311-314 | Over distinct keys that cover every row, the group totals add up to the column total. |
| Grouping.CountsSnoc | app.py:322 | Appending a row raises the total group count by one exactly when its key is listed. |
| Grouping.SumsSnoc | app.py:311-314 | Appending a row raises the total of the group sums by its value exactly when its key is listed. |
| Grouping.SumBounds | app.py:284 | A column of values in [lo, hi] sums to between n*lo and n*hi. |
| Grouping.WhereSameKeys | app.py:269-271 | Tables with the same keys row by row have groups of equal size. |
| Generator.Clamp | app.py:202 | `max(lo, min(hi, x))` lies in [lo, hi], is x when x is in range, and otherwise is the bound that x crossed. |
| Generator.AdjustedLambda | app.py:180-200 | The daily Poisson mean lies in [28.8, 72]. Rain strictly lowers it. The winter coefficient plays no part. |
| Generator.DailyCount | app.py:201-202 | The nominal daily count lies in [10, 100] and equals the Poisson sample when that sample is in range. |
| Generator.WinterAdjust | app.py:212-214 | The winter redraw never changes the segment. |
| Generator.ClampRevenue | app.py:216-227 | Revenue lies in [3000,8000] for lifestyle, [1500,4000] for acute and [10000,20000] for checkup, and an in-band sample is kept. |
| Generator.PickVisitType | app.py:220-228 | The visit type is a screening exactly for checkups. |
| Generator.NewVisit | app.py:206-261 | A slot yields no row exactly when a checkup is drawn on a day other than Saturday. A row carries the day's date, weekday and rain flag, keeps the drawn segment, and is plausible on an open day. |
| Generator.VisitsUpTo | app.py:205-261 | An open day's first n slots yield at most n rows. All of them are plausible and dated that day. |
| Generator.DayRecords | app.py:174-261 | A Sunday yields no rows. Any other day yields at most its nominal count, hence at most 100, of plausible rows dated that day. |
| Generator.RawUpTo | app.py:174-261 | Every row built so far is plausible, has no wait time yet, and carries the date and weekday of one of the days processed. |
| Generator.WaitTime | app.py:266-272 | The wait time lies in [5, 120]. |
| Generator.GenerateData | app.py:166-274 | The day loop, the slot loop and the wait-time phase compute exactly `Generated`. They fail exactly when no row was produced, and otherwise every row is plausible with a wait time in [5, 120]. |
| Generator.SlotRows | app.py:205-261 | The slot loop with its `continue` appends exactly the rows `VisitsUpTo` specifies. |
| Generator.CountByDate | app.py:267 | The per-date count map has exactly the dates that occur, with their row counts. |
| Generator.AssignWaitTimes | app.py:266-272 | Rewriting the wait column in place gives the table with each row's wait set by its date's count, clipped. |
| Generator.DailyVisitsSnoc | app.py:267 | Appending a row adds one to its own date's count and to no other. |
| Generator.FinalizeKeepsDates | app.py:269-272 | Assigning wait times changes no other column and keeps every date's row count. |
| Generator.WaitTimeRule | app.py:266-272 | Every row's wait time is the clipped congestion rule of the number of rows in the final table that share its date. |
| Generator.SameDateSameWait | app.py:269-271 | Rows on the same date get the same wait time. |
| Generator.WaitTimeMonotone | app.py:270 | A busier date never has a shorter wait. |
| Generator.RawWaitMatchesFormula | app.py:270 | Computed exactly, `((c/60)**2)*30` truncates to the integer rule c*c*30 div 3600. |
| Generator.GeneratedInvariants | app.py:166-274 | Every row of the generated table is plausible, has the wait time the congestion rule gives its date, lies in [5, 120], and belongs to a day of the window. |
| Generator.DailyVisitsBound | app.py:174-205 | When each date appears once in the window, no date gets more than 100 rows, and a date outside the window gets none. |
| Aggregation.InMonth | app.py:278 | The month's rows are exactly the rows dated in that period. |
| Aggregation.PercentChange | app.py:286 | `(cur - prev) / prev * 100` times prev is the difference times 100. Its sign is the direction of the change. |
| Aggregation.Mean | app.py:292-293 | The mean is undefined exactly for no rows; otherwise the mean times the row count is the column total. |
| Aggregation.Percentage | app.py:296 | A share of a whole lies in [0, 100] and scales back to the part. |
| Aggregation.FirstVisitRate | app.py:296-297 | The first-visit rate lies in [0, 100], is 0 for no rows, and otherwise is the first-visit count over the row count, times 100. |
| Aggregation.SummaryGuards | app.py:284-298 | A change against non-positive previous revenue, or against an empty previous month, is 0. An empty month has revenue 0, visits 0, rate 0 and no average wait. The rate change is a plain difference. |
| Aggregation.SummaryDeltaSigns | app.py:286-298 | Each guarded change is positive or negative exactly when the KPI rose or fell. The rate change lies in [-100, 100]. |
| Aggregation.WaitDeltaUndefined | app.py:292-294 | The wait change is NaN exactly when this month has no rows while the previous month's average is positive. |
| Aggregation.MeanBounds | app.py:292 | The mean of values in [lo, hi] lies in [lo, hi]. |
| Aggregation.QuotientBounds | app.py:292 | A total between k*lo and k*hi, divided by k, lies in [lo, hi]. |
| Aggregation.DailyTrendTotals | app.py:307-316 | The trend's visits add up to the month's row count, and its revenue adds up to the month's revenue. |
| Aggregation.TrendMatchesSummary | app.py:284-316 | The trend's revenue and visit totals equal the summary's revenue and visits. |
| Aggregation.DailyTrendShape | app.py:307-316 | Trend rows are in strictly ascending date order, lie in the month and have visits. Every date of the month with a visit has a row. |
| Aggregation.MonthDatesCover | app.py:311 | The trend's dates are distinct and include the date of every row of the month. |
| Aggregation.TrendVisitsPositive | app.py:311-314 | Every trend date lies in the month and has at least one visit. |
| Aggregation.HeatmapCells | app.py:318-325 | The heatmap axes are the hours and weekdays that occur, ascending. Each cell counts the rows with that (hour, weekday) pair, so a pair without rows is 0. |
| Aggregation.HeatmapTotal | app.py:318-325 | The heatmap cells add up to the month's row count. |
| Aggregation.WhereWhere | app.py:322 | Filtering by hour and then by weekday selects the rows with that (hour, weekday) pair. |
| Aggregation.ColumnValues | app.py:322-347 | A column's values are exactly the values its rows carry. |
| Aggregation.SegmentLabelInjective | app.py:331-339 | Distinct segments get distinct display labels. |
| Aggregation.InsertByCount | app.py:337 | Insertion into a ranked list keeps it in descending count order and distinct, and adds exactly that segment. |
| Aggregation.RankByCount | app.py:337 | The ranking is a descending-count, distinct rearrangement of the segments present. |
| Aggregation.RankedSegments | app.py:337 | The ranked segments are distinct, in descending count order, and are exactly the segments that occur. |
| Aggregation.SegmentTotal | app.py:327-341 | The segment counts add up to the month's row count. |
| Aggregation.SegmentDistributionShape | app.py:327-341 | There is one row per segment present. Counts are positive and descending, labels are distinct, and every row's segment is listed. |
| Aggregation.AgeDistributionShape | app.py:343-347 | The age column has one entry per visit of the month, and holds exactly the ages that occur. |
| Kpi.KpiDelta | app.py:364-366 | The class is negative exactly when the change is negative on a normal card or positive on an inverse card. The arrow is down exactly for a negative change. The text is "0%" exactly for a zero change, and otherwise is its magnitude. |
| Kpi.KpiDeltaOf | app.py:364-366 | A NaN change shows as positive, up, and NaN text. |
| Kpi.InverseFlipsClass | app.py:364 | Inverting a card flips the class of every non-zero change and keeps the arrow and the text. |
| Kpi.ZeroDeltaNeutral | app.py:364-366 | A zero change shows positive, up and "0%" on either kind of card. |
| Kpi.OppositeDeltas | app.py:364-366 | Opposite non-zero changes have opposite arrows and classes and the same text. |
| Dashboard.FinalizedWellFormed | app.py:163-164 | The table the constructor stores is well formed. |
| Dashboard.MonthRowsPlausible | app.py:278 | The rows of any month of a well-formed table are plausible and wait between 5 and 120 minutes. |
| Dashboard.SummaryWaitBounds | app.py:292 | A month's average wait, when defined, lies between 5 and 120 minutes. |
| Dashboard.SummaryRevenueBounds | app.py:284-288 | A month's revenue lies between 1500 and 20000 times its visit count. |
| Dashboard.AgeBounds | app.py:343-347 | Every age shown lies in [20, 85]. |
| Dashboard.HeatmapAxes | app.py:318-325 | The heatmap has only opening hours as rows and no Sunday column. |
| Dashboard.CheckupsOnSaturday | app.py:229-231 | Every checkup counted in a month fell on a Saturday. |
| Dashboard.RevenueCardNegative | app.py:286 | The revenue card is negative exactly when revenue fell against a positive previous revenue. |
| Dashboard.FirstRateCardNegative | app.py:296-298 | The first-visit card is negative exactly when the first-visit rate fell. |
| Dashboard.VisitsCardNegative | app.py:288-290 | The visits card is negative exactly when visits fell against a non-empty previous month. |
| Dashboard.WaitCardNegative | app.py:292-294 | The inverse wait card is negative exactly when the average wait rose against a positive previous average. |
| Dashboard.DataManager.constructor | app.py:161-164 | The stored table is the generated one and is well formed. |
| Dashboard.DataManager.GetMonthlySummary | app.py:276-305 | The rate lies in [0, 100] and visits is the month's row count. On the generated table, revenue lies within the visit-count bounds and the average wait in [5, 120]. |
| Dashboard.DataManager.GetDailyTrend | app.py:307-316 | The trend totals equal the month's visits and revenue, and its dates ascend. |
| Dashboard.DataManager.GetHeatmapData | app.py:318-325 | The cells add up to the month's visits. On the generated table there is no Sunday column and only opening hours. |
| Dashboard.DataManager.GetSegmentDistribution | app.py:327-341 | The counts add up to the month's visits in descending order. |
| Dashboard.DataManager.GetAgeDistribution | app.py:343-347 | There is one age per visit. On the generated table every age lies in [20, 85]. |

## Left out

- Random number generation: the numpy Poisson, normal, uniform and categorical samplers, and `np.random.seed`, are replaced by the draw inputs. The model does not state the probabilities, and the same draws always give the same table.
- The calendar: `datetime.now()`, `months_back` and `pd.date_range` are replaced by the list of day descriptors. The model does not check that a weekday agrees with its date, or that a date is valid.
- The floating-point evaluation of `int(((c/60)**2)*30)` is modelled as exact integer arithmetic. `RawWaitMatchesFormula` ties the two in exact real arithmetic, not in IEEE doubles.
- The summary's means, percentage changes and first-visit rates are exact rationals (`real`), where the source computes IEEE doubles. Rounding is not modelled. The sign and zero tests of the guards and of the KPI cards are stated on the exact values.
- The normal samples are modelled as draws that are already integers: the truncating `int(...)` of a float sample is not modelled.
- The `gender` column is not modelled. No query reads it.
- The `seasonal_coef` computation is not modelled. It has no effect on anything.
- Display formatting of values and changes (`:.1f`, `:,.0f`) is not modelled. `Kpi.KpiDelta` yields the magnitude rather than its rounded text, so a change below 0.05 has text `Magnitude`, not "0.0%".
- The `kpi-card` HTML, the Streamlit page and the Plotly charts are presentation only and are not modelled.
- Dashboard.DataManager.constructor: it requires at least one generated row, because the source raises a `KeyError` in that case. `Generator.GenerateData` models the failure itself as `Failure(NoRecords)`.
- The `fillna(0)` dtype change of the heatmap (float counts) is not modelled. Cells are natural numbers.
- Timestamps: a trend row is keyed by a calendar date rather than a timestamp. The time of day that `pd.date_range` carries over from `datetime.now()` is the same for every row, so it is not modelled.
