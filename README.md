# Airline delay dashboards: the filter-and-aggregate core

This package models the logic behind several Streamlit dashboards. Each works over one table of monthly airline-delay records: one carrier at one airport in one month. A record holds the year, month, carrier, airport code, cleansed airport name, city, a season label, arriving and delayed flights, five delay-cause counts and average delays. The widgets, charts and CSV reading are stripped away, and the model proves what is left:

- **Loading** (`LoadData`). The trend dashboard adds a first-of-month `date` column when the table has `year` and `month` columns. It also adds a guarded `delay_rate` column unless one already exists. Both additions are in place, on a `DelayFrame` object.
- **Delay Trends** (`TrendView`). A season select box plus carrier and airport multi-selects narrow the table. Two KPI means summarise the result, with 0 for an empty table. A grouping variable is picked from the selection sizes. Each trend is the mean of one metric per date, or per (date, group), in ascending date order. `app.py` and `julia_files/app.py` carry the same logic, and one module models both.
- **Delay Causes** (`CauseView`, `Ranking`, `Aggregates`):
  - An optional airport, chosen among the ten riskiest, narrows the table by exact equality, and so does an optional dependent airline. An optional season narrows it to the rows whose month lies in that season's month set.
  - The remainder is summed per carrier, and its five cause counts are shown as shares of total flights, only when there are flights.
  - The ten riskiest airports: group by cleansed name, keep airports with at least 100000 flights, rank them by delayed/flights descending.
- **Alternative cause breakdown** (`CauseViewAlt`, for `delay_types_vis_alt.py`):
  - It is restricted to 2014-2019 on load. Every member takes the table as read and works on its 2014-2019 rows, so no earlier or later row reaches an option list, a filter result or a share.
  - The airport and airline filters are case-insensitive substring matches.
  - A season label such as "Summer (June-Aug)" picks its months by the season word it contains.
  - The per-carrier table gains an `on_time` column in place.
  - Its shares divide with no guard.
- **Basic cause breakdown** (`CauseViewBasic`, for `delay_types_vis.py`). It uses substring filters on the airport code and the carrier and a season-name filter, then restricts to 2014-2019. Shares are guarded by total flights.
- **Airport Analysis** (`AirportView`):
  - An `airport_display` column "City (CODE)" is assigned in place.
  - The filters are an airline select box ("All" or one carrier), an airport multi-select over labels, an inclusive year range, and an inclusive month range given by labels such as "3-Mar".
  - Three KPIs summarise the result.
- **Sidebar filters** (`JordanFilters`, for `jordan_files/filters.py`). An airline box and an airport box, each headed by "All", and a month range.

Shared modules:

- `Seqs`: an order-preserving `Filter` and its algebra, sorted-unique insertion, and means.
- `Text`: code-point string order, ASCII case folding, substring search and decimal parsing.
- `Records`: the record and its derived fields.

Where the code behaves differently from what its labels suggest, the model follows the code:

- "Delayed %" counts rows whose `arr_del15` value is exactly 1. That value is a per-month count of delayed flights, not a 0/1 flag, so this is not the share of delayed flights.
- "Total Flights" is the number of rows, not the sum of `arr_flights`.
- Both are modelled as written, in `AirportView.Kpis`.

## Model

| member | source | states |
|---|---|---|
| Records.FirstOfMonthChronological | julia_files/app.py:28-31 | The dates `FirstOfMonth` builds (it gives none for a month outside 1..12 or outside the timestamp range 1677-10 to 2262-04, where the conversion raises) compare like the months they name: earlier iff the month count 12 × year + month is smaller, equal iff it is the same |
| Records.DelayRate | julia_files/app.py:34-39 | 0 when there are no flights; otherwise rate × flights = delayed flights, so there is never a division by zero; within [0, 1] when 0 ≤ delayed ≤ flights |
| Records.AirportLabel | jordan_files/filters.py:9 | "City (CODE)" is three characters longer than city and code together and ends in ')' |
| Records.AirportLabelIsNeverAll | jordan_files/filters.py:9-11 | No airport label equals the "All" sentinel that heads the select box |
| Records.AirportLabelDeterminesCode | jordan_files/filters.py:49-51 | Equal labels mean equal city and equal code, when codes hold no '(' |
| Records.SeasonsPartitionMonths | app.py:128-130 | A value lies in a season's month set iff it is a month 1..12 whose season is that one, so each month lies in exactly one set |
| Text.SortedStrings | julia_files/app.py:57 | `sorted(unique())`: strictly ascending, hence unrepeated, with exactly the members of the input |
| Text.ParseNatToDecimal | app.py:219-220 | `ParseDecimal` (`int()` of a digit string) reads back the decimal spelling of any n as n |
| Text.BeforeFirst | app.py:219-220 | `split("-")[0]` is a prefix without the separator, followed by the separator whenever it is shorter than the input |
| Text.BeforeFirstOfJoin | app.py:219-220 | The part before the first separator of d + sep + rest is d when d holds no separator |
| Text.EqualContainsIgnoreCase | delay_types_vis_alt.py:31-33 | A value matches itself under the case-insensitive substring test |
| LoadData.LoadedRowsFacts | julia_files/app.py:24-41 | Each loaded row differs from the row read only in `date` and `delay_rate`; `date` is the first of the month exactly when `year` and `month` exist; an existing `delay_rate` is kept, and a derived one is the guarded quotient |
| LoadData.DelayFrame.constructor | julia_files/app.py:25 | The frame holds the rows and columns read |
| LoadData.DelayFrame.AddDateColumn | julia_files/app.py:29-31 | Succeeds iff every row's first of the month has month 1..12 and lies in the timestamp range 1677-10 to 2262-04; then each row's date is set and the `date` column is added; otherwise the frame is unchanged |
| LoadData.DelayFrame.AddDelayRateColumn | julia_files/app.py:35-39 | Each row's `delay_rate` is set from its own counts and the column is added |
| LoadData.DelayFrame.Load | julia_files/app.py:24-41 | Succeeds iff the date conversion cannot raise (no month outside 1..12, no first of the month outside the timestamp range); then rows and columns are the loaded ones of LoadedRows and LoadedColumns; otherwise unchanged |
| TrendView.FilterSeasonIsFilter | julia_files/app.py:79-80 | The season step is "All" or an exact `season` match |
| TrendView.FilterCarriersIsFilter | julia_files/app.py:82-83 | An empty carrier multi-select keeps every row; a non-empty one keeps rows whose carrier is selected |
| TrendView.FilterAirportsIsFilter | julia_files/app.py:85-86 | The same for the airport-code multi-select |
| TrendView.FilterTrendIsConjunction | julia_files/app.py:77-86 | The three successive steps equal one filter by the conjunction of the three predicates |
| TrendView.FilterTrendKeeps | app.py:43-49 | `FilterTrend`, the three filter steps: the filtered rows are a subsequence of the table and are exactly the rows with the chosen season (unless "All"), a selected carrier (unless none) and a selected airport (unless none) |
| TrendView.FilterTrendDefaults | julia_files/app.py:77-86 | "All" and two empty multi-selects return the table unchanged |
| TrendView.KpisFacts | app.py:52-53 | `Kpis`, the two KPI means: 0 and 0 on an empty table; otherwise each KPI times the row count is the column sum; the rate KPI lies in [0, 1] when every rate does |
| TrendView.GroupVarPriority | julia_files/app.py:107-112 | `GroupVarOf`: carrier grouping iff more than one carrier; airport grouping iff at most one carrier and more than one airport; none otherwise; the choice depends only on the selection sizes |
| TrendView.KeyLtIsStrictTotalOrder | julia_files/app.py:121-127 | The (date, group) order used to sort buckets is a strict total order |
| TrendView.Trend | julia_files/app.py:121-143 | One point per distinct bucket key, in strictly ascending (date, group) order; each point's value is the mean of its bucket's metric values |
| TrendView.BucketOfRowKey | julia_files/app.py:122-127 | The bucket of any key that occurs in the rows is non-empty |
| TrendView.BucketValuesIsColumn | julia_files/app.py:122-127 | `BucketValues`, the values a bucket averages: the metric of exactly the rows with that bucket's key, each once, in row order |
| TrendView.TrendFacts | app.py:68-99 | Keys are unrepeated, dates are non-decreasing and an empty table gives no points; every bucket is non-empty; values stay within any bounds that hold for all rows |
| TrendView.TrendChartFacts | julia_files/app.py:119-214 | `TrendChart`: a chart is drawn exactly when some row passes the filters; grouped points carry a carrier or airport among those selected |
| Aggregates.GroupSums | app.py:132 | `groupby().sum()`: one group per distinct key, in ascending key order, each holding the sums of the rows with that key |
| Aggregates.GroupTotals | app.py:132-133 | The per-group sums add up to the sums over all rows: grouping drops no row |
| Aggregates.SharesOf | app.py:136-142 | Each share times total flights is that cause's summed count |
| Aggregates.CauseSharesOfRows | app.py:132-156 | `CauseShares` of the carrier groups of some rows: shares exist iff those rows hold some flight, and each is then that cause's count over the rows divided by their flights |
| Ranking.Qualified | app.py:109 | Exactly the airports with at least 100000 flights |
| Ranking.AssignDelayPct | app.py:110 | In place, each row's `delay_pct` becomes its guarded delays/flights; nothing else changes |
| Ranking.InsertByPctPermutes | app.py:111 | Inserting into a non-increasing sequence adds exactly the one element: the result has the multiset of the input plus that element |
| Ranking.SortByPctDesc | app.py:111 | Non-increasing `delay_pct` and a permutation of the input (the same multiset), so the same members and length, unrepeated if the input is |
| Ranking.RankTop10 | app.py:105-111 | The ranker as run (fresh frame, in-place column, sort, head) returns Top10 |
| Ranking.TotalsFacts | app.py:105-108 | The per-airport totals are unrepeated and named uniquely, each holds its airport's summed flights and delays, and every airport with a row has one |
| Ranking.WeightedFacts | app.py:109-110 | The qualified rows are unrepeated and describe their airports, and every airport at the threshold is among them |
| Ranking.RankedFacts | app.py:111 | The ranked table is the qualified one in non-increasing order of `delay_pct` |
| Ranking.Top10Qualified | app.py:109-111 | Every name returned has rows and at least 100000 summed flights |
| Ranking.Top10Ordered | app.py:111 | Names come in non-increasing order of delayed/flights |
| Ranking.Top10Distinct | app.py:111 | No name is returned twice |
| Ranking.Top10Complete | app.py:111 | A qualifying airport left out means ten names were kept, each ranking at least as high |
| Ranking.Top10Correct | app.py:105-111 | `Top10`, all of the above together: at most ten distinct qualifying names, in order, and complete |
| CauseView.AirportOptionsFacts | app.py:115 | `AirportOptions`: None first, then at most ten distinct airports, each with rows and at least 100000 flights |
| CauseView.AirlineOptionsFacts | app.py:117 | `AirlineOptions`: sorted, unrepeated, and exactly the carriers with a row, at the chosen airport when one is chosen |
| CauseView.FilterCauseIsConjunction | app.py:122-130 | The airport, airline and season steps of `FilterCause` equal one filter by `PassesCause`, the conjunction of the three active predicates |
| CauseView.FilterCauseKeeps | app.py:122-130 | `FilterCause` is the filter by `PassesCause`: a subsequence of the table keeping, with their multiplicity, exactly the rows matching the chosen airport and airline by equality and lying in the chosen season's months; with a season, every kept month is of that season |
| CauseView.CauseBreakdownFacts | app.py:122-156 | `CauseBreakdown`: shares are shown exactly when the filtered rows hold some flight, and each is that cause's summed count over them divided by their flights |
| CauseViewAlt.LoadYears | delay_types_vis_alt.py:10 | A subsequence with exactly the rows of 2014-2019, each kept as often as it occurs |
| CauseViewAlt.AltTop10Facts | delay_types_vis_alt.py:13-19 | At most ten distinct names, each with 2014-2019 rows and at least 100000 flights in those years, in non-increasing delay order |
| Seqs.Distinct | delay_types_vis_alt.py:25 | `unique()`: exactly the input's values, unrepeated, in their order of first appearance |
| CauseViewAlt.AltAirlineOptionsFacts | delay_types_vis_alt.py:22-25 | `AltAirlineOptions`: unrepeated, and exactly the carriers with a 2014-2019 row, at the chosen airport when one is chosen; sorted when an airport is chosen, otherwise in order of first appearance among the 2014-2019 rows |
| CauseViewAlt.SeasonOfWord | delay_types_vis_alt.py:34-42 | `SeasonOfLabel`: a label that starts with one season word, and lacks the letters that would let an earlier test fire, maps to that season |
| CauseViewAlt.WinterLabel | delay_types_vis_alt.py:26 | "Winter (Dec-Feb)" maps to Winter |
| CauseViewAlt.SpringLabel | delay_types_vis_alt.py:26 | "Spring (Mar-May)" maps to Spring |
| CauseViewAlt.SummerLabel | delay_types_vis_alt.py:26 | "Summer (June-Aug)" maps to Summer |
| CauseViewAlt.FallLabel | delay_types_vis_alt.py:26 | "Fall (Sept-Nov)" maps to Fall |
| CauseViewAlt.FilterAltIsConjunction | delay_types_vis_alt.py:28-42 | The year cut on load and the airport, airline and season steps of `FilterAlt` equal one filter of the table as read by `PassesAlt`, the conjunction of the year range and the active predicates |
| CauseViewAlt.FilterAltKeeps | delay_types_vis_alt.py:28-42 | `FilterAlt` is the filter of the table as read by `PassesAlt`: a subsequence keeping, with their multiplicity, exactly the rows of 2014-2019 whose airport name and carrier contain the choices ignoring case, and whose month lies in the labelled season; None imposes nothing |
| CauseViewAlt.ExactWithinSubstring | delay_types_vis_alt.py:30-33 | Exact-match filtering keeps a subsequence of what substring filtering keeps |
| CauseViewAlt.InsertOnTime | delay_types_vis_alt.py:45 | In place, each row gains `on_time` = flights - delayed; nothing else changes |
| CauseViewAlt.CarrierBreakdown | delay_types_vis_alt.py:44-45 | The per-carrier table (`CarrierTable`, one row per carrier group) of the filtered 2014-2019 rows, with its `on_time` column |
| CauseViewAlt.OnTimeTotals | delay_types_vis_alt.py:45-54 | The table's column totals are the group totals, and its `on_time` total is total flights less total delays |
| CauseViewAlt.AltSharesOf | delay_types_vis_alt.py:47-54 | The cause shares of the totals, and on-time share × flights = on-time total |
| CauseViewAlt.OneLessRate | delay_types_vis_alt.py:54 | A share whose product with flights is flights - delayed equals 1 - the delay rate |
| CauseViewAlt.AltSharesFacts | delay_types_vis_alt.py:44-54 | On the filtered 2014-2019 rows, when they hold flights, the table's totals are those rows' totals, the cause shares are the totals over flights and the on-time share is 1 - their delay rate |
| CauseViewAlt.OutsideYearsIgnored | delay_types_vis_alt.py:10-42 | A table with no 2014-2019 row offers no airline, whichever airport is chosen, and leaves no row after the filters |
| CauseViewBasic.ByCodeIsFilter | delay_types_vis.py:17-18 | The airport step keeps the rows whose code contains the choice ignoring case |
| CauseViewBasic.ByCarrierIsFilter | delay_types_vis.py:19-20 | The carrier step keeps the rows whose carrier contains the choice ignoring case |
| CauseViewBasic.BySeasonIsFilter | delay_types_vis.py:21-29 | The season step, through `SeasonOfName`, keeps the rows with a month of the named season, and everything for a name that is not a season |
| CauseViewBasic.FilterBasicIsConjunction | delay_types_vis.py:15-31 | The four steps, with years last, equal one filter by the conjunction |
| CauseViewBasic.FilterYearsFirstIsConjunction | delay_types_vis.py:15-31 | The same four steps with years first equal that filter too |
| CauseViewBasic.YearsLastEqualsYearsFirst | delay_types_vis.py:15-31 | Restricting the years last, as written, gives the same rows as restricting them first |
| CauseViewBasic.FilterBasicKeeps | delay_types_vis.py:15-31 | `FilterBasic`: a subsequence with exactly the matching rows; every kept row's year lies in 2014-2019 |
| CauseViewBasic.BasicBreakdownFacts | delay_types_vis.py:33-54 | `BasicBreakdown`: shares appear exactly when the filtered rows hold some flight; each is that cause's summed count divided by their flights |
| AirportView.AssignAirportDisplay | app.py:203 | In place, each row's `airport_display` becomes "City (CODE)"; nothing else changes |
| AirportView.OptionsFacts | app.py:161-163 | The airline list starts with "All" and offers every carrier; the airport list is sorted and offers exactly the rows' labels |
| AirportView.MonthOfNumberLabel | app.py:218-220 | `MonthOfLabel`: a label "k-…" parses to k |
| AirportView.DefaultMonthLabels | app.py:184-198 | The first and last slider labels parse to 1 and 12 |
| AirportView.AirportTab | app.py:202-221 | The tab as run (fresh copy, in-place label column, filters) returns FilterAirportTab |
| AirportView.BeforeMonthsIsConjunction | app.py:202-215 | The airline, airport and year steps equal one filter of the labelled rows by `PassesBeforeMonths`, the conjunction of the three |
| AirportView.BeforeMonthsMembers | app.py:202-215 | After the airline, airport and year steps: the filter by `PassesBeforeMonths`, a subsequence of the labelled rows keeping, with their multiplicity, exactly those passing all three |
| AirportView.MonthsFilterIsConjunction | app.py:202-221 | The month step after the other three equals one filter of the labelled rows by `PassesAirportTab` |
| AirportView.FilterAirportTabKeeps | app.py:202-221 | `FilterAirportTab`: a result exists iff both month labels parse; it is then the filter by `PassesAirportTab`, a subsequence keeping, with their multiplicity, exactly the labelled rows of the chosen airline (unless "All"), a chosen label (unless none), and year and month within the inclusive ranges |
| AirportView.DefaultsKeepAll | app.py:169-199 | The initial widgets keep every row of a table whose years lie in its span and whose months are calendar months |
| AirportView.CountExactlyOne | app.py:229 | The count of rows with `arr_del15 == 1` is at most the row count |
| AirportView.CountExactlyOneFacts | app.py:229 | The count is 0 iff no row has `arr_del15 == 1`, and equals the row count iff every row has |
| AirportView.Percent | app.py:229 | c of n as a percentage: p × n = 100 × c, within [0, 100], 0 iff c = 0, 100 iff c = n |
| AirportView.KpisAverage | app.py:226-227 | `Kpis` and its `AvgDelay`: an empty table shows "N/A", 0 and "N/A"; "Total Flights" is the row count; the average is shown iff a row is left, and then times the row count it is the summed arrival delay |
| AirportView.KpisDelayedPct | app.py:228-232 | `DelayedPct`, the third value of `Kpis`: "Delayed %" is shown iff the column exists and a row is left; it is then 100 × count/rows, in [0, 100], 0 iff no row is flagged and 100 iff all are |
| JordanFilters.MaxMonth | jordan_files/filters.py:20 | None on an empty table; otherwise a month some row has that no row exceeds |
| JordanFilters.ApplyFiltersIsConjunction | jordan_files/filters.py:41-59 | The carrier, label and month masks of `ApplyFilters` in a row equal one filter by `Passes`, their conjunction |
| JordanFilters.ApplyFiltersKeeps | jordan_files/filters.py:41-59 | `ApplyFilters` is the filter by `Passes`: a subsequence of the input keeping, in order and with their multiplicity, exactly the rows with the chosen carrier (unless "All"), the chosen label (unless "All") and a month in the inclusive range |
| JordanFilters.DefaultsKeepAll | jordan_files/filters.py:20-27 | `DefaultSelections`: defaults exist iff the table has rows; they then keep exactly the rows with month ≥ 0, so the whole table when no month is negative |
| JordanFilters.OptionsFacts | jordan_files/filters.py:9-11 | `AirportList` and the airline list: both boxes start with "All"; the airport box offers exactly "All" and the rows' labels, sorted after "All"; no label is "All" |
| JordanFilters.AirportChoiceRestricts | jordan_files/filters.py:49-51 | Choosing a label keeps only rows of that city and code |
| JordanFilters.OfferedAirportMatches | jordan_files/filters.py:9-11 | Each offered airport other than "All" leaves a non-empty result when the rest of the selection keeps everything |

## Left out

- Streamlit widgets, tabs, layout, CSS and metric formatting. Selections are input datatypes, and the KPIs are values, with None standing for "N/A".
- The widget-to-selection conversions of `render_filters` in `jordan_files/filters.py`. The model takes the month slider's range from `MaxMonth` and the airport and airline lists as functions.
- The `cap_outliers` flag. It is carried in `JordanFilters.Selections`, but no filter reads it.
- plotly and matplotlib chart construction, titles and colours.
- The median-per-airport chart in `app.py` (line 238), which depends on pandas ordering.
- CSV reading and `@st.cache_data` memoisation, because they are I/O and caching.
- The undefined `df_julia`, `df_nessa` and `df_jordan` tables, and the tab blocks outside `main`. Each tab is modelled as a function of a given table.
- `jordan_files/app.py` and `jordan_files/layouts.py`, which are wiring and placeholders.
- pandas missing values: NaN cells, `dropna` and `na=False`. Every cell holds a value.
- The origin of the `season` column, which is kept as an opaque label.
- Floating point. Cause counts, means and shares are `real`, and flights are unbounded integers.
- Tie order in `sort_values`. The ranker uses one particular non-increasing order, and the proofs hold for any.
- Text handling:
  - `str.contains` interprets the selection as a regular expression; the model matches it as a literal substring.
  - Case folding is ASCII only.
  - Strings compare by code point, as Python's do.
  - `int()` also accepts signs, surrounding whitespace, underscores between digits and non-ASCII decimal digits; the model parses plain ASCII digit strings only.
- The order of rows within one date after `sort_values("date")`. A trend point stands for one (date, group) bucket, and buckets are sorted by date and then by group.
- CauseViewAlt.AltSharesOf: requires total flights above 0. The dashboard divides unguarded, so on no flights it shows NaN or infinite shares.
- The "Delayed %" KPI is modelled as written: it counts rows whose `arr_del15` equals 1, which is not the share of delayed flights.
