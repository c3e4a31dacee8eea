# NYC ride-hail demand pipeline — a Dafny model

This project models the data-processing core of a pipeline over New York
ride-hail trip records (pickup time, pickup zone). It has four stages:

- **Rolling demand features** (`compute_rolling_demand_features.py` and its
  near twin `trip-level-rolling-features.py`, which share one model):
  - trips lacking a pickup time or a zone are dropped;
  - the rest are sorted by zone, then by pickup time in integer nanoseconds;
  - the contiguous range of each zone is located;
  - for every trip, three trailing-window counts (1 h, 6 h, 24 h) are written
    into preallocated arrays, one zone slice at a time, using a binary search;
  - the trips are then grouped by (midnight, zone) into a daily trip count
    and the mean of each count column.
- **Daily ride counts** (`load_and_aggregate.py`): pickups are truncated to
  midnight and grouped by (date, zone), and each group's size becomes
  `ride_count`.
- **Forecast preparation** (`forecast_top10_zones.py`):
  - each zone's daily rows are sorted by date and given lag features of 1, 7
    and 14 days;
  - rows with a missing feature are dropped;
  - short zones are skipped;
  - the rest are split walk-forward at "latest date minus 13 days";
  - the ten zones with the most trips are ranked;
  - a per-zone loop collects each fitted zone's error and, for the top ten,
    its test dates, actuals and predictions.
- **Choropleth frames** (`build_animated_choropleth.py`):
  - the polygons of the zone shapefile are split into rings by their
    `parts` offsets (ESRI Shapefile Technical Description, July 1998, shape
    type 5 "Polygon") and kept in an insertion-ordered dictionary by zone;
  - the days of the count table are listed in order;
  - each frame pairs every ring with the colour of its zone's count that day,
    which is 0 when the zone has no row.

The modules follow the stages:
- rolling features: `Trips`, `Windows`, `ZoneRanges`, `RollingCounter`,
  `DailyAggregate`, `RollingFeatures`;
- daily counts: `DailyCounts`;
- forecast preparation: `Forecast`;
- frames: `Choropleth`;
- shared: `Sorting` (a generic sort and an order-preserving
  de-duplication) and `Wrappers` (`Option`).

## Modelling decisions

**The window count follows the arithmetic, not the comment.** Within a zone
slice `t`, the count at local index i is i minus the least j with
t[j] >= t[i] - w. That is the number of trips of the same zone that sit
*earlier in the sorted order* and have a timestamp of at least t[i] - w:
- the trip itself is not counted;
- a trip exactly at t[i] - w is counted;
- the first trip of a zone always gets 0.

`Windows.WindowCount` states this naive count, and `RollingCounter` proves
that the binary-search engine computes it. The comment at
`trip-level-rolling-features.py` line 55 says the window is (t - w, t] and
includes the current trip; the code does neither, and the model follows the
code. The comment at
`compute_rolling_demand_features.py` line 54 ("prior trips in [t-window,
t)") matches the code, apart from tied timestamps: an earlier-positioned tie
is counted by the later trip but not the other way round
(`Windows.TiesCountOneWay`).

The other modelling choices:

- **The counting engine is imperative.** The cleaned, sorted trips are
  read-only sequences, and the three preallocated count buffers are arrays.
  `RollingCounter.FillZone` writes exactly one zone's slice, and
  `RollingCounter.ComputeRollingCounts` runs the zone loop.
- **Zone starts come from a scan.** `np.unique` with first-occurrence
  indices is modelled by a scan for the positions where the zone changes.
  `ZoneRanges.RunStartIsFirstOccurrence` proves the two agree on
  zone-sorted input.
- **Sorting is any sort.** `Sorting.SortBy` is an insertion sort whose
  contract is "sorted and a permutation". No particular order among exact
  ties is promised, as pandas does not promise one either.
- **Grouping and means.** Grouping by (date, zone) is a fold that inserts each
  observation into a strictly ordered list of rows (`DailyAggregate`). A row
  keeps its group size and the exact integer sums of its value columns. A mean
  is the exact ratio sum / count, before any rounding.
- **Dates.** Dates are integer nanoseconds since the epoch. The date strings
  that the choropleth script builds from them are modelled by the day number
  (date divided by one day). For the four-digit years of the data, the string
  order is the order of the day numbers.
- **The forecast loop.** `Forecast.EvaluateZones` is written over any
  per-zone preparation `planOf`. `Forecast.ForecastZones` instantiates it
  with the script's own preparation `Forecast.PlanZone`: filter the zone,
  add the lags, drop incomplete rows and apply the skip rules.
  - The trained model is a parameter `predict` of (train, test).
  - The error measure is a parameter `mae`.
  - The script's guard "test set empty" can never fire, because the test set
    always holds the latest row (`Forecast.SplitFacts`). The model keeps the
    guard anyway.
- **Frame colours.** Colours come from a caller-given function of the day's
  count.

## Model

| member | source | states |
|---|---|---|
| Trips.Clean | 37246ef7-6b0d-4896-9c55-5b07cbad4807/Development/trip-level-rolling-features.py:25-27 | keeps exactly the rows with both pickup and zone present: one trip per complete row, and a trip occurs iff its complete raw row occurs |
| Trips.CleanMultiplicity | 37246ef7-6b0d-4896-9c55-5b07cbad4807/Development/trip-level-rolling-features.py:25-27 | each trip occurs in the cleaned rows exactly as many times as its complete raw row occurs in the loaded rows |
| Trips.SortTrips | 37246ef7-6b0d-4896-9c55-5b07cbad4807/Development/compute_rolling_demand_features.py:30 | the result is a permutation of the cleaned trips ordered by zone, then pickup time |
| Sorting.SortBy | 37246ef7-6b0d-4896-9c55-5b07cbad4807/Development/trip-level-rolling-features.py:30 | for any total preorder, the result is sorted by it and is a permutation of the input |
| Sorting.UniqueInOrder | 37246ef7-6b0d-4896-9c55-5b07cbad4807/Development/forecast_top10_zones.py:83 | pandas' unique: no value twice, and a value occurs in the result iff it occurs in the input (order: `Sorting.UniqueInOrderFirstAppearance`) |
| Sorting.UniqueInOrderFirstAppearance | 37246ef7-6b0d-4896-9c55-5b07cbad4807/Development/forecast_top10_zones.py:83 | the values come in order of first appearance: wherever a later value of the result occurs in the input, every earlier value of the result has already occurred |
| ZoneRanges.SortedTripsHaveSortedZones | 37246ef7-6b0d-4896-9c55-5b07cbad4807/Development/compute_rolling_demand_features.py:30 | after the sort the zone column is non-decreasing |
| ZoneRanges.ZoneStarts | 37246ef7-6b0d-4896-9c55-5b07cbad4807/Development/compute_rolling_demand_features.py:44 | the starts are strictly increasing, within the array, and are exactly the positions where the zone changes (plus 0) |
| ZoneRanges.RunStartIsFirstOccurrence | 37246ef7-6b0d-4896-9c55-5b07cbad4807/Development/compute_rolling_demand_features.py:44 | on zone-sorted input a position starts a run iff it is the first occurrence of its zone, which is what np.unique reports |
| ZoneRanges.ZoneEnds | 37246ef7-6b0d-4896-9c55-5b07cbad4807/Development/compute_rolling_demand_features.py:45 | each end is the next start and the last end is n; with no starts the ends are [n] |
| ZoneRanges.RangeHasOneZone | 37246ef7-6b0d-4896-9c55-5b07cbad4807/Development/trip-level-rolling-features.py:44-45 | every position of a range holds the zone of the range's start |
| ZoneRanges.ZoneRangesPartition | 37246ef7-6b0d-4896-9c55-5b07cbad4807/Development/trip-level-rolling-features.py:44-52 | no ranges iff the input is empty; the first range starts at 0; each range is non-empty, within [0, n) and holds one zone; distinct ranges hold strictly increasing zones |
| ZoneRanges.CoverOnce | 37246ef7-6b0d-4896-9c55-5b07cbad4807/Development/compute_rolling_demand_features.py:44-45 | every position lies in exactly one zone range |
| Windows.CountPriorIsCardinality | 37246ef7-6b0d-4896-9c55-5b07cbad4807/Development/compute_rolling_demand_features.py:54-58 | the scan count over a prefix is the size of the set of earlier same-zone positions with timestamp >= x |
| Windows.WindowCount | 37246ef7-6b0d-4896-9c55-5b07cbad4807/Development/trip-level-rolling-features.py:54-58 | the count of trip i for window w; its meaning is stated by `Windows.WindowCountIsWindowSetSize`, its bounds by `Windows.WindowCountBounds` |
| Windows.WindowCountIsWindowSetSize | 37246ef7-6b0d-4896-9c55-5b07cbad4807/Development/trip-level-rolling-features.py:54-58 | the window count of trip i is the number of earlier-positioned same-zone trips whose timestamp is at least t_i - w |
| Windows.CountPriorAntitone | 37246ef7-6b0d-4896-9c55-5b07cbad4807/Development/compute_rolling_demand_features.py:56-58 | raising the lower time bound never raises the count |
| Windows.WindowNesting | 37246ef7-6b0d-4896-9c55-5b07cbad4807/Development/compute_rolling_demand_features.py:39-41 | for every trip, the 1 h count <= the 6 h count <= the 24 h count |
| Windows.WindowCountBounds | 37246ef7-6b0d-4896-9c55-5b07cbad4807/Development/compute_rolling_demand_features.py:55-58 | a count never exceeds the trip's rank in its zone, and the first trip of a zone gets 0 |
| Windows.TiesCountOneWay | 37246ef7-6b0d-4896-9c55-5b07cbad4807/Development/trip-level-rolling-features.py:56-58 | with equal timestamps, the earlier-positioned trip is in the later one's window, but not the reverse, and the later count is at least one higher |
| Windows.OneZoneHourlyExample | 37246ef7-6b0d-4896-9c55-5b07cbad4807/Development/trip-level-rolling-features.py:55-56 | trips at 00:00, 00:30, 01:00 and 02:00 of one zone get 1 h counts 0, 1, 2, 1, so the current trip is not counted |
| RollingCounter.SearchSortedLeft | 37246ef7-6b0d-4896-9c55-5b07cbad4807/Development/compute_rolling_demand_features.py:56 | binary search: returns the least j with t[j] >= x (everything before is < x, everything from j on is >= x) |
| RollingCounter.RunTimesSorted | 37246ef7-6b0d-4896-9c55-5b07cbad4807/Development/compute_rolling_demand_features.py:53 | within one zone's range the timestamps are non-decreasing, as the search needs |
| RollingCounter.RankInRun | 37246ef7-6b0d-4896-9c55-5b07cbad4807/Development/compute_rolling_demand_features.py:55 | inside a range, a trip's rank in its zone is its local index |
| RollingCounter.SearchCountIsWindowCount | 37246ef7-6b0d-4896-9c55-5b07cbad4807/Development/compute_rolling_demand_features.py:54-58 | the local index minus the lower bound equals the naive window count |
| RollingCounter.FillZone | 37246ef7-6b0d-4896-9c55-5b07cbad4807/Development/compute_rolling_demand_features.py:52-58 | one loop iteration writes the naive 1 h, 6 h and 24 h counts into [s, e) of the three arrays and changes no other entry |
| RollingCounter.ComputeRollingCounts | 37246ef7-6b0d-4896-9c55-5b07cbad4807/Development/compute_rolling_demand_features.py:43-58 | fresh arrays of length n whose every entry is the naive window count of that trip for 1 h, 6 h and 24 h |
| RollingCounter.CountWithinRange | 37246ef7-6b0d-4896-9c55-5b07cbad4807/Development/trip-level-rolling-features.py:54-67 | inside range k, a count is at most the local index and below the range length; the range's first trip gets 0 |
| DailyAggregate.Midnight | 37246ef7-6b0d-4896-9c55-5b07cbad4807/Development/load_and_aggregate.py:28 | the midnight is a multiple of one day and lies in (ts - 1 day, ts] |
| DailyAggregate.AddObs | 37246ef7-6b0d-4896-9c55-5b07cbad4807/Development/compute_rolling_demand_features.py:76-78 | adding one observation keeps the rows strictly ordered and well formed, and adds exactly its key |
| DailyAggregate.AddObsCount | 37246ef7-6b0d-4896-9c55-5b07cbad4807/Development/compute_rolling_demand_features.py:80 | adding an observation raises its own key's count by one and no other key's |
| DailyAggregate.AddObsSum | 37246ef7-6b0d-4896-9c55-5b07cbad4807/Development/compute_rolling_demand_features.py:81-83 | adding an observation adds its values to its own key's sums only |
| DailyAggregate.Aggregate | 37246ef7-6b0d-4896-9c55-5b07cbad4807/Development/compute_rolling_demand_features.py:76-87 | the rows are strictly ordered by (date, zone), so no key repeats; each row is non-empty; the keys are exactly those of the observations |
| DailyAggregate.AggregateTotal | 37246ef7-6b0d-4896-9c55-5b07cbad4807/Development/compute_rolling_demand_features.py:99 | the group sizes add up to the number of observations |
| DailyAggregate.AggregateCount | 37246ef7-6b0d-4896-9c55-5b07cbad4807/Development/compute_rolling_demand_features.py:80 | the size recorded for a key is the number of observations with that key |
| DailyAggregate.AggregateSum | 37246ef7-6b0d-4896-9c55-5b07cbad4807/Development/compute_rolling_demand_features.py:81-83 | the sum recorded for a key is the column's sum over that key's observations |
| DailyAggregate.AggregateRow | 37246ef7-6b0d-4896-9c55-5b07cbad4807/Development/trip-level-rolling-features.py:74-85 | each output row's count is the number of its key's observations and is >= 1; each sum is the column's sum over them |
| DailyAggregate.AbsentKeyHasNoRow | 37246ef7-6b0d-4896-9c55-5b07cbad4807/Development/load_and_aggregate.py:30-35 | a key that no observation has gets no row |
| DailyAggregate.SumsOrdered | 37246ef7-6b0d-4896-9c55-5b07cbad4807/Development/compute_rolling_demand_features.py:81-83 | a columnwise order that holds in every observation holds in every row's sums |
| DailyAggregate.MeansNest | 37246ef7-6b0d-4896-9c55-5b07cbad4807/Development/compute_rolling_demand_features.py:81-83 | with non-negative, nested value columns, each row's means satisfy 0 <= 1 h mean <= 6 h mean <= 24 h mean |
| RollingFeatures.TripObs | 37246ef7-6b0d-4896-9c55-5b07cbad4807/Development/compute_rolling_demand_features.py:74 | one group-by observation per trip, holding three value columns |
| RollingFeatures.DailyZoneFeatures | 37246ef7-6b0d-4896-9c55-5b07cbad4807/Development/compute_rolling_demand_features.py:74-87 | the daily table: the group-by of one observation per trip; its rows are described by `RollingFeatures.DailyRowMeans` and `RollingFeatures.DailyMeansNest` |
| RollingFeatures.DailyRowMeans | 37246ef7-6b0d-4896-9c55-5b07cbad4807/Development/compute_rolling_demand_features.py:80-83 | each daily row's daily_trips is the number of trips with its (date, zone), >= 1, and each rolling mean is the exact sum of that count over those trips divided by daily_trips |
| RollingFeatures.DailyMeansNest | 37246ef7-6b0d-4896-9c55-5b07cbad4807/Development/trip-level-rolling-features.py:79-81 | when every trip's counts nest, every daily row's means nest and are non-negative |
| RollingFeatures.RollingDemandFeatures | 37246ef7-6b0d-4896-9c55-5b07cbad4807/Development/compute_rolling_demand_features.py:24-87 | the whole script: the trips are the sorted cleaned rows; each array entry is the naive count; the counts nest; the daily table is the aggregate, ordered by key, with daily_trips adding up to the number of cleaned trips |
| DailyCounts.RideObs | 37246ef7-6b0d-4896-9c55-5b07cbad4807/Development/load_and_aggregate.py:28 | one observation per row with both keys, dated by its midnight, with no value columns |
| DailyCounts.DailyZoneCounts | 37246ef7-6b0d-4896-9c55-5b07cbad4807/Development/load_and_aggregate.py:30-35 | the daily ride counts: the group-by of the dated rows; its rows are described by `DailyCounts.RideCountIsRidesOn`, `DailyCounts.DailyZoneCountsKeys` and `DailyCounts.DailyZoneCountsTotal` |
| DailyCounts.RideObsKeyCount | 37246ef7-6b0d-4896-9c55-5b07cbad4807/Development/load_and_aggregate.py:30-33 | the observations with key (d, z) are exactly the loaded rows of zone z picked up on day d |
| DailyCounts.RideCountIsRidesOn | 37246ef7-6b0d-4896-9c55-5b07cbad4807/Development/load_and_aggregate.py:30-35 | each ride_count is the number of loaded rows with that date and zone, and is >= 1 |
| DailyCounts.DailyZoneCountsKeys | 37246ef7-6b0d-4896-9c55-5b07cbad4807/Development/load_and_aggregate.py:30-35 | the rows are strictly ordered by (date, zone); a (date, zone) pair has a row iff at least one loaded row has it |
| DailyCounts.DailyZoneCountsTotal | 37246ef7-6b0d-4896-9c55-5b07cbad4807/Development/load_and_aggregate.py:30-35 | the ride counts add up to the number of rows with both date and zone present |
| Forecast.Shift | 37246ef7-6b0d-4896-9c55-5b07cbad4807/Development/forecast_top10_zones.py:37-39 | entry i of a series shifted by k is entry i - k of the series, and missing for i < k |
| Forecast.WithLags | 37246ef7-6b0d-4896-9c55-5b07cbad4807/Development/forecast_top10_zones.py:37-39 | over date-ordered rows, row i keeps its day row and gets lag_k = daily_trips of row i - k, missing for i < k, for k = 1, 7, 14 |
| Forecast.MakeZoneFeatures | 37246ef7-6b0d-4896-9c55-5b07cbad4807/Development/forecast_top10_zones.py:31-40 | the rows are a permutation of the zone's rows in non-decreasing date order; lag_k of row i is daily_trips of row i - k, or missing for i < k, for k = 1, 7, 14 |
| Forecast.Filter | 37246ef7-6b0d-4896-9c55-5b07cbad4807/Development/forecast_top10_zones.py:86 | a row filter never adds rows |
| Forecast.FilterMembers | 37246ef7-6b0d-4896-9c55-5b07cbad4807/Development/forecast_top10_zones.py:86 | a row filter keeps exactly the rows that satisfy the condition |
| Forecast.FilterSplit | 37246ef7-6b0d-4896-9c55-5b07cbad4807/Development/forecast_top10_zones.py:93-94 | two complementary filters together give back the original rows |
| Forecast.DropIncomplete | 37246ef7-6b0d-4896-9c55-5b07cbad4807/Development/forecast_top10_zones.py:87 | the drop of rows with a missing feature; `Forecast.DropRemovesFirstFourteen` and `Forecast.ZoneFrameRows` state what it leaves |
| Forecast.DropRemovesFirstFourteen | 37246ef7-6b0d-4896-9c55-5b07cbad4807/Development/forecast_top10_zones.py:87 | dropping incomplete rows removes at least the first 14 date-ordered rows of a zone; with 14 or fewer rows nothing is left |
| Forecast.ZoneFrame | 37246ef7-6b0d-4896-9c55-5b07cbad4807/Development/forecast_top10_zones.py:86-87 | `_zdf` after the drop; `Forecast.ZoneFrameRows` states that its rows all belong to the zone and are complete |
| Forecast.ZoneFrameRows | 37246ef7-6b0d-4896-9c55-5b07cbad4807/Development/forecast_top10_zones.py:86-87 | every row left for a zone belongs to that zone and has no missing feature |
| Forecast.MaxDate | 37246ef7-6b0d-4896-9c55-5b07cbad4807/Development/forecast_top10_zones.py:92 | the latest date of a non-empty frame; `Forecast.MaxDateIsMax` states that it bounds every date and is attained |
| Forecast.MaxDateIsMax | 37246ef7-6b0d-4896-9c55-5b07cbad4807/Development/forecast_top10_zones.py:92 | the latest date bounds every row's date and is the date of some row |
| Forecast.Cutoff | 37246ef7-6b0d-4896-9c55-5b07cbad4807/Development/forecast_top10_zones.py:92 | the latest date minus 13 days; `Forecast.SplitFacts` states what the split at it gives |
| Forecast.Train | 37246ef7-6b0d-4896-9c55-5b07cbad4807/Development/forecast_top10_zones.py:93 | the rows dated before the cutoff; stated by `Forecast.SplitFacts` |
| Forecast.Test | 37246ef7-6b0d-4896-9c55-5b07cbad4807/Development/forecast_top10_zones.py:94 | the rows dated on or after the cutoff; stated by `Forecast.SplitFacts` |
| Forecast.SplitFacts | 37246ef7-6b0d-4896-9c55-5b07cbad4807/Development/forecast_top10_zones.py:92-94 | train and test together are the zone's rows; every train date is before every test date; test dates lie within the last 14 days; test is never empty |
| Forecast.PlanFrame | 37246ef7-6b0d-4896-9c55-5b07cbad4807/Development/forecast_top10_zones.py:89-97 | the two skip rules and the split; `Forecast.PlanFrameFacts` states when a frame is skipped and what a fitted one holds |
| Forecast.PlanZone | 37246ef7-6b0d-4896-9c55-5b07cbad4807/Development/forecast_top10_zones.py:86-97 | one loop iteration up to the model: the zone frame, then `Forecast.PlanFrame`; stated by `Forecast.ZoneFrameRows` and `Forecast.PlanFrameFacts` |
| Forecast.PlanFrameFacts | 37246ef7-6b0d-4896-9c55-5b07cbad4807/Development/forecast_top10_zones.py:89-97 | a zone is skipped iff fewer than 29 rows remain or fewer than 10 fall before the cutoff; a fitted zone's train and test split its rows in date order, with >= 10 train rows and >= 1 test row |
| Forecast.DistinctZones | 37246ef7-6b0d-4896-9c55-5b07cbad4807/Development/forecast_top10_zones.py:83 | the zone column made unique; `Sorting.UniqueInOrder` and `Sorting.UniqueInOrderFirstAppearance` state that each zone of the table comes once, in order of first appearance |
| Forecast.ZoneTotal | 37246ef7-6b0d-4896-9c55-5b07cbad4807/Development/forecast_top10_zones.py:57-60 | a zone's summed daily_trips; `Forecast.Top10Facts` states the ranking by it |
| Forecast.Top10 | 37246ef7-6b0d-4896-9c55-5b07cbad4807/Development/forecast_top10_zones.py:57-63 | the ten busiest zones; stated by `Forecast.Top10Facts` |
| Forecast.Top10Facts | 37246ef7-6b0d-4896-9c55-5b07cbad4807/Development/forecast_top10_zones.py:57-63 | the list holds min(10, #zones) distinct zones of the table in non-increasing order of total trips, and no zone left out has a larger total than any listed zone |
| Forecast.MaesAreFittedZones | 37246ef7-6b0d-4896-9c55-5b07cbad4807/Development/forecast_top10_zones.py:105-106 | all_zone_maes has one entry per fitted zone, in loop order, and entry k is the error of the k-th fitted zone |
| Forecast.ResultsAreFittedTopZones | 37246ef7-6b0d-4896-9c55-5b07cbad4807/Development/forecast_top10_zones.py:108-113 | zone_results has a key exactly for the fitted zones that are in the top ten, holding that zone's test dates, actual trips and predictions |
| Forecast.EvaluatedNoDup | 37246ef7-6b0d-4896-9c55-5b07cbad4807/Development/forecast_top10_zones.py:83-85 | each zone is evaluated at most once |
| Forecast.EvaluateZones | 37246ef7-6b0d-4896-9c55-5b07cbad4807/Development/forecast_top10_zones.py:85-113 | the loop leaves all_zone_maes and zone_results equal to the fitted-zone errors and top-ten results over the zones in order |
| Forecast.ForecastZones | 37246ef7-6b0d-4896-9c55-5b07cbad4807/Development/forecast_top10_zones.py:57-113 | the script: top10 is the ranking, and the loop runs over the table's zones in order of first appearance (`Sorting.UniqueInOrderFirstAppearance`) with the script's own per-zone preparation |
| Choropleth.ClampIndex | 37246ef7-6b0d-4896-9c55-5b07cbad4807/Development/build_animated_choropleth.py:35 | a Python slice bound lies in [0, n], and an in-range bound is left as is |
| Choropleth.PySlice | 37246ef7-6b0d-4896-9c55-5b07cbad4807/Development/build_animated_choropleth.py:35 | a Python slice with in-range bounds a <= b is the subsequence from a to b |
| Choropleth.Bounds | 37246ef7-6b0d-4896-9c55-5b07cbad4807/Development/build_animated_choropleth.py:34 | the boundaries are the part offsets followed by the number of points |
| Choropleth.Rings | 37246ef7-6b0d-4896-9c55-5b07cbad4807/Development/build_animated_choropleth.py:35 | there is one ring per entry of parts |
| Choropleth.RingsAreSlices | 37246ef7-6b0d-4896-9c55-5b07cbad4807/Development/build_animated_choropleth.py:34-35 | with valid parts, ring i is exactly the points from parts[i] up to the next boundary |
| Choropleth.RingsCoverPoints | 37246ef7-6b0d-4896-9c55-5b07cbad4807/Development/build_animated_choropleth.py:34-35 | with parts starting at 0, non-decreasing and within the points, the rings put back together are the shape's points |
| Choropleth.Put | 37246ef7-6b0d-4896-9c55-5b07cbad4807/Development/build_animated_choropleth.py:37 | a dict assignment: the key maps to the new value, other keys keep theirs, an existing key keeps its place and a new key goes last |
| Choropleth.LocationId | 37246ef7-6b0d-4896-9c55-5b07cbad4807/Development/build_animated_choropleth.py:31 | a record's zone id, 0 when the field is missing; `Choropleth.MissingIdIsZoneZero` states the missing case |
| Choropleth.ZonePolygons | 37246ef7-6b0d-4896-9c55-5b07cbad4807/Development/build_animated_choropleth.py:29-37 | the dictionary after the record loop; `Choropleth.ZonePolygonsLookup` and `Choropleth.ZonePolygonsKeys` state its entries and their order |
| Choropleth.ZonePolygonsLookup | 37246ef7-6b0d-4896-9c55-5b07cbad4807/Development/build_animated_choropleth.py:29-37 | a zone's entry holds the rings of the last record of that zone that has rings; a later record overwrites, a ringless record adds nothing |
| Choropleth.MissingIdIsZoneZero | 37246ef7-6b0d-4896-9c55-5b07cbad4807/Development/build_animated_choropleth.py:31 | a record lacking the LocationID field, but with rings, is stored under zone 0 |
| Choropleth.ZonePolygonsKeys | 37246ef7-6b0d-4896-9c55-5b07cbad4807/Development/build_animated_choropleth.py:29-37 | the dictionary iterates its zones once each, in order of first appearance among the records with rings (that order by `Sorting.UniqueInOrderFirstAppearance`) |
| Choropleth.BuildZonePolygons | 37246ef7-6b0d-4896-9c55-5b07cbad4807/Development/build_animated_choropleth.py:29-37 | the loop builds exactly the dictionary described above |
| Choropleth.DayKey | 37246ef7-6b0d-4896-9c55-5b07cbad4807/Development/build_animated_choropleth.py:52 | the day number k of a date: the date lies in [k days, k + 1 days) |
| Choropleth.DayKeyOfMidnight | 37246ef7-6b0d-4896-9c55-5b07cbad4807/Development/load_and_aggregate.py:28 | a pickup time and its normalised date fall on the same day |
| Choropleth.DayKeySeparatesMidnights | 37246ef7-6b0d-4896-9c55-5b07cbad4807/Development/build_animated_choropleth.py:52 | two normalised dates get the same day name exactly when they are equal, so the per-day filter picks one date |
| Choropleth.AllDates | 37246ef7-6b0d-4896-9c55-5b07cbad4807/Development/build_animated_choropleth.py:55 | the sorted unique day names; stated by `Choropleth.AllDatesFacts` |
| Choropleth.AllDatesFacts | 37246ef7-6b0d-4896-9c55-5b07cbad4807/Development/build_animated_choropleth.py:55 | the day list is strictly ascending and holds exactly the days that occur in the table |
| Choropleth.DayCount | 37246ef7-6b0d-4896-9c55-5b07cbad4807/Development/build_animated_choropleth.py:79-91 | a zone's ride count on a day, 0 when absent; stated by `Choropleth.DayCountOfRow`, `Choropleth.DayCountAbsent` and `Choropleth.DayCountIsRidesOn` |
| Choropleth.DayCountAbsent | 37246ef7-6b0d-4896-9c55-5b07cbad4807/Development/build_animated_choropleth.py:91 | a zone without a row on the day gets count 0 |
| Choropleth.DayCountOfRow | 37246ef7-6b0d-4896-9c55-5b07cbad4807/Development/build_animated_choropleth.py:79 | in an ordered table of midnights, a zone's row on a day gives its count for that day |
| Choropleth.DayCountIsRidesOn | 37246ef7-6b0d-4896-9c55-5b07cbad4807/Development/build_animated_choropleth.py:79-91 | over load_and_aggregate's table, a zone's count on a day is the number of its loaded rows picked up that day, and 0 if there are none |
| Choropleth.FrameLockstep | 37246ef7-6b0d-4896-9c55-5b07cbad4807/Development/build_animated_choropleth.py:89-96 | patches and colours end with the same length, the total number of rings |
| Choropleth.RingColour | 37246ef7-6b0d-4896-9c55-5b07cbad4807/Development/build_animated_choropleth.py:90-96 | ring j of the k-th zone is the patch at position (rings before zone k) + j, and the colour at that position is the zone's colour for the day |
| Choropleth.MakeFrame | 37246ef7-6b0d-4896-9c55-5b07cbad4807/Development/build_animated_choropleth.py:89-96 | the nested loops produce every ring in dictionary order as patches, and the corresponding zone colours |

## Left out

- File input is not modelled: the parquet globbing, reading and concatenation in all three loading scripts, the opening of the shapefile and check_files.py. The model starts from the loaded rows and the shape records.
- The runtime pip install, LightGBM training and prediction, and the MAE function are foreign code and floating point. They are the parameters `predict` and `mae` of `Forecast.EvaluateZones`.
- The overall MAE (forecast_top10_zones.py line 115) is a float mean of the collected errors and is not modelled.
- The comparison plots of the forecast script are not modelled.
- Rendering is not modelled: matplotlib and PIL, the colormap, the 97th-percentile colour scale, the canvas bounds, PNG encoding and GIF assembly. The colour is a parameter function of the day's count.
- The point coordinates are taken as given reals; the float64 conversion is not modelled.
- Rounding of the rolling means to two decimals is not modelled: `DailyAggregate.Mean` is the exact ratio.
- The calendar features (day of week, day of month, month, ISO week) are not modelled, because they depend on the date library. They are never missing, so they do not affect the row drop.
- The renaming of the zone column and the integer casts of the zone are identities in the model.
- All printing and logging, including the printed count ranges, are not modelled.
- Trips.SortTrips: promises sorted by (zone, pickup) and a permutation, but not pandas' particular order among exact ties. The window counts among tied trips depend on that order.
- Windows.WindowCount: integers are unbounded, so the int64 wrap-around of t - w and the int32 storage of the counts are not modelled. Both are far outside the data's range.
- Choropleth.DayKey: models the year-month-day date string by the day number. It assumes four-digit years, for which the two orders agree.
- Forecast.Top10: the insertion sort fixes one order among zones with equal totals; `Forecast.Top10Facts` promises nothing about which tied zones are listed, as pandas' sort does not either.
