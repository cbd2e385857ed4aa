# Yearly lifting-volume tracker: a Dafny model of its server core

The application pulls a user's workouts from the Hevy API, stores them,
and keeps one row of daily aggregates per training day of a tracked year.
It also flags that year's "daily total volume" records. A dashboard then
shows progress towards a yearly tonnage goal: totals, pacing, a
cumulative chart, a heatmap and a feed of recent records.

This project models the server core in Dafny and proves properties of it:

- `volume.dfy` (`Volume`): the volume of one workout in pounds, that is
  Σ weight_kg × 2.20462 × reps over the sets that have both a weight and
  reps, rounded as `Math.round` does. It has a loop method and a
  reference function.
- `tables.dfy` (`Tables`): stable sorting by a key, filtering and sums
  over rows. These model SQL `WHERE`, `ORDER BY` and `SUM`, and the
  JavaScript sort.
- `schema.dfy` (`Schema`): the row shapes of `hevy_connections`,
  `workouts`, `daily_aggregates` and `pr_events`. It also holds the
  calendar functions the source takes from `Date`: the UTC date of a
  timestamp, the local bounds of a year, and the day of the year.
- `aggregation.dfy` (`Aggregation`): the year recompute as functions.
  - the per-day map
  - the running-maximum record walk
  - the delete/insert/mark of `daily_aggregates`
  - the delete/insert of `pr_events`
  - properties of the recompute: what it leaves untouched, idempotence,
    and the table invariants it keeps
- `dashboard.dfy` (`Dashboard`): dashboard statistics and pacing, chart
  points, heatmap days and the recent-record feed.
- `storage.dfy` (`Storage`): class `DatabaseStorage`. Its fields are the
  four tables and the `pr_events` id serial. Its methods change them as
  the storage class does, and each method is proved against the
  functions above.
- `sync.dfy` (`Sync`): the refresh handler and the dashboard handler.
  The refresh handler pages through the API with a 20-page cap, aborts
  on a failed request, upserts, recomputes the tracked year and stamps
  the sync time. The dashboard handler falls back to the current year
  and to a 3,000,000 lb goal.
- `url.dfy` (`Url`): `buildUrl`. For each parameter in entry order, it
  replaces the first occurrence of `:key`, with JavaScript `replace`
  semantics.

Modelling choices:

- Timestamps are integers (milliseconds) and dates are day numbers. ISO
  date strings order the same way as these numbers.
- The calendar is a parameter of type `Calendar`, so the server's time
  zone is not fixed. Some properties of PR events need the UTC date to
  be monotone in time (`MonotoneDates`), and they say so.
- A JavaScript `Map` is a sequence of entries in insertion order.
- A database table is a sequence of rows in insertion order. An update
  rewrites rows in place; an insert appends.
- An `id` column generated by a serial is the field `nextPrId`.
- The remote API is a function `fetch(apiKey, page)`. The current
  instant and year are parameters.

Behaviour of the code that the model keeps:

- The record walk sets `maxDailyVol := vol` before it computes
  `previousBest := maxDailyVol - vol`. So every stored record has
  previous best 0 and delta equal to its value (`RecordsValues`).
- The `prsCount = 1` update filters on user and date only. It also flags
  the user's row of another year that has the same date
  (`RecomputeOtherYears`).
- Pagination reads `page >= page_count`. A missing `page_count` compares
  false, so the loop then runs to the cap (`MissingPageCount`). A
  `page_count` of `null` compares as 0, so it is read as 0 and the loop
  stops after page 1 (`ConstantPageCount` with a count of 0).
- Both handlers treat a stored year of 0 like no year at all.
- A bulk upsert whose rows share an id fails as a whole, as PostgreSQL's
  `ON CONFLICT DO UPDATE` does, and the refresh then reports failure.
  The conflict update keeps the stored row's `userId`.

## Model

| member | source | states |
|---|---|---|
| Volume.CalculateVolumeLb | server/storage.ts:322-332 | the nested loop returns exactly `VolumeLb(w)`: the sum over all sets of weight × 2.20462 × reps where both are truthy, rounded half up |
| Volume.Round | server/storage.ts:331 | `Math.round`: the result is within half a unit of the input, ties going up |
| Volume.OnlyCountingSetsMatter | server/storage.ts:326-328 | sets lacking a truthy weight or rep count contribute nothing: the volume of only the counting sets equals the volume of all sets |
| Volume.NoCountingSetsNoVolume | server/storage.ts:322-332 | a workout with no set having both weight and reps has volume 0 |
| Volume.NonNegativeVolume | server/storage.ts:322-332 | non-negative weights and reps give a non-negative volume |
| Volume.SetsVolumeAppend | server/storage.ts:325-329 | the set sum is additive over concatenation |
| Storage.UpsertConnection | server/storage.ts:46-56 | insert with `userId`, or on conflict overwrite exactly the supplied fields; a new row takes the column defaults (goal 3,000,000, and the year fixed in the `selected_year` column's DEFAULT when the schema was pushed) |
| Storage.DatabaseStorage.UpdateHevyConnection | server/storage.ts:46-56 | the user's connection becomes `UpsertConnection(old, …)`, no other table changes, and the table invariant holds |
| Storage.BuildRows | server/storage.ts:66-74 | the loop builds one row per remote workout: id, title and times from the payload, the computed volume, the owner |
| Storage.UpsertRowsIds | server/storage.ts:76-87 | after the bulk upsert the ids are distinct and are the old ids plus the incoming ids; existing rows keep their position, id and owner |
| Storage.UpsertRowsUntouched | server/storage.ts:76-87 | a stored row whose id is not in the batch is unchanged |
| Storage.UpsertRowsData | server/storage.ts:78-86 | a stored row whose id is in the batch takes the batch row's title, start, end, volume and payload |
| Storage.UpsertRowsAppended | server/storage.ts:76-77 | rows beyond the old table are batch rows, i.e. new ids are inserted |
| Storage.UpsertKeepsPayloads | server/storage.ts:66-87 | every stored row stays consistent with its stored payload through an upsert |
| Storage.DatabaseStorage.UpsertWorkouts | server/storage.ts:58-88 | an empty batch changes nothing; a batch with duplicate ids fails and changes nothing; otherwise `workouts` becomes `UpsertRows(old, ToRows(u, ws))`, other tables unchanged, invariants kept |
| Aggregation.FetchedWorkouts | server/storage.ts:90-102 | the user's workouts whose start lies within the local year bounds, as a permutation of that filter, ordered by start time descending |
| Aggregation.FindDate | server/storage.ts:117 | `dailyMap.get(day)`: finds the entry with that date or reports there is none |
| Storage.GroupByDate | server/storage.ts:113-122 | the grouping loop builds exactly `DailyBuckets` of the workouts |
| Aggregation.AddToDayEffect | server/storage.ts:116-121 | one map update: the entry of the date grows by one workout and its volume, or a new entry is appended; other entries unchanged, dates stay distinct |
| Aggregation.DailyBucketsShape | server/storage.ts:113-122 | the map's dates are distinct, a date has an entry iff some workout falls on it, and the counts add up to the number of workouts |
| Aggregation.DailyBucketsEntries | server/storage.ts:113-122 | each entry's volume and count equal the reference sums over that date's workouts, and its count is at least 1 |
| Aggregation.DailyBucketsCorrect | server/storage.ts:113-122 | one entry per distinct UTC date; each entry's volume and count equal the reference sums over the workouts of that date; a date has an entry iff some workout falls on it; counts add up to the number of workouts |
| Aggregation.NoWorkoutsNoVolume | server/storage.ts:117-121 | a date without workouts has no volume |
| Aggregation.RecordsValues | server/storage.ts:153-171 | each record has positive value above the starting best, previous best 0, delta equal to the value; values strictly increase; no more records than days |
| Aggregation.RecordsDates | server/storage.ts:159-166 | every record is dated on one of the walked days |
| Aggregation.RecordsAscending | server/storage.ts:157-166 | over days sorted by date, records come out in strictly ascending date order |
| Aggregation.RecordsExactly | server/storage.ts:157-181 | a day's date is a record date iff its volume is positive, above the starting best and above every earlier day's volume |
| Aggregation.FirstPositiveDayEmits | server/storage.ts:161 | the first day with positive volume always becomes a record |
| Aggregation.EqualVolumeNeverEmits | server/storage.ts:161 | a day matching an earlier day's volume is never a record (strict comparison) |
| Storage.DatabaseStorage.MarkRecordDays | server/storage.ts:153-181 | the loop collects exactly `Records(sorted, 0)` and sets `prsCount = 1` on the user's rows of those dates |
| Storage.DatabaseStorage.RecalculateAggregatesAndPrs | server/storage.ts:104-193 | `daily_aggregates` becomes `RecomputeAggregates(old, …)`, `pr_events` becomes `RecomputePrEvents(old, …)`, the serial advances by the number of records, workouts and connections unchanged, invariants kept |
| Aggregation.YearRowsCorrect | server/storage.ts:124-143 | the inserted rows are one per UTC date of the year's workouts, with that date's volume and count, the year and `prsCount` 0 |
| Aggregation.RecomputeYearView | server/storage.ts:124-181 | after a recompute the (user, year) rows are exactly the rebuilt rows, flagged on the record dates |
| Aggregation.RecomputeOtherUsers | server/storage.ts:127-130 | rows of other users are left exactly as they were |
| Aggregation.RecomputeOtherYears | server/storage.ts:174-179 | the user's other-year rows keep every column except `prsCount`, which is set to 1 on the record dates |
| Aggregation.RecomputeOutsideYear | server/storage.ts:127-179 | rows outside the (user, year) pair survive the recompute, changed only by the record flags |
| Aggregation.RecomputeAggregatesIdempotent | server/storage.ts:104-181 | recomputing the same year twice over the same workouts gives the same table |
| Aggregation.RecomputeKeepsInvariants | server/storage.ts:124-181 | every row keeps at least one workout and a `prsCount` of 0 or 1; at most one row per (user, year, date) |
| Aggregation.RecordDatesInRange | server/storage.ts:184-188 | with a monotone calendar every new record is dated within the deleted UTC range of the year |
| Aggregation.RecomputePrOtherUsers | server/storage.ts:184-188 | PR events of other users are left as they were |
| Aggregation.RecomputePrYearView | server/storage.ts:184-192 | with a monotone calendar, the user's events in the year's range afterwards are exactly the newly numbered records |
| Aggregation.RecomputePrEventsIdempotent | server/storage.ts:184-192 | with a monotone calendar a second recompute only renumbers the first one's records |
| Storage.RecomputePrIds | server/storage.ts:184-192 | deleting some events and inserting new ones from the serial keeps ids increasing and below the serial |
| Dashboard.Stats | server/storage.ts:195-244 | total volume, sessions and days lifted are the sums and count over the (user, year) rows (an empty sum reads as 0); goal and last sync are passed through |
| Dashboard.StatsPercentage | server/storage.ts:210 | percentage × goal = total × 100 |
| Dashboard.StatsClosedYear | server/storage.ts:214-228 | for a year other than the current one: no days remain, ahead/behind is total − goal, nothing more is required and the projection is the total |
| Dashboard.StatsCurrentYear | server/storage.ts:214-228 | for the current year: days remaining = 365 − day of year, ahead/behind × 365 = total × 365 − goal × day of year, and the projection extrapolates the total linearly when the day is positive |
| Dashboard.StatsRequiredPerDay | server/storage.ts:225 | with days remaining, required per day × days remaining = goal − total |
| Dashboard.ChartPoints | server/storage.ts:260-280 | one point per row in order, with its date and volume; the target per day is goal/365; the cumulative actual is the prefix sum through that row; the cumulative target is target per day × day of year |
| Dashboard.PrefixSumsNonDecreasing | server/storage.ts:267-268 | with non-negative volumes the cumulative curve never decreases |
| Storage.DatabaseStorage.GetChartData | server/storage.ts:246-281 | as many points as (user, year) rows; point i carries the date and volume of the i-th row in date order, the running sum through it and the goal/365 target; dates strictly ascending, and the last cumulative equals the dashboard total |
| Storage.DatabaseStorage.GetHeatmapData | server/storage.ts:283-298 | one day per (user, year) row, dates distinct, each with at least one workout and a record flag of 0 or 1 |
| Dashboard.FeedItem | server/storage.ts:308-315 | id, date, value carried over; a missing delta reads as 0; an empty exercise name becomes absent |
| Dashboard.RecentPrs | server/storage.ts:300-316 | at most `limit` of the user's events (exactly `limit` when there are that many), newest date first |
| Dashboard.RecentPrsAreNewest | server/storage.ts:300-316 | any of the user's events left out of the feed is no newer than every item returned |
| Dashboard.RecentPrsFromUser | server/storage.ts:300-316 | every feed item is the feed form of one of the user's events |
| Sync.FetchAllPages | server/routes.ts:77-94 | the pagination loop returns exactly `FetchFrom(fetch, key, 1)` |
| Sync.FetchedShape | server/routes.ts:77-94 | a completed run read pages 1..n with 1 ≤ n ≤ 20, none failed, none before n was the last, n was the last or the cap; its workouts are those pages' in order |
| Sync.AbortedShape | server/routes.ts:9-20 | a failed run reports the first failing page's status; the pages before it succeeded and none said it was the last |
| Sync.ConstantPageCount | server/routes.ts:86-93 | a constant `page_count` c reads pages 1 to c clamped to [1, 20] |
| Sync.MissingPageCount | server/routes.ts:86-93 | without `page_count` the loop reads exactly 20 pages |
| Sync.TrackedYear | server/routes.ts:99 | the stored year unless absent or 0, else the current year |
| Sync.DashboardGoal | server/routes.ts:124 | the stored target, or 3,000,000 lb when none is stored |
| Sync.Refresh | server/routes.ts:65-115 | no connection or empty API key: nothing happens; a failed request or a failed upsert: failure with the message and no state change; otherwise the workouts are upserted, the tracked year recomputed, the PR-event serial advanced by the number of new records, only `lastSyncAt` of the connection changes, and the count of fetched workouts is reported |
| Sync.GetDashboard | server/routes.ts:118-136 | picks the tracked year and goal; a goal of 0 gives no view; otherwise the stats, the chart (one point per row of that year in date order, with running sums), the heatmap and the recent records for them |
| Url.IndexFrom | shared/routes.ts:110 | finds the first occurrence of the pattern, or reports there is none |
| Url.BuildUrl | shared/routes.ts:105-115 | no parameters: the path; otherwise the fold of the per-parameter step over the entries in order |
| Url.StepReplacesFirst | shared/routes.ts:109-111 | a value without `$` replaces the first occurrence of `:key` and nothing else; an absent placeholder leaves the URL unchanged |
| Url.NoColonUnchanged | shared/routes.ts:105-115 | a path without `:` is returned unchanged for any parameters |
| Url.PrefixPlaceholder | shared/routes.ts:109-111 | `:id` also matches the start of `:idx` |
| Url.OrderMatters | shared/routes.ts:108 | with keys `a` and `ab` the result depends on entry order |
| Url.DollarAmpersand | shared/routes.ts:110 | a value `$&` puts the placeholder back, as `String.prototype.replace` does |

## Left out

- Authentication, HTTP status codes and JSON encoding. The handlers
  return outcome values; the real network request, the `api-key` header
  and `response.json()` are behind the `fetch` parameter.
- Floating point. Volumes and goals are exact reals. `parseFloat` and
  `toString` round trips are identities, and NaN and Infinity do not
  arise. Volumes are integers because `calculateVolumeLb` rounds them.
- Sync.GetDashboard: a stored goal of 0 makes the source's completion
  percentage a division by zero (Infinity or NaN); the model returns None
  for that goal only. A negative goal gives finite figures, as in the
  source.
- Url.BuildUrl: `Object.entries` lists integer-like keys first; the model
  takes the entries in the order given. Parameter values are strings or
  integers; non-integral numbers are not modelled.
- Url.ValueText: prints every integer in full decimal. JavaScript's
  `String(n)` switches to exponent form from 1e21 on, and numbers beyond
  2^53 are not held exactly; such values are not modelled.
- The connection upsert targets `hevy_connections.user_id`, which the
  schema declares without a unique index. PostgreSQL rejects an
  `ON CONFLICT` target with no matching unique index, so on that schema
  every settings save and the final `lastSyncAt` write of a refresh
  would fail. The model assumes a unique index on `user_id`: connections
  are keyed by user.
- Leap years and the local time zone are behind the `Calendar` functions.
  The source's `getDayOfYear` and its fixed 365-day year are modelled
  only through `Calendar.dayOfYear` and the constant `TotalDays`.
- Storage.DatabaseStorage.UpsertWorkouts: database errors other than
  duplicate ids in one batch (connection loss, invalid timestamps) are
  not modelled.
- Concurrency between requests: each method runs to completion on its
  own. The source has no transactions, so interleaved refreshes could
  mix; the model does not capture this.
- The settings routes, the client, and the per-exercise PR kinds named
  in the schema but never produced by the server are not part of this
  model.
