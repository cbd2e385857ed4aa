/** Row shapes of the tables the core reads and writes, and the calendar
    functions the source takes from the JavaScript `Date` object. */
module Schema {
  import opened Wrappers
  import opened Volume

  type UserId = string

  /** A calendar date `YYYY-MM-DD`, as a day number. ISO date strings compare
      lexicographically in the same order as their day numbers. */
  type Date = int

  /** The date and time rules of the server process, kept abstract:
      - utcDate: the UTC calendar date of a timestamp (`toISOString().split('T')[0]`);
      - yearStart / yearEnd: the timestamps of local 1 January 00:00:00 and
        31 December 23:59:59 of a year (`new Date(year, 0, 1)`, `new Date(year, 11, 31, 23, 59, 59)`);
      - dayOfYear: `getDayOfYear(new Date(date))` for a stored date. */
  datatype Calendar = Calendar(
    utcDate: int -> Date,
    yearStart: int -> int,
    yearEnd: int -> int,
    dayOfYear: Date -> int)

  /** A timestamp lies within the local year bounds used by `getWorkouts`. */
  predicate InYear(cal: Calendar, ts: int, year: int) {
    cal.yearStart(year) <= ts <= cal.yearEnd(year)
  }

  /** The UTC date of a timestamp never decreases as time advances. */
  ghost predicate MonotoneDates(cal: Calendar) {
    forall t1, t2 :: t1 <= t2 ==> cal.utcDate(t1) <= cal.utcDate(t2)
  }

  /** A row of `hevy_connections`; `targetWeightLb` is the parsed goal, None when
      the column is null or the empty string. */
  datatype Connection = Connection(
    userId: UserId,
    apiKey: string,
    lastSyncAt: Option<int>,
    targetWeightLb: Option<real>,
    selectedYear: Option<int>)

  /** The object passed to `updateHevyConnection`: each optional field is None
      when the caller does not supply it. */
  datatype ConnectionInput = ConnectionInput(
    apiKey: string,
    lastSyncAt: Option<int>,
    targetWeightLb: Option<real>,
    selectedYear: Option<int>)

  /** A row of `workouts`; `volumeLb` is the rounded volume, `raw` the payload. */
  datatype WorkoutRow = WorkoutRow(
    id: string,
    userId: UserId,
    title: Option<string>,
    startTime: int,
    endTime: Option<int>,
    volumeLb: int,
    raw: HevyWorkout)

  /** A row of `daily_aggregates`. */
  datatype AggregateRow = AggregateRow(
    userId: UserId,
    date: Date,
    year: int,
    volumeLb: int,
    workoutsCount: int,
    prsCount: int)

  function RowVolume(r: AggregateRow): int { r.volumeLb }

  function RowCount(r: AggregateRow): int { r.workoutsCount }

  const DailyTotalVolume: string := "daily_total_volume"

  /** A row of `pr_events`; `id` is the serial key. */
  datatype PrEvent = PrEvent(
    id: int,
    userId: UserId,
    date: Date,
    kind: string,
    exerciseName: Option<string>,
    value: int,
    previousBest: Option<int>,
    delta: Option<int>)
}
