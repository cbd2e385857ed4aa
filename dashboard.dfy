/** The dashboard projector of `server/storage.ts`: pacing figures, the
    cumulative chart series, the heatmap days and the recent-records feed,
    each derived from rows the storage selects. Pacing uses exact reals. */
module Dashboard {
  import opened Wrappers
  import opened Tables
  import opened Schema
  import opened Aggregation

  /** Days in a year for pacing; leap years are not distinguished. */
  const TotalDays: real := 365.0

  datatype DashboardStats = DashboardStats(
    totalLiftedLb: real,
    goalLb: real,
    percentageComplete: real,
    daysRemaining: int,
    aheadBehindLb: real,
    requiredPerDayLb: real,
    projectedYearEndLb: real,
    sessionsCount: int,
    daysLiftedCount: int,
    lastSyncAt: Option<int>)

  /** `getDashboardStats` over the (user, year) rows. `nowYear` and
      `dayOfYear` are the current year and today's day number. */
  function Stats(rows: seq<AggregateRow>, year: int, goalLb: real, nowYear: int, dayOfYear: int,
                 lastSyncAt: Option<int>): (s: DashboardStats)
    requires goalLb != 0.0
    ensures s.totalLiftedLb == SumBy(rows, RowVolume) as real
    ensures s.sessionsCount == SumBy(rows, RowCount) && s.daysLiftedCount == |rows|
    ensures s.goalLb == goalLb && s.lastSyncAt == lastSyncAt
  {
    // `sum` over no rows is null, which the source maps to 0
    var totalVolume := if rows == [] then None else Some(SumBy(rows, RowVolume));
    var totalSessions := if rows == [] then None else Some(SumBy(rows, RowCount));
    var totalLiftedLb := if totalVolume.Some? then totalVolume.value as real else 0.0;
    var percentageComplete := (totalLiftedLb / goalLb) * 100.0;
    var isCurrentYear := nowYear == year;
    var daysRemaining := if isCurrentYear then 365 - dayOfYear else 0;
    var targetPerDay := goalLb / TotalDays;
    var expectedToDate := targetPerDay * (if isCurrentYear then dayOfYear as real else TotalDays);
    var aheadBehindLb := totalLiftedLb - expectedToDate;
    var requiredPerDayLb := if daysRemaining > 0 then (goalLb - totalLiftedLb) / (daysRemaining as real) else 0.0;
    var projectedYearEndLb :=
      if isCurrentYear && dayOfYear > 0 then (totalLiftedLb / (dayOfYear as real)) * TotalDays else totalLiftedLb;
    DashboardStats(totalLiftedLb, goalLb, percentageComplete, daysRemaining, aheadBehindLb,
                   requiredPerDayLb, projectedYearEndLb,
                   if totalSessions.Some? then totalSessions.value else 0, |rows|, lastSyncAt)
  }

  lemma MulDiv(a: real, b: real)
    requires b != 0.0
    ensures (a / b) * b == a
  {
  }

  /** The completion percentage is the total as a share of the goal. */
  lemma StatsPercentage(rows: seq<AggregateRow>, year: int, goalLb: real, nowYear: int, dayOfYear: int,
                        lastSyncAt: Option<int>)
    requires goalLb != 0.0
    ensures var s := Stats(rows, year, goalLb, nowYear, dayOfYear, lastSyncAt);
      s.percentageComplete * goalLb == s.totalLiftedLb * 100.0
  {
    var s := Stats(rows, year, goalLb, nowYear, dayOfYear, lastSyncAt);
    MulDiv(s.totalLiftedLb, goalLb);
  }

  /** A year other than the current one is closed: no days remain, nothing
      more is required, the projection is the total, and the whole goal was
      expected, so ahead/behind is total minus goal. */
  lemma StatsClosedYear(rows: seq<AggregateRow>, year: int, goalLb: real, nowYear: int, dayOfYear: int,
                        lastSyncAt: Option<int>)
    requires goalLb != 0.0 && year != nowYear
    ensures var s := Stats(rows, year, goalLb, nowYear, dayOfYear, lastSyncAt);
      && s.daysRemaining == 0
      && s.requiredPerDayLb == 0.0
      && s.projectedYearEndLb == s.totalLiftedLb
      && s.aheadBehindLb == s.totalLiftedLb - goalLb
  {
    MulDiv(goalLb, TotalDays);
  }

  /** In the current year the pace is measured against the elapsed share of
      the goal, and the projection extends the pace so far to 365 days. */
  lemma StatsCurrentYear(rows: seq<AggregateRow>, year: int, goalLb: real, nowYear: int, dayOfYear: int,
                         lastSyncAt: Option<int>)
    requires goalLb != 0.0 && year == nowYear
    ensures var s := Stats(rows, year, goalLb, nowYear, dayOfYear, lastSyncAt);
      && s.daysRemaining == 365 - dayOfYear
      && s.aheadBehindLb * TotalDays == s.totalLiftedLb * TotalDays - goalLb * (dayOfYear as real)
      && (dayOfYear > 0 ==> s.projectedYearEndLb * (dayOfYear as real) == s.totalLiftedLb * TotalDays)
      && (dayOfYear <= 0 ==> s.projectedYearEndLb == s.totalLiftedLb)
  {
    var s := Stats(rows, year, goalLb, nowYear, dayOfYear, lastSyncAt);
    var t := s.totalLiftedLb;
    var d := dayOfYear as real;
    assert s.aheadBehindLb == t - (goalLb / TotalDays) * d;
    MulDiv(goalLb, TotalDays);
    assert (goalLb / TotalDays) * d * TotalDays == goalLb * d;
    if dayOfYear > 0 {
      assert s.projectedYearEndLb == (t / d) * TotalDays;
      MulDiv(t, d);
      assert (t / d) * TotalDays * d == (t / d) * d * TotalDays;
    }
  }

  /** The required daily volume closes the gap to the goal exactly over the
      remaining days, and is 0 when no days remain. */
  lemma StatsRequiredPerDay(rows: seq<AggregateRow>, year: int, goalLb: real, nowYear: int, dayOfYear: int,
                            lastSyncAt: Option<int>)
    requires goalLb != 0.0
    ensures var s := Stats(rows, year, goalLb, nowYear, dayOfYear, lastSyncAt);
      && (s.daysRemaining <= 0 ==> s.requiredPerDayLb == 0.0)
      && (s.daysRemaining > 0 ==> s.totalLiftedLb + s.requiredPerDayLb * (s.daysRemaining as real) == goalLb)
  {
    var s := Stats(rows, year, goalLb, nowYear, dayOfYear, lastSyncAt);
    if s.daysRemaining > 0 {
      MulDiv(goalLb - s.totalLiftedLb, s.daysRemaining as real);
    }
  }

  datatype ChartPoint = ChartPoint(
    date: Date,
    actualVolume: real,
    targetVolume: real,
    cumulativeActual: real,
    cumulativeTarget: real)

  /** Point `i` of the chart over `aggs`: the row's date and volume, the
      running total through that row, and the target line at its day. */
  predicate PointOf(p: ChartPoint, aggs: seq<AggregateRow>, i: int, targetPerDay: real, cal: Calendar)
    requires 0 <= i < |aggs|
  {
    && p.date == aggs[i].date
    && p.actualVolume == aggs[i].volumeLb as real
    && p.targetVolume == targetPerDay
    && p.cumulativeActual == SumBy(aggs[..i + 1], RowVolume) as real
    && p.cumulativeTarget == targetPerDay * (cal.dayOfYear(aggs[i].date) as real)
  }

  /** The loop of `getChartData` over rows already in date order: one point per
      row, carrying the running total of the volumes so far; the daily target
      is the goal spread over 365 days. */
  method ChartPoints(aggs: seq<AggregateRow>, goalLb: real, cal: Calendar) returns (points: seq<ChartPoint>)
    ensures |points| == |aggs|
    ensures forall i :: 0 <= i < |aggs| ==> PointOf(points[i], aggs, i, goalLb / TotalDays, cal)
    ensures forall i :: 0 <= i < |aggs| ==> points[i].targetVolume * TotalDays == goalLb
  {
    points := [];
    var cumulative := 0.0;
    var targetPerDay := goalLb / TotalDays;
    MulDiv(goalLb, TotalDays);
    var i := 0;
    while i < |aggs|
      invariant 0 <= i <= |aggs| && |points| == i
      invariant cumulative == SumBy(aggs[..i], RowVolume) as real
      invariant forall k :: 0 <= k < i ==> PointOf(points[k], aggs, k, targetPerDay, cal)
    {
      var agg := aggs[i];
      assert aggs[..i + 1][..i] == aggs[..i];
      cumulative := cumulative + agg.volumeLb as real;
      var dayIndex := cal.dayOfYear(agg.date);
      points := points + [ChartPoint(agg.date, agg.volumeLb as real, targetPerDay, cumulative,
                                     targetPerDay * (dayIndex as real))];
      i := i + 1;
    }
  }

  /** With non-negative volumes the running total never decreases. */
  lemma {:induction false} PrefixSumsNonDecreasing(aggs: seq<AggregateRow>, i: nat, j: nat)
    requires i <= j <= |aggs|
    requires forall k :: 0 <= k < |aggs| ==> aggs[k].volumeLb >= 0
    ensures SumBy(aggs[..i], RowVolume) <= SumBy(aggs[..j], RowVolume)
  {
    if i < j {
      PrefixSumsNonDecreasing(aggs, i, j - 1);
      assert aggs[..j][..j - 1] == aggs[..j - 1];
    }
  }

  datatype HeatmapDay = HeatmapDay(date: Date, volumeLb: int, count: int, prCount: int)

  function HeatmapOf(r: AggregateRow): HeatmapDay {
    HeatmapDay(r.date, r.volumeLb, r.workoutsCount, r.prsCount)
  }

  datatype PrFeedItem = PrFeedItem(
    id: int,
    date: Date,
    kind: string,
    exerciseName: Option<string>,
    value: int,
    delta: int)

  /** One feed item; a missing delta reads as 0, and an empty exercise name
      (falsy for `||`) becomes absent. */
  function FeedItem(e: PrEvent): (item: PrFeedItem)
    ensures item.delta == (if e.delta.Some? then e.delta.value else 0)
    ensures item.id == e.id && item.date == e.date && item.value == e.value
    ensures item.exerciseName.Some? <==> e.exerciseName.Some? && e.exerciseName.value != ""
    ensures item.exerciseName.Some? ==> item.exerciseName == e.exerciseName
  {
    var name := if e.exerciseName.Some? && e.exerciseName.value != "" then e.exerciseName else None;
    PrFeedItem(e.id, e.date, e.kind, name, e.value, e.delta.GetOr(0))
  }

  function DateDesc(e: PrEvent): int { -e.date }

  function Min(a: int, b: int): int { if a <= b then a else b }

  /** The rows the `getRecentPrs` query selects: the user's events ordered
      by date descending, cut at `limit`. */
  function NewestEvents(events: seq<PrEvent>, u: UserId, limit: nat): seq<PrEvent> {
    var sorted := SortBy(Filter(events, IsUserEvent(u)), DateDesc);
    if limit <= |sorted| then sorted[..limit] else sorted
  }

  /** `getRecentPrs`: the user's events, newest date first, at most `limit`. */
  function RecentPrs(events: seq<PrEvent>, u: UserId, limit: nat): (r: seq<PrFeedItem>)
    ensures |r| == Min(limit, |Filter(events, IsUserEvent(u))|)
    ensures forall i, j :: 0 <= i < j < |r| ==> r[i].date >= r[j].date
  {
    var taken := NewestEvents(events, u, limit);
    SortBySorted(Filter(events, IsUserEvent(u)), DateDesc);
    seq(|taken|, k requires 0 <= k < |taken| => FeedItem(taken[k]))
  }

  /** The feed holds the most recent records: every event of the user is
      either in the feed or no newer than anything in it. */
  lemma RecentPrsAreNewest(events: seq<PrEvent>, u: UserId, limit: nat)
    ensures var r := RecentPrs(events, u, limit);
      forall e :: e in events && e.userId == u ==>
        FeedItem(e) in r || forall i :: 0 <= i < |r| ==> r[i].date >= e.date
  {
    var mine := Filter(events, IsUserEvent(u));
    var sorted := SortBy(mine, DateDesc);
    SortBySorted(mine, DateDesc);
    FilterMembers(events, IsUserEvent(u));
    var r := RecentPrs(events, u, limit);
    RecentPrsPrefix(events, u, limit);
    forall e | e in events && e.userId == u
      ensures FeedItem(e) in r || forall i :: 0 <= i < |r| ==> r[i].date >= e.date
    {
      assert e in mine;
      assert e in multiset(sorted);
      var k :| 0 <= k < |sorted| && sorted[k] == e;
      if k < |r| {
        assert r[k] == FeedItem(e);
      }
    }
  }

  /** The feed is the leading part of the user's events in date-descending order. */
  lemma RecentPrsPrefix(events: seq<PrEvent>, u: UserId, limit: nat)
    ensures var sorted := SortBy(Filter(events, IsUserEvent(u)), DateDesc);
            var r := RecentPrs(events, u, limit);
            && |r| <= |sorted|
            && (forall k :: 0 <= k < |r| ==> r[k] == FeedItem(sorted[k]))
  {
    var sorted := SortBy(Filter(events, IsUserEvent(u)), DateDesc);
    var taken := NewestEvents(events, u, limit);
    assert forall k :: 0 <= k < |taken| ==> taken[k] == sorted[k];
  }

  /** Every feed item comes from one of the user's events. */
  lemma RecentPrsFromUser(events: seq<PrEvent>, u: UserId, limit: nat)
    ensures forall i :: 0 <= i < |RecentPrs(events, u, limit)| ==>
              exists e :: e in events && e.userId == u && RecentPrs(events, u, limit)[i] == FeedItem(e)
  {
    var mine := Filter(events, IsUserEvent(u));
    var sorted := SortBy(mine, DateDesc);
    FilterMembers(events, IsUserEvent(u));
    var r := RecentPrs(events, u, limit);
    RecentPrsPrefix(events, u, limit);
    forall i | 0 <= i < |r| ensures exists e :: e in events && e.userId == u && r[i] == FeedItem(e) {
      assert r[i] == FeedItem(sorted[i]);
      assert sorted[i] in multiset(mine);
      assert sorted[i] in mine;
      var e := sorted[i];
      assert e in events && IsUserEvent(u)(e);
      assert e.userId == u && r[i] == FeedItem(e);
    }
    assert forall i :: 0 <= i < |r| ==> exists e :: e in events && e.userId == u && r[i] == FeedItem(e);
  }
}
