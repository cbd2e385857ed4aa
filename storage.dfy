/** `DatabaseStorage`: the four tables the core touches, held as row
    sequences (connections keyed by user, the conflict target of their
    upsert), with the storage operations as methods that update them. */
module Storage {
  import opened Wrappers
  import opened Tables
  import opened Volume
  import opened Schema
  import opened Aggregation
  import opened Dashboard

  /** Column defaults of `hevy_connections`. */
  const DefaultTargetWeightLb: real := 3000000.0

  /** `updateHevyConnection` on one row: a new row takes the supplied fields
      and the column defaults; an existing row is overwritten only in the
      fields the caller supplies. */
  function UpsertConnection(existing: Option<Connection>, u: UserId, data: ConnectionInput, defaultYear: int)
    : (c: Connection)
    ensures c.userId == u && c.apiKey == data.apiKey
    ensures data.lastSyncAt.Some? ==> c.lastSyncAt == data.lastSyncAt
    ensures data.targetWeightLb.Some? ==> c.targetWeightLb == data.targetWeightLb
    ensures data.selectedYear.Some? ==> c.selectedYear == data.selectedYear
    ensures existing.Some? ==>
              && (data.lastSyncAt.None? ==> c.lastSyncAt == existing.value.lastSyncAt)
              && (data.targetWeightLb.None? ==> c.targetWeightLb == existing.value.targetWeightLb)
              && (data.selectedYear.None? ==> c.selectedYear == existing.value.selectedYear)
    ensures existing.None? ==>
              && (data.lastSyncAt.None? ==> c.lastSyncAt.None?)
              && (data.targetWeightLb.None? ==> c.targetWeightLb == Some(DefaultTargetWeightLb))
              && (data.selectedYear.None? ==> c.selectedYear == Some(defaultYear))
  {
    match existing
    case None =>
      Connection(u, data.apiKey, data.lastSyncAt,
                 if data.targetWeightLb.Some? then data.targetWeightLb else Some(DefaultTargetWeightLb),
                 if data.selectedYear.Some? then data.selectedYear else Some(defaultYear))
    case Some(prev) =>
      Connection(u, data.apiKey,
                 if data.lastSyncAt.Some? then data.lastSyncAt else prev.lastSyncAt,
                 if data.targetWeightLb.Some? then data.targetWeightLb else prev.targetWeightLb,
                 if data.selectedYear.Some? then data.selectedYear else prev.selectedYear)
  }

  /** The row `upsertWorkouts` builds from one remote workout. */
  function ToRow(u: UserId, w: HevyWorkout): WorkoutRow {
    WorkoutRow(w.id, u, w.title, w.startTime, w.endTime, VolumeLb(w), w)
  }

  function ToRows(u: UserId, ws: seq<HevyWorkout>): seq<WorkoutRow> {
    seq(|ws|, i requires 0 <= i < |ws| => ToRow(u, ws[i]))
  }

  /** The stored row agrees with its payload, its volume included. */
  predicate MatchesPayload(w: WorkoutRow) {
    && w.id == w.raw.id && w.title == w.raw.title && w.startTime == w.raw.startTime
    && w.endTime == w.raw.endTime && w.volumeLb == VolumeLb(w.raw)
  }

  predicate DistinctIds(rows: seq<WorkoutRow>) {
    forall i, j :: 0 <= i < j < |rows| ==> rows[i].id != rows[j].id
  }

  ghost function Ids(rows: seq<WorkoutRow>): set<string> {
    set r | r in rows :: r.id
  }

  function FindId(rows: seq<WorkoutRow>, id: string): (r: Option<nat>)
    ensures r.Some? ==> r.value < |rows| && rows[r.value].id == id
    ensures r.None? ==> forall k :: 0 <= k < |rows| ==> rows[k].id != id
  {
    if rows == [] then None
    else if rows[0].id == id then Some(0)
    else match FindId(rows[1..], id)
      case Some(k) => Some(k + 1)
      case None => None
  }

  /** One row of the bulk insert: on an id conflict the stored row takes the
      new title, times, volume and payload and keeps its owner. */
  function UpsertRow(table: seq<WorkoutRow>, r: WorkoutRow): seq<WorkoutRow> {
    match FindId(table, r.id)
    case Some(k) =>
      table[k := table[k].(title := r.title, startTime := r.startTime, endTime := r.endTime,
                           volumeLb := r.volumeLb, raw := r.raw)]
    case None => table + [r]
  }

  function UpsertRows(table: seq<WorkoutRow>, rows: seq<WorkoutRow>): seq<WorkoutRow> {
    if rows == [] then table else UpsertRow(UpsertRows(table, rows[..|rows| - 1]), rows[|rows| - 1])
  }

  predicate SameData(a: WorkoutRow, b: WorkoutRow) {
    a.title == b.title && a.startTime == b.startTime && a.endTime == b.endTime
    && a.volumeLb == b.volumeLb && a.raw == b.raw
  }

  /** One upserted row: the table gains the id (or already has it), the row
      with that id carries the new data, and nothing else changes. */
  lemma UpsertRowEffect(t: seq<WorkoutRow>, r: WorkoutRow)
    requires DistinctIds(t)
    ensures var t2 := UpsertRow(t, r);
      && DistinctIds(t2)
      && Ids(t2) == Ids(t) + {r.id}
      && |t| <= |t2| <= |t| + 1
      && (|t2| > |t| ==> t2[|t|] == r)
      && (forall k :: 0 <= k < |t| ==> t2[k].userId == t[k].userId && t2[k].id == t[k].id)
      && (forall k :: 0 <= k < |t| && t[k].id != r.id ==> t2[k] == t[k])
      && (forall k :: 0 <= k < |t2| && t2[k].id == r.id ==> SameData(t2[k], r))
  {
    var t2 := UpsertRow(t, r);
    match FindId(t, r.id)
    case Some(k) => {
      assert t[k] in t;
      forall x | x in Ids(t2) ensures x in Ids(t) {
        var y :| y in t2 && y.id == x;
        var j :| 0 <= j < |t2| && t2[j] == y;
        assert t[j] in t;
      }
      forall x | x in Ids(t) ensures x in Ids(t2) {
        var y :| y in t && y.id == x;
        var j :| 0 <= j < |t| && t[j] == y;
        assert t2[j] in t2;
      }
    }
    case None => {
      assert t2 == t + [r];
      assert Ids(t2) == Ids(t) + {r.id} by {
        forall x | x in Ids(t2) ensures x in Ids(t) + {r.id} {
          var y :| y in t2 && y.id == x;
          var j :| 0 <= j < |t2| && t2[j] == y;
          if j < |t| { assert t[j] in t; }
        }
        assert t2[|t|] in t2;
      }
    }
  }

  lemma IdsSnoc(rows: seq<WorkoutRow>, n: nat)
    requires n < |rows|
    ensures Ids(rows[..n + 1]) == Ids(rows[..n]) + {rows[n].id}
  {
    var a, b := rows[..n], rows[..n + 1];
    assert b == a + [rows[n]];
    assert b[n] in b;
    forall x | x in Ids(b) ensures x in Ids(a) + {rows[n].id} {
      var y :| y in b && y.id == x;
      var j :| 0 <= j < |b| && b[j] == y;
      if j < n { assert a[j] in a; }
    }
    forall x | x in Ids(a) ensures x in Ids(b) {
      var y :| y in a && y.id == x;
      var j :| 0 <= j < |a| && a[j] == y;
      assert b[j] in b;
    }
  }

  /** A bulk upsert keeps ids unique, holds exactly the old ids and the new
      ones, and keeps the id and the owner of every existing row. */
  lemma {:induction false} UpsertRowsIds(table: seq<WorkoutRow>, rows: seq<WorkoutRow>)
    requires DistinctIds(table)
    ensures var t := UpsertRows(table, rows);
      && DistinctIds(t)
      && Ids(t) == Ids(table) + Ids(rows)
      && |table| <= |t|
      && (forall k :: 0 <= k < |table| ==> t[k].userId == table[k].userId && t[k].id == table[k].id)
  {
    if rows != [] {
      var n := |rows| - 1;
      UpsertRowsIds(table, rows[..n]);
      UpsertRowEffect(UpsertRows(table, rows[..n]), rows[n]);
      IdsSnoc(rows, n);
      assert rows[..n + 1] == rows;
    }
  }

  /** Rows whose id was not sent are untouched. */
  lemma {:induction false} UpsertRowsUntouched(table: seq<WorkoutRow>, rows: seq<WorkoutRow>)
    requires DistinctIds(table)
    ensures |table| <= |UpsertRows(table, rows)|
    ensures forall k :: 0 <= k < |table| && table[k].id !in Ids(rows) ==> UpsertRows(table, rows)[k] == table[k]
  {
    if rows != [] {
      var n := |rows| - 1;
      UpsertRowsIds(table, rows[..n]);
      UpsertRowsUntouched(table, rows[..n]);
      UpsertRowEffect(UpsertRows(table, rows[..n]), rows[n]);
      IdsSnoc(rows, n);
      assert rows[..n + 1] == rows;
    }
  }

  /** Every incoming row's data is stored under its id (the incoming ids
      being distinct). */
  lemma {:induction false} UpsertRowsData(table: seq<WorkoutRow>, rows: seq<WorkoutRow>)
    requires DistinctIds(table) && DistinctIds(rows)
    ensures var t := UpsertRows(table, rows);
      forall i, k :: 0 <= i < |rows| && 0 <= k < |t| && t[k].id == rows[i].id ==> SameData(t[k], rows[i])
  {
    if rows != [] {
      var n := |rows| - 1;
      var r := rows[n];
      var t' := UpsertRows(table, rows[..n]);
      var t := UpsertRows(table, rows);
      assert DistinctIds(rows[..n]);
      UpsertRowsIds(table, rows[..n]);
      UpsertRowsData(table, rows[..n]);
      UpsertRowEffect(t', r);
      forall i, k | 0 <= i < |rows| && 0 <= k < |t| && t[k].id == rows[i].id
        ensures SameData(t[k], rows[i])
      {
        if i < n {
          assert rows[i] == rows[..n][i];
          assert rows[i].id != r.id;
          assert k < |t'|;
        }
      }
    }
  }

  /** Rows beyond the old table are incoming rows, i.e. inserted ones. */
  lemma {:induction false} UpsertRowsAppended(table: seq<WorkoutRow>, rows: seq<WorkoutRow>)
    requires DistinctIds(table) && DistinctIds(rows)
    ensures forall k :: |table| <= k < |UpsertRows(table, rows)| ==> UpsertRows(table, rows)[k] in rows
  {
    if rows != [] {
      var n := |rows| - 1;
      var r := rows[n];
      var t' := UpsertRows(table, rows[..n]);
      var t := UpsertRows(table, rows);
      assert DistinctIds(rows[..n]);
      UpsertRowsIds(table, rows[..n]);
      UpsertRowsAppended(table, rows[..n]);
      UpsertRowEffect(t', r);
      forall k | |table| <= k < |t| ensures t[k] in rows {
        if k < |t'| {
          assert t'[k] in rows[..n];
          var m :| 0 <= m < n && rows[..n][m] == t'[k];
          assert rows[m].id != r.id;
          assert t[k] == t'[k];
        }
      }
    }
  }

  /** Stored rows keep agreeing with their payloads across an upsert. */
  lemma UpsertKeepsPayloads(table: seq<WorkoutRow>, rows: seq<WorkoutRow>)
    requires DistinctIds(table) && DistinctIds(rows)
    requires forall k :: 0 <= k < |table| ==> MatchesPayload(table[k])
    requires forall i :: 0 <= i < |rows| ==> MatchesPayload(rows[i])
    ensures forall k :: 0 <= k < |UpsertRows(table, rows)| ==> MatchesPayload(UpsertRows(table, rows)[k])
  {
    var t := UpsertRows(table, rows);
    UpsertRowsIds(table, rows);
    UpsertRowsUntouched(table, rows);
    UpsertRowsData(table, rows);
    UpsertRowsAppended(table, rows);
    forall k | 0 <= k < |t| ensures MatchesPayload(t[k]) {
      if k < |table| && table[k].id in Ids(rows) {
        var x :| x in rows && x.id == table[k].id;
        var i :| 0 <= i < |rows| && rows[i] == x;
        assert SameData(t[k], rows[i]);
      } else if k >= |table| {
        assert t[k] in rows;
        var i :| 0 <= i < |rows| && rows[i] == t[k];
      }
    }
  }

  /** The rows `upsertWorkouts` builds from the remote workouts, each with
      its computed volume. */
  method BuildRows(u: UserId, ws: seq<HevyWorkout>) returns (rows: seq<WorkoutRow>)
    ensures rows == ToRows(u, ws)
  {
    rows := [];
    var i := 0;
    while i < |ws|
      invariant 0 <= i <= |ws|
      invariant rows == ToRows(u, ws[..i])
    {
      var w := ws[i];
      var vol := CalculateVolumeLb(w);
      rows := rows + [WorkoutRow(w.id, u, w.title, w.startTime, w.endTime, vol, w)];
      i := i + 1;
    }
    assert ws[..i] == ws;
  }

  /** The in-memory grouping of `recalculateAggregatesAndPrs`: one entry per
      UTC date, in first-seen order. */
  method GroupByDate(ws: seq<WorkoutRow>, cal: Calendar) returns (dailyMap: seq<DayEntry>)
    ensures dailyMap == DailyBuckets(ws, cal)
  {
    dailyMap := [];
    var i := 0;
    while i < |ws|
      invariant 0 <= i <= |ws|
      invariant dailyMap == DailyBuckets(ws[..i], cal)
    {
      var w := ws[i];
      var day := cal.utcDate(w.startTime);
      assert ws[..i + 1][..i] == ws[..i];
      match FindDate(dailyMap, day) {
        case Some(k) =>
          dailyMap := dailyMap[k := DayEntry(day, dailyMap[k].volume + w.volumeLb, dailyMap[k].count + 1)];
        case None =>
          dailyMap := dailyMap + [DayEntry(day, w.volumeLb, 1)];
      }
      i := i + 1;
    }
    assert ws[..i] == ws;
  }

  /** The default number of feed items. */
  const DefaultPrLimit: nat := 10

  class DatabaseStorage {
    var connections: map<UserId, Connection>
    var workouts: seq<WorkoutRow>
    var aggregates: seq<AggregateRow>
    var prEvents: seq<PrEvent>
    /** The next value of the `pr_events.id` serial. */
    var nextPrId: int
    /** The date rules of the server process. */
    const cal: Calendar
    /** The `selected_year` column default: the year fixed in the column's
        DEFAULT when the schema was pushed. */
    const defaultSelectedYear: int

    ghost predicate Valid()
      reads this
    {
      && (forall u :: u in connections ==> connections[u].userId == u)
      && DistinctIds(workouts)
      && (forall k :: 0 <= k < |workouts| ==> MatchesPayload(workouts[k]))
      && RowFlags(aggregates)
      && OneRowPerDay(aggregates)
      && IdsBelow(prEvents, nextPrId)
      && IdsIncreasing(prEvents)
    }

    constructor (cal: Calendar, defaultSelectedYear: int)
      ensures Valid()
      ensures this.cal == cal && this.defaultSelectedYear == defaultSelectedYear
      ensures connections == map[] && workouts == [] && aggregates == [] && prEvents == []
    {
      this.cal := cal;
      this.defaultSelectedYear := defaultSelectedYear;
      connections := map[];
      workouts := [];
      aggregates := [];
      prEvents := [];
      nextPrId := 1;
    }

    function GetHevyConnection(u: UserId): Option<Connection>
      reads this
    {
      if u in connections then Some(connections[u]) else None
    }

    /** Insert the user's connection, or on conflict overwrite the supplied fields. */
    method UpdateHevyConnection(u: UserId, data: ConnectionInput) returns (c: Connection)
      requires Valid()
      modifies this
      ensures Valid()
      ensures c == UpsertConnection(old(GetHevyConnection(u)), u, data, defaultSelectedYear)
      ensures connections == old(connections)[u := c]
      ensures workouts == old(workouts) && aggregates == old(aggregates)
      ensures prEvents == old(prEvents) && nextPrId == old(nextPrId)
    {
      c := UpsertConnection(GetHevyConnection(u), u, data, defaultSelectedYear);
      connections := connections[u := c];
    }

    /** Build one row per remote workout (computing its volume) and bulk
        upsert them. Incoming rows that share an id make the statement fail
        as a whole, and nothing is written. */
    method UpsertWorkouts(u: UserId, ws: seq<HevyWorkout>) returns (ok: bool)
      requires Valid()
      modifies this
      ensures Valid()
      ensures ok <==> DistinctIds(ToRows(u, ws))
      ensures workouts == if ok then UpsertRows(old(workouts), ToRows(u, ws)) else old(workouts)
      ensures connections == old(connections) && aggregates == old(aggregates)
      ensures prEvents == old(prEvents) && nextPrId == old(nextPrId)
    {
      if |ws| == 0 {
        assert ToRows(u, ws) == [];
        return true;
      }
      var rows := BuildRows(u, ws);
      if exists a, b | 0 <= a < b < |rows| :: rows[a].id == rows[b].id {
        return false;
      }
      UpsertRowsIds(workouts, rows);
      UpsertKeepsPayloads(workouts, rows);
      workouts := UpsertRows(workouts, rows);
      ok := true;
    }

    /** `getWorkouts`: the user's workouts of the year, newest first. */
    function GetWorkouts(u: UserId, year: int): seq<WorkoutRow>
      reads this
    {
      FetchedWorkouts(workouts, u, year, cal)
    }

    /** Rebuild the (user, year) aggregates and that year's daily-volume records. */
    method RecalculateAggregatesAndPrs(u: UserId, year: int)
      requires Valid()
      modifies this
      ensures Valid()
      ensures aggregates == RecomputeAggregates(old(aggregates), workouts, u, year, cal)
      ensures prEvents == RecomputePrEvents(old(prEvents), workouts, u, year, cal, old(nextPrId))
      ensures nextPrId == old(nextPrId) + |YearRecords(workouts, u, year, cal)|
      ensures workouts == old(workouts) && connections == old(connections)
    {
      var userWorkouts := GetWorkouts(u, year);

      var dailyMap := GroupByDate(userWorkouts, cal);

      // delete the year's rows, then insert the rebuilt ones
      ghost var before := aggregates;
      RecomputeKeepsInvariants(before, workouts, u, year, cal);
      aggregates := Filter(aggregates, NotYear(u, year));
      var aggRows := NewRows(u, year, dailyMap);
      aggregates := aggregates + aggRows;

      // running maximum over the days in date order
      var prs := MarkRecordDays(u, SortBy(aggRows, DateKey));

      // replace the records dated within the year
      RecomputePrIds(prEvents, OutsidePrRange(u, year, cal), prs, u, nextPrId);
      prEvents := Filter(prEvents, OutsidePrRange(u, year, cal)) + NumberRecords(prs, u, nextPrId);
      nextPrId := nextPrId + |prs|;
    }

    /** The walk over the rebuilt rows in date order: each day whose volume
        beats the running maximum becomes a record, and the user's rows of
        that date are flagged as it is found. */
    method MarkRecordDays(u: UserId, sortedRows: seq<AggregateRow>) returns (prs: seq<DailyRecord>)
      modifies this
      ensures prs == Records(sortedRows, 0)
      ensures aggregates == MarkPrs(old(aggregates), u, RecordDateSet(prs))
      ensures workouts == old(workouts) && connections == old(connections)
      ensures prEvents == old(prEvents) && nextPrId == old(nextPrId)
    {
      ghost var inserted := aggregates;
      var maxDailyVol := 0;
      prs := [];
      var j := 0;
      assert aggregates == MarkPrs(inserted, u, {});
      while j < |sortedRows|
        invariant 0 <= j <= |sortedRows|
        invariant prs + Records(sortedRows[j..], maxDailyVol) == Records(sortedRows, 0)
        invariant aggregates == MarkPrs(inserted, u, RecordDateSet(prs))
        invariant workouts == old(workouts) && connections == old(connections)
        invariant prEvents == old(prEvents) && nextPrId == old(nextPrId)
      {
        var day := sortedRows[j];
        var vol := day.volumeLb;
        WalkStep(sortedRows, j, maxDailyVol, prs, inserted, u);
        if vol > maxDailyVol && vol > 0 {
          maxDailyVol := vol;
          prs := prs + [DailyRecord(day.date, vol, maxDailyVol - vol, vol - (maxDailyVol - vol))];
          aggregates := MarkPrs(aggregates, u, {day.date});
        }
        j := j + 1;
      }
    }

    /** `getDashboardStats` over the (user, year) rows. */
    function GetDashboardStats(u: UserId, year: int, goalLb: real, nowYear: int, dayOfYear: int): DashboardStats
      reads this
      requires goalLb != 0.0
    {
      var conn := GetHevyConnection(u);
      Stats(Filter(aggregates, IsYear(u, year)), year, goalLb, nowYear, dayOfYear,
            if conn.Some? then conn.value.lastSyncAt else None)
    }

    /** `getChartData`: one point per (user, year) row, in ascending date
        order, the last cumulative value being the dashboard total. */
    method GetChartData(u: UserId, year: int, goalLb: real) returns (points: seq<ChartPoint>)
      requires Valid()
      ensures |points| == |Filter(aggregates, IsYear(u, year))|
      ensures forall i :: 0 <= i < |points| ==>
                PointOf(points[i], SortBy(Filter(aggregates, IsYear(u, year)), DateKey), i, goalLb / TotalDays, cal)
      ensures forall i, j :: 0 <= i < j < |points| ==> points[i].date < points[j].date
      ensures forall i :: 0 <= i < |points| ==> points[i].targetVolume * TotalDays == goalLb
      ensures |points| > 0 ==>
                points[|points| - 1].cumulativeActual == SumBy(Filter(aggregates, IsYear(u, year)), RowVolume) as real
    {
      var rows := Filter(aggregates, IsYear(u, year));
      var sorted := SortBy(rows, DateKey);
      YearRowsStrict(aggregates, u, year);
      SortByStrict(rows, DateKey);
      SumBySortBy(rows, DateKey, RowVolume);
      points := ChartPoints(sorted, goalLb, cal);
      forall i, j | 0 <= i < j < |points| ensures points[i].date < points[j].date {
        assert PointOf(points[i], sorted, i, goalLb / TotalDays, cal);
        assert PointOf(points[j], sorted, j, goalLb / TotalDays, cal);
      }
      if |points| > 0 {
        assert PointOf(points[|points| - 1], sorted, |sorted| - 1, goalLb / TotalDays, cal);
        assert sorted[..|sorted|] == sorted;
      }
    }

    /** `getHeatmapData`: the (user, year) rows as heatmap days, one per date,
        each with at least one workout and a record flag of 0 or 1. */
    function GetHeatmapData(u: UserId, year: int): (days: seq<HeatmapDay>)
      reads this
      requires Valid()
      ensures |days| == |Filter(aggregates, IsYear(u, year))|
      ensures forall i :: 0 <= i < |days| ==> days[i].count >= 1 && 0 <= days[i].prCount <= 1
      ensures forall i, j :: 0 <= i < j < |days| ==> days[i].date != days[j].date
    {
      var rows := Filter(aggregates, IsYear(u, year));
      YearRowsStrict(aggregates, u, year);
      YearRowsFlags(aggregates, u, year);
      seq(|rows|, k requires 0 <= k < |rows| => HeatmapOf(rows[k]))
    }

    /** `getRecentPrs` with the default limit. */
    function GetRecentPrs(u: UserId): seq<PrFeedItem>
      reads this
    {
      RecentPrs(prEvents, u, DefaultPrLimit)
    }
  }

  function IdBefore(a: PrEvent, b: PrEvent): bool { a.id < b.id }

  /** Every id was handed out before the serial reached `next`. */
  predicate IdsBelow(es: seq<PrEvent>, next: int) {
    forall i :: 0 <= i < |es| ==> es[i].id < next
  }

  /** Ids in insertion order are increasing, as a serial hands them out. */
  predicate IdsIncreasing(es: seq<PrEvent>) {
    forall i, j :: 0 <= i < j < |es| ==> es[i].id < es[j].id
  }

  /** Keeping some events and numbering new ones from the serial keeps the ids
      increasing and below the advanced serial. */
  lemma RecomputePrIds(events: seq<PrEvent>, keep: PrEvent -> bool, recs: seq<DailyRecord>, u: UserId, first: int)
    requires IdsBelow(events, first) && IdsIncreasing(events)
    ensures IdsBelow(Filter(events, keep) + NumberRecords(recs, u, first), first + |recs|)
    ensures IdsIncreasing(Filter(events, keep) + NumberRecords(recs, u, first))
  {
    var kept := Filter(events, keep);
    var r := kept + NumberRecords(recs, u, first);
    FilterMembers(events, keep);
    FilterPairwise(events, keep, IdBefore);
    forall i | 0 <= i < |r| ensures r[i].id < first + |recs| {
      if i < |kept| {
        assert kept[i] in kept;
      }
    }
    forall a, b | 0 <= a < b < |r| ensures r[a].id < r[b].id {
      if a < |kept| {
        assert kept[a] in kept;
        if b < |kept| { assert IdBefore(kept[a], kept[b]); }
      }
    }
  }

  /** The rows of one (user, year) have distinct dates. */
  lemma YearRowsStrict(aggs: seq<AggregateRow>, u: UserId, y: int)
    requires OneRowPerDay(aggs)
    ensures KeysDistinct(Filter(aggs, IsYear(u, y)), DateKey)
  {
    var rows := Filter(aggs, IsYear(u, y));
    FilterPairwise(aggs, IsYear(u, y), SameDayKey);
    FilterMembers(aggs, IsYear(u, y));
    forall i, j | 0 <= i < j < |rows| ensures DateKey(rows[i]) != DateKey(rows[j]) {
      assert rows[i] in rows && rows[j] in rows;
      assert SameDayKey(rows[i], rows[j]);
    }
  }

  lemma YearRowsFlags(aggs: seq<AggregateRow>, u: UserId, y: int)
    requires RowFlags(aggs)
    ensures RowFlags(Filter(aggs, IsYear(u, y)))
  {
    var rows := Filter(aggs, IsYear(u, y));
    FilterMembers(aggs, IsYear(u, y));
    forall i | 0 <= i < |rows| ensures rows[i].workoutsCount >= 1 && 0 <= rows[i].prsCount <= 1 {
      assert rows[i] in rows;
      var m :| 0 <= m < |aggs| && aggs[m] == rows[i];
    }
  }
}
