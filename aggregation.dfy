/** The year recompute of `recalculateAggregatesAndPrs`, as functions of the
    tables it reads: bucketing by UTC date, the rebuilt `(user, year)`
    aggregate rows, the running-maximum "daily total volume" records, and the
    resulting tables. The storage class runs the same steps imperatively and
    is proved equal to these functions. */
module Aggregation {
  import opened Wrappers
  import opened Tables
  import opened Schema

  /** One entry of the per-day map (`dailyMap`); a JavaScript Map keeps
      insertion order, so the map is a sequence of entries. */
  datatype DayEntry = DayEntry(date: Date, volume: int, count: int)

  function EntryCount(e: DayEntry): int { e.count }

  /** `dailyMap.get(day)`: the position of the entry for `d`, if any. */
  function FindDate(entries: seq<DayEntry>, d: Date): (r: Option<nat>)
    ensures r.Some? ==> r.value < |entries| && entries[r.value].date == d
    ensures r.None? ==> forall k :: 0 <= k < |entries| ==> entries[k].date != d
  {
    if entries == [] then None
    else if entries[0].date == d then Some(0)
    else match FindDate(entries[1..], d)
      case Some(k) => Some(k + 1)
      case None => None
  }

  /** Adds one workout of volume `v` on date `d` to the map. */
  function AddToDay(entries: seq<DayEntry>, d: Date, v: int): seq<DayEntry> {
    match FindDate(entries, d)
    case Some(k) => entries[k := DayEntry(d, entries[k].volume + v, entries[k].count + 1)]
    case None => entries + [DayEntry(d, v, 1)]
  }

  /** The per-day map after visiting the workouts in order. */
  function DailyBuckets(ws: seq<WorkoutRow>, cal: Calendar): seq<DayEntry> {
    if ws == [] then []
    else
      var w := ws[|ws| - 1];
      AddToDay(DailyBuckets(ws[..|ws| - 1], cal), cal.utcDate(w.startTime), w.volumeLb)
  }

  /** Reference definitions: total volume and number of the workouts whose UTC
      date is `d`. */
  function DayVolume(ws: seq<WorkoutRow>, cal: Calendar, d: Date): int {
    if ws == [] then 0
    else
      var w := ws[|ws| - 1];
      DayVolume(ws[..|ws| - 1], cal, d) + (if cal.utcDate(w.startTime) == d then w.volumeLb else 0)
  }

  function DayCount(ws: seq<WorkoutRow>, cal: Calendar, d: Date): nat {
    if ws == [] then 0
    else
      var w := ws[|ws| - 1];
      DayCount(ws[..|ws| - 1], cal, d) + (if cal.utcDate(w.startTime) == d then 1 else 0)
  }

  ghost predicate DistinctDates(es: seq<DayEntry>) {
    forall i, j :: 0 <= i < j < |es| ==> es[i].date != es[j].date
  }

  ghost function EntryDates(es: seq<DayEntry>): set<Date> {
    set e | e in es :: e.date
  }

  lemma {:induction false} NoWorkoutsNoVolume(ws: seq<WorkoutRow>, cal: Calendar, d: Date)
    requires DayCount(ws, cal, d) == 0
    ensures DayVolume(ws, cal, d) == 0
  {
    if ws != [] {
      NoWorkoutsNoVolume(ws[..|ws| - 1], cal, d);
    }
  }

  /** One step of the map update: the entry for `d` grows by one workout of
      volume `v`, or a new entry is appended; every other entry is unchanged. */
  lemma AddToDayEffect(b: seq<DayEntry>, d: Date, v: int)
    requires DistinctDates(b)
    ensures var r := AddToDay(b, d, v);
      && DistinctDates(r)
      && EntryDates(r) == EntryDates(b) + {d}
      && SumBy(r, EntryCount) == SumBy(b, EntryCount) + 1
      && (d in EntryDates(b) ==> |r| == |b|)
      && (d !in EntryDates(b) ==> r == b + [DayEntry(d, v, 1)])
      && (forall k :: 0 <= k < |b| && b[k].date != d ==> r[k] == b[k])
      && (forall k :: 0 <= k < |b| && b[k].date == d ==>
            r[k] == DayEntry(d, b[k].volume + v, b[k].count + 1))
  {
    match FindDate(b, d)
    case Some(k) => AddToDayFound(b, d, v, k);
    case None => AddToDayNew(b, d, v);
  }

  lemma AddToDayFound(b: seq<DayEntry>, d: Date, v: int, k: nat)
    requires DistinctDates(b)
    requires k < |b| && b[k].date == d
    ensures var r := b[k := DayEntry(d, b[k].volume + v, b[k].count + 1)];
      && d in EntryDates(b)
      && DistinctDates(r)
      && EntryDates(r) == EntryDates(b) + {d}
      && SumBy(r, EntryCount) == SumBy(b, EntryCount) + 1
      && (forall j :: 0 <= j < |b| && b[j].date == d ==> j == k)
  {
    var e := DayEntry(d, b[k].volume + v, b[k].count + 1);
    var r := b[k := e];
    SumByUpdate(b, k, e, EntryCount);
    assert b[k] in b;
    forall x | x in EntryDates(r) ensures x in EntryDates(b) {
      var y :| y in r && y.date == x;
      var j :| 0 <= j < |r| && r[j] == y;
      assert b[j] in b;
    }
    forall x | x in EntryDates(b) ensures x in EntryDates(r) {
      var y :| y in b && y.date == x;
      var j :| 0 <= j < |b| && b[j] == y;
      assert r[j] in r;
    }
  }

  lemma AddToDayNew(b: seq<DayEntry>, d: Date, v: int)
    requires DistinctDates(b)
    requires forall k :: 0 <= k < |b| ==> b[k].date != d
    ensures var r := b + [DayEntry(d, v, 1)];
      && d !in EntryDates(b)
      && DistinctDates(r)
      && EntryDates(r) == EntryDates(b) + {d}
      && SumBy(r, EntryCount) == SumBy(b, EntryCount) + 1
  {
    var e := DayEntry(d, v, 1);
    SumByAppend(b, [e], EntryCount);
    assert SumBy([e], EntryCount) == 1 by { assert [e][..0] == []; }
    EntryDatesAppend(b, e);
  }

  lemma EntryDatesAppend(b: seq<DayEntry>, e: DayEntry)
    requires forall k :: 0 <= k < |b| ==> b[k].date != e.date
    ensures e.date !in EntryDates(b)
    ensures EntryDates(b + [e]) == EntryDates(b) + {e.date}
  {
    var r := b + [e];
    assert e.date !in EntryDates(b) by {
      forall y | y in b ensures y.date != e.date {
        var j :| 0 <= j < |b| && b[j] == y;
      }
    }
    forall x | x in EntryDates(r) ensures x in EntryDates(b) + {e.date} {
      var y :| y in r && y.date == x;
      var j :| 0 <= j < |r| && r[j] == y;
      if j < |b| { assert b[j] in b; }
    }
    assert r[|b|] in r;
    forall x | x in EntryDates(b) ensures x in EntryDates(r) {
      var y :| y in b && y.date == x;
      var j :| 0 <= j < |b| && b[j] == y;
      assert r[j] in r;
    }
  }

  /** The per-day map has one entry per date that has a workout, and its
      counts add up to the number of workouts visited. */
  lemma {:induction false} DailyBucketsShape(ws: seq<WorkoutRow>, cal: Calendar)
    ensures DistinctDates(DailyBuckets(ws, cal))
    ensures forall d :: d in EntryDates(DailyBuckets(ws, cal)) <==> DayCount(ws, cal, d) > 0
    ensures SumBy(DailyBuckets(ws, cal), EntryCount) == |ws|
  {
    if ws != [] {
      var prefix := ws[..|ws| - 1];
      var w := ws[|ws| - 1];
      DailyBucketsShape(prefix, cal);
      AddToDayEffect(DailyBuckets(prefix, cal), cal.utcDate(w.startTime), w.volumeLb);
    }
  }

  /** Every entry of `b` holds the volume sum and the workout count of its
      date over `ws`. */
  ghost predicate EntriesMatch(b: seq<DayEntry>, ws: seq<WorkoutRow>, cal: Calendar) {
    forall k :: 0 <= k < |b| ==>
      b[k].volume == DayVolume(ws, cal, b[k].date) && b[k].count == DayCount(ws, cal, b[k].date) && b[k].count >= 1
  }

  lemma DayStep(prefix: seq<WorkoutRow>, w: WorkoutRow, cal: Calendar, d: Date)
    ensures DayVolume(prefix + [w], cal, d)
         == DayVolume(prefix, cal, d) + (if cal.utcDate(w.startTime) == d then w.volumeLb else 0)
    ensures DayCount(prefix + [w], cal, d)
         == DayCount(prefix, cal, d) + (if cal.utcDate(w.startTime) == d then 1 else 0)
  {
    assert (prefix + [w])[..|prefix|] == prefix;
  }

  /** Adding the next workout to a map that matches the workouts so far
      gives a map that matches them with the new one. */
  lemma EntriesMatchStep(b: seq<DayEntry>, prefix: seq<WorkoutRow>, w: WorkoutRow, cal: Calendar)
    requires EntriesMatch(b, prefix, cal) && DistinctDates(b)
    requires cal.utcDate(w.startTime) in EntryDates(b) <==> DayCount(prefix, cal, cal.utcDate(w.startTime)) > 0
    ensures EntriesMatch(AddToDay(b, cal.utcDate(w.startTime), w.volumeLb), prefix + [w], cal)
  {
    var d0 := cal.utcDate(w.startTime);
    match FindDate(b, d0)
    case Some(j) => EntriesMatchGrow(b, prefix, w, cal, j);
    case None =>
      assert d0 !in EntryDates(b);
      EntriesMatchAppend(b, prefix, w, cal);
  }

  lemma EntriesMatchGrow(b: seq<DayEntry>, prefix: seq<WorkoutRow>, w: WorkoutRow, cal: Calendar, j: nat)
    requires EntriesMatch(b, prefix, cal) && DistinctDates(b)
    requires j < |b| && b[j].date == cal.utcDate(w.startTime)
    ensures EntriesMatch(b[j := DayEntry(b[j].date, b[j].volume + w.volumeLb, b[j].count + 1)], prefix + [w], cal)
  {
    var r := b[j := DayEntry(b[j].date, b[j].volume + w.volumeLb, b[j].count + 1)];
    forall k | 0 <= k < |r|
      ensures r[k].volume == DayVolume(prefix + [w], cal, r[k].date)
      ensures r[k].count == DayCount(prefix + [w], cal, r[k].date) && r[k].count >= 1
    {
      DayStep(prefix, w, cal, r[k].date);
    }
  }

  lemma EntriesMatchAppend(b: seq<DayEntry>, prefix: seq<WorkoutRow>, w: WorkoutRow, cal: Calendar)
    requires EntriesMatch(b, prefix, cal)
    requires forall k :: 0 <= k < |b| ==> b[k].date != cal.utcDate(w.startTime)
    requires DayCount(prefix, cal, cal.utcDate(w.startTime)) == 0
    ensures EntriesMatch(b + [DayEntry(cal.utcDate(w.startTime), w.volumeLb, 1)], prefix + [w], cal)
  {
    var d0 := cal.utcDate(w.startTime);
    var r := b + [DayEntry(d0, w.volumeLb, 1)];
    NoWorkoutsNoVolume(prefix, cal, d0);
    forall k | 0 <= k < |r|
      ensures r[k].volume == DayVolume(prefix + [w], cal, r[k].date)
      ensures r[k].count == DayCount(prefix + [w], cal, r[k].date) && r[k].count >= 1
    {
      DayStep(prefix, w, cal, r[k].date);
    }
  }

  /** Each entry of the per-day map holds the sum of the volumes and the
      number of the workouts on its date. */
  lemma {:induction false} DailyBucketsEntries(ws: seq<WorkoutRow>, cal: Calendar)
    ensures EntriesMatch(DailyBuckets(ws, cal), ws, cal)
  {
    if ws != [] {
      var prefix := ws[..|ws| - 1];
      var w := ws[|ws| - 1];
      DailyBucketsShape(prefix, cal);
      DailyBucketsEntries(prefix, cal);
      assert prefix + [w] == ws;
      EntriesMatchStep(DailyBuckets(prefix, cal), prefix, w, cal);
    }
  }

  /** Each entry of the per-day map holds the sum of the volumes and the number
      of the workouts on its date; there is exactly one entry per date that has
      a workout; and the counts add up to the number of workouts visited. */
  lemma DailyBucketsCorrect(ws: seq<WorkoutRow>, cal: Calendar)
    ensures DistinctDates(DailyBuckets(ws, cal))
    ensures forall k :: 0 <= k < |DailyBuckets(ws, cal)| ==>
              var e := DailyBuckets(ws, cal)[k];
              e.volume == DayVolume(ws, cal, e.date) && e.count == DayCount(ws, cal, e.date) && e.count >= 1
    ensures forall d :: d in EntryDates(DailyBuckets(ws, cal)) <==> DayCount(ws, cal, d) > 0
    ensures SumBy(DailyBuckets(ws, cal), EntryCount) == |ws|
  {
    DailyBucketsShape(ws, cal);
    DailyBucketsEntries(ws, cal);
  }

  /** A `daily_total_volume` record before it is numbered and stored. */
  datatype DailyRecord = DailyRecord(date: Date, value: int, previousBest: int, delta: int)

  function DateKey(r: AggregateRow): int { r.date }

  /** The running-maximum walk over the day rows in date order: a day emits a
      record when its volume is positive and strictly above the best so far.
      As in the source, the best is raised before the previous best is read. */
  function Records(days: seq<AggregateRow>, best: int): seq<DailyRecord> {
    if days == [] then []
    else
      var vol := days[0].volumeLb;
      if vol > best && vol > 0 then
        var maxDailyVol := vol;
        var previousBest := maxDailyVol - vol;
        [DailyRecord(days[0].date, vol, previousBest, vol - previousBest)] + Records(days[1..], maxDailyVol)
      else Records(days[1..], best)
  }

  ghost function RowDates(rows: seq<AggregateRow>): set<Date> {
    set r | r in rows :: r.date
  }

  /** Day `i` beats the starting best, every earlier day and zero. */
  ghost predicate IsRecordDay(days: seq<AggregateRow>, i: int, best: int)
    requires 0 <= i < |days|
  {
    && days[i].volumeLb > 0
    && days[i].volumeLb > best
    && forall j :: 0 <= j < i ==> days[j].volumeLb < days[i].volumeLb
  }

  ghost predicate StrictlyByDate(days: seq<AggregateRow>) {
    forall i, j :: 0 <= i < j < |days| ==> days[i].date < days[j].date
  }

  /** Emitted records have positive values above the starting best, strictly
      increasing; the previous best is always 0 and the delta equals the value. */
  lemma {:induction false} RecordsValues(days: seq<AggregateRow>, best: int)
    ensures forall k :: 0 <= k < |Records(days, best)| ==>
              var r := Records(days, best)[k];
              r.value > 0 && r.value > best && r.previousBest == 0 && r.delta == r.value
    ensures forall k, l :: 0 <= k < l < |Records(days, best)| ==>
              Records(days, best)[k].value < Records(days, best)[l].value
    ensures |Records(days, best)| <= |days|
  {
    if days != [] {
      var vol := days[0].volumeLb;
      if vol > best && vol > 0 {
        RecordsValues(days[1..], vol);
      } else {
        RecordsValues(days[1..], best);
      }
    }
  }

  lemma RowDatesCons(days: seq<AggregateRow>)
    requires days != []
    ensures RowDates(days) == {days[0].date} + RowDates(days[1..])
  {
    assert days == [days[0]] + days[1..];
  }

  /** Every record is dated on one of the days. */
  lemma {:induction false} RecordsDates(days: seq<AggregateRow>, best: int)
    ensures RecordDateSet(Records(days, best)) <= RowDates(days)
  {
    if days != [] {
      var vol := days[0].volumeLb;
      var best' := if vol > best && vol > 0 then vol else best;
      RecordsDates(days[1..], best');
      RowDatesCons(days);
      var rest := Records(days[1..], best');
      if vol > best && vol > 0 {
        assert RecordDateSet(Records(days, best)) == {days[0].date} + RecordDateSet(rest) by {
          assert Records(days, best) == [DailyRecord(days[0].date, vol, 0, vol)] + rest;
        }
      }
    }
  }

  /** Over days in strictly ascending date order, records are in strictly
      ascending date order. */
  lemma {:induction false} RecordsAscending(days: seq<AggregateRow>, best: int)
    requires StrictlyByDate(days)
    ensures forall k, l :: 0 <= k < l < |Records(days, best)| ==>
              Records(days, best)[k].date < Records(days, best)[l].date
  {
    if days != [] {
      var vol := days[0].volumeLb;
      var tail := days[1..];
      var best' := if vol > best && vol > 0 then vol else best;
      assert StrictlyByDate(tail);
      RecordsAscending(tail, best');
      if vol > best && vol > 0 {
        var rest := Records(tail, best');
        RecordsDates(tail, best');
        forall l | 0 <= l < |rest| ensures days[0].date < rest[l].date {
          assert rest[l] in rest;
          assert rest[l].date in RowDates(tail);
          var x :| x in tail && x.date == rest[l].date;
          var j :| 0 <= j < |tail| && tail[j] == x;
          assert days[j + 1] == x;
        }
        assert Records(days, best) == [DailyRecord(days[0].date, vol, 0, vol)] + rest;
      }
    }
  }

  /** A day emits a record exactly when it is a record day: its volume is
      positive, above the starting best and strictly above every earlier day. */
  lemma {:induction false} RecordsExactly(days: seq<AggregateRow>, best: int)
    requires StrictlyByDate(days)
    ensures forall i :: 0 <= i < |days| ==>
              (days[i].date in RecordDateSet(Records(days, best)) <==> IsRecordDay(days, i, best))
  {
    if days != [] {
      var vol := days[0].volumeLb;
      var tail := days[1..];
      var emits := vol > best && vol > 0;
      var best' := if emits then vol else best;
      assert StrictlyByDate(tail);
      RecordsExactly(tail, best');
      RecordsDates(tail, best');
      var rest := Records(tail, best');
      var recs := Records(days, best);
      assert RecordDateSet(recs) == (if emits then {days[0].date} else {}) + RecordDateSet(rest) by {
        if emits {
          assert recs == [DailyRecord(days[0].date, vol, 0, vol)] + rest;
        }
      }
      assert days[0].date !in RowDates(tail) by {
        forall x | x in tail ensures x.date != days[0].date {
          var j :| 0 <= j < |tail| && tail[j] == x;
          assert days[j + 1] == x;
        }
      }
      forall i | 0 <= i < |days|
        ensures days[i].date in RecordDateSet(recs) <==> IsRecordDay(days, i, best)
      {
        if i > 0 {
          assert days[i] == tail[i - 1];
          assert days[i].date != days[0].date;
          RecordDayShift(days, i, best);
        }
      }
    }
  }

  /** A later day is a record day against `best` exactly when it is one in
      the tail against the best after the first day. */
  lemma RecordDayShift(days: seq<AggregateRow>, i: int, best: int)
    requires 0 < i < |days|
    ensures var vol := days[0].volumeLb;
            var best' := if vol > best && vol > 0 then vol else best;
            IsRecordDay(days, i, best) <==> IsRecordDay(days[1..], i - 1, best')
  {
    var tail := days[1..];
    var vol := days[0].volumeLb;
    var best' := if vol > best && vol > 0 then vol else best;
    if IsRecordDay(tail, i - 1, best') {
      forall j | 0 <= j < i ensures days[j].volumeLb < days[i].volumeLb {
        if j > 0 { assert days[j] == tail[j - 1]; }
      }
    }
    if IsRecordDay(days, i, best) {
      forall j | 0 <= j < i - 1 ensures tail[j].volumeLb < tail[i - 1].volumeLb {
        assert tail[j] == days[j + 1];
      }
    }
  }

  /** The first day with positive volume always emits a record. */
  lemma FirstPositiveDayEmits(days: seq<AggregateRow>, i: int)
    requires StrictlyByDate(days)
    requires 0 <= i < |days| && days[i].volumeLb > 0
    requires forall j :: 0 <= j < i ==> days[j].volumeLb <= 0
    ensures days[i].date in RecordDateSet(Records(days, 0))
  {
    RecordsExactly(days, 0);
  }

  /** A day whose volume equals that of an earlier day never emits a record. */
  lemma EqualVolumeNeverEmits(days: seq<AggregateRow>, j: int, i: int)
    requires StrictlyByDate(days)
    requires 0 <= j < i < |days| && days[j].volumeLb == days[i].volumeLb
    ensures days[i].date !in RecordDateSet(Records(days, 0))
  {
    RecordsExactly(days, 0);
  }

  // ---------------------------------------------------------------------
  // The tables after a recompute of (user, year)
  // ---------------------------------------------------------------------

  function InYearOf(u: UserId, y: int, cal: Calendar): WorkoutRow -> bool {
    (w: WorkoutRow) => w.userId == u && InYear(cal, w.startTime, y)
  }

  function StartDesc(w: WorkoutRow): int { -w.startTime }

  /** `getWorkouts`: the user's workouts within the local bounds of year `y`,
      newest first. */
  function FetchedWorkouts(ws: seq<WorkoutRow>, u: UserId, y: int, cal: Calendar): (r: seq<WorkoutRow>)
    ensures multiset(r) == multiset(Filter(ws, InYearOf(u, y, cal)))
    ensures forall i, j :: 0 <= i < j < |r| ==> r[i].startTime >= r[j].startTime
  {
    SortBySorted(Filter(ws, InYearOf(u, y, cal)), StartDesc);
    SortBy(Filter(ws, InYearOf(u, y, cal)), StartDesc)
  }

  /** The rows inserted for (u, y), in map insertion order, with `prsCount` 0. */
  function NewRows(u: UserId, y: int, es: seq<DayEntry>): seq<AggregateRow> {
    seq(|es|, k requires 0 <= k < |es| => AggregateRow(u, es[k].date, y, es[k].volume, es[k].count, 0))
  }

  function YearRows(ws: seq<WorkoutRow>, u: UserId, y: int, cal: Calendar): seq<AggregateRow> {
    NewRows(u, y, DailyBuckets(FetchedWorkouts(ws, u, y, cal), cal))
  }

  /** The records of year `y`: the walk over its rows sorted by date. */
  function YearRecords(ws: seq<WorkoutRow>, u: UserId, y: int, cal: Calendar): seq<DailyRecord> {
    Records(SortBy(YearRows(ws, u, y, cal), DateKey), 0)
  }

  /** The `prsCount = 1` update of one user's rows on the record dates; it
      filters on user and date only, not on year. */
  function Mark(r: AggregateRow, u: UserId, dates: set<Date>): AggregateRow {
    if r.userId == u && r.date in dates then r.(prsCount := 1) else r
  }

  function MarkPrs(rows: seq<AggregateRow>, u: UserId, dates: set<Date>): seq<AggregateRow> {
    seq(|rows|, i requires 0 <= i < |rows| => Mark(rows[i], u, dates))
  }

  function IsYear(u: UserId, y: int): AggregateRow -> bool {
    (r: AggregateRow) => r.userId == u && r.year == y
  }

  function NotYear(u: UserId, y: int): AggregateRow -> bool {
    (r: AggregateRow) => !(r.userId == u && r.year == y)
  }

  function IsUser(u: UserId): AggregateRow -> bool {
    (r: AggregateRow) => r.userId == u
  }

  function RecordDateSet(recs: seq<DailyRecord>): set<Date> {
    set r | r in recs :: r.date
  }

  /** `daily_aggregates` after the recompute: the (u, y) rows deleted, the new
      rows appended, and the record dates marked. */
  function RecomputeAggregates(aggs: seq<AggregateRow>, ws: seq<WorkoutRow>, u: UserId, y: int, cal: Calendar)
    : seq<AggregateRow>
  {
    MarkPrs(Filter(aggs, NotYear(u, y)) + YearRows(ws, u, y, cal), u, RecordDateSet(YearRecords(ws, u, y, cal)))
  }

  /** The PR-event rows a recompute deletes: the user's events dated between
      the UTC dates of the local year bounds. */
  function InPrRange(u: UserId, y: int, cal: Calendar): PrEvent -> bool {
    (e: PrEvent) => e.userId == u && cal.utcDate(cal.yearStart(y)) <= e.date <= cal.utcDate(cal.yearEnd(y))
  }

  function OutsidePrRange(u: UserId, y: int, cal: Calendar): PrEvent -> bool {
    (e: PrEvent) => !(e.userId == u && cal.utcDate(cal.yearStart(y)) <= e.date <= cal.utcDate(cal.yearEnd(y)))
  }

  function IsUserEvent(u: UserId): PrEvent -> bool {
    (e: PrEvent) => e.userId == u
  }

  /** The stored form of the records, with serial ids from `firstId`. */
  function NumberRecords(recs: seq<DailyRecord>, u: UserId, firstId: int): seq<PrEvent> {
    seq(|recs|, k requires 0 <= k < |recs| =>
      PrEvent(firstId + k, u, recs[k].date, DailyTotalVolume, None,
              recs[k].value, Some(recs[k].previousBest), Some(recs[k].delta)))
  }

  function RecomputePrEvents(events: seq<PrEvent>, ws: seq<WorkoutRow>, u: UserId, y: int, cal: Calendar, firstId: int)
    : seq<PrEvent>
  {
    Filter(events, OutsidePrRange(u, y, cal)) + NumberRecords(YearRecords(ws, u, y, cal), u, firstId)
  }

  // ---------------------------------------------------------------------
  // Properties of the recompute
  // ---------------------------------------------------------------------

  lemma MarkPrsAppend(a: seq<AggregateRow>, b: seq<AggregateRow>, u: UserId, dates: set<Date>)
    ensures MarkPrs(a + b, u, dates) == MarkPrs(a, u, dates) + MarkPrs(b, u, dates)
  {
  }

  /** A condition that marking does not change commutes with marking. */
  lemma {:induction false} FilterMarkPrs(rows: seq<AggregateRow>, u: UserId, dates: set<Date>, p: AggregateRow -> bool)
    requires forall x :: p(Mark(x, u, dates)) == p(x)
    ensures Filter(MarkPrs(rows, u, dates), p) == MarkPrs(Filter(rows, p), u, dates)
  {
    if rows != [] {
      var n := |rows| - 1;
      assert MarkPrs(rows, u, dates)[..n] == MarkPrs(rows[..n], u, dates);
      FilterMarkPrs(rows[..n], u, dates, p);
      MarkPrsAppend(Filter(rows[..n], p), [rows[n]], u, dates);
    }
  }

  /** The rows rebuilt for (u, y): one per UTC date of the fetched workouts,
      each holding that date's volume sum and workout count, with `prsCount`
      0; the counts add up to the number of workouts fetched. */
  lemma YearRowsCorrect(ws: seq<WorkoutRow>, u: UserId, y: int, cal: Calendar)
    ensures var f := FetchedWorkouts(ws, u, y, cal);
      var rows := YearRows(ws, u, y, cal);
      && (forall k :: 0 <= k < |rows| ==>
            && rows[k].userId == u && rows[k].year == y
            && rows[k].volumeLb == DayVolume(f, cal, rows[k].date)
            && rows[k].workoutsCount == DayCount(f, cal, rows[k].date) >= 1
            && rows[k].prsCount == 0)
      && (forall i, j :: 0 <= i < j < |rows| ==> rows[i].date != rows[j].date)
      && (forall d :: d in RowDates(rows) <==> DayCount(f, cal, d) > 0)
      && SumBy(rows, RowCount) == |Filter(ws, InYearOf(u, y, cal))|
  {
    var f := FetchedWorkouts(ws, u, y, cal);
    var b := DailyBuckets(f, cal);
    var rows := YearRows(ws, u, y, cal);
    DailyBucketsCorrect(f, cal);
    RowDatesOfNewRows(u, y, b);
    SumRowsOfEntries(u, y, b);
    assert |f| == |Filter(ws, InYearOf(u, y, cal))| by {
      assert |multiset(f)| == |multiset(Filter(ws, InYearOf(u, y, cal)))|;
    }
  }

  lemma RowDatesOfNewRows(u: UserId, y: int, b: seq<DayEntry>)
    ensures RowDates(NewRows(u, y, b)) == EntryDates(b)
  {
    var rows := NewRows(u, y, b);
    forall d | d in RowDates(rows) ensures d in EntryDates(b) {
      var r :| r in rows && r.date == d;
      var k :| 0 <= k < |rows| && rows[k] == r;
      assert b[k] in b;
    }
    forall d | d in EntryDates(b) ensures d in RowDates(rows) {
      var e :| e in b && e.date == d;
      var k :| 0 <= k < |b| && b[k] == e;
      assert rows[k] in rows;
    }
  }

  lemma {:induction false} SumRowsOfEntries(u: UserId, y: int, b: seq<DayEntry>)
    ensures SumBy(NewRows(u, y, b), RowCount) == SumBy(b, EntryCount)
  {
    if b != [] {
      var n := |b| - 1;
      assert NewRows(u, y, b)[..n] == NewRows(u, y, b[..n]);
      SumRowsOfEntries(u, y, b[..n]);
    }
  }

  /** After a recompute, the (u, y) rows are exactly the rebuilt rows, with
      `prsCount` 1 on the record dates and 0 elsewhere. */
  lemma RecomputeYearView(aggs: seq<AggregateRow>, ws: seq<WorkoutRow>, u: UserId, y: int, cal: Calendar)
    ensures var dates := RecordDateSet(YearRecords(ws, u, y, cal));
      var view := Filter(RecomputeAggregates(aggs, ws, u, y, cal), IsYear(u, y));
      var rows := YearRows(ws, u, y, cal);
      && view == MarkPrs(rows, u, dates)
      && |view| == |rows|
      && (forall k :: 0 <= k < |view| ==>
            && view[k] == rows[k].(prsCount := view[k].prsCount)
            && view[k].prsCount == (if rows[k].date in dates then 1 else 0))
  {
    var dates := RecordDateSet(YearRecords(ws, u, y, cal));
    var rows := YearRows(ws, u, y, cal);
    var kept := Filter(aggs, NotYear(u, y));
    assert forall k :: 0 <= k < |rows| ==> IsYear(u, y)(rows[k]);
    calc {
      Filter(RecomputeAggregates(aggs, ws, u, y, cal), IsYear(u, y));
      { FilterMarkPrs(kept + rows, u, dates, IsYear(u, y)); }
      MarkPrs(Filter(kept + rows, IsYear(u, y)), u, dates);
      { FilterAppend(kept, rows, IsYear(u, y));
        FilterDisjoint(aggs, NotYear(u, y), IsYear(u, y));
        FilterAll(rows, IsYear(u, y));
        assert [] + rows == rows; }
      MarkPrs(rows, u, dates);
    }
  }

  /** A recompute leaves the rows of every other user exactly as they were. */
  lemma RecomputeOtherUsers(aggs: seq<AggregateRow>, ws: seq<WorkoutRow>, u: UserId, y: int, cal: Calendar, other: UserId)
    requires other != u
    ensures Filter(RecomputeAggregates(aggs, ws, u, y, cal), IsUser(other)) == Filter(aggs, IsUser(other))
  {
    var dates := RecordDateSet(YearRecords(ws, u, y, cal));
    var rows := YearRows(ws, u, y, cal);
    var kept := Filter(aggs, NotYear(u, y));
    assert forall k :: 0 <= k < |rows| ==> rows[k].userId == u && rows[k].year == y;
    FilterMarkPrs(kept + rows, u, dates, IsUser(other));
    FilterAppend(kept, rows, IsUser(other));
    FilterFilter(aggs, NotYear(u, y), IsUser(other));
    FilterNone(rows, IsUser(other));
    var mine := Filter(aggs, IsUser(other));
    FilterMembers(aggs, IsUser(other));
    assert forall k :: 0 <= k < |mine| ==> mine[k] in mine;
    assert MarkPrs(mine, u, dates) == mine;
  }

  /** The user's rows of other years keep every column except `prsCount`,
      which the date-only update may raise to 1. */
  lemma RecomputeOtherYears(aggs: seq<AggregateRow>, ws: seq<WorkoutRow>, u: UserId, y: int, cal: Calendar, other: int)
    requires other != y
    ensures Filter(RecomputeAggregates(aggs, ws, u, y, cal), IsYear(u, other))
         == MarkPrs(Filter(aggs, IsYear(u, other)), u, RecordDateSet(YearRecords(ws, u, y, cal)))
  {
    var dates := RecordDateSet(YearRecords(ws, u, y, cal));
    var rows := YearRows(ws, u, y, cal);
    var kept := Filter(aggs, NotYear(u, y));
    assert forall k :: 0 <= k < |rows| ==> rows[k].userId == u && rows[k].year == y;
    FilterMarkPrs(kept + rows, u, dates, IsYear(u, other));
    FilterAppend(kept, rows, IsYear(u, other));
    FilterFilter(aggs, NotYear(u, y), IsYear(u, other));
    FilterNone(rows, IsYear(u, other));
  }

  /** Recomputing the same year twice over the same workouts gives the same
      aggregate table as recomputing it once. */
  lemma RecomputeAggregatesIdempotent(aggs: seq<AggregateRow>, ws: seq<WorkoutRow>, u: UserId, y: int, cal: Calendar)
    ensures RecomputeAggregates(RecomputeAggregates(aggs, ws, u, y, cal), ws, u, y, cal)
         == RecomputeAggregates(aggs, ws, u, y, cal)
  {
    var dates := RecordDateSet(YearRecords(ws, u, y, cal));
    var rows := YearRows(ws, u, y, cal);
    var kept := Filter(aggs, NotYear(u, y));
    var once := RecomputeAggregates(aggs, ws, u, y, cal);
    assert once == MarkPrs(kept + rows, u, dates);
    RecomputeOutsideYear(aggs, ws, u, y, cal);
    calc {
      RecomputeAggregates(once, ws, u, y, cal);
      MarkPrs(MarkPrs(kept, u, dates) + rows, u, dates);
      { MarkPrsAppend(MarkPrs(kept, u, dates), rows, u, dates); }
      MarkPrs(MarkPrs(kept, u, dates), u, dates) + MarkPrs(rows, u, dates);
      { MarkPrsTwice(kept, u, dates); }
      MarkPrs(kept, u, dates) + MarkPrs(rows, u, dates);
      { MarkPrsAppend(kept, rows, u, dates); }
      once;
    }
  }

  /** Outside (u, y) a recompute changes nothing but the record flags. */
  lemma RecomputeOutsideYear(aggs: seq<AggregateRow>, ws: seq<WorkoutRow>, u: UserId, y: int, cal: Calendar)
    ensures Filter(RecomputeAggregates(aggs, ws, u, y, cal), NotYear(u, y))
         == MarkPrs(Filter(aggs, NotYear(u, y)), u, RecordDateSet(YearRecords(ws, u, y, cal)))
  {
    var dates := RecordDateSet(YearRecords(ws, u, y, cal));
    var rows := YearRows(ws, u, y, cal);
    var kept := Filter(aggs, NotYear(u, y));
    assert forall k :: 0 <= k < |rows| ==> rows[k].userId == u && rows[k].year == y;
    FilterMarkPrs(kept + rows, u, dates, NotYear(u, y));
    FilterAppend(kept, rows, NotYear(u, y));
    FilterFilter(aggs, NotYear(u, y), NotYear(u, y));
    FilterNone(rows, NotYear(u, y));
  }

  lemma MarkPrsTwice(rows: seq<AggregateRow>, u: UserId, dates: set<Date>)
    ensures MarkPrs(MarkPrs(rows, u, dates), u, dates) == MarkPrs(rows, u, dates)
  {
  }

  lemma {:induction false} DayCountWitness(ws: seq<WorkoutRow>, cal: Calendar, d: Date)
    requires DayCount(ws, cal, d) > 0
    ensures exists i :: 0 <= i < |ws| && cal.utcDate(ws[i].startTime) == d
  {
    var n := |ws| - 1;
    if cal.utcDate(ws[n].startTime) != d {
      DayCountWitness(ws[..n], cal, d);
      var i :| 0 <= i < n && cal.utcDate(ws[..n][i].startTime) == d;
      assert ws[i] == ws[..n][i];
    }
  }

  /** With a monotone calendar every record of year `y` is dated within the
      UTC dates of the year's local bounds, i.e. inside the range that the
      recompute deletes. */
  lemma RecordDatesInRange(ws: seq<WorkoutRow>, u: UserId, y: int, cal: Calendar)
    requires MonotoneDates(cal)
    ensures forall r :: r in YearRecords(ws, u, y, cal) ==>
              cal.utcDate(cal.yearStart(y)) <= r.date <= cal.utcDate(cal.yearEnd(y))
  {
    var f := FetchedWorkouts(ws, u, y, cal);
    var rows := YearRows(ws, u, y, cal);
    var sorted := SortBy(rows, DateKey);
    RecordsDates(sorted, 0);
    YearRowsCorrect(ws, u, y, cal);
    FilterMembers(ws, InYearOf(u, y, cal));
    forall r | r in YearRecords(ws, u, y, cal)
      ensures cal.utcDate(cal.yearStart(y)) <= r.date <= cal.utcDate(cal.yearEnd(y))
    {
      assert r.date in RecordDateSet(YearRecords(ws, u, y, cal));
      assert r.date in RowDates(sorted);
      var x :| x in sorted && x.date == r.date;
      assert x in multiset(sorted);
      assert x in rows;
      assert r.date in RowDates(rows);
      DayCountWitness(f, cal, r.date);
      var i :| 0 <= i < |f| && cal.utcDate(f[i].startTime) == r.date;
      assert f[i] in multiset(f);
      assert f[i] in Filter(ws, InYearOf(u, y, cal));
    }
  }

  /** A recompute leaves the PR events of every other user as they were. */
  lemma RecomputePrOtherUsers(events: seq<PrEvent>, ws: seq<WorkoutRow>, u: UserId, y: int, cal: Calendar,
                              firstId: int, other: UserId)
    requires other != u
    ensures Filter(RecomputePrEvents(events, ws, u, y, cal, firstId), IsUserEvent(other))
         == Filter(events, IsUserEvent(other))
  {
    var added := NumberRecords(YearRecords(ws, u, y, cal), u, firstId);
    FilterAppend(Filter(events, OutsidePrRange(u, y, cal)), added, IsUserEvent(other));
    FilterFilter(events, OutsidePrRange(u, y, cal), IsUserEvent(other));
    FilterNone(added, IsUserEvent(other));
  }

  /** With a monotone calendar, after a recompute the user's events inside
      the year's date range are exactly the freshly numbered records. */
  lemma RecomputePrYearView(events: seq<PrEvent>, ws: seq<WorkoutRow>, u: UserId, y: int, cal: Calendar, firstId: int)
    requires MonotoneDates(cal)
    ensures Filter(RecomputePrEvents(events, ws, u, y, cal, firstId), InPrRange(u, y, cal))
         == NumberRecords(YearRecords(ws, u, y, cal), u, firstId)
  {
    var added := NumberRecords(YearRecords(ws, u, y, cal), u, firstId);
    var kept := Filter(events, OutsidePrRange(u, y, cal));
    NumberedInRange(ws, u, y, cal, firstId);
    FilterAppend(kept, added, InPrRange(u, y, cal));
    FilterDisjoint(events, OutsidePrRange(u, y, cal), InPrRange(u, y, cal));
    FilterAll(added, InPrRange(u, y, cal));
    assert Filter(kept + added, InPrRange(u, y, cal)) == [] + added;
  }

  /** The freshly numbered records all fall inside the year's date range. */
  lemma NumberedInRange(ws: seq<WorkoutRow>, u: UserId, y: int, cal: Calendar, firstId: int)
    requires MonotoneDates(cal)
    ensures forall k :: 0 <= k < |NumberRecords(YearRecords(ws, u, y, cal), u, firstId)| ==>
              && InPrRange(u, y, cal)(NumberRecords(YearRecords(ws, u, y, cal), u, firstId)[k])
              && !OutsidePrRange(u, y, cal)(NumberRecords(YearRecords(ws, u, y, cal), u, firstId)[k])
  {
    var recs := YearRecords(ws, u, y, cal);
    RecordDatesInRange(ws, u, y, cal);
    forall k | 0 <= k < |recs|
      ensures InPrRange(u, y, cal)(NumberRecords(recs, u, firstId)[k])
      ensures !OutsidePrRange(u, y, cal)(NumberRecords(recs, u, firstId)[k])
    {
      assert recs[k] in recs;
    }
  }

  /** With a monotone calendar, recomputing twice replaces the first run's
      records instead of adding to them: the result differs from a single run
      only in the serial ids. */
  lemma RecomputePrEventsIdempotent(events: seq<PrEvent>, ws: seq<WorkoutRow>, u: UserId, y: int, cal: Calendar,
                                    firstId: int, secondId: int)
    requires MonotoneDates(cal)
    ensures RecomputePrEvents(RecomputePrEvents(events, ws, u, y, cal, firstId), ws, u, y, cal, secondId)
         == RecomputePrEvents(events, ws, u, y, cal, secondId)
  {
    var added := NumberRecords(YearRecords(ws, u, y, cal), u, firstId);
    NumberedInRange(ws, u, y, cal, firstId);
    FilterAppend(Filter(events, OutsidePrRange(u, y, cal)), added, OutsidePrRange(u, y, cal));
    FilterFilter(events, OutsidePrRange(u, y, cal), OutsidePrRange(u, y, cal));
    FilterNone(added, OutsidePrRange(u, y, cal));
    assert Filter(events, OutsidePrRange(u, y, cal)) + [] == Filter(events, OutsidePrRange(u, y, cal));
  }

  // ---------------------------------------------------------------------
  // Table invariants the recompute keeps
  // ---------------------------------------------------------------------

  /** Every aggregate row counts at least one workout and flags at most one record. */
  ghost predicate RowFlags(aggs: seq<AggregateRow>) {
    forall i :: 0 <= i < |aggs| ==> aggs[i].workoutsCount >= 1 && 0 <= aggs[i].prsCount <= 1
  }

  /** At most one row per (user, year, date). */
  ghost predicate OneRowPerDay(aggs: seq<AggregateRow>) {
    forall i, j :: 0 <= i < j < |aggs| && aggs[i].userId == aggs[j].userId && aggs[i].year == aggs[j].year ==>
      aggs[i].date != aggs[j].date
  }

  function SameDayKey(a: AggregateRow, b: AggregateRow): bool {
    a.userId == b.userId && a.year == b.year ==> a.date != b.date
  }

  /** One step of the record walk at position `j`. */
  lemma RecordsAt(days: seq<AggregateRow>, j: nat, best: int)
    requires j < |days|
    ensures var vol := days[j].volumeLb;
            Records(days[j..], best)
              == if vol > best && vol > 0
                 then [DailyRecord(days[j].date, vol, 0, vol)] + Records(days[j + 1..], vol)
                 else Records(days[j + 1..], best)
  {
    assert days[j..][1..] == days[j + 1..];
  }

  /** One step of the record walk, with the flags set so far: the records
      found plus those still to come stay the full list, and flagging the
      new record's date on top of the earlier flags flags all records. */
  lemma WalkStep(days: seq<AggregateRow>, j: nat, best: int, prs: seq<DailyRecord>,
                 inserted: seq<AggregateRow>, u: UserId)
    requires j < |days|
    requires prs + Records(days[j..], best) == Records(days, 0)
    ensures var d := days[j];
            var rec := DailyRecord(d.date, d.volumeLb, d.volumeLb - d.volumeLb, d.volumeLb - (d.volumeLb - d.volumeLb));
            if d.volumeLb > best && d.volumeLb > 0 then
              && (prs + [rec]) + Records(days[j + 1..], d.volumeLb) == Records(days, 0)
              && MarkPrs(MarkPrs(inserted, u, RecordDateSet(prs)), u, {d.date})
                 == MarkPrs(inserted, u, RecordDateSet(prs + [rec]))
            else prs + Records(days[j + 1..], best) == Records(days, 0)
  {
    var d := days[j];
    var rec := DailyRecord(d.date, d.volumeLb, 0, d.volumeLb);
    RecordsAt(days, j, best);
    if d.volumeLb > best && d.volumeLb > 0 {
      assert (prs + [rec]) + Records(days[j + 1..], d.volumeLb) == prs + Records(days[j..], best);
      MarkPrsAddDate(inserted, u, RecordDateSet(prs), d.date);
      RecordDateSetAppend(prs, rec);
    }
  }

  lemma RecordDateSetAppend(recs: seq<DailyRecord>, r: DailyRecord)
    ensures RecordDateSet(recs + [r]) == RecordDateSet(recs) + {r.date}
  {
    var t := recs + [r];
    assert t[|recs|] == r;
    forall x | x in RecordDateSet(recs) ensures x in RecordDateSet(t) {
      var e :| e in recs && e.date == x;
      var k :| 0 <= k < |recs| && recs[k] == e;
      assert t[k] == e;
    }
  }

  lemma MarkPrsAddDate(rows: seq<AggregateRow>, u: UserId, dates: set<Date>, d: Date)
    ensures MarkPrs(MarkPrs(rows, u, dates), u, {d}) == MarkPrs(rows, u, dates + {d})
  {
  }

  lemma RecomputeKeepsInvariants(aggs: seq<AggregateRow>, ws: seq<WorkoutRow>, u: UserId, y: int, cal: Calendar)
    requires RowFlags(aggs) && OneRowPerDay(aggs)
    ensures RowFlags(RecomputeAggregates(aggs, ws, u, y, cal))
    ensures OneRowPerDay(RecomputeAggregates(aggs, ws, u, y, cal))
  {
    var dates := RecordDateSet(YearRecords(ws, u, y, cal));
    var rows := YearRows(ws, u, y, cal);
    var kept := Filter(aggs, NotYear(u, y));
    YearRowsCorrect(ws, u, y, cal);
    KeptRowsInvariants(aggs, u, y);
    AppendYearInvariants(kept, rows, u, y);
    MarkPrsInvariants(kept + rows, u, dates);
  }

  /** The rows a recompute keeps satisfy the invariants they satisfied before. */
  lemma KeptRowsInvariants(aggs: seq<AggregateRow>, u: UserId, y: int)
    requires RowFlags(aggs) && OneRowPerDay(aggs)
    ensures RowFlags(Filter(aggs, NotYear(u, y))) && OneRowPerDay(Filter(aggs, NotYear(u, y)))
    ensures forall i :: 0 <= i < |Filter(aggs, NotYear(u, y))| ==> NotYear(u, y)(Filter(aggs, NotYear(u, y))[i])
  {
    var kept := Filter(aggs, NotYear(u, y));
    FilterMembers(aggs, NotYear(u, y));
    FilterPairwise(aggs, NotYear(u, y), SameDayKey);
    forall i | 0 <= i < |kept| ensures kept[i].workoutsCount >= 1 && 0 <= kept[i].prsCount <= 1 && NotYear(u, y)(kept[i]) {
      assert kept[i] in kept;
      var m :| 0 <= m < |aggs| && aggs[m] == kept[i];
    }
    forall i, j | 0 <= i < j < |kept| ensures SameDayKey(kept[i], kept[j]) {
    }
  }

  /** Appending rows of (u, y) with distinct dates to rows of other
      (user, year) pairs keeps the invariants. */
  lemma AppendYearInvariants(kept: seq<AggregateRow>, rows: seq<AggregateRow>, u: UserId, y: int)
    requires RowFlags(kept) && OneRowPerDay(kept)
    requires forall i :: 0 <= i < |kept| ==> NotYear(u, y)(kept[i])
    requires forall k :: 0 <= k < |rows| ==>
               rows[k].userId == u && rows[k].year == y && rows[k].workoutsCount >= 1 && rows[k].prsCount == 0
    requires forall i, j :: 0 <= i < j < |rows| ==> rows[i].date != rows[j].date
    ensures RowFlags(kept + rows) && OneRowPerDay(kept + rows)
  {
    var all := kept + rows;
    forall i, j | 0 <= i < j < |all| ensures SameDayKey(all[i], all[j]) {
      if j < |kept| {
      } else if i < |kept| {
        assert NotYear(u, y)(kept[i]);
      }
    }
  }

  /** Setting record flags keeps the invariants. */
  lemma MarkPrsInvariants(rows: seq<AggregateRow>, u: UserId, dates: set<Date>)
    requires RowFlags(rows) && OneRowPerDay(rows)
    ensures RowFlags(MarkPrs(rows, u, dates)) && OneRowPerDay(MarkPrs(rows, u, dates))
  {
  }
}
