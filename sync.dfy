/** The two request handlers that drive the storage layer: the manual
    refresh, which pages through the remote workout API, stores what it
    got and rebuilds one year, and the dashboard, which picks the year and
    the goal and gathers the four views. The remote API is a parameter:
    `fetch(apiKey, page)` is what the request for that page answers. */
module Sync {
  import opened Wrappers
  import opened Tables
  import opened Volume
  import opened Schema
  import opened Aggregation
  import opened Dashboard
  import opened Storage

  /** The safety cap on the number of pages one refresh requests. */
  const MaxPages: int := 20

  /** One page request: the decoded body, or the status text of a response
      that was not ok. A body whose `page_count` is absent or not numeric
      has None, since `page >= undefined` is false; a `page_count` of
      `null` compares as 0 and is Some(0). */
  datatype FetchResult =
    | Page(workouts: seq<HevyWorkout>, pageCount: Option<int>)
    | HttpError(statusText: string)

  /** `page >= data.page_count`; a missing page count compares false. */
  predicate LastPage(page: int, pageCount: Option<int>) {
    pageCount.Some? && page >= pageCount.value
  }

  /** What the pagination loop ends with: the workouts of every page it
      read and the number of the last page, or the page whose request
      failed and its status text. */
  datatype PageRun =
    | Fetched(workouts: seq<HevyWorkout>, lastPage: int)
    | Aborted(page: int, statusText: string)

  /** Reference definition of the loop, page by page from `page` on. */
  function FetchFrom(fetch: (string, int) -> FetchResult, key: string, page: int): PageRun
    requires 1 <= page <= MaxPages
    decreases MaxPages - page
  {
    match fetch(key, page)
    case HttpError(t) => Aborted(page, t)
    case Page(ws, pc) =>
      if LastPage(page, pc) || page + 1 > MaxPages then Fetched(ws, page)
      else
        match FetchFrom(fetch, key, page + 1)
        case Fetched(rest, n) => Fetched(ws + rest, n)
        case Aborted(q, t) => Aborted(q, t)
  }

  /** The workouts already collected followed by what the rest of the run returns. */
  function Prepend(all: seq<HevyWorkout>, r: PageRun): PageRun {
    match r
    case Fetched(rest, n) => Fetched(all + rest, n)
    case Aborted(q, t) => Aborted(q, t)
  }

  /** Independent reference: the workouts of pages `lo..hi`, in page order. */
  function PagesBetween(fetch: (string, int) -> FetchResult, key: string, lo: int, hi: int): seq<HevyWorkout>
    decreases hi - lo
  {
    if hi < lo then []
    else PagesBetween(fetch, key, lo, hi - 1) + (if fetch(key, hi).Page? then fetch(key, hi).workouts else [])
  }

  /** The refresh loop: request pages from 1 until one says it is the last,
      stopping after page 20, and give up on the first failed request. */
  method FetchAllPages(fetch: (string, int) -> FetchResult, key: string) returns (r: PageRun)
    ensures r == FetchFrom(fetch, key, 1)
  {
    var page := 1;
    var hasMore := true;
    var allWorkouts: seq<HevyWorkout> := [];
    var last := 1;
    while hasMore
      invariant 1 <= page <= MaxPages
      invariant hasMore ==> Prepend(allWorkouts, FetchFrom(fetch, key, page)) == FetchFrom(fetch, key, 1)
      invariant !hasMore ==> Fetched(allWorkouts, last) == FetchFrom(fetch, key, 1)
      decreases MaxPages - page + (if hasMore then 1 else 0)
    {
      var data := fetch(key, page);
      if data.HttpError? {
        return Aborted(page, data.statusText);
      }
      FetchFromStep(fetch, key, page);
      PrependTwice(allWorkouts, data.workouts, if page + 1 <= MaxPages then FetchFrom(fetch, key, page + 1) else Aborted(0, ""));
      allWorkouts := allWorkouts + data.workouts;
      last := page;
      if LastPage(page, data.pageCount) {
        hasMore := false;
      } else {
        page := page + 1;
      }
      if page > MaxPages {
        break;
      }
    }
    r := Fetched(allWorkouts, last);
  }

  lemma FetchFromStep(fetch: (string, int) -> FetchResult, key: string, page: int)
    requires 1 <= page <= MaxPages && fetch(key, page).Page?
    ensures var d := fetch(key, page);
            FetchFrom(fetch, key, page)
            == if LastPage(page, d.pageCount) || page + 1 > MaxPages then Fetched(d.workouts, page)
               else Prepend(d.workouts, FetchFrom(fetch, key, page + 1))
  {
  }

  lemma PrependTwice(a: seq<HevyWorkout>, b: seq<HevyWorkout>, r: PageRun)
    ensures Prepend(a, Prepend(b, r)) == Prepend(a + b, r)
  {
    if r.Fetched? {
      assert a + (b + r.workouts) == (a + b) + r.workouts;
    }
  }

  lemma PagesBetweenCons(fetch: (string, int) -> FetchResult, key: string, lo: int, hi: int)
    requires lo <= hi
    ensures PagesBetween(fetch, key, lo, hi)
         == (if fetch(key, lo).Page? then fetch(key, lo).workouts else []) + PagesBetween(fetch, key, lo + 1, hi)
    decreases hi - lo
  {
    if lo < hi {
      PagesBetweenCons(fetch, key, lo, hi - 1);
    }
  }

  /** A completed run read every page from `page` to its last one, none of
      them failed, none before the last said it was the last, and the last
      one did or hit the cap; its workouts are those pages' in order. */
  lemma {:induction false} FetchedShape(fetch: (string, int) -> FetchResult, key: string, page: int)
    requires 1 <= page <= MaxPages
    requires FetchFrom(fetch, key, page).Fetched?
    ensures var r := FetchFrom(fetch, key, page);
            && page <= r.lastPage <= MaxPages
            && r.workouts == PagesBetween(fetch, key, page, r.lastPage)
            && (forall q :: page <= q <= r.lastPage ==> fetch(key, q).Page?)
            && (forall q :: page <= q < r.lastPage ==> !LastPage(q, fetch(key, q).pageCount))
            && (LastPage(r.lastPage, fetch(key, r.lastPage).pageCount) || r.lastPage == MaxPages)
    decreases MaxPages - page
  {
    var d := fetch(key, page);
    if LastPage(page, d.pageCount) || page + 1 > MaxPages {
      PagesBetweenCons(fetch, key, page, page);
    } else {
      FetchedShape(fetch, key, page + 1);
      var n := FetchFrom(fetch, key, page + 1).lastPage;
      PagesBetweenCons(fetch, key, page, n);
    }
  }

  /** A failed run read the pages before the failing one without any of
      them saying it was the last, and reports the failing page's status. */
  lemma {:induction false} AbortedShape(fetch: (string, int) -> FetchResult, key: string, page: int)
    requires 1 <= page <= MaxPages
    requires FetchFrom(fetch, key, page).Aborted?
    ensures var r := FetchFrom(fetch, key, page);
            && page <= r.page <= MaxPages
            && fetch(key, r.page) == HttpError(r.statusText)
            && (forall q :: page <= q < r.page ==> fetch(key, q).Page? && !LastPage(q, fetch(key, q).pageCount))
    decreases MaxPages - page
  {
    if fetch(key, page).Page? {
      AbortedShape(fetch, key, page + 1);
    }
  }

  /** When every page reports the same `page_count` c, a refresh reads pages
      1 to c, at least one and at most 20. */
  lemma ConstantPageCount(fetch: (string, int) -> FetchResult, key: string, c: int)
    requires forall q :: 1 <= q <= MaxPages ==> fetch(key, q).Page? && fetch(key, q).pageCount == Some(c)
    ensures FetchFrom(fetch, key, 1).Fetched?
    ensures FetchFrom(fetch, key, 1).lastPage == if c < 1 then 1 else if c > MaxPages then MaxPages else c
  {
    if FetchFrom(fetch, key, 1).Aborted? {
      AbortedShape(fetch, key, 1);
      assert false;
    }
    FetchedShape(fetch, key, 1);
  }

  /** Without a `page_count` the loop only stops at the cap. */
  lemma MissingPageCount(fetch: (string, int) -> FetchResult, key: string)
    requires forall q :: 1 <= q <= MaxPages ==> fetch(key, q).Page? && fetch(key, q).pageCount.None?
    ensures FetchFrom(fetch, key, 1).Fetched?
    ensures FetchFrom(fetch, key, 1).lastPage == MaxPages
  {
    if FetchFrom(fetch, key, 1).Aborted? {
      AbortedShape(fetch, key, 1);
      assert false;
    }
    FetchedShape(fetch, key, 1);
  }

  /** The year a refresh or the dashboard works on: the stored choice, or the
      current year when none is stored or it is 0. */
  function TrackedYear(selectedYear: Option<int>, nowYear: int): (y: int)
    ensures selectedYear.Some? && selectedYear.value != 0 ==> y == selectedYear.value
    ensures selectedYear.None? || selectedYear.value == 0 ==> y == nowYear
  {
    if selectedYear.Some? && selectedYear.value != 0 then selectedYear.value else nowYear
  }

  /** The dashboard goal: the stored target, or 3,000,000 lb without one. */
  function DashboardGoal(settings: Option<Connection>): (g: real)
    ensures settings.None? || settings.value.targetWeightLb.None? ==> g == DefaultTargetWeightLb
    ensures settings.Some? && settings.value.targetWeightLb.Some? ==> g == settings.value.targetWeightLb.value
  {
    if settings.Some? && settings.value.targetWeightLb.Some? then settings.value.targetWeightLb.value
    else DefaultTargetWeightLb
  }

  /** The message of the database error a bulk upsert raises when two of its
      rows share an id. */
  const DuplicateRowMessage := "ON CONFLICT DO UPDATE command cannot affect row a second time"

  datatype RefreshOutcome =
    | NoApiKey
    | SyncFailed(message: string)
    | Synced(count: nat)

  predicate HasApiKey(c: Option<Connection>) {
    c.Some? && c.value.apiKey != ""
  }

  /** The refresh handler. Without a stored, non-empty API key it answers
      400 and does nothing. Otherwise it pages through the API; a failed
      request or a failed upsert ends it with nothing further written.
      Then it rebuilds the tracked year and stamps the sync time. */
  method Refresh(store: DatabaseStorage, u: UserId, fetch: (string, int) -> FetchResult, now: int, nowYear: int)
    returns (out: RefreshOutcome)
    requires store.Valid()
    modifies store
    ensures store.Valid()
    ensures out.NoApiKey? <==> !HasApiKey(old(store.GetHevyConnection(u)))
    ensures !out.Synced? ==>
              && store.connections == old(store.connections) && store.workouts == old(store.workouts)
              && store.aggregates == old(store.aggregates) && store.prEvents == old(store.prEvents)
              && store.nextPrId == old(store.nextPrId)
    ensures out.Synced? ==>
              var conn := old(store.GetHevyConnection(u)).value;
              var run := FetchFrom(fetch, conn.apiKey, 1);
              var year := TrackedYear(conn.selectedYear, nowYear);
              && run.Fetched?
              && out.count == |run.workouts|
              && store.workouts == UpsertRows(old(store.workouts), ToRows(u, run.workouts))
              && store.aggregates == RecomputeAggregates(old(store.aggregates), store.workouts, u, year, store.cal)
              && store.prEvents
                 == RecomputePrEvents(old(store.prEvents), store.workouts, u, year, store.cal, old(store.nextPrId))
              && store.nextPrId == old(store.nextPrId) + |YearRecords(store.workouts, u, year, store.cal)|
              && store.connections == old(store.connections)[u := conn.(lastSyncAt := Some(now))]
    ensures HasApiKey(old(store.GetHevyConnection(u))) ==>
              var run := FetchFrom(fetch, old(store.GetHevyConnection(u)).value.apiKey, 1);
              && (run.Aborted? ==> out == SyncFailed("Sync failed: Hevy API Error: " + run.statusText))
              && (run.Fetched? && !DistinctIds(ToRows(u, run.workouts)) ==>
                    out == SyncFailed("Sync failed: " + DuplicateRowMessage))
              && (run.Fetched? && DistinctIds(ToRows(u, run.workouts)) ==> out.Synced?)
  {
    var connection := store.GetHevyConnection(u);
    if connection.None? || connection.value.apiKey == "" {
      return NoApiKey;
    }
    var conn := connection.value;
    var run := FetchAllPages(fetch, conn.apiKey);
    if run.Aborted? {
      return SyncFailed("Sync failed: Hevy API Error: " + run.statusText);
    }
    var ok := store.UpsertWorkouts(u, run.workouts);
    if !ok {
      return SyncFailed("Sync failed: " + DuplicateRowMessage);
    }
    var year := TrackedYear(conn.selectedYear, nowYear);
    store.RecalculateAggregatesAndPrs(u, year);
    var c := store.UpdateHevyConnection(u, ConnectionInput(conn.apiKey, Some(now), None, None));
    assert c == conn.(lastSyncAt := Some(now));
    out := Synced(|run.workouts|);
  }

  datatype DashboardView = DashboardView(
    stats: DashboardStats,
    chartData: seq<ChartPoint>,
    heatmapData: seq<HeatmapDay>,
    recentPrs: seq<PrFeedItem>)

  /** The dashboard handler: the tracked year and the goal from the user's
      settings, then the four views. A goal of 0 makes the completion
      percentage a division by zero and gives None. */
  method GetDashboard(store: DatabaseStorage, u: UserId, nowYear: int, dayOfYear: int)
    returns (v: Option<DashboardView>)
    requires store.Valid()
    ensures v.None? <==> DashboardGoal(store.GetHevyConnection(u)) == 0.0
    ensures v.Some? ==>
              var settings := store.GetHevyConnection(u);
              var year := TrackedYear(if settings.Some? then settings.value.selectedYear else None, nowYear);
              var goal := DashboardGoal(settings);
              && v.value.stats == store.GetDashboardStats(u, year, goal, nowYear, dayOfYear)
              && v.value.stats.goalLb == goal
              && |v.value.chartData| == |v.value.heatmapData| == |Filter(store.aggregates, IsYear(u, year))|
              && (forall i :: 0 <= i < |v.value.chartData| ==>
                    PointOf(v.value.chartData[i], SortBy(Filter(store.aggregates, IsYear(u, year)), DateKey), i,
                            goal / TotalDays, store.cal))
              && v.value.heatmapData == store.GetHeatmapData(u, year)
              && v.value.recentPrs == store.GetRecentPrs(u)
  {
    var settings := store.GetHevyConnection(u);
    var year := TrackedYear(if settings.Some? then settings.value.selectedYear else None, nowYear);
    var goalLb := DashboardGoal(settings);
    if goalLb == 0.0 {
      return None;
    }
    var stats := store.GetDashboardStats(u, year, goalLb, nowYear, dayOfYear);
    var chartData := store.GetChartData(u, year, goalLb);
    var heatmapData := store.GetHeatmapData(u, year);
    var recentPrs := store.GetRecentPrs(u);
    v := Some(DashboardView(stats, chartData, heatmapData, recentPrs));
  }
}
