/** The two builders of the daily series of an account (`apps/analytics/services.py`). */
module Series {
  import opened Prelude
  import opened Metrics
  import opened Derivation
  import opened Attribution

  /** A row of `AccountInsightsSnapshot` of one account. */
  datatype AccountRow = AccountRow(metric: Metric, day: Day, value: real, captured: int)

  /** A row of `PostInsightsSnapshot`, joined with its post. */
  datatype MetricValue = MetricValue(metric: Metric, row: DailyValue)

  /** The two snapshot tables of one account; post rows are listed in (post, date) order. */
  datatype SeriesRows = SeriesRows(account: seq<AccountRow>, posts: seq<MetricValue>) {
    /** The two `unique_together` constraints, and the order in which post rows are listed. */
    ghost predicate Valid() {
      && (forall i, j | 0 <= i < j < |account| ::
            account[i].metric != account[j].metric || account[i].day != account[j].day)
      && (forall i, j | 0 <= i < j < |posts| && posts[i].metric == posts[j].metric ::
            Before(posts[i].row, posts[j].row))
    }
  }

  /** The first day of a window of `2 * days` days that ends at `end`. */
  function WindowStart(end: Day, days: nat): Day {
    end - (2 * days - 1)
  }

  function AccountQuery(rows: seq<AccountRow>, wanted: set<Metric>, start: Day, end: Day): seq<AccountRow> {
    if rows == [] then []
    else
      var n := |rows| - 1;
      AccountQuery(rows[..n], wanted, start, end)
      + if rows[n].metric in wanted && start <= rows[n].day <= end then [rows[n]] else []
  }

  function PostQuery(rows: seq<MetricValue>, m: Metric, start: Day, end: Day): seq<DailyValue> {
    if rows == [] then []
    else
      var n := |rows| - 1;
      PostQuery(rows[..n], m, start, end)
      + if rows[n].metric == m && start <= rows[n].row.day <= end then [rows[n].row] else []
  }

  // ---------------------------------------------------------------------
  // What the series must be
  // ---------------------------------------------------------------------

  ghost predicate HasAccountRows(store: SeriesRows, m: Metric, start: Day, end: Day) {
    exists r | r in store.account :: r.metric == m && start <= r.day <= end
  }

  /** The account-level value of a day, or the credits of its posts when the window has no account row. */
  ghost function ValueOn(store: SeriesRows, m: Metric, start: Day, end: Day, d: Day): real {
    if HasAccountRows(store, m, start, end) then
      if exists r | r in store.account :: r.metric == m && r.day == d then
        var r :| r in store.account && r.metric == m && r.day == d;
        r.value
      else 0.0
    else if SupportsPostFallback(m) then CreditedOn(PostQuery(store.posts, m, start, end), start, d)
    else 0.0
  }

  ghost predicate IsSeries(s: seq<real>, store: SeriesRows, m: Metric, end: Day, days: nat) {
    && |s| == 2 * days
    && forall i | 0 <= i < 2 * days ::
         s[i] == ValueOn(store, m, WindowStart(end, days), end, WindowStart(end, days) + i)
  }

  /** `c` is the capture time of a row that a bundle of the metrics `ms` reads: an account row, or a post
      row of a metric that falls back to its posts. */
  ghost predicate Read(store: SeriesRows, accountMetrics: set<Metric>, fallback: seq<Metric>, start: Day, end: Day,
                       c: int) {
    || (exists r | r in store.account :: r.metric in accountMetrics && start <= r.day <= end && r.captured == c)
    || (exists m | m in fallback ::
          && !HasAccountRows(store, m, start, end)
          && SupportsPostFallback(m)
          && exists p | p in PostQuery(store.posts, m, start, end) :: p.captured == Some(c))
  }

  /** `latest` is the largest capture time that was read, or `None` if nothing was. */
  ghost predicate IsLatestRead(latest: Option<int>, store: SeriesRows, accountMetrics: set<Metric>,
                               fallback: seq<Metric>, start: Day, end: Day) {
    && (latest.Some? ==> Read(store, accountMetrics, fallback, start, end, latest.value))
    && (forall c | Read(store, accountMetrics, fallback, start, end, c) :: latest.Some? && c <= latest.value)
  }

  // ---------------------------------------------------------------------
  // The builders
  // ---------------------------------------------------------------------

  /** `byDay` is the day-to-value dict of the rows of one metric. */
  ghost predicate Indexes(byDay: map<Day, real>, rows: seq<AccountRow>, m: Metric) {
    && (forall r | r in rows && r.metric == m :: r.day in byDay && byDay[r.day] == r.value)
    && (forall d | d in byDay :: exists r | r in rows :: r.metric == m && r.day == d)
  }

  /** `by_metric[m]` of a `defaultdict(dict)`. */
  function DaysOf(byMetric: map<Metric, map<Day, real>>, m: Metric): map<Day, real> {
    if m in byMetric then byMetric[m] else map[]
  }

  method SeriesFor(store: SeriesRows, m: Metric, end: Day, days: nat) returns (out: seq<real>)
    requires store.Valid()
    ensures IsSeries(out, store, m, end, days)
  {
    var start := WindowStart(end, days);
    var byDay := DaysFor(store, m, start, end);
    out := ListDays(byDay, start, 2 * days);
    SeriesOfTheDays(out, store, {m}, m, end, days, byDay);
  }

  /** The account rows of one metric, or its post-summed days when it has none. */
  method DaysFor(store: SeriesRows, m: Metric, start: Day, end: Day) returns (byDay: map<Day, real>)
    requires store.Valid()
    ensures if HasAccountRows(store, m, start, end)
            then Indexes(byDay, AccountQuery(store.account, {m}, start, end), m)
            else FallbackDays(byDay, store, m, true, start, end)
  {
    byDay := IndexByDay(store, m, start, end);
    EmptyIndex(store, m, start, end, byDay);
    if byDay == map[] && SupportsPostFallback(m) {
      var fallback, _ := Fallback(store, m, start, end);
      byDay := byDay + fallback;
      assert byDay == fallback;
    }
  }

  /** The post-summed days of one metric. */
  method Fallback(store: SeriesRows, m: Metric, start: Day, end: Day)
    returns (daily: map<Day, real>, maxCaptured: Option<int>)
    requires store.Valid() && SupportsPostFallback(m)
    ensures FallbackDays(daily, store, m, true, start, end)
    ensures maxCaptured == LatestCapture(PostQuery(store.posts, m, start, end))
  {
    PostQueryIsOrdered(store.posts, m, start, end);
    daily, maxCaptured := PostSummedSeries(PostQuery(store.posts, m, start, end), start, end);
  }

  lemma Overlay(byDay: map<Day, real>, daily: map<Day, real>, store: SeriesRows, m: Metric, done: bool, start: Day,
                end: Day)
    requires FallbackDays(byDay, store, m, done, start, end) && FallbackDays(daily, store, m, true, start, end)
    ensures FallbackDays(byDay + daily, store, m, true, start, end)
  {
    forall d ensures At(byDay + daily, d) == At(daily, d) {
      assert At(byDay, d) in {0.0, At(daily, d)};
      assert d !in daily ==> At(byDay + daily, d) == At(byDay, d) && At(daily, d) == 0.0;
    }
  }

  /** The list comprehension over the days of the window. */
  method ListDays(byDay: map<Day, real>, start: Day, n: nat) returns (out: seq<real>)
    ensures out == DayList(byDay, start, n)
  {
    out := [];
    for i := 0 to n
      invariant |out| == i && forall k | 0 <= k < i :: out[k] == At(byDay, start + k)
    {
      out := out + [At(byDay, start + i)];
    }
  }

  lemma SeriesFromDays(s: seq<real>, store: SeriesRows, m: Metric, end: Day, days: nat, byDay: map<Day, real>)
    requires |s| == 2 * days && forall k | 0 <= k < 2 * days :: s[k] == At(byDay, WindowStart(end, days) + k)
    requires forall d | WindowStart(end, days) <= d <= end ::
               At(byDay, d) == ValueOn(store, m, WindowStart(end, days), end, d)
    ensures IsSeries(s, store, m, end, days)
  {
    forall i | 0 <= i < 2 * days
      ensures s[i] == ValueOn(store, m, WindowStart(end, days), end, WindowStart(end, days) + i)
    {
      var d := WindowStart(end, days) + i;
      assert WindowStart(end, days) <= d <= end;
    }
  }

  /** `[by_day.get(start + i, 0.0) for i in range(n)]`. */
  function DayList(byDay: map<Day, real>, start: Day, n: nat): (s: seq<real>)
    ensures |s| == n && forall k | 0 <= k < n :: s[k] == At(byDay, start + k)
  {
    seq(n, k requires 0 <= k < n => At(byDay, start + k))
  }

  /** The dict comprehension `{r.date: r.value for r in rows}`. */
  method IndexByDay(store: SeriesRows, m: Metric, start: Day, end: Day) returns (byDay: map<Day, real>)
    requires store.Valid()
    ensures Indexes(byDay, AccountQuery(store.account, {m}, start, end), m)
  {
    var rows := AccountQuery(store.account, {m}, start, end);
    AccountQuerySelects(store.account, {m}, start, end);
    byDay := map[];
    for i := 0 to |rows|
      invariant Indexes(byDay, rows[..i], m)
    {
      assert rows[..i + 1] == rows[..i] + [rows[i]];
      KeysAreUnique(store, rows);
      assert rows[i] in rows;
      IndexGrows(byDay, rows[..i], rows[i], m);
      byDay := byDay[rows[i].day := rows[i].value];
    }
    assert rows[..|rows|] == rows;
  }

  method AccountBundle(store: SeriesRows, platformMetrics: seq<Metric>, end: Day, days: nat)
    returns (seriesMap: map<Metric, seq<real>>, maxCaptured: Option<int>)
    requires store.Valid()
    ensures forall m :: m in seriesMap <==> m in platformMetrics
    ensures forall m | m in seriesMap :: IsSeries(seriesMap[m], store, m, end, days)
    ensures IsLatestRead(maxCaptured, store, (set m | m in platformMetrics), platformMetrics, WindowStart(end, days),
                         end)
  {
    var start := WindowStart(end, days);
    var wanted := set m | m in platformMetrics;
    var byMetric, withData;
    byMetric, withData, maxCaptured := CollectAccountRows(store, wanted, start, end);
    byMetric, maxCaptured := FillFromPosts(store, platformMetrics, start, end, byMetric, withData, maxCaptured);
    seriesMap := map m | m in wanted :: DayList(DaysOf(byMetric, m), start, 2 * days);
    forall m | m in wanted ensures IsSeries(seriesMap[m], store, m, end, days) {
      SeriesOfTheDays(seriesMap[m], store, wanted, m, end, days, DaysOf(byMetric, m));
    }
  }

  lemma {:induction false} SeriesOfTheDays(s: seq<real>, store: SeriesRows, wanted: set<Metric>, m: Metric, end: Day,
                                           days: nat, byDay: map<Day, real>)
    requires store.Valid() && m in wanted && s == DayList(byDay, WindowStart(end, days), 2 * days)
    requires var start := WindowStart(end, days);
             if HasAccountRows(store, m, start, end)
             then Indexes(byDay, AccountQuery(store.account, wanted, start, end), m)
             else FallbackDays(byDay, store, m, true, start, end)
    ensures IsSeries(s, store, m, end, days)
  {
    DaysGiveTheValues(store, wanted, m, WindowStart(end, days), end, byDay);
    SeriesFromDays(s, store, m, end, days, byDay);
  }

  /** The fallback loop over the metrics without account rows. */
  method FillFromPosts(store: SeriesRows, platformMetrics: seq<Metric>, start: Day, end: Day,
                       collected: map<Metric, map<Day, real>>, withData: set<Metric>, captured: Option<int>)
    returns (byMetric: map<Metric, map<Day, real>>, maxCaptured: Option<int>)
    requires store.Valid()
    requires forall m | m in platformMetrics :: m in withData <==> HasAccountRows(store, m, start, end)
    requires forall m | m !in withData :: DaysOf(collected, m) == map[]
    requires IsLatestRead(captured, store, (set m | m in platformMetrics), [], start, end)
    ensures forall m | m in withData :: DaysOf(byMetric, m) == DaysOf(collected, m)
    ensures forall m | m in platformMetrics && m !in withData ::
              FallbackDays(DaysOf(byMetric, m), store, m, true, start, end)
    ensures IsLatestRead(maxCaptured, store, (set m | m in platformMetrics), platformMetrics, start, end)
  {
    ghost var wanted := set m | m in platformMetrics;
    byMetric, maxCaptured := collected, captured;
    for i := 0 to |platformMetrics|
      invariant forall m | m in withData :: DaysOf(byMetric, m) == DaysOf(collected, m)
      invariant forall m | m !in withData ::
                  FallbackDays(DaysOf(byMetric, m), store, m, m in platformMetrics[..i], start, end)
      invariant IsLatestRead(maxCaptured, store, wanted, platformMetrics[..i], start, end)
    {
      var m := platformMetrics[i];
      assert platformMetrics[..i + 1] == platformMetrics[..i] + [m];
      if m !in withData && SupportsPostFallback(m) {
        LatestReadGrows(maxCaptured, store, wanted, platformMetrics[..i], start, end, m);
        byMetric, maxCaptured := FillMetric(store, m, start, end, m in platformMetrics[..i], byMetric, maxCaptured);
      } else {
        LatestReadStays(maxCaptured, store, wanted, platformMetrics[..i], start, end, m);
      }
    }
    assert platformMetrics[..|platformMetrics|] == platformMetrics;
  }

  lemma OnlyOneChanges(collected: map<Metric, map<Day, real>>, m: Metric, days: map<Day, real>)
    ensures DaysOf(collected[m := days], m) == days
    ensures forall other | other != m :: DaysOf(collected[m := days], other) == DaysOf(collected, other)
  {
  }

  /** The turn of one metric. */
  method FillMetric(store: SeriesRows, m: Metric, start: Day, end: Day, ghost done: bool,
                    collected: map<Metric, map<Day, real>>, captured: Option<int>)
    returns (byMetric: map<Metric, map<Day, real>>, maxCaptured: Option<int>)
    requires store.Valid() && SupportsPostFallback(m)
    requires FallbackDays(DaysOf(collected, m), store, m, done, start, end)
    ensures forall other | other != m :: DaysOf(byMetric, other) == DaysOf(collected, other)
    ensures FallbackDays(DaysOf(byMetric, m), store, m, true, start, end)
    ensures maxCaptured == Later(captured, LatestCapture(PostQuery(store.posts, m, start, end)))
  {
    var daily, fallbackCaptured := Fallback(store, m, start, end);
    Overlay(DaysOf(collected, m), daily, store, m, done, start, end);
    OnlyOneChanges(collected, m, DaysOf(collected, m) + daily);
    byMetric, maxCaptured := collected[m := DaysOf(collected, m) + daily], captured;
    if fallbackCaptured.Some? && (maxCaptured.None? || fallbackCaptured.value > maxCaptured.value) {
      maxCaptured := fallbackCaptured;
    }
  }

  lemma LatestReadStays(latest: Option<int>, store: SeriesRows, wanted: set<Metric>, done: seq<Metric>,
                        start: Day, end: Day, m: Metric)
    requires IsLatestRead(latest, store, wanted, done, start, end)
    requires HasAccountRows(store, m, start, end) || !SupportsPostFallback(m)
    ensures IsLatestRead(latest, store, wanted, done + [m], start, end)
  {
    forall c ensures Read(store, wanted, done + [m], start, end, c) <==> Read(store, wanted, done, start, end, c) {
      assert forall q :: q in done + [m] <==> q in done || q == m;
    }
  }

  lemma {:induction false} LatestReadGrows(latest: Option<int>, store: SeriesRows, wanted: set<Metric>,
                                           done: seq<Metric>, start: Day, end: Day, m: Metric)
    requires IsLatestRead(latest, store, wanted, done, start, end)
    requires !HasAccountRows(store, m, start, end) && SupportsPostFallback(m)
    ensures var captured := LatestCapture(PostQuery(store.posts, m, start, end));
            IsLatestRead(Later(latest, captured), store, wanted, done + [m], start, end)
  {
    LatestCaptureIsTheMaximum(PostQuery(store.posts, m, start, end));
    forall c
      ensures Read(store, wanted, done + [m], start, end, c)
              <==> Read(store, wanted, done, start, end, c)
                   || exists p | p in PostQuery(store.posts, m, start, end) :: p.captured == Some(c)
    {
      assert forall q :: q in done + [m] <==> q in done || q == m;
    }
  }

  /** What a metric without account rows holds before and after its turn. */
  ghost predicate FallbackDays(byDay: map<Day, real>, store: SeriesRows, m: Metric, done: bool, start: Day, end: Day) {
    forall d :: At(byDay, d) == if done && SupportsPostFallback(m)
                                then CreditedOn(PostQuery(store.posts, m, start, end), start, d) else 0.0
  }

  /** The bulk fetch: one dict per metric, which metrics have rows, and the latest capture. */
  method CollectAccountRows(store: SeriesRows, wanted: set<Metric>, start: Day, end: Day)
    returns (byMetric: map<Metric, map<Day, real>>, withData: set<Metric>, maxCaptured: Option<int>)
    requires store.Valid()
    ensures forall m :: Indexes(DaysOf(byMetric, m), AccountQuery(store.account, wanted, start, end), m)
    ensures forall m :: m in withData <==> m in wanted && HasAccountRows(store, m, start, end)
    ensures forall m | m !in withData :: DaysOf(byMetric, m) == map[]
    ensures IsLatestRead(maxCaptured, store, wanted, [], start, end)
  {
    var rows := AccountQuery(store.account, wanted, start, end);
    AccountQuerySelects(store.account, wanted, start, end);
    KeysAreUnique(store, rows);
    byMetric, withData, maxCaptured := CollectRows(rows);
    RowsTellTheMetrics(store, wanted, start, end);
    LatestIsTheMaximum(rows);
  }

  method CollectRows(rows: seq<AccountRow>)
    returns (byMetric: map<Metric, map<Day, real>>, withData: set<Metric>, maxCaptured: Option<int>)
    requires forall p, q | p in rows && q in rows && p.metric == q.metric && p.day == q.day :: p == q
    ensures forall m :: Indexes(DaysOf(byMetric, m), rows, m)
    ensures forall m :: m in withData <==> exists r | r in rows :: r.metric == m
    ensures byMetric.Keys <= withData
    ensures maxCaptured == LatestOf(rows)
  {
    byMetric, withData, maxCaptured := map[], {}, None;
    for i := 0 to |rows|
      invariant forall m :: Indexes(DaysOf(byMetric, m), rows[..i], m)
      invariant withData == MetricsOf(rows[..i])
      invariant byMetric.Keys <= withData
      invariant maxCaptured == LatestOf(rows[..i])
    {
      var r := rows[i];
      assert rows[..i + 1] == rows[..i] + [r];
      assert r in rows;
      IndexesGrow(byMetric, rows[..i], r);
      byMetric := byMetric[r.metric := DaysOf(byMetric, r.metric)[r.day := r.value]];
      withData := withData + {r.metric};
      if maxCaptured.None? || r.captured > maxCaptured.value {
        maxCaptured := Some(r.captured);
      }
    }
    assert rows[..|rows|] == rows;
    MetricsOfRows(rows);
  }

  ghost function MetricsOf(rows: seq<AccountRow>): set<Metric> {
    if rows == [] then {} else MetricsOf(rows[..|rows| - 1]) + {rows[|rows| - 1].metric}
  }

  lemma {:induction false} MetricsOfRows(rows: seq<AccountRow>)
    ensures forall m :: m in MetricsOf(rows) <==> exists r | r in rows :: r.metric == m
  {
    if rows != [] {
      var n := |rows| - 1;
      MetricsOfRows(rows[..n]);
      assert rows == rows[..n] + [rows[n]];
    }
  }

  ghost function LatestOf(rows: seq<AccountRow>): Option<int> {
    if rows == [] then None else Later(LatestOf(rows[..|rows| - 1]), Some(rows[|rows| - 1].captured))
  }

  lemma {:induction false} LatestIsTheMaximum(rows: seq<AccountRow>)
    ensures LatestOf(rows).Some? ==> exists r | r in rows :: r.captured == LatestOf(rows).value
    ensures forall r | r in rows :: LatestOf(rows).Some? && r.captured <= LatestOf(rows).value
  {
    if rows != [] {
      var n := |rows| - 1;
      LatestIsTheMaximum(rows[..n]);
      assert rows == rows[..n] + [rows[n]];
    }
  }

  lemma {:induction false} RowsTellTheMetrics(store: SeriesRows, wanted: set<Metric>, start: Day, end: Day)
    ensures var rows := AccountQuery(store.account, wanted, start, end);
            && (forall m ::
                  (exists r | r in rows :: r.metric == m) <==> m in wanted && HasAccountRows(store, m, start, end))
            && (forall c :: (exists r | r in rows :: r.captured == c) <==> Read(store, wanted, [], start, end, c))
  {
    AccountQuerySelects(store.account, wanted, start, end);
  }

  lemma IndexesGrow(byMetric: map<Metric, map<Day, real>>, rows: seq<AccountRow>, r: AccountRow)
    requires forall m :: Indexes(DaysOf(byMetric, m), rows, m)
    requires forall q | q in rows && q.metric == r.metric && q.day == r.day :: q == r
    ensures var grown := byMetric[r.metric := DaysOf(byMetric, r.metric)[r.day := r.value]];
            forall m :: Indexes(DaysOf(grown, m), rows + [r], m)
  {
    var grown := byMetric[r.metric := DaysOf(byMetric, r.metric)[r.day := r.value]];
    forall m ensures Indexes(DaysOf(grown, m), rows + [r], m) {
      IndexGrows(DaysOf(byMetric, m), rows, r, m);
    }
  }

  lemma KeysAreUnique(store: SeriesRows, rows: seq<AccountRow>)
    requires store.Valid() && forall r | r in rows :: r in store.account
    ensures forall p, q | p in rows && q in rows && p.metric == q.metric && p.day == q.day :: p == q
  {
  }

  lemma IndexGrows(byDay: map<Day, real>, rows: seq<AccountRow>, r: AccountRow, m: Metric)
    requires Indexes(byDay, rows, m)
    requires forall q | q in rows && q.metric == r.metric && q.day == r.day :: q == r
    ensures Indexes(if m == r.metric then byDay[r.day := r.value] else byDay, rows + [r], m)
  {
    assert forall q :: q in rows + [r] <==> q in rows || q == r;
  }

  lemma {:induction false} AccountQuerySelects(rows: seq<AccountRow>, wanted: set<Metric>, start: Day, end: Day)
    ensures forall r :: r in AccountQuery(rows, wanted, start, end)
                        <==> r in rows && r.metric in wanted && start <= r.day <= end
  {
    if rows != [] {
      var n := |rows| - 1;
      AccountQuerySelects(rows[..n], wanted, start, end);
      assert rows == rows[..n] + [rows[n]];
    }
  }

  lemma {:induction false} PostQuerySelects(rows: seq<MetricValue>, m: Metric, start: Day, end: Day)
    ensures forall r | r in PostQuery(rows, m, start, end) :: start <= r.day <= end && MetricValue(m, r) in rows
  {
    if rows != [] {
      var n := |rows| - 1;
      PostQuerySelects(rows[..n], m, start, end);
      assert rows == rows[..n] + [rows[n]];
    }
  }

  /** A query keeps the order in which the rows are listed. */
  lemma {:induction false} PostQueryIsOrdered(rows: seq<MetricValue>, m: Metric, start: Day, end: Day)
    requires forall i, j | 0 <= i < j < |rows| && rows[i].metric == rows[j].metric :: Before(rows[i].row, rows[j].row)
    ensures Ordered(PostQuery(rows, m, start, end))
    ensures InWindow(PostQuery(rows, m, start, end), start, end)
  {
    PostQuerySelects(rows, m, start, end);
    if rows != [] {
      var n := |rows| - 1;
      PostQueryIsOrdered(rows[..n], m, start, end);
      PostQuerySelects(rows[..n], m, start, end);
      var before := PostQuery(rows[..n], m, start, end);
      forall i | 0 <= i < |before| && rows[n].metric == m ensures Before(before[i], rows[n].row) {
        assert before[i] in before;
        var k :| 0 <= k < n && rows[k] == MetricValue(m, before[i]);
      }
    }
  }

  lemma {:induction false} EmptyIndex(store: SeriesRows, m: Metric, start: Day, end: Day, byDay: map<Day, real>)
    requires Indexes(byDay, AccountQuery(store.account, {m}, start, end), m)
    ensures byDay == map[] <==> !HasAccountRows(store, m, start, end)
  {
    AccountQuerySelects(store.account, {m}, start, end);
    assert (forall d :: d !in byDay) ==> byDay == map[];
  }

  lemma {:induction false} DaysGiveTheValues(store: SeriesRows, wanted: set<Metric>, m: Metric, start: Day, end: Day,
                                             byDay: map<Day, real>)
    requires store.Valid() && m in wanted
    requires if HasAccountRows(store, m, start, end)
             then Indexes(byDay, AccountQuery(store.account, wanted, start, end), m)
             else FallbackDays(byDay, store, m, true, start, end)
    ensures forall d | start <= d <= end :: At(byDay, d) == ValueOn(store, m, start, end, d)
  {
    if HasAccountRows(store, m, start, end) {
      AccountQuerySelects(store.account, wanted, start, end);
    }
  }

  // ---------------------------------------------------------------------
  // The bundle refines the per-metric builder; totals conserve the credits
  // ---------------------------------------------------------------------

  /** There is one series for a metric: whatever the two builders return is the same list. */
  lemma BuildersAgree(a: seq<real>, b: seq<real>, store: SeriesRows, m: Metric, end: Day, days: nat)
    requires IsSeries(a, store, m, end, days) && IsSeries(b, store, m, end, days)
    ensures a == b
  {
  }

  lemma {:induction false} TotalIsTheSum(values: seq<real>, start: Day, f: Day -> real)
    requires forall i | 0 <= i < |values| :: values[i] == f(start + i)
    ensures Total(values) == Sum(start, start + |values| - 1, f)
  {
    if values != [] {
      TotalIsTheSum(values[..|values| - 1], start, f);
    }
  }

  lemma {:induction false} FallbackTotal(s: seq<real>, store: SeriesRows, m: Metric, end: Day, days: nat)
    requires store.Valid() && IsSeries(s, store, m, end, days)
    requires SupportsPostFallback(m) && !HasAccountRows(store, m, WindowStart(end, days), end)
    ensures var start := WindowStart(end, days);
            Total(s) == EarnedInAll(PostQuery(store.posts, m, start, end), start)
  {
    var start := WindowStart(end, days);
    var rows := PostQuery(store.posts, m, start, end);
    CreditsOfTheDays(s, store, m, end, days);
    PostQueryIsOrdered(store.posts, m, start, end);
    AttributionIsConserved(rows, start, end);
  }

  lemma {:induction false} CreditsOfTheDays(s: seq<real>, store: SeriesRows, m: Metric, end: Day, days: nat)
    requires IsSeries(s, store, m, end, days)
    requires SupportsPostFallback(m) && !HasAccountRows(store, m, WindowStart(end, days), end)
    ensures var start := WindowStart(end, days);
            var rows := PostQuery(store.posts, m, start, end);
            Total(s) == Sum(start, end, d => CreditedOn(rows, start, d))
  {
    var start := WindowStart(end, days);
    var rows := PostQuery(store.posts, m, start, end);
    forall i | 0 <= i < |s| ensures s[i] == CreditedOn(rows, start, start + i) {
      assert s[i] == ValueOn(store, m, start, end, start + i);
    }
    TotalIsTheSum(s, start, d => CreditedOn(rows, start, d));
  }

  /** For a count metric that falls back to its posts, the value of the current period and the value of
      the period before it add up to everything the posts earned in the double window. */
  lemma {:induction false} PeriodsConserveTheCredits(s: seq<real>, store: SeriesRows, m: Metric, end: Day, days: nat)
    requires store.Valid() && IsSeries(s, store, m, end, days)
    requires SupportsPostFallback(m) && KindOf(m) == Count
    requires !HasAccountRows(store, m, WindowStart(end, days), end)
    ensures var start := WindowStart(end, days);
            var previous := Total(Split(s, days).1);
            && Derive(s, days, KindOf(m)).value + previous
               == EarnedInAll(PostQuery(store.posts, m, start, end), start)
            && Derive(s, days, KindOf(m)).delta == Change(Derive(s, days, KindOf(m)).value, previous)
  {
    WindowsPartitionTheSeries(s, days);
    FallbackTotal(s, store, m, end, days);
  }
}
