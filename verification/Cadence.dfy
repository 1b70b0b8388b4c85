/** When metrics are fetched again (`apps/analytics/tasks.py`, `freshness.py`). */
module Cadence {
  import opened Prelude
  import opened Metrics
  import opened Snapshots

  datatype Rung = Rung(maxAge: Option<int>, interval: Option<int>)

  /** `_POST_SYNC_CADENCE`. */
  const LADDER: seq<Rung> := [
    Rung(Some(DAY), Some(HOUR)),
    Rung(Some(7 * DAY), Some(6 * HOUR)),
    Rung(Some(30 * DAY), Some(DAY)),
    Rung(Some(90 * DAY), Some(7 * DAY)),
    Rung(None, None)
  ]

  /** The interval of the first rung above the age. */
  function IntervalOn(rungs: seq<Rung>, age: int): Option<int> {
    if rungs == [] then None
    else if rungs[0].maxAge.None? || age < rungs[0].maxAge.value then rungs[0].interval
    else IntervalOn(rungs[1..], age)
  }

  /** `post_sync_interval`. */
  function PostSyncInterval(age: int): Option<int> {
    IntervalOn(LADDER, age)
  }

  lemma TheLadder(age: int)
    ensures PostSyncInterval(age) ==
              if age < DAY then Some(HOUR)
              else if age < 7 * DAY then Some(6 * HOUR)
              else if age < 30 * DAY then Some(DAY)
              else if age < 90 * DAY then Some(7 * DAY)
              else None
  {
    assert LADDER[3..][1..] == LADDER[4..];
    assert LADDER[2..][1..] == LADDER[3..];
    assert LADDER[1..][1..] == LADDER[2..];
    assert IntervalOn(LADDER[4..], age) == None;
    assert IntervalOn(LADDER[3..], age) == if age < 90 * DAY then Some(7 * DAY) else None;
    assert IntervalOn(LADDER[2..], age) ==
           if age < 30 * DAY then Some(DAY) else IntervalOn(LADDER[3..], age);
    assert IntervalOn(LADDER[1..], age) ==
           if age < 7 * DAY then Some(6 * HOUR) else IntervalOn(LADDER[2..], age);
  }

  /** Older posts are fetched less often, and once they have stopped they stay stopped. */
  lemma LadderDecays(young: int, aged: int)
    requires young <= aged && PostSyncInterval(aged).Some?
    ensures PostSyncInterval(young).Some? && PostSyncInterval(young).value <= PostSyncInterval(aged).value
  {
    TheLadder(young);
    TheLadder(aged);
  }

  datatype Tracked = Tracked(platform: Platform, publishedAt: Option<int>)

  /** Every row that counts towards the cadence is at least one interval old; without such rows the post is due. */
  ghost predicate Due(post: Tracked, rows: Rows, now: int) {
    post.publishedAt.Some?
    && var interval := PostSyncInterval(now - post.publishedAt.value);
    interval.Some?
    && forall k | k in rows && k.metric !in Excluded(post.platform) :: now - rows[k].capturedAt >= interval.value
  }

  /** The newest capture time over the rows outside `excluded`. */
  ghost predicate IsLast(rows: Rows, excluded: set<Metric>, last: Option<int>) {
    && (last.None? <==> forall k | k in rows :: k.metric in excluded)
    && (last.Some? ==> exists k | k in rows && k.metric !in excluded :: rows[k].capturedAt == last.value)
    && (last.Some? ==> forall k | k in rows && k.metric !in excluded :: rows[k].capturedAt <= last.value)
  }

  /** `order_by("-captured_at").first()` after the exclusion. */
  method Latest(rows: Rows, excluded: set<Metric>) returns (last: Option<int>)
    ensures IsLast(rows, excluded, last)
  {
    last := None;
    var rest := rows.Keys;
    while rest != {}
      invariant rest <= rows.Keys
      invariant IsLast(rows - rest, excluded, last)
      decreases rest
    {
      var k :| k in rest;
      ghost var seen := rows - rest;
      rest := rest - {k};
      assert rows - rest == seen[k := rows[k]];
      if k.metric !in excluded && (last.None? || last.value < rows[k].capturedAt) {
        last := Some(rows[k].capturedAt);
        assert (rows - rest)[k].capturedAt == last.value;
      } else if last.Some? {
        ghost var j :| j in seen && j.metric !in excluded && seen[j].capturedAt == last.value;
        assert j in rows - rest && (rows - rest)[j].capturedAt == last.value;
      }
    }
    assert rows - rest == rows;
  }

  /** `_post_cadence_due`. */
  method PostCadenceDue(post: Tracked, rows: Rows, now: int) returns (due: bool)
    ensures due <==> Due(post, rows, now)
  {
    if post.publishedAt.None? {
      return false;
    }
    var cadence := PostSyncInterval(now - post.publishedAt.value);
    if cadence.None? {
      return false;
    }
    var last := Latest(rows, Excluded(post.platform));
    due := last.None? || now - last.value >= cadence.value;
  }

  // ---------------------------------------------------------------------
  // The hourly loop, for one post
  // ---------------------------------------------------------------------

  const DEFAULT_BACKFILL_DAYS := 90

  /** `BACKFILL_DAYS_PER_PLATFORM`. */
  function BackfillDays(p: Platform): int {
    match p
    case Tiktok => 60
    case Bluesky => 0
    case Mastodon => 0
    case LinkedinPersonal => 0
    case _ => DEFAULT_BACKFILL_DAYS
  }

  /** The filter of the loop's query. */
  predicate InWindow(post: Tracked, now: int) {
    && BackfillDays(post.platform) != 0
    && post.publishedAt.Some?
    && post.publishedAt.value >= now - BackfillDays(post.platform) * DAY
  }

  /** `Tick` is the loop selecting the post by its window at `listed` and deciding about it at `now`; if it fetches,
      the provider's `values` are written at `at`. `Write` is any other path that writes rows of the post. */
  datatype Event =
    | Tick(listed: int, now: int, at: int, day: int, values: map<Metric, real>)
    | Write(at: int, day: int, values: map<Metric, real>)
  {
    function Start(): int { if Tick? then listed else at }

    predicate InOrder() { Tick? ==> listed <= now <= at }
  }

  ghost predicate Syncs(post: Tracked, rows: Rows, e: Event) {
    e.Tick? && InWindow(post, e.listed) && Due(post, rows, e.now)
  }

  ghost function After(post: Tracked, rows: Rows, e: Event): Rows {
    if e.Write? || Syncs(post, rows, e) then Written(rows, e.values, e.day, e.at) else rows
  }

  /** One turn of the inner loop of `sync_all_account_analytics`. */
  method TickPost(post: Tracked, table: SnapshotTable, e: Event) returns (synced: bool)
    requires e.Tick?
    modifies table
    ensures synced == Syncs(post, old(table.rows), e)
    ensures table.rows == After(post, old(table.rows), e)
  {
    synced := false;
    if InWindow(post, e.listed) {
      synced := PostCadenceDue(post, table.rows, e.now);
      if synced {
        var _ := table.WriteSnapshot(e.values, e.day, e.at);
      }
    }
  }

  /** The rows after the first `n` events. */
  ghost function RowsAfter(post: Tracked, rows: Rows, events: seq<Event>, n: nat): Rows
    requires n <= |events|
  {
    if n == 0 then rows else After(post, RowsAfter(post, rows, events, n - 1), events[n - 1])
  }

  /** When the loop has fetched the post. */
  ghost function SyncTimes(post: Tracked, rows: Rows, events: seq<Event>, n: nat): seq<int>
    requires n <= |events|
  {
    if n == 0 then []
    else
      var before := SyncTimes(post, rows, events, n - 1);
      if Syncs(post, RowsAfter(post, rows, events, n - 1), events[n - 1]) then before + [events[n - 1].now] else before
  }

  /** The provider returned at least one metric that counts towards the cadence. */
  predicate Records(post: Tracked, e: Event) {
    exists m | m in e.values :: m !in Excluded(post.platform)
  }

  /** When the loop has fetched the post and recorded something that counts. */
  ghost function RecordTimes(post: Tracked, rows: Rows, events: seq<Event>, n: nat): seq<int>
    requires n <= |events|
  {
    if n == 0 then []
    else RecordedBy(post, RecordTimes(post, rows, events, n - 1), RowsAfter(post, rows, events, n - 1), events[n - 1])
  }

  ghost function RecordedBy(post: Tracked, times: seq<int>, rows: Rows, e: Event): seq<int> {
    if Syncs(post, rows, e) && Records(post, e) then times + [e.now] else times
  }

  /** Events happen one after the other. */
  ghost predicate InOrder(events: seq<Event>) {
    && (forall i | 0 <= i < |events| :: events[i].InOrder())
    && (forall i, j | 0 <= i < j < |events| :: events[i].at <= events[j].Start())
  }

  // ---------------------------------------------------------------------
  // The number of fetches in the life of a post
  // ---------------------------------------------------------------------

  const MAX_SYNCS := 79

  /** No post is younger than this, in hours, at its fetch number `i`, counted from 0. */
  function LeastAge(i: nat): nat {
    if i < 24 then i
    else if i < 48 then 29 + 6 * (i - 24)
    else if i < 71 then 191 + 24 * (i - 48)
    else 887 + 168 * (i - 71)
  }

  /** A fetch one interval after an age of at least `LeastAge(i)` happens at an age of at least `LeastAge(i + 1)`. */
  lemma NextAge(i: nat, age: int)
    requires PostSyncInterval(age).Some? && age - PostSyncInterval(age).value >= LeastAge(i) * HOUR
    ensures age >= LeastAge(i + 1) * HOUR && i + 1 < MAX_SYNCS
  {
    TheLadder(age);
  }

  /** What the loop remembers of its last fetch, at `s`. */
  ghost predicate Remembers(post: Tracked, rows: Rows, s: int) {
    exists k | k in rows && k.metric !in Excluded(post.platform) :: rows[k].capturedAt >= s
  }

  lemma WritesRemember(post: Tracked, rows: Rows, values: map<Metric, real>, day: int, at: int, s: int)
    requires s <= at
    requires Remembers(post, rows, s) || exists m | m in values :: m !in Excluded(post.platform)
    ensures Remembers(post, Written(rows, values, day, at), s)
  {
    var after := Written(rows, values, day, at);
    if m :| m in values && m !in Excluded(post.platform) {
      assert Key(m, day) in after && after[Key(m, day)].capturedAt == at;
    } else {
      var k :| k in rows && k.metric !in Excluded(post.platform) && rows[k].capturedAt >= s;
      assert k in after && after[k].capturedAt >= s;
    }
  }

  ghost predicate PublishedByFirstSync(post: Tracked, rows: Rows, events: seq<Event>) {
    forall n: nat | n < |events| && Syncs(post, RowsAfter(post, rows, events, n), events[n]) ::
      post.publishedAt.value <= events[n].now
  }

  /** The last of the recording fetches at `times` found the post old enough, is over, and is remembered. */
  ghost predicate Spaced(post: Tracked, times: seq<int>, rows: Rows, clock: int) {
    times != [] ==>
      var s := times[|times| - 1];
      && post.publishedAt.Some?
      && s - post.publishedAt.value >= LeastAge(|times| - 1) * HOUR
      && |times| <= MAX_SYNCS
      && s <= clock
      && Remembers(post, rows, s)
  }

  /** The event comes after `clock`, and no fetch finds the post unpublished. */
  ghost predicate Follows(post: Tracked, rows: Rows, clock: int, e: Event) {
    clock <= e.Start() && e.InOrder() && (Syncs(post, rows, e) ==> post.publishedAt.value <= e.now)
  }

  lemma SpacedStep(post: Tracked, times: seq<int>, rows: Rows, clock: int, e: Event)
    requires Spaced(post, times, rows, clock) && Follows(post, rows, clock, e)
    ensures Spaced(post, RecordedBy(post, times, rows, e), After(post, rows, e), e.at)
  {
    if Syncs(post, rows, e) && Records(post, e) {
      WritesRemember(post, rows, e.values, e.day, e.at, e.now);
      if times != [] {
        var s := times[|times| - 1];
        var k :| k in rows && k.metric !in Excluded(post.platform) && rows[k].capturedAt >= s;
        NextAge(|times| - 1, e.now - post.publishedAt.value);
      }
    } else if times != [] && (e.Write? || Syncs(post, rows, e)) {
      WritesRemember(post, rows, e.values, e.day, e.at, times[|times| - 1]);
    }
  }

  /** What every event keeps holds after `n` events. */
  lemma {:induction false} RunKeeps(post: Tracked, rows: Rows, events: seq<Event>, n: nat,
                                    holds: (seq<int>, Rows, int) -> bool)
    requires 0 < n <= |events| && InOrder(events) && PublishedByFirstSync(post, rows, events)
    requires holds([], rows, events[0].Start())
    requires forall times, here, clock, e | holds(times, here, clock) && Follows(post, here, clock, e) ::
               holds(RecordedBy(post, times, here, e), After(post, here, e), e.at)
    ensures holds(RecordTimes(post, rows, events, n), RowsAfter(post, rows, events, n), events[n - 1].at)
  {
    var e := events[n - 1];
    assert e.InOrder();
    if n == 1 {
      assert Follows(post, rows, e.Start(), e) by {
        assert RowsAfter(post, rows, events, 0) == rows;
      }
      assert RecordTimes(post, rows, events, 0) == [];
    } else {
      RunKeeps(post, rows, events, n - 1, holds);
      assert Follows(post, RowsAfter(post, rows, events, n - 1), events[n - 2].at, e);
    }
  }

  /** Recording fetch number `i` finds the post at least `LeastAge(i)` hours old, whatever else writes its rows. */
  lemma {:induction false} FetchesAreSpaced(post: Tracked, rows: Rows, events: seq<Event>, n: nat)
    requires 0 < n <= |events| && InOrder(events) && PublishedByFirstSync(post, rows, events)
    ensures Spaced(post, RecordTimes(post, rows, events, n), RowsAfter(post, rows, events, n), events[n - 1].at)
  {
    var holds := (times, here, clock) => Spaced(post, times, here, clock);
    forall times, here, clock, e | holds(times, here, clock) && Follows(post, here, clock, e)
      ensures holds(RecordedBy(post, times, here, e), After(post, here, e), e.at)
    {
      SpacedStep(post, times, here, clock, e);
    }
    RunKeeps(post, rows, events, n, holds);
  }

  /** In its whole life at most 79 fetches of a post record something. */
  lemma {:induction false} AtMost79Records(post: Tracked, rows: Rows, events: seq<Event>)
    requires InOrder(events) && PublishedByFirstSync(post, rows, events)
    ensures |RecordTimes(post, rows, events, |events|)| <= MAX_SYNCS
  {
    if events != [] {
      FetchesAreSpaced(post, rows, events, |events|);
    }
  }

  ghost predicate SyncsRecord(post: Tracked, rows: Rows, events: seq<Event>) {
    forall n: nat | n < |events| && Syncs(post, RowsAfter(post, rows, events, n), events[n]) :: Records(post, events[n])
  }

  lemma {:induction false} AllSyncsRecord(post: Tracked, rows: Rows, events: seq<Event>, n: nat)
    requires n <= |events| && SyncsRecord(post, rows, events)
    ensures RecordTimes(post, rows, events, n) == SyncTimes(post, rows, events, n)
  {
    if n > 0 {
      AllSyncsRecord(post, rows, events, n - 1);
    }
  }

  /** So if every fetch records something, a post is fetched at most 79 times. */
  lemma {:induction false} AtMost79Syncs(post: Tracked, rows: Rows, events: seq<Event>)
    requires InOrder(events) && SyncsRecord(post, rows, events) && PublishedByFirstSync(post, rows, events)
    ensures |SyncTimes(post, rows, events, |events|)| <= MAX_SYNCS
  {
    AllSyncsRecord(post, rows, events, |events|);
    AtMost79Records(post, rows, events);
  }

  // ---------------------------------------------------------------------
  // The bound is met
  // ---------------------------------------------------------------------

  function HourlyAt(t: int, day: int): Event {
    Tick(t, t, t, day, map[Views := 1.0])
  }

  /** A perfectly hourly loop from the moment of publication. */
  function Hourly(publishedAt: int, day: int, hours: nat): seq<Event> {
    seq(hours, h requires 0 <= h < hours =>
      HourlyAt(publishedAt + h * HOUR, day))
  }

  /** How many fetches a perfectly hourly loop has made by the `h`-th hour. */
  function Fetches(h: nat): (n: nat)
    ensures n >= 1
  {
    if h < 24 then h + 1
    else if h < 168 then 24 + (if h < 29 then 0 else (h - 29) / 6 + 1)
    else if h < 720 then 48 + (if h < 191 then 0 else (h - 191) / 24 + 1)
    else 71 + (if h < 887 then 0 else if h < 2160 then (h - 887) / 168 + 1 else 8)
  }

  lemma FetchesStep(h: nat)
    requires 0 < h <= 2160
    ensures LeastAge(Fetches(h - 1) - 1) < h
    ensures Fetches(h) == Fetches(h - 1) + (
      var interval := PostSyncInterval(h * HOUR);
      if interval.Some? && (h - LeastAge(Fetches(h - 1) - 1)) * HOUR >= interval.value then 1 else 0)
    ensures Fetches(h) == Fetches(h - 1) + 1 ==> LeastAge(Fetches(h) - 1) == h
  {
    TheLadder(h * HOUR);
  }

  ghost function OneRow(day: int, at: int): Rows {
    map[Key(Views, day) := SnapshotRow(1.0, at)]
  }

  function LastFetch(publishedAt: int, h: nat): int {
    publishedAt + LeastAge(Fetches(h) - 1) * HOUR
  }

  /** The event `e` leads from `fetches` fetches, the last of them at `last`, to `fetches'` and `last'`. */
  ghost predicate Leads(post: Tracked, day: int, e: Event, fetches: nat, last: int, fetches': nat, last': int) {
    && fetches' == fetches + (if Syncs(post, OneRow(day, last), e) then 1 else 0)
    && After(post, OneRow(day, last), e) == OneRow(day, last')
  }

  /** One tick of the hourly loop, at hour `h`. */
  lemma HourlyTick(post: Tracked, day: int, h: nat)
    requires post.publishedAt.Some? && BackfillDays(post.platform) == 90 && 0 < h < 2160
    ensures var published := post.publishedAt.value;
            Leads(post, day, Hourly(published, day, 2160)[h], Fetches(h - 1), LastFetch(published, h - 1),
                  Fetches(h), LastFetch(published, h))
  {
    FetchesStep(h);
    var last := LastFetch(post.publishedAt.value, h - 1);
    var here, at := OneRow(day, last), post.publishedAt.value + h * HOUR;
    assert Key(Views, day) in here && here[Key(Views, day)].capturedAt == last;
    assert at - last == (h - LeastAge(Fetches(h - 1) - 1)) * HOUR;
    assert at - post.publishedAt.value == h * HOUR;
    assert Hourly(post.publishedAt.value, day, 2160)[h] == HourlyAt(at, day);
    assert Written(here, map[Views := 1.0], day, at) == OneRow(day, at);
  }

  lemma {:induction false} FirstHour(post: Tracked, day: int, events: seq<Event>)
    requires post.publishedAt.Some? && BackfillDays(post.platform) == 90
    requires events != [] && events[0] == HourlyAt(post.publishedAt.value, day)
    ensures |SyncTimes(post, map[], events, 1)| == 1
    ensures RowsAfter(post, map[], events, 1) == OneRow(day, post.publishedAt.value)
  {
    var at := post.publishedAt.value;
    TheLadder(0);
    assert RowsAfter(post, map[], events, 0) == map[] && SyncTimes(post, map[], events, 0) == [];
    assert Syncs(post, map[], events[0]);
    assert Written(map[], map[Views := 1.0], day, at) == OneRow(day, at);
  }

  /** A run that keeps one row, of its last fetch: how many fetches and which is the last after each event. */
  lemma {:induction false} RunLeads(post: Tracked, day: int, events: seq<Event>, n: nat, fetches: nat -> nat,
                                    last: nat -> int)
    requires 0 < n <= |events|
    requires |SyncTimes(post, map[], events, 1)| == fetches(0)
    requires RowsAfter(post, map[], events, 1) == OneRow(day, last(0))
    requires forall h | 0 < h < n :: Leads(post, day, events[h], fetches(h - 1), last(h - 1), fetches(h), last(h))
    ensures |SyncTimes(post, map[], events, n)| == fetches(n - 1)
    ensures RowsAfter(post, map[], events, n) == OneRow(day, last(n - 1))
  {
    if n > 1 {
      RunLeads(post, day, events, n - 1, fetches, last);
      assert Leads(post, day, events[n - 1], fetches(n - 2), last(n - 2), fetches(n - 1), last(n - 1));
    }
  }

  /** 79 fetches do happen: the bound cannot be lowered. */
  lemma {:induction false} SeventyNineIsReached(post: Tracked, day: int)
    requires post.publishedAt.Some? && BackfillDays(post.platform) == 90
    ensures |SyncTimes(post, map[], Hourly(post.publishedAt.value, day, 2160), 2160)| == MAX_SYNCS
  {
    var published := post.publishedAt.value;
    var events := Hourly(published, day, 2160);
    FirstHour(post, day, events);
    forall h: nat | 0 < h < 2160
      ensures Leads(post, day, events[h], Fetches(h - 1), LastFetch(published, h - 1), Fetches(h),
                    LastFetch(published, h))
    {
      HourlyTick(post, day, h);
    }
    RunLeads(post, day, events, 2160, Fetches, (h: nat) => LastFetch(published, h));
  }

  /** A post whose fetches record nothing is fetched at every tick, however many there are. */
  lemma {:induction false} WithoutRecordsThereIsNoBound(post: Tracked, events: seq<Event>, n: nat)
    requires n <= |events| && post.publishedAt.Some?
    requires forall i | 0 <= i < |events| ::
               events[i].Tick? && events[i].values == map[] && InWindow(post, events[i].listed)
               && PostSyncInterval(events[i].now - post.publishedAt.value).Some?
    ensures |SyncTimes(post, map[], events, n)| == n && RowsAfter(post, map[], events, n) == map[]
  {
    if n > 0 {
      WithoutRecordsThereIsNoBound(post, events, n - 1);
    }
  }

  // ---------------------------------------------------------------------
  // The reported time of the next fetch
  // ---------------------------------------------------------------------

  const FIRST_POLL_DELAY := 300

  const NO_ANALYTICS_PLATFORMS: set<Platform> := {LinkedinPersonal, Bluesky, Mastodon}

  datatype Freshness = Freshness(capturedAt: Option<int>, eta: Option<int>)

  /** `post_freshness`, given the newest capture time over all rows. */
  function PostFreshness(post: Tracked, last: Option<int>, now: int): Freshness {
    if post.platform in NO_ANALYTICS_PLATFORMS || post.publishedAt.None? then Freshness(None, None)
    else
      var interval := PostSyncInterval(now - post.publishedAt.value);
      if interval.None? then Freshness(last, None)
      else if last.None? then
        Freshness(None, Some(now + if interval.value < FIRST_POLL_DELAY then interval.value else FIRST_POLL_DELAY))
      else Freshness(last, Some(last.value + interval.value))
  }

  /** While nothing is written, the post does not become due before `eta`. */
  ghost predicate NotDueBefore(post: Tracked, rows: Rows, now: int, eta: int) {
    forall t | now <= t && Due(post, rows, t) :: eta <= t
  }

  const INTERVALS: seq<int> := [HOUR, 6 * HOUR, DAY, 7 * DAY]

  /** From `now` on, the first moment at which the newest counting row is `interval` old. */
  function PassedAt(counted: Option<int>, now: int, interval: int): int {
    if counted.None? || counted.value + interval <= now then now else counted.value + interval
  }

  /** Nothing becomes due before `eta` if and only if each rung, at the moment its own interval has passed, either
      is not the post's rung or lies no earlier than `eta`. */
  lemma NotDueBeforeIff(post: Tracked, rows: Rows, counted: Option<int>, now: int, eta: int)
    requires post.publishedAt.Some? && IsLast(rows, Excluded(post.platform), counted)
    ensures NotDueBefore(post, rows, now, eta) <==>
              forall i | i in INTERVALS ::
                PostSyncInterval(PassedAt(counted, now, i) - post.publishedAt.value) == Some(i) ==>
                  eta <= PassedAt(counted, now, i)
  {
    var p := post.publishedAt.value;
    forall i | i in INTERVALS && PostSyncInterval(PassedAt(counted, now, i) - p) == Some(i)
      ensures Due(post, rows, PassedAt(counted, now, i))
    {
    }
    if t :| now <= t < eta && Due(post, rows, t) {
      var i := FirstDueRung(post, rows, counted, now, t);
    }
  }

  /** Whenever the post is due, some rung's moment has come. */
  lemma FirstDueRung(post: Tracked, rows: Rows, counted: Option<int>, now: int, t: int) returns (i: int)
    requires IsLast(rows, Excluded(post.platform), counted) && now <= t && Due(post, rows, t)
    ensures i in INTERVALS && PassedAt(counted, now, i) <= t
    ensures PostSyncInterval(PassedAt(counted, now, i) - post.publishedAt.value) == Some(i)
  {
    var p := post.publishedAt.value;
    var last := PostSyncInterval(t - p).value;
    assert counted.Some? ==> t - counted.value >= last by {
      if counted.Some? {
        var k :| k in rows && k.metric !in Excluded(post.platform) && rows[k].capturedAt == counted.value;
      }
    }
    TheLadder(t - p);
    TheLadder(now - p);
    LadderDecays(now - p, t - p);
    i := PostSyncInterval(now - p).value;
    LadderDecays(PassedAt(counted, now, i) - p, t - p);
    LadderDecays(now - p, PassedAt(counted, now, i) - p);
    while PostSyncInterval(PassedAt(counted, now, i) - p) != Some(i)
      invariant i in INTERVALS && i <= last
      invariant PostSyncInterval(PassedAt(counted, now, i) - p).Some?
      invariant i <= PostSyncInterval(PassedAt(counted, now, i) - p).value
      decreases last - i
    {
      var next := PostSyncInterval(PassedAt(counted, now, i) - p).value;
      TheLadder(PassedAt(counted, now, i) - p);
      LadderDecays(PassedAt(counted, now, i) - p, t - p);
      LadderDecays(PassedAt(counted, now, next) - p, t - p);
      LadderDecays(PassedAt(counted, now, i) - p, PassedAt(counted, now, next) - p);
      i := next;
    }
  }

  /** On every platform: when the reported time is a lower bound for the next fetch. */
  lemma EtaIsALowerBoundIff(post: Tracked, rows: Rows, last: Option<int>, counted: Option<int>, now: int)
    requires IsLast(rows, {}, last) && IsLast(rows, Excluded(post.platform), counted)
    requires PostFreshness(post, last, now).eta.Some?
    ensures var eta := PostFreshness(post, last, now).eta.value;
            NotDueBefore(post, rows, now, eta) <==>
              forall i | i in INTERVALS ::
                PostSyncInterval(PassedAt(counted, now, i) - post.publishedAt.value) == Some(i) ==>
                  eta <= PassedAt(counted, now, i)
  {
    NotDueBeforeIff(post, rows, counted, now, PostFreshness(post, last, now).eta.value);
  }

  /** Without excluded metrics that is to say that some row exists. */
  lemma EtaWithoutExclusionsIff(post: Tracked, rows: Rows, last: Option<int>, now: int)
    requires IsLast(rows, {}, last) && Excluded(post.platform) == {}
    requires PostFreshness(post, last, now).eta.Some?
    ensures NotDueBefore(post, rows, now, PostFreshness(post, last, now).eta.value) <==> rows != map[]
  {
    var eta := PostFreshness(post, last, now).eta.value;
    TheLadder(now - post.publishedAt.value);
    if rows == map[] {
      assert Due(post, rows, now) && now < eta;
    } else {
      var j :| j in rows;
      var k :| k in rows && rows[k].capturedAt == last.value;
      forall t | now <= t && Due(post, rows, t) ensures eta <= t {
        LadderDecays(now - post.publishedAt.value, t - post.publishedAt.value);
      }
    }
  }

  /** And the post is due at the reported time exactly when it is still on the same rung then. */
  lemma DueAtEtaIff(post: Tracked, rows: Rows, last: Option<int>, now: int)
    requires IsLast(rows, {}, last) && Excluded(post.platform) == {} && last.Some? && last.value <= now
    requires PostFreshness(post, last, now).eta.Some? && now <= PostFreshness(post, last, now).eta.value
    ensures var eta := PostFreshness(post, last, now).eta.value;
            Due(post, rows, eta) <==>
            PostSyncInterval(eta - post.publishedAt.value) == PostSyncInterval(now - post.publishedAt.value)
  {
    var eta := PostFreshness(post, last, now).eta.value;
    var k :| k in rows && rows[k].capturedAt == last.value;
    TheLadder(now - post.publishedAt.value);
    TheLadder(eta - post.publishedAt.value);
  }

  /** A video published at 0 whose views were captured at 1000 and whose watch time at 2000: at 2500 the reported
      time is 5600, but it is due at 4600. */
  lemma AnExcludedRowDelaysTheEta()
    ensures var post, views, watched := Tracked(YouTube, Some(0)), Key(Views, 0), Key(WatchTime, 0);
            var rows := map[views := SnapshotRow(1.0, 1000), watched := SnapshotRow(1.0, 2000)];
            && IsLast(rows, {}, Some(2000)) && !Due(post, rows, 2500)
            && PostFreshness(post, Some(2000), 2500).eta == Some(5600) && Due(post, rows, 4600)
  {
    var views, watched := Key(Views, 0), Key(WatchTime, 0);
    var rows := map[views := SnapshotRow(1.0, 1000), watched := SnapshotRow(1.0, 2000)];
    TheLadder(2500);
    TheLadder(4600);
    assert views in rows && rows[views].capturedAt == 1000;
    assert watched in rows && rows[watched].capturedAt == 2000;
  }
}
