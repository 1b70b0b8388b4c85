/** The batched YouTube Analytics request, the rows it leads to, and why they do not disturb the cadence. */
module YoutubeBatch {
  import opened Prelude
  import opened Metrics
  import opened Snapshots
  import opened MetricFields
  import opened Cadence

  const VIDEO_FILTER_CHUNK := 500

  datatype Response = Response(headers: seq<string>, rows: seq<seq<Cell>>)

  /** `{name: i for i, name in enumerate(headers)}`: the last column of a name. */
  function ColumnOf(headers: seq<string>, name: string): Option<nat> {
    if headers == [] then None
    else
      var n := |headers| - 1;
      if headers[n] == name then Some(n) else ColumnOf(headers[..n], name)
  }

  /** The cell of a column, or `Null` when the column is missing or the row too short. */
  function CellAt(row: seq<Cell>, column: Option<nat>): Cell {
    if column.Some? && column.value < |row| then row[column.value] else Null
  }

  predicate Falsy(c: Cell) {
    c == Null || c == Number(0.0) || c == Text("")
  }

  /** `int(...)` of a float truncates toward zero. */
  function Truncated(r: real): int {
    if r >= 0.0 then r.Floor else -((-r).Floor)
  }

  /** What one row says about its video, if anything. */
  function Entry(headers: seq<string>, row: seq<Cell>, parse: string -> Option<real>): Option<(Cell, PostMetrics)> {
    var id := CellAt(row, ColumnOf(headers, "video"));
    var watch := AsFloat(CellAt(row, ColumnOf(headers, "estimatedMinutesWatched")), parse);
    var avp := AsFloat(CellAt(row, ColumnOf(headers, "averageViewPercentage")), parse);
    var shares := AsFloat(CellAt(row, ColumnOf(headers, "shares")), parse);
    if Falsy(id) || (watch.None? && avp.None? && shares.None?) then None
    else
      Some((id, PostMetrics(
        map[FShares := if shares.Some? then Truncated(shares.value) else 0],
        AddedTo(AddedTo(map[], WatchTime, watch), AvgViewPct, avp))))
  }

  function AddedTo(extra: map<Metric, Cell>, key: Metric, v: Option<real>): map<Metric, Cell> {
    if v.Some? then extra[key := Number(v.value)] else extra
  }

  /** What the first `n` rows say, in order. */
  function Entries(r: Response, parse: string -> Option<real>, n: nat): seq<(Cell, PostMetrics)>
    requires n <= |r.rows|
  {
    if n == 0 then []
    else
      var e := Entry(r.headers, r.rows[n - 1], parse);
      Entries(r, parse, n - 1) + (if e.Some? then [e.value] else [])
  }

  function Chunk(ids: seq<string>, k: nat): seq<string>
    requires k * VIDEO_FILTER_CHUNK < |ids|
  {
    var lo := k * VIDEO_FILTER_CHUNK;
    ids[lo..if lo + VIDEO_FILTER_CHUNK < |ids| then lo + VIDEO_FILTER_CHUNK else |ids|]
  }

  /** What the answers to the first `k` chunks say. */
  function Answers(ids: seq<string>, respond: seq<string> -> Response, parse: string -> Option<real>, k: nat):
    seq<(Cell, PostMetrics)>
    requires k == 0 || (k - 1) * VIDEO_FILTER_CHUNK < |ids|
  {
    if k == 0 then []
    else
      var r := respond(Chunk(ids, k - 1));
      Answers(ids, respond, parse, k - 1) + Entries(r, parse, |r.rows|)
  }

  function Chunks(ids: seq<string>): nat {
    (|ids| + VIDEO_FILTER_CHUNK - 1) / VIDEO_FILTER_CHUNK
  }

  /** A dictionary filled from `entries` in order: every video that is mentioned, with its last entry. */
  ghost predicate LastWins(entries: seq<(Cell, PostMetrics)>, result: map<Cell, PostMetrics>) {
    && (forall id :: id in result <==> exists i | 0 <= i < |entries| :: entries[i].0 == id)
    && (forall i | 0 <= i < |entries| && (forall j | i < j < |entries| :: entries[j].0 != entries[i].0) ::
          result[entries[i].0] == entries[i].1)
  }

  lemma OneMore(entries: seq<(Cell, PostMetrics)>, result: map<Cell, PostMetrics>, e: (Cell, PostMetrics))
    requires LastWins(entries, result)
    ensures LastWins(entries + [e], result[e.0 := e.1])
  {
    var more, next := entries + [e], result[e.0 := e.1];
    forall id | id in next ensures exists i | 0 <= i < |more| :: more[i].0 == id {
      if id == e.0 {
        assert more[|entries|].0 == id;
      } else {
        var i :| 0 <= i < |entries| && entries[i].0 == id;
        assert more[i].0 == id;
      }
    }
    forall i | 0 <= i < |more| && forall j | i < j < |more| :: more[j].0 != more[i].0
      ensures next[more[i].0] == more[i].1
    {
      if i < |entries| {
        assert more[|entries|].0 != more[i].0;
        assert forall j | i < j < |entries| :: more[j] == entries[j];
      }
    }
  }

  /** `get_post_analytics` of `providers/youtube.py`; `respond` is what the service answers to a chunk of ids. */
  method GetPostAnalytics(ids: seq<string>, respond: seq<string> -> Response, parse: string -> Option<real>)
    returns (result: map<Cell, PostMetrics>)
    ensures LastWins(Answers(ids, respond, parse, Chunks(ids)), result)
  {
    result := map[];
    var offset := 0;
    ghost var k := 0;
    while offset < |ids|
      invariant offset == k * VIDEO_FILTER_CHUNK && k <= Chunks(ids)
      invariant LastWins(Answers(ids, respond, parse, k), result)
      decreases |ids| - offset
    {
      ChunkCount(ids, k);
      result := AddChunk(ids, respond, parse, offset, k, result);
      offset, k := offset + VIDEO_FILTER_CHUNK, k + 1;
    }
    ChunkCount(ids, k);
    assert k == Chunks(ids);
  }

  lemma ChunkCount(ids: seq<string>, k: nat)
    ensures k * VIDEO_FILTER_CHUNK < |ids| <==> k < Chunks(ids)
  {
  }

  lemma NextAnswer(ids: seq<string>, respond: seq<string> -> Response, parse: string -> Option<real>, k: nat, end: nat)
    requires k * VIDEO_FILTER_CHUNK < |ids|
    requires end == if (k + 1) * VIDEO_FILTER_CHUNK < |ids| then (k + 1) * VIDEO_FILTER_CHUNK else |ids|
    ensures var r := respond(ids[k * VIDEO_FILTER_CHUNK..end]);
            Answers(ids, respond, parse, k + 1) == Answers(ids, respond, parse, k) + Entries(r, parse, |r.rows|)
  {
    assert Chunk(ids, k) == ids[k * VIDEO_FILTER_CHUNK..end];
  }

  /** One chunk is asked for and its answer added. */
  method AddChunk(ids: seq<string>, respond: seq<string> -> Response, parse: string -> Option<real>, offset: nat,
                  ghost k: nat, results: map<Cell, PostMetrics>) returns (result: map<Cell, PostMetrics>)
    requires offset == k * VIDEO_FILTER_CHUNK && offset < |ids|
    requires LastWins(Answers(ids, respond, parse, k), results)
    ensures LastWins(Answers(ids, respond, parse, k + 1), result)
  {
    var end := if offset + VIDEO_FILTER_CHUNK < |ids| then offset + VIDEO_FILTER_CHUNK else |ids|;
    NextAnswer(ids, respond, parse, k, end);
    result := AddResponse(respond(ids[offset..end]), parse, Answers(ids, respond, parse, k), results);
  }

  /** The loop over the rows of one answer. */
  method AddResponse(r: Response, parse: string -> Option<real>, ghost before: seq<(Cell, PostMetrics)>,
                     results: map<Cell, PostMetrics>) returns (result: map<Cell, PostMetrics>)
    requires LastWins(before, results)
    ensures LastWins(before + Entries(r, parse, |r.rows|), result)
  {
    result := results;
    var videoIdx := ColumnOf(r.headers, "video");
    if videoIdx.None? {
      NoEntries(r, parse, |r.rows|);
      assert before + [] == before;
      return;
    }
    var watchIdx := ColumnOf(r.headers, "estimatedMinutesWatched");
    var avpIdx := ColumnOf(r.headers, "averageViewPercentage");
    var sharesIdx := ColumnOf(r.headers, "shares");
    assert before + Entries(r, parse, 0) == before;
    for i := 0 to |r.rows|
      invariant LastWins(before + Entries(r, parse, i), result)
    {
      ghost var entries := before + Entries(r, parse, i);
      var row := r.rows[i];
      var entry := None;
      if videoIdx.value < |row| && !Falsy(row[videoIdx.value]) {
        entry := ReadRow(row, row[videoIdx.value], watchIdx, avpIdx, sharesIdx, parse);
      }
      assert entry == Entry(r.headers, row, parse);
      if entry.Some? {
        OneMore(entries, result, entry.value);
        assert entries + [entry.value] == before + Entries(r, parse, i + 1);
        result := result[entry.value.0 := entry.value.1];
      } else {
        assert entries == before + Entries(r, parse, i + 1);
      }
    }
  }

  /** One row: fill `extra` and the shares from the columns that are there. */
  method ReadRow(row: seq<Cell>, id: Cell, watchIdx: Option<nat>, avpIdx: Option<nat>, sharesIdx: Option<nat>,
                 parse: string -> Option<real>) returns (entry: Option<(Cell, PostMetrics)>)
    ensures var watch := AsFloat(CellAt(row, watchIdx), parse);
            var avp := AsFloat(CellAt(row, avpIdx), parse);
            var shares := AsFloat(CellAt(row, sharesIdx), parse);
            && (entry.None? <==> watch.None? && avp.None? && shares.None?)
            && (entry.Some? ==> entry.value.0 == id)
            && (entry.Some? ==>
                  entry.value.1 == PostMetrics(
                    map[FShares := if shares.Some? then Truncated(shares.value) else 0],
                    AddedTo(AddedTo(map[], WatchTime, watch), AvgViewPct, avp)))
  {
    var extra: map<Metric, Cell> := map[];
    var columns := [(WatchTime, watchIdx), (AvgViewPct, avpIdx)];
    for i := 0 to 2
      invariant i == 0 ==> extra == map[]
      invariant i == 1 ==> extra == AddedTo(map[], WatchTime, AsFloat(CellAt(row, watchIdx), parse))
      invariant i == 2 ==> extra == AddedTo(AddedTo(map[], WatchTime, AsFloat(CellAt(row, watchIdx), parse)),
                                            AvgViewPct, AsFloat(CellAt(row, avpIdx), parse))
    {
      var (key, column) := columns[i];
      if column.None? || column.value >= |row| || row[column.value] == Null {
        continue;
      }
      var v := AsFloat(row[column.value], parse);
      if v.Some? {
        extra := extra[key := Number(v.value)];
      }
    }
    var shares := None;
    if sharesIdx.Some? && sharesIdx.value < |row| && row[sharesIdx.value] != Null {
      var v := AsFloat(row[sharesIdx.value], parse);
      if v.Some? {
        shares := Some(Truncated(v.value));
      }
    }
    assert AsFloat(CellAt(row, watchIdx), parse).Some? ==> WatchTime in extra;
    assert AsFloat(CellAt(row, avpIdx), parse).Some? ==> AvgViewPct in extra;
    if extra != map[] || shares.Some? {
      entry := Some((id, PostMetrics(map[FShares := if shares.Some? then shares.value else 0], extra)));
    } else {
      entry := None;
    }
  }

  lemma {:induction false} NoEntries(r: Response, parse: string -> Option<real>, n: nat)
    requires n <= |r.rows| && ColumnOf(r.headers, "video").None?
    ensures Entries(r, parse, n) == []
  {
    if n > 0 {
      NoEntries(r, parse, n - 1);
    }
  }

  // ---------------------------------------------------------------------
  // What the batch can write
  // ---------------------------------------------------------------------

  /** Only the shares field and two extras are ever set. */
  ghost predicate IsBatchMetrics(metrics: PostMetrics) {
    metrics.fields.Keys <= {FShares} && metrics.extra.Keys <= {WatchTime, AvgViewPct}
  }

  lemma {:induction false} EntriesAreBatchMetrics(r: Response, parse: string -> Option<real>, n: nat)
    requires n <= |r.rows|
    ensures forall i | 0 <= i < |Entries(r, parse, n)| :: IsBatchMetrics(Entries(r, parse, n)[i].1)
  {
    if n > 0 {
      EntriesAreBatchMetrics(r, parse, n - 1);
    }
  }

  lemma {:induction false} AnswersAreBatchMetrics(ids: seq<string>, respond: seq<string> -> Response,
                                                  parse: string -> Option<real>, k: nat)
    requires k == 0 || (k - 1) * VIDEO_FILTER_CHUNK < |ids|
    ensures forall i | 0 <= i < |Answers(ids, respond, parse, k)| ::
              IsBatchMetrics(Answers(ids, respond, parse, k)[i].1)
  {
    if k > 0 {
      var r := respond(Chunk(ids, k - 1));
      AnswersAreBatchMetrics(ids, respond, parse, k - 1);
      EntriesAreBatchMetrics(r, parse, |r.rows|);
    }
  }

  lemma LastEntry(entries: seq<(Cell, PostMetrics)>, id: Cell) returns (i: nat)
    requires exists j | 0 <= j < |entries| :: entries[j].0 == id
    ensures i < |entries| && entries[i].0 == id && forall j | i < j < |entries| :: entries[j].0 != id
    decreases |entries|
  {
    var n := |entries| - 1;
    if entries[n].0 == id {
      i := n;
    } else {
      i := LastEntry(entries[..n], id);
    }
  }

  /** Everything the batch returns keeps to the shares field and the two extras. */
  lemma {:induction false} BatchSetsOnlyItsFields(ids: seq<string>, respond: seq<string> -> Response,
                                                  parse: string -> Option<real>,
                               result: map<Cell, PostMetrics>, id: Cell)
    requires LastWins(Answers(ids, respond, parse, Chunks(ids)), result) && id in result
    ensures IsBatchMetrics(result[id])
  {
    var entries := Answers(ids, respond, parse, Chunks(ids));
    AnswersAreBatchMetrics(ids, respond, parse, Chunks(ids));
    var i := LastEntry(entries, id);
  }

  /** `values` is `metrics` flattened for YouTube. */
  ghost predicate IsFlattened(metrics: PostMetrics, parse: string -> Option<real>, values: map<Metric, real>) {
    forall m :: Lookup(values, m) == ValueOf(metrics, YouTube, m, parse)
  }

  /** So the snapshot values made of it belong to metrics that the cadence ignores. */
  lemma BatchValuesAreExcluded(metrics: PostMetrics, parse: string -> Option<real>, values: map<Metric, real>)
    requires IsBatchMetrics(metrics) && IsFlattened(metrics, parse, values)
    ensures values.Keys <= Excluded(YouTube)
  {
    forall m | m in values ensures m in Excluded(YouTube) {
      assert Lookup(values, m).Some?;
      if m != Shares {
        NoFields(metrics, YouTube, m, |BASE_MAP|);
      }
    }
  }

  /** The rows agree wherever the cadence looks. */
  ghost predicate SameForCadence(p: Platform, a: Rows, b: Rows) {
    forall k: Key | k.metric !in Excluded(p) :: (k in a <==> k in b) && (k in a ==> a[k] == b[k])
  }

  ghost predicate IsBatchWrite(p: Platform, e: Event) {
    e.Write? && e.values.Keys <= Excluded(p)
  }

  // ---------------------------------------------------------------------
  // The sync path
  // ---------------------------------------------------------------------

  /** The rows `before` with what the batch says about their video. */
  ghost predicate IsBatchWritten(perVideo: map<Cell, PostMetrics>, id: Cell, parse: string -> Option<real>, day: int,
                                 at: int,
                                 before: Rows, after: Rows) {
    if id in perVideo then
      exists values | IsFlattened(perVideo[id], parse, values) :: after == Written(before, values, day, at)
    else after == before
  }

  /** The rows of every post that was found. */
  ghost function RowsOf(posts: map<string, SnapshotTable>): map<string, Rows>
    reads posts.Values
  {
    map pid | pid in posts :: posts[pid].rows
  }

  /** The rows `now` are those of `was` with what the batch says about all videos but the `rest`. */
  ghost predicate AreBatchWritten(perVideo: map<Cell, PostMetrics>, rest: set<Cell>, parse: string -> Option<real>,
                                  day: int, at: int, was: map<string, Rows>, now: map<string, Rows>) {
    && now.Keys == was.Keys
    && forall pid | pid in was ::
         if Text(pid) in rest then now[pid] == was[pid]
         else IsBatchWritten(perVideo, Text(pid), parse, day, at, was[pid], now[pid])
  }

  /** `_sync_youtube_post_analytics` of `apps/analytics/tasks.py`, from the ids on; `posts` are the posts found by
      platform id. Every write is one that the cadence ignores. */
  method SyncYoutubePostAnalytics(ids: seq<string>, posts: map<string, SnapshotTable>, respond: seq<string> -> Response,
                                  parse: string -> Option<real>, day: int, at: int)
    returns (perVideo: map<Cell, PostMetrics>)
    requires forall a, b | a in posts && b in posts && posts[a] == posts[b] :: a == b
    modifies posts.Values
    ensures LastWins(Answers(ids, respond, parse, Chunks(ids)), perVideo)
    ensures AreBatchWritten(perVideo, {}, parse, day, at, old(RowsOf(posts)), RowsOf(posts))
  {
    perVideo := GetPostAnalytics(ids, respond, parse);
    WriteBatch(posts, perVideo, parse, day, at);
  }

  /** The loop over the videos. */
  method WriteBatch(posts: map<string, SnapshotTable>, perVideo: map<Cell, PostMetrics>, parse: string -> Option<real>,
                    day: int, at: int)
    requires forall a, b | a in posts && b in posts && posts[a] == posts[b] :: a == b
    modifies posts.Values
    ensures AreBatchWritten(perVideo, {}, parse, day, at, old(RowsOf(posts)), RowsOf(posts))
  {
    ghost var was := RowsOf(posts);
    var rest := perVideo.Keys;
    while rest != {}
      invariant rest <= perVideo.Keys
      invariant AreBatchWritten(perVideo, rest, parse, day, at, was, RowsOf(posts))
      decreases rest
    {
      var id :| id in rest;
      rest := rest - {id};
      if id.Text? && id.s in posts {
        WriteBatchRow(posts, id.s, perVideo, parse, day, at);
      }
    }
  }

  method WriteBatchRow(posts: map<string, SnapshotTable>, pid: string, perVideo: map<Cell, PostMetrics>,
                       parse: string -> Option<real>, day: int, at: int)
    requires pid in posts && Text(pid) in perVideo
    requires forall a, b | a in posts && b in posts && posts[a] == posts[b] :: a == b
    modifies posts[pid]
    ensures RowsOf(posts) == old(RowsOf(posts))[pid := posts[pid].rows]
    ensures IsBatchWritten(perVideo, Text(pid), parse, day, at, old(posts[pid].rows), posts[pid].rows)
  {
    ghost var was := RowsOf(posts);
    WriteRow(posts[pid], perVideo[Text(pid)], parse, day, at);
    assert forall other | other in posts && other != pid :: posts[other].rows == was[other];
    assert RowsOf(posts) == was[pid := posts[pid].rows];
  }

  method WriteRow(row: SnapshotTable, metrics: PostMetrics, parse: string -> Option<real>, day: int, at: int)
    modifies row
    ensures exists values | IsFlattened(metrics, parse, values) :: row.rows == Written(old(row.rows), values, day, at)
  {
    var values := PostMetricsToDict(metrics, YouTube, parse);
    assert IsFlattened(metrics, parse, values);
    var _ := row.WriteSnapshot(values, day, at);
  }

  /** For the cadence such a write is a batch write. */
  lemma {:induction false} BatchWritesAreInvisible(ids: seq<string>, respond: seq<string> -> Response,
                                                   parse: string -> Option<real>,
                                perVideo: map<Cell, PostMetrics>, id: Cell, day: int, at: int, before: Rows,
                                after: Rows)
    requires LastWins(Answers(ids, respond, parse, Chunks(ids)), perVideo)
    requires IsBatchWritten(perVideo, id, parse, day, at, before, after)
    ensures after == before
            || exists values ::
                 IsBatchWrite(YouTube, Write(at, day, values)) && after == Written(before, values, day, at)
    ensures SameForCadence(YouTube, after, before)
  {
    if id in perVideo {
      var values :| IsFlattened(perVideo[id], parse, values) && after == Written(before, values, day, at);
      BatchSetsOnlyItsFields(ids, respond, parse, perVideo, id);
      BatchValuesAreExcluded(perVideo[id], parse, values);
      assert IsBatchWrite(YouTube, Write(at, day, values));
    }
  }

  // ---------------------------------------------------------------------
  // Non-interference
  // ---------------------------------------------------------------------

  lemma SameDecision(post: Tracked, a: Rows, b: Rows, e: Event)
    requires SameForCadence(post.platform, a, b)
    ensures Syncs(post, a, e) <==> Syncs(post, b, e)
    ensures SameForCadence(post.platform, After(post, a, e), After(post, b, e))
  {
    if e.Tick? && post.publishedAt.Some? && PostSyncInterval(e.now - post.publishedAt.value).Some? {
      var c := PostSyncInterval(e.now - post.publishedAt.value).value;
      assert (forall k | k in a && k.metric !in Excluded(post.platform) :: e.now - a[k].capturedAt >= c)
        <==> (forall k | k in b && k.metric !in Excluded(post.platform) :: e.now - b[k].capturedAt >= c);
    }
  }

  lemma BatchIsInvisible(post: Tracked, rows: Rows, e: Event)
    requires IsBatchWrite(post.platform, e)
    ensures SameForCadence(post.platform, After(post, rows, e), rows)
  {
  }

  /** The first `n` events without the batch writes. */
  ghost function WithoutBatches(p: Platform, events: seq<Event>, n: nat): seq<Event>
    requires n <= |events|
  {
    if n == 0 then []
    else
      var rest := WithoutBatches(p, events, n - 1);
      if IsBatchWrite(p, events[n - 1]) then rest else rest + [events[n - 1]]
  }

  lemma {:induction false} PrefixRuns(post: Tracked, rows: Rows, xs: seq<Event>, e: Event, n: nat)
    requires n <= |xs|
    ensures RowsAfter(post, rows, xs + [e], n) == RowsAfter(post, rows, xs, n)
    ensures SyncTimes(post, rows, xs + [e], n) == SyncTimes(post, rows, xs, n)
  {
    if n > 0 {
      PrefixRuns(post, rows, xs, e, n - 1);
    }
  }

  /** One more event that is no batch write, for the rows `a` of the whole run and for the run `kept`. */
  lemma {:induction false} KeptStep(post: Tracked, rows: Rows, a: Rows, kept: seq<Event>, e: Event)
    requires SameForCadence(post.platform, a, RowsAfter(post, rows, kept, |kept|))
    ensures var more := kept + [e];
            && SameForCadence(post.platform, After(post, a, e), RowsAfter(post, rows, more, |more|))
            && SyncTimes(post, rows, more, |more|) ==
               SyncTimes(post, rows, kept, |kept|) + if Syncs(post, a, e) then [e.now] else []
  {
    PrefixRuns(post, rows, kept, e, |kept|);
    SameDecision(post, a, RowsAfter(post, rows, kept, |kept|), e);
  }

  /** However many batch writes stand anywhere in a run: without them the same ticks fetch, and the rows that count
      towards the cadence are the same. */
  lemma {:induction false} BatchesDoNotInterfere(post: Tracked, rows: Rows, events: seq<Event>, n: nat)
    requires n <= |events|
    ensures var kept := WithoutBatches(post.platform, events, n);
            && SyncTimes(post, rows, events, n) == SyncTimes(post, rows, kept, |kept|)
            && SameForCadence(post.platform, RowsAfter(post, rows, events, n), RowsAfter(post, rows, kept, |kept|))
  {
    if n > 0 {
      BatchesDoNotInterfere(post, rows, events, n - 1);
      var kept, e := WithoutBatches(post.platform, events, n - 1), events[n - 1];
      var a := RowsAfter(post, rows, events, n - 1);
      if IsBatchWrite(post.platform, e) {
        BatchIsInvisible(post, a, e);
      } else {
        KeptStep(post, rows, a, kept, e);
      }
    }
  }
}
