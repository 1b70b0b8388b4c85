/** The snapshot rows of one post (`apps/analytics/models.py`) and the path that writes them
    (`apps/analytics/tasks.py`, `_write_post_snapshot`). Times count seconds. */
module Snapshots {
  import opened Metrics

  datatype Platform =
    | YouTube | Threads | LinkedinCompany | LinkedinPersonal | Mastodon | Bluesky | Pinterest | Tiktok
    | OtherPlatform(name: string)

  /** `unique_together = (platform_post, metric_key, date)`, for one post. */
  datatype Key = Key(metric: Metric, day: int)

  /** `capturedAt` is an `auto_now` column: the time of the last write. */
  datatype SnapshotRow = SnapshotRow(value: real, capturedAt: int)

  type Rows = map<Key, SnapshotRow>

  /** `_POST_NON_CADENCE_METRICS_BY_PLATFORM`. */
  function Excluded(p: Platform): set<Metric> {
    if p == YouTube then {WatchTime, AvgViewPct, Shares} else {}
  }

  /** One upsert for each metric of the day. */
  function Written(rows: Rows, values: map<Metric, real>, day: int, at: int): Rows {
    var keys := set m | m in values :: Key(m, day);
    map k | k in rows.Keys + keys :: if k in keys then SnapshotRow(values[k.metric], at) else rows[k]
  }

  lemma WriteOneMore(rows: Rows, values: map<Metric, real>, rest: set<Metric>, m: Metric, day: int, at: int)
    requires rest <= values.Keys && m in rest
    ensures Written(rows, values - (rest - {m}), day, at) ==
            Written(rows, values - rest, day, at)[Key(m, day) := SnapshotRow(values[m], at)]
  {
    var before, after := Written(rows, values - rest, day, at), Written(rows, values - (rest - {m}), day, at);
    forall k ensures k in after <==> k in before || k == Key(m, day) {
    }
  }

  class SnapshotTable {
    var rows: Rows

    constructor ()
      ensures rows == map[]
    {
      rows := map[];
    }

    /** `_write_post_snapshot`; returns how many rows it wrote. */
    method WriteSnapshot(values: map<Metric, real>, day: int, at: int) returns (count: nat)
      modifies this
      ensures rows == Written(old(rows), values, day, at) && count == |values|
    {
      count := 0;
      ghost var before := rows;
      var rest := values.Keys;
      while rest != {}
        invariant rest <= values.Keys && count + |rest| == |values|
        invariant rows == Written(before, values - rest, day, at)
        decreases rest
      {
        var m :| m in rest;
        WriteOneMore(before, values, rest, m, day, at);
        rows := rows[Key(m, day) := SnapshotRow(values[m], at)];
        rest := rest - {m};
        count := count + 1;
      }
      assert values - rest == values;
    }
  }
}
