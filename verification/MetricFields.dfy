/** From a provider's answer to snapshot values (`apps/analytics/tasks.py`, `_post_metrics_to_dict`): which field or
    extra supplies the value of a key, and which fields compete for one. */
module MetricFields {
  import opened Prelude
  import opened Metrics
  import opened Snapshots

  /** A value out of a provider's JSON. */
  datatype Cell = Null | Number(r: real) | Text(s: string)

  /** `float(...)` with `ValueError` and `TypeError` as `None`; how text parses is a parameter. */
  function AsFloat(c: Cell, parse: string -> Option<real>): Option<real> {
    match c
    case Null => None
    case Number(r) => Some(r)
    case Text(s) => parse(s)
  }

  /** `providers.types.PostMetrics`; `extra` is keyed by metric, its other keys are `Unregistered`. */
  datatype PostMetrics = PostMetrics(fields: map<Field, int>, extra: map<Metric, Cell>)

  datatype Field = FImpressions | FReach | FEngagements | FLikes | FComments | FShares | FSaves | FClicks | FVideoViews

  /** A field that was not given is 0. */
  function Get(metrics: PostMetrics, f: Field): int {
    if f in metrics.fields then metrics.fields[f] else 0
  }

  const BASE_MAP: seq<(Field, Metric)> := [
    (FImpressions, Impressions), (FReach, Reach), (FLikes, Likes), (FComments, Comments),
    (FShares, Shares), (FSaves, Saves), (FClicks, Clicks), (FVideoViews, Views)
  ]

  /** `_POST_FIELD_OVERRIDES` over the default key. */
  function FieldKey(p: Platform, f: Field, default: Metric): Metric {
    match (p, f)
    case (Threads, FImpressions) => Views
    case (Threads, FComments) => Replies
    case (Threads, FShares) => Reposts
    case (LinkedinCompany, FLikes) => Reactions
    case (LinkedinCompany, FShares) => Reposts
    case (Mastodon, FShares) => Reposts
    case (Mastodon, FComments) => Replies
    case (Bluesky, FShares) => Reposts
    case (Bluesky, FComments) => Replies
    case _ => default
  }

  const GENERIC_EXTRA_KEYS: seq<Metric> := [Reactions, Replies, Reposts, Outbound, WatchTime, AvgViewPct]

  /** `_POST_EXTRA_OVERRIDES`. */
  function ExtraOverrides(p: Platform): seq<(Metric, Metric)> {
    if p == Pinterest then [(Unregistered("outbound_clicks"), Outbound)] else []
  }

  // ---------------------------------------------------------------------
  // What becomes of one key
  // ---------------------------------------------------------------------

  /** The last of the first `n` fields that goes to `m` and is not 0. */
  function FromFields(metrics: PostMetrics, p: Platform, m: Metric, n: nat): Option<real>
    requires n <= |BASE_MAP|
  {
    if n == 0 then None
    else
      var (f, default) := BASE_MAP[n - 1];
      if FieldKey(p, f, default) == m && Get(metrics, f) != 0 then Some(Get(metrics, f) as real)
      else FromFields(metrics, p, m, n - 1)
  }

  function FromExtra(metrics: PostMetrics, key: Metric, parse: string -> Option<real>): Option<real> {
    if key in metrics.extra then AsFloat(metrics.extra[key], parse) else None
  }

  function FromGeneric(metrics: PostMetrics, m: Metric, parse: string -> Option<real>, n: nat): Option<real>
    requires n <= |GENERIC_EXTRA_KEYS|
  {
    if m in GENERIC_EXTRA_KEYS[..n] then FromExtra(metrics, m, parse) else None
  }

  /** The last of the first `n` overrides that goes to `m` and has a value. */
  function FromOverrides(metrics: PostMetrics, p: Platform, m: Metric, parse: string -> Option<real>,
                         n: nat): Option<real>
    requires n <= |ExtraOverrides(p)|
  {
    if n == 0 then None
    else
      var (src, dest) := ExtraOverrides(p)[n - 1];
      if dest == m && FromExtra(metrics, src, parse).Some? then FromExtra(metrics, src, parse)
      else FromOverrides(metrics, p, m, parse, n - 1)
  }

  function OrElse(a: Option<real>, b: Option<real>): Option<real> {
    if a.Some? then a else b
  }

  /** An override beats a generic extra, which beats a field. */
  function ValueOf(metrics: PostMetrics, p: Platform, m: Metric, parse: string -> Option<real>): Option<real> {
    OrElse(FromOverrides(metrics, p, m, parse, |ExtraOverrides(p)|),
           OrElse(FromGeneric(metrics, m, parse, |GENERIC_EXTRA_KEYS|),
                  FromFields(metrics, p, m, |BASE_MAP|)))
  }

  function Lookup(out: map<Metric, real>, m: Metric): Option<real> {
    if m in out then Some(out[m]) else None
  }

  /** `_post_metrics_to_dict`. */
  method PostMetricsToDict(metrics: PostMetrics, p: Platform, parse: string -> Option<real>)
    returns (out: map<Metric, real>)
    ensures forall m :: Lookup(out, m) == ValueOf(metrics, p, m, parse)
  {
    out := map[];
    for i := 0 to |BASE_MAP|
      invariant forall m :: Lookup(out, m) == FromFields(metrics, p, m, i)
    {
      var (src, default) := BASE_MAP[i];
      var v := Get(metrics, src);
      if v != 0 {
        out := out[FieldKey(p, src, default) := v as real];
      }
    }
    ghost var fields := out;
    for i := 0 to |GENERIC_EXTRA_KEYS|
      invariant forall m :: Lookup(out, m) == OrElse(FromGeneric(metrics, m, parse, i), Lookup(fields, m))
    {
      var key := GENERIC_EXTRA_KEYS[i];
      assert GENERIC_EXTRA_KEYS[..i + 1] == GENERIC_EXTRA_KEYS[..i] + [key];
      if key in metrics.extra {
        var v := AsFloat(metrics.extra[key], parse);
        if v.Some? {
          out := out[key := v.value];
        }
      }
    }
    ghost var generic := out;
    var overrides := ExtraOverrides(p);
    for i := 0 to |overrides|
      invariant forall m :: Lookup(out, m) == OrElse(FromOverrides(metrics, p, m, parse, i), Lookup(generic, m))
    {
      var (src, dest) := overrides[i];
      if src in metrics.extra {
        var v := AsFloat(metrics.extra[src], parse);
        if v.Some? {
          out := out[dest := v.value];
        }
      }
    }
  }

  // ---------------------------------------------------------------------
  // Consequences
  // ---------------------------------------------------------------------

  /** Fields never compete for a key, except on Threads, where impressions are views. */
  lemma OnlyThreadsFieldsCollide(p: Platform, i: nat, j: nat)
    requires i < j < |BASE_MAP|
    ensures FieldKey(p, BASE_MAP[i].0, BASE_MAP[i].1) == FieldKey(p, BASE_MAP[j].0, BASE_MAP[j].1) <==>
              p == Threads && BASE_MAP[i].0 == FImpressions && BASE_MAP[j].0 == FVideoViews
  {
  }

  lemma {:induction false} FieldIsKept(metrics: PostMetrics, p: Platform, i: nat, n: nat)
    requires i < n <= |BASE_MAP| && Get(metrics, BASE_MAP[i].0) != 0
    ensures FromFields(metrics, p, FieldKey(p, BASE_MAP[i].0, BASE_MAP[i].1), n) ==
              (if p == Threads && i == 0 && n == |BASE_MAP| && Get(metrics, FVideoViews) != 0
               then Some(Get(metrics, FVideoViews) as real)
               else Some(Get(metrics, BASE_MAP[i].0) as real))
  {
    if i < n - 1 {
      OnlyThreadsFieldsCollide(p, i, n - 1);
      FieldIsKept(metrics, p, i, n - 1);
    }
  }

  /** Without extras, a non-zero field arrives under its key, unless Threads' video views replace its impressions. */
  lemma FieldsArriveIff(metrics: PostMetrics, p: Platform, parse: string -> Option<real>, i: nat)
    requires i < |BASE_MAP| && Get(metrics, BASE_MAP[i].0) != 0 && metrics.extra == map[]
    ensures ValueOf(metrics, p, FieldKey(p, BASE_MAP[i].0, BASE_MAP[i].1), parse)
            == Some(Get(metrics, BASE_MAP[i].0) as real)
            <==> !(p == Threads && BASE_MAP[i].0 == FImpressions && Get(metrics, FVideoViews) != 0
                   && Get(metrics, FVideoViews) != Get(metrics, FImpressions))
  {
    FieldIsKept(metrics, p, i, |BASE_MAP|);
    var m := FieldKey(p, BASE_MAP[i].0, BASE_MAP[i].1);
    NoOverrides(metrics, p, m, parse, |ExtraOverrides(p)|);
  }

  lemma {:induction false} NoOverrides(metrics: PostMetrics, p: Platform, m: Metric, parse: string -> Option<real>,
                                       n: nat)
    requires n <= |ExtraOverrides(p)|
    requires forall i | 0 <= i < n :: ExtraOverrides(p)[i].0 !in metrics.extra
    ensures FromOverrides(metrics, p, m, parse, n) == None
  {
    if n > 0 {
      NoOverrides(metrics, p, m, parse, n - 1);
    }
  }

  lemma {:induction false} NoFields(metrics: PostMetrics, p: Platform, m: Metric, n: nat)
    requires n <= |BASE_MAP|
    requires forall i | 0 <= i < n ::
               FieldKey(p, BASE_MAP[i].0, BASE_MAP[i].1) == m ==> Get(metrics, BASE_MAP[i].0) == 0
    ensures FromFields(metrics, p, m, n) == None
  {
    if n > 0 {
      NoFields(metrics, p, m, n - 1);
    }
  }
}
