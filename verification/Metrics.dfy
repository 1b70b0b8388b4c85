/** The metric catalogue (`apps/analytics/metrics.py`). */
module Metrics {

  /** The registered metric keys, and any key the catalogue does not know. */
  datatype Metric =
    | Impressions | Reach | Views | Plays | Likes | Reactions | Comments | Replies | Shares | Reposts
    | Saves | Clicks | Outbound | ProfileVisits | Follows | Followers | Subscribers
    | WatchTime | AvgViewPct | Engagement
    | Unregistered(key: string)

  datatype Kind = Count | Percent | Minutes

  const ACCOUNT_ONLY: set<Metric> := {Follows, Followers, Subscribers}

  const POST_FALLBACK_DENYLIST: set<Metric> := {Reach}

  const ENGAGEMENT_PARTS: set<Metric> :=
    {Likes, Reactions, Comments, Replies, Shares, Reposts, Saves, Clicks, Outbound}

  const ENGAGEMENT_DENOMINATORS: seq<Metric> := [Reach, Impressions, Views, Plays]

  /** `kind_of`: an unregistered key counts as a count. */
  function KindOf(m: Metric): Kind {
    match m
    case WatchTime => Minutes
    case AvgViewPct | Engagement => Percent
    case _ => Count
  }

  /** `_supports_post_fallback`: which metrics may be rebuilt by summing the credits of posts. */
  predicate SupportsPostFallback(m: Metric) {
    && !m.Unregistered?
    && m !in ACCOUNT_ONLY
    && m !in POST_FALLBACK_DENYLIST
    && KindOf(m) in {Count, Minutes}
  }
}
