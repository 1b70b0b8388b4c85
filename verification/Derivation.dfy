/** Metrics derived from a daily series (`apps/analytics/derive.py`): the current and the previous window, values, rates
    and their sparklines. Values are reals, and rates are taken before they are rounded. */
module Derivation {
  import opened Prelude
  import opened Metrics

  datatype DerivedMetric = DerivedMetric(value: real, delta: real, series: seq<real>, kind: Kind)

  /** `values[-n:]`. For `n == 0` this is the whole list, because `-0` is `0`. */
  function Last<T>(values: seq<T>, n: nat): seq<T> {
    if n == 0 || |values| <= n then values else values[|values| - n..]
  }

  /** `values[-2 * n : -n]`. */
  function BeforeLast<T>(values: seq<T>, n: nat): seq<T> {
    if n == 0 || |values| <= n then [] else Last(values[..|values| - n], n)
  }

  function Total(values: seq<real>): real {
    if values == [] then 0.0 else Total(values[..|values| - 1]) + values[|values| - 1]
  }

  /** `_split`: the current and the previous window, latest last. */
  function Split(values: seq<real>, days: nat): (seq<real>, seq<real>) {
    if values == [] then ([], []) else (Last(values, days), BeforeLast(values, days))
  }

  function Mean(values: seq<real>): real {
    if values == [] then 0.0 else Total(values) / |values| as real
  }

  /** Percent change; zero when there is no baseline. */
  function Change(current: real, previous: real): real {
    if previous != 0.0 then (current - previous) / previous * 100.0 else 0.0
  }

  /** `derive`, before rounding. */
  function Derive(valuesByDay: seq<real>, days: nat, kind: Kind): DerivedMetric {
    var (cur, prev) := Split(valuesByDay, days);
    if kind in {Percent, Minutes} then
      DerivedMetric(Mean(cur), Change(Mean(cur), Mean(prev)), cur, kind)
    else
      DerivedMetric(Total(cur), Change(Total(cur), Total(prev)), cur, kind)
  }

  lemma {:induction false} TotalConcat(a: seq<real>, b: seq<real>)
    ensures Total(a + b) == Total(a) + Total(b)
  {
    if b == [] {
      assert a + b == a;
    } else {
      var n := |b| - 1;
      TotalConcat(a, b[..n]);
      assert (a + b)[..|a| + n] == a + b[..n];
    }
  }

  /** The two windows of a full series partition it: no day is dropped or seen twice. */
  lemma {:induction false} WindowsPartitionTheSeries(values: seq<real>, days: nat)
    requires |values| == 2 * days
    ensures var (cur, prev) := Split(values, days);
            && prev + cur == values
            && (days > 0 ==> |cur| == |prev| == days)
            && Total(prev) + Total(cur) == Total(values)
  {
    var (cur, prev) := Split(values, days);
    assert prev + cur == values;
    TotalConcat(prev, cur);
  }

  // ---------------------------------------------------------------------
  // Engagement rate
  // ---------------------------------------------------------------------

  /** Python's dict of series: its keys in insertion order, and their values. */
  datatype SeriesByMetric = SeriesByMetric(keys: seq<Metric>, series: map<Metric, seq<real>>) {
    ghost predicate Valid() {
      && (forall m :: m in keys <==> m in series)
      && (forall i, j | 0 <= i < j < |keys| :: keys[i] != keys[j])
    }
  }

  function PartKeys(keys: seq<Metric>): seq<Metric> {
    if keys == [] then []
    else (if keys[0] in ENGAGEMENT_PARTS then [keys[0]] else []) + PartKeys(keys[1..])
  }

  function Denominator(candidates: seq<Metric>, s: SeriesByMetric): Option<Metric> {
    if candidates == [] then None
    else if candidates[0] in s.series then Some(candidates[0])
    else Denominator(candidates[1..], s)
  }

  function Longest(rows: seq<seq<real>>): nat {
    if rows == [] then 0
    else
      var rest := Longest(rows[1..]);
      if |rows[0]| > rest then |rows[0]| else rest
  }

  /** The sum of column `j`; a row that is too short is padded with zeros. */
  function Column(rows: seq<seq<real>>, j: nat): real {
    if rows == [] then 0.0
    else (if j < |rows[0]| then rows[0][j] else 0.0) + Column(rows[1..], j)
  }

  function Aligned(parts: seq<Metric>, s: SeriesByMetric, days: nat): seq<seq<real>>
    requires forall m | m in parts :: m in s.series
  {
    seq(|parts|, i requires 0 <= i < |parts| => Last(s.series[parts[i]], 2 * days))
  }

  function PartsPerDay(s: SeriesByMetric, days: nat): seq<real>
    requires s.Valid()
  {
    var parts := PartKeys(s.keys);
    PartKeysAreKeys(s.keys);
    var aligned := Aligned(parts, s, days);
    seq(Longest(aligned), j requires 0 <= j => Column(aligned, j))
  }

  function OrOne(x: real): real {
    if x == 0.0 then 1.0 else x
  }

  /** The daily ratios in percent, one per day; a day without a denominator shows zero. */
  function Ratios(parts: seq<real>, denominators: seq<real>): (r: seq<real>)
    requires |parts| == |denominators|
    ensures |r| == |parts|
  {
    seq(|parts|, i requires 0 <= i < |parts| =>
      if denominators[i] != 0.0 then parts[i] / denominators[i] * 100.0 else 0.0)
  }

  /** `engagement_rate`, before rounding. */
  function EngagementRate(s: SeriesByMetric, days: nat, fallbackFollowers: nat): DerivedMetric
    requires s.Valid()
  {
    var denominator := Denominator(ENGAGEMENT_DENOMINATORS, s);
    DenominatorIsAKey(ENGAGEMENT_DENOMINATORS, s);
    var parts := PartsPerDay(s, days);
    var denominators := if denominator.Some? then Last(s.series[denominator.value], 2 * days) else [];
    var (partsCur, partsPrev) := Split(parts, days);
    var denomCur := if denominator.Some? then OrOne(Total(Last(denominators, days)))
                    else OrOne(fallbackFollowers as real);
    var denomPrev := if denominator.Some? then OrOne(Total(BeforeLast(denominators, days)))
                     else OrOne(fallbackFollowers as real);
    var rateCur := Total(partsCur) / denomCur * 100.0;
    var ratePrev := Total(partsPrev) / denomPrev * 100.0;
    var partsWindow := Last(parts, days);
    var denomWindow := if denominators != [] then Last(denominators, days) else [];
    var sparkline := if denomWindow != [] && |denomWindow| == |partsWindow| then Ratios(partsWindow, denomWindow)
                     else partsWindow;
    DerivedMetric(rateCur, Change(rateCur, ratePrev), sparkline, Percent)
  }

  lemma {:induction false} PartKeysAreKeys(keys: seq<Metric>)
    ensures forall m :: m in PartKeys(keys) <==> m in keys && m in ENGAGEMENT_PARTS
  {
    if keys != [] {
      PartKeysAreKeys(keys[1..]);
    }
  }

  lemma {:induction false} DenominatorIsAKey(candidates: seq<Metric>, s: SeriesByMetric)
    ensures var d := Denominator(candidates, s);
            && (d.Some? ==> d.value in candidates && d.value in s.series)
            && (d.None? <==> forall m | m in candidates :: m !in s.series)
  {
    if candidates != [] {
      DenominatorIsAKey(candidates[1..], s);
    }
  }

  lemma {:induction false} LongestOfEqual(rows: seq<seq<real>>, n: nat)
    requires rows != [] && forall r | r in rows :: |r| == n
    ensures Longest(rows) == n
  {
    if |rows| > 1 {
      assert forall r | r in rows[1..] :: r in rows;
      LongestOfEqual(rows[1..], n);
    }
    assert rows[0] in rows;
  }

  lemma {:induction false} PositiveTotal(d: seq<real>)
    requires d != [] && forall x | x in d :: x > 0.0
    ensures Total(d) > 0.0
  {
    var n := |d| - 1;
    assert d[n] in d;
    if n > 0 {
      assert forall x | x in d[..n] :: x in d;
      PositiveTotal(d[..n]);
    }
  }

  /** Every day of the current window is positive. */
  ghost predicate PositiveWindow(values: seq<real>, days: nat) {
    forall x | x in Last(Last(values, 2 * days), days) :: x > 0.0
  }

  lemma Distributes(r: real, a: real, b: real)
    ensures r * (a + b) == r * a + r * b
  {
  }

  /** If the total is at most `r` times that of the denominators, so is one of the parts. */
  lemma {:induction false} SomeAtMost(p: seq<real>, d: seq<real>, r: real) returns (i: nat)
    requires |p| == |d| > 0 && Total(p) <= r * Total(d)
    ensures i < |p| && p[i] <= r * d[i]
  {
    var n := |p| - 1;
    if p[n] <= r * d[n] {
      i := n;
    } else {
      assert p[..0] == [] && d[..0] == [];
      Distributes(r, Total(d[..n]), d[n]);
      i := SomeAtMost(p[..n], d[..n], r);
    }
  }

  /** And the other way round. */
  lemma {:induction false} SomeAtLeast(p: seq<real>, d: seq<real>, r: real) returns (i: nat)
    requires |p| == |d| > 0 && Total(p) >= r * Total(d)
    ensures i < |p| && p[i] >= r * d[i]
  {
    var n := |p| - 1;
    if p[n] >= r * d[n] {
      i := n;
    } else {
      assert p[..0] == [] && d[..0] == [];
      Distributes(r, Total(d[..n]), d[n]);
      i := SomeAtLeast(p[..n], d[..n], r);
    }
  }

  /** The quotient of the totals lies between two of the quotients. */
  lemma MediantBounds(p: seq<real>, d: seq<real>) returns (lo: nat, hi: nat)
    requires |p| == |d| > 0 && forall x | x in d :: x > 0.0
    ensures Total(d) > 0.0
    ensures lo < |p| && d[lo] > 0.0 && p[lo] / d[lo] <= Total(p) / Total(d)
    ensures hi < |p| && d[hi] > 0.0 && p[hi] / d[hi] >= Total(p) / Total(d)
  {
    PositiveTotal(d);
    var r := Total(p) / Total(d);
    Quotient(Total(p), Total(d), r);
    lo := SomeAtMost(p, d, r);
    hi := SomeAtLeast(p, d, r);
    assert d[lo] in d && d[hi] in d;
    Quotient(p[lo], d[lo], r);
    Quotient(p[hi], d[hi], r);
  }

  lemma Quotient(p: real, d: real, r: real)
    requires d > 0.0
    ensures p <= r * d ==> p / d <= r
    ensures p >= r * d ==> p / d >= r
    ensures r == p / d ==> p == r * d
  {
    var q := p / d;
    assert q * d == p;
  }

  /** The headline rate lies between the least and the greatest value of its own sparkline, for any number of
      days and parts, when the parts and the denominator that is used have one length, and that denominator is
      positive on each day of the current window. */
  lemma {:induction false} RateLiesWithinItsSparkline(s: SeriesByMetric, days: nat, fallbackFollowers: nat, len: nat)
    requires s.Valid() && len > 0
    requires exists m :: m in s.series && m in ENGAGEMENT_PARTS
    requires forall m | m in s.series && m in ENGAGEMENT_PARTS :: |s.series[m]| == len
    requires Denominator(ENGAGEMENT_DENOMINATORS, s).Some?
    requires forall m | m in s.series && Denominator(ENGAGEMENT_DENOMINATORS, s) == Some(m) ::
               |s.series[m]| == len && PositiveWindow(s.series[m], days)
    ensures var rate := EngagementRate(s, days, fallbackFollowers);
            && (exists i | 0 <= i < |rate.series| :: rate.series[i] <= rate.value)
            && (exists i | 0 <= i < |rate.series| :: rate.value <= rate.series[i])
  {
    DenominatorIsAKey(ENGAGEMENT_DENOMINATORS, s);
    var m := Denominator(ENGAGEMENT_DENOMINATORS, s).value;
    PartsFillTheWindow(s, days, len);
    var p, d := Last(PartsPerDay(s, days), days), Last(Last(s.series[m], 2 * days), days);
    assert PositiveWindow(s.series[m], days);
    PercentKeepsBounds(p, d);
    RateOfWindow(s, days, fallbackFollowers, m);
  }

  lemma {:induction false} RateOfWindow(s: SeriesByMetric, days: nat, fallbackFollowers: nat, m: Metric)
    requires s.Valid() && exists p :: p in s.series && p in ENGAGEMENT_PARTS
    requires Denominator(ENGAGEMENT_DENOMINATORS, s) == Some(m) && m in s.series
    ensures var p, d := Last(PartsPerDay(s, days), days), Last(Last(s.series[m], 2 * days), days);
            |p| == |d| > 0 ==>
              && EngagementRate(s, days, fallbackFollowers).series == Ratios(p, d)
              && EngagementRate(s, days, fallbackFollowers).value == Total(p) / OrOne(Total(d)) * 100.0
  {
    PartKeysAreKeys(s.keys);
  }

  lemma PartsFillTheWindow(s: SeriesByMetric, days: nat, len: nat)
    requires s.Valid() && len > 0
    requires exists m :: m in s.series && m in ENGAGEMENT_PARTS
    requires forall m | m in s.series && m in ENGAGEMENT_PARTS :: |s.series[m]| == len
    ensures |PartsPerDay(s, days)| == if days == 0 || len < 2 * days then len else 2 * days
  {
    PartKeysAreKeys(s.keys);
    var m :| m in s.series && m in ENGAGEMENT_PARTS;
    assert m in PartKeys(s.keys);
    LongestOfEqual(Aligned(PartKeys(s.keys), s, days), if days == 0 || len < 2 * days then len else 2 * days);
  }

  lemma {:induction false} PercentKeepsBounds(p: seq<real>, d: seq<real>)
    requires |p| == |d| > 0 && forall x | x in d :: x > 0.0
    ensures var total, ratios := Total(p) / OrOne(Total(d)) * 100.0, Ratios(p, d);
            && (exists i | 0 <= i < |ratios| :: ratios[i] <= total)
            && (exists i | 0 <= i < |ratios| :: total <= ratios[i])
  {
    var lo, hi := MediantBounds(p, d);
    var ratios, r := Ratios(p, d), Total(p) / Total(d);
    assert ratios[lo] == p[lo] / d[lo] * 100.0 <= r * 100.0;
    assert ratios[hi] == p[hi] / d[hi] * 100.0 >= r * 100.0;
  }
}
