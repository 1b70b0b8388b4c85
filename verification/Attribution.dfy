/** Turning lifetime counters into daily credits (`apps/analytics/services.py`). */
module Attribution {
  import opened Prelude

  type Day = int

  /** One row of the query of `_post_summed_series_for_metric`: the lifetime value of one metric of one post on one
      day; `published` is the day part of `published_at`. One pass over such rows credits the days of a window. */
  datatype DailyValue = DailyValue(post: int, published: Option<Day>, day: Day, value: real, captured: Option<int>)

  /** `order_by("platform_post_id", "date")` over rows that are unique in (post, date). */
  ghost predicate Ordered(rows: seq<DailyValue>) {
    forall i, j | 0 <= i < j < |rows| :: Before(rows[i], rows[j])
  }

  ghost predicate Before(a: DailyValue, b: DailyValue) {
    a.post < b.post || (a.post == b.post && a.day < b.day)
  }

  /** `date__gte=start, date__lte=end`. */
  ghost predicate InWindow(rows: seq<DailyValue>, start: Day, end: Day) {
    forall r | r in rows :: start <= r.day <= end
  }

  // ---------------------------------------------------------------------
  // The latest capture
  // ---------------------------------------------------------------------

  /** The later of two optional timestamps; a missing one never wins. */
  function Later(a: Option<int>, b: Option<int>): (r: Option<int>)
    ensures r == a || r == b
    ensures r.None? <==> a.None? && b.None?
    ensures r.Some? ==> (a.Some? ==> a.value <= r.value) && (b.Some? ==> b.value <= r.value)
  {
    if b.Some? && (a.None? || b.value > a.value) then b else a
  }

  ghost function LatestCapture(rows: seq<DailyValue>): Option<int> {
    if rows == [] then None
    else
      var n := |rows| - 1;
      Later(LatestCapture(rows[..n]), rows[n].captured)
  }

  lemma {:induction false} LatestCaptureIsTheMaximum(rows: seq<DailyValue>)
    ensures LatestCapture(rows).None? <==> forall r | r in rows :: r.captured.None?
    ensures LatestCapture(rows).Some? ==>
              && (exists r | r in rows :: r.captured == LatestCapture(rows))
              && (forall r | r in rows && r.captured.Some? :: r.captured.value <= LatestCapture(rows).value)
  {
    if rows != [] {
      var n := |rows| - 1;
      LatestCaptureIsTheMaximum(rows[..n]);
      assert rows == rows[..n] + [rows[n]];
      assert forall r :: r in rows <==> r in rows[..n] || r == rows[n];
    }
  }

  // ---------------------------------------------------------------------
  // What one post earns
  // ---------------------------------------------------------------------

  /** The largest value seen so far: the high-water mark. */
  ghost function HighWater(rs: seq<DailyValue>): real
    requires rs != []
  {
    var last := rs[|rs| - 1].value;
    if |rs| == 1 then last
    else
      var before := HighWater(rs[..|rs| - 1]);
      if last > before then last else before
  }

  ghost predicate PublishedBefore(r: DailyValue, start: Day) {
    r.published.Some? && r.published.value <= r.day && r.published.value < start
  }

  /** The part of the first snapshot that belongs to days before the window. */
  ghost function Anchor(first: DailyValue, start: Day): real {
    if PublishedBefore(first, start) then first.value else 0.0
  }

  /** What the first snapshot of a post earns on day `d`. */
  ghost function FirstCredit(first: DailyValue, start: Day, d: Day): real {
    if first.published.None? || first.published.value > first.day then
      if d == first.day then first.value else 0.0
    else if PublishedBefore(first, start) then 0.0
    else if first.published.value <= d <= first.day then
      first.value / (first.day - first.published.value + 1) as real
    else 0.0
  }

  /** What the later snapshots earn on day `d`: the rise of the high-water mark on that day. */
  ghost function RiseOn(rs: seq<DailyValue>, d: Day): real {
    if |rs| <= 1 then 0.0
    else
      var n := |rs| - 1;
      RiseOn(rs[..n], d) + if rs[n].day == d then HighWater(rs) - HighWater(rs[..n]) else 0.0
  }

  /** What a post with snapshots `rs` earns on day `d`. */
  ghost function PostCredit(rs: seq<DailyValue>, start: Day, d: Day): real {
    if rs == [] then 0.0 else FirstCredit(rs[0], start, d) + RiseOn(rs, d)
  }

  // ---------------------------------------------------------------------
  // What an account earns: the sum over its posts
  // ---------------------------------------------------------------------

  ghost function RowsOf(rows: seq<DailyValue>, post: int): seq<DailyValue> {
    if rows == [] then []
    else
      var n := |rows| - 1;
      RowsOf(rows[..n], post) + if rows[n].post == post then [rows[n]] else []
  }

  /** The posts that have rows, each once. */
  ghost function Posts(rows: seq<DailyValue>): seq<int> {
    if rows == [] then []
    else
      var n := |rows| - 1;
      var before := Posts(rows[..n]);
      if rows[n].post in before then before else before + [rows[n].post]
  }

  ghost function SumOverPosts(posts: seq<int>, credit: int -> real): real {
    if posts == [] then 0.0
    else SumOverPosts(posts[..|posts| - 1], credit) + credit(posts[|posts| - 1])
  }

  ghost function CreditedOn(rows: seq<DailyValue>, start: Day, d: Day): real {
    SumOverPosts(Posts(rows), p => PostCredit(RowsOf(rows, p), start, d))
  }

  /** The credit of a post from the start of the window to the day `hi`. */
  ghost function CreditTo(rs: seq<DailyValue>, start: Day, hi: Day): real {
    Sum(start, hi, d => PostCredit(rs, start, d))
  }

  /** Everything a post earns in the window, said without days: its peak minus what predates the window. */
  ghost function Earned(rs: seq<DailyValue>, start: Day): real {
    if rs == [] then 0.0 else HighWater(rs) - Anchor(rs[0], start)
  }

  ghost function EarnedInAll(rows: seq<DailyValue>, start: Day): real {
    SumOverPosts(Posts(rows), p => Earned(RowsOf(rows, p), start))
  }

  // ---------------------------------------------------------------------
  // The pass
  // ---------------------------------------------------------------------

  /** `out[d]` of a `defaultdict(float)`. */
  function At(out: map<Day, real>, d: Day): real {
    if d in out then out[d] else 0.0
  }

  /** `out` holds the credits of `rows`, all of them inside the window. */
  ghost predicate Credits(out: map<Day, real>, rows: seq<DailyValue>, start: Day, end: Day) {
    && (forall d :: At(out, d) == CreditedOn(rows, start, d))
    && (forall d | d in out :: start <= d <= end)
  }

  /** `_post_summed_series_for_metric`, on the rows of its query. */
  method PostSummedSeries(rows: seq<DailyValue>, start: Day, end: Day)
    returns (out: map<Day, real>, maxCaptured: Option<int>)
    requires Ordered(rows) && InWindow(rows, start, end)
    ensures forall d :: At(out, d) == CreditedOn(rows, start, d)
    ensures forall d | d in out :: start <= d <= end
    ensures maxCaptured == LatestCapture(rows)
  {
    out, maxCaptured := map[], None;
    var currentPost: Option<int> := None;
    var prevValue, firstObs := 0.0, true;
    for i := 0 to |rows|
      invariant Credits(out, rows[..i], start, end)
      invariant maxCaptured == LatestCapture(rows[..i])
      invariant currentPost == if i == 0 then None else Some(rows[i - 1].post)
      invariant i > 0 ==> !firstObs && RowsOf(rows[..i], rows[i - 1].post) != []
      invariant i > 0 ==> prevValue == HighWater(RowsOf(rows[..i], rows[i - 1].post))
    {
      var row := rows[i];
      ghost var before, group := out, RowsOf(rows[..i], row.post);
      RowArrives(rows, i);
      if Some(row.post) != currentPost {
        currentPost, firstObs, prevValue := Some(row.post), true, 0.0;
      }
      if row.captured.Some? && (maxCaptured.None? || row.captured.value > maxCaptured.value) {
        maxCaptured := row.captured;
      }
      assert firstObs <==> group == [];
      if firstObs {
        firstObs := false;
        out := CreditFirst(out, row, start, end);
        prevValue := row.value;
      } else {
        out, prevValue := CreditRise(out, row, prevValue, group);
      }
      CreditsGrow(before, out, rows, i, start, end);
    }
    assert rows[..|rows|] == rows;
  }

  /** A later observation: credit its day with what it adds to the high-water mark; a counter reset adds nothing. */
  method CreditRise(before: map<Day, real>, row: DailyValue, high: real, ghost group: seq<DailyValue>)
    returns (out: map<Day, real>, prevValue: real)
    requires group != [] && high == HighWater(group)
    ensures forall d :: At(out, d) == At(before, d) + RiseBy(group, row, d)
    ensures forall d | d in out :: d in before || d == row.day
    ensures prevValue == if row.value > high then row.value else high
  {
    out, prevValue := before, high;
    var delta := row.value - prevValue;
    if delta > 0.0 {
      prevValue := row.value;
      out := out[row.day := At(out, row.day) + delta];
    }
  }

  /** The first observation of a post: credit its day, skip it, or spread it. */
  method CreditFirst(before: map<Day, real>, row: DailyValue, start: Day, end: Day) returns (out: map<Day, real>)
    requires start <= row.day <= end
    requires forall d | d in before :: start <= d <= end
    ensures forall d :: At(out, d) == At(before, d) + FirstCredit(row, start, d)
    ensures forall d | d in out :: start <= d <= end
  {
    out := before;
    if row.published.None? || row.published.value > row.day {
      if start <= row.day <= end {
        out := out[row.day := At(out, row.day) + row.value];
      }
    } else if row.published.value < start {
    } else {
      out := SpreadUniformly(out, row, start, end);
    }
  }

  /** The inner `while d <= day` loop: an equal share for every day from publication to the snapshot. */
  method SpreadUniformly(before: map<Day, real>, row: DailyValue, start: Day, end: Day) returns (out: map<Day, real>)
    requires row.published.Some? && start <= row.published.value <= row.day <= end
    requires forall d | d in before :: start <= d <= end
    ensures forall d :: At(out, d) == At(before, d) + FirstCredit(row, start, d)
    ensures forall d | d in out :: start <= d <= end
  {
    out := before;
    var pubDay := row.published.value;
    var perDay := row.value / (row.day - pubDay + 1) as real;
    var d := pubDay;
    while d <= row.day
      invariant pubDay <= d <= row.day + 1
      invariant forall e :: At(out, e) == At(before, e) + if pubDay <= e < d then perDay else 0.0
      invariant forall e | e in out :: start <= e <= end
    {
      if start <= d <= end {
        out := out[d := At(out, d) + perDay];
      }
      d := d + 1;
    }
  }

  /** The change of a post's credit on day `d` when one more snapshot arrives. */
  ghost function RiseBy(rs: seq<DailyValue>, r: DailyValue, d: Day): real
    requires rs != []
  {
    if r.day == d && r.value > HighWater(rs) then r.value - HighWater(rs) else 0.0
  }

  lemma {:induction false} RowsOfContains(rows: seq<DailyValue>, post: int)
    ensures forall r :: r in RowsOf(rows, post) <==> r in rows && r.post == post
    ensures post in Posts(rows) <==> RowsOf(rows, post) != []
  {
    if rows != [] {
      var n := |rows| - 1;
      RowsOfContains(rows[..n], post);
      assert rows == rows[..n] + [rows[n]];
    }
  }

  lemma GroupsAreContiguous(rows: seq<DailyValue>, i: nat)
    requires Ordered(rows) && i < |rows|
    ensures i > 0 && rows[i].post != rows[i - 1].post ==> RowsOf(rows[..i], rows[i].post) == []
    ensures i == 0 ==> RowsOf(rows[..i], rows[i].post) == []
  {
    var group := RowsOf(rows[..i], rows[i].post);
    assert group == [] || group[0] in group;
    RowsOfContains(rows[..i], rows[i].post);
    if i > 0 && rows[i].post != rows[i - 1].post {
      assert forall k | 0 <= k < i :: rows[k].post <= rows[i - 1].post;
      assert forall r | r in rows[..i] :: r.post != rows[i].post;
    }
  }

  lemma {:induction false} PostsAreDistinct(rows: seq<DailyValue>)
    ensures forall i, j | 0 <= i < j < |Posts(rows)| :: Posts(rows)[i] != Posts(rows)[j]
  {
    if rows != [] {
      PostsAreDistinct(rows[..|rows| - 1]);
    }
  }

  lemma {:induction false} SumOverPostsChanges(posts: seq<int>, f: int -> real, g: int -> real, p: int)
    requires forall i, j | 0 <= i < j < |posts| :: posts[i] != posts[j]
    requires forall q | q in posts && q != p :: f(q) == g(q)
    ensures SumOverPosts(posts, g) == SumOverPosts(posts, f) + if p in posts then g(p) - f(p) else 0.0
  {
    if posts != [] {
      var n := |posts| - 1;
      SumOverPostsChanges(posts[..n], f, g, p);
      assert posts[n] in posts && posts[n] !in posts[..n];
      assert p in posts <==> p in posts[..n] || p == posts[n];
    }
  }

  lemma {:induction false} OneMoreRow(rows: seq<DailyValue>, r: DailyValue, p: int)
    ensures RowsOf(rows + [r], p) == if r.post == p then RowsOf(rows, p) + [r] else RowsOf(rows, p)
    ensures Posts(rows + [r]) == if r.post in Posts(rows) then Posts(rows) else Posts(rows) + [r.post]
  {
    assert (rows + [r])[..|rows|] == rows;
  }

  lemma {:induction false} SumOfOneMorePost(posts: seq<int>, p: int, f: int -> real)
    ensures SumOverPosts(posts + [p], f) == SumOverPosts(posts, f) + f(p)
  {
    assert (posts + [p])[..|posts|] == posts;
  }

  /** When one more row changes only what its own post earns, the sum over the posts changes by that. */
  lemma {:induction false} SumOverPostsGrows(rows: seq<DailyValue>, r: DailyValue, f: int -> real, g: int -> real)
    requires forall q | q != r.post :: f(q) == g(q)
    requires r.post !in Posts(rows) ==> f(r.post) == 0.0
    ensures SumOverPosts(Posts(rows + [r]), g) == SumOverPosts(Posts(rows), f) + g(r.post) - f(r.post)
  {
    PostsAreDistinct(rows);
    OneMoreRow(rows, r, r.post);
    SumOverPostsChanges(Posts(rows), f, g, r.post);
    SumOfOneMorePost(Posts(rows), r.post, g);
  }

  /** One more row changes only the credit of its own post. */
  lemma {:induction false} NextRow(rows: seq<DailyValue>, r: DailyValue, start: Day)
    ensures RowsOf(rows + [r], r.post) == RowsOf(rows, r.post) + [r]
    ensures RowsOf(rows, r.post) == [] ==>
              forall d :: CreditedOn(rows + [r], start, d) == CreditedOn(rows, start, d) + FirstCredit(r, start, d)
    ensures RowsOf(rows, r.post) != [] ==>
              forall d :: CreditedOn(rows + [r], start, d)
                          == CreditedOn(rows, start, d) + RiseBy(RowsOf(rows, r.post), r, d)
    ensures LatestCapture(rows + [r]) == Later(LatestCapture(rows), r.captured)
  {
    var all := rows + [r];
    assert all[..|rows|] == rows;
    RowsOfContains(rows, r.post);
    var rs := RowsOf(rows, r.post);
    assert (rs + [r])[..|rs|] == rs;
    forall d
      ensures CreditedOn(all, start, d) == CreditedOn(rows, start, d)
              + PostCredit(rs + [r], start, d) - PostCredit(rs, start, d)
    {
      var f, g := p => PostCredit(RowsOf(rows, p), start, d), p => PostCredit(RowsOf(all, p), start, d);
      forall q ensures g(q) == if q == r.post then PostCredit(rs + [r], start, d) else f(q) {
        OneMoreRow(rows, r, q);
      }
      SumOverPostsGrows(rows, r, f, g);
    }
  }

  /** Row `i` of an ordered list, seen from the loop. */
  lemma RowArrives(rows: seq<DailyValue>, i: nat)
    requires Ordered(rows) && i < |rows|
    ensures var before, r := rows[..i], rows[i];
            var group := RowsOf(before, r.post);
            && RowsOf(rows[..i + 1], r.post) == group + [r]
            && HighWater(group + [r]) ==
               (if group == [] || r.value > HighWater(group) then r.value else HighWater(group))
            && (i == 0 || r.post != rows[i - 1].post ==> group == [])
            && LatestCapture(rows[..i + 1]) == Later(LatestCapture(before), r.captured)
  {
    var before, r := rows[..i], rows[i];
    var group := RowsOf(before, r.post);
    assert rows[..i + 1] == before + [r];
    assert (group + [r])[..|group|] == group && (before + [r])[..|before|] == before;
    GroupsAreContiguous(rows, i);
  }

  /** What row `i` adds to the credits of the rows before it. */
  lemma CreditsGrow(before: map<Day, real>, after: map<Day, real>, rows: seq<DailyValue>, i: nat, start: Day, end: Day)
    requires i < |rows| && Credits(before, rows[..i], start, end)
    requires forall d | d in after :: start <= d <= end
    requires var group := RowsOf(rows[..i], rows[i].post);
             forall d :: At(after, d) == At(before, d) + (if group == [] then FirstCredit(rows[i], start, d)
                                                          else RiseBy(group, rows[i], d))
    ensures Credits(after, rows[..i + 1], start, end)
  {
    assert rows[..i + 1] == rows[..i] + [rows[i]];
    NextRow(rows[..i], rows[i], start);
  }

  // ---------------------------------------------------------------------
  // Conservation
  // ---------------------------------------------------------------------

  /** The rows of one post, in date order, inside the window. */
  ghost predicate OnePost(rs: seq<DailyValue>, start: Day) {
    && (forall i, j | 0 <= i < j < |rs| :: rs[i].day < rs[j].day)
    && (forall r | r in rs :: start <= r.day)
  }

  lemma {:induction false} NothingAfterTheLastSnapshot(rs: seq<DailyValue>, start: Day, d: Day)
    requires rs != [] && OnePost(rs, start) && rs[|rs| - 1].day < d
    ensures PostCredit(rs, start, d) == 0.0
  {
    var n := |rs| - 1;
    if n > 0 {
      NothingAfterTheLastSnapshot(rs[..n], start, d);
    }
  }

  lemma {:induction false} NothingOutsideTheWindow(rs: seq<DailyValue>, start: Day, d: Day)
    requires OnePost(rs, start) && d < start
    ensures PostCredit(rs, start, d) == 0.0
  {
    if |rs| > 1 {
      NothingOutsideTheWindow(rs[..|rs| - 1], start, d);
    }
  }

  lemma SharesAddUp(v: real, n: real)
    requires n != 0.0
    ensures n * (v / n) == v
  {
  }

  lemma SpreadIsConserved(first: DailyValue, start: Day)
    requires first.published.Some? && start <= first.published.value <= first.day
    ensures Sum(start, first.day, d => FirstCredit(first, start, d)) == first.value
  {
    var f := d => FirstCredit(first, start, d);
    var pub := first.published.value;
    var n := (first.day - pub + 1) as real;
    SumSplits(start, pub - 1, first.day, f);
    SumConstant(start, pub - 1, f, 0.0);
    assert (pub - 1 - start + 1) as real * 0.0 == 0.0;
    var share := first.value / n;
    SumConstant(pub, first.day, f, share);
    SharesAddUp(first.value, n);
  }

  lemma {:induction false} FirstCreditIsConserved(first: DailyValue, start: Day)
    requires start <= first.day
    ensures Sum(start, first.day, d => FirstCredit(first, start, d)) == first.value - Anchor(first, start)
  {
    var f := d => FirstCredit(first, start, d);
    if first.published.None? || first.published.value > first.day {
      SumConstant(start, first.day - 1, f, 0.0);
    } else if PublishedBefore(first, start) {
      SumConstant(start, first.day, f, 0.0);
    } else {
      SpreadIsConserved(first, start);
    }
  }

  lemma CreditUpToTheLastSnapshot(rs: seq<DailyValue>, start: Day, hi: Day)
    requires rs != [] && OnePost(rs, start) && rs[|rs| - 1].day <= hi
    ensures CreditTo(rs, start, hi) == CreditTo(rs, start, rs[|rs| - 1].day)
  {
    var f := d => PostCredit(rs, start, d);
    var last := rs[|rs| - 1].day;
    forall d | last < d ensures f(d) == 0.0 {
      NothingAfterTheLastSnapshot(rs, start, d);
    }
    SumSplits(start, last, hi, f);
    SumConstant(last + 1, hi, f, 0.0);
  }

  /** Before the day of the last snapshot, the others decide. */
  lemma CreditBeforeTheLastSnapshot(rs: seq<DailyValue>, init: seq<DailyValue>, start: Day, hi: Day)
    requires |rs| > 1 && init == rs[..|rs| - 1] && OnePost(rs, start) && hi < rs[|rs| - 1].day
    ensures CreditTo(rs, start, hi) == CreditTo(init, start, hi)
  {
    SumCongruence(start, hi, d => PostCredit(rs, start, d), d => PostCredit(init, start, d));
  }

  /** On the day of the last snapshot the mark rises to it. */
  lemma {:induction false} CreditOfTheLastSnapshot(rs: seq<DailyValue>, init: seq<DailyValue>, start: Day)
    requires |rs| > 1 && init == rs[..|rs| - 1] && OnePost(rs, start)
    ensures CreditTo(rs, start, rs[|rs| - 1].day)
            == CreditTo(init, start, init[|init| - 1].day) + HighWater(rs) - HighWater(init)
  {
    var day := rs[|rs| - 1].day;
    CreditBeforeTheLastSnapshot(rs, init, start, day - 1);
    CreditUpToTheLastSnapshot(init, start, day - 1);
    NothingAfterTheLastSnapshot(init, start, day);
  }

  lemma {:induction false} CreditOfTheFirstSnapshot(rs: seq<DailyValue>, start: Day)
    requires |rs| == 1 && OnePost(rs, start)
    ensures CreditTo(rs, start, rs[0].day) == HighWater(rs) - Anchor(rs[0], start)
  {
    SumCongruence(start, rs[0].day, d => PostCredit(rs, start, d), d => FirstCredit(rs[0], start, d));
    FirstCreditIsConserved(rs[0], start);
  }

  lemma {:induction false} CreditIsTheHighWaterMark(rs: seq<DailyValue>, start: Day)
    requires rs != [] && OnePost(rs, start)
    ensures CreditTo(rs, start, rs[|rs| - 1].day) == HighWater(rs) - Anchor(rs[0], start)
  {
    if |rs| == 1 {
      CreditOfTheFirstSnapshot(rs, start);
    } else {
      var init := rs[..|rs| - 1];
      CreditIsTheHighWaterMark(init, start);
      CreditOfTheLastSnapshot(rs, init, start);
    }
  }

  /** Later snapshots do not change what was credited up to an earlier one. */
  lemma {:induction false} CreditIsSettled(rs: seq<DailyValue>, start: Day, k: nat)
    requires k < |rs| && OnePost(rs, start)
    ensures CreditTo(rs, start, rs[k].day) == CreditTo(rs[..k + 1], start, rs[k].day)
    decreases |rs|
  {
    if k + 1 == |rs| {
      assert rs[..k + 1] == rs;
    } else {
      var init := rs[..|rs| - 1];
      CreditBeforeTheLastSnapshot(rs, init, start, rs[k].day);
      CreditIsSettled(init, start, k);
      assert init[..k + 1] == rs[..k + 1];
    }
  }

  /** Up to every observed day, a post has been credited exactly its high-water mark,
      less whatever its first snapshot owed to days before the window. */
  lemma RunningCreditIsTheHighWaterMark(rs: seq<DailyValue>, start: Day, k: nat)
    requires k < |rs| && OnePost(rs, start)
    ensures CreditTo(rs, start, rs[k].day) == HighWater(rs[..k + 1]) - Anchor(rs[0], start)
  {
    CreditIsSettled(rs, start, k);
    CreditIsTheHighWaterMark(rs[..k + 1], start);
  }

  /** Over the whole window a post is credited its peak, less what predates the window. */
  lemma PostCreditIsConserved(rs: seq<DailyValue>, start: Day, end: Day)
    requires OnePost(rs, start) && forall r | r in rs :: r.day <= end
    ensures CreditTo(rs, start, end) == Earned(rs, start)
  {
    if rs == [] {
      if start <= end { SumConstant(start, end, d => PostCredit(rs, start, d), 0.0); }
    } else {
      CreditIsTheHighWaterMark(rs, start);
      CreditUpToTheLastSnapshot(rs, start, end);
    }
  }

  lemma {:induction false} RowsOfIsOnePost(rows: seq<DailyValue>, start: Day, end: Day, post: int)
    requires Ordered(rows) && InWindow(rows, start, end)
    ensures OnePost(RowsOf(rows, post), start)
    ensures forall r | r in RowsOf(rows, post) :: r.day <= end
  {
    if rows != [] {
      var n := |rows| - 1;
      RowsOfIsOnePost(rows[..n], start, end, post);
      RowsOfContains(rows[..n], post);
      var before := RowsOf(rows[..n], post);
      forall i | 0 <= i < |before| && rows[n].post == post ensures before[i].day < rows[n].day {
        assert before[i] in rows[..n];
      }
    }
  }

  lemma {:induction false} SumsExchange(posts: seq<int>, lo: Day, hi: Day, credit: (int, Day) -> real)
    ensures Sum(lo, hi, d => SumOverPosts(posts, p => credit(p, d)))
            == SumOverPosts(posts, p => Sum(lo, hi, d => credit(p, d)))
  {
    var total := d => SumOverPosts(posts, p => credit(p, d));
    if posts == [] {
      if lo <= hi { SumConstant(lo, hi, total, 0.0); }
    } else {
      var n := |posts| - 1;
      var init, last := posts[..n], posts[n];
      var restOn := d => SumOverPosts(init, p => credit(p, d));
      var lastOn := d => credit(last, d);
      SumsExchange(init, lo, hi, credit);
      SumAdds(lo, hi, restOn, lastOn, total);
    }
  }

  lemma {:induction false} SumOverPostsCongruence(posts: seq<int>, f: int -> real, g: int -> real)
    requires forall p | p in posts :: f(p) == g(p)
    ensures SumOverPosts(posts, f) == SumOverPosts(posts, g)
  {
    if posts != [] {
      var last := posts[|posts| - 1];
      assert last in posts && f(last) == g(last);
      SumOverPostsCongruence(posts[..|posts| - 1], f, g);
    }
  }

  /** The credits of all days add up to what the posts earned: no credit is lost or counted twice. */
  lemma {:induction false} AttributionIsConserved(rows: seq<DailyValue>, start: Day, end: Day)
    requires Ordered(rows) && InWindow(rows, start, end)
    ensures Sum(start, end, d => CreditedOn(rows, start, d)) == EarnedInAll(rows, start)
  {
    var credit := (p, d) => PostCredit(RowsOf(rows, p), start, d);
    var posts := Posts(rows);
    forall d ensures CreditedOn(rows, start, d) == SumOverPosts(posts, p => credit(p, d)) {
      SumOverPostsCongruence(posts, p => PostCredit(RowsOf(rows, p), start, d), p => credit(p, d));
    }
    SumCongruence(start, end, d => CreditedOn(rows, start, d), d => SumOverPosts(posts, p => credit(p, d)));
    SumsExchange(posts, start, end, credit);
    var byPost := p => Sum(start, end, d => credit(p, d));
    forall p ensures byPost(p) == Earned(RowsOf(rows, p), start) {
      RowsOfIsOnePost(rows, start, end, p);
      PostCreditIsConserved(RowsOf(rows, p), start, end);
      SumCongruence(start, end, d => credit(p, d), d => PostCredit(RowsOf(rows, p), start, d));
    }
    SumOverPostsCongruence(posts, byPost, p => Earned(RowsOf(rows, p), start));
  }
}
