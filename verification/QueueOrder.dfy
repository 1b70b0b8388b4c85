/** What the queue promises over whole runs: its numbered entries stand for a list of posts, and its slots follow
    that list. */
module QueueOrder {
  import opened Prelude
  import opened Posts
  import opened Slots
  import opened Queue

  /** The entries stand for the list of posts `xs`: it lists exactly the queued posts, and positions, which may
      have gaps, increase strictly along it. */
  ghost predicate StandsFor(entries: Entries, xs: seq<nat>) {
    && UniquePosts(entries)
    && (forall p :: p in xs <==> EntryOf(entries, p).Some?)
    && (forall i, j | 0 <= i < j < |xs| :: PositionOf(entries, xs[i]) < PositionOf(entries, xs[j]))
  }

  ghost function PositionOf(entries: Entries, p: nat): int {
    match EntryOf(entries, p)
    case Some(id) => entries[id].position
    case None => -1
  }

  function Without(xs: seq<nat>, p: nat): seq<nat> {
    if xs == [] then []
    else if xs[0] == p then Without(xs[1..], p)
    else [xs[0]] + Without(xs[1..], p)
  }

  lemma {:induction false} WithoutContains(xs: seq<nat>, p: nat)
    ensures forall q :: q in Without(xs, p) <==> q in xs && q != p
  {
    if xs != [] {
      WithoutContains(xs[1..], p);
    }
  }

  ghost predicate Sorted(entries: Entries, xs: seq<nat>) {
    forall i, j | 0 <= i < j < |xs| :: PositionOf(entries, xs[i]) < PositionOf(entries, xs[j])
  }

  lemma {:induction false} WithoutStaysSorted(entries: Entries, xs: seq<nat>, p: nat)
    requires Sorted(entries, xs)
    ensures Sorted(entries, Without(xs, p))
  {
    if xs != [] {
      var rest := Without(xs[1..], p);
      WithoutStaysSorted(entries, xs[1..], p);
      WithoutContains(xs[1..], p);
      forall j | 0 <= j < |rest| ensures PositionOf(entries, xs[0]) < PositionOf(entries, rest[j]) {
        assert rest[j] in rest;
        var k :| 0 <= k < |xs[1..]| && xs[1..][k] == rest[j];
        assert xs[k + 1] == rest[j];
      }
    }
  }

  lemma EntryOfIsTheEntry(entries: Entries, id: nat)
    requires UniquePosts(entries) && id in entries
    ensures EntryOf(entries, entries[id].post) == Some(id)
  {
  }

  lemma PositionsAreDistinct(entries: Entries, xs: seq<nat>)
    requires StandsFor(entries, xs)
    ensures DistinctPositions(entries)
  {
    forall a, b | a in entries && b in entries && entries[a].position == entries[b].position ensures a == b {
      EntryOfIsTheEntry(entries, a);
      EntryOfIsTheEntry(entries, b);
      var i :| 0 <= i < |xs| && xs[i] == entries[a].post;
      var j :| 0 <= j < |xs| && xs[j] == entries[b].post;
      assert PositionOf(entries, xs[i]) == PositionOf(entries, xs[j]);
    }
  }

  /** Positions and slots do not matter to whose entry an entry is. */
  lemma SameOwners(a: Entries, b: Entries)
    requires UniquePosts(a) && a.Keys == b.Keys && forall id | id in a :: a[id].post == b[id].post
    ensures UniquePosts(b) && forall p :: EntryOf(a, p) == EntryOf(b, p)
  {
    forall p ensures EntryOf(a, p) == EntryOf(b, p) {
      if id :| id in a && a[id].post == p {
        assert id in b;
      }
    }
  }

  // ---------------------------------------------------------------------
  // Each operation on the list
  // ---------------------------------------------------------------------

  lemma PlacedPositions(entries: Entries, post: nat, position: nat, newId: nat)
    requires UniquePosts(entries) && newId !in entries
    ensures UniquePosts(Placed(entries, post, position, newId))
    ensures PositionOf(Placed(entries, post, position, newId), post) == position
    ensures forall p | p != post ::
              && EntryOf(Placed(entries, post, position, newId), p) == EntryOf(entries, p)
              && PositionOf(Placed(entries, post, position, newId), p) == PositionOf(entries, p)
  {
    var after := Placed(entries, post, position, newId);
    var at := EntryOf(entries, post).Some?;
    var id := if at then EntryOf(entries, post).value else newId;
    assert after == entries[id := after[id]] && after[id].post == post;
    EntryOfIsTheEntry(after, id);
    forall p | p != post ensures EntryOf(after, p) == EntryOf(entries, p) {
      if q :| q in entries && entries[q].post == p {
        assert q in after && after[q] == entries[q];
      }
    }
  }

  lemma ShiftedPositions(entries: Entries, p: nat)
    requires UniquePosts(entries)
    ensures UniquePosts(ShiftedDown(entries)) && EntryOf(ShiftedDown(entries), p) == EntryOf(entries, p)
    ensures EntryOf(entries, p).Some? ==> PositionOf(ShiftedDown(entries), p) == PositionOf(entries, p) + 1
  {
    SameOwners(entries, ShiftedDown(entries));
  }

  /** A priority add takes the post out of the list, if it is there, and puts it first. */
  lemma {:induction false} PriorityAddPrepends(entries: Entries, xs: seq<nat>, post: nat, newId: nat)
    requires StandsFor(entries, xs) && newId !in entries
    ensures StandsFor(Placed(ShiftedDown(entries), post, 0, newId), [post] + Without(xs, post))
  {
    var shifted := ShiftedDown(entries);
    var after := Placed(shifted, post, 0, newId);
    SameOwners(entries, shifted);
    PlacedPositions(shifted, post, 0, newId);
    var rest := Without(xs, post);
    WithoutContains(xs, post);
    WithoutStaysSorted(entries, xs, post);
    forall p | p in rest
      ensures PositionOf(after, p) == PositionOf(entries, p) + 1 && PositionOf(after, p) > 0
    {
      ShiftedPositions(entries, p);
    }
  }

  /** An ordinary add takes the post out of the list, if it is there, and puts it last. */
  lemma {:induction false} OrdinaryAddAppends(entries: Entries, xs: seq<nat>, post: nat, newId: nat, m: nat)
    requires StandsFor(entries, xs) && newId !in entries && IsMaxPosition(entries, m)
    ensures StandsFor(Placed(entries, post, m + 1, newId), Without(xs, post) + [post])
  {
    var after, rest := Placed(entries, post, m + 1, newId), Without(xs, post);
    PlacedPositions(entries, post, m + 1, newId);
    WithoutStaysSorted(entries, xs, post);
    WithoutContains(xs, post);
    RestKeepsItsPlaces(entries, after, rest, m);
    SortedAppend(after, rest, post);
    AppendListsAll(entries, after, xs, rest, post);
  }

  lemma RestKeepsItsPlaces(entries: Entries, after: Entries, rest: seq<nat>, m: nat)
    requires IsMaxPosition(entries, m) && Sorted(entries, rest)
    requires forall p | p in rest :: EntryOf(entries, p).Some? && PositionOf(after, p) == PositionOf(entries, p)
    ensures Sorted(after, rest) && forall k | 0 <= k < |rest| :: PositionOf(after, rest[k]) <= m
  {
    forall k | 0 <= k < |rest| ensures PositionOf(after, rest[k]) == PositionOf(entries, rest[k]) <= m {
      assert rest[k] in rest;
    }
  }

  lemma AppendListsAll(entries: Entries, after: Entries, xs: seq<nat>, rest: seq<nat>, post: nat)
    requires StandsFor(entries, xs) && EntryOf(after, post).Some?
    requires forall q :: q in rest <==> q in xs && q != post
    requires forall p | p != post :: EntryOf(after, p) == EntryOf(entries, p)
    ensures forall p :: p in rest + [post] <==> EntryOf(after, p).Some?
  {
    forall p ensures p in rest + [post] <==> EntryOf(after, p).Some? {
      assert p in rest + [post] <==> p in rest || p == post;
    }
  }

  lemma SortedAppend(entries: Entries, xs: seq<nat>, p: nat)
    requires Sorted(entries, xs) && forall k | 0 <= k < |xs| :: PositionOf(entries, xs[k]) < PositionOf(entries, p)
    ensures Sorted(entries, xs + [p])
  {
  }

  lemma {:induction false} ReorderKeepsPosts(entries: Entries, ids: seq<nat>)
    ensures ReorderedTo(entries, ids).Keys == entries.Keys
    ensures forall id | id in entries :: ReorderedTo(entries, ids)[id].post == entries[id].post
  {
    if ids != [] {
      ReorderKeepsPosts(entries, ids[..|ids| - 1]);
    }
  }

  /** An entry that is not listed stays. */
  lemma {:induction false} UnlistedStays(entries: Entries, ids: seq<nat>, id: nat)
    requires id in entries && id !in ids
    ensures id in ReorderedTo(entries, ids) && ReorderedTo(entries, ids)[id] == entries[id]
  {
    if ids != [] {
      UnlistedStays(entries, ids[..|ids| - 1], id);
    }
  }

  /** A listed entry moves to the last index at which it is listed. */
  lemma {:induction false} ListedMoves(entries: Entries, ids: seq<nat>, id: nat, k: nat)
    requires id in entries && k < |ids| && ids[k] == id && id !in ids[k + 1..]
    ensures id in ReorderedTo(entries, ids) && ReorderedTo(entries, ids)[id] == entries[id].(position := k)
  {
    var n := |ids| - 1;
    ReorderKeepsPosts(entries, ids[..n]);
    if k == n {
      ReorderKeepsEntries(entries, ids[..n], id);
    } else {
      assert ids[k + 1..][..n - k - 1] == ids[..n][k + 1..] && ids[k + 1..][n - k - 1] == ids[n];
      ListedMoves(entries, ids[..n], id, k);
    }
  }

  lemma {:induction false} ReorderKeepsEntries(entries: Entries, ids: seq<nat>, id: nat)
    requires id in entries
    ensures id in ReorderedTo(entries, ids)
    ensures ReorderedTo(entries, ids)[id] == entries[id].(position := ReorderedTo(entries, ids)[id].position)
  {
    if ids != [] {
      ReorderKeepsEntries(entries, ids[..|ids| - 1], id);
    }
  }

  ghost predicate IsPermutation(entries: Entries, ids: seq<nat>) {
    && (forall id :: id in ids <==> id in entries)
    && (forall i, j | 0 <= i < j < |ids| :: ids[i] != ids[j])
  }

  function PostsAt(entries: Entries, ids: seq<nat>): seq<nat>
    requires forall id | id in ids :: id in entries
  {
    seq(|ids|, k requires 0 <= k < |ids| => entries[ids[k]].post)
  }

  /** Listed once, at index `k`, is to be the post of position `k`. */
  lemma {:induction false} PermutedEntry(entries: Entries, ids: seq<nat>, k: nat)
    requires UniquePosts(entries) && IsPermutation(entries, ids) && k < |ids|
    ensures ids[k] in entries
    ensures var p := entries[ids[k]].post;
            EntryOf(ReorderedTo(entries, ids), p) == Some(ids[k]) && PositionOf(ReorderedTo(entries, ids), p) == k
  {
    assert ids[k] in ids;
    ListedMoves(entries, ids, ids[k], k);
    ReorderKeepsPosts(entries, ids);
    SameOwners(entries, ReorderedTo(entries, ids));
    EntryOfIsTheEntry(ReorderedTo(entries, ids), ids[k]);
  }

  /** Reordering by a permutation of the entries yields exactly that order, whatever the positions were. */
  lemma {:induction false} PermutationOrders(entries: Entries, ids: seq<nat>)
    requires UniquePosts(entries) && IsPermutation(entries, ids)
    ensures StandsFor(ReorderedTo(entries, ids), PostsAt(entries, ids))
  {
    var after, xs := ReorderedTo(entries, ids), PostsAt(entries, ids);
    ReorderKeepsPosts(entries, ids);
    SameOwners(entries, after);
    forall k | 0 <= k < |ids| ensures EntryOf(after, xs[k]) == Some(ids[k]) && PositionOf(after, xs[k]) == k {
      PermutedEntry(entries, ids, k);
    }
    PermutationListsAll(entries, ids, after);
  }

  lemma PermutationListsAll(entries: Entries, ids: seq<nat>, after: Entries)
    requires IsPermutation(entries, ids) && after.Keys == entries.Keys
    requires forall id | id in entries :: after[id].post == entries[id].post
    ensures forall p | EntryOf(after, p).Some? :: p in PostsAt(entries, ids)
  {
    forall p | EntryOf(after, p).Some? ensures p in PostsAt(entries, ids) {
      var k :| 0 <= k < |ids| && ids[k] == EntryOf(after, p).value;
      assert PostsAt(entries, ids)[k] == p;
    }
  }

  /** An entry that the list leaves out sits where the list puts another entry. */
  ghost predicate Collides(entries: Entries, ids: seq<nat>, omitted: nat)
    requires omitted in entries
  {
    var k := entries[omitted].position;
    omitted !in ids && k < |ids| && ids[k] in entries && ids[k] !in ids[k + 1..]
  }

  lemma LastIndex(ids: seq<nat>, id: nat) returns (k: nat)
    requires id in ids
    ensures k < |ids| && ids[k] == id && id !in ids[k + 1..]
    decreases |ids|
  {
    var n := |ids| - 1;
    if ids[n] == id {
      k := n;
    } else {
      assert id in ids[..n];
      k := LastIndex(ids[..n], id);
      assert ids[k + 1..] == ids[..n][k + 1..] + [ids[n]];
    }
  }

  /** Any other list of ids keeps positions distinct if and only if no omitted entry is collided with. */
  lemma {:induction false} ReorderKeepsPositionsDistinctIff(entries: Entries, ids: seq<nat>)
    requires DistinctPositions(entries)
    ensures DistinctPositions(ReorderedTo(entries, ids)) <==> forall id | id in entries :: !Collides(entries, ids, id)
  {
    var after := ReorderedTo(entries, ids);
    ReorderKeepsPosts(entries, ids);
    forall id | id in entries && Collides(entries, ids, id) ensures !DistinctPositions(after) {
      var k := entries[id].position;
      UnlistedStays(entries, ids, id);
      ListedMoves(entries, ids, ids[k], k);
      assert ids[k] in ids && after[id].position == after[ids[k]].position;
    }
    if forall id | id in entries :: !Collides(entries, ids, id) {
      forall a, b | a in after && b in after && after[a].position == after[b].position ensures a == b {
        assert !Collides(entries, ids, a) && !Collides(entries, ids, b);
        var k := NewPosition(entries, ids, a);
        var l := NewPosition(entries, ids, b);
      }
    }
  }

  /** Where an entry is after reordering: at its last index in the list, or where it was. */
  lemma NewPosition(entries: Entries, ids: seq<nat>, id: nat) returns (k: nat)
    requires id in entries
    ensures id in ReorderedTo(entries, ids) && ReorderedTo(entries, ids)[id].position == k
    ensures id in ids ==> k < |ids| && ids[k] == id && id !in ids[k + 1..]
    ensures id !in ids ==> k == entries[id].position
  {
    if id in ids {
      k := LastIndex(ids, id);
      ListedMoves(entries, ids, id, k);
    } else {
      k := entries[id].position;
      UnlistedStays(entries, ids, id);
    }
  }

  // ---------------------------------------------------------------------
  // Entries with distinct positions stand for exactly one list
  // ---------------------------------------------------------------------

  function PositionsAt(entries: Entries, order: seq<nat>): seq<int>
    requires forall id | id in order :: id in entries
  {
    seq(|order|, k requires 0 <= k < |order| => entries[order[k]].position)
  }

  lemma IncreasingListsAgree(p: seq<int>, q: seq<int>)
    requires Increasing(p) && Increasing(q) && forall t :: t in p <==> t in q
    ensures p == q
  {
    SublistIsShorter(p, q);
    SublistIsShorter(q, p);
    forall k | 0 <= k < |p| ensures p[k] == q[k] {
      SameRank(p, q, k);
      SameRank(q, p, k);
    }
  }

  lemma SameRank(p: seq<int>, q: seq<int>, k: nat)
    requires Increasing(p) && Increasing(q) && |p| == |q| && k < |p|
    requires forall t | t in p :: t in q
    ensures q[k] <= p[k]
  {
    assert p[k] in p;
    var j :| 0 <= j < |q| && q[j] == p[k];
    var pk, qj := p[..k + 1], q[..j + 1];
    forall t | t in pk ensures t in qj {
      assert t in p;
      var l :| 0 <= l < |q| && q[l] == t;
      assert t <= q[j];
      assert qj[l] == t;
    }
    SublistIsShorter(pk, qj);
  }

  lemma PositionsIncrease(entries: Entries, order: seq<nat>)
    requires ListedByPosition(entries, order) && DistinctPositions(entries)
    ensures Increasing(PositionsAt(entries, order))
    ensures forall t :: t in PositionsAt(entries, order) <==> exists id :: id in entries && entries[id].position == t
  {
    var ps := PositionsAt(entries, order);
    forall i, j | 0 <= i < j < |ps| ensures ps[i] < ps[j] {
      assert order[i] in order && order[j] in order && order[i] != order[j];
    }
    forall id | id in entries ensures entries[id].position in ps {
      var k :| 0 <= k < |order| && order[k] == id;
      assert ps[k] == entries[id].position;
    }
    forall t | t in ps ensures exists id :: id in entries && entries[id].position == t {
      var k :| 0 <= k < |ps| && ps[k] == t;
      assert order[k] in order && entries[order[k]].position == t;
    }
  }

  /** With distinct positions the order of the query is determined. */
  lemma OrderIsUnique(entries: Entries, r: seq<nat>, q: seq<nat>)
    requires ListedByPosition(entries, r) && ListedByPosition(entries, q) && DistinctPositions(entries)
    ensures r == q
  {
    PositionsIncrease(entries, r);
    PositionsIncrease(entries, q);
    IncreasingListsAgree(PositionsAt(entries, r), PositionsAt(entries, q));
    forall k | 0 <= k < |r| ensures r[k] == q[k] {
      assert PositionsAt(entries, r)[k] == PositionsAt(entries, q)[k];
      assert r[k] in r && q[k] in q;
    }
  }

  lemma {:induction false} SomeOrder(entries: Entries) returns (order: seq<nat>)
    ensures ListedByPosition(entries, order)
    decreases |entries|
  {
    if entries == map[] {
      order := [];
    } else {
      FirstExists(entries, entries.Keys);
      var first :| first in entries && forall id | id in entries :: entries[first].position <= entries[id].position;
      var rest := SomeOrder(entries - {first});
      FirstComesFirst(entries, first, rest);
      order := [first] + rest;
    }
  }

  lemma FirstComesFirst(entries: Entries, first: nat, rest: seq<nat>)
    requires first in entries && forall id | id in entries :: entries[first].position <= entries[id].position
    requires ListedByPosition(entries - {first}, rest)
    ensures ListedByPosition(entries, [first] + rest)
  {
    var order := [first] + rest;
    forall i, j | 0 <= i < j < |order|
      ensures order[i] in entries && order[j] in entries
      ensures order[i] != order[j] && entries[order[i]].position <= entries[order[j]].position
    {
      assert rest[j - 1] in rest;
      if i > 0 {
        assert rest[i - 1] in rest && rest[i - 1] != rest[j - 1];
      }
    }
  }

  lemma PostsOfTheOrder(entries: Entries, order: seq<nat>)
    requires UniquePosts(entries) && ListedByPosition(entries, order)
    ensures forall p :: p in PostsAt(entries, order) <==> EntryOf(entries, p).Some?
  {
    var xs := PostsAt(entries, order);
    forall p | EntryOf(entries, p).Some? ensures p in xs {
      var k :| 0 <= k < |order| && order[k] == EntryOf(entries, p).value;
      assert xs[k] == p;
    }
    forall p | p in xs ensures EntryOf(entries, p).Some? {
      var k :| 0 <= k < |xs| && xs[k] == p;
      assert order[k] in order;
    }
  }

  lemma OrderStandsForPosts(entries: Entries, order: seq<nat>)
    requires UniquePosts(entries) && DistinctPositions(entries) && ListedByPosition(entries, order)
    ensures StandsFor(entries, PostsAt(entries, order))
  {
    var xs := PostsAt(entries, order);
    PositionsIncrease(entries, order);
    forall k | 0 <= k < |order| ensures PositionOf(entries, xs[k]) == PositionsAt(entries, order)[k] {
      assert order[k] in order;
      EntryOfIsTheEntry(entries, order[k]);
    }
    PostsOfTheOrder(entries, order);
  }

  /** Two lists that the same entries stand for are one list. */
  lemma StandsForIsUnique(entries: Entries, xs: seq<nat>, ys: seq<nat>)
    requires StandsFor(entries, xs) && StandsFor(entries, ys)
    ensures xs == ys
  {
    var p := seq(|xs|, k requires 0 <= k < |xs| => PositionOf(entries, xs[k]));
    var q := seq(|ys|, k requires 0 <= k < |ys| => PositionOf(entries, ys[k]));
    forall t | t in p ensures t in q {
      var k :| 0 <= k < |p| && p[k] == t;
      assert xs[k] in xs && xs[k] in ys;
      var l :| 0 <= l < |ys| && ys[l] == xs[k];
      assert q[l] == t;
    }
    forall t | t in q ensures t in p {
      var k :| 0 <= k < |q| && q[k] == t;
      assert ys[k] in ys && ys[k] in xs;
      var l :| 0 <= l < |xs| && xs[l] == ys[k];
      assert p[l] == t;
    }
    IncreasingListsAgree(p, q);
    PositionsAreDistinct(entries, xs);
    forall k | 0 <= k < |xs| ensures xs[k] == ys[k] {
      assert p[k] == q[k] && xs[k] in xs && ys[k] in ys;
      SamePositionSamePost(entries, xs[k], ys[k]);
    }
  }

  lemma SamePositionSamePost(entries: Entries, p: nat, q: nat)
    requires DistinctPositions(entries) && EntryOf(entries, p).Some? && EntryOf(entries, q).Some?
    requires PositionOf(entries, p) == PositionOf(entries, q)
    ensures p == q
  {
    assert EntryOf(entries, p).value == EntryOf(entries, q).value;
  }

  /** The list that the entries stand for. */
  ghost function ListOf(entries: Entries): (xs: seq<nat>)
    requires UniquePosts(entries) && DistinctPositions(entries)
    ensures StandsFor(entries, xs)
  {
    SomeListExists(entries);
    var xs :| StandsFor(entries, xs);
    xs
  }

  lemma SomeListExists(entries: Entries)
    requires UniquePosts(entries) && DistinctPositions(entries)
    ensures exists xs :: StandsFor(entries, xs)
  {
    var order := SomeOrder(entries);
    OrderStandsForPosts(entries, order);
  }

  lemma SlotsKeepTheList(entries: Entries, order: seq<nat>, times: seq<int>, xs: seq<nat>)
    requires ListedByPosition(entries, order) && StandsFor(entries, xs)
    ensures StandsFor(WithSlots(entries, order, times), xs)
  {
    SameOwners(entries, WithSlots(entries, order, times));
  }

  // ---------------------------------------------------------------------
  // Whole runs
  // ---------------------------------------------------------------------

  datatype Op =
    | Add(post: nat, priority: bool, newId: nat, now: int)
    | Reorder(ids: seq<nat>, now: int)

  /** The id of a created entry is new. A reorder may list any ids, as long as no entry that it leaves out is
      collided with. */
  ghost predicate Permitted(before: Entries, op: Op) {
    match op
    case Add(_, _, newId, _) => newId !in before
    case Reorder(ids, _) => forall id | id in before :: !Collides(before, ids, id)
  }

  /** What an operation makes of the entries before the slots are assigned. */
  ghost function PlacedBy(before: Entries, op: Op): Entries {
    match op
    case Add(post, priority, newId, _) => Added(before, post, priority, newId)
    case Reorder(ids, _) => ReorderedTo(before, ids)
  }

  ghost predicate Step(slots: seq<Slot>, before: Entries, op: Op, after: Entries) {
    Permitted(before, op)
    && exists order, times :: IsAssigned(PlacedBy(before, op), order, times, slots, op.now, after)
  }

  /** The operation has a meaning for lists. */
  ghost predicate Meaningful(before: Entries, op: Op) {
    op.Reorder? ==> UniquePosts(ReorderedTo(before, op.ids)) && DistinctPositions(ReorderedTo(before, op.ids))
  }

  /** What the operation means for the list of posts. */
  ghost function Meant(before: Entries, xs: seq<nat>, op: Op): seq<nat> {
    match op
    case Add(post, true, _, _) => [post] + Without(xs, post)
    case Add(post, false, _, _) => Without(xs, post) + [post]
    case Reorder(ids, _) => if Meaningful(before, op) then ListOf(ReorderedTo(before, ids)) else xs
  }

  lemma {:induction false} ReorderIsUnique(entries: Entries, ids: seq<nat>)
    requires UniquePosts(entries)
    ensures UniquePosts(ReorderedTo(entries, ids))
  {
    ReorderKeepsPosts(entries, ids);
    SameOwners(entries, ReorderedTo(entries, ids));
  }

  /** A permutation means its own order. */
  lemma PermutationsMeanTheirOrder(before: Entries, xs: seq<nat>, ids: seq<nat>, now: int)
    requires UniquePosts(before) && IsPermutation(before, ids)
    ensures Meaningful(before, Reorder(ids, now))
    ensures Meant(before, xs, Reorder(ids, now)) == PostsAt(before, ids)
  {
    PermutationOrders(before, ids);
    PositionsAreDistinct(ReorderedTo(before, ids), PostsAt(before, ids));
    ReorderIsUnique(before, ids);
    StandsForIsUnique(ReorderedTo(before, ids), ListOf(ReorderedTo(before, ids)), PostsAt(before, ids));
  }

  /** The last index at which `id` is listed, or -1. */
  function LastIndexOf(ids: seq<nat>, id: nat): int {
    if ids == [] then -1
    else if ids[|ids| - 1] == id then |ids| - 1
    else LastIndexOf(ids[..|ids| - 1], id)
  }

  ghost predicate IsListed(entries: Entries, ids: seq<nat>, p: nat) {
    EntryOf(entries, p).Some? && EntryOf(entries, p).value in ids
  }

  /** Where a reorder sends a post: to its last index in the list, or nowhere else than it is. */
  ghost function Target(entries: Entries, ids: seq<nat>, p: nat): int {
    if IsListed(entries, ids, p) then LastIndexOf(ids, EntryOf(entries, p).value) else PositionOf(entries, p)
  }

  lemma {:induction false} LastIndexIsLast(ids: seq<nat>, id: nat, k: nat)
    requires k < |ids| && ids[k] == id && id !in ids[k + 1..]
    ensures LastIndexOf(ids, id) == k
  {
    var n := |ids| - 1;
    if k < n {
      assert ids[k + 1..][n - k - 1] == ids[n];
      assert ids[k + 1..][..n - k - 1] == ids[..n][k + 1..];
      LastIndexIsLast(ids[..n], id, k);
    }
  }

  lemma {:induction false} ReorderedPosition(entries: Entries, ids: seq<nat>, p: nat)
    requires UniquePosts(entries)
    ensures EntryOf(ReorderedTo(entries, ids), p) == EntryOf(entries, p)
    ensures EntryOf(entries, p).Some? ==> PositionOf(ReorderedTo(entries, ids), p) == Target(entries, ids, p)
  {
    ReorderKeepsPosts(entries, ids);
    SameOwners(entries, ReorderedTo(entries, ids));
    if EntryOf(entries, p).Some? {
      var id := EntryOf(entries, p).value;
      var k := NewPosition(entries, ids, id);
      if id in ids {
        LastIndexIsLast(ids, id, k);
      }
    }
  }

  /** What any permitted reorder means: the same posts, the listed ones ordered by their last indices, the others by
      where they were, so that these keep their order among themselves. */
  lemma ReordersMeanTheirTargets(before: Entries, xs: seq<nat>, ids: seq<nat>, now: int)
    requires StandsFor(before, xs) && Permitted(before, Reorder(ids, now))
    ensures var ys := Meant(before, xs, Reorder(ids, now));
            && (forall p :: p in ys <==> p in xs)
            && (forall i, j | 0 <= i < j < |ys| :: Target(before, ids, ys[i]) < Target(before, ids, ys[j]))
            && (forall i, j | 0 <= i < j < |ys| && !IsListed(before, ids, ys[i]) && !IsListed(before, ids, ys[j]) ::
                  exists a, b :: 0 <= a < b < |xs| && xs[a] == ys[i] && xs[b] == ys[j])
  {
    PlacesWhatIsMeant(before, xs, Reorder(ids, now));
    var ys, after := Meant(before, xs, Reorder(ids, now)), ReorderedTo(before, ids);
    forall p ensures EntryOf(after, p) == EntryOf(before, p) {
      ReorderedPosition(before, ids, p);
    }
    forall i | 0 <= i < |ys| ensures PositionOf(after, ys[i]) == Target(before, ids, ys[i]) {
      assert ys[i] in ys;
      ReorderedPosition(before, ids, ys[i]);
    }
    forall i, j | 0 <= i < j < |ys| && !IsListed(before, ids, ys[i]) && !IsListed(before, ids, ys[j])
      ensures exists a, b :: 0 <= a < b < |xs| && xs[a] == ys[i] && xs[b] == ys[j]
    {
      assert ys[i] in ys && ys[j] in ys;
      PrecedesIn(before, xs, ys[i], ys[j]);
    }
  }

  lemma PrecedesIn(entries: Entries, xs: seq<nat>, p: nat, q: nat)
    requires StandsFor(entries, xs) && p in xs && q in xs && PositionOf(entries, p) < PositionOf(entries, q)
    ensures exists a, b :: 0 <= a < b < |xs| && xs[a] == p && xs[b] == q
  {
    var a :| 0 <= a < |xs| && xs[a] == p;
    var b :| 0 <= b < |xs| && xs[b] == q;
  }

  lemma ReorderIsMeaningful(before: Entries, xs: seq<nat>, op: Op)
    requires StandsFor(before, xs) && op.Reorder? && Permitted(before, op)
    ensures Meaningful(before, op)
  {
    PositionsAreDistinct(before, xs);
    ReorderKeepsPositionsDistinctIff(before, op.ids);
    ReorderIsUnique(before, op.ids);
  }

  lemma PlacesWhatIsMeant(before: Entries, xs: seq<nat>, op: Op)
    requires StandsFor(before, xs) && Permitted(before, op)
    ensures Meaningful(before, op) && StandsFor(PlacedBy(before, op), Meant(before, xs, op))
  {
    match op
    case Add(post, true, newId, _) => PriorityAddPrepends(before, xs, post, newId);
    case Add(post, false, newId, _) =>
      MaxExists(before);
      OrdinaryAddAppends(before, xs, post, newId, MaxOf(before));
    case Reorder(_, _) => ReorderIsMeaningful(before, xs, op);
  }

  lemma StepRefines(slots: seq<Slot>, before: Entries, xs: seq<nat>, op: Op, after: Entries)
    requires StandsFor(before, xs) && Step(slots, before, op, after)
    ensures Meaningful(before, op) && StandsFor(after, Meant(before, xs, op))
  {
    var order, times :| IsAssigned(PlacedBy(before, op), order, times, slots, op.now, after);
    PlacesWhatIsMeant(before, xs, op);
    SlotsKeepTheList(PlacedBy(before, op), order, times, Meant(before, xs, op));
  }

  ghost predicate StepAt(slots: seq<Slot>, states: seq<Entries>, ops: seq<Op>, i: nat)
    requires i < |ops| < |states|
  {
    Step(slots, states[i], ops[i], states[i + 1])
  }

  ghost predicate IsRun(slots: seq<Slot>, states: seq<Entries>, ops: seq<Op>) {
    |states| == |ops| + 1 && forall i | 0 <= i < |ops| :: StepAt(slots, states, ops, i)
  }

  /** The list after the first `n` operations. */
  ghost function ListAfter(states: seq<Entries>, ops: seq<Op>, xs: seq<nat>, n: nat): seq<nat>
    requires n <= |ops| && n < |states|
  {
    if n == 0 then xs else Meant(states[n - 1], ListAfter(states, ops, xs, n - 1), ops[n - 1])
  }

  /** What every step keeps holds after `n` steps. */
  lemma {:induction false} StepsKeep(holds: (Entries, seq<nat>) -> bool, states: seq<Entries>, ops: seq<Op>,
                                     xs: seq<nat>, n: nat)
    requires n <= |ops| < |states| && holds(states[0], xs)
    requires forall i, ys | 0 <= i < |ops| && holds(states[i], ys) :: holds(states[i + 1], Meant(states[i], ys, ops[i]))
    ensures holds(states[n], ListAfter(states, ops, xs, n))
  {
    if n > 0 {
      StepsKeep(holds, states, ops, xs, n - 1);
      var before, ys := n - 1, ListAfter(states, ops, xs, n - 1);
      assert holds(states[before], ys);
    }
  }

  /** Over every run of adds and reorders without a collision the entries stand for the list that the operations
      mean. */
  lemma {:induction false} RunsRefineTheList(slots: seq<Slot>, states: seq<Entries>, ops: seq<Op>, xs: seq<nat>, n: nat)
    requires IsRun(slots, states, ops) && n <= |ops| && StandsFor(states[0], xs)
    ensures StandsFor(states[n], ListAfter(states, ops, xs, n))
  {
    var holds := (entries, ys) => StandsFor(entries, ys);
    forall i, ys | 0 <= i < |ops| && holds(states[i], ys) ensures holds(states[i + 1], Meant(states[i], ys, ops[i])) {
      assert StepAt(slots, states, ops, i);
      StepRefines(slots, states[i], ys, ops[i], states[i + 1]);
    }
    StepsKeep(holds, states, ops, xs, n);
  }

  /** So positions stay distinct. */
  lemma RunsKeepPositionsDistinct(slots: seq<Slot>, states: seq<Entries>, ops: seq<Op>, xs: seq<nat>, n: nat)
    requires IsRun(slots, states, ops) && n <= |ops| && StandsFor(states[0], xs)
    ensures DistinctPositions(states[n])
  {
    RunsRefineTheList(slots, states, ops, xs, n);
    PositionsAreDistinct(states[n], ListAfter(states, ops, xs, n));
  }

  // ---------------------------------------------------------------------
  // The slots follow the list
  // ---------------------------------------------------------------------

  lemma IndexOf(entries: Entries, order: seq<nat>, times: seq<int>, id: nat) returns (k: nat)
    requires ListedByPosition(entries, order) && id in entries
    ensures k < |order| && order[k] == id && WithSlots(entries, order, times)[id].slot == TimeAt(times, k)
  {
    k :| k < |order| && order[k] == id;
    SlotAt(entries, order, times, k);
  }

  /** Slots increase with positions, no two entries share one, and the entries without one come last. */
  lemma SlotsFollowPositions(entries: Entries, order: seq<nat>, times: seq<int>, slots: seq<Slot>, now: int,
                             after: Entries, a: nat, b: nat)
    requires IsAssigned(entries, order, times, slots, now, after) && a in after && b in after && a != b
    requires DistinctPositions(entries)
    ensures after[a].position < after[b].position && after[b].slot.Some? ==>
              after[a].slot.Some? && after[a].slot.value < after[b].slot.value
    ensures after[a].slot.Some? ==> after[a].slot != after[b].slot && IsCandidate(slots, now, after[a].slot.value)
  {
    var i := IndexOf(entries, order, times, a);
    var j := IndexOf(entries, order, times, b);
    assert after[a].position < after[b].position ==> i < j by {
      assert j < i ==> entries[order[j]].position <= entries[order[i]].position;
    }
    if i < |times| {
      assert times[i] in times;
    }
  }

  /** An entry goes without a slot only when every slot within the horizon is taken. */
  lemma NoSlotIsLeftUnused(entries: Entries, order: seq<nat>, times: seq<int>, slots: seq<Slot>, now: int,
                           after: Entries, unassigned: nat, t: int)
    requires IsAssigned(entries, order, times, slots, now, after)
    requires unassigned in after && after[unassigned].slot.None? && IsCandidate(slots, now, t)
    ensures exists id | id in after :: after[id].slot == Some(t)
  {
    var k := IndexOf(entries, order, times, unassigned);
    assert t in times;
    var i :| 0 <= i < |times| && times[i] == t;
    SlotAt(entries, order, times, i);
    assert order[i] in order;
    assert after[order[i]].slot == Some(t);
  }

  /** Assigning again at a later time never moves an entry that has a slot both times to an earlier one. */
  lemma RerunNeverMovesEarlier(entries: Entries, slots: seq<Slot>, order: seq<nat>, times: seq<int>, now: int,
                               after: Entries,
                               order': seq<nat>, times': seq<int>, now': int, after': Entries, id: nat)
    requires DistinctPositions(entries) && now <= now'
    requires IsAssigned(entries, order, times, slots, now, after)
    requires IsAssigned(after, order', times', slots, now', after')
    requires id in entries && after[id].slot.Some? && after'[id].slot.Some?
    ensures after[id].slot.value <= after'[id].slot.value
  {
    OrderSurvives(entries, order, times, order');
    var k := IndexOf(entries, order, times, id);
    SlotAt(after, order', times', k);
    LaterStartLaterSlots(times, now, |order| + 10, times', now', |order'| + 10, slots, k);
  }

  /** Assigning slots does not change the order. */
  lemma OrderSurvives(entries: Entries, order: seq<nat>, times: seq<int>, order': seq<nat>)
    requires DistinctPositions(entries) && ListedByPosition(entries, order)
    requires ListedByPosition(WithSlots(entries, order, times), order')
    ensures order' == order
  {
    OrderIsUnique(entries, order, order');
  }

  // ---------------------------------------------------------------------
  // What the assignment writes to a post
  // ---------------------------------------------------------------------

  /** The child on the queue's account, the first if there were more. */
  ghost predicate IsChildOn(children: seq<Child>, account: int, i: nat) {
    && i < |children| && children[i].account == account
    && forall j | 0 <= j < i :: children[j].account != account
  }

  lemma {:induction false} OnlyTheAccountsChildMoves(children: seq<Child>, account: int, t: Option<int>, i: nat)
    requires i < |children|
    ensures |WithTime(children, account, t)| == |children|
    ensures WithTime(children, account, t)[i] ==
              if IsChildOn(children, account, i) then children[i].(scheduledAt := t) else children[i]
  {
    if children[0].account != account {
      if i > 0 {
        OnlyTheAccountsChildMoves(children[1..], account, t, i - 1);
        assert IsChildOn(children[1..], account, i - 1) <==> IsChildOn(children, account, i) by {
          assert forall j | 0 < j < |children| :: children[j] == children[1..][j - 1];
        }
      } else if |children| > 1 {
        OnlyTheAccountsChildMoves(children[1..], account, t, 0);
      }
    }
  }

  /** A queued post's child on the account has the slot of the entry, its other children are unchanged, and its own
      time is the earliest of its children. */
  lemma PostsFollowTheirEntries(posts: map<nat, Post>, entries: Entries, account: int, order: seq<nat>,
                                times: seq<int>, slots: seq<Slot>, now: int, after: Entries, id: nat, i: nat)
    requires UniquePosts(entries) && IsAssigned(entries, order, times, slots, now, after)
    requires id in after && after[id].post in posts && i < |posts[after[id].post].children|
    ensures var p := after[id].post;
            var p' := WithTimes(posts, entries, account, order, times)[p];
            && IsEarliest(p'.scheduledAt, p'.children) && |p'.children| == |posts[p].children|
            && p'.children[i] == if IsChildOn(posts[p].children, account, i)
                                 then posts[p].children[i].(scheduledAt := after[id].slot)
                                 else posts[p].children[i]
  {
    var p := after[id].post;
    EntryOfIsTheEntry(entries, id);
    var children := WithTime(posts[p].children, account, after[id].slot);
    SyncedToTheEarliest(children);
    OnlyTheAccountsChildMoves(posts[p].children, account, after[id].slot, i);
  }
}
