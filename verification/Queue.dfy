/** The publishing queue of one account (`apps/calendar/services.py`): position-numbered entries that stand for
    a list of posts, and the slots they are given. */
module Queue {
  import opened Prelude
  import opened PostStatus
  import opened Posts
  import opened Slots

  datatype Entry = Entry(post: nat, position: nat, slot: Option<int>)

  type Entries = map<nat, Entry>

  /** `unique_together = (queue, post)`. */
  ghost predicate UniquePosts(entries: Entries) {
    forall i, j | i in entries && j in entries && entries[i].post == entries[j].post :: i == j
  }

  ghost predicate DistinctPositions(entries: Entries) {
    forall i, j | i in entries && j in entries && entries[i].position == entries[j].position :: i == j
  }

  /** The entries in the order of `order_by("position")`; equal positions may come in any order. */
  ghost predicate ListedByPosition(entries: Entries, order: seq<nat>) {
    && (forall id :: id in order <==> id in entries)
    && (forall i, j | 0 <= i < j < |order| ::
          order[i] != order[j] && entries[order[i]].position <= entries[order[j]].position)
  }

  // ---------------------------------------------------------------------
  // What the operations do to the entries
  // ---------------------------------------------------------------------

  ghost function EntryOf(entries: Entries, post: nat): Option<nat> {
    if id :| id in entries && entries[id].post == post then Some(id) else None
  }

  /** `update_or_create(queue, post, defaults={"position": position})`; `newId` is the id of a created row. */
  ghost function Placed(entries: Entries, post: nat, position: nat, newId: nat): Entries {
    match EntryOf(entries, post)
    case Some(id) => entries[id := entries[id].(position := position)]
    case None => entries[newId := Entry(post, position, None)]
  }

  function ShiftedDown(entries: Entries): Entries {
    map id | id in entries :: entries[id].(position := entries[id].position + 1)
  }

  /** `Max("position")`, or 0 for an empty queue. */
  ghost predicate IsMaxPosition(entries: Entries, m: nat) {
    && (forall id | id in entries :: entries[id].position <= m)
    && (entries != map[] ==> exists id | id in entries :: entries[id].position == m)
    && (entries == map[] ==> m == 0)
  }

  ghost function MaxOf(entries: Entries): nat {
    if m: nat :| IsMaxPosition(entries, m) then m else 0
  }

  lemma MaxIsUnique(entries: Entries, m: nat)
    requires IsMaxPosition(entries, m)
    ensures MaxOf(entries) == m
  {
    var other: nat :| IsMaxPosition(entries, other) && MaxOf(entries) == other;
  }

  lemma MaxExists(entries: Entries)
    ensures IsMaxPosition(entries, MaxOf(entries))
  {
    if entries == map[] {
      MaxIsUnique(entries, 0);
    } else {
      var id := Highest(entries, entries.Keys);
      assert id in entries;
      MaxIsUnique(entries, entries[id].position);
    }
  }

  lemma Highest(entries: Entries, ids: set<nat>) returns (id: nat)
    requires ids != {} && ids <= entries.Keys
    ensures id in ids && forall other | other in ids :: entries[other].position <= entries[id].position
    decreases ids
  {
    var some :| some in ids;
    var rest := ids - {some};
    assert forall other | other in ids :: other == some || other in rest;
    id := some;
    if rest != {} {
      var high := Highest(entries, rest);
      if entries[some].position < entries[high].position {
        id := high;
      }
    }
  }

  /** The position of a listed id: the last index at which it is listed. */
  function ReorderedTo(entries: Entries, ids: seq<nat>): Entries {
    if ids == [] then entries
    else
      var n := |ids| - 1;
      var before := ReorderedTo(entries, ids[..n]);
      if ids[n] in before then before[ids[n] := before[ids[n]].(position := n)] else before
  }

  ghost function WithSlots(entries: Entries, order: seq<nat>, times: seq<int>): Entries
    requires ListedByPosition(entries, order)
  {
    map id | id in entries :: entries[id].(slot := SlotOf(order, times, id))
  }

  /** The slot of the `k`-th entry is the `k`-th time, or none if there are too few. */
  ghost function SlotOf(order: seq<nat>, times: seq<int>, id: nat): Option<int> {
    if k: nat :| k < |order| && order[k] == id then TimeAt(times, k) else None
  }

  lemma SlotAt(entries: Entries, order: seq<nat>, times: seq<int>, k: nat)
    requires ListedByPosition(entries, order) && k < |order|
    ensures SlotOf(order, times, order[k]) == TimeAt(times, k)
  {
  }

  function TimeAt(times: seq<int>, k: nat): Option<int> {
    if k < |times| then Some(times[k]) else None
  }

  /** `touched` lists the posts of the first `idx` entries of `order`. */
  ghost predicate AreOwners(entries: Entries, order: seq<nat>, touched: seq<nat>, idx: nat)
    requires idx <= |order| && forall id | id in order :: id in entries
  {
    |touched| == idx && forall k | 0 <= k < idx :: touched[k] == entries[order[k]].post
  }

  lemma NextOwner(entries: Entries, order: seq<nat>, touched: seq<nat>, idx: nat)
    requires UniquePosts(entries) && ListedByPosition(entries, order) && idx < |order|
    requires AreOwners(entries, order, touched, idx)
    ensures entries[order[idx]].post !in touched
    ensures AreOwners(entries, order, touched + [entries[order[idx]].post], idx + 1)
  {
    forall k | 0 <= k < idx ensures touched[k] != entries[order[idx]].post {
      assert order[idx] in order && order[k] in order;
    }
  }

  /** The first `idx` entries of `order` have their slots. */
  ghost predicate EntriesWritten(before: Entries, after: Entries, order: seq<nat>, times: seq<int>, idx: nat)
    requires idx <= |order|
  {
    && after.Keys == before.Keys && (forall id | id in order :: id in before)
    && (forall k | 0 <= k < |order| ::
          after[order[k]] == if k < idx then before[order[k]].(slot := TimeAt(times, k)) else before[order[k]])
  }

  lemma WriteEntry(before: Entries, after: Entries, order: seq<nat>, times: seq<int>, idx: nat)
    requires ListedByPosition(before, order) && idx < |order| && EntriesWritten(before, after, order, times, idx)
    ensures order[idx] in after && after[order[idx]] == before[order[idx]]
    ensures var next := after[order[idx] := after[order[idx]].(slot := TimeAt(times, idx))];
            EntriesWritten(before, next, order, times, idx + 1)
  {
    assert order[idx] in order;
    var next := after[order[idx] := after[order[idx]].(slot := TimeAt(times, idx))];
    forall k | 0 <= k < |order|
      ensures next[order[k]] == if k < idx + 1 then before[order[k]].(slot := TimeAt(times, k)) else before[order[k]]
    {
      assert k != idx ==> order[k] != order[idx];
    }
  }

  lemma SlotsWritten(before: Entries, after: Entries, order: seq<nat>, times: seq<int>)
    requires ListedByPosition(before, order) && EntriesWritten(before, after, order, times, |order|)
    ensures after == WithSlots(before, order, times)
  {
    forall id | id in after ensures after[id] == WithSlots(before, order, times)[id] {
      var k :| 0 <= k < |order| && order[k] == id;
      SlotAt(before, order, times, k);
    }
  }

  /** The posts `touched` have the times of their slots, and no other post has changed. */
  ghost predicate PostsWritten(before: map<nat, Post>, after: map<nat, Post>, account: int, touched: seq<nat>,
                               times: seq<int>) {
    && after.Keys == before.Keys && (forall p | p in touched :: p in before)
    && (forall k | 0 <= k < |touched| :: after[touched[k]] == Timed(before[touched[k]], account, TimeAt(times, k)))
    && (forall p | p in after && p !in touched :: after[p] == before[p])
  }

  lemma WritePost(before: map<nat, Post>, after: map<nat, Post>, account: int, touched: seq<nat>, times: seq<int>,
                  p: nat)
    requires PostsWritten(before, after, account, touched, times) && p in after && p !in touched
    ensures var next := after[p := Timed(after[p], account, TimeAt(times, |touched|))];
            PostsWritten(before, next, account, touched + [p], times)
  {
    var next := after[p := Timed(after[p], account, TimeAt(times, |touched|))];
    forall k | 0 <= k < |touched + [p]|
      ensures next[(touched + [p])[k]] == Timed(before[(touched + [p])[k]], account, TimeAt(times, k))
    {
      assert k < |touched| ==> touched[k] in touched;
    }
  }

  /** The time of the child on the queue's account; a post has one child for an account. */
  function WithTime(children: seq<Child>, account: int, t: Option<int>): seq<Child> {
    if children == [] then []
    else if children[0].account == account then [children[0].(scheduledAt := t)] + children[1..]
    else [children[0]] + WithTime(children[1..], account, t)
  }

  function Timed(p: Post, account: int, t: Option<int>): Post {
    p.(children := WithTime(p.children, account, t))
  }

  function Rescheduled(p: Post, account: int, t: Option<int>): Post {
    Synced(Timed(p, account, t))
  }

  ghost function WithTimes(posts: map<nat, Post>, entries: Entries, account: int, order: seq<nat>,
                           times: seq<int>): map<nat, Post> {
    map p | p in posts ::
      var id := EntryOf(entries, p);
      if id.Some? then Rescheduled(posts[p], account, SlotOf(order, times, id.value)) else posts[p]
  }

  /** The entries with one for `post` put first or last. */
  ghost function Added(entries: Entries, post: nat, priority: bool, newId: nat): Entries {
    if priority then Placed(ShiftedDown(entries), post, 0, newId)
    else Placed(entries, post, MaxOf(entries) + 1, newId)
  }

  /** `after` is `before` with the slots of `assign_queue_slots` at time `now`. */
  ghost predicate IsAssigned(before: Entries, order: seq<nat>, times: seq<int>, slots: seq<Slot>, now: int,
                             after: Entries) {
    && ListedByPosition(before, order)
    && (order != [] ==> AreTheFirst(times, slots, now, |order| + 10))
    && after == WithSlots(before, order, times)
  }

  // ---------------------------------------------------------------------
  // The operations
  // ---------------------------------------------------------------------

  class Tables {
    const account: int
    var entries: Entries
    var posts: map<nat, Post>

    ghost predicate Valid()
      reads this
    {
      UniquePosts(entries) && forall id | id in entries :: entries[id].post in posts
    }

    constructor (account: int, posts: map<nat, Post>)
      ensures Valid() && entries == map[] && this.posts == posts && this.account == account
    {
      this.account, this.posts, entries := account, posts, map[];
    }

    /** `queue.entries.order_by("position")`. */
    method EntriesByPosition() returns (order: seq<nat>)
      ensures ListedByPosition(entries, order)
    {
      order := [];
      var rest := entries.Keys;
      while rest != {}
        invariant rest <= entries.Keys
        invariant forall id :: id in order <==> id in entries && id !in rest
        invariant forall i, j | 0 <= i < j < |order| ::
                    order[i] != order[j] && entries[order[i]].position <= entries[order[j]].position
        invariant forall i, id | 0 <= i < |order| && id in rest :: entries[order[i]].position <= entries[id].position
        decreases rest
      {
        FirstExists(entries, rest);
        var first :| first in rest && forall id | id in rest :: entries[first].position <= entries[id].position;
        order, rest := order + [first], rest - {first};
      }
    }

    /** `assign_queue_slots`: the k-th entry gets the k-th slot, its post's child on this account gets the same
        time, and the post is synced. Returns what the two queries it makes gave. */
    method AssignQueueSlots(slots: seq<Slot>, now: int) returns (order: seq<nat>, times: seq<int>)
      requires Valid() && InOrder(slots)
      modifies this
      ensures Valid()
      ensures IsAssigned(old(entries), order, times, slots, now, entries)
      ensures posts == WithTimes(old(posts), old(entries), account, order, times)
    {
      order := EntriesByPosition();
      times := [];
      if order == [] {
        assert forall id :: id !in entries;
        assert posts == WithTimes(posts, entries, account, order, times);
        return;
      }
      times := NextSlotDatetimes(slots, now, |order| + 10);
      var touched := WriteSlots(order, times);
      SlotsWritten(old(entries), entries, order, times);
      SyncPosts(touched);
      TouchedPosts(old(posts), posts, old(entries), account, order, times, touched);
    }

    /** The first loop: write the slot to the entry, and to its post's child on this account. */
    method WriteSlots(order: seq<nat>, times: seq<int>) returns (touched: seq<nat>)
      requires Valid() && ListedByPosition(entries, order)
      modifies this
      ensures EntriesWritten(old(entries), entries, order, times, |order|)
      ensures AreOwners(old(entries), order, touched, |order|)
      ensures PostsWritten(old(posts), posts, account, touched, times)
    {
      touched := [];
      ghost var before, was := entries, posts;
      for idx := 0 to |order|
        invariant EntriesWritten(before, entries, order, times, idx)
        invariant AreOwners(before, order, touched, idx)
        invariant PostsWritten(was, posts, account, touched, times)
      {
        NextOwner(before, order, touched, idx);
        WriteEntry(before, entries, order, times, idx);
        WritePost(was, posts, account, touched, times, before[order[idx]].post);
        var p := WriteSlot(order[idx], if idx < |times| then Some(times[idx]) else None);
        touched := touched + [p];
      }
    }

    method WriteSlot(id: nat, slotDt: Option<int>) returns (p: nat)
      requires id in entries && entries[id].post in posts
      modifies this
      ensures p == old(entries)[id].post
      ensures entries == old(entries)[id := old(entries)[id].(slot := slotDt)]
      ensures posts == old(posts)[p := Timed(old(posts)[p], account, slotDt)]
    {
      p := entries[id].post;
      entries := entries[id := entries[id].(slot := slotDt)];
      posts := posts[p := Timed(posts[p], account, slotDt)];
    }

    /** The second loop: sync every touched post. */
    method SyncPosts(touched: seq<nat>)
      requires forall p | p in touched :: p in posts
      modifies this`posts
      ensures posts == map p | p in old(posts) :: if p in touched then Synced(old(posts)[p]) else old(posts)[p]
    {
      ghost var was := posts;
      for i := 0 to |touched|
        invariant posts == map p | p in was :: if p in touched[..i] then Synced(was[p]) else was[p]
      {
        assert touched[..i + 1] == touched[..i] + [touched[i]];
        posts := posts[touched[i] := Synced(posts[touched[i]])];
      }
      assert touched[..|touched|] == touched;
    }

    /** `add_to_queue`; `newId` is the id the database would give a new entry. */
    method AddToQueue(post: nat, priority: bool, newId: nat, slots: seq<Slot>, now: int)
      returns (order: seq<nat>, times: seq<int>)
      requires Valid() && post in posts && newId !in entries && InOrder(slots)
      modifies this
      ensures Valid()
      ensures var placed := Added(old(entries), post, priority, newId);
              && IsAssigned(placed, order, times, slots, now, entries)
              && posts == WithTimes(old(posts), placed, account, order, times)
    {
      Place(post, priority, newId);
      order, times := AssignQueueSlots(slots, now);
    }

    method Place(post: nat, priority: bool, newId: nat)
      requires Valid() && post in posts && newId !in entries
      modifies this`entries
      ensures Valid() && entries == Added(old(entries), post, priority, newId)
    {
      var position;
      if priority {
        entries := ShiftedDown(entries);
        position := 0;
      } else {
        var maxPos := MaxPosition();
        MaxIsUnique(entries, maxPos);
        position := maxPos + 1;
      }
      UpdateOrCreate(post, position, newId);
    }

    /** `reorder_queue`: ids that are not in this queue update nothing. */
    method ReorderQueue(ids: seq<nat>, slots: seq<Slot>, now: int) returns (order: seq<nat>, times: seq<int>)
      requires Valid() && InOrder(slots)
      modifies this
      ensures Valid()
      ensures IsAssigned(ReorderedTo(old(entries), ids), order, times, slots, now, entries)
      ensures posts == WithTimes(old(posts), ReorderedTo(old(entries), ids), account, order, times)
    {
      UpdatePositions(ids);
      order, times := AssignQueueSlots(slots, now);
    }

    /** The loop of `reorder_queue`. */
    method UpdatePositions(ids: seq<nat>)
      requires Valid()
      modifies this`entries
      ensures Valid() && entries == ReorderedTo(old(entries), ids)
    {
      ghost var before := entries;
      for idx := 0 to |ids|
        invariant Valid() && entries == ReorderedTo(before, ids[..idx])
      {
        assert ids[..idx + 1][..idx] == ids[..idx];
        if ids[idx] in entries {
          entries := entries[ids[idx] := entries[ids[idx]].(position := idx)];
        }
      }
      assert ids[..|ids|] == ids;
    }

    /** `update_or_create(queue, post, defaults={"position": position})`. */
    method UpdateOrCreate(post: nat, position: nat, newId: nat)
      requires Valid() && post in posts && newId !in entries
      modifies this`entries
      ensures Valid() && entries == Placed(old(entries), post, position, newId)
    {
      var found := FindEntry(post);
      if found.Some? {
        entries := entries[found.value := entries[found.value].(position := position)];
      } else {
        entries := entries[newId := Entry(post, position, None)];
      }
    }

    /** `aggregate(Max("position"))`, with 0 for an empty queue. */
    method MaxPosition() returns (m: nat)
      ensures IsMaxPosition(entries, m)
    {
      m := 0;
      var rest := entries.Keys;
      while rest != {}
        invariant rest <= entries.Keys
        invariant forall id | id in entries && id !in rest :: entries[id].position <= m
        invariant m == 0 || exists id | id in entries :: entries[id].position == m
        invariant m == 0 ==> forall id | id in entries && id !in rest :: entries[id].position == 0
        decreases rest
      {
        var id :| id in rest;
        rest := rest - {id};
        if entries[id].position > m {
          m := entries[id].position;
        }
      }
      if entries != map[] && m == 0 {
        var id :| id in entries;
        assert entries[id].position == 0;
      }
    }

    /** The lookup of `update_or_create`. */
    method FindEntry(post: nat) returns (found: Option<nat>)
      requires Valid()
      ensures found == EntryOf(entries, post)
    {
      found := None;
      var rest := entries.Keys;
      while rest != {}
        invariant rest <= entries.Keys
        invariant forall id | id in entries && id !in rest :: entries[id].post != post
        decreases rest
      {
        var id :| id in rest;
        if entries[id].post == post {
          return Some(id);
        }
        rest := rest - {id};
      }
    }
  }

  lemma TouchedPosts(before: map<nat, Post>, after: map<nat, Post>, entries: Entries, account: int, order: seq<nat>,
                     times: seq<int>, touched: seq<nat>)
    requires UniquePosts(entries) && ListedByPosition(entries, order) && AreOwners(entries, order, touched, |order|)
    requires after.Keys == before.Keys && forall k | 0 <= k < |touched| :: touched[k] in before
    requires forall k | 0 <= k < |touched| ::
               after[touched[k]] == Rescheduled(before[touched[k]], account, TimeAt(times, k))
    requires forall p | p in after && p !in touched :: after[p] == before[p]
    ensures after == WithTimes(before, entries, account, order, times)
  {
    TouchedHaveEntries(entries, order, touched);
    forall p | p in after ensures after[p] == WithTimes(before, entries, account, order, times)[p] {
      if p in touched {
        var k :| 0 <= k < |touched| && touched[k] == p;
        OwnersTime(before, entries, account, order, times, k);
      }
    }
  }

  lemma OwnersTime(posts: map<nat, Post>, entries: Entries, account: int, order: seq<nat>, times: seq<int>, k: nat)
    requires UniquePosts(entries) && ListedByPosition(entries, order) && k < |order|
    ensures order[k] in entries
    ensures var p := entries[order[k]].post;
            p in posts ==>
              WithTimes(posts, entries, account, order, times)[p] == Rescheduled(posts[p], account, TimeAt(times, k))
  {
    assert order[k] in order;
    SlotAt(entries, order, times, k);
    assert EntryOf(entries, entries[order[k]].post) == Some(order[k]);
  }

  lemma TouchedHaveEntries(entries: Entries, order: seq<nat>, touched: seq<nat>)
    requires UniquePosts(entries) && ListedByPosition(entries, order) && AreOwners(entries, order, touched, |order|)
    ensures forall p :: p in touched <==> EntryOf(entries, p).Some?
  {
    forall p | EntryOf(entries, p).Some? ensures p in touched {
      var id := EntryOf(entries, p).value;
      var i :| 0 <= i < |order| && order[i] == id;
      assert touched[i] == p;
    }
    forall p | p in touched ensures EntryOf(entries, p).Some? {
      var i :| 0 <= i < |order| && touched[i] == p;
      assert order[i] in entries;
    }
  }

  lemma {:induction false} FirstExists(entries: Entries, rest: set<nat>)
    requires rest != {} && rest <= entries.Keys
    ensures exists first | first in rest :: forall id | id in rest :: entries[first].position <= entries[id].position
    decreases rest
  {
    var x :| x in rest;
    if rest == {x} {
      assert forall id | id in rest :: entries[x].position <= entries[id].position;
    } else {
      FirstExists(entries, rest - {x});
      var y :| y in rest - {x} && forall id | id in rest - {x} :: entries[y].position <= entries[id].position;
      var z := if entries[x].position <= entries[y].position then x else y;
      assert z in rest && forall id | id in rest :: entries[z].position <= entries[id].position;
    }
  }
}
