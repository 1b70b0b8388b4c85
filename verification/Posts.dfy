/** Posts and their per-platform children (`apps/composer/models.py`), and the rule that keeps a post's time at
    its earliest child (`apps/composer/services.py`, `sync_post_scheduled_at`). Times count seconds. */
module Posts {
  import opened Prelude
  import opened PostStatus

  /** A `PlatformPost`; `overrides` stands for its caption, comment and media overrides. */
  datatype Child = Child(account: int, overrides: string, scheduledAt: Option<int>, status: Status)

  /** A `Post`; `details` stands for author, comments, notes, tags, category and media. */
  datatype Post = Post(workspace: int, caption: string, details: string, scheduledAt: Option<int>, children: seq<Child>)

  /** `min(times)` over the children that have a time. */
  function Earliest(children: seq<Child>): Option<int> {
    if children == [] then None
    else
      var rest := Earliest(children[1..]);
      var first := children[0].scheduledAt;
      if first.None? then rest
      else if rest.None? || first.value <= rest.value then first
      else rest
  }

  /** `sync_post_scheduled_at`. */
  function Synced(p: Post): Post {
    p.(scheduledAt := Earliest(p.children))
  }

  ghost predicate IsEarliest(t: Option<int>, children: seq<Child>) {
    && (t.None? <==> forall c | c in children :: c.scheduledAt.None?)
    && (t.Some? ==> exists c | c in children :: c.scheduledAt == t)
    && (t.Some? ==> forall c | c in children && c.scheduledAt.Some? :: t.value <= c.scheduledAt.value)
  }

  /** After the sync the time of the post is the least time of its children, or missing if they have none. */
  lemma {:induction false} SyncedToTheEarliest(children: seq<Child>)
    ensures IsEarliest(Earliest(children), children)
  {
    if children != [] {
      SyncedToTheEarliest(children[1..]);
      assert forall c :: c in children <==> c == children[0] || c in children[1..];
    }
  }

  lemma EarliestIsUnique(s: Option<int>, t: Option<int>, children: seq<Child>)
    requires IsEarliest(s, children) && IsEarliest(t, children)
    ensures s == t
  {
  }

  function DateOf(t: int): int {
    t / DAY
  }
}
