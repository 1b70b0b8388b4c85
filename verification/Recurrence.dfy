/** Generating posts from recurrence rules (`apps/calendar/tasks.py`, `generate_recurring_posts`). */
module Recurrence {
  import opened Prelude
  import opened PostStatus
  import opened Posts
  import opened RecurrenceDates

  datatype Rule = Rule(post: nat, frequency: Frequency, interval: nat, endDate: Option<int>, active: bool)

  /** History: which rule's post was cloned for which date, and the id of the clone. */
  datatype Made = Made(source: nat, date: int, id: nat)

  datatype Table = Table(posts: map<nat, Post>, nextId: nat, made: seq<Made>)

  // ---------------------------------------------------------------------
  // One clone
  // ---------------------------------------------------------------------

  /** A child of the clone: its offset from the post is kept, its status is `scheduled`. */
  function ShiftedChild(c: Child, shift: int): Child {
    Child(c.account, c.overrides, if c.scheduledAt.Some? then Some(c.scheduledAt.value + shift) else None, Scheduled)
  }

  function Shifted(children: seq<Child>, shift: int): seq<Child> {
    if children == [] then [] else [ShiftedChild(children[0], shift)] + Shifted(children[1..], shift)
  }

  function ClonedAt(source: Post, d: int): int
    requires source.scheduledAt.Some?
  {
    d * DAY + source.scheduledAt.value % DAY
  }

  /** The clone for date `d`: at the same time of day, with every child translated alike, then synced. */
  function Clone(source: Post, d: int): Post
    requires source.scheduledAt.Some?
  {
    var at := ClonedAt(source, d);
    var copy := source.(scheduledAt := Some(at), children := Shifted(source.children, at - source.scheduledAt.value));
    if source.children == [] then copy else Synced(copy)
  }

  /** The source's date is the date of its earliest child; true in particular when its time is that child's. */
  predicate OnDate(source: Post) {
    source.scheduledAt.Some? && source.children != [] ==>
      Earliest(source.children).Some? && DateOf(Earliest(source.children).value) == DateOf(source.scheduledAt.value)
  }

  lemma {:induction false} EarliestShifts(children: seq<Child>, shift: int)
    ensures |Shifted(children, shift)| == |children|
    ensures forall i | 0 <= i < |children| :: Shifted(children, shift)[i] == ShiftedChild(children[i], shift)
    ensures var e := Earliest(children);
            Earliest(Shifted(children, shift)) == if e.Some? then Some(e.value + shift) else None
  {
    if children != [] {
      EarliestShifts(children[1..], shift);
    }
  }

  lemma DaysShift(t: int, days: int)
    ensures DateOf(t + days * DAY) == DateOf(t) + days
  {
  }

  /** How far, in whole days, the date of a clone is from the date it was made for. */
  function Drift(source: Post): int
    requires source.scheduledAt.Some?
  {
    if source.children == [] || Earliest(source.children).None? then 0
    else DateOf(Earliest(source.children).value) - DateOf(source.scheduledAt.value)
  }

  /** Where a clone ends up after the sync. It keeps every per-platform offset, and it stays on its date if
      and only if the source's own date is that of its earliest child. */
  lemma CloneLandsOnItsDate(source: Post, d: int)
    requires source.scheduledAt.Some?
    ensures var c, shift := Clone(source, d), (d - DateOf(source.scheduledAt.value)) * DAY;
            && c.workspace == source.workspace && c.caption == source.caption
            && c.children == Shifted(source.children, shift)
            && (c.scheduledAt.Some? <==> source.children == [] || Earliest(source.children).Some?)
            && (c.scheduledAt.Some? ==> DateOf(c.scheduledAt.value) == d + Drift(source))
            && (Earliest(source.children) == source.scheduledAt ==>
                  c.scheduledAt == Some(source.scheduledAt.value + shift))
            && (c.scheduledAt.Some? && DateOf(c.scheduledAt.value) == d <==> OnDate(source))
  {
    var t := source.scheduledAt.value;
    var days := d - DateOf(t);
    assert ClonedAt(source, d) - t == days * DAY;
    EarliestShifts(source.children, days * DAY);
    DaysShift(t, days);
    if Earliest(source.children).Some? {
      DaysShift(Earliest(source.children).value, days);
    }
  }

  // ---------------------------------------------------------------------
  // One rule, and one run of all rules
  // ---------------------------------------------------------------------

  predicate Matches(p: Post, source: Post, d: int) {
    p.workspace == source.workspace && p.caption == source.caption
    && p.scheduledAt.Some? && DateOf(p.scheduledAt.value) == d
  }

  /** `d` is in `existing_dates`: another post of the workspace with this caption is on date `d`. */
  ghost predicate Exists(posts: map<nat, Post>, source: nat, d: int)
    requires source in posts
  {
    exists id | id in posts :: id != source && Matches(posts[id], posts[source], d)
  }

  function EndOf(rule: Rule, today: int): int {
    var cutoff := today + LOOKAHEAD_DAYS;
    if rule.endDate.Some? && rule.endDate.value <= cutoff then rule.endDate.value else cutoff
  }

  /** A rule whose turn does something: it is active and its post has a time (of a representable date). */
  predicate Runs(posts: map<nat, Post>, rule: Rule) {
    rule.active && rule.post in posts && posts[rule.post].scheduledAt.Some?
    && DAY <= posts[rule.post].scheduledAt.value
  }

  ghost function RuleDates(posts: map<nat, Post>, rule: Rule, today: int): seq<Day>
    requires Runs(posts, rule)
  {
    AllDates(DateOf(posts[rule.post].scheduledAt.value), rule.frequency, rule.interval, EndOf(rule, today))
  }

  /** The turn of one rule: `start` are the posts when `existing_dates` was read. */
  ghost function Generated(t: Table, start: map<nat, Post>, source: nat, dates: seq<Day>, today: int): Table
    requires source in start && start[source].scheduledAt.Some?
  {
    if dates == [] then t
    else
      var n := |dates| - 1;
      var before := Generated(t, start, source, dates[..n], today);
      if Exists(start, source, dates[n]) || dates[n] <= today then before
      else Inserted(before, source, start[source], dates[n])
  }

  /** The clone of `p`, which is post `source`, is stored for date `d`. */
  ghost function Inserted(t: Table, source: nat, p: Post, d: int): Table
    requires p.scheduledAt.Some?
  {
    Table(t.posts[t.nextId := Clone(p, d)], t.nextId + 1, t.made + [Made(source, d, t.nextId)])
  }

  ghost function RunRule(t: Table, rule: Rule, today: int): Table {
    if Runs(t.posts, rule) then Generated(t, t.posts, rule.post, RuleDates(t.posts, rule, today), today) else t
  }

  ghost function RunRules(t: Table, rules: seq<Rule>, today: int): Table {
    if rules == [] then t
    else RunRule(RunRules(t, rules[..|rules| - 1], today), rules[|rules| - 1], today)
  }

  class Generator {
    var posts: map<nat, Post>
    var nextId: nat
    ghost var made: seq<Made>

    ghost function State(): Table
      reads this
    {
      Table(posts, nextId, made)
    }

    constructor (posts: map<nat, Post>, nextId: nat)
      ensures State() == Table(posts, nextId, [])
    {
      this.posts, this.nextId, made := posts, nextId, [];
    }

    /** `generate_recurring_posts`; rules of missing posts do not occur, because the rule's foreign key cascades. */
    method GenerateRecurringPosts(rules: seq<Rule>, now: int) returns (total: nat)
      requires forall r | r in rules :: r.post in posts
      requires forall id | id in posts && posts[id].scheduledAt.Some? :: DAY <= posts[id].scheduledAt.value
      requires Fresh(State())
      modifies this
      ensures State() == RunRules(old(State()), rules, DateOf(now))
      ensures total == |made| - |old(made)|
    {
      total := 0;
      var today := DateOf(now);
      for i := 0 to |rules|
        invariant State() == RunRules(old(State()), rules[..i], today)
        invariant total == |made| - |old(made)|
        invariant Grows(old(State()), State())
        invariant forall id | id in posts && posts[id].scheduledAt.Some? && id in old(posts) ::
                    DAY <= posts[id].scheduledAt.value
      {
        assert rules[..i + 1][..i] == rules[..i];
        var rule := rules[i];
        assert rule in rules;
        if rule.active && posts[rule.post].scheduledAt.Some? {
          var n := GenerateRule(rule, today);
          total := total + n;
        }
      }
      assert rules[..|rules|] == rules;
    }

    method GenerateRule(rule: Rule, today: int) returns (count: nat)
      requires Runs(posts, rule)
      requires Fresh(State())
      modifies this
      ensures State() == RunRule(old(State()), rule, today)
      ensures count == |made| - |old(made)|
      ensures Grows(old(State()), State())
    {
      var source := posts[rule.post];
      var dates := ComputeRecurrenceDates(DateOf(source.scheduledAt.value), rule.frequency, rule.interval,
                                          EndOf(rule, today));
      DatesOfTheRule(posts, rule, today, dates);
      var existing := ExistingDates(rule.post);
      ghost var start := State();
      count := MakeClones(rule.post, dates, existing, today);
      TurnGrows(start, rule.post, dates, today);
    }

    /** The loop over the dates; `existing` was read before it. */
    method MakeClones(id: nat, dates: seq<Day>, existing: set<int>, today: int) returns (count: nat)
      requires id in posts && posts[id].scheduledAt.Some?
      requires forall d :: d in existing <==> Exists(posts, id, d)
      modifies this
      ensures State() == Generated(old(State()), old(posts), id, dates, today)
      ensures count == |made| - |old(made)|
    {
      count := 0;
      var source := posts[id];
      ghost var start := State();
      for i := 0 to |dates|
        invariant State() == Generated(start, start.posts, id, dates[..i], today)
        invariant count == |made| - |start.made|
      {
        assert dates[..i + 1][..i] == dates[..i];
        var d := dates[i];
        if d in existing || d <= today {
          continue;
        }
        InsertClone(id, source, d);
        count := count + 1;
      }
      assert dates[..|dates|] == dates;
    }

    method InsertClone(id: nat, source: Post, d: int)
      requires source.scheduledAt.Some?
      modifies this
      ensures State() == Inserted(old(State()), id, source, d)
    {
      var clone := CloneFor(source, d);
      posts := posts[nextId := clone];
      made := made + [Made(id, d, nextId)];
      nextId := nextId + 1;
    }

    /** `existing_dates`: the dates of the other posts of the workspace with this caption. */
    method ExistingDates(source: nat) returns (existing: set<int>)
      requires source in posts
      ensures forall d :: d in existing <==> Exists(posts, source, d)
    {
      existing := set id | id in posts && id != source && posts[id].workspace == posts[source].workspace
                           && posts[id].caption == posts[source].caption && posts[id].scheduledAt.Some?
                    :: DateOf(posts[id].scheduledAt.value);
    }

    /** Create the post, copy its children with their offsets, and sync it if it has any. */
    method CloneFor(source: Post, d: int) returns (clone: Post)
      requires source.scheduledAt.Some?
      ensures clone == Clone(source, d)
    {
      var scheduled := d * DAY + source.scheduledAt.value % DAY;
      clone := source.(scheduledAt := Some(scheduled), children := []);
      if source.children != [] {
        var children := CloneChildren(source.children, scheduled, source.scheduledAt.value);
        clone := Synced(clone.(children := children));
      }
    }

    /** The inner loop: every child keeps its distance from the post. */
    method CloneChildren(children: seq<Child>, scheduled: int, base: int) returns (clones: seq<Child>)
      ensures clones == Shifted(children, scheduled - base)
    {
      clones := [];
      ghost var all := Shifted(children, scheduled - base);
      EarliestShifts(children, scheduled - base);
      for i := 0 to |children|
        invariant clones == all[..i]
      {
        var c := children[i];
        var at := None;
        if c.scheduledAt.Some? {
          var delta := c.scheduledAt.value - base;
          at := Some(scheduled + delta);
        }
        assert all[i] == ShiftedChild(c, scheduled - base);
        clones := clones + [Child(c.account, c.overrides, at, Scheduled)];
      }
    }
  }

  lemma DatesOfTheRule(posts: map<nat, Post>, rule: Rule, today: int, dates: seq<Day>)
    requires Runs(posts, rule)
    requires IsRecurrence(dates, DateOf(posts[rule.post].scheduledAt.value), rule.frequency, rule.interval,
                          EndOf(rule, today))
    ensures dates == RuleDates(posts, rule, today)
  {
    var base, end := DateOf(posts[rule.post].scheduledAt.value), EndOf(rule, today);
    AllDatesAreTheRecurrence(base, rule.frequency, rule.interval, end);
    RecurrenceIsUnique(dates, AllDates(base, rule.frequency, rule.interval, end), base, rule.frequency, rule.interval,
                       end);
  }

  // ---------------------------------------------------------------------
  // What a turn leaves behind
  // ---------------------------------------------------------------------

  ghost predicate Fresh(t: Table) {
    forall id | id in t.posts :: id < t.nextId
  }

  /** Posts are only added, and so are history entries. */
  ghost predicate Grows(t: Table, t': Table) {
    && (forall id | id in t.posts :: id in t'.posts && t'.posts[id] == t.posts[id])
    && t.made <= t'.made
    && Fresh(t')
  }

  lemma {:induction false} TurnGrows(t: Table, source: nat, dates: seq<Day>, today: int)
    requires Fresh(t) && source in t.posts && t.posts[source].scheduledAt.Some?
    ensures Grows(t, Generated(t, t.posts, source, dates, today))
  {
    if dates != [] {
      TurnGrows(t, source, dates[..|dates| - 1], today);
    }
  }

  /** The dates that a turn clones for: coming dates without a post. */
  ghost function Missing(posts: map<nat, Post>, source: nat, dates: seq<Day>, today: int): seq<Day>
    requires source in posts
  {
    if dates == [] then []
    else
      var n := |dates| - 1;
      Missing(posts, source, dates[..n], today)
      + if Exists(posts, source, dates[n]) || dates[n] <= today then [] else [dates[n]]
  }

  /** The `k`-th new history entry and the `k`-th new post belong to the `k`-th missing date. */
  ghost predicate KthClone(t: Table, t': Table, source: nat, missing: seq<Day>, k: nat)
    requires source in t.posts && t.posts[source].scheduledAt.Some? && k < |missing|
  {
    && |t.made| + k < |t'.made|
    && t'.made[|t.made| + k] == Made(source, missing[k], t.nextId + k)
    && t.nextId + k in t'.posts
    && t'.posts[t.nextId + k] == Clone(t.posts[source], missing[k])
  }

  /** A turn makes one clone for each missing date, in order, under consecutive new ids. */
  ghost predicate ClonesFor(t: Table, t': Table, source: nat, missing: seq<Day>)
    requires source in t.posts && t.posts[source].scheduledAt.Some?
  {
    && t'.nextId == t.nextId + |missing|
    && |t'.made| == |t.made| + |missing|
    && (forall k | 0 <= k < |missing| :: KthClone(t, t', source, missing, k))
    && (forall id | id in t'.posts :: id in t.posts || t.nextId <= id < t'.nextId)
  }

  lemma {:induction false} TurnMakesClones(t: Table, source: nat, dates: seq<Day>, today: int)
    requires Fresh(t) && source in t.posts && t.posts[source].scheduledAt.Some?
    ensures ClonesFor(t, Generated(t, t.posts, source, dates, today), source, Missing(t.posts, source, dates, today))
  {
    if dates != [] {
      var n := |dates| - 1;
      TurnMakesClones(t, source, dates[..n], today);
      var before := Generated(t, t.posts, source, dates[..n], today);
      var missing := Missing(t.posts, source, dates[..n], today);
      var after, all := Generated(t, t.posts, source, dates, today), Missing(t.posts, source, dates, today);
      forall k | 0 <= k < |all| ensures KthClone(t, after, source, all, k) {
        if k < |missing| {
          assert KthClone(t, before, source, missing, k);
        }
      }
    }
  }

  lemma {:induction false} MissingDates(posts: map<nat, Post>, source: nat, dates: seq<Day>, today: int)
    requires source in posts
    ensures forall d :: d in Missing(posts, source, dates, today)
                        <==> d in dates && d > today && !Exists(posts, source, d)
  {
    if dates != [] {
      var n := |dates| - 1;
      MissingDates(posts, source, dates[..n], today);
      assert dates == dates[..n] + [dates[n]];
    }
  }

  lemma {:induction false} MissingAscends(posts: map<nat, Post>, source: nat, dates: seq<Day>, today: int)
    requires source in posts && Ascending(dates)
    ensures Ascending(Missing(posts, source, dates, today))
  {
    if dates != [] {
      var n := |dates| - 1;
      var before := Missing(posts, source, dates[..n], today);
      MissingAscends(posts, source, dates[..n], today);
      MissingDates(posts, source, dates[..n], today);
      forall k | 0 <= k < |before| ensures before[k] <= dates[n] {
        assert before[k] in before && before[k] in dates[..n];
      }
    }
  }

  lemma {:induction false} MissingIncreases(posts: map<nat, Post>, source: nat, dates: seq<Day>, today: int)
    requires source in posts && Increasing(dates)
    ensures Increasing(Missing(posts, source, dates, today))
  {
    if dates != [] {
      var n := |dates| - 1;
      var before := Missing(posts, source, dates[..n], today);
      MissingIncreases(posts, source, dates[..n], today);
      MissingDates(posts, source, dates[..n], today);
      forall k | 0 <= k < |before| ensures before[k] < dates[n] {
        assert before[k] in before && before[k] in dates[..n];
      }
    }
  }

  // ---------------------------------------------------------------------
  // Running a rule again
  // ---------------------------------------------------------------------

  /** A date that has a post keeps it. */
  lemma ExistsPersists(t: Table, t': Table, source: nat, d: int)
    requires Grows(t, t') && source in t.posts && Exists(t.posts, source, d)
    ensures Exists(t'.posts, source, d)
  {
    var id :| id in t.posts && id != source && Matches(t.posts[id], t.posts[source], d);
    assert id in t'.posts && Matches(t'.posts[id], t'.posts[source], d);
  }

  /** Every coming date of the rule has a post. */
  ghost predicate Settled(t: Table, rule: Rule, today: int) {
    Runs(t.posts, rule) ==>
      forall d | d in RuleDates(t.posts, rule, today) && d > today :: Exists(t.posts, rule.post, d)
  }

  lemma {:induction false} SettledTurnMakesNothing(t: Table, source: nat, dates: seq<Day>, today: int)
    requires source in t.posts && t.posts[source].scheduledAt.Some?
    requires forall d | d in dates && d > today :: Exists(t.posts, source, d)
    ensures Generated(t, t.posts, source, dates, today) == t
  {
    if dates != [] {
      assert dates[|dates| - 1] in dates;
      assert forall d | d in dates[..|dates| - 1] :: d in dates;
      SettledTurnMakesNothing(t, source, dates[..|dates| - 1], today);
    }
  }

  lemma CloneFillsItsDate(t: Table, t': Table, source: nat, missing: seq<Day>, k: nat)
    requires source in t.posts && t.posts[source].scheduledAt.Some? && OnDate(t.posts[source])
    requires Fresh(t) && Grows(t, t') && ClonesFor(t, t', source, missing) && k < |missing|
    ensures Exists(t'.posts, source, missing[k])
  {
    assert KthClone(t, t', source, missing, k);
    CloneLandsOnItsDate(t.posts[source], missing[k]);
    assert Matches(t'.posts[t.nextId + k], t'.posts[source], missing[k]);
  }

  /** A turn settles its rule, if clones stay on their dates. */
  lemma TurnSettles(t: Table, rule: Rule, today: int)
    requires Fresh(t) && Runs(t.posts, rule) && OnDate(t.posts[rule.post])
    ensures Grows(t, RunRule(t, rule, today)) && Settled(RunRule(t, rule, today), rule, today)
  {
    var source, dates := rule.post, RuleDates(t.posts, rule, today);
    var t' := RunRule(t, rule, today);
    TurnGrows(t, source, dates, today);
    TurnMakesClones(t, source, dates, today);
    MissingDates(t.posts, source, dates, today);
    var missing := Missing(t.posts, source, dates, today);
    forall d | d in dates && d > today ensures Exists(t'.posts, source, d) {
      if Exists(t.posts, source, d) {
        ExistsPersists(t, t', source, d);
      } else {
        var k :| 0 <= k < |missing| && missing[k] == d;
        CloneFillsItsDate(t, t', source, missing, k);
      }
    }
  }

  /** Running one rule again at once makes nothing new if and only if the source's date is that of its earliest
      child, or every coming date already has a post. Both can be seen before the first run. */
  lemma RerunMakesNothingIff(t: Table, rule: Rule, today: int)
    requires Fresh(t) && Runs(t.posts, rule)
    ensures var t' := RunRule(t, rule, today);
            RunRule(t', rule, today) == t' <==> OnDate(t.posts[rule.post]) || Settled(t, rule, today)
  {
    var source, dates := rule.post, RuleDates(t.posts, rule, today);
    var t' := RunRule(t, rule, today);
    TurnGrows(t, source, dates, today);
    assert RuleDates(t'.posts, rule, today) == dates;
    if OnDate(t.posts[source]) {
      TurnSettles(t, rule, today);
      SettledTurnMakesNothing(t', source, dates, today);
    } else if Settled(t, rule, today) {
      SettledTurnMakesNothing(t, source, dates, today);
    } else {
      DriftedTurnIsRepeated(t, rule, today);
    }
  }

  /** When clones leave their dates, a turn that has something to make has it again. */
  lemma DriftedTurnIsRepeated(t: Table, rule: Rule, today: int)
    requires Fresh(t) && Runs(t.posts, rule) && !OnDate(t.posts[rule.post]) && !Settled(t, rule, today)
    ensures var t' := RunRule(t, rule, today); RunRule(t', rule, today) != t'
  {
    var source, dates := rule.post, RuleDates(t.posts, rule, today);
    var t' := RunRule(t, rule, today);
    TurnGrows(t, source, dates, today);
    TurnMakesClones(t, source, dates, today);
    MissingDates(t.posts, source, dates, today);
    DatesAscend(t.posts, rule, today);
    MissingAscends(t.posts, source, dates, today);
    var missing := Missing(t.posts, source, dates, today);
    var e :| e in dates && e > today && !Exists(t.posts, source, e);
    assert e in missing;
    var d := if Drift(t.posts[source]) >= 0 then missing[0] else missing[|missing| - 1];
    assert d in missing;
    DriftedDateStaysMissing(t, t', source, missing, d);
    TurnGrows(t', source, dates, today);
    TurnMakesClones(t', source, dates, today);
    MissingDates(t'.posts, source, dates, today);
    assert d in Missing(t'.posts, source, dates, today);
  }

  lemma DatesAscendFrom(t: int, frequency: Frequency, interval: nat, end: int)
    requires DAY <= t
    ensures Ascending(AllDates(DateOf(t), frequency, interval, end))
    ensures interval >= 1 ==> Increasing(AllDates(DateOf(t), frequency, interval, end))
  {
    AllDatesAscend(DateOf(t), frequency, interval, end);
  }

  lemma DatesAscend(posts: map<nat, Post>, rule: Rule, today: int)
    requires Runs(posts, rule)
    ensures Ascending(RuleDates(posts, rule, today))
    ensures rule.interval >= 1 ==> Increasing(RuleDates(posts, rule, today))
  {
    DatesAscendFrom(posts[rule.post].scheduledAt.value, rule.frequency, rule.interval, EndOf(rule, today));
  }

  /** The base date of a rule that does not move on, when it is still to come and has no other post. */
  ghost predicate StandsStill(posts: map<nat, Post>, rule: Rule, today: int)
    requires Runs(posts, rule)
  {
    var base := DateOf(posts[rule.post].scheduledAt.value);
    && rule.interval == 0 && !rule.frequency.Other?
    && today < base <= EndOf(rule, today) && !Exists(posts, rule.post, base)
  }

  lemma {:induction false} MissingOfOneDate(posts: map<nat, Post>, source: nat, dates: seq<Day>, d: Day, today: int)
    requires source in posts && forall k | 0 <= k < |dates| :: dates[k] == d
    ensures Missing(posts, source, dates, today) == if d > today && !Exists(posts, source, d) then dates else []
  {
    if dates != [] {
      MissingOfOneDate(posts, source, dates[..|dates| - 1], d, today);
    }
  }

  lemma {:induction false} MissingStandsOrIncreases(posts: map<nat, Post>, source: nat, dates: seq<Day>,
                                                    stands: bool, d: Day, today: int)
    requires source in posts
    requires if stands then forall k | 0 <= k < |dates| :: dates[k] == d else Increasing(dates)
    ensures var missing := Missing(posts, source, dates, today);
            if stands && d > today && !Exists(posts, source, d) then missing == dates else Increasing(missing)
  {
    if stands {
      MissingOfOneDate(posts, source, dates, d, today);
    } else {
      MissingIncreases(posts, source, dates, today);
    }
  }

  lemma {:induction false} MissingDatesFrom(posts: map<nat, Post>, source: nat, t: int, frequency: Frequency,
                                            interval: nat, end: int, today: int)
    requires source in posts && DAY <= t
    ensures var missing := Missing(posts, source, AllDates(DateOf(t), frequency, interval, end), today);
            if interval == 0 && !frequency.Other? && today < DateOf(t) <= end && !Exists(posts, source, DateOf(t))
            then |missing| == MAX_RECURRENCES && forall k | 0 <= k < |missing| :: missing[k] == DateOf(t)
            else Increasing(missing)
  {
    AllDatesIncreaseUnlessTheyStand(DateOf(t), frequency, interval, end);
    MissingStandsOrIncreases(posts, source, AllDates(DateOf(t), frequency, interval, end),
                             interval == 0 && !frequency.Other? && DateOf(t) <= end, DateOf(t), today);
  }

  /** Either a turn has increasing dates to clone for, or its base date 180 times. */
  lemma {:induction false} MissingDatesOfATurn(posts: map<nat, Post>, rule: Rule, today: int)
    requires Runs(posts, rule)
    ensures var missing := Missing(posts, rule.post, RuleDates(posts, rule, today), today);
            if StandsStill(posts, rule, today)
            then |missing| == MAX_RECURRENCES
                 && forall k | 0 <= k < |missing| :: missing[k] == DateOf(posts[rule.post].scheduledAt.value)
            else Increasing(missing)
  {
    MissingDatesFrom(posts, rule.post, posts[rule.post].scheduledAt.value, rule.frequency, rule.interval,
                     EndOf(rule, today), today);
  }

  /** A turn clones its post twice for one date if and only if its rule stands still on a date to come that no other
      post is on; it then does so 180 times. */
  lemma TurnRepeatsADateIff(t: Table, rule: Rule, today: int)
    requires Fresh(t) && Runs(t.posts, rule)
    ensures var t' := RunRule(t, rule, today);
            && ((exists a, b :: |t.made| <= a < b < |t'.made| && t'.made[a].date == t'.made[b].date)
                <==> StandsStill(t.posts, rule, today))
            && (StandsStill(t.posts, rule, today) ==> |t'.made| == |t.made| + MAX_RECURRENCES)
  {
    var t', dates := RunRule(t, rule, today), RuleDates(t.posts, rule, today);
    var missing := Missing(t.posts, rule.post, dates, today);
    TurnMakesClones(t, rule.post, dates, today);
    MissingDatesOfATurn(t.posts, rule, today);
    if StandsStill(t.posts, rule, today) {
      assert KthClone(t, t', rule.post, missing, 0) && KthClone(t, t', rule.post, missing, 1);
    } else {
      IncreasingDatesDoNotRepeat(t, t', rule.post, missing);
    }
  }

  lemma IncreasingDatesDoNotRepeat(t: Table, t': Table, source: nat, missing: seq<Day>)
    requires source in t.posts && t.posts[source].scheduledAt.Some? && ClonesFor(t, t', source, missing)
    requires Increasing(missing)
    ensures forall a, b | |t.made| <= a < b < |t'.made| :: t'.made[a].date != t'.made[b].date
  {
    var n := |t.made|;
    forall a, b | n <= a < b < |t'.made| ensures t'.made[a].date != t'.made[b].date {
      assert KthClone(t, t', source, missing, a - n) && KthClone(t, t', source, missing, b - n);
    }
  }

  /** When clones drift off their dates, the date at the end they drift away from is left without a post. */
  lemma DriftedDateStaysMissing(t: Table, t': Table, source: nat, missing: seq<Day>, d: Day)
    requires source in t.posts && t.posts[source].scheduledAt.Some? && !OnDate(t.posts[source])
    requires Grows(t, t') && ClonesFor(t, t', source, missing)
    requires d in missing && !Exists(t.posts, source, d)
    requires Ascending(missing)
    requires d == if Drift(t.posts[source]) >= 0 then missing[0] else missing[|missing| - 1]
    ensures !Exists(t'.posts, source, d)
  {
    forall id | id in t'.posts && id != source ensures !Matches(t'.posts[id], t'.posts[source], d) {
      if id in t.posts {
        assert !Matches(t.posts[id], t.posts[source], d);
      } else {
        var k := id - t.nextId;
        assert KthClone(t, t', source, missing, k);
        CloneLandsOnItsDate(t.posts[source], missing[k]);
        CloneLandsOnItsDate(t.posts[source], d);
      }
    }
  }

  // ---------------------------------------------------------------------
  // Whole runs
  // ---------------------------------------------------------------------

  /** Every rule of the run has a source whose date is that of its earliest child. */
  ghost predicate Aligned(posts: map<nat, Post>, rules: seq<Rule>) {
    forall r | r in rules && Runs(posts, r) :: OnDate(posts[r.post])
  }

  ghost predicate RulesExist(posts: map<nat, Post>, rules: seq<Rule>) {
    forall r | r in rules :: r.post in posts
  }

  lemma RunRuleGrows(t: Table, rule: Rule, today: int)
    requires Fresh(t)
    ensures Grows(t, RunRule(t, rule, today))
  {
    if Runs(t.posts, rule) {
      TurnGrows(t, rule.post, RuleDates(t.posts, rule, today), today);
    }
  }

  lemma {:induction false} RunRulesGrows(t: Table, rules: seq<Rule>, today: int)
    requires Fresh(t)
    ensures Grows(t, RunRules(t, rules, today))
  {
    if rules != [] {
      var n := |rules| - 1;
      RunRulesGrows(t, rules[..n], today);
      RunRuleGrows(RunRules(t, rules[..n], today), rules[n], today);
    }
  }

  lemma SettledPersists(t: Table, t': Table, rule: Rule, today: int)
    requires Grows(t, t') && rule.post in t.posts && Settled(t, rule, today)
    ensures Settled(t', rule, today)
  {
    if Runs(t'.posts, rule) {
      forall d | d in RuleDates(t'.posts, rule, today) && d > today ensures Exists(t'.posts, rule.post, d) {
        ExistsPersists(t, t', rule.post, d);
      }
    }
  }

  lemma {:induction false} RunSettlesAllRules(t: Table, rules: seq<Rule>, today: int)
    requires Fresh(t) && RulesExist(t.posts, rules) && Aligned(t.posts, rules)
    ensures forall r | r in rules :: Settled(RunRules(t, rules, today), r, today)
  {
    if rules != [] {
      var n := |rules| - 1;
      var init := rules[..n];
      assert rules == init + [rules[n]];
      RunSettlesAllRules(t, init, today);
      RunRulesGrows(t, init, today);
      var before := RunRules(t, init, today);
      var after := RunRules(t, rules, today);
      RunRuleGrows(before, rules[n], today);
      forall r | r in rules ensures Settled(after, r, today) {
        if r in init {
          SettledPersists(before, after, r, today);
        } else if Runs(before.posts, r) {
          assert Runs(t.posts, r);
          TurnSettles(before, r, today);
        }
      }
    }
  }

  lemma {:induction false} SettledRunMakesNothing(t: Table, rules: seq<Rule>, today: int)
    requires forall r | r in rules :: Settled(t, r, today)
    ensures RunRules(t, rules, today) == t
  {
    if rules != [] {
      var n := |rules| - 1;
      assert rules[n] in rules;
      assert forall r | r in rules[..n] :: r in rules;
      SettledRunMakesNothing(t, rules[..n], today);
      if Runs(t.posts, rules[n]) {
        SettledTurnMakesNothing(t, rules[n].post, RuleDates(t.posts, rules[n], today), today);
      }
    }
  }

  /** Generation is idempotent: a second run on the same day creates nothing, whatever the rules. */
  lemma {:induction false} GenerationIsIdempotent(t: Table, rules: seq<Rule>, now: int, later: int)
    requires Fresh(t) && RulesExist(t.posts, rules) && Aligned(t.posts, rules)
    requires DateOf(later) == DateOf(now)
    ensures var once := RunRules(t, rules, DateOf(now)); RunRules(once, rules, DateOf(later)) == once
  {
    RunSettlesAllRules(t, rules, DateOf(now));
    SettledRunMakesNothing(RunRules(t, rules, DateOf(now)), rules, DateOf(now));
  }

  // ---------------------------------------------------------------------
  // Any number of runs at any times
  // ---------------------------------------------------------------------

  /** Every entry of the history has its clone on its date. */
  ghost predicate ClonesAreThere(t: Table) {
    forall m | m in t.made :: m.source in t.posts && Exists(t.posts, m.source, m.date)
  }

  ghost predicate NoDateTwice(t: Table) {
    forall i, j | 0 <= i < j < |t.made| :: t.made[i].source != t.made[j].source || t.made[i].date != t.made[j].date
  }

  lemma ClonesStayThere(t: Table, t': Table, source: nat, missing: seq<Day>)
    requires source in t.posts && t.posts[source].scheduledAt.Some? && OnDate(t.posts[source])
    requires Fresh(t) && Grows(t, t') && ClonesFor(t, t', source, missing) && ClonesAreThere(t)
    ensures ClonesAreThere(t')
  {
    forall m | m in t'.made ensures m.source in t'.posts && Exists(t'.posts, m.source, m.date) {
      if m in t.made {
        ExistsPersists(t, t', m.source, m.date);
      } else {
        var i :| 0 <= i < |t'.made| && t'.made[i] == m;
        assert KthClone(t, t', source, missing, i - |t.made|);
        CloneFillsItsDate(t, t', source, missing, i - |t.made|);
      }
    }
  }

  lemma NewDatesAreNew(t: Table, t': Table, source: nat, missing: seq<Day>)
    requires source in t.posts && t.posts[source].scheduledAt.Some?
    requires Grows(t, t') && ClonesFor(t, t', source, missing) && ClonesAreThere(t) && NoDateTwice(t)
    requires Increasing(missing) && forall d | d in missing :: !Exists(t.posts, source, d)
    ensures NoDateTwice(t')
  {
    var n := |t.made|;
    forall i, j | 0 <= i < j < |t'.made|
      ensures t'.made[i].source != t'.made[j].source || t'.made[i].date != t'.made[j].date
    {
      if j >= n {
        assert KthClone(t, t', source, missing, j - n);
        assert missing[j - n] in missing;
        if i < n {
          assert t'.made[i] == t.made[i] && t.made[i] in t.made;
        } else {
          assert KthClone(t, t', source, missing, i - n);
        }
      }
    }
  }

  lemma TurnRepeatsNothing(t: Table, rule: Rule, today: int)
    requires Fresh(t) && ClonesAreThere(t) && NoDateTwice(t)
    requires Runs(t.posts, rule) ==> OnDate(t.posts[rule.post]) && rule.interval >= 1
    ensures ClonesAreThere(RunRule(t, rule, today)) && NoDateTwice(RunRule(t, rule, today))
  {
    if Runs(t.posts, rule) {
      var source, dates := rule.post, RuleDates(t.posts, rule, today);
      TurnGrows(t, source, dates, today);
      TurnMakesClones(t, source, dates, today);
      DatesAscend(t.posts, rule, today);
      MissingDates(t.posts, source, dates, today);
      MissingIncreases(t.posts, source, dates, today);
      var missing := Missing(t.posts, source, dates, today);
      ClonesStayThere(t, RunRule(t, rule, today), source, missing);
      NewDatesAreNew(t, RunRule(t, rule, today), source, missing);
    }
  }

  lemma RuleStaysAligned(t: Table, t': Table, rules: seq<Rule>, i: nat)
    requires i < |rules| && RulesExist(t.posts, rules) && Aligned(t.posts, rules) && Grows(t, t')
    ensures Runs(t'.posts, rules[i]) ==> OnDate(t'.posts[rules[i].post])
  {
    assert rules[i] in rules;
  }

  lemma {:induction false} RunRepeatsNothing(t: Table, rules: seq<Rule>, today: int, end: Table)
    requires Fresh(t) && ClonesAreThere(t) && NoDateTwice(t)
    requires RulesExist(t.posts, rules) && Aligned(t.posts, rules) && forall r | r in rules :: r.interval >= 1
    requires end == RunRules(t, rules, today)
    ensures ClonesAreThere(end) && NoDateTwice(end)
    decreases |rules|
  {
    if rules != [] {
      var n := |rules| - 1;
      assert rules[n] in rules;
      assert forall r | r in rules[..n] :: r in rules;
      var before := RunRules(t, rules[..n], today);
      RunRepeatsNothing(t, rules[..n], today, before);
      RunRulesGrows(t, rules[..n], today);
      RuleStaysAligned(t, before, rules, n);
      TurnRepeatsNothing(before, rules[n], today);
    }
  }

  /** One run of the task: the rules it finds, and the day it runs on. */
  datatype Job = Job(rules: seq<Rule>, today: int)

  ghost function RunJobs(t: Table, jobs: seq<Job>): Table {
    if jobs == [] then t
    else RunRules(RunJobs(t, jobs[..|jobs| - 1]), jobs[|jobs| - 1].rules, jobs[|jobs| - 1].today)
  }

  /** Over any number of runs, on any days and with rules that may change in between, no rule's post is ever
      cloned twice for one date, as long as intervals are positive and sources are aligned. */
  lemma {:induction false} NoDateIsEverClonedTwice(posts: map<nat, Post>, nextId: nat, jobs: seq<Job>)
    requires Fresh(Table(posts, nextId, []))
    requires forall job | job in jobs ::
               RulesExist(posts, job.rules) && Aligned(posts, job.rules) && forall r | r in job.rules :: r.interval >= 1
    ensures var t := RunJobs(Table(posts, nextId, []), jobs);
            Grows(Table(posts, nextId, []), t) && ClonesAreThere(t) && NoDateTwice(t)
  {
    if jobs != [] {
      var n := |jobs| - 1;
      var job := jobs[n];
      assert job in jobs;
      assert forall j | j in jobs[..n] :: j in jobs;
      NoDateIsEverClonedTwice(posts, nextId, jobs[..n]);
      var t := RunJobs(Table(posts, nextId, []), jobs[..n]);
      forall r | r in job.rules && Runs(t.posts, r) ensures OnDate(t.posts[r.post]) {
        assert Runs(posts, r);
      }
      RunRulesGrows(t, job.rules, job.today);
      RunRepeatsNothing(t, job.rules, job.today, RunRules(t, job.rules, job.today));
    }
  }
}
