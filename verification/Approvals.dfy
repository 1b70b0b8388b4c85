/** The editorial state machine of a platform post (`apps/composer/models.py`), the approval services
    (`apps/approvals/services.py`) and the two services that create and transition platform posts
    (`apps/composer/services.py`). */
module Approvals {
  import opened Prelude
  import opened PostStatus
  import opened Posts

  /** `VALID_TRANSITIONS`. */
  function ValidTransitions(s: Status): set<Status> {
    match s
    case Draft => {PendingReview, Scheduled, Publishing}
    case PendingReview => {Approved, ChangesRequested, Rejected}
    case Approved => {PendingClient, Scheduled, Publishing, Draft}
    case PendingClient => {Approved, ChangesRequested, Rejected}
    case ChangesRequested => {PendingReview, Draft}
    case Rejected => {Draft, PendingReview}
    case Scheduled => {Publishing, Draft}
    case Publishing => {Published, Failed, Scheduled}
    case Failed => {Publishing, Draft, Scheduled}
    case Published => {}
    case PartiallyPublished => {}
  }

  datatype Mode = NoApproval | OptionalApproval | RequiredInternal | RequiredInternalAndClient

  /** `_require_approval_gate_passes`. */
  predicate GatePasses(mode: Mode) {
    mode !in {RequiredInternal, RequiredInternalAndClient}
  }

  // ---------------------------------------------------------------------
  // What the services mean for a child
  // ---------------------------------------------------------------------

  datatype Service = Submit | Approve | RequestChanges | Reject | Resubmit

  function Goal(service: Service): Status {
    match service
    case Submit => PendingReview
    case Approve => Approved
    case RequestChanges => ChangesRequested
    case Reject => Rejected
    case Resubmit => PendingReview
  }

  /** `eligible_from_states`, which filters the children of a bundled action. */
  function Eligible(service: Service): set<Status> {
    match service
    case Submit => {Draft, ChangesRequested, Rejected}
    case Approve => {PendingReview, PendingClient, Draft, Rejected, ChangesRequested}
    case RequestChanges => {PendingReview, PendingClient}
    case Reject => {PendingReview, PendingClient}
    case Resubmit => {ChangesRequested, Rejected}
  }

  /** `target` is one child, or with `None` the whole post. */
  predicate IsTarget(service: Service, target: Option<nat>, i: nat, s: Status) {
    target == Some(i) || (target.None? && s in Eligible(service))
  }

  /** `_transition_or_skip` returns true. */
  predicate Accepts(s: Status, goal: Status) {
    s == goal || goal in ValidTransitions(s)
  }

  /** In the two-stage mode an approval out of `pending_review` hops on to `pending_client`. */
  function Outcome(service: Service, mode: Mode, s: Status): Status {
    if !Accepts(s, Goal(service)) then s
    else if service == Approve && mode == RequiredInternalAndClient && s == PendingReview then PendingClient
    else Goal(service)
  }

  function StatusAfter(service: Service, mode: Mode, target: Option<nat>, i: nat, s: Status): Status {
    if IsTarget(service, target, i, s) then Outcome(service, mode, s) else s
  }

  function Performed(p: Post, service: Service, mode: Mode, target: Option<nat>): Post {
    p.(children := seq(|p.children|, i requires 0 <= i < |p.children| =>
         p.children[i].(status := StatusAfter(service, mode, target, i, p.children[i].status))))
  }

  function Moved(c: Child, service: Service, mode: Mode): Child {
    c.(status := Outcome(service, mode, c.status))
  }

  /** Some target was moved, or was already there. */
  ghost predicate AnyMoved(p: Post, service: Service, target: Option<nat>) {
    exists i: nat :: i < |p.children| && IsTarget(service, target, i, p.children[i].status)
                     && Accepts(p.children[i].status, Goal(service))
  }

  /** The post after the loop over the targets, and whether any of them was moved. */
  ghost function Effect(p: Post, service: Service, mode: Mode, target: Option<nat>): (Post, bool) {
    (Performed(p, service, mode, target), AnyMoved(p, service, target))
  }

  /** `not comment.strip()`. */
  predicate Blank(comment: string) {
    forall c | c in comment :: IsSpace(c)
  }

  // ---------------------------------------------------------------------
  // What creating and transitioning mean
  // ---------------------------------------------------------------------

  /** What `create_post` is asked to do; the last three are the checks it makes against other tables. */
  datatype Request = Request(status: Status, scheduledAt: Option<int>, sameWorkspace: bool, needsReconnect: bool,
                             mediaFound: bool)

  /** Without one of the `ValueError`s of `create_post`. */
  predicate MayCreate(mode: Mode, r: Request) {
    && r.status in {Draft, Scheduled}
    && (r.status == Scheduled ==> r.scheduledAt.Some?)
    && r.sameWorkspace && !r.needsReconnect
    && (r.status == Scheduled ==> GatePasses(mode))
    && r.mediaFound
  }

  /** The rows of `create_post`. */
  function NewPost(workspace: int, caption: string, details: string, account: int, overrides: string,
                   r: Request): Post {
    var time := if r.status == Scheduled then r.scheduledAt else None;
    Post(workspace, caption, details, time, [Child(account, overrides, time, r.status)])
  }

  /** Without one of the `ValueError`s of `transition_platform_post`. */
  predicate MayTransition(mode: Mode, from: Status, to: Status) {
    (to == Scheduled ==> GatePasses(mode)) && to in ValidTransitions(from)
  }

  function Transitioned(mode: Mode, p: Post, i: nat, to: Status, at: Option<int>): Post
    requires i < |p.children|
  {
    var c := p.children[i];
    if !MayTransition(mode, c.status, to) then p
    else
      Synced(p.(children := p.children[i := c.(status := to, scheduledAt := TimeAfter(c.scheduledAt, to, at))]))
  }

  function TimeAfter(before: Option<int>, to: Status, at: Option<int>): Option<int> {
    if to == Scheduled && at.Some? then at else if to == Draft then None else before
  }

  // ---------------------------------------------------------------------
  // The rows
  // ---------------------------------------------------------------------

  class PlatformPost {
    const account: int
    const overrides: string
    var status: Status
    var scheduledAt: Option<int>
    var publishedAt: Option<int>

    constructor (account: int, overrides: string, status: Status, scheduledAt: Option<int>)
      ensures Value() == Child(account, overrides, scheduledAt, status) && publishedAt.None?
    {
      this.account, this.overrides, this.status, this.scheduledAt, publishedAt :=
        account, overrides, status, scheduledAt, None;
    }

    ghost function Value(): Child
      reads this
    {
      Child(account, overrides, scheduledAt, status)
    }

    predicate CanTransitionTo(newStatus: Status)
      reads this
    {
      newStatus in ValidTransitions(status)
    }

    /** `transition_to`; false is its `ValueError`. */
    method TransitionTo(newStatus: Status, now: int) returns (ok: bool)
      modifies this`status, this`publishedAt
      ensures ok == old(CanTransitionTo(newStatus))
      ensures status == if ok then newStatus else old(status)
      ensures publishedAt == if ok && newStatus == Published then Some(now) else old(publishedAt)
    {
      if !CanTransitionTo(newStatus) {
        return false;
      }
      status := newStatus;
      if newStatus == Published {
        publishedAt := Some(now);
      }
      ok := true;
    }

    /** The transaction of `transition_platform_post`. */
    method Transition(to: Status, at: Option<int>, now: int) returns (ok: bool)
      modifies this
      ensures ok == (to in ValidTransitions(old(status)))
      ensures Value() == if ok then old(Value()).(status := to, scheduledAt := TimeAfter(old(scheduledAt), to, at))
                         else old(Value())
    {
      ok := TransitionTo(to, now);
      if ok {
        if to == Scheduled {
          if at.Some? {
            scheduledAt := at;
          }
        } else if to == Draft {
          scheduledAt := None;
        }
      }
    }

    /** `_transition_or_skip`. */
    method TransitionOrSkip(goal: Status, now: int) returns (moved: bool)
      requires goal != Published
      modifies this`status, this`publishedAt
      ensures moved == Accepts(old(status), goal) && publishedAt == old(publishedAt)
      ensures status == if moved then goal else old(status)
    {
      if status == goal {
        return true;
      }
      if !CanTransitionTo(goal) {
        return false;
      }
      moved := TransitionTo(goal, now);
    }

    /** One target of an action. Only an approval takes the second hop. */
    method Move(service: Service, mode: Mode, now: int) returns (accepted: bool)
      modifies this`status, this`publishedAt
      ensures accepted == Accepts(old(status), Goal(service))
      ensures Value() == Moved(old(Value()), service, mode)
    {
      var fromPendingReview := status == PendingReview;
      accepted := TransitionOrSkip(Goal(service), now);
      if accepted && service == Approve && mode == RequiredInternalAndClient && fromPendingReview {
        var _ := TransitionOrSkip(PendingClient, now);
      }
    }
  }

  ghost function ChildValues(rows: seq<PlatformPost>): (values: seq<Child>)
    reads rows
    ensures |values| == |rows|
  {
    if rows == [] then [] else ChildValues(rows[..|rows| - 1]) + [rows[|rows| - 1].Value()]
  }

  lemma {:induction false} ChildValuesAre(rows: seq<PlatformPost>)
    ensures forall i | 0 <= i < |rows| :: ChildValues(rows)[i] == rows[i].Value()
  {
    if rows != [] {
      ChildValuesAre(rows[..|rows| - 1]);
    }
  }

  /** A row of `ApprovalAction`; `child` is missing for a bundled decision. */
  datatype Action = Action(child: Option<nat>, user: int, service: Service, comment: string)

  class PostRow {
    const workspace: int
    const caption: string
    const details: string
    var scheduledAt: Option<int>
    var children: seq<PlatformPost>
    var actions: seq<Action>

    ghost predicate Valid()
      reads this
    {
      forall i, j | 0 <= i < j < |children| :: children[i] != children[j]
    }

    ghost function Value(): Post
      reads this, children
    {
      Post(workspace, caption, details, scheduledAt, ChildValues(children))
    }

    /** The rows that `create_post` inserts, and the sync that ends it. */
    constructor Create(workspace: int, caption: string, details: string, account: int, overrides: string, r: Request)
      ensures Valid() && actions == []
      ensures Value() == NewPost(workspace, caption, details, account, overrides, r)
    {
      this.workspace, this.caption, this.details := workspace, caption, details;
      var time := if r.status == Scheduled then r.scheduledAt else None;
      var child := new PlatformPost(account, overrides, r.status, time);
      scheduledAt, children, actions := time, [child], [];
      new;
      ghost var c := children[0].Value();
      assert ChildValues(children) == [c] && [] + [c] == [c];
      EarliestOfOneMore([], c);
      assert Value() == NewPost(workspace, caption, details, account, overrides, r);
      SyncPostScheduledAt();
    }

    /** `sync_post_scheduled_at`. */
    method SyncPostScheduledAt()
      modifies this`scheduledAt
      ensures Value() == Synced(old(Value()))
    {
      var earliest := EarliestOfTheChildren();
      if scheduledAt != earliest {
        scheduledAt := earliest;
      }
    }

    method EarliestOfTheChildren() returns (earliest: Option<int>)
      ensures earliest == Earliest(ChildValues(children))
    {
      ghost var values := ChildValues(children);
      ChildValuesAre(children);
      earliest := None;
      for i := 0 to |children|
        invariant earliest == Earliest(values[..i])
      {
        assert values[..i + 1] == values[..i] + [values[i]];
        EarliestOfOneMore(values[..i], values[i]);
        var t := children[i].scheduledAt;
        if t.Some? && (earliest.None? || t.value < earliest.value) {
          earliest := t;
        }
      }
      assert values[..|children|] == values;
    }

    /** `_resolve_targets`. */
    method ResolveTargets(service: Service, target: Option<nat>) returns (targets: seq<nat>)
      requires target.Some? ==> target.value < |children|
      ensures targets == TargetsOf(ChildValues(children), service, target)
    {
      if target.Some? {
        return [target.value];
      }
      targets := [];
      ghost var values := ChildValues(children);
      ChildValuesAre(children);
      for i := 0 to |children|
        invariant targets == EligibleAmong(values, service, i)
      {
        if children[i].status in Eligible(service) {
          targets := targets + [i];
        }
      }
    }

    /** The loop over the targets: `moved` tells that at least one got or already had the goal. */
    method MoveTargets(service: Service, mode: Mode, target: Option<nat>, now: int) returns (moved: bool)
      requires Valid() && (target.Some? ==> target.value < |children|)
      modifies children
      ensures (Value(), moved) == Effect(old(Value()), service, mode, target)
    {
      ghost var was := Value();
      var targets := ResolveTargets(service, target);
      TargetsAreInRange(was.children, service, target);
      moved := MoveAll(service, mode, targets, now);
      TargetsMove(was, service, mode, target, ChildValues(children), moved);
    }

    method MoveAll(service: Service, mode: Mode, targets: seq<nat>, now: int) returns (moved: bool)
      requires Valid() && forall k | 0 <= k < |targets| :: targets[k] < |children|
      modifies children
      ensures (ChildValues(children), moved) == MovedInTurn(old(ChildValues(children)), service, mode, targets)
    {
      ghost var was := ChildValues(children);
      moved := false;
      for k := 0 to |targets|
        invariant (ChildValues(children), moved) == MovedInTurn(was, service, mode, targets[..k])
      {
        OneMoreTurn(was, service, mode, targets, k);
        var accepted := MoveOne(service, mode, targets[k], now);
        moved := moved || accepted;
      }
      assert targets[..|targets|] == targets;
    }

    method MoveOne(service: Service, mode: Mode, i: nat, now: int) returns (accepted: bool)
      requires Valid() && i < |children|
      modifies children[i]
      ensures accepted == Accepts(old(ChildValues(children))[i].status, Goal(service))
      ensures ChildValues(children) ==
                old(ChildValues(children))[i := Moved(old(ChildValues(children))[i], service, mode)]
    {
      ghost var was := ChildValues(children);
      ChildValuesAre(children);
      accepted := children[i].Move(service, mode, now);
      ChildValuesAre(children);
      assert ChildValues(children) == was[i := children[i].Value()];
    }

    /** One of the five services; false is the `ValueError` for a missing comment. Whatever was moved leaves one
        action row. */
    method Perform(service: Service, mode: Mode, target: Option<nat>, user: int, comment: string, now: int)
      returns (ok: bool)
      requires Valid() && (target.Some? ==> target.value < |children|)
      modifies this`actions, children
      ensures Valid() && ok == !(service in {RequestChanges, Reject} && Blank(comment))
      ensures Value() == if ok then Performed(old(Value()), service, mode, target) else old(Value())
      ensures actions == old(actions) +
                         if ok && AnyMoved(old(Value()), service, target)
                         then [Action(target, user, service, comment)] else []
    {
      if service in {RequestChanges, Reject} && Blank(comment) {
        return false;
      }
      var moved := MoveTargets(service, mode, target, now);
      if moved {
        actions := actions + [Action(target, user, service, comment)];
      }
      ok := true;
    }

    /** `transition_platform_post`; false is its `ValueError`. */
    method TransitionPlatformPost(mode: Mode, i: nat, to: Status, at: Option<int>, now: int) returns (ok: bool)
      requires Valid() && i < |children|
      modifies this`scheduledAt, children[i]
      ensures Valid() && ok == MayTransition(mode, old(Value()).children[i].status, to)
      ensures Value() == Transitioned(mode, old(Value()), i, to, at)
    {
      if to == Scheduled && !GatePasses(mode) {
        return false;
      }
      ghost var was := Value();
      ok := TransitionChild(i, to, at, now);
      ghost var between := Value();
      if ok {
        assert Synced(between) == Transitioned(mode, was, i, to, at);
        SyncPostScheduledAt();
      }
    }

    method TransitionChild(i: nat, to: Status, at: Option<int>, now: int) returns (ok: bool)
      requires Valid() && i < |children|
      modifies children[i]
      ensures ok == (to in ValidTransitions(old(ChildValues(children))[i].status))
      ensures ChildValues(children) ==
                var was := old(ChildValues(children));
                if ok
                then was[i := was[i].(status := to, scheduledAt := TimeAfter(was[i].scheduledAt, to, at))]
                else was
    {
      ghost var was := ChildValues(children);
      ChildValuesAre(children);
      ok := children[i].Transition(to, at, now);
      ChildValuesAre(children);
      assert ChildValues(children) == was[i := children[i].Value()];
    }
  }

  /** `create_post`; null is one of its `ValueError`s. */
  method CreatePost(mode: Mode, workspace: int, caption: string, details: string, account: int, overrides: string,
                    r: Request)
    returns (post: PostRow?)
    ensures post != null <==> MayCreate(mode, r)
    ensures post != null ==>
              && fresh(post) && post.Valid()
              && post.Value() == NewPost(workspace, caption, details, account, overrides, r)
  {
    post := null;
    if r.status !in {Draft, Scheduled} || (r.status == Scheduled && r.scheduledAt.None?) {
      return;
    }
    if !r.sameWorkspace || r.needsReconnect {
      return;
    }
    if r.status == Scheduled && !GatePasses(mode) {
      return;
    }
    if !r.mediaFound {
      return;
    }
    post := new PostRow.Create(workspace, caption, details, account, overrides, r);
  }

  lemma {:induction false} EarliestOfOneMore(children: seq<Child>, c: Child)
    ensures Earliest(children + [c]) ==
              if c.scheduledAt.Some? && (Earliest(children).None? || c.scheduledAt.value < Earliest(children).value)
              then c.scheduledAt else Earliest(children)
  {
    if children != [] {
      assert (children + [c])[1..] == children[1..] + [c];
      EarliestOfOneMore(children[1..], c);
    }
  }

  /** One target after the other, and whether any of them was accepted. */
  ghost function MovedInTurn(was: seq<Child>, service: Service, mode: Mode, targets: seq<nat>): (r: (seq<Child>, bool))
    requires forall k | 0 <= k < |targets| :: targets[k] < |was|
    ensures |r.0| == |was|
  {
    if targets == [] then (was, false)
    else
      var n := |targets| - 1;
      var (before, any) := MovedInTurn(was, service, mode, targets[..n]);
      var t := targets[n];
      (before[t := Moved(before[t], service, mode)], any || Accepts(before[t].status, Goal(service)))
  }

  lemma {:induction false} OneMoreTurn(was: seq<Child>, service: Service, mode: Mode, targets: seq<nat>, k: nat)
    requires k < |targets| && forall i | 0 <= i < |targets| :: targets[i] < |was|
    ensures var (before, any) := MovedInTurn(was, service, mode, targets[..k]);
            var t := targets[k];
            MovedInTurn(was, service, mode, targets[..k + 1])
            == (before[t := Moved(before[t], service, mode)], any || Accepts(before[t].status, Goal(service)))
  {
    assert targets[..k + 1][..k] == targets[..k];
  }

  predicate Distinct(targets: seq<nat>) {
    forall i, j | 0 <= i < j < |targets| :: targets[i] != targets[j]
  }

  /** `targets` lists the targets of a call, each once. */
  ghost predicate AreTargets(p: Post, service: Service, target: Option<nat>, targets: seq<nat>) {
    && Distinct(targets)
    && forall i: nat :: i in targets <==> i < |p.children| && IsTarget(service, target, i, p.children[i].status)
  }

  /** Distinct targets do not disturb each other. */
  lemma {:induction false} TurnsAreIndependent(was: seq<Child>, service: Service, mode: Mode, targets: seq<nat>, i: nat)
    requires forall k | 0 <= k < |targets| :: targets[k] < |was|
    requires Distinct(targets) && i < |was|
    ensures MovedInTurn(was, service, mode, targets).0[i] ==
              if i in targets then Moved(was[i], service, mode) else was[i]
  {
    if targets != [] {
      var n := |targets| - 1;
      var before := targets[..n];
      TurnsAreIndependent(was, service, mode, before, i);
      assert i in targets <==> i in before || i == targets[n] by {
        assert targets == before + [targets[n]];
      }
      assert targets[n] !in before;
    }
  }

  lemma {:induction false} AnyInTurn(was: seq<Child>, service: Service, mode: Mode, targets: seq<nat>)
    requires forall k | 0 <= k < |targets| :: targets[k] < |was|
    requires Distinct(targets)
    ensures MovedInTurn(was, service, mode, targets).1 <==>
              exists k :: 0 <= k < |targets| && Accepts(was[targets[k]].status, Goal(service))
  {
    if targets != [] {
      var n := |targets| - 1;
      var before := targets[..n];
      AnyInTurn(was, service, mode, before);
      assert targets[n] !in before;
      TurnsAreIndependent(was, service, mode, before, targets[n]);
      assert forall k | 0 <= k < n :: before[k] == targets[k];
    }
  }

  /** The eligible ones among the first `n` children. */
  function EligibleAmong(children: seq<Child>, service: Service, n: nat): seq<nat>
    requires n <= |children|
  {
    if n == 0 then []
    else
      EligibleAmong(children, service, n - 1) + if children[n - 1].status in Eligible(service) then [n - 1] else []
  }

  function TargetsOf(children: seq<Child>, service: Service, target: Option<nat>): seq<nat> {
    if target.Some? then [target.value] else EligibleAmong(children, service, |children|)
  }

  lemma {:induction false} EligibleAreListed(children: seq<Child>, service: Service, n: nat)
    requires n <= |children|
    ensures Distinct(EligibleAmong(children, service, n))
    ensures forall i: nat ::
              i in EligibleAmong(children, service, n) <==> i < n && children[i].status in Eligible(service)
  {
    if n > 0 {
      EligibleAreListed(children, service, n - 1);
      var before := EligibleAmong(children, service, n - 1);
      assert forall k | 0 <= k < |before| :: before[k] in before;
    }
  }

  /** The targets of a call are the one child that it names, or each eligible child, once. */
  lemma TargetsAreListed(p: Post, service: Service, target: Option<nat>)
    requires target.Some? ==> target.value < |p.children|
    ensures AreTargets(p, service, target, TargetsOf(p.children, service, target))
  {
    EligibleAreListed(p.children, service, |p.children|);
  }

  lemma TargetsAreInRange(children: seq<Child>, service: Service, target: Option<nat>)
    requires target.Some? ==> target.value < |children|
    ensures var targets := TargetsOf(children, service, target);
            forall k | 0 <= k < |targets| :: targets[k] < |children|
  {
    var targets := TargetsOf(children, service, target);
    EligibleAreListed(children, service, |children|);
    assert forall k | 0 <= k < |targets| :: targets[k] in targets;
  }

  lemma {:induction false} TargetsMove(p: Post, service: Service, mode: Mode, target: Option<nat>, now: seq<Child>,
                                       moved: bool)
    requires target.Some? ==> target.value < |p.children|
    requires forall k | 0 <= k < |TargetsOf(p.children, service, target)| ::
               TargetsOf(p.children, service, target)[k] < |p.children|
    requires (now, moved) == MovedInTurn(p.children, service, mode, TargetsOf(p.children, service, target))
    ensures (p.(children := now), moved) == Effect(p, service, mode, target)
  {
    var targets := TargetsOf(p.children, service, target);
    TargetsAreListed(p, service, target);
    assert now == Performed(p, service, mode, target).children by {
      forall i: nat | i < |p.children| ensures now[i] == Performed(p, service, mode, target).children[i] {
        TurnsAreIndependent(p.children, service, mode, targets, i);
      }
    }
    AnyInTurn(p.children, service, mode, targets);
    AnyTargetMoved(p, service, target, targets);
  }

  lemma AnyTargetMoved(p: Post, service: Service, target: Option<nat>, targets: seq<nat>)
    requires AreTargets(p, service, target, targets)
    ensures AnyMoved(p, service, target) <==>
              exists k :: 0 <= k < |targets| && targets[k] < |p.children|
                          && Accepts(p.children[targets[k]].status, Goal(service))
  {
    if AnyMoved(p, service, target) {
      var i: nat :| i < |p.children| && IsTarget(service, target, i, p.children[i].status)
                    && Accepts(p.children[i].status, Goal(service));
      assert i in targets;
      var k :| 0 <= k < |targets| && targets[k] == i;
    }
    if k :| 0 <= k < |targets| && targets[k] < |p.children| && Accepts(p.children[targets[k]].status, Goal(service)) {
      assert targets[k] in targets;
    }
  }
}
