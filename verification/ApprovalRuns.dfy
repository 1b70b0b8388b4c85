/** What the approval workflow promises over whole runs. */
module ApprovalRuns {
  import opened Prelude
  import opened PostStatus
  import opened Posts
  import opened Approvals

  // ---------------------------------------------------------------------
  // Two-stage approval of one child
  // ---------------------------------------------------------------------

  /** A call of one of the five services on the whole post or on one child; `ok` is false when it raised. */
  datatype Call = Call(service: Service, target: Option<nat>, ok: bool)

  /** What can happen to a child: a service call, or `transition_platform_post` on it. */
  datatype Event = Called(call: Call) | Moved(to: Status)

  function AfterCall(mode: Mode, call: Call, i: nat, s: Status): Status {
    if call.ok then StatusAfter(call.service, mode, call.target, i, s) else s
  }

  /** A transition that raises changes nothing. */
  function AfterEvent(mode: Mode, e: Event, i: nat, s: Status): Status {
    match e
    case Called(call) => AfterCall(mode, call, i, s)
    case Moved(to) => if MayTransition(mode, s, to) then to else s
  }

  /** The statuses of child `i`, created as a draft, under the events. */
  ghost predicate IsTrace(mode: Mode, events: seq<Event>, i: nat, states: seq<Status>) {
    && |states| == |events| + 1 && states[0] == Draft
    && forall k | 0 <= k < |events| :: states[k + 1] == AfterEvent(mode, events[k], i, states[k])
  }

  /** From index `from` to index `to` the status does not change. */
  ghost predicate Rests(states: seq<Status>, from: nat, to: nat, s: Status) {
    to < |states| && from <= to && forall k | from <= k <= to :: states[k] == s
  }

  predicate CallsOk(e: Event, services: set<Service>) {
    e.Called? && e.call.ok && e.call.service in services
  }

  /** Event `a` submitted the child, which then rested in review until index `n`. */
  ghost predicate Submitted(events: seq<Event>, states: seq<Status>, a: nat, n: nat) {
    && a < |events| && a < n < |states|
    && CallsOk(events[a], {Submit, Resubmit})
    && states[a] in {Draft, ChangesRequested, Rejected}
    && Rests(states, a + 1, n, PendingReview)
  }

  /** After that, event `b` was an approval that sent it to the client, where it rested until index `n`. */
  ghost predicate InternallyApproved(events: seq<Event>, states: seq<Status>, a: nat, b: nat, n: nat) {
    && Submitted(events, states, a, b)
    && b < |events| && b < n && CallsOk(events[b], {Approve})
    && Rests(states, b + 1, n, PendingClient)
  }

  /** After that, event `c` was another approval, and the child has been approved ever since. */
  ghost predicate ClientApproved(events: seq<Event>, states: seq<Status>, a: nat, b: nat, c: nat, n: nat) {
    && InternallyApproved(events, states, a, b, c)
    && c < |events| && c < n && CallsOk(events[c], {Approve})
    && Rests(states, c + 1, n, Approved)
  }

  predicate UnderApproval(s: Status) {
    s in {PendingReview, PendingClient, Approved}
  }

  /** Event `k` was a transition that moved the child, and it has been under approval ever since. */
  ghost predicate Bypassed(events: seq<Event>, states: seq<Status>, k: nat, n: nat) {
    && k < |events| && k < n < |states| && events[k].Moved? && states[k + 1] != states[k]
    && forall j | k < j <= n :: UnderApproval(states[j])
  }

  /** How a child under approval can have come to its status. */
  ghost predicate Explained(events: seq<Event>, states: seq<Status>, n: nat)
    requires n < |states|
  {
    || (exists k: nat :: Bypassed(events, states, k, n))
    || match states[n]
       case PendingReview => exists a: nat :: Submitted(events, states, a, n)
       case PendingClient => exists a: nat, b: nat :: InternallyApproved(events, states, a, b, n)
       case Approved => exists a: nat, b: nat, c: nat :: ClientApproved(events, states, a, b, c, n)
       case _ => true
  }

  /** A service call takes a child under approval, or on within it, only along the workflow. */
  lemma OneCall(s: Status, call: Call, i: nat, s': Status)
    requires s' == AfterCall(RequiredInternalAndClient, call, i, s) && s' != s
    ensures s' == PendingReview ==>
              CallsOk(Called(call), {Submit, Resubmit}) && s in {Draft, ChangesRequested, Rejected}
    ensures s' == PendingClient ==> CallsOk(Called(call), {Approve}) && s == PendingReview
    ensures s' == Approved ==> CallsOk(Called(call), {Approve}) && s == PendingClient
  {
  }

  lemma ExtendsRest(states: seq<Status>, from: nat, to: nat, s: Status)
    requires Rests(states, from, to, s) && to + 1 < |states| && states[to + 1] == s
    ensures Rests(states, from, to + 1, s)
  {
  }

  lemma StaysBypassed(events: seq<Event>, states: seq<Status>, k: nat, n: nat)
    requires Bypassed(events, states, k, n) && n + 1 < |states| && UnderApproval(states[n + 1])
    ensures Bypassed(events, states, k, n + 1)
  {
  }

  lemma StillExplained(events: seq<Event>, states: seq<Status>, n: nat)
    requires n + 1 < |states| && Explained(events, states, n) && states[n + 1] == states[n]
    ensures Explained(events, states, n + 1)
  {
    if k: nat :| Bypassed(events, states, k, n) {
      StaysBypassed(events, states, k, n);
    } else {
      match states[n]
      case PendingReview =>
        var a: nat :| Submitted(events, states, a, n);
        ExtendsRest(states, a + 1, n, PendingReview);
        assert Submitted(events, states, a, n + 1);
      case PendingClient =>
        var a: nat, b: nat :| InternallyApproved(events, states, a, b, n);
        ExtendsRest(states, b + 1, n, PendingClient);
        assert InternallyApproved(events, states, a, b, n + 1);
      case Approved =>
        var a: nat, b: nat, c: nat :| ClientApproved(events, states, a, b, c, n);
        ExtendsRest(states, c + 1, n, Approved);
        assert ClientApproved(events, states, a, b, c, n + 1);
      case _ =>
    }
  }

  lemma NewlyExplained(events: seq<Event>, i: nat, states: seq<Status>, n: nat)
    requires IsTrace(RequiredInternalAndClient, events, i, states)
    requires n < |events| && Explained(events, states, n) && states[n + 1] != states[n]
    requires UnderApproval(states[n + 1])
    ensures Explained(events, states, n + 1)
  {
    if events[n].Moved? {
      assert Bypassed(events, states, n, n + 1);
    } else {
      OneCall(states[n], events[n].call, i, states[n + 1]);
      if states[n + 1] == PendingReview {
        assert Submitted(events, states, n, n + 1);
      } else if k: nat :| Bypassed(events, states, k, n) {
        StaysBypassed(events, states, k, n);
      } else if states[n + 1] == PendingClient {
        var a: nat :| Submitted(events, states, a, n);
        assert InternallyApproved(events, states, a, n, n + 1);
      } else {
        var a: nat, b: nat :| InternallyApproved(events, states, a, b, n);
        assert ClientApproved(events, states, a, b, n, n + 1);
      }
    }
  }

  lemma {:induction false} EveryStatusIsExplained(events: seq<Event>, i: nat, states: seq<Status>, n: nat)
    requires IsTrace(RequiredInternalAndClient, events, i, states) && n < |states|
    ensures Explained(events, states, n)
  {
    if n > 0 {
      EveryStatusIsExplained(events, i, states, n - 1);
      if states[n] == states[n - 1] {
        StillExplained(events, states, n - 1);
      } else if UnderApproval(states[n]) {
        NewlyExplained(events, i, states, n - 1);
      }
    }
  }

  /** In a two-stage workspace, whatever services and transitions are mixed, an approved child has been submitted
      and since then approved twice, first out of internal review and then out of client review; or a transition
      moved it, and it has been under approval ever since. */
  lemma ApprovedMeansTwoApprovalsOrATransition(events: seq<Event>, i: nat, states: seq<Status>, n: nat)
    requires IsTrace(RequiredInternalAndClient, events, i, states) && n < |states| && states[n] == Approved
    ensures (exists a: nat, b: nat, c: nat :: ClientApproved(events, states, a, b, c, n))
            || (exists k: nat :: Bypassed(events, states, k, n))
  {
    EveryStatusIsExplained(events, i, states, n);
  }

  /** Under the approval services alone it has been approved twice. */
  lemma ApprovedMeansTwoApprovals(events: seq<Event>, i: nat, states: seq<Status>, n: nat)
    requires IsTrace(RequiredInternalAndClient, events, i, states) && n < |states| && states[n] == Approved
    requires forall e | e in events :: e.Called?
    ensures exists a: nat, b: nat, c: nat :: ClientApproved(events, states, a, b, c, n)
  {
    ApprovedMeansTwoApprovalsOrATransition(events, i, states, n);
    forall k: nat ensures !Bypassed(events, states, k, n) {
      assert k < |events| ==> events[k] in events;
    }
  }

  /** In every other mode one approval is enough. */
  lemma OtherModesNeedOneApproval(mode: Mode, target: Option<nat>, i: nat)
    requires target.None? || target == Some(i)
    ensures StatusAfter(Approve, mode, target, i, PendingReview) == Approved <==> mode != RequiredInternalAndClient
  {
  }

  // ---------------------------------------------------------------------
  // Publishing without approval
  // ---------------------------------------------------------------------

  /** Behind the gate a child starts publishing only by a transition, as a draft, approved, or failed before. */
  lemma PublishingStarts(mode: Mode, e: Event, i: nat, s: Status)
    requires !GatePasses(mode) && s != Publishing && s != Scheduled && AfterEvent(mode, e, i, s) == Publishing
    ensures e == Moved(Publishing) && s in {Draft, Approved, Failed}
  {
  }

  lemma {:induction false} NeverScheduled(mode: Mode, events: seq<Event>, i: nat, states: seq<Status>, n: nat)
    requires !GatePasses(mode) && IsTrace(mode, events, i, states) && n < |states|
    ensures states[n] != Scheduled
  {
    if n > 0 {
      NeverScheduled(mode, events, i, states, n - 1);
    }
  }

  /** Up to index `n` the child has not been approved. */
  ghost predicate NotApprovedBy(states: seq<Status>, n: nat) {
    n < |states| && forall k | 0 <= k <= n :: states[k] != Approved
  }

  predicate BeingPublished(s: Status) {
    s in {Publishing, Published, Failed}
  }

  /** A draft that was never approved is told to publish. */
  ghost predicate PublishesADraft(events: seq<Event>, states: seq<Status>, k: nat) {
    k < |events| && events[k] == Moved(Publishing) && NotApprovedBy(states, k) && states[k] == Draft
  }

  lemma {:induction false} UnapprovedPublication(mode: Mode, events: seq<Event>, i: nat, states: seq<Status>, n: nat)
    requires !GatePasses(mode) && IsTrace(mode, events, i, states)
    requires NotApprovedBy(states, n) && BeingPublished(states[n])
    ensures exists k: nat :: k < n && PublishesADraft(events, states, k)
  {
    assert n > 0 && states[n] == AfterEvent(mode, events[n - 1], i, states[n - 1]);
    if BeingPublished(states[n - 1]) {
      UnapprovedPublication(mode, events, i, states, n - 1);
    } else {
      NeverScheduled(mode, events, i, states, n - 1);
      assert states[n] == Publishing;
      PublishingStarts(mode, events[n - 1], i, states[n - 1]);
      assert PublishesADraft(events, states, n - 1);
    }
  }

  /** The gate guards scheduling only. Where approval is required, a run gets a child into publication without its
      ever having been approved if and only if at some point it is told to publish while it is such a draft. */
  lemma PublishedWithoutApprovalIff(mode: Mode, events: seq<Event>, i: nat, states: seq<Status>)
    requires !GatePasses(mode) && IsTrace(mode, events, i, states)
    ensures (exists n: nat :: NotApprovedBy(states, n) && BeingPublished(states[n]))
            <==> (exists k: nat :: PublishesADraft(events, states, k))
  {
    if n: nat :| NotApprovedBy(states, n) && BeingPublished(states[n]) {
      UnapprovedPublication(mode, events, i, states, n);
    }
    if k: nat :| PublishesADraft(events, states, k) {
      assert states[k + 1] == AfterEvent(mode, events[k], i, states[k]) == Publishing;
      assert NotApprovedBy(states, k + 1);
    }
  }

  // ---------------------------------------------------------------------
  // Nothing is scheduled past the gate
  // ---------------------------------------------------------------------

  /** A call on the posts of one workspace. */
  datatype Op =
    | Act(post: nat, call: Call)
    | Create(post: nat, workspace: int, caption: string, details: string, account: int, overrides: string,
             request: Request)
    | Transition(post: nat, child: nat, to: Status, at: Option<int>)

  type Workspace = map<nat, Post>

  /** Calls on posts or children that are not there, and calls that raise, change nothing. */
  function Next(mode: Mode, posts: Workspace, op: Op): Workspace {
    match op
    case Act(p, call) =>
      if p in posts && call.ok then posts[p := Performed(posts[p], call.service, mode, call.target)] else posts
    case Create(p, workspace, caption, details, account, overrides, r) =>
      if p !in posts && MayCreate(mode, r)
      then posts[p := NewPost(workspace, caption, details, account, overrides, r)]
      else posts
    case Transition(p, i, to, at) =>
      if p in posts && i < |posts[p].children| then posts[p := Transitioned(mode, posts[p], i, to, at)] else posts
  }

  function Run(mode: Mode, ops: seq<Op>): Workspace {
    if ops == [] then map[] else Next(mode, Run(mode, ops[..|ops| - 1]), ops[|ops| - 1])
  }

  ghost predicate NoneScheduled(p: Post) {
    forall c | c in p.children :: c.status != Scheduled
  }

  lemma ActSchedulesNothing(p: Post, service: Service, mode: Mode, target: Option<nat>)
    requires NoneScheduled(p)
    ensures NoneScheduled(Performed(p, service, mode, target))
  {
    forall i: nat | i < |p.children| ensures StatusAfter(service, mode, target, i, p.children[i].status) != Scheduled {
      assert p.children[i] in p.children;
    }
  }

  /** In a workspace that requires approval no run of these services ever schedules a child: not by creating it,
      not by a transition, and not by any mix of approvals and transitions. */
  lemma {:induction false} NothingIsScheduledPastTheGate(mode: Mode, ops: seq<Op>, p: nat)
    requires !GatePasses(mode) && p in Run(mode, ops)
    ensures NoneScheduled(Run(mode, ops)[p])
  {
    if ops != [] {
      var before, op := Run(mode, ops[..|ops| - 1]), ops[|ops| - 1];
      if p in before {
        NothingIsScheduledPastTheGate(mode, ops[..|ops| - 1], p);
        if op.Act? && op.post == p {
          ActSchedulesNothing(before[p], op.call.service, mode, op.call.target);
        }
      }
    }
  }

  /** And the gate is what keeps it so: where it passes, a draft is scheduled by one call. */
  lemma {:induction false} WithoutTheGateOneCallSchedules(mode: Mode, create: Op, at: Option<int>)
    requires create.Create? && MayCreate(mode, create.request) && create.request.status == Draft
    ensures create.post in Run(mode, [create, Transition(create.post, 0, Scheduled, at)])
    ensures NoneScheduled(Run(mode, [create, Transition(create.post, 0, Scheduled, at)])[create.post])
            <==> !GatePasses(mode)
  {
    var ops := [create, Transition(create.post, 0, Scheduled, at)];
    assert ops[..1] == [create] && [create][..0] == [];
    assert Run(mode, [create]) == Next(mode, map[], create);
    assert Run(mode, ops) == Next(mode, Run(mode, [create]), ops[1]);
    var p := Run(mode, ops)[create.post];
    assert p.children[0] in p.children;
  }

  /** The post's time is the earliest of its children's, and a draft has no time. */
  ghost predicate TimesAreKept(p: Post) {
    p.scheduledAt == Earliest(p.children) && forall c | c in p.children && c.status == Draft :: c.scheduledAt.None?
  }

  lemma {:induction false} EarliestIgnoresStatus(a: seq<Child>, b: seq<Child>)
    requires |a| == |b| && forall i | 0 <= i < |a| :: a[i].scheduledAt == b[i].scheduledAt
    ensures Earliest(a) == Earliest(b)
  {
    if a != [] {
      EarliestIgnoresStatus(a[1..], b[1..]);
    }
  }

  lemma ActKeepsTimes(p: Post, service: Service, mode: Mode, target: Option<nat>)
    requires TimesAreKept(p)
    ensures TimesAreKept(Performed(p, service, mode, target))
  {
    var after := Performed(p, service, mode, target);
    EarliestIgnoresStatus(p.children, after.children);
    forall i | 0 <= i < |p.children| && after.children[i].status == Draft ensures after.children[i].scheduledAt.None? {
      assert p.children[i] in p.children && p.children[i].status == Draft;
    }
  }

  lemma CreateKeepsTimes(mode: Mode, workspace: int, caption: string, details: string, account: int,
                         overrides: string, r: Request)
    requires MayCreate(mode, r)
    ensures TimesAreKept(NewPost(workspace, caption, details, account, overrides, r))
  {
    var p := NewPost(workspace, caption, details, account, overrides, r);
    assert [] + p.children == p.children;
    EarliestOfOneMore([], p.children[0]);
  }

  /** In every mode, over every run: each post's time is the earliest of its children's, and drafts have none. */
  lemma {:induction false} TimesStayInStep(mode: Mode, ops: seq<Op>, p: nat)
    requires p in Run(mode, ops)
    ensures TimesAreKept(Run(mode, ops)[p])
  {
    if ops != [] {
      var before, op := Run(mode, ops[..|ops| - 1]), ops[|ops| - 1];
      if p in before {
        TimesStayInStep(mode, ops[..|ops| - 1], p);
        if op.Act? && op.post == p {
          ActKeepsTimes(before[p], op.call.service, mode, op.call.target);
        }
      } else {
        CreateKeepsTimes(mode, op.workspace, op.caption, op.details, op.account, op.overrides, op.request);
      }
    }
  }

  // ---------------------------------------------------------------------
  // The children of a run have traces
  // ---------------------------------------------------------------------

  /** What the call does to child `i` of post `p`, if it concerns it. */
  function EventsIn(op: Op, p: nat, i: nat): seq<Event> {
    match op
    case Act(q, call) => if q == p then [Called(call)] else []
    case Create(_, _, _, _, _, _, _) => []
    case Transition(q, j, to, _) => if q == p && j == i then [Moved(to)] else []
  }

  function StatusIn(posts: Workspace, p: nat, i: nat): Option<Status> {
    if p in posts && i < |posts[p].children| then Some(posts[p].children[i].status) else None
  }

  /** What has happened to the child since it was created. */
  function EventsOf(mode: Mode, ops: seq<Op>, p: nat, i: nat): seq<Event> {
    if ops == [] || p !in Run(mode, ops[..|ops| - 1]) then []
    else EventsOf(mode, ops[..|ops| - 1], p, i) + EventsIn(ops[|ops| - 1], p, i)
  }

  /** Its status when it was created, and after each of these events. */
  function StatesOf(mode: Mode, ops: seq<Op>, p: nat, i: nat): seq<Status> {
    var now := StatusIn(Run(mode, ops), p, i);
    if ops == [] || now.None? then []
    else if p !in Run(mode, ops[..|ops| - 1]) then [now.value]
    else
      StatesOf(mode, ops[..|ops| - 1], p, i)
      + if EventsIn(ops[|ops| - 1], p, i) == [] then [] else [now.value]
  }

  lemma OneOpOneEvent(mode: Mode, posts: Workspace, op: Op, p: nat, i: nat)
    requires StatusIn(posts, p, i).Some?
    ensures StatusIn(Next(mode, posts, op), p, i) ==
              Some(if EventsIn(op, p, i) == [] then StatusIn(posts, p, i).value
                   else AfterEvent(mode, EventsIn(op, p, i)[0], i, StatusIn(posts, p, i).value))
  {
  }

  lemma ChildrenStay(mode: Mode, posts: Workspace, op: Op, p: nat)
    requires p in posts
    ensures p in Next(mode, posts, op) && |Next(mode, posts, op)[p].children| == |posts[p].children|
  {
  }

  lemma TraceGrows(mode: Mode, events: seq<Event>, i: nat, states: seq<Status>, e: Event)
    requires IsTrace(mode, events, i, states)
    ensures IsTrace(mode, events + [e], i, states + [AfterEvent(mode, e, i, states[|events|])])
  {
  }

  /** Where approval is required, whatever has happened to a child of a run is a trace that ends in its status. */
  lemma {:induction false} RunsHaveTraces(mode: Mode, ops: seq<Op>, p: nat, i: nat)
    requires !GatePasses(mode) && p in Run(mode, ops) && i < |Run(mode, ops)[p].children|
    ensures var events, states := EventsOf(mode, ops, p, i), StatesOf(mode, ops, p, i);
            IsTrace(mode, events, i, states) && states[|events|] == Run(mode, ops)[p].children[i].status
  {
    if ops != [] {
      var n := |ops| - 1;
      var before, op := Run(mode, ops[..n]), ops[n];
      if p in before {
        ChildrenStay(mode, before, op, p);
        RunsHaveTraces(mode, ops[..n], p, i);
        OneOpOneEvent(mode, before, op, p, i);
        var events, states := EventsOf(mode, ops[..n], p, i), StatesOf(mode, ops[..n], p, i);
        if EventsIn(op, p, i) == [] {
          assert events + [] == events && states + [] == states;
        } else {
          TraceGrows(mode, events, i, states, EventsIn(op, p, i)[0]);
        }
      }
    }
  }

  /** So in a two-stage workspace an approved child of any run of creations, services and transitions has had two
      separate approvals since its last submission, or a transition moved it. */
  lemma {:induction false} ApprovedChildrenHadTwoApprovals(ops: seq<Op>, p: nat, i: nat)
    requires var posts := Run(RequiredInternalAndClient, ops);
             p in posts && i < |posts[p].children| && posts[p].children[i].status == Approved
    ensures var events := EventsOf(RequiredInternalAndClient, ops, p, i);
            var states := StatesOf(RequiredInternalAndClient, ops, p, i);
            || (exists a: nat, b: nat, c: nat :: ClientApproved(events, states, a, b, c, |events|))
            || (exists k: nat :: Bypassed(events, states, k, |events|))
  {
    RunsHaveTraces(RequiredInternalAndClient, ops, p, i);
    ApprovedMeansTwoApprovalsOrATransition(EventsOf(RequiredInternalAndClient, ops, p, i), i,
                                           StatesOf(RequiredInternalAndClient, ops, p, i),
                                           |EventsOf(RequiredInternalAndClient, ops, p, i)|);
  }

  /** And such a child got into publication without ever having been approved if and only if it was published as a
      draft. */
  lemma {:induction false} ChildrenPublishedWithoutApprovalIff(mode: Mode, ops: seq<Op>, p: nat, i: nat)
    requires !GatePasses(mode) && p in Run(mode, ops) && i < |Run(mode, ops)[p].children|
    ensures var events, states := EventsOf(mode, ops, p, i), StatesOf(mode, ops, p, i);
            (exists n: nat :: NotApprovedBy(states, n) && BeingPublished(states[n]))
            <==> (exists k: nat :: PublishesADraft(events, states, k))
  {
    RunsHaveTraces(mode, ops, p, i);
    PublishedWithoutApprovalIff(mode, EventsOf(mode, ops, p, i), i, StatesOf(mode, ops, p, i));
  }
}
