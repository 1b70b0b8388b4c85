/** The aggregate status of a post (`apps/composer/status.py`). */
module PostStatus {
  import opened Prelude

  datatype Status =
    | Draft | ChangesRequested | Rejected | PendingReview | PendingClient | Approved | Scheduled | Publishing
    | PartiallyPublished | Published | Failed

  /** The index in `_WORKFLOW_ORDER`; `failed` is not in that list and ranks behind it. */
  function Rank(s: Status): nat {
    match s
    case Draft => 0
    case ChangesRequested => 1
    case Rejected => 2
    case PendingReview => 3
    case PendingClient => 4
    case Approved => 5
    case Scheduled => 6
    case Publishing => 7
    case PartiallyPublished => 8
    case Published => 9
    case Failed => 10
  }

  /** `[s for s in statuses if s]`: a missing or empty status is dropped. */
  function Values(statuses: seq<Option<Status>>): seq<Status> {
    if statuses == [] then []
    else (if statuses[0].Some? then [statuses[0].value] else []) + Values(statuses[1..])
  }

  /** `min(values, key=_rank)`. */
  function Lowest(values: seq<Status>): Status
    requires values != []
  {
    if |values| == 1 then values[0]
    else
      var rest := Lowest(values[1..]);
      if Rank(values[0]) <= Rank(rest) then values[0] else rest
  }

  /** `derive_post_status`. */
  function DerivePostStatus(statuses: seq<Option<Status>>): Status {
    var values := Values(statuses);
    if values == [] then Draft
    else
      var unique := set s | s in values;
      if |unique| == 1 then values[0]
      else if unique <= {Published, Failed} then
        if Published in unique && Failed in unique then PartiallyPublished
        else if unique == {Published} then Published
        else Failed
      else Lowest(values)
  }

  // ---------------------------------------------------------------------
  // The semilattice
  // ---------------------------------------------------------------------

  /** A chain up to `partially_published`, with `published` and `failed` side by side above it. */
  predicate Below(a: Status, b: Status) {
    a == b || (Rank(a) < Rank(b) && !(a == Published && b == Failed))
  }

  /** `glb` is below every value, and above everything that is. */
  ghost predicate IsGreatestLowerBound(glb: Status, values: seq<Status>) {
    && (forall s | s in values :: Below(glb, s))
    && (forall lower | forall s | s in values :: Below(lower, s) :: Below(lower, glb))
  }

  lemma BelowIsAPartialOrder(a: Status, b: Status, c: Status)
    ensures Below(a, a)
    ensures Below(a, b) && Below(b, a) ==> a == b
    ensures Below(a, b) && Below(b, c) ==> Below(a, c)
  {
  }

  lemma GreatestLowerBoundIsUnique(a: Status, b: Status, values: seq<Status>)
    requires IsGreatestLowerBound(a, values) && IsGreatestLowerBound(b, values)
    ensures a == b
  {
    assert Below(a, b) && Below(b, a);
    BelowIsAPartialOrder(a, b, a);
  }

  lemma {:induction false} LowestIsLowest(values: seq<Status>)
    requires values != []
    ensures Lowest(values) in values
    ensures forall s | s in values :: Rank(Lowest(values)) <= Rank(s)
  {
    if |values| > 1 {
      LowestIsLowest(values[1..]);
      assert forall s :: s in values <==> s == values[0] || s in values[1..];
    }
  }

  lemma OnlyElement(values: seq<Status>)
    requires values != []
    ensures |set s | s in values| == 1 <==> forall s | s in values :: s == values[0]
  {
    var unique := set s | s in values;
    assert values[0] in unique;
    assert (forall s | s in values :: s == values[0]) ==> unique == {values[0]};
    if |unique| == 1 {
      assert |unique - {values[0]}| == 0;
      forall s | s in values ensures s == values[0] {
        assert s in unique;
      }
    }
  }

  /** A least-ranked value that is a lower bound is the greatest one. */
  lemma MemberIsGreatest(m: Status, values: seq<Status>)
    requires m in values && forall s | s in values :: Below(m, s)
    ensures IsGreatestLowerBound(m, values)
  {
  }

  lemma MixedOutcome(values: seq<Status>)
    requires Published in values && Failed in values
    requires forall s | s in values :: s == Published || s == Failed
    ensures IsGreatestLowerBound(PartiallyPublished, values)
  {
    forall lower | forall s | s in values :: Below(lower, s) ensures Below(lower, PartiallyPublished) {
      assert Below(lower, Published) && Below(lower, Failed);
    }
  }

  lemma {:induction false} LowestIsBelow(values: seq<Status>)
    requires values != [] && exists s | s in values :: s != Published && s != Failed
    ensures IsGreatestLowerBound(Lowest(values), values)
  {
    LowestIsLowest(values);
    var s :| s in values && s != Published && s != Failed;
    assert Rank(Lowest(values)) <= Rank(s) < 9;
    MemberIsGreatest(Lowest(values), values);
  }

  /** The two terminal outcomes and nothing else: all published, all failed, or partially published. */
  lemma {:induction false} TerminalOutcome(statuses: seq<Option<Status>>)
    requires Values(statuses) != [] && forall s | s in Values(statuses) :: s == Published || s == Failed
    ensures IsGreatestLowerBound(DerivePostStatus(statuses), Values(statuses))
  {
    var values := Values(statuses);
    var unique := set s | s in values;
    OnlyElement(values);
    assert values[0] in values && values[0] in unique;
    if |unique| == 1 {
      MemberIsGreatest(values[0], values);
    } else {
      var other :| other in values && other != values[0];
      assert other in unique;
      MixedOutcome(values);
    }
  }

  /** Some child is still on its way: the status furthest behind. */
  lemma {:induction false} UnfinishedOutcome(statuses: seq<Option<Status>>, s: Status)
    requires s in Values(statuses) && s != Published && s != Failed
    ensures DerivePostStatus(statuses) == Lowest(Values(statuses))
  {
    var values := Values(statuses);
    var unique := set s | s in values;
    OnlyElement(values);
    LowestIsLowest(values);
    assert s in unique && !(unique <= {Published, Failed});
  }

  /** The aggregate is the greatest lower bound of the children's statuses. */
  lemma {:induction false} DerivedIsTheGreatestLowerBound(statuses: seq<Option<Status>>)
    requires Values(statuses) != []
    ensures IsGreatestLowerBound(DerivePostStatus(statuses), Values(statuses))
  {
    if forall s | s in Values(statuses) :: s == Published || s == Failed {
      TerminalOutcome(statuses);
    } else {
      var s :| s in Values(statuses) && s != Published && s != Failed;
      UnfinishedOutcome(statuses, s);
      LowestIsBelow(Values(statuses));
    }
  }

  lemma {:induction false} ValuesConcat(xs: seq<Option<Status>>, ys: seq<Option<Status>>)
    ensures Values(xs + ys) == Values(xs) + Values(ys)
  {
    if xs == [] {
      assert xs + ys == ys;
    } else {
      assert (xs + ys)[0] == xs[0] && (xs + ys)[1..] == xs[1..] + ys;
      ValuesConcat(xs[1..], ys);
    }
  }

  /** Order and repetition do not matter, only which statuses occur. */
  lemma {:induction false} OrderAndDuplicatesDoNotMatter(xs: seq<Option<Status>>, ys: seq<Option<Status>>)
    requires forall s :: s in Values(xs) <==> s in Values(ys)
    ensures DerivePostStatus(xs) == DerivePostStatus(ys)
  {
    assert |Values(ys)| > 0 ==> Values(ys)[0] in Values(xs);
    if Values(xs) != [] {
      assert Values(xs)[0] in Values(ys);
      DerivedIsTheGreatestLowerBound(xs);
      DerivedIsTheGreatestLowerBound(ys);
      GreatestLowerBoundIsUnique(DerivePostStatus(xs), DerivePostStatus(ys), Values(xs));
    }
  }

  lemma BoundOfBounds(xs: seq<Status>, ys: seq<Status>, a: Status, b: Status, ab: Status)
    requires IsGreatestLowerBound(a, xs) && IsGreatestLowerBound(b, ys) && IsGreatestLowerBound(ab, [a, b])
    ensures IsGreatestLowerBound(ab, xs + ys)
  {
    assert a in [a, b] && b in [a, b];
    forall s | s in xs + ys ensures Below(ab, s) {
      BelowIsAPartialOrder(ab, a, s);
      BelowIsAPartialOrder(ab, b, s);
    }
    forall lower | forall s | s in xs + ys :: Below(lower, s) ensures Below(lower, ab) {
      assert forall s | s in xs :: s in xs + ys;
      assert forall s | s in ys :: s in xs + ys;
    }
  }

  /** Aggregating two groups and then their aggregates is aggregating all children at once. */
  lemma {:induction false} DeriveIsCompositional(xs: seq<Option<Status>>, ys: seq<Option<Status>>)
    requires Values(xs) != [] && Values(ys) != []
    ensures DerivePostStatus(xs + ys)
            == DerivePostStatus([Some(DerivePostStatus(xs)), Some(DerivePostStatus(ys))])
  {
    var a, b := DerivePostStatus(xs), DerivePostStatus(ys);
    var both := [Some(a), Some(b)];
    ValuesConcat([Some(a)], [Some(b)]);
    assert both == [Some(a)] + [Some(b)] && [Some(a)][1..] == [] && [Some(b)][1..] == [];
    assert Values(both) == [a, b];
    ValuesConcat(xs, ys);
    var all := Values(xs) + Values(ys);
    DerivedIsTheGreatestLowerBound(xs);
    DerivedIsTheGreatestLowerBound(ys);
    DerivedIsTheGreatestLowerBound(both);
    DerivedIsTheGreatestLowerBound(xs + ys);
    var ab := DerivePostStatus(both);
    BoundOfBounds(Values(xs), Values(ys), a, b, ab);
    GreatestLowerBoundIsUnique(DerivePostStatus(xs + ys), ab, all);
  }
}
