/** The dates of a recurrence rule (`apps/calendar/tasks.py`, `_compute_recurrence_dates`), in closed form and as the
    loop computes them. A day is its ordinal in `Calendar`. */
module RecurrenceDates {
  import opened Calendar
  import opened Prelude

  type Day = n: int | 1 <= n witness 1

  datatype Frequency = Daily | Weekly | Monthly | Other(name: string)

  const LOOKAHEAD_DAYS := 90

  const MAX_RECURRENCES: nat := LOOKAHEAD_DAYS * 2

  // ---------------------------------------------------------------------
  // The k-th date, said without stepping
  // ---------------------------------------------------------------------

  /** The least of the base day and of the lengths of the first `k` months stepped to. */
  ghost function ShortestSoFar(base: Date, interval: nat, k: nat): int {
    if k == 0 then base.d
    else
      var index := MonthIndex(base) + k * interval;
      Min(ShortestSoFar(base, interval, k - 1), MonthLength(index / 12, index % 12 + 1))
  }

  /** The `k`-th date: `k` steps of days or weeks, or `k * interval` months on with the day cut down to the
      shortest month so far. */
  ghost function Nth(base: Day, frequency: Frequency, interval: nat, k: nat): Day {
    match frequency
    case Daily => base + k * interval
    case Weekly => base + 7 * (k * interval)
    case Monthly =>
      var date := FromOrdinal(base);
      NthMonthIsValid(date, interval, k);
      Ordinal(NthMonth(date, interval, k))
    case Other(_) => base
  }

  ghost function NthMonth(base: Date, interval: nat, k: nat): Date {
    var index := MonthIndex(base) + k * interval;
    Date(index / 12, index % 12 + 1, ShortestSoFar(base, interval, k))
  }

  lemma {:induction false} NthMonthIsValid(base: Date, interval: nat, k: nat)
    requires base.Valid()
    ensures NthMonth(base, interval, k).Valid() && Ordinal(NthMonth(base, interval, k)) >= 1
    ensures 1 <= ShortestSoFar(base, interval, k) <= base.d
    ensures MonthIndex(NthMonth(base, interval, k)) == MonthIndex(base) + k * interval
  {
    assert k * interval >= 0;
    if k > 0 {
      NthMonthIsValid(base, interval, k - 1);
    }
    OrdinalIsPositive(NthMonth(base, interval, k));
  }

  lemma OrdinalIsPositive(date: Date)
    requires date.Valid()
    ensures Ordinal(date) >= 1
  {
    var first := Date(1, 1, 1);
    if MonthIndex(first) < MonthIndex(date) {
      LaterMonthIsLater(first, date);
    }
  }

  // ---------------------------------------------------------------------
  // The loop
  // ---------------------------------------------------------------------

  /** `current + timedelta(...)`, or `current + relativedelta(months=interval)`. */
  function Step(current: Day, frequency: Frequency, interval: nat): Day {
    match frequency
    case Daily => current + interval
    case Weekly => current + 7 * interval
    case Monthly => MonthsOn(current, interval)
    case Other(_) => current
  }

  function MonthsOn(current: Day, interval: nat): Day {
    var next := AddMonths(FromOrdinal(current), interval);
    OrdinalIsPositive(next);
    Ordinal(next)
  }

  ghost function NthOf(base: Day, frequency: Frequency, interval: nat): nat -> Day {
    (k: nat) => Nth(base, frequency, interval, k)
  }

  ghost predicate ListsFirst(dates: seq<Day>, f: nat -> Day, end: int) {
    forall k | 0 <= k < |dates| :: dates[k] == f(k + 1) && dates[k] <= end
  }

  /** `dates` is `f(1), f(2), ...` as long as they do not pass `end`, up to the limit. */
  ghost predicate ListsUpTo(dates: seq<Day>, f: nat -> Day, end: int) {
    && |dates| <= MAX_RECURRENCES
    && ListsFirst(dates, f, end)
    && (|dates| < MAX_RECURRENCES ==> f(|dates| + 1) > end)
  }

  /** The recurrence dates: the first dates up to `end`, at most 180. */
  ghost predicate IsRecurrence(dates: seq<Day>, base: Day, frequency: Frequency, interval: nat, end: int) {
    if frequency.Other? then dates == [] else ListsUpTo(dates, NthOf(base, frequency, interval), end)
  }

  method Advance(current: Day, frequency: Frequency, interval: nat) returns (next: Day)
    requires !frequency.Other?
    ensures next == Step(current, frequency, interval)
  {
    match frequency {
      case Daily => next := current + interval;
      case Weekly => next := current + 7 * interval;
      case Monthly => next := MonthsOn(current, interval);
    }
  }

  method ComputeRecurrenceDates(base: Day, frequency: Frequency, interval: nat, end: int) returns (dates: seq<Day>)
    ensures IsRecurrence(dates, base, frequency, interval, end)
  {
    ghost var nth := NthOf(base, frequency, interval);
    NthZero(base, frequency, interval);
    forall k: nat ensures Step(nth(k), frequency, interval) == nth(k + 1) {
      StepIsNext(base, frequency, interval, k);
    }
    dates := CollectDates(base, frequency, interval, end, nth);
  }

  /** The loop; `f` is the sequence of dates that it steps through. */
  method CollectDates(base: Day, frequency: Frequency, interval: nat, end: int, ghost f: nat -> Day)
    returns (dates: seq<Day>)
    requires f(0) == base
    requires forall k: nat {:trigger Step(f(k), frequency, interval)} :: Step(f(k), frequency, interval) == f(k + 1)
    ensures if frequency.Other? then dates == [] else ListsUpTo(dates, f, end)
  {
    dates := [];
    var current := base;
    for i := 0 to MAX_RECURRENCES
      invariant |dates| == i && current == f(i)
      invariant ListsFirst(dates, f, end)
      invariant frequency.Other? ==> i == 0
    {
      if frequency.Other? {
        break;
      }
      current := Advance(current, frequency, interval);
      if current > end {
        break;
      }
      dates := dates + [current];
    }
  }

  /** The list that `IsRecurrence` describes. */
  ghost function AllDates(base: Day, frequency: Frequency, interval: nat, end: int): seq<Day> {
    if frequency.Other? then [] else UpTo(NthOf(base, frequency, interval), end, 0)
  }

  /** `f(k + 1), f(k + 2), ...` as long as they do not pass `end`, up to the limit. */
  ghost function UpTo(f: nat -> Day, end: int, k: nat): seq<Day>
    requires k <= MAX_RECURRENCES
    decreases MAX_RECURRENCES - k
  {
    if k == MAX_RECURRENCES || f(k + 1) > end then [] else [f(k + 1)] + UpTo(f, end, k + 1)
  }

  lemma {:induction false} UpToIsComplete(f: nat -> Day, end: int, k: nat)
    requires k <= MAX_RECURRENCES
    ensures var ds := UpTo(f, end, k);
            && |ds| <= MAX_RECURRENCES - k
            && (forall i | 0 <= i < |ds| :: ds[i] == f(k + i + 1) && ds[i] <= end)
            && (|ds| < MAX_RECURRENCES - k ==> f(k + |ds| + 1) > end)
    decreases MAX_RECURRENCES - k
  {
    if k < MAX_RECURRENCES && f(k + 1) <= end {
      UpToIsComplete(f, end, k + 1);
      var rest, ds := UpTo(f, end, k + 1), UpTo(f, end, k);
      forall i | 1 <= i < |ds| ensures ds[i] == f(k + i + 1) && ds[i] <= end {
        assert ds[i] == rest[i - 1] == f((k + 1) + (i - 1) + 1);
      }
    }
  }

  lemma {:induction false} UpToLists(f: nat -> Day, end: int)
    ensures ListsUpTo(UpTo(f, end, 0), f, end)
  {
    UpToIsComplete(f, end, 0);
    var ds := UpTo(f, end, 0);
    forall k | 0 <= k < |ds| ensures ds[k] == f(k + 1) && ds[k] <= end {
      assert 0 + k + 1 == k + 1;
    }
  }

  lemma AllDatesAreTheRecurrence(base: Day, frequency: Frequency, interval: nat, end: int)
    ensures IsRecurrence(AllDates(base, frequency, interval, end), base, frequency, interval, end)
  {
    UpToLists(NthOf(base, frequency, interval), end);
  }

  lemma NthMonthZero(base: Date, interval: nat)
    requires base.Valid()
    ensures NthMonth(base, interval, 0) == base
  {
    assert 0 * interval == 0;
    assert MonthIndex(base) / 12 == base.y && MonthIndex(base) % 12 == base.m - 1;
  }

  lemma NthZero(base: Day, frequency: Frequency, interval: nat)
    ensures Nth(base, frequency, interval, 0) == base
  {
    match frequency
    case Monthly => NthMonthZero(FromOrdinal(base), interval);
    case _ =>
  }

  /** Month steps clamp cumulatively: a day once cut down stays cut down. */
  lemma MonthStepIsNext(base: Date, interval: nat, k: nat)
    requires base.Valid() && NthMonth(base, interval, k).Valid()
    ensures AddMonths(NthMonth(base, interval, k), interval) == NthMonth(base, interval, k + 1)
  {
    NthMonthIsValid(base, interval, k);
    var index := MonthIndex(NthMonth(base, interval, k));
    assert (k + 1) * interval == k * interval + interval;
    assert index + interval == MonthIndex(base) + (k + 1) * interval;
  }

  /** One step of the loop leads from the k-th date to the next. */
  lemma StepIsNext(base: Day, frequency: Frequency, interval: nat, k: nat)
    ensures Step(Nth(base, frequency, interval, k), frequency, interval) == Nth(base, frequency, interval, k + 1)
  {
    match frequency
    case Monthly =>
      var date := FromOrdinal(base);
      NthMonthIsValid(date, interval, k);
      NthMonthIsValid(date, interval, k + 1);
      var now := NthMonth(date, interval, k);
      OrdinalIsInjective(FromOrdinal(Ordinal(now)), now);
      MonthStepIsNext(date, interval, k);
    case Other(_) =>
    case _ =>
      assert (k + 1) * interval == k * interval + interval;
  }

  // ---------------------------------------------------------------------
  // Consequences
  // ---------------------------------------------------------------------

  lemma ListedAt(dates: seq<Day>, f: nat -> Day, end: int, k: nat)
    requires ListsUpTo(dates, f, end)
    ensures k < |dates| ==> f(k + 1) <= end
  {
    if k < |dates| {
      assert dates[k] == f(k + 1);
    }
  }

  lemma {:induction false} ListsAreUnique(a: seq<Day>, b: seq<Day>, f: nat -> Day, end: int)
    requires ListsUpTo(a, f, end) && ListsUpTo(b, f, end)
    ensures a == b
  {
    ListedAt(b, f, end, |a|);
    ListedAt(a, f, end, |b|);
    assert |a| <= MAX_RECURRENCES && |b| <= MAX_RECURRENCES;
    assert |a| == |b|;
    assert forall k | 0 <= k < |a| :: a[k] == b[k];
  }

  /** There is one list of recurrence dates. */
  lemma RecurrenceIsUnique(a: seq<Day>, b: seq<Day>, base: Day, frequency: Frequency, interval: nat, end: int)
    requires IsRecurrence(a, base, frequency, interval, end) && IsRecurrence(b, base, frequency, interval, end)
    ensures a == b
  {
    if !frequency.Other? {
      ListsAreUnique(a, b, NthOf(base, frequency, interval), end);
    }
  }

  lemma NthGrows(base: Day, frequency: Frequency, interval: nat, k: nat)
    requires !frequency.Other?
    ensures interval >= 1 ==> Nth(base, frequency, interval, k) < Nth(base, frequency, interval, k + 1)
    ensures interval == 0 ==> Nth(base, frequency, interval, k) == base
  {
    assert (k + 1) * interval == k * interval + interval;
    if frequency.Monthly? {
      var date := FromOrdinal(base);
      NthMonthIsValid(date, interval, k);
      NthMonthIsValid(date, interval, k + 1);
      if interval >= 1 {
        LaterMonthIsLater(NthMonth(date, interval, k), NthMonth(date, interval, k + 1));
      } else {
        ZeroMonthsStay(date, k);
      }
    }
  }

  lemma {:induction false} ZeroMonthsStay(base: Date, k: nat)
    requires base.Valid()
    ensures NthMonth(base, 0, k) == base
  {
    if k > 0 {
      ZeroMonthsStay(base, k - 1);
      assert k * 0 == 0 && (k - 1) * 0 == 0;
    }
  }

  lemma {:induction false} StepsAddUp(f: nat -> int, strict: bool, j: nat, k: nat)
    requires forall i: nat :: f(i) <= f(i + 1) && (strict ==> f(i) < f(i + 1))
    requires j <= k
    ensures f(j) <= f(k) && (strict && j < k ==> f(j) < f(k))
    decreases k - j
  {
    if j < k {
      StepsAddUp(f, strict, j, k - 1);
      assert f(k - 1) <= f(k - 1 + 1);
    }
  }

  lemma NthIsMonotone(base: Day, frequency: Frequency, interval: nat, j: nat, k: nat)
    requires !frequency.Other? && j <= k
    ensures Nth(base, frequency, interval, j) <= Nth(base, frequency, interval, k)
    ensures interval >= 1 && j < k ==> Nth(base, frequency, interval, j) < Nth(base, frequency, interval, k)
  {
    var f := (i: nat) => Nth(base, frequency, interval, i) as int;
    forall i: nat ensures f(i) <= f(i + 1) && (interval >= 1 ==> f(i) < f(i + 1)) {
      NthGrows(base, frequency, interval, i);
      NthGrows(base, frequency, interval, i + 1);
    }
    StepsAddUp(f, interval >= 1, j, k);
  }

  /** For every interval, also 0, the dates never go back. */
  lemma DatesNeverDescend(dates: seq<Day>, base: Day, frequency: Frequency, interval: nat, end: int)
    requires IsRecurrence(dates, base, frequency, interval, end)
    ensures Ascending(dates)
  {
    if !frequency.Other? {
      var f := NthOf(base, frequency, interval);
      forall j: nat, k: nat | j <= k ensures f(j) <= f(k) {
        NthIsMonotone(base, frequency, interval, j, k);
      }
      ListAscends(dates, f, end);
    }
  }

  lemma ListAscends(dates: seq<Day>, f: nat -> Day, end: int)
    requires ListsUpTo(dates, f, end) && forall j: nat, k: nat | j <= k :: f(j) <= f(k)
    ensures Ascending(dates)
  {
    forall i, j | 0 <= i < j < |dates| ensures dates[i] <= dates[j] {
      assert dates[i] == f(i + 1) && dates[j] == f(j + 1);
    }
  }

  /** With an interval of at least 1 the dates strictly increase and lie after the base; they miss none of
      the dates up to the end unless the limit of 180 cuts them off. */
  lemma DatesIncreaseAndAreComplete(dates: seq<Day>, base: Day, frequency: Frequency, interval: nat, end: int)
    requires IsRecurrence(dates, base, frequency, interval, end) && interval >= 1
    ensures Increasing(dates)
    ensures forall d | d in dates :: base < d <= end
    ensures forall k: nat | !frequency.Other? && 1 <= k <= MAX_RECURRENCES
                            && Nth(base, frequency, interval, k) <= end ::
              Nth(base, frequency, interval, k) in dates
  {
    if !frequency.Other? {
      NthZero(base, frequency, interval);
      var f := NthOf(base, frequency, interval);
      forall j: nat, k: nat | j < k ensures f(j) < f(k) {
        NthIsMonotone(base, frequency, interval, j, k);
      }
      assert f(0) == base;
      IncreasingListIsComplete(dates, f, end);
      forall k: nat | 1 <= k <= MAX_RECURRENCES && Nth(base, frequency, interval, k) <= end
        ensures Nth(base, frequency, interval, k) in dates
      {
        assert f(k) in dates;
      }
    }
  }

  lemma IncreasingListIsComplete(dates: seq<Day>, f: nat -> Day, end: int)
    requires ListsUpTo(dates, f, end) && forall j: nat, k: nat | j < k :: f(j) < f(k)
    ensures Increasing(dates) && forall d | d in dates :: f(0) < d <= end
    ensures forall k: nat | 1 <= k <= MAX_RECURRENCES && f(k) <= end :: f(k) in dates
  {
    forall k: nat | 1 <= k <= MAX_RECURRENCES && f(k) <= end ensures f(k) in dates {
      ReachesTheEnd(dates, f, end, k);
      assert dates[k - 1] == f(k - 1 + 1);
    }
  }

  lemma ReachesTheEnd(dates: seq<Day>, f: nat -> Day, end: int, k: nat)
    requires ListsUpTo(dates, f, end) && forall j: nat, k: nat | j < k :: f(j) < f(k)
    ensures k <= MAX_RECURRENCES && f(k) <= end ==> k <= |dates|
  {
    var n := |dates| + 1;
    assert n < k ==> f(n) < f(k);
  }

  /** The dates strictly increase if and only if the interval is positive or there are fewer than two. With
      interval 0, which the column allows, the base date comes 180 times. */
  lemma DatesIncreaseIffIntervalIsPositive(dates: seq<Day>, base: Day, frequency: Frequency, interval: nat, end: int)
    requires IsRecurrence(dates, base, frequency, interval, end)
    ensures Increasing(dates) <==> interval >= 1 || frequency.Other? || end < base
    ensures interval == 0 && !frequency.Other? && base <= end ==> dates == seq(MAX_RECURRENCES, _ => base)
  {
    if interval >= 1 {
      DatesIncreaseAndAreComplete(dates, base, frequency, interval, end);
    } else if !frequency.Other? {
      var f := NthOf(base, frequency, interval);
      forall k: nat ensures f(k) == base {
        NthGrows(base, frequency, interval, k);
      }
      ConstantList(dates, f, base, end);
    }
  }

  lemma ConstantList(dates: seq<Day>, f: nat -> Day, base: Day, end: int)
    requires ListsUpTo(dates, f, end) && forall k: nat :: f(k) == base
    ensures base <= end ==> dates == seq(MAX_RECURRENCES, _ => base)
    ensures Increasing(dates) <==> end < base
  {
    assert f(|dates| + 1) == base;
    if base <= end {
      assert dates[0] == base && dates[1] == base;
    } else {
      ListedAt(dates, f, end, 0);
      assert f(1) == base;
    }
  }

  lemma AllDatesAscend(base: Day, frequency: Frequency, interval: nat, end: int)
    ensures Ascending(AllDates(base, frequency, interval, end))
    ensures interval >= 1 ==> Increasing(AllDates(base, frequency, interval, end))
  {
    var dates := AllDates(base, frequency, interval, end);
    AllDatesAreTheRecurrence(base, frequency, interval, end);
    DatesNeverDescend(dates, base, frequency, interval, end);
    if interval >= 1 {
      DatesIncreaseAndAreComplete(dates, base, frequency, interval, end);
    }
  }

  lemma AllDatesIncreaseUnlessTheyStand(base: Day, frequency: Frequency, interval: nat, end: int)
    ensures var dates := AllDates(base, frequency, interval, end);
            if interval == 0 && !frequency.Other? && base <= end
            then |dates| == MAX_RECURRENCES && forall k | 0 <= k < |dates| :: dates[k] == base
            else Increasing(dates)
  {
    AllDatesAreTheRecurrence(base, frequency, interval, end);
    DatesIncreaseIffIntervalIsPositive(AllDates(base, frequency, interval, end), base, frequency, interval, end);
  }
}
