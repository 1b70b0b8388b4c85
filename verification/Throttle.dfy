/** The failed-authentication budget of one client address (`apps/api/limits.py`, `apps/api/auth.py`). */
module Throttle {
  import opened Prelude

  const AUTH_FAIL_LIMIT := 10
  const AUTH_FAIL_WINDOW_SECONDS := 60

  /** A counter in the cache, which has vanished once `expiresAt` is reached. Times count seconds. */
  datatype Counter = Counter(count: int, expiresAt: int)

  predicate Live(entry: Option<Counter>, now: int) {
    entry.Some? && now < entry.value.expiresAt
  }

  /** One request. The four times are those of the check and of the three cache calls that recording may make. */
  datatype Attempt = Attempt(check: int, secure: bool, valid: bool, add: int, incr: int, reseed: int)
  {
    predicate InOrder() { check <= add <= incr <= reseed }
  }

  predicate Blocked(entry: Option<Counter>, now: int) {
    Live(entry, now) && entry.value.count >= AUTH_FAIL_LIMIT
  }

  /** The request is refused and counts as a failure. */
  predicate Fails(entry: Option<Counter>, a: Attempt) {
    !Blocked(entry, a.check) && !(a.secure && a.valid)
  }

  /** When a failure is written to the counter. */
  function FailureTime(entry: Option<Counter>, a: Attempt): int {
    if !Live(entry, a.add) then a.add else if Live(entry, a.incr) then a.incr else a.reseed
  }

  function Recorded(entry: Option<Counter>, a: Attempt): Counter {
    if Live(entry, a.add) && Live(entry, a.incr) then entry.value.(count := entry.value.count + 1)
    else Counter(1, FailureTime(entry, a) + AUTH_FAIL_WINDOW_SECONDS)
  }

  function After(entry: Option<Counter>, a: Attempt): Option<Counter> {
    if Fails(entry, a) then Some(Recorded(entry, a)) else entry
  }

  class AuthThrottle {
    var entry: Option<Counter>

    constructor ()
      ensures entry.None?
    {
      entry := None;
    }

    /** `cache.get(key, 0)`. */
    method Get(now: int) returns (count: int)
      ensures count == if Live(entry, now) then entry.value.count else 0
    {
      count := if entry.Some? && now < entry.value.expiresAt then entry.value.count else 0;
    }

    /** `cache.add(key, 1, window)`. */
    method Add(now: int) returns (added: bool)
      modifies this
      ensures added == !Live(old(entry), now)
      ensures entry == if added then Some(Counter(1, now + AUTH_FAIL_WINDOW_SECONDS)) else old(entry)
    {
      added := !Live(entry, now);
      if added {
        entry := Some(Counter(1, now + AUTH_FAIL_WINDOW_SECONDS));
      }
    }

    /** `cache.incr(key)`; false is its `ValueError` for a missing key. */
    method Incr(now: int) returns (found: bool)
      modifies this
      ensures found == Live(old(entry), now)
      ensures entry == if found then Some(old(entry).value.(count := old(entry).value.count + 1)) else old(entry)
    {
      found := Live(entry, now);
      if found {
        entry := Some(entry.value.(count := entry.value.count + 1));
      }
    }

    /** `is_failed_auth_ip_blocked`. */
    method IsBlocked(now: int) returns (blocked: bool)
      ensures blocked == Blocked(entry, now)
    {
      var count := Get(now);
      blocked := count >= AUTH_FAIL_LIMIT;
    }

    /** `record_failed_auth`. */
    method RecordFailedAuth(a: Attempt)
      modifies this
      ensures entry == Some(Recorded(old(entry), a))
    {
      var added := Add(a.add);
      if !added {
        var found := Incr(a.incr);
        if !found {
          entry := Some(Counter(1, a.reseed + AUTH_FAIL_WINDOW_SECONDS));
        }
      }
    }

    /** `_pre_auth_reject`. */
    method PreAuthReject(a: Attempt) returns (rejected: bool)
      modifies this
      ensures rejected == (Blocked(old(entry), a.check) || !a.secure)
      ensures entry == if rejected then After(old(entry), a) else old(entry)
    {
      var blocked := IsBlocked(a.check);
      if blocked {
        return true;
      }
      if !a.secure {
        RecordFailedAuth(a);
        return true;
      }
      rejected := false;
    }

    /** `authenticate`; `a.valid` is what `verify_token` finds. */
    method Authenticate(a: Attempt) returns (accepted: bool)
      modifies this
      ensures accepted == (!Blocked(old(entry), a.check) && a.secure && a.valid)
      ensures entry == After(old(entry), a)
    {
      var rejected := PreAuthReject(a);
      if rejected {
        return false;
      }
      if !a.valid {
        RecordFailedAuth(a);
        return false;
      }
      accepted := true;
    }
  }

  // ---------------------------------------------------------------------
  // Whole runs
  // ---------------------------------------------------------------------

  /** A failure written at `at`, in the window that started at `start`. */
  datatype Failure = Failure(at: int, start: int)

  /** One request after the other. */
  predicate Sequential(run: seq<Attempt>) {
    && (forall i | 0 <= i < |run| :: run[i].InOrder())
    && (forall i, j | 0 <= i < j < |run| :: run[i].reseed <= run[j].check)
  }

  function EntryAfter(run: seq<Attempt>, n: nat): Option<Counter>
    requires n <= |run|
  {
    if n == 0 then None else After(EntryAfter(run, n - 1), run[n - 1])
  }

  function Log(run: seq<Attempt>, n: nat): seq<Failure>
    requires n <= |run|
  {
    if n == 0 then [] else Logged(Log(run, n - 1), EntryAfter(run, n - 1), run[n - 1])
  }

  function Logged(log: seq<Failure>, entry: Option<Counter>, a: Attempt): seq<Failure> {
    if Fails(entry, a) then
      log + [Failure(FailureTime(entry, a), Recorded(entry, a).expiresAt - AUTH_FAIL_WINDOW_SECONDS)]
    else log
  }

  /** Failure `i` is the first of its window. */
  predicate OpensWindow(log: seq<Failure>, i: nat)
    requires i < |log|
  {
    i == 0 || log[i - 1].start != log[i].start
  }

  /** Every failure lies in its window, which starts at a failure; windows do not overlap. */
  ghost predicate Windowed(log: seq<Failure>) {
    && (forall i | 0 <= i < |log| :: log[i].start <= log[i].at < log[i].start + AUTH_FAIL_WINDOW_SECONDS)
    && (forall i, j | 0 <= i < j < |log| ::
          log[j].start == log[i].start || log[i].start + AUTH_FAIL_WINDOW_SECONDS <= log[j].start)
    && (forall i: nat {:trigger OpensWindow(log, i)} | i < |log| && OpensWindow(log, i) :: log[i].at == log[i].start)
  }

  /** Ten failures later the window is another one. */
  ghost predicate TenPerWindow(log: seq<Failure>) {
    forall i, j | 0 <= i && i + AUTH_FAIL_LIMIT <= j < |log| :: log[i].start + AUTH_FAIL_WINDOW_SECONDS <= log[j].start
  }

  /** The counter counts the failures of the newest window. */
  ghost predicate Counts(log: seq<Failure>, entry: Option<Counter>) {
    match entry
    case None => log == []
    case Some(c) =>
      && 1 <= c.count <= AUTH_FAIL_LIMIT && c.count <= |log|
      && (forall i | |log| - c.count <= i < |log| :: log[i].start == c.expiresAt - AUTH_FAIL_WINDOW_SECONDS)
      && (forall i | 0 <= i < |log| - c.count :: log[i].start <= c.expiresAt - 2 * AUTH_FAIL_WINDOW_SECONDS)
  }

  ghost predicate Sound(log: seq<Failure>, entry: Option<Counter>) {
    Windowed(log) && TenPerWindow(log) && Counts(log, entry)
  }

  ghost predicate Inv(log: seq<Failure>, entry: Option<Counter>, clock: int) {
    Sound(log, entry) && forall i | 0 <= i < |log| :: log[i].at <= clock
  }

  /** One more failure in the window of the last. */
  lemma SameWindow(log: seq<Failure>, c: Counter, f: Failure)
    requires Windowed(log) && TenPerWindow(log) && Counts(log, Some(c)) && c.count < AUTH_FAIL_LIMIT
    requires f.start == c.expiresAt - AUTH_FAIL_WINDOW_SECONDS && f.start <= f.at < c.expiresAt
    ensures Windowed(log + [f]) && TenPerWindow(log + [f]) && Counts(log + [f], Some(c.(count := c.count + 1)))
  {
    var more := log + [f];
    assert log[|log| - 1].start == f.start;
    SameWindowGrows(log, f);
    forall i | 0 <= i && i + AUTH_FAIL_LIMIT <= |log| ensures more[i].start + AUTH_FAIL_WINDOW_SECONDS <= f.start {
      assert i < |log| - c.count;
    }
  }

  lemma SameWindowGrows(log: seq<Failure>, f: Failure)
    requires Windowed(log) && log != [] && log[|log| - 1].start == f.start
    requires f.start <= f.at < f.start + AUTH_FAIL_WINDOW_SECONDS
    ensures Windowed(log + [f])
  {
    var more := log + [f];
    forall i: nat {:trigger OpensWindow(more, i)} | i < |more| && OpensWindow(more, i)
      ensures more[i].at == more[i].start
    {
      assert i < |log| && OpensWindow(log, i);
    }
    forall i | 0 <= i < |log|
      ensures f.start == log[i].start || log[i].start + AUTH_FAIL_WINDOW_SECONDS <= f.start
    {
      assert i == |log| - 1 || log[|log| - 1].start == log[i].start
             || log[i].start + AUTH_FAIL_WINDOW_SECONDS <= log[|log| - 1].start;
    }
  }

  /** A failure after every window so far has ended. */
  lemma NewWindow(log: seq<Failure>, f: Failure)
    requires Windowed(log) && TenPerWindow(log) && f.start == f.at
    requires forall i | 0 <= i < |log| :: log[i].start + AUTH_FAIL_WINDOW_SECONDS <= f.start
    ensures Windowed(log + [f]) && TenPerWindow(log + [f])
    ensures Counts(log + [f], Some(Counter(1, f.start + AUTH_FAIL_WINDOW_SECONDS)))
  {
    var more := log + [f];
    assert forall i | 0 <= i < |log| :: more[i] == log[i];
    WindowedGrows(log, f);
  }

  lemma WindowedGrows(log: seq<Failure>, f: Failure)
    requires Windowed(log) && f.start == f.at
    requires forall i | 0 <= i < |log| :: log[i].start + AUTH_FAIL_WINDOW_SECONDS <= f.start
    ensures Windowed(log + [f])
  {
    var more := log + [f];
    forall i: nat {:trigger OpensWindow(more, i)} | i < |more| && OpensWindow(more, i)
      ensures more[i].at == more[i].start
    {
      assert i < |log| ==> OpensWindow(log, i);
    }
  }

  lemma WindowsHaveEnded(log: seq<Failure>, c: Counter, t: int)
    requires Windowed(log) && Counts(log, Some(c)) && c.expiresAt <= t
    ensures forall i | 0 <= i < |log| :: log[i].start + AUTH_FAIL_WINDOW_SECONDS <= t
  {
    forall i | 0 <= i < |log| ensures log[i].start + AUTH_FAIL_WINDOW_SECONDS <= t {
      assert i < |log| - c.count || |log| - c.count <= i;
    }
  }

  lemma RecordInTheWindow(log: seq<Failure>, entry: Option<Counter>, clock: int, a: Attempt)
    requires Inv(log, entry, clock) && a.InOrder() && clock <= a.check && Fails(entry, a)
    requires Live(entry, a.add) && Live(entry, a.incr)
    ensures Sound(Logged(log, entry, a), After(entry, a))
  {
    var f := Failure(a.incr, entry.value.expiresAt - AUTH_FAIL_WINDOW_SECONDS);
    assert log[|log| - 1].start <= log[|log| - 1].at <= clock;
    SameWindow(log, entry.value, f);
    assert Logged(log, entry, a) == log + [f];
  }

  lemma RecordOpensAWindow(log: seq<Failure>, entry: Option<Counter>, clock: int, a: Attempt)
    requires Inv(log, entry, clock) && a.InOrder() && clock <= a.check && Fails(entry, a)
    requires !(Live(entry, a.add) && Live(entry, a.incr))
    ensures Sound(Logged(log, entry, a), After(entry, a))
  {
    var at := FailureTime(entry, a);
    if entry.Some? {
      WindowsHaveEnded(log, entry.value, at);
    }
    NewWindow(log, Failure(at, at));
    assert Logged(log, entry, a) == log + [Failure(at, at)];
  }

  lemma StepKeepsInv(log: seq<Failure>, entry: Option<Counter>, clock: int, a: Attempt)
    requires Inv(log, entry, clock) && a.InOrder() && clock <= a.check
    ensures Inv(Logged(log, entry, a), After(entry, a), a.reseed)
  {
    if Fails(entry, a) {
      if Live(entry, a.add) && Live(entry, a.incr) {
        RecordInTheWindow(log, entry, clock, a);
      } else {
        RecordOpensAWindow(log, entry, clock, a);
      }
    }
    var more := Logged(log, entry, a);
    forall i | 0 <= i < |more| ensures more[i].at <= a.reseed {
      assert i < |log| ==> more[i] == log[i];
    }
  }

  lemma {:induction false} RunsKeepInv(run: seq<Attempt>, n: nat)
    requires Sequential(run) && 0 < n <= |run|
    ensures Inv(Log(run, n), EntryAfter(run, n), run[n - 1].reseed)
  {
    assert run[n - 1].InOrder();
    if n == 1 {
      assert Log(run, 0) == [] && EntryAfter(run, 0) == None;
      assert Inv([], None, run[0].check);
      StepKeepsInv([], None, run[0].check, run[0]);
    } else {
      RunsKeepInv(run, n - 1);
      StepKeepsInv(Log(run, n - 1), EntryAfter(run, n - 1), run[n - 2].reseed, run[n - 1]);
    }
  }

  /** One request after the other, on one counter: a window starts at its first failure and records at most ten.
      `ThrottleRaces` has requests that overlap. */
  lemma {:induction false} AtMostTenPerWindow(run: seq<Attempt>, i: nat, j: nat)
    requires Sequential(run) && i <= j < |Log(run, |run|)|
    requires Log(run, |run|)[i].start == Log(run, |run|)[j].start
    ensures j - i < AUTH_FAIL_LIMIT
    ensures OpensWindow(Log(run, |run|), i) ==> Log(run, |run|)[i].at == Log(run, |run|)[i].start
  {
    RunsKeepInv(run, |run|);
  }

  /** Failures that are no more than a window apart are less than twenty failures apart. */
  lemma {:induction false} LessThanTwentyApart(run: seq<Attempt>, i: nat, j: nat)
    requires Sequential(run) && i <= j < |Log(run, |run|)|
    ensures Log(run, |run|)[j].at <= Log(run, |run|)[i].at + AUTH_FAIL_WINDOW_SECONDS ==> j < i + 2 * AUTH_FAIL_LIMIT
  {
    RunsKeepInv(run, |run|);
    var log := Log(run, |run|);
    var mid := if i + AUTH_FAIL_LIMIT <= j then i + AUTH_FAIL_LIMIT else j;
    assert i + AUTH_FAIL_LIMIT <= mid ==> log[i].start + AUTH_FAIL_WINDOW_SECONDS <= log[mid].start;
    assert mid + AUTH_FAIL_LIMIT <= j ==> log[mid].start + AUTH_FAIL_WINDOW_SECONDS <= log[j].start;
  }

  ghost function Within(log: seq<Failure>, lo: int, hi: int): set<int> {
    set i | 0 <= i < |log| && lo <= log[i].at <= hi
  }

  /** The `n` indices from `m` on. */
  ghost function Interval(m: int, n: nat): (s: set<int>)
    ensures |s| == n && forall i :: i in s <==> m <= i < m + n
  {
    if n == 0 then {} else Interval(m, n - 1) + {m + n - 1}
  }

  /** The first failure at or after `lo`. */
  function FirstFrom(log: seq<Failure>, lo: int): (m: nat)
    ensures m <= |log| && (forall i | 0 <= i < m :: log[i].at < lo) && (m < |log| ==> lo <= log[m].at)
  {
    if log == [] then 0
    else
      var n := |log| - 1;
      var m := FirstFrom(log[..n], lo);
      if m < n || lo <= log[n].at then m else n + 1
  }

  /** No 60-second interval, ends included, sees more than 20 failures. */
  lemma {:induction false} AtMostTwentyPerInterval(run: seq<Attempt>, lo: int)
    requires Sequential(run)
    ensures |Within(Log(run, |run|), lo, lo + AUTH_FAIL_WINDOW_SECONDS)| <= 2 * AUTH_FAIL_LIMIT
  {
    var log := Log(run, |run|);
    var within := Within(log, lo, lo + AUTH_FAIL_WINDOW_SECONDS);
    var m := FirstFrom(log, lo);
    var interval := Interval(m, 2 * AUTH_FAIL_LIMIT);
    forall j | j in within ensures j in interval {
      LessThanTwentyApart(run, m, j);
    }
    assert interval == within + (interval - within);
  }

  /** A blocked request changes nothing, and no request moves the end of a window that has not ended. */
  lemma WindowsAreNotLengthened(entry: Option<Counter>, a: Attempt)
    requires a.InOrder()
    ensures Blocked(entry, a.check) ==> After(entry, a) == entry
    ensures Live(entry, a.reseed) ==> After(entry, a).Some? && After(entry, a).value.expiresAt == entry.value.expiresAt
  {
  }

  // ---------------------------------------------------------------------
  // Twenty is reached
  // ---------------------------------------------------------------------

  function Failed(t: int): Attempt {
    Attempt(t, true, false, t, t, t)
  }

  /** One failure at 0, nine at 59, and ten at 60. */
  function TwoBursts(): seq<Attempt> {
    seq(20, i requires 0 <= i < 20 => Failed(BurstTime(i)))
  }

  function BurstTime(i: int): int {
    if i == 0 then 0 else if i < 10 then 59 else 60
  }

  function BurstCounter(n: nat): Counter {
    if n <= 10 then Counter(n, 60) else Counter(n - 10, 120)
  }

  lemma BurstStep(n: nat)
    requires 1 < n <= 20
    ensures var before, a := Some(BurstCounter(n - 1)), Failed(BurstTime(n - 1));
            Fails(before, a) && After(before, a) == Some(BurstCounter(n)) && FailureTime(before, a) == BurstTime(n - 1)
  {
  }

  lemma {:induction false} TwoBurstsLog(n: nat)
    requires 0 < n <= 20
    ensures EntryAfter(TwoBursts(), n) == Some(BurstCounter(n))
    ensures |Log(TwoBursts(), n)| == n && forall i | 0 <= i < n :: Log(TwoBursts(), n)[i].at == BurstTime(i)
  {
    var run := TwoBursts();
    assert run[n - 1] == Failed(BurstTime(n - 1));
    if n == 1 {
      assert EntryAfter(run, 0) == None && Log(run, 0) == [];
    } else {
      TwoBurstsLog(n - 1);
      BurstStep(n);
      assert Log(run, n) == Log(run, n - 1) + [Log(run, n)[n - 1]];
    }
  }

  lemma TwoBurstsAreSequential()
    ensures Sequential(TwoBursts())
  {
    var run := TwoBursts();
    assert forall i | 0 <= i < 20 :: run[i] == Failed(BurstTime(i));
  }

  /** The documentation calls the window rolling; it is fixed, and 20 failures do fit into 60 seconds. */
  lemma TwentyIsReached()
    ensures Sequential(TwoBursts())
    ensures |Within(Log(TwoBursts(), |TwoBursts()|), 0, AUTH_FAIL_WINDOW_SECONDS)| == 2 * AUTH_FAIL_LIMIT
  {
    TwoBurstsAreSequential();
    TwoBurstsLog(20);
    AllWithin(Log(TwoBursts(), |TwoBursts()|), 0, AUTH_FAIL_WINDOW_SECONDS);
  }

  lemma AllWithin(log: seq<Failure>, lo: int, hi: int)
    requires forall i | 0 <= i < |log| :: lo <= log[i].at <= hi
    ensures |Within(log, lo, hi)| == |log|
  {
    assert Within(log, lo, hi) == Interval(0, |log|);
  }
}
