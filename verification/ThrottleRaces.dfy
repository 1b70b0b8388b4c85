/** The failed-authentication budget when requests overlap: the cache calls of many threads, in any order. */
module ThrottleRaces {
  import opened Prelude
  import opened Throttle

  /** The requests of one address differ only in how far they are: `passed` have passed the check and will fail,
      `present` found the counter when they added, `gone` found none when they incremented. `since`, `failures` and
      `log` are history: since when there has been a counter without a break, and the failures from then on. */
  datatype State = State(now: int, entry: Option<Counter>, passed: nat, present: nat, gone: nat,
                         since: int, failures: nat, log: seq<Failure>)
  {
    predicate HasCounter() { Live(entry, now) }

    function InProgress(): nat { passed + present + gone }
  }

  const INITIAL := State(0, None, 0, 0, 0, 0, 0, [])

  /** One call of the cache. */
  datatype Step =
    | Check(secure: bool, valid: bool)   // a request arrives
    | AddStep                            // cache.add
    | IncrStep                           // cache.incr
    | ReseedStep                         // cache.set
    | Tick(seconds: nat)

  /** One more failure. */
  function Failed(st: State): State {
    st.(failures := st.failures + 1, log := st.log + [Failure(st.now, st.since)])
  }

  /** A counter of one failure, on top of whatever there is. */
  function Seeded(st: State): State {
    var open := if st.HasCounter() then st else st.(since := st.now, failures := 0);
    Failed(open.(entry := Some(Counter(1, st.now + AUTH_FAIL_WINDOW_SECONDS))))
  }

  /** A call that no request is ready for changes nothing. */
  function Next(st: State, step: Step): State {
    match step
    case Check(secure, valid) =>
      if Blocked(st.entry, st.now) || (secure && valid) then st else st.(passed := st.passed + 1)
    case AddStep =>
      if st.passed == 0 then st
      else if st.HasCounter() then st.(passed := st.passed - 1, present := st.present + 1)
      else Seeded(st.(passed := st.passed - 1))
    case IncrStep =>
      if st.present == 0 then st
      else if st.HasCounter() then
        Failed(st.(present := st.present - 1, entry := Some(st.entry.value.(count := st.entry.value.count + 1))))
      else st.(present := st.present - 1, gone := st.gone + 1)
    case ReseedStep =>
      if st.gone == 0 then st else Seeded(st.(gone := st.gone - 1))
    case Tick(n) => st.(now := st.now + n)
  }

  function Run(st: State, steps: seq<Step>): State
    decreases |steps|
  {
    if steps == [] then st else Run(Next(st, steps[0]), steps[1..])
  }

  /** At no time are more than `k` requests in progress. */
  ghost predicate Overlap(st: State, steps: seq<Step>, k: nat)
    decreases |steps|
  {
    st.InProgress() <= k && (steps != [] ==> Overlap(Next(st, steps[0]), steps[1..], k))
  }

  // ---------------------------------------------------------------------
  // How many failures the life of a counter sees
  // ---------------------------------------------------------------------

  /** What the lives after `r` more re-seedings can see: with `m` requests left to re-seed, one seeding is followed by
      failures up to a count of nine and by those that then pass the check together. */
  function Later(k: nat, r: nat): nat
    requires r <= k
  {
    if r == 0 then 0 else Later(k, r - 1) + (AUTH_FAIL_LIMIT - 1 + k - (r - 1))
  }

  /** The most failures while there is a counter without a break, if at most `k` requests overlap. */
  function PerLife(k: nat): nat {
    Later(k, k)
  }

  lemma {:induction false} LaterInClosedForm(k: nat, r: nat)
    requires r <= k
    ensures 2 * Later(k, r) == r * (2 * AUTH_FAIL_LIMIT + 2 * k - 1 - r)
  {
    if r > 0 {
      LaterInClosedForm(k, r - 1);
      assert (r - 1) * (2 * AUTH_FAIL_LIMIT + 2 * k - r)
          == r * (2 * AUTH_FAIL_LIMIT + 2 * k - r) - (2 * AUTH_FAIL_LIMIT + 2 * k - r);
      assert r * (2 * AUTH_FAIL_LIMIT + 2 * k - 1 - r) == r * (2 * AUTH_FAIL_LIMIT + 2 * k - r) - r;
    }
  }

  /** Ten for one request at a time, 21 for two, and for `k` of them `9 k` and the first `k` numbers. */
  lemma {:induction false} PerLifeInClosedForm(k: nat)
    ensures 2 * PerLife(k) == k * (k + 2 * AUTH_FAIL_LIMIT - 1)
    ensures PerLife(1) == AUTH_FAIL_LIMIT && PerLife(2) == 2 * AUTH_FAIL_LIMIT + 1
  {
    LaterInClosedForm(k, k);
    assert PerLife(2) == Later(2, 1) + AUTH_FAIL_LIMIT && Later(2, 1) == AUTH_FAIL_LIMIT + 1;
    assert PerLife(1) == Later(1, 0) + AUTH_FAIL_LIMIT;
  }

  lemma {:induction false} LaterGrows(k: nat, r: nat, q: nat)
    requires r <= q <= k
    ensures Later(k, r) <= Later(k, q)
    decreases q - r
  {
    if r < q {
      LaterGrows(k, r, q - 1);
    }
  }

  // ---------------------------------------------------------------------
  // What every run keeps
  // ---------------------------------------------------------------------

  /** Failures come in lives of counters, which do not overlap and last a window or longer. */
  ghost predicate InLives(log: seq<Failure>) {
    && (forall i | 0 <= i < |log| :: log[i].start <= log[i].at)
    && (forall i, j | 0 <= i < j < |log| :: log[j].start == log[i].start || Ended(log[i], log[j].start))
  }

  predicate Ended(f: Failure, t: int) {
    f.at < t && f.start + AUTH_FAIL_WINDOW_SECONDS <= t
  }

  ghost predicate AtMostPerLife(log: seq<Failure>, bound: nat) {
    forall i, j | 0 <= i && i + bound <= j < |log| :: log[i].start != log[j].start
  }

  /** The last `failures` entries of the log are those of the current life. */
  ghost predicate Counts(st: State) {
    && st.failures <= |st.log|
    && (forall i | |st.log| - st.failures <= i < |st.log| :: st.log[i].start == st.since)
    && (forall i | 0 <= i < |st.log| - st.failures :: Ended(st.log[i], st.since))
  }

  ghost predicate EndsLater(st: State) {
    match st.entry
    case None => st.log == []
    case Some(c) =>
      && c.count >= 1 && st.since + AUTH_FAIL_WINDOW_SECONDS <= c.expiresAt
      && forall i | 0 <= i < |st.log| :: st.log[i].at < c.expiresAt
  }

  /** While there is a counter: its count and the requests in progress leave room for no more than this. */
  predicate Room(k: nat, st: State) {
    st.gone <= k && (st.HasCounter() ==>
      var c := st.entry.value.count;
      && c + st.InProgress() <= AUTH_FAIL_LIMIT - 1 + k
      && st.failures + (AUTH_FAIL_LIMIT - 1 + k - st.gone - c) + Later(k, st.gone) <= PerLife(k))
  }

  ghost predicate Inv(k: nat, st: State) {
    && InLives(st.log) && AtMostPerLife(st.log, PerLife(k))
    && (forall i | 0 <= i < |st.log| :: st.log[i].at <= st.now)
    && Counts(st) && EndsLater(st) && Room(k, st) && st.failures <= PerLife(k)
  }

  /** One more failure of the current life. */
  lemma FailedKeepsLives(k: nat, st: State)
    requires InLives(st.log) && AtMostPerLife(st.log, PerLife(k)) && Counts(st)
    requires (forall i | 0 <= i < |st.log| :: st.log[i].at <= st.now) && st.since <= st.now
    requires st.failures < PerLife(k)
    ensures InLives(Failed(st).log) && AtMostPerLife(Failed(st).log, PerLife(k)) && Counts(Failed(st))
    ensures forall i | 0 <= i < |Failed(st).log| :: Failed(st).log[i].at <= st.now
  {
    var log, more := st.log, Failed(st).log;
    forall i | 0 <= i < |log| ensures more[|log|].start == more[i].start || Ended(more[i], more[|log|].start) {
      assert i < |log| - st.failures ==> Ended(log[i], st.since);
    }
    forall i | 0 <= i && i + PerLife(k) <= |log| ensures more[i].start != st.since {
      assert i < |log| - st.failures && Ended(log[i], st.since);
    }
  }

  lemma RoomAfterCheck(k: nat, st: State, secure: bool, valid: bool)
    requires Room(k, st) && Next(st, Check(secure, valid)).InProgress() <= k
    ensures Room(k, Next(st, Check(secure, valid)))
  {
  }

  lemma RoomAfterIncr(k: nat, st: State)
    requires Room(k, st) && EndsLater(st)
    ensures Room(k, Next(st, IncrStep)) || (!st.HasCounter() && Next(st, IncrStep).gone > k)
    ensures st.present > 0 && st.HasCounter() ==> st.failures < PerLife(k)
  {
  }

  /** A new counter finds room for itself and for what the requests in progress can still do. */
  lemma RoomAfterSeeding(k: nat, st: State)
    requires Room(k, st) && st.InProgress() < k && !st.HasCounter()
    ensures Room(k, Seeded(st)) && Seeded(st).failures == 1 <= PerLife(k)
  {
    assert Later(k, st.gone + 1) == Later(k, st.gone) + (AUTH_FAIL_LIMIT - 1 + k - st.gone);
    LaterGrows(k, st.gone + 1, k);
  }

  /** A counter that is overwritten hands its room on. */
  lemma RoomAfterReseeding(k: nat, st: State)
    requires Room(k, st) && st.HasCounter() && st.gone > 0 && st.InProgress() <= k
    ensures Room(k, Next(st, ReseedStep)) && st.failures < PerLife(k)
  {
    assert Later(k, st.gone) == Later(k, st.gone - 1) + (AUTH_FAIL_LIMIT - 1 + k - (st.gone - 1));
  }

  /** `st` is the state without the request that seeds. */
  lemma SeedingKeepsInv(k: nat, st: State, before: State)
    requires Inv(k, before) && !before.HasCounter() && before.InProgress() <= k
    requires st == before.(passed := st.passed, gone := st.gone)
    requires Room(k, st) && st.InProgress() < before.InProgress()
    ensures Inv(k, Seeded(st))
  {
    var open := st.(since := st.now, failures := 0, entry := Some(Counter(1, st.now + AUTH_FAIL_WINDOW_SECONDS)));
    RoomAfterSeeding(k, st);
    forall i | 0 <= i < |st.log| ensures Ended(st.log[i], st.now) {
      assert st.log[i].at < st.entry.value.expiresAt <= st.now;
      assert Ended(st.log[i], st.since) || st.log[i].start == st.since;
    }
    FailedKeepsLives(k, open);
  }

  lemma ReseedingKeepsInv(k: nat, st: State)
    requires Inv(k, st) && st.HasCounter() && st.gone > 0 && st.InProgress() <= k && st.since <= st.now
    ensures Inv(k, Next(st, ReseedStep))
  {
    RoomAfterReseeding(k, st);
    FailedKeepsLives(k, st);
  }

  lemma IncrKeepsInv(k: nat, st: State)
    requires Inv(k, st) && st.InProgress() <= k && st.since <= st.now
    ensures Inv(k, Next(st, IncrStep))
  {
    RoomAfterIncr(k, st);
    if st.present > 0 && st.HasCounter() {
      FailedKeepsLives(k, st);
    }
  }

  lemma AddKeepsInv(k: nat, st: State)
    requires Inv(k, st) && st.InProgress() <= k
    ensures Inv(k, Next(st, AddStep))
  {
    if st.passed > 0 && !st.HasCounter() {
      SeedingKeepsInv(k, st.(passed := st.passed - 1), st);
    }
  }

  lemma ReseedKeepsInv(k: nat, st: State)
    requires Inv(k, st) && st.InProgress() <= k && st.since <= st.now
    ensures Inv(k, Next(st, ReseedStep))
  {
    if st.gone > 0 {
      if st.HasCounter() {
        ReseedingKeepsInv(k, st);
      } else {
        SeedingKeepsInv(k, st.(gone := st.gone - 1), st);
      }
    }
  }

  lemma StepKeepsInv(k: nat, st: State, step: Step)
    requires Inv(k, st) && st.InProgress() <= k && Next(st, step).InProgress() <= k && st.since <= st.now
    ensures Inv(k, Next(st, step)) && Next(st, step).since <= Next(st, step).now
  {
    match step
    case Check(secure, valid) => CheckKeepsInv(k, st, secure, valid);
    case AddStep => AddKeepsInv(k, st);
    case IncrStep => IncrKeepsInv(k, st);
    case ReseedStep => ReseedKeepsInv(k, st);
    case Tick(seconds) => TickKeepsInv(k, st, seconds);
  }

  lemma CheckKeepsInv(k: nat, st: State, secure: bool, valid: bool)
    requires Inv(k, st) && Next(st, Check(secure, valid)).InProgress() <= k
    ensures Inv(k, Next(st, Check(secure, valid)))
  {
    RoomAfterCheck(k, st, secure, valid);
  }

  lemma TickKeepsInv(k: nat, st: State, seconds: nat)
    requires Inv(k, st)
    ensures Inv(k, Next(st, Tick(seconds)))
  {
  }

  lemma {:induction false} RunsKeepInv(k: nat, st: State, steps: seq<Step>)
    requires Inv(k, st) && Overlap(st, steps, k) && st.since <= st.now
    ensures Inv(k, Run(st, steps))
    decreases |steps|
  {
    if steps != [] {
      assert Overlap(Next(st, steps[0]), steps[1..], k);
      StepKeepsInv(k, st, steps[0]);
      RunsKeepInv(k, Next(st, steps[0]), steps[1..]);
    }
  }

  /** While there is a counter without a break, at most `PerLife(k)` failures are recorded. */
  lemma {:induction false} AtMostPerLifeOfACounter(k: nat, steps: seq<Step>, i: nat, j: nat)
    requires Overlap(INITIAL, steps, k)
    requires var log := Run(INITIAL, steps).log; i <= j < |log| && log[i].start == log[j].start
    ensures j - i < PerLife(k)
  {
    RunsKeepInv(k, INITIAL, steps);
  }

  lemma FarApart(log: seq<Failure>, bound: nat, i: nat, j: nat)
    requires InLives(log) && AtMostPerLife(log, bound) && 0 < bound && i + 2 * bound <= j < |log|
    ensures log[j].at > log[i].at + AUTH_FAIL_WINDOW_SECONDS
  {
    var mid := i + bound;
    assert log[i].start != log[mid].start && log[mid].start != log[j].start;
    assert Ended(log[i], log[mid].start) && Ended(log[mid], log[j].start);
  }

  /** However the calls of at most `k` overlapping requests interleave, no 60-second interval, ends included, sees
      more than twice that many failures. */
  lemma {:induction false} AtMostPerInterval(k: nat, steps: seq<Step>, lo: int)
    requires Overlap(INITIAL, steps, k)
    ensures |Within(Run(INITIAL, steps).log, lo, lo + AUTH_FAIL_WINDOW_SECONDS)| <= 2 * PerLife(k)
  {
    RunsKeepInv(k, INITIAL, steps);
    var log := Run(INITIAL, steps).log;
    var within := Within(log, lo, lo + AUTH_FAIL_WINDOW_SECONDS);
    var m := FirstFrom(log, lo);
    var interval := Interval(m, 2 * PerLife(k));
    forall j | j in within ensures j in interval {
      var f := log[j];
      if m + 2 * PerLife(k) <= j {
        FarApart(log, PerLife(k), m, j);
      }
    }
    assert interval == within + (interval - within);
  }

  /** A running counter is incremented, or overwritten by a request that saw an earlier one vanish; nothing else
      changes it or moves its end. */
  lemma OnlyReseedsMoveTheEnd(st: State, step: Step)
    requires st.HasCounter()
    ensures var before, after := st.entry.value, Next(st, step).entry;
            || after == Some(before) || after == Some(before.(count := before.count + 1))
            || (step == ReseedStep && st.gone > 0 && after == Some(Counter(1, st.now + AUTH_FAIL_WINDOW_SECONDS)))
  {
  }

  // ---------------------------------------------------------------------
  // Several processes, each with a cache of its own
  // ---------------------------------------------------------------------

  ghost function FailuresWithin(steps: seq<Step>, lo: int): nat {
    |Within(Run(INITIAL, steps).log, lo, lo + AUTH_FAIL_WINDOW_SECONDS)|
  }

  ghost function Total(runs: seq<seq<Step>>, f: seq<Step> -> nat): nat {
    if runs == [] then 0 else Total(runs[..|runs| - 1], f) + f(runs[|runs| - 1])
  }

  lemma {:induction false} TotalIsBounded(runs: seq<seq<Step>>, f: seq<Step> -> nat, bound: nat)
    requires forall steps | steps in runs :: f(steps) <= bound
    ensures Total(runs, f) <= |runs| * bound
  {
    if runs != [] {
      var n := |runs| - 1;
      assert runs[n] in runs && forall steps | steps in runs[..n] :: steps in runs;
      TotalIsBounded(runs[..n], f, bound);
      OneMoreTime(n, bound);
    }
  }

  lemma OneMoreTime(n: nat, bound: nat)
    ensures (n + 1) * bound == n * bound + bound
  {
  }

  /** Without a shared cache every process has a budget of its own. */
  lemma {:induction false} ProcessesAddUp(k: nat, runs: seq<seq<Step>>, lo: int)
    requires forall steps | steps in runs :: Overlap(INITIAL, steps, k)
    ensures Total(runs, steps => FailuresWithin(steps, lo)) <= |runs| * (2 * PerLife(k))
  {
    forall steps | steps in runs ensures FailuresWithin(steps, lo) <= 2 * PerLife(k) {
      AtMostPerInterval(k, steps, lo);
    }
    TotalIsBounded(runs, steps => FailuresWithin(steps, lo), 2 * PerLife(k));
  }

  // ---------------------------------------------------------------------
  // The bound of a life is reached
  // ---------------------------------------------------------------------

  const FAIL := Check(true, false)

  /** `n` requests that fail one after the other. */
  function Burst(n: nat): seq<Step> {
    if n == 0 then [] else Burst(n - 1) + [FAIL, AddStep, IncrStep]
  }

  function Repeated(step: Step, n: nat): seq<Step> {
    if n == 0 then [] else Repeated(step, n - 1) + [step]
  }

  /** `n` requests that pass the check together. */
  function Volley(n: nat): seq<Step> {
    Repeated(FAIL, n) + Repeated(AddStep, n) + Repeated(IncrStep, n)
  }

  lemma {:induction false} RunInTwo(st: State, first: seq<Step>, rest: seq<Step>, k: nat)
    ensures Run(st, first + rest) == Run(Run(st, first), rest)
    ensures Overlap(st, first, k) && Overlap(Run(st, first), rest, k) ==> Overlap(st, first + rest, k)
    decreases |first|
  {
    if first == [] {
      assert first + rest == rest;
    } else {
      assert (first + rest)[1..] == first[1..] + rest;
      RunInTwo(Next(st, first[0]), first[1..], rest, k);
    }
  }

  lemma {:induction false} OneStep(st: State, step: Step, k: nat)
    ensures Run(st, [step]) == Next(st, step)
    ensures Overlap(st, [step], k) <==> st.InProgress() <= k && Next(st, step).InProgress() <= k
  {
    assert [step][1..] == [];
    assert Run(st, [step]) == Run(Next(st, step), []);
    assert Overlap(Next(st, step), [], k) <==> Next(st, step).InProgress() <= k;
  }

  function Copies(f: Failure, n: nat): (fs: seq<Failure>)
    ensures |fs| == n && forall i | 0 <= i < n :: fs[i] == f
  {
    if n == 0 then [] else Copies(f, n - 1) + [f]
  }

  /** `st` with `n` more failures counted and `p` requests that have passed, found a counter, or found none. */
  function Advanced(st: State, n: nat, passed: nat, present: nat): State
    requires st.entry.Some?
  {
    st.(entry := Some(st.entry.value.(count := st.entry.value.count + n)), passed := passed, present := present,
        failures := st.failures + n, log := st.log + Copies(Failure(st.now, st.since), n))
  }

  lemma AdvancedTwice(st: State, n: nat, m: nat, p: nat, q: nat, p': nat, q': nat)
    requires st.entry.Some?
    ensures Advanced(Advanced(st, n, p, q), m, p', q') == Advanced(st, n + m, p', q')
  {
    var f := Failure(st.now, st.since);
    assert Copies(f, n) + Copies(f, m) == Copies(f, n + m);
  }

  lemma {:induction false} BurstRuns(st: State, n: nat, k: nat)
    requires st.HasCounter() && st.entry.value.count + n <= AUTH_FAIL_LIMIT && st.InProgress() < k
    ensures Run(st, Burst(n)) == Advanced(st, n, st.passed, st.present) && Overlap(st, Burst(n), k)
  {
    if n == 0 {
      AdvancedByNothing(st);
    } else {
      BurstRuns(st, n - 1, k);
      var before := Run(st, Burst(n - 1));
      OneFails(before, k);
      AdvancedTwice(st, n - 1, 1, st.passed, st.present, st.passed, st.present);
      RunInTwo(st, Burst(n - 1), [FAIL, AddStep, IncrStep], k);
    }
  }

  lemma AdvancedByNothing(st: State)
    requires st.entry.Some?
    ensures Advanced(st, 0, st.passed, st.present) == st
  {
  }

  lemma {:induction false} OneFails(st: State, k: nat)
    requires st.HasCounter() && st.entry.value.count < AUTH_FAIL_LIMIT && st.InProgress() < k
    ensures Run(st, [FAIL, AddStep, IncrStep]) == Advanced(st, 1, st.passed, st.present)
    ensures Overlap(st, [FAIL, AddStep, IncrStep], k)
  {
    var passed := Next(st, FAIL);
    var present := Next(passed, AddStep);
    OneStep(st, FAIL, k);
    OneStep(passed, AddStep, k);
    OneStep(present, IncrStep, k);
    RunInTwo(st, [FAIL], [AddStep], k);
    RunInTwo(st, [FAIL] + [AddStep], [IncrStep], k);
    assert [FAIL] + [AddStep] + [IncrStep] == [FAIL, AddStep, IncrStep];
    assert Copies(Failure(st.now, st.since), 1) == [Failure(st.now, st.since)];
  }

  lemma {:induction false} ChecksRun(st: State, n: nat, k: nat)
    requires st.HasCounter() && st.entry.value.count < AUTH_FAIL_LIMIT && st.InProgress() + n <= k
    ensures Run(st, Repeated(FAIL, n)) == st.(passed := st.passed + n) && Overlap(st, Repeated(FAIL, n), k)
  {
    if n > 0 {
      ChecksRun(st, n - 1, k);
      OneStep(st.(passed := st.passed + n - 1), FAIL, k);
      RunInTwo(st, Repeated(FAIL, n - 1), [FAIL], k);
    }
  }

  lemma {:induction false} AddsRun(st: State, n: nat, k: nat)
    requires st.HasCounter() && n <= st.passed && st.InProgress() <= k
    ensures Run(st, Repeated(AddStep, n)) == st.(passed := st.passed - n, present := st.present + n)
    ensures Overlap(st, Repeated(AddStep, n), k)
  {
    if n > 0 {
      AddsRun(st, n - 1, k);
      OneStep(st.(passed := st.passed - (n - 1), present := st.present + n - 1), AddStep, k);
      RunInTwo(st, Repeated(AddStep, n - 1), [AddStep], k);
    }
  }

  lemma OneCounted(st: State)
    requires st.HasCounter() && st.present > 0
    ensures Next(st, IncrStep) == Advanced(st, 1, st.passed, st.present - 1)
  {
    assert Copies(Failure(st.now, st.since), 1) == [Failure(st.now, st.since)];
  }

  lemma {:induction false} IncrsRun(st: State, n: nat, k: nat)
    requires st.HasCounter() && n <= st.present && st.InProgress() <= k
    ensures Run(st, Repeated(IncrStep, n)) == Advanced(st, n, st.passed, st.present - n)
    ensures Overlap(st, Repeated(IncrStep, n), k)
  {
    if n == 0 {
      AdvancedByNothing(st);
    } else {
      IncrsRun(st, n - 1, k);
      var before := Advanced(st, n - 1, st.passed, st.present - (n - 1));
      OneStep(before, IncrStep, k);
      AdvancedTwice(st, n - 1, 1, st.passed, st.present - (n - 1), st.passed, st.present - n);
      OneCounted(before);
      RunInTwo(st, Repeated(IncrStep, n - 1), [IncrStep], k);
    }
  }

  /** Without a counter they find none. */
  lemma {:induction false} IncrsFindNone(st: State, n: nat, k: nat)
    requires !st.HasCounter() && n <= st.present && st.InProgress() <= k
    ensures Run(st, Repeated(IncrStep, n)) == st.(present := st.present - n, gone := st.gone + n)
    ensures Overlap(st, Repeated(IncrStep, n), k)
  {
    if n > 0 {
      IncrsFindNone(st, n - 1, k);
      OneStep(st.(present := st.present - (n - 1), gone := st.gone + n - 1), IncrStep, k);
      RunInTwo(st, Repeated(IncrStep, n - 1), [IncrStep], k);
    }
  }

  lemma {:induction false} VolleyRuns(st: State, n: nat, k: nat)
    requires st.HasCounter() && st.entry.value.count < AUTH_FAIL_LIMIT && st.InProgress() + n <= k
    ensures Run(st, Volley(n)) == Advanced(st, n, st.passed, st.present) && Overlap(st, Volley(n), k)
  {
    ChecksRun(st, n, k);
    var passed := st.(passed := st.passed + n);
    AddsRun(passed, n, k);
    var present := st.(present := st.present + n);
    assert Run(passed, Repeated(AddStep, n)) == present;
    IncrsRun(present, n, k);
    RunInTwo(st, Repeated(FAIL, n), Repeated(AddStep, n), k);
    RunInTwo(st, Repeated(FAIL, n) + Repeated(AddStep, n), Repeated(IncrStep, n), k);
  }

  /** A counter of one failure, and of the requests in progress only `g` that are to re-seed it. */
  predicate Ready(st: State, g: nat) {
    st.HasCounter() && st.entry.value.count == 1 && st.passed == st.present == 0 && st.gone == g
  }

  /** Up to the first re-seeding. */
  lemma {:induction false} FirstLifeRuns(st: State, k: nat, g: nat, n: nat)
    requires g < k && Ready(st, g) && n == AUTH_FAIL_LIMIT - 2
    ensures Run(st, Burst(n) + Volley(k - g)) == Advanced(st, n + k - g, 0, 0)
    ensures Overlap(st, Burst(n) + Volley(k - g), k)
  {
    BurstRuns(st, n, k);
    VolleyRuns(Advanced(st, n, 0, 0), k - g, k);
    AdvancedTwice(st, n, k - g, 0, 0, 0, 0);
    RunInTwo(st, Burst(n), Volley(k - g), k);
  }

  /** From one re-seeding to the next. */
  lemma {:induction false} OneLifeRuns(st: State, k: nat, g: nat, n: nat)
    returns (steps: seq<Step>, next: State)
    requires 0 < g < k && Ready(st, g) && n == AUTH_FAIL_LIMIT - 2
    ensures Run(st, steps) == next && Ready(next, g - 1) && Overlap(st, steps, k)
    ensures next.now == st.now && next.since == st.since
    ensures next.log == st.log + Copies(Failure(st.now, st.since), n + k - g + 1)
  {
    FirstLifeRuns(st, k, g, n);
    var full := Advanced(st, n + k - g, 0, 0);
    OneStep(full, ReseedStep, k);
    RunInTwo(st, Burst(n) + Volley(k - g), [ReseedStep], k);
    steps, next := Burst(n) + Volley(k - g) + [ReseedStep], Next(full, ReseedStep);
    CopiesAddUp(Failure(st.now, st.since), n + k - g, 1);
  }

  /** With a count of one, and `g` requests left to re-seed: the most that can still fail. */
  lemma {:induction false} LivesRun(st: State, k: nat, g: nat, n: nat) returns (steps: seq<Step>)
    requires g < k && Ready(st, g) && n == AUTH_FAIL_LIMIT - 2
    ensures Overlap(st, steps, k)
    ensures Run(st, steps).log == st.log + Copies(Failure(st.now, st.since), n + k - g + Later(k, g))
    decreases g
  {
    if g == 0 {
      steps := Burst(n) + Volley(k);
      FirstLifeRuns(st, k, g, n);
    } else {
      var life, next := OneLifeRuns(st, k, g, n);
      var rest := LivesRun(next, k, g - 1, n);
      steps := life + rest;
      var later := n + k - (g - 1) + Later(k, g - 1);
      LogsAddUp(st, life, rest, k, n + k - g + 1, later);
      assert Later(k, g) == 1 + later;
    }
  }

  lemma LogsAddUp(st: State, first: seq<Step>, rest: seq<Step>, k: nat, m: nat, n: nat)
    requires Overlap(st, first, k) && Overlap(Run(st, first), rest, k)
    requires var f, next := Failure(st.now, st.since), Run(st, first);
             next.log == st.log + Copies(f, m) && Run(next, rest).log == next.log + Copies(f, n)
    ensures Overlap(st, first + rest, k)
    ensures Run(st, first + rest).log == st.log + Copies(Failure(st.now, st.since), m + n)
  {
    RunInTwo(st, first, rest, k);
    CopiesAddUp(Failure(st.now, st.since), m, n);
  }

  lemma CopiesAddUp(f: Failure, m: nat, n: nat)
    ensures Copies(f, m) + Copies(f, n) == Copies(f, m + n)
  {
  }

  /** A first failure, and `k - 1` requests that find its counter. */
  function Opening(k: nat): seq<Step>
    requires k > 0
  {
    [FAIL, AddStep] + Repeated(FAIL, k - 1) + Repeated(AddStep, k - 1)
  }

  /** The counter vanishes before they increment it, and another request seeds a new one. */
  function Reopening(k: nat): seq<Step>
    requires k > 0
  {
    [Tick(AUTH_FAIL_WINDOW_SECONDS)] + Repeated(IncrStep, k - 1) + [FAIL, AddStep]
  }

  const FIRST := Failure(0, 0)
  const IN_ONE_SECOND := Failure(AUTH_FAIL_WINDOW_SECONDS, AUTH_FAIL_WINDOW_SECONDS)

  lemma {:induction false} SeedsAlone(st: State, k: nat)
    requires !st.HasCounter() && st.passed == 0 && st.InProgress() < k
    ensures Run(st, [FAIL, AddStep]) == Seeded(st) && Overlap(st, [FAIL, AddStep], k)
  {
    OneStep(st, FAIL, k);
    OneStep(Next(st, FAIL), AddStep, k);
    RunInTwo(st, [FAIL], [AddStep], k);
    assert [FAIL] + [AddStep] == [FAIL, AddStep];
  }

  lemma {:induction false} OpeningLeaves(st: State, k: nat)
    requires k > 0 && !st.HasCounter() && st.InProgress() == 0
    ensures Run(st, Opening(k)) == Seeded(st).(present := k - 1) && Overlap(st, Opening(k), k)
  {
    SeedsAlone(st, k);
    var first := Seeded(st);
    ChecksRun(first, k - 1, k);
    AddsRun(first.(passed := k - 1), k - 1, k);
    RunInTwo(st, [FAIL, AddStep], Repeated(FAIL, k - 1), k);
    RunInTwo(st, [FAIL, AddStep] + Repeated(FAIL, k - 1), Repeated(AddStep, k - 1), k);
  }

  lemma {:induction false} ReopeningRuns(st: State, k: nat)
    requires k > 0
    requires st == State(0, Some(Counter(1, AUTH_FAIL_WINDOW_SECONDS)), 0, k - 1, 0, 0, 1, [FIRST])
    ensures Overlap(st, Reopening(k), k)
    ensures Run(st, Reopening(k)) ==
              State(AUTH_FAIL_WINDOW_SECONDS, Some(Counter(1, 2 * AUTH_FAIL_WINDOW_SECONDS)), 0, 0, k - 1,
                    AUTH_FAIL_WINDOW_SECONDS, 1, [FIRST, IN_ONE_SECOND])
  {
    var tick := Tick(AUTH_FAIL_WINDOW_SECONDS);
    var later := Next(st, tick);
    OneStep(st, tick, k);
    IncrsFindNone(later, k - 1, k);
    var gone := later.(present := 0, gone := k - 1);
    SeedsAlone(gone, k);
    RunInTwo(st, [tick], Repeated(IncrStep, k - 1), k);
    RunInTwo(st, [tick] + Repeated(IncrStep, k - 1), [FAIL, AddStep], k);
  }

  /** For any number `k` of overlapping requests there is a run from the initial state in which one counter's life sees
      `PerLife(k)` failures, all in the same second: 21 already for two requests. */
  lemma {:induction false} PerLifeIsReached(st: State, k: nat) returns (steps: seq<Step>)
    requires k > 0 && st.entry.None? && st.InProgress() == 0 && st.now == 0 && st.log == []
    ensures Overlap(st, steps, k)
    ensures Run(st, steps).log == [FIRST] + Copies(IN_ONE_SECOND, PerLife(k))
  {
    var n := AUTH_FAIL_LIMIT - 2;
    OpeningLeaves(st, k);
    var first := Run(st, Opening(k));
    ReopeningRuns(first, k);
    var lives := LivesFill(Run(first, Reopening(k)), k, n);
    RunInTwo(first, Reopening(k), lives, k);
    RunInTwo(st, Opening(k), Reopening(k) + lives, k);
    steps := Opening(k) + (Reopening(k) + lives);
  }

  lemma {:induction false} LivesFill(st: State, k: nat, n: nat) returns (steps: seq<Step>)
    requires k > 0 && n == AUTH_FAIL_LIMIT - 2
    requires st == State(AUTH_FAIL_WINDOW_SECONDS, Some(Counter(1, 2 * AUTH_FAIL_WINDOW_SECONDS)), 0, 0, k - 1,
                         AUTH_FAIL_WINDOW_SECONDS, 1, [FIRST, IN_ONE_SECOND])
    ensures Overlap(st, steps, k)
    ensures Run(st, steps).log == [FIRST] + Copies(IN_ONE_SECOND, PerLife(k))
  {
    steps := LivesRun(st, k, k - 1, n);
    var m := n + 1 + Later(k, k - 1);
    assert PerLife(k) == 1 + m;
    assert [FIRST, IN_ONE_SECOND] + Copies(IN_ONE_SECOND, m) == [FIRST] + Copies(IN_ONE_SECOND, 1 + m);
  }

  // ---------------------------------------------------------------------
  // One request on its own
  // ---------------------------------------------------------------------

  /** The calls of one request, at its own times. */
  function Calls(st: State, a: Attempt): seq<Step>
    requires st.now <= a.check && a.InOrder()
  {
    [Tick(a.check - st.now), Check(a.secure, a.valid), Tick(a.add - a.check), AddStep, Tick(a.incr - a.add), IncrStep,
     Tick(a.reseed - a.incr), ReseedStep]
  }

  /** Undisturbed, they leave the counter that `authenticate` leaves. */
  lemma {:induction false} OneAttempt(st: State, a: Attempt)
    requires st.InProgress() == 0 && st.now <= a.check && a.InOrder()
    ensures Run(st, Calls(st, a)).entry == After(st.entry, a) && Run(st, Calls(st, a)).InProgress() == 0
  {
    var steps := Calls(st, a);
    var checked := Next(Next(st, steps[0]), steps[1]);
    var added := Next(Next(checked, steps[2]), steps[3]);
    var incremented := Next(Next(added, steps[4]), steps[5]);
    RunsTwo(st, steps);
    RunsTwo(checked, steps[2..]);
    RunsTwo(added, steps[2..][2..]);
    RunsTwo(incremented, steps[2..][2..][2..]);
    assert steps[2..][2..][2..][2..] == [];
  }

  lemma {:induction false} RunsTwo(st: State, steps: seq<Step>)
    requires |steps| >= 2
    ensures Run(st, steps) == Run(Next(Next(st, steps[0]), steps[1]), steps[2..])
  {
    assert steps[1..][1..] == steps[2..];
    assert Run(st, steps) == Run(Next(st, steps[0]), steps[1..]);
  }
}
