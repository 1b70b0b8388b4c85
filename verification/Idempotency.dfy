/** Idempotency keys (`apps/api/middleware.py`, `apps/api/tasks.py`), as a protocol. */
module Idempotency {
  import opened Prelude

  /** The unique constraint `(api_key, key)`. */
  datatype Slot = Slot(apiKey: int, key: string)

  datatype Record = Record(id: nat, fingerprint: string, status: nat, body: string, createdAt: int)

  type Table = map<Slot, Record>

  type HttpStatus = s: nat | 100 <= s witness 100

  const PENDING: nat := 0

  const TTL_SECONDS := 24 * HOUR

  /** What a request learns at the gate. `Mismatch` is the `ValueError` (422); `Missing` is the
      `DoesNotExist` of a conflicting row that was released before it could be read. */
  datatype Answer = InFlight | Replay(status: nat, body: string) | Mismatch | Missing

  datatype Disposition = Passthrough | Claimed(id: nat) | Refused(answer: Answer)

  function Answered(t: Table, slot: Slot, fingerprint: string): Answer {
    if slot !in t then Missing
    else if t[slot].fingerprint != fingerprint then Mismatch
    else if t[slot].status == PENDING then InFlight
    else Replay(t[slot].status, t[slot].body)
  }

  function Inserted(t: Table, slot: Slot, id: nat, fingerprint: string, now: int): Table {
    t[slot := Record(id, fingerprint, PENDING, "", now)]
  }

  /** `filter(api_key, key).update(status, body)`: whichever row is there now. */
  function Promoted(t: Table, slot: Slot, status: HttpStatus, body: string): Table {
    if slot in t then t[slot := t[slot].(status := status, body := body)] else t
  }

  predicate IsPending(t: Table, slot: Slot) {
    slot in t && t[slot].status == PENDING
  }

  /** `filter(api_key, key, status = 0).delete()`. */
  function Released(t: Table, slot: Slot): Table {
    if IsPending(t, slot) then t - {slot} else t
  }

  /** `filter(created_at < now - 24h).delete()`. */
  function Swept(t: Table, now: int): Table {
    map s | s in t && !(t[s].createdAt < now - TTL_SECONDS) :: t[s]
  }

  /** The four helpers, as they change the table. */
  class Ledger {
    var records: Table
    var nextId: nat

    constructor ()
      ensures records == map[] && nextId == 0
    {
      records, nextId := map[], 0;
    }

    /** `claim_idempotency_slot`, run without interruption. */
    method Claim(apiKey: int, key: Option<string>, fingerprint: string, now: int) returns (d: Disposition)
      modifies this
      ensures key.None? || key.value == "" ==> d == Passthrough && records == old(records) && nextId == old(nextId)
      ensures key.Some? && key.value != "" ==>
                var slot := Slot(apiKey, key.value);
                if slot in old(records) then
                  && records == old(records) && nextId == old(nextId)
                  && d == Refused(Answered(old(records), slot, fingerprint))
                  && d.answer != Missing
                else
                  && d == Claimed(old(nextId)) && nextId == old(nextId) + 1
                  && records == Inserted(old(records), slot, old(nextId), fingerprint, now)
    {
      if key.None? || key.value == "" {
        return Passthrough;
      }
      var slot := Slot(apiKey, key.value);
      if slot !in records {
        records := records[slot := Record(nextId, fingerprint, PENDING, "", now)];
        nextId := nextId + 1;
        return Claimed(nextId - 1);
      }
      var existing := records[slot];
      if existing.fingerprint != fingerprint {
        return Refused(Mismatch);
      }
      if existing.status == PENDING {
        return Refused(InFlight);
      }
      d := Refused(Replay(existing.status, existing.body));
    }

    /** `finalize_idempotent_response`. */
    method Finalize(apiKey: int, key: Option<string>, status: HttpStatus, body: string)
      modifies this`records
      ensures records == if key.None? || key.value == "" then old(records)
                         else Promoted(old(records), Slot(apiKey, key.value), status, body)
    {
      if key.None? || key.value == "" {
        return;
      }
      var slot := Slot(apiKey, key.value);
      if slot in records {
        records := records[slot := records[slot].(status := status, body := body)];
      }
    }

    /** `release_idempotent_claim`. */
    method Release(apiKey: int, key: Option<string>)
      modifies this`records
      ensures records == if key.None? || key.value == "" then old(records)
                         else Released(old(records), Slot(apiKey, key.value))
    {
      if key.None? || key.value == "" {
        return;
      }
      var slot := Slot(apiKey, key.value);
      if slot in records && records[slot].status == PENDING {
        records := records - {slot};
      }
    }

    /** `sweep_stale_idempotency_records`. */
    method Sweep(now: int)
      modifies this`records
      ensures records == Swept(old(records), now)
    {
      var cutoff := now - TTL_SECONDS;
      records := map s | s in records && records[s].createdAt >= cutoff :: records[s];
    }
  }

  // ---------------------------------------------------------------------
  // The protocol: many workers, each handling one request, in any interleaving
  // ---------------------------------------------------------------------

  datatype Worker =
    | Conflicted(slot: Slot, fingerprint: string)            // the insert failed, the read is next
    | Owner(slot: Slot, fingerprint: string, id: nat)        // holds the slot, the work is next
    | Worked(slot: Slot, fingerprint: string, id: nat)       // the work is committed, the response is not
    | Finishing(slot: Slot, fingerprint: string, id: nat)    // finalized, not yet returned
    | Told(slot: Slot, fingerprint: string, answer: Answer)  // answered without doing the work
    | Gone                                                   // returned, released or crashed

  /** Who claimed a row, for what, and when. */
  datatype ClaimEntry = ClaimEntry(slot: Slot, fingerprint: string, worker: nat, at: int)

  /** The work of a claim, committed at `at`. */
  datatype Effect = Effect(claim: nat, slot: Slot, at: int)

  /** The last four fields are history: the claim behind every row id, what its owner finalized, the work that was
      committed, and the rows that were released. */
  datatype State = State(
    now: int,
    records: Table,
    workers: map<nat, Worker>,
    nextId: nat,
    claims: map<nat, ClaimEntry>,
    outcomes: map<nat, (HttpStatus, string)>,
    effects: seq<Effect>,
    released: set<nat>)

  datatype Step =
    | TryInsert(worker: nat, slot: Slot, fingerprint: string)
    | ReadExisting(worker: nat)
    | WorkStep(worker: nat)
    | FinalizeStep(worker: nat, status: HttpStatus, body: string)
    | ReleaseStep(worker: nat)
    | Return(worker: nat)
    | Crash(worker: nat)
    | SweepStep
    | Tick(seconds: nat)

  const INITIAL := State(0, map[], map[], 0, map[], map[], [], {})

  /** A worker that holds a claim and may still finalize or release it. */
  predicate Live(st: State, w: nat) {
    w in st.workers && (st.workers[w].Owner? || st.workers[w].Worked? || st.workers[w].Finishing?)
  }

  /** One atomic step; a step that its worker is not ready for changes nothing. */
  function Next(st: State, step: Step): State {
    match step
    case TryInsert(w, slot, fp) =>
      if w in st.workers then st
      else if slot in st.records then st.(workers := st.workers[w := Conflicted(slot, fp)])
      else
        st.(records := Inserted(st.records, slot, st.nextId, fp, st.now),
            workers := st.workers[w := Owner(slot, fp, st.nextId)],
            claims := st.claims[st.nextId := ClaimEntry(slot, fp, w, st.now)],
            nextId := st.nextId + 1)
    case ReadExisting(w) =>
      if w in st.workers && st.workers[w].Conflicted? then
        var c := st.workers[w];
        st.(workers := st.workers[w := Told(c.slot, c.fingerprint, Answered(st.records, c.slot, c.fingerprint))])
      else st
    case WorkStep(w) =>
      if w in st.workers && st.workers[w].Owner? then
        var o := st.workers[w];
        st.(workers := st.workers[w := Worked(o.slot, o.fingerprint, o.id)],
            effects := st.effects + [Effect(o.id, o.slot, st.now)])
      else st
    case FinalizeStep(w, status, body) =>
      if w in st.workers && st.workers[w].Worked? then
        var o := st.workers[w];
        st.(records := Promoted(st.records, o.slot, status, body),
            workers := st.workers[w := Finishing(o.slot, o.fingerprint, o.id)],
            outcomes := st.outcomes[o.id := (status, body)])
      else st
    case ReleaseStep(w) =>
      if Live(st, w) then
        var slot := st.workers[w].slot;
        st.(records := Released(st.records, slot),
            workers := st.workers[w := Gone],
            released := st.released + if IsPending(st.records, slot) then {st.records[slot].id} else {})
      else st
    case Return(w) =>
      if w in st.workers && st.workers[w].Finishing? then st.(workers := st.workers[w := Gone]) else st
    case Crash(w) =>
      if w in st.workers then st.(workers := st.workers[w := Gone]) else st
    case SweepStep => st.(records := Swept(st.records, st.now))
    case Tick(n) => st.(now := st.now + n)
  }

  function Run(st: State, steps: seq<Step>): State
    decreases |steps|
  {
    if steps == [] then st else Run(Next(st, steps[0]), steps[1..])
  }

  // ---------------------------------------------------------------------
  // What every run keeps
  // ---------------------------------------------------------------------

  /** A row is the row of its claim. */
  ghost predicate RowMatches(st: State, s: Slot)
    requires s in st.records
  {
    var r := st.records[s];
    && r.id in st.claims
    && st.claims[r.id].slot == s
    && st.claims[r.id].fingerprint == r.fingerprint
    && st.claims[r.id].at == r.createdAt
  }

  /** A live worker holds a claim of its own. */
  ghost predicate WorkerMatches(st: State, w: nat)
    requires Live(st, w)
  {
    && st.workers[w].id in st.claims
    && st.claims[st.workers[w].id] ==
       ClaimEntry(st.workers[w].slot, st.workers[w].fingerprint, w, st.claims[st.workers[w].id].at)
  }

  ghost predicate RowsMatchClaims(st: State) {
    && (forall id | id in st.claims :: id < st.nextId && st.claims[id].at <= st.now)
    && (forall id | id in st.outcomes :: id in st.claims)
    && (forall s | s in st.records :: RowMatches(st, s))
    && (forall w | Live(st, w) :: WorkerMatches(st, w))
  }

  lemma ClaimsGrow(st: State, step: Step)
    requires RowsMatchClaims(st)
    ensures forall id | id in st.claims :: id in Next(st, step).claims && Next(st, step).claims[id] == st.claims[id]
    ensures var st' := Next(st, step);
            && (forall id | id in st'.claims :: id < st'.nextId && st'.claims[id].at <= st'.now)
            && (forall id | id in st'.outcomes :: id in st'.claims)
  {
    if step.FinalizeStep? && step.worker in st.workers && st.workers[step.worker].Worked? {
      assert WorkerMatches(st, step.worker);
    }
  }

  lemma RowMatchesStep(st: State, step: Step, s: Slot)
    requires RowsMatchClaims(st) && s in Next(st, step).records
    ensures RowMatches(Next(st, step), s)
  {
    ClaimsGrow(st, step);
    if s in st.records {
      assert RowMatches(st, s);
    }
  }

  lemma WorkerMatchesStep(st: State, step: Step, w: nat)
    requires RowsMatchClaims(st) && Live(Next(st, step), w)
    ensures WorkerMatches(Next(st, step), w)
  {
    ClaimsGrow(st, step);
    if Live(st, w) {
      assert WorkerMatches(st, w);
    }
  }

  lemma RowsMatchClaimsStep(st: State, step: Step)
    requires RowsMatchClaims(st)
    ensures RowsMatchClaims(Next(st, step))
    ensures forall id | id in st.claims :: id in Next(st, step).claims && Next(st, step).claims[id] == st.claims[id]
  {
    ClaimsGrow(st, step);
    forall s | s in Next(st, step).records ensures RowMatches(Next(st, step), s) {
      RowMatchesStep(st, step, s);
    }
    forall w | Live(Next(st, step), w) ensures WorkerMatches(Next(st, step), w) {
      WorkerMatchesStep(st, step, w);
    }
  }

  lemma {:induction false} RowsMatchClaimsRun(st: State, steps: seq<Step>)
    requires RowsMatchClaims(st)
    ensures RowsMatchClaims(Run(st, steps))
    ensures forall id | id in st.claims :: id in Run(st, steps).claims && Run(st, steps).claims[id] == st.claims[id]
    decreases |steps|
  {
    if steps != [] {
      RowsMatchClaimsStep(st, steps[0]);
      RowsMatchClaimsRun(Next(st, steps[0]), steps[1..]);
    }
  }

  /** In any run, timely or not, a row that is still there has kept its fingerprint and its age. */
  lemma {:induction false} FingerprintNeverChanges(before: seq<Step>, after: seq<Step>, slot: Slot)
    requires var st := Run(INITIAL, before);
             && slot in st.records && slot in Run(st, after).records
             && Run(st, after).records[slot].id == st.records[slot].id
    ensures var st := Run(INITIAL, before);
            && Run(st, after).records[slot].fingerprint == st.records[slot].fingerprint
            && Run(st, after).records[slot].createdAt == st.records[slot].createdAt
  {
    RowsMatchClaimsRun(INITIAL, before);
    RowsMatchClaimsRun(Run(INITIAL, before), after);
  }

  // ---------------------------------------------------------------------
  // Ownership, replay and at-most-once, as long as no sweep finds a live claim older than 24 hours
  // ---------------------------------------------------------------------

  ghost predicate Timely(st: State) {
    forall w | Live(st, w) && st.workers[w].id in st.claims ::
      st.claims[st.workers[w].id].at >= st.now - TTL_SECONDS
  }

  ghost predicate SweepsAreTimely(st: State, steps: seq<Step>)
    decreases |steps|
  {
    steps != [] ==>
      && (steps[0] == SweepStep ==> Timely(st))
      && SweepsAreTimely(Next(st, steps[0]), steps[1..])
  }

  /** A live claim has its row: pending while its owner works, final afterwards. */
  ghost predicate OwnersHoldTheirRows(st: State) {
    forall w | Live(st, w) :: HoldsItsRow(st, w)
  }

  /** A row is pending until its owner finalizes it, and then holds exactly what the owner finalized. */
  ghost predicate RowsHoldOutcomes(st: State) {
    forall s | s in st.records ::
      var r := st.records[s];
      if r.id in st.outcomes then r.status == st.outcomes[r.id].0 && r.body == st.outcomes[r.id].1
      else r.status == PENDING
  }

  /** The row of a claim is in the table. */
  predicate HasRow(st: State, id: nat)
    requires id in st.claims
  {
    st.claims[id].slot in st.records && st.records[st.claims[id].slot].id == id
  }

  /** A claim was released, or its row is there, or it is more than 24 hours old. */
  ghost predicate KeptUntilExpired(st: State) {
    forall id | id in st.claims :: id in st.released || HasRow(st, id) || st.now > st.claims[id].at + TTL_SECONDS
  }

  /** A released row is gone for good, and it was released before it had an outcome. */
  ghost predicate ReleasedAreGone(st: State) {
    forall id | id in st.released :: id in st.claims && !HasRow(st, id) && id !in st.outcomes
  }

  /** The row in the table belongs to the latest claim of its slot. */
  ghost predicate RowIsTheLatestClaim(st: State) {
    forall id | id in st.claims && st.claims[id].slot in st.records :: id <= st.records[st.claims[id].slot].id
  }

  /** A claim that follows one of the same slot that was not released is made more than 24 hours after it. */
  ghost predicate SpacedUnlessReleased(st: State) {
    forall i, j | i in st.claims && j in st.claims && i < j && st.claims[i].slot == st.claims[j].slot ::
      i in st.released || st.claims[j].at > st.claims[i].at + TTL_SECONDS
  }

  /** Work belongs to a claim, which commits it once, when it is made or later. */
  ghost predicate EffectsMatchClaims(st: State) {
    && (forall k | 0 <= k < |st.effects| ::
          var e := st.effects[k];
          e.claim in st.claims && st.claims[e.claim].slot == e.slot && st.claims[e.claim].at <= e.at <= st.now)
    && (forall k, w | 0 <= k < |st.effects| && w in st.workers && st.workers[w].Owner? ::
          st.workers[w].id != st.effects[k].claim)
    && (forall a, b | 0 <= a < b < |st.effects| :: st.effects[a].claim != st.effects[b].claim)
  }

  /** A replay carries what some owner finalized for the same slot and the same fingerprint. */
  ghost predicate ReplaysAreGenuine(st: State) {
    forall w | w in st.workers && st.workers[w].Told? && st.workers[w].answer.Replay? ::
      Finalized(st, st.workers[w].slot, st.workers[w].fingerprint,
                (st.workers[w].answer.status, st.workers[w].answer.body))
  }

  ghost predicate Inv(st: State) {
    && RowsMatchClaims(st)
    && OwnersHoldTheirRows(st)
    && RowsHoldOutcomes(st)
    && KeptUntilExpired(st)
    && ReleasedAreGone(st)
    && RowIsTheLatestClaim(st)
    && SpacedUnlessReleased(st)
    && ReplaysAreGenuine(st)
  }

  ghost predicate HoldsItsRow(st: State, w: nat)
    requires Live(st, w)
  {
    var o := st.workers[w];
    && o.slot in st.records
    && st.records[o.slot].id == o.id
    && (o.Finishing? <==> st.records[o.slot].status != PENDING)
  }

  /** Mutual exclusion: two live workers never hold the same slot. */
  lemma AtMostOneLiveOwner(st: State, v: nat, w: nat)
    requires RowsMatchClaims(st) && OwnersHoldTheirRows(st)
    requires Live(st, v) && Live(st, w) && st.workers[v].slot == st.workers[w].slot
    ensures v == w
  {
    assert HoldsItsRow(st, v) && HoldsItsRow(st, w);
    assert st.claims[st.workers[v].id].worker == v && st.claims[st.workers[w].id].worker == w;
  }

  lemma OwnerStep(st: State, step: Step, w: nat)
    requires RowsMatchClaims(st) && OwnersHoldTheirRows(st) && (step == SweepStep ==> Timely(st))
    requires Live(Next(st, step), w)
    ensures HoldsItsRow(Next(st, step), w)
  {
    if Live(st, w) {
      assert HoldsItsRow(st, w);
      if (step.FinalizeStep? || step.ReleaseStep?) && Live(st, step.worker) && step.worker != w {
        if st.workers[step.worker].slot == st.workers[w].slot {
          AtMostOneLiveOwner(st, step.worker, w);
        }
      }
      if step.SweepStep? {
        assert st.claims[st.workers[w].id].at == st.records[st.workers[w].slot].createdAt;
      }
    }
  }

  lemma OwnersStep(st: State, step: Step)
    requires RowsMatchClaims(st) && OwnersHoldTheirRows(st) && (step == SweepStep ==> Timely(st))
    ensures OwnersHoldTheirRows(Next(st, step))
  {
    forall w | Live(Next(st, step), w) ensures HoldsItsRow(Next(st, step), w) {
      OwnerStep(st, step, w);
    }
  }

  lemma OutcomesStep(st: State, step: Step)
    requires RowsMatchClaims(st) && OwnersHoldTheirRows(st) && RowsHoldOutcomes(st)
    ensures RowsHoldOutcomes(Next(st, step))
  {
    if step.FinalizeStep? && step.worker in st.workers && st.workers[step.worker].Worked? {
      assert Live(st, step.worker);
    }
  }

  lemma KeptStep(st: State, step: Step)
    requires RowsMatchClaims(st) && OwnersHoldTheirRows(st) && KeptUntilExpired(st)
    ensures KeptUntilExpired(Next(st, step))
  {
    var st' := Next(st, step);
    forall id | id in st'.claims
      ensures id in st'.released || HasRow(st', id) || st'.now > st'.claims[id].at + TTL_SECONDS
    {
      if id in st.claims && HasRow(st, id) {
        RowIsKept(st, step, id);
      }
    }
  }

  lemma RowIsKept(st: State, step: Step, id: nat)
    requires RowsMatchClaims(st) && OwnersHoldTheirRows(st) && id in st.claims && HasRow(st, id)
    ensures id in Next(st, step).claims
    ensures id in Next(st, step).released || HasRow(Next(st, step), id) || st.now > st.claims[id].at + TTL_SECONDS
  {
    assert RowMatches(st, st.claims[id].slot);
  }

  lemma ReleasedStep(st: State, step: Step)
    requires RowsMatchClaims(st) && OwnersHoldTheirRows(st) && RowsHoldOutcomes(st) && ReleasedAreGone(st)
    ensures ReleasedAreGone(Next(st, step))
  {
    if (step.FinalizeStep? || step.ReleaseStep?) && Live(st, step.worker) {
      assert HoldsItsRow(st, step.worker) && WorkerMatches(st, step.worker);
    }
  }

  lemma LatestClaimStep(st: State, step: Step)
    requires RowsMatchClaims(st) && RowIsTheLatestClaim(st)
    ensures RowIsTheLatestClaim(Next(st, step))
  {
  }

  lemma SpacedStep(st: State, step: Step)
    requires RowsMatchClaims(st) && KeptUntilExpired(st) && RowIsTheLatestClaim(st) && SpacedUnlessReleased(st)
    ensures SpacedUnlessReleased(Next(st, step))
  {
  }

  lemma EffectsStep(st: State, step: Step)
    requires RowsMatchClaims(st) && EffectsMatchClaims(st)
    ensures EffectsMatchClaims(Next(st, step))
  {
    ClaimsGrow(st, step);
    var st' := Next(st, step);
    forall k, w | 0 <= k < |st'.effects| && w in st'.workers && st'.workers[w].Owner?
      ensures st'.workers[w].id != st'.effects[k].claim
    {
      OwnersHaveNotWorked(st, step, k, w);
    }
    if step.WorkStep? && step.worker in st.workers && st.workers[step.worker].Owner? {
      assert WorkerMatches(st, step.worker);
    }
  }

  lemma OwnersHaveNotWorked(st: State, step: Step, k: nat, w: nat)
    requires RowsMatchClaims(st) && EffectsMatchClaims(st)
    requires k < |Next(st, step).effects| && w in Next(st, step).workers && Next(st, step).workers[w].Owner?
    ensures Next(st, step).workers[w].id != Next(st, step).effects[k].claim
  {
    if Live(st, w) {
      assert WorkerMatches(st, w);
    }
    if k == |st.effects| {
      assert Live(st, step.worker) && WorkerMatches(st, step.worker);
    }
  }

  lemma {:induction false} EffectsRun(st: State, steps: seq<Step>)
    requires RowsMatchClaims(st) && EffectsMatchClaims(st)
    ensures EffectsMatchClaims(Run(st, steps))
    decreases |steps|
  {
    if steps != [] {
      RowsMatchClaimsStep(st, steps[0]);
      EffectsStep(st, steps[0]);
      EffectsRun(Next(st, steps[0]), steps[1..]);
    }
  }

  ghost predicate Finalized(st: State, slot: Slot, fingerprint: string, answer: (nat, string)) {
    exists id | id in st.outcomes && id in st.claims ::
      && st.claims[id].slot == slot
      && st.claims[id].fingerprint == fingerprint
      && st.outcomes[id] == answer
  }

  lemma FinalizedStays(st: State, step: Step, slot: Slot, fingerprint: string, answer: (nat, string))
    requires RowsMatchClaims(st) && OwnersHoldTheirRows(st) && RowsHoldOutcomes(st)
    requires Finalized(st, slot, fingerprint, answer)
    ensures Finalized(Next(st, step), slot, fingerprint, answer)
  {
    var st' := Next(st, step);
    var id :| id in st.outcomes && id in st.claims
              && st.claims[id].slot == slot && st.claims[id].fingerprint == fingerprint && st.outcomes[id] == answer;
    if step.FinalizeStep? && step.worker in st.workers && st.workers[step.worker].Worked? {
      assert Live(st, step.worker);
    }
    assert id in st'.claims && id in st'.outcomes && st'.outcomes[id] == answer;
  }

  lemma ReplaysStep(st: State, step: Step)
    requires RowsMatchClaims(st) && OwnersHoldTheirRows(st) && RowsHoldOutcomes(st) && ReplaysAreGenuine(st)
    ensures ReplaysAreGenuine(Next(st, step))
  {
    var st' := Next(st, step);
    forall w | w in st'.workers && st'.workers[w].Told? && st'.workers[w].answer.Replay?
      ensures Finalized(st', st'.workers[w].slot, st'.workers[w].fingerprint,
                        (st'.workers[w].answer.status, st'.workers[w].answer.body))
    {
      var t := st'.workers[w];
      if w in st.workers && st.workers[w] == t {
      } else {
        assert Finalized(st, t.slot, t.fingerprint, (t.answer.status, t.answer.body)) by {
          var r := st.records[t.slot];
          assert r.id in st.outcomes && st.outcomes[r.id] == (t.answer.status, t.answer.body);
        }
      }
      FinalizedStays(st, step, t.slot, t.fingerprint, (t.answer.status, t.answer.body));
    }
  }

  lemma InvStep(st: State, step: Step)
    requires Inv(st) && (step == SweepStep ==> Timely(st))
    ensures Inv(Next(st, step))
  {
    RowsMatchClaimsStep(st, step);
    OwnersStep(st, step);
    OutcomesStep(st, step);
    KeptStep(st, step);
    ReleasedStep(st, step);
    LatestClaimStep(st, step);
    SpacedStep(st, step);
    ReplaysStep(st, step);
  }

  lemma {:induction false} InvRun(st: State, steps: seq<Step>)
    requires Inv(st) && SweepsAreTimely(st, steps)
    ensures Inv(Run(st, steps))
    decreases |steps|
  {
    if steps != [] {
      InvStep(st, steps[0]);
      InvRun(Next(st, steps[0]), steps[1..]);
    }
  }

  /** Everything above holds after every run whose sweeps are timely. */
  lemma {:induction false} TimelyRunsAreSafe(steps: seq<Step>)
    requires SweepsAreTimely(INITIAL, steps)
    ensures Inv(Run(INITIAL, steps))
  {
    InvRun(INITIAL, steps);
  }

  lemma OwnerRefusesOthers(st: State, v: nat, w: nat)
    requires Inv(st) && Live(st, v) && Live(st, w) && st.workers[v].slot == st.workers[w].slot
    ensures v == w
    ensures forall fp | !st.workers[w].Finishing? ::
              Answered(st.records, st.workers[w].slot, fp)
              == if fp == st.workers[w].fingerprint then InFlight else Mismatch
  {
    AtMostOneLiveOwner(st, v, w);
    assert HoldsItsRow(st, w) && WorkerMatches(st, w);
    assert RowMatches(st, st.workers[w].slot);
  }

  /** In a timely run a slot has at most one live owner, its row is that owner's, and nobody else's
      request can be answered from it before the owner has finalized. */
  lemma {:induction false} OneOwnerPerSlot(steps: seq<Step>, v: nat, w: nat)
    requires SweepsAreTimely(INITIAL, steps)
    requires var st := Run(INITIAL, steps);
             Live(st, v) && Live(st, w) && st.workers[v].slot == st.workers[w].slot
    ensures var st := Run(INITIAL, steps);
            && v == w
            && forall fp | !st.workers[w].Finishing? ::
                 Answered(st.records, st.workers[w].slot, fp)
                 == if fp == st.workers[w].fingerprint then InFlight else Mismatch
  {
    TimelyRunsAreSafe(steps);
    OwnerRefusesOthers(Run(INITIAL, steps), v, w);
  }

  /** In a timely run every replay is what one owner finalized for the same slot and fingerprint. */
  lemma {:induction false} ReplayIsWhatTheOwnerFinalized(steps: seq<Step>, w: nat)
    requires SweepsAreTimely(INITIAL, steps)
    requires var st := Run(INITIAL, steps);
             w in st.workers && st.workers[w].Told? && st.workers[w].answer.Replay?
    ensures var st := Run(INITIAL, steps);
            Finalized(st, st.workers[w].slot, st.workers[w].fingerprint,
                      (st.workers[w].answer.status, st.workers[w].answer.body))
  {
    TimelyRunsAreSafe(steps);
  }

  /** In a timely run two claims of one slot that are at most 24 hours apart mean that the earlier was released while
      it was pending. */
  lemma {:induction false} ClaimsAreADayApartUnlessReleased(steps: seq<Step>, i: nat, j: nat)
    requires SweepsAreTimely(INITIAL, steps)
    requires var st := Run(INITIAL, steps);
             i in st.claims && j in st.claims && i < j && st.claims[i].slot == st.claims[j].slot
    ensures var st := Run(INITIAL, steps);
            && (i in st.released || st.claims[j].at > st.claims[i].at + TTL_SECONDS)
            && (i in st.released ==> i !in st.outcomes)
  {
    TimelyRunsAreSafe(steps);
  }

  /** So a claim after a finalized one is more than 24 hours younger. */
  lemma {:induction false} FinalizedClaimsAreADayApart(steps: seq<Step>, i: nat, j: nat)
    requires SweepsAreTimely(INITIAL, steps)
    requires var st := Run(INITIAL, steps);
             && i < j && i in st.outcomes && i in st.claims && j in st.claims
             && st.claims[i].slot == st.claims[j].slot
    ensures var st := Run(INITIAL, steps);
            st.claims[j].at > st.claims[i].at + TTL_SECONDS
  {
    ClaimsAreADayApartUnlessReleased(steps, i, j);
  }

  /** Up to 24 hours after its latest claim a slot can be claimed again if and only if that claim was released. */
  lemma SlotIsFreeIffReleased(st: State, id: nat)
    requires Inv(st) && id in st.claims && st.now <= st.claims[id].at + TTL_SECONDS
    requires forall j | j in st.claims && st.claims[j].slot == st.claims[id].slot :: j <= id
    ensures st.claims[id].slot !in st.records <==> id in st.released
  {
    var slot := st.claims[id].slot;
    if slot in st.records {
      assert RowMatches(st, slot);
    }
  }

  /** A pending claim may be released at any time, also after its work: the next request owns the slot at once. */
  lemma {:induction false} ReleaseLetsTheNextClaimIn(st: State, w: nat, next: nat, fingerprint: string)
    requires Inv(st) && Live(st, w) && !st.workers[w].Finishing? && next !in st.workers
    ensures var slot := st.workers[w].slot;
            var st' := Run(st, [ReleaseStep(w), TryInsert(next, slot, fingerprint)]);
            && st.workers[w].id in st'.released
            && next in st'.workers && st'.workers[next] == Owner(slot, fingerprint, st.nextId)
            && st.nextId in st'.claims && st'.claims[st.nextId] == ClaimEntry(slot, fingerprint, next, st.now)
  {
    assert HoldsItsRow(st, w);
    RunOfTwo(st, [ReleaseStep(w), TryInsert(next, st.workers[w].slot, fingerprint)]);
  }

  lemma {:induction false} RunInTwo(st: State, first: seq<Step>, rest: seq<Step>)
    ensures Run(st, first + rest) == Run(Run(st, first), rest)
    decreases |first|
  {
    if first == [] {
      assert first + rest == rest;
    } else {
      assert (first + rest)[1..] == first[1..] + rest;
      RunInTwo(Next(st, first[0]), first[1..], rest);
    }
  }

  lemma {:induction false} RunOfTwo(st: State, steps: seq<Step>)
    requires |steps| == 2
    ensures Run(st, steps) == Next(Next(st, steps[0]), steps[1])
  {
    var rest := steps[1..];
    assert rest[0] == steps[1] && rest[1..] == [];
    assert Run(st, steps) == Run(Next(st, steps[0]), rest) == Run(Next(Next(st, steps[0]), steps[1]), []);
  }

  /** In a timely run the work behind a slot is done again only after its claim was released, or more than 24 hours
      after the claim, though not necessarily after the work. A claim commits its work once. */
  lemma {:induction false} WorkIsRepeatedOnlyAfterARelease(steps: seq<Step>, a: nat, b: nat)
    requires SweepsAreTimely(INITIAL, steps)
    requires var effects := Run(INITIAL, steps).effects;
             a < |effects| && b < |effects| && a != b && effects[a].slot == effects[b].slot
    ensures var st := Run(INITIAL, steps);
            var first, second := st.effects[a], st.effects[b];
            && first.claim != second.claim && first.claim in st.claims
            && (first.claim < second.claim ==>
                  || first.claim in st.released
                  || second.at > st.claims[first.claim].at + TTL_SECONDS)
  {
    TimelyRunsAreSafe(steps);
    EffectsRun(INITIAL, steps);
    var st := Run(INITIAL, steps);
    if st.effects[a].claim < st.effects[b].claim {
      ClaimsAreADayApartUnlessReleased(steps, st.effects[a].claim, st.effects[b].claim);
    }
  }

  /** If the released claim had done its work, the next one does it again. */
  lemma {:induction false} ReleasedWorkIsDoneAgain(st: State, w: nat, next: nat, fingerprint: string)
    requires Inv(st) && w in st.workers && st.workers[w].Worked? && next !in st.workers
    ensures var slot := st.workers[w].slot;
            var st' := Run(st, [ReleaseStep(w), TryInsert(next, slot, fingerprint), WorkStep(next)]);
            && st.workers[w].id in st'.released
            && st'.effects == st.effects + [Effect(st.nextId, slot, st.now)]
  {
    var steps := [ReleaseStep(w), TryInsert(next, st.workers[w].slot, fingerprint)];
    ReleaseLetsTheNextClaimIn(st, w, next, fingerprint);
    RunOfTwo(st, steps);
    RunInTwo(st, steps, [WorkStep(next)]);
    assert steps + [WorkStep(next)]
        == [ReleaseStep(w), TryInsert(next, st.workers[w].slot, fingerprint), WorkStep(next)];
    var claimed := Run(st, steps);
    assert Run(claimed, [WorkStep(next)]) == Run(Next(claimed, WorkStep(next)), []);
  }

  lemma {:induction false} WithoutSweepsRunsAreTimely(st: State, steps: seq<Step>)
    requires forall step | step in steps :: step != SweepStep
    ensures SweepsAreTimely(st, steps)
    decreases |steps|
  {
    if steps != [] {
      assert steps[0] in steps && forall step | step in steps[1..] :: step in steps;
      WithoutSweepsRunsAreTimely(Next(st, steps[0]), steps[1..]);
    }
  }

  lemma {:induction false} TimelyInTwo(st: State, first: seq<Step>, rest: seq<Step>)
    requires SweepsAreTimely(st, first) && SweepsAreTimely(Run(st, first), rest)
    ensures SweepsAreTimely(st, first + rest)
    decreases |first|
  {
    var steps := first + rest;
    if first == [] {
      assert steps == rest;
    } else {
      assert steps[0] == first[0] && steps[1..] == first[1..] + rest;
      TimelyInTwo(Next(st, first[0]), first[1..], rest);
      assert SweepsAreTimely(Next(st, steps[0]), steps[1..]);
    }
  }

  const SLOT := Slot(1, "k")

  const ONCE: seq<Step> := [TryInsert(0, SLOT, "a"), WorkStep(0)]
  const AGAIN: seq<Step> := [ReleaseStep(0), TryInsert(1, SLOT, "a"), WorkStep(1)]

  /** Work whose response fails is released and done again in the same second, without any sweep. */
  lemma {:induction false} ReleasedWorkIsDoneAgainAtOnce()
    ensures SweepsAreTimely(INITIAL, ONCE + AGAIN)
    ensures Run(INITIAL, ONCE + AGAIN).effects == [Effect(0, SLOT, 0), Effect(1, SLOT, 0)]
  {
    WithoutSweepsRunsAreTimely(INITIAL, ONCE + AGAIN);
    WithoutSweepsRunsAreTimely(INITIAL, ONCE);
    TimelyRunsAreSafe(ONCE);
    WorkedOnce();
    ReleasedWorkIsDoneAgain(Run(INITIAL, ONCE), 0, 1, "a");
    RunInTwo(INITIAL, ONCE, AGAIN);
  }

  lemma {:induction false} WorkedOnce()
    ensures var st := Run(INITIAL, ONCE);
            && st.workers == map[0 := Worked(SLOT, "a", 0)] && st.nextId == 1 && st.now == 0
            && st.effects == [Effect(0, SLOT, 0)]
  {
    RunOfTwo(INITIAL, ONCE);
  }

  const SLOW_WORK: seq<Step> := [TryInsert(0, SLOT, "a"), Tick(TTL_SECONDS), WorkStep(0)]
  const SLOW_ANSWER: seq<Step> := [FinalizeStep(0, 201, "A"), Return(0), Tick(1)]
  const SWEPT_AND_RETRIED: seq<Step> := [SweepStep, TryInsert(1, SLOT, "a"), WorkStep(1)]

  /** The 24 hours count from the claim: work that took that long is done again a second later, though it was
      finalized and never released. */
  lemma {:induction false} SlowWorkIsDoneAgainASecondLater()
    ensures var steps := SLOW_WORK + SLOW_ANSWER + SWEPT_AND_RETRIED;
            var st := Run(INITIAL, steps);
            && SweepsAreTimely(INITIAL, steps) && st.released == {} && 0 in st.outcomes
            && st.effects == [Effect(0, SLOT, TTL_SECONDS), Effect(1, SLOT, TTL_SECONDS + 1)]
  {
    var first := SLOW_WORK + SLOW_ANSWER;
    RunInTwo(INITIAL, SLOW_WORK, SLOW_ANSWER);
    RunInTwo(INITIAL, first, SWEPT_AND_RETRIED);
    SlowWorkIsDone();
    SlowWorkIsAnswered(Run(INITIAL, SLOW_WORK));
    AnsweredWorkIsSwept(Run(INITIAL, first));
    WithoutSweepsRunsAreTimely(INITIAL, first);
    TimelyInTwo(INITIAL, first, SWEPT_AND_RETRIED);
  }

  lemma {:induction false} SlowWorkIsDone()
    ensures var st := Run(INITIAL, SLOW_WORK);
            && st.now == TTL_SECONDS && st.workers == map[0 := Worked(SLOT, "a", 0)] && st.nextId == 1
            && st.records == map[SLOT := Record(0, "a", PENDING, "", 0)]
            && st.effects == [Effect(0, SLOT, TTL_SECONDS)] && st.outcomes == map[] && st.released == {}
  {
    RunOfThree(INITIAL, SLOW_WORK);
  }

  /** The answered work of `SlowWorkIsDone`, a second later. */
  ghost predicate IsAnswered(st: State) {
    && st.now == TTL_SECONDS + 1 && st.workers == map[0 := Gone] && st.nextId == 1
    && st.records == map[SLOT := Record(0, "a", 201, "A", 0)]
    && st.effects == [Effect(0, SLOT, TTL_SECONDS)] && 0 in st.outcomes && st.released == {}
  }

  lemma {:induction false} SlowWorkIsAnswered(st: State)
    requires st.now == TTL_SECONDS && st.workers == map[0 := Worked(SLOT, "a", 0)] && st.nextId == 1
    requires st.records == map[SLOT := Record(0, "a", PENDING, "", 0)]
    requires st.effects == [Effect(0, SLOT, TTL_SECONDS)] && st.released == {}
    ensures IsAnswered(Run(st, SLOW_ANSWER))
  {
    RunOfThree(st, SLOW_ANSWER);
  }

  lemma {:induction false} AnsweredWorkIsSwept(st: State)
    requires IsAnswered(st)
    ensures SweepsAreTimely(st, SWEPT_AND_RETRIED)
    ensures var st' := Run(st, SWEPT_AND_RETRIED);
            && st'.effects == st.effects + [Effect(1, SLOT, st.now)]
            && st'.outcomes == st.outcomes && st'.released == st.released
  {
    RunOfThree(st, SWEPT_AND_RETRIED);
    assert SLOT !in Next(st, SweepStep).records;
    WithoutSweepsRunsAreTimely(Next(st, SweepStep), SWEPT_AND_RETRIED[1..]);
  }

  // ---------------------------------------------------------------------
  // The sweep: exactly when it is safe, and what it repairs
  // ---------------------------------------------------------------------

  /** A sweep keeps the protocol's invariant if and only if no live claim is older than 24 hours. */
  lemma SweepIsSafeIffTimely(st: State)
    requires Inv(st)
    ensures Inv(Next(st, SweepStep)) <==> Timely(st)
  {
    if Timely(st) {
      InvStep(st, SweepStep);
    } else {
      var w :| Live(st, w) && st.workers[w].id in st.claims
               && st.claims[st.workers[w].id].at < st.now - TTL_SECONDS;
      assert HoldsItsRow(st, w);
      assert st.workers[w].slot !in Next(st, SweepStep).records;
      assert Live(Next(st, SweepStep), w) && !HoldsItsRow(Next(st, SweepStep), w);
    }
  }

  /** One worker is still busy when its claim is swept, and a second worker claims the slot. */
  const LATE_RUN: seq<Step> :=
    [TryInsert(0, SLOT, "a"), WorkStep(0), Tick(TTL_SECONDS + 1), SweepStep, TryInsert(1, SLOT, "b")]

  const LATE_REPLAY: seq<Step> :=
    [FinalizeStep(0, 201, "A"), TryInsert(2, SLOT, "b"), ReadExisting(2)]

  lemma {:induction false} RunOfThree(st: State, steps: seq<Step>)
    requires |steps| == 3
    ensures Run(st, steps) == Next(Next(Next(st, steps[0]), steps[1]), steps[2])
  {
    var second, third := steps[1..], steps[1..][1..];
    assert second[0] == steps[1] && third[0] == steps[2] && third[1..] == [];
    var a := Next(st, steps[0]);
    var b := Next(a, steps[1]);
    assert Run(st, steps) == Run(a, second) == Run(b, third) == Run(Next(b, steps[2]), []);
  }

  /** Two workers own the slot, and the row is the second one's. */
  ghost predicate IsLate(st: State) {
    && st.workers == map[0 := Worked(SLOT, "a", 0), 1 := Owner(SLOT, "b", 1)]
    && st.records == map[SLOT := Record(1, "b", PENDING, "", st.now)]
    && st.outcomes == map[]
    && st.claims == map[0 := ClaimEntry(SLOT, "a", 0, 0), 1 := ClaimEntry(SLOT, "b", 1, st.now)]
  }

  /** Without timely sweeps both guarantees fail: two live owners, and a replay nobody finalized for it. */
  lemma {:induction false} UntimelySweepBreaksTheProtocol()
    ensures var st := Run(INITIAL, LATE_RUN);
            && Live(st, 0) && Live(st, 1) && st.workers[0].slot == st.workers[1].slot
            && var st' := Run(st, LATE_REPLAY);
            && 2 in st'.workers && st'.workers[2] == Told(SLOT, "b", Replay(201, "A"))
            && !Finalized(st', SLOT, "b", (201, "A"))
  {
    LateRunEnds();
    LateReplayEnds(Run(INITIAL, LATE_RUN));
  }

  lemma {:induction false} LateRunEnds()
    ensures IsLate(Run(INITIAL, LATE_RUN))
  {
    RunOfTwo(INITIAL, LATE_RUN[..2]);
    RunInTwo(INITIAL, LATE_RUN[..2], LATE_RUN[2..]);
    var worked := Run(INITIAL, LATE_RUN[..2]);
    RunOfThree(worked, LATE_RUN[2..]);
    assert SLOT !in Next(Next(worked, LATE_RUN[2]), LATE_RUN[3]).records;
  }

  lemma {:induction false} LateReplayEnds(st: State)
    requires IsLate(st)
    ensures var st' := Run(st, LATE_REPLAY);
            && 2 in st'.workers && st'.workers[2] == Told(SLOT, "b", Replay(201, "A"))
            && !Finalized(st', SLOT, "b", (201, "A"))
  {
    RunOfThree(st, LATE_REPLAY);
  }

  ghost predicate Abandoned(st: State, slot: Slot) {
    && slot in st.records && st.records[slot].status == PENDING
    && forall w | Live(st, w) :: st.workers[w].slot != slot
  }

  lemma AbandonedStep(st: State, step: Step, slot: Slot)
    requires Abandoned(st, slot) && step != SweepStep
    ensures Abandoned(Next(st, step), slot) && Next(st, step).records[slot] == st.records[slot]
  {
    var st' := Next(st, step);
    if (step.FinalizeStep? || step.ReleaseStep?) && Live(st, step.worker) {
      assert st.workers[step.worker].slot != slot;
    }
    assert slot in st'.records && st'.records[slot] == st.records[slot];
    forall w | Live(st', w) ensures st'.workers[w].slot != slot {
      if !Live(st, w) {
        assert step.TryInsert? && step.worker == w && step.slot !in st.records;
      }
    }
  }

  /** A crashed claim locks its slot for as long as no sweep runs: nothing but a sweep moves its row. */
  lemma {:induction false} AbandonedClaimStaysLocked(st: State, steps: seq<Step>, slot: Slot)
    requires Abandoned(st, slot)
    requires forall step | step in steps :: step != SweepStep
    ensures Abandoned(Run(st, steps), slot) && Run(st, steps).records[slot] == st.records[slot]
    decreases |steps|
  {
    if steps != [] {
      assert steps[0] in steps;
      AbandonedStep(st, steps[0], slot);
      assert forall step | step in steps[1..] :: step in steps;
      AbandonedClaimStaysLocked(Next(st, steps[0]), steps[1..], slot);
    }
  }

  /** After waiting and sweeping, a new request claims the slot if and only if the old row is more than
      24 hours old. */
  lemma {:induction false} AbandonedClaimBecomesClaimable(st: State, slot: Slot, wait: nat, w: nat, fingerprint: string)
    requires slot in st.records && w !in st.workers
    ensures var st' := Run(st, [Tick(wait), SweepStep, TryInsert(w, slot, fingerprint)]);
            && w in st'.workers
            && (st'.workers[w] == Owner(slot, fingerprint, st.nextId)
                <==> st.now + wait > st.records[slot].createdAt + TTL_SECONDS)
  {
    RunOfThree(st, [Tick(wait), SweepStep, TryInsert(w, slot, fingerprint)]);
  }
}
