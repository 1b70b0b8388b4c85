/** `verify_token` (`apps/api_keys/services.py`) step by step, against any writers. */
module KeyCache {
  import opened Prelude

  /** The columns of `ApiKey` that verification or its callers read. */
  datatype KeyRow = KeyRow(
    lookup: string,
    hash: string,
    permissions: set<string>,
    expiresAt: Option<int>,
    revokedAt: Option<int>,
    issuer: Option<int>,
    workspace: int)

  /** Keys, the allowlist `ApiKey.social_accounts` as (key, account) links, and (user, workspace) memberships. */
  datatype Db = Db(keys: map<nat, KeyRow>, links: set<(nat, int)>, members: set<(int, int)>)

  const TTL := 30 // REVOCATION_CACHE_TTL, in seconds

  function Accounts(links: set<(nat, int)>, id: nat): set<int> {
    set link | link in links && link.0 == id :: link.1
  }

  /** `ApiKey.is_active`. */
  predicate IsActive(row: KeyRow, now: int) {
    row.revokedAt.None? && !(row.expiresAt.Some? && row.expiresAt.value <= now)
  }

  /** `_issuer_still_authorized`. */
  predicate IssuerAuthorized(row: KeyRow, members: set<(int, int)>) {
    row.issuer.Some? && (row.issuer.value, row.workspace) in members
  }

  // ---------------------------------------------------------------------
  // The racing protocol
  // ---------------------------------------------------------------------

  /** What a database read returned: a row, its prefetched allowlist, and when it was read. */
  datatype Image = Image(id: nat, row: KeyRow, accounts: set<int>, version: nat, readAt: int)

  datatype Entry = Entry(image: Image, setAt: int)

  datatype Source = FromDb | FromCache(setAt: int, hitAt: int)

  /** One call of `verify_token` for a parsed token: its lookup part, and the HMAC of its secret part. */
  datatype Verifier =
    | Started(lookup: string, hash: string)
    | Missed(lookup: string, hash: string)
    | Filled(lookup: string, hash: string, image: Image)                    // has read the row
    | Tested(lookup: string, hash: string, image: Image)                    // found it active, sets the cache next
    | Loaded(lookup: string, hash: string, image: Image, source: Source)
    | Checked(lookup: string, hash: string, image: Image, source: Source, activeAt: int)
    | Accepted(lookup: string, hash: string, image: Image, source: Source, activeAt: int,
               issuerAt: int, issuerVersion: nat)
    | Rejected

  /** A state of the database and the time since which it has been in force. */
  datatype Version = Version(db: Db, since: int)

  datatype State = State(now: int, history: seq<Version>, cache: map<string, Entry>, verifiers: map<nat, Verifier>)

  datatype Step =
    | Begin(w: nat, lookup: string, hash: string)
    | CacheGet(w: nat)
    | DbRead(w: nat, found: Option<nat>)
    | TestActive(w: nat)
    | CacheSet(w: nat)
    | CheckActive(w: nat)
    | CheckIssuer(w: nat)
    | Write(db: Db)
    | Invalidate(lookup: string)
    | Tick(seconds: nat)

  function Current(st: State): Db
    requires st.history != []
  {
    st.history[|st.history| - 1].db
  }

  predicate Fresh(e: Entry, now: int) {
    now < e.setAt + TTL
  }

  /** `found` is the answer of `ApiKey.objects.get(lookup_prefix=lookup)`. */
  predicate Finds(db: Db, lookup: string, found: Option<nat>) {
    if found.Some? then found.value in db.keys && db.keys[found.value].lookup == lookup
    else forall id | id in db.keys :: db.keys[id].lookup != lookup
  }

  function With(st: State, w: nat, v: Verifier): State {
    st.(verifiers := st.verifiers[w := v])
  }

  /** The cache answers, or not. */
  function Got(st: State, v: Verifier): Verifier
    requires v.Started?
  {
    if v.lookup in st.cache && Fresh(st.cache[v.lookup], st.now) then
      var e := st.cache[v.lookup];
      Loaded(v.lookup, v.hash, e.image, FromCache(e.setAt, st.now))
    else Missed(v.lookup, v.hash)
  }

  /** The database answers. */
  function Queried(st: State, v: Verifier, found: Option<nat>): Verifier
    requires st.history != [] && v.Missed? && Finds(Current(st), v.lookup, found)
  {
    if found.None? then Rejected
    else
      var db, id := Current(st), found.value;
      Filled(v.lookup, v.hash, Image(id, db.keys[id], Accounts(db.links, id), |st.history| - 1, st.now))
  }

  /** Only active rows are cached. */
  function BeforeSet(st: State, v: Verifier): Verifier
    requires v.Filled?
  {
    if IsActive(v.image.row, st.now) then Tested(v.lookup, v.hash, v.image)
    else Loaded(v.lookup, v.hash, v.image, FromDb)
  }

  function ActiveChecked(st: State, v: Verifier): Verifier
    requires v.Loaded?
  {
    if !IsActive(v.image.row, st.now) || v.hash != v.image.row.hash then Rejected
    else Checked(v.lookup, v.hash, v.image, v.source, st.now)
  }

  function IssuerChecked(st: State, v: Verifier): Verifier
    requires st.history != [] && v.Checked?
  {
    if IssuerAuthorized(v.image.row, Current(st).members)
    then Accepted(v.lookup, v.hash, v.image, v.source, v.activeAt, st.now, |st.history| - 1)
    else Rejected
  }

  function Next(st: State, step: Step): State
    requires st.history != []
  {
    match step
    case Begin(w, lookup, hash) =>
      if w in st.verifiers then st else With(st, w, Started(lookup, hash))
    case CacheGet(w) =>
      if w in st.verifiers && st.verifiers[w].Started? then With(st, w, Got(st, st.verifiers[w])) else st
    case DbRead(w, found) =>
      if w in st.verifiers && st.verifiers[w].Missed? && Finds(Current(st), st.verifiers[w].lookup, found)
      then With(st, w, Queried(st, st.verifiers[w], found))
      else st
    case TestActive(w) =>
      if w in st.verifiers && st.verifiers[w].Filled? then With(st, w, BeforeSet(st, st.verifiers[w])) else st
    case CacheSet(w) =>
      if w in st.verifiers && st.verifiers[w].Tested? then
        var v := st.verifiers[w];
        With(st, w, Loaded(v.lookup, v.hash, v.image, FromDb)).(cache := st.cache[v.lookup := Entry(v.image, st.now)])
      else st
    case CheckActive(w) =>
      if w in st.verifiers && st.verifiers[w].Loaded? then
        var v := st.verifiers[w];
        var st' := With(st, w, ActiveChecked(st, v));
        if IsActive(v.image.row, st.now) then st' else st'.(cache := st.cache - {v.lookup})
      else st
    case CheckIssuer(w) =>
      if w in st.verifiers && st.verifiers[w].Checked? then
        var v := st.verifiers[w];
        var st' := With(st, w, IssuerChecked(st, v));
        if IssuerAuthorized(v.image.row, Current(st).members) then st' else st'.(cache := st.cache - {v.lookup})
      else st
    case Write(db) => st.(history := st.history + [Version(db, st.now)])
    case Invalidate(lookup) => st.(cache := st.cache - {lookup})
    case Tick(n) => st.(now := st.now + n)
  }

  lemma HistoryGrows(st: State, step: Step)
    requires st.history != []
    ensures st.history <= Next(st, step).history
  {
  }

  function Run(st: State, steps: seq<Step>): (end: State)
    requires st.history != []
    ensures st.history <= end.history
    decreases |steps|
  {
    if steps == [] then st
    else
      HistoryGrows(st, steps[0]);
      Run(Next(st, steps[0]), steps[1..])
  }

  function Initial(db: Db, now: int): State {
    State(now, [Version(db, now)], map[], map[])
  }

  /** Version `v` was the database at time `t`. */
  ghost predicate InForce(history: seq<Version>, v: nat, t: int) {
    && v < |history|
    && history[v].since <= t
    && (v + 1 < |history| ==> t <= history[v + 1].since)
  }

  /** The image is what the database held when it was read. */
  ghost predicate TrueImage(st: State, image: Image) {
    && InForce(st.history, image.version, image.readAt)
    && image.readAt <= st.now
    && var db := st.history[image.version].db;
    && image.id in db.keys
    && image.row == db.keys[image.id]
    && image.accounts == Accounts(db.links, image.id)
  }

  ghost predicate TrueSource(image: Image, source: Source, now: int) {
    source.FromCache? ==> image.readAt <= source.setAt <= source.hitAt <= now && source.hitAt < source.setAt + TTL
  }

  ghost predicate TrueVerifier(st: State, v: Verifier) {
    match v
    case Started(_, _) => true
    case Missed(_, _) => true
    case Rejected => true
    case Filled(lookup, _, image) => TrueImage(st, image) && image.row.lookup == lookup
    case Tested(lookup, _, image) => TrueImage(st, image) && image.row.lookup == lookup
    case Loaded(lookup, _, image, source) =>
      TrueImage(st, image) && image.row.lookup == lookup && TrueSource(image, source, st.now)
    case Checked(lookup, hash, image, source, activeAt) =>
      && TrueImage(st, image) && image.row.lookup == lookup && TrueSource(image, source, activeAt)
      && image.row.hash == hash && activeAt <= st.now && IsActive(image.row, activeAt)
    case Accepted(lookup, hash, image, source, activeAt, issuerAt, issuerVersion) =>
      && TrueImage(st, image) && image.row.lookup == lookup && TrueSource(image, source, activeAt)
      && image.row.hash == hash && IsActive(image.row, activeAt)
      && activeAt <= issuerAt <= st.now
      && InForce(st.history, issuerVersion, issuerAt)
      && IssuerAuthorized(image.row, st.history[issuerVersion].db.members)
  }

  ghost predicate TrueEntry(st: State, lookup: string, e: Entry) {
    TrueImage(st, e.image) && e.image.readAt <= e.setAt <= st.now && e.image.row.lookup == lookup
  }

  ghost predicate Inv(st: State) {
    && st.history != []
    && (forall i, j | 0 <= i <= j < |st.history| :: st.history[i].since <= st.history[j].since)
    && st.history[|st.history| - 1].since <= st.now
    && (forall l | l in st.cache :: TrueEntry(st, l, st.cache[l]))
    && (forall w | w in st.verifiers :: TrueVerifier(st, st.verifiers[w]))
  }

  /** Time and history only grow, and a new version is in force from now on. */
  ghost predicate Extends(st: State, st': State) {
    && st.history != [] && st.history <= st'.history && st.now <= st'.now
    && forall v | |st.history| <= v < |st'.history| :: st.now <= st'.history[v].since
  }

  lemma NextExtends(st: State, step: Step)
    requires st.history != []
    ensures Extends(st, Next(st, step))
  {
  }

  lemma InForcePersists(st: State, st': State, v: nat, t: int)
    requires Extends(st, st') && InForce(st.history, v, t) && t <= st.now
    ensures InForce(st'.history, v, t)
  {
    assert st'.history[v] == st.history[v];
    if v + 1 < |st.history| {
      assert st'.history[v + 1] == st.history[v + 1];
    }
  }

  lemma ImagePersists(st: State, st': State, image: Image)
    requires Extends(st, st') && TrueImage(st, image)
    ensures TrueImage(st', image)
  {
    InForcePersists(st, st', image.version, image.readAt);
  }

  lemma VerifierPersists(st: State, st': State, v: Verifier)
    requires Extends(st, st') && TrueVerifier(st, v)
    ensures TrueVerifier(st', v)
  {
    match v
    case Started(_, _) =>
    case Missed(_, _) =>
    case Rejected =>
    case Filled(_, _, image) => ImagePersists(st, st', image);
    case Tested(_, _, image) => ImagePersists(st, st', image);
    case Loaded(_, _, image, _) => ImagePersists(st, st', image);
    case Checked(_, _, image, _, _) => ImagePersists(st, st', image);
    case Accepted(_, _, image, _, _, issuerAt, issuerVersion) =>
      ImagePersists(st, st', image);
      InForcePersists(st, st', issuerVersion, issuerAt);
  }

  lemma EntryPersists(st: State, st': State, l: string, e: Entry)
    requires Extends(st, st') && TrueEntry(st, l, e)
    ensures TrueEntry(st', l, e)
  {
    ImagePersists(st, st', e.image);
  }

  predicate Acts(step: Step, w: nat) {
    match step
    case CacheGet(x) => x == w
    case DbRead(x, _) => x == w
    case TestActive(x) => x == w
    case CacheSet(x) => x == w
    case CheckActive(x) => x == w
    case CheckIssuer(x) => x == w
    case _ => false
  }

  lemma GotIsTrue(st: State, v: Verifier)
    requires v.Started? && (v.lookup in st.cache ==> TrueEntry(st, v.lookup, st.cache[v.lookup]))
    ensures TrueVerifier(st, Got(st, v))
  {
  }

  lemma QueriedIsTrue(st: State, v: Verifier, found: Option<nat>)
    requires st.history != [] && st.history[|st.history| - 1].since <= st.now
    requires v.Missed? && Finds(Current(st), v.lookup, found)
    ensures TrueVerifier(st, Queried(st, v, found))
  {
  }

  lemma ActiveCheckedIsTrue(st: State, v: Verifier)
    requires v.Loaded? && TrueVerifier(st, v)
    ensures TrueVerifier(st, ActiveChecked(st, v))
  {
  }

  lemma IssuerCheckedIsTrue(st: State, v: Verifier)
    requires st.history != [] && st.history[|st.history| - 1].since <= st.now
    requires v.Checked? && TrueVerifier(st, v)
    ensures TrueVerifier(st, IssuerChecked(st, v))
  {
  }

  /** The verifier that moves is truthful after its step, seen from the state before it. */
  lemma ActingVerifier(st: State, step: Step, w: nat)
    requires Inv(st) && w in st.verifiers && Acts(step, w)
    ensures w in Next(st, step).verifiers && TrueVerifier(st, Next(st, step).verifiers[w])
  {
    var v := st.verifiers[w];
    assert TrueVerifier(st, v);
    match step
    case CacheGet(_) => if v.Started? { GotIsTrue(st, v); }
    case DbRead(_, found) =>
      if v.Missed? && Finds(Current(st), v.lookup, found) { QueriedIsTrue(st, v, found); }
    case CheckActive(_) => if v.Loaded? { ActiveCheckedIsTrue(st, v); }
    case CheckIssuer(_) => if v.Checked? { IssuerCheckedIsTrue(st, v); }
    case _ =>
  }

  lemma OthersDoNotMove(st: State, step: Step, w: nat)
    requires st.history != [] && w in Next(st, step).verifiers && !(w in st.verifiers && Acts(step, w))
    ensures w in st.verifiers ==> Next(st, step).verifiers[w] == st.verifiers[w]
    ensures w !in st.verifiers ==> Next(st, step).verifiers[w].Started?
  {
  }

  lemma VerifierStep(st: State, step: Step, w: nat)
    requires Inv(st) && w in Next(st, step).verifiers
    ensures TrueVerifier(Next(st, step), Next(st, step).verifiers[w])
  {
    NextExtends(st, step);
    var st', v' := Next(st, step), Next(st, step).verifiers[w];
    if w in st.verifiers && Acts(step, w) {
      ActingVerifier(st, step, w);
      VerifierPersists(st, st', v');
    } else {
      OthersDoNotMove(st, step, w);
      if w in st.verifiers {
        VerifierPersists(st, st', v');
      }
    }
  }

  /** Only a fill puts an entry into the cache. */
  lemma EntriesComeFromFills(st: State, step: Step, l: string)
    requires st.history != [] && l in Next(st, step).cache
    ensures (l in st.cache && Next(st, step).cache[l] == st.cache[l])
            || (step.CacheSet? && step.w in st.verifiers && st.verifiers[step.w].Tested?
                && l == st.verifiers[step.w].lookup
                && Next(st, step).cache[l] == Entry(st.verifiers[step.w].image, st.now))
  {
  }

  lemma EntryStep(st: State, step: Step, l: string)
    requires Inv(st) && l in Next(st, step).cache
    ensures TrueEntry(Next(st, step), l, Next(st, step).cache[l])
  {
    NextExtends(st, step);
    EntriesComeFromFills(st, step, l);
    var st', e := Next(st, step), Next(st, step).cache[l];
    assert TrueEntry(st, l, e) by {
      if !(l in st.cache && e == st.cache[l]) {
        assert TrueVerifier(st, st.verifiers[step.w]);
      }
    }
    EntryPersists(st, st', l, e);
  }

  lemma InvStep(st: State, step: Step)
    requires Inv(st)
    ensures Inv(Next(st, step))
  {
    var st' := Next(st, step);
    forall w | w in st'.verifiers ensures TrueVerifier(st', st'.verifiers[w]) {
      VerifierStep(st, step, w);
    }
    forall l | l in st'.cache ensures TrueEntry(st', l, st'.cache[l]) {
      EntryStep(st, step, l);
    }
  }

  lemma {:induction false} InvRun(st: State, steps: seq<Step>)
    requires Inv(st)
    ensures Inv(Run(st, steps))
    decreases |steps|
  {
    if steps != [] {
      InvStep(st, steps[0]);
      InvRun(Next(st, steps[0]), steps[1..]);
    }
  }

  /** What a verifier holds after the cache or the database answered it. */
  predicate Holds(v: Verifier) {
    v.Loaded? || v.Checked? || v.Accepted?
  }

  /** In every run, whatever the writers and the other verifiers do, a hit uses an image that was the true
      scope of its key at a time less than the TTL plus the fill's own read-to-set delay before the hit. */
  lemma {:induction false} HitIsRecent(db: Db, start: int, steps: seq<Step>, w: nat)
    requires var st := Run(Initial(db, start), steps);
             w in st.verifiers && Holds(st.verifiers[w]) && st.verifiers[w].source.FromCache?
    ensures var st := Run(Initial(db, start), steps);
            var image, source := st.verifiers[w].image, st.verifiers[w].source;
            && TrueImage(st, image)
            && image.row.lookup == st.verifiers[w].lookup
            && 0 <= source.hitAt - image.readAt < TTL + (source.setAt - image.readAt)
  {
    InvRun(Initial(db, start), steps);
    var st := Run(Initial(db, start), steps);
    assert TrueVerifier(st, st.verifiers[w]);
  }

  /** In every run an accepted token has the hash of the row that was used, which the table held when it was read;
      that row was neither revoked nor expired when it was checked, and its issuer was a member when that was. */
  lemma {:induction false} AcceptedIsAuthorized(db: Db, start: int, steps: seq<Step>, w: nat)
    requires var st := Run(Initial(db, start), steps);
             w in st.verifiers && st.verifiers[w].Accepted?
    ensures var st := Run(Initial(db, start), steps);
            var v := st.verifiers[w];
            && TrueImage(st, v.image)
            && v.image.row.lookup == v.lookup && v.image.row.hash == v.hash
            && v.image.row.revokedAt.None?
            && (v.image.row.expiresAt.Some? ==> v.activeAt < v.image.row.expiresAt.value)
            && v.activeAt <= v.issuerAt && InForce(st.history, v.issuerVersion, v.issuerAt)
            && v.image.row.issuer.Some?
            && (v.image.row.issuer.value, v.image.row.workspace) in st.history[v.issuerVersion].db.members
  {
    InvRun(Initial(db, start), steps);
    var st := Run(Initial(db, start), steps);
    assert TrueVerifier(st, st.verifiers[w]);
  }

  /** The key is revoked, or gone, in every version from `r` on. */
  ghost predicate RevokedFrom(history: seq<Version>, r: nat, id: nat) {
    forall v | r <= v < |history| && id in history[v].db.keys :: history[v].db.keys[id].revokedAt.Some?
  }

  /** How long a revoked key can still be accepted: through the cache for less than the TTL plus the delay
      of the fill it uses, and without the cache only if the row was read before the revocation. The plain
      TTL bounds a hit whose fill did not straddle the revocation. */
  lemma {:induction false} RevocationReachesEveryone(db: Db, start: int, steps: seq<Step>, w: nat, r: nat)
    requires var st := Run(Initial(db, start), steps);
             && w in st.verifiers && st.verifiers[w].Accepted?
             && r < |st.history| && RevokedFrom(st.history, r, st.verifiers[w].image.id)
    ensures var st := Run(Initial(db, start), steps);
            var image, source := st.verifiers[w].image, st.verifiers[w].source;
            && image.readAt <= st.history[r].since
            && (source.FromCache? ==> source.hitAt < st.history[r].since + TTL + (source.setAt - image.readAt))
            && (source.FromCache? && source.setAt <= st.history[r].since ==> source.hitAt < st.history[r].since + TTL)
  {
    InvRun(Initial(db, start), steps);
    var st := Run(Initial(db, start), steps);
    var v := st.verifiers[w];
    assert TrueVerifier(st, v);
    assert v.image.version < r;
    assert st.history[v.image.version + 1].since <= st.history[r].since;
  }

  // ---------------------------------------------------------------------
  // Exactly when the plain TTL is not a bound
  // ---------------------------------------------------------------------

  /** The key stays revoked, or gone, from state `st` to the end of the steps. */
  ghost predicate StaysRevoked(st: State, steps: seq<Step>, id: nat)
    requires st.history != []
  {
    RevokedFrom(Run(st, steps).history, |st.history| - 1, id)
  }

  /** The verifier has read the key but not yet set the cache: its row is one of the `young` ones, or it has been found
      active already and is one of the `rows`. */
  predicate WillFill(v: Verifier, id: nat, young: KeyRow -> bool, rows: KeyRow -> bool) {
    || (v.Filled? && v.image.id == id && young(v.image.row))
    || (v.Tested? && v.image.id == id && rows(v.image.row))
  }

  ghost predicate FillPending(st: State, id: nat, young: KeyRow -> bool, rows: KeyRow -> bool) {
    exists w | w in st.verifiers :: WillFill(st.verifiers[w], id, young, rows)
  }

  /** Seen from a later state: an image of the key that was cached after `since` is none of the `rows`. */
  ghost predicate Stale(since: int, id: nat, rows: KeyRow -> bool, image: Image, setAt: int) {
    image.id == id && since < setAt ==> !rows(image.row)
  }

  /** Such a verifier will not fill the cache with one of the `rows`, nor has it found one of them there. */
  ghost predicate DrainedVerifier(v: Verifier, since: int, id: nat, young: KeyRow -> bool, rows: KeyRow -> bool) {
    && !WillFill(v, id, young, rows)
    && (Holds(v) && v.source.FromCache? ==> Stale(since, id, rows, v.image, v.source.setAt))
  }

  /** No image of the key among the `rows` can reach the cache any more. */
  ghost predicate Drained(st: State, since: int, id: nat, young: KeyRow -> bool, rows: KeyRow -> bool) {
    && since <= st.now
    && (forall l | l in st.cache :: Stale(since, id, rows, st.cache[l].image, st.cache[l].setAt))
    && (forall w | w in st.verifiers :: DrainedVerifier(st.verifiers[w], since, id, young, rows))
  }

  /** Fresh rows are not revoked, and a row that is not young is none of the `rows` if it is active after `since`. */
  ghost predicate Covers(since: int, young: KeyRow -> bool, rows: KeyRow -> bool) {
    && (forall row | young(row) :: row.revokedAt.None?)
    && (forall row, t | since <= t && IsActive(row, t) && rows(row) :: young(row))
  }

  lemma DrainedAtFirst(st: State, id: nat, young: KeyRow -> bool, rows: KeyRow -> bool)
    requires Inv(st) && !FillPending(st, id, young, rows)
    ensures Drained(st, st.now, id, young, rows)
  {
    forall l | l in st.cache ensures st.cache[l].setAt <= st.now {
      assert TrueEntry(st, l, st.cache[l]);
    }
    forall w | w in st.verifiers ensures DrainedVerifier(st.verifiers[w], st.now, id, young, rows) {
      assert TrueVerifier(st, st.verifiers[w]);
    }
  }

  /** A verifier of the run after one step: untouched, or moved by its own step. */
  lemma VerifierDrains(st: State, step: Step, since: int, id: nat, young: KeyRow -> bool, rows: KeyRow -> bool, w: nat)
    requires st.history != [] && Drained(st, since, id, young, rows) && w in Next(st, step).verifiers
    requires Covers(since, young, rows)
    requires id in Current(st).keys ==> Current(st).keys[id].revokedAt.Some?
    ensures DrainedVerifier(Next(st, step).verifiers[w], since, id, young, rows)
  {
    if w in st.verifiers && Acts(step, w) {
      var v := st.verifiers[w];
      assert DrainedVerifier(v, since, id, young, rows);
      if step.CacheGet? && v.Started? && v.lookup in st.cache {
        assert Stale(since, id, rows, st.cache[v.lookup].image, st.cache[v.lookup].setAt);
      }
    } else {
      OthersDoNotMove(st, step, w);
    }
  }

  lemma DrainedStep(st: State, step: Step, since: int, id: nat, young: KeyRow -> bool, rows: KeyRow -> bool)
    requires st.history != [] && Drained(st, since, id, young, rows) && Covers(since, young, rows)
    requires id in Current(st).keys ==> Current(st).keys[id].revokedAt.Some?
    ensures Drained(Next(st, step), since, id, young, rows)
  {
    var st' := Next(st, step);
    forall w | w in st'.verifiers ensures DrainedVerifier(st'.verifiers[w], since, id, young, rows) {
      VerifierDrains(st, step, since, id, young, rows, w);
    }
    forall l | l in st'.cache ensures Stale(since, id, rows, st'.cache[l].image, st'.cache[l].setAt) {
      EntriesComeFromFills(st, step, l);
      if step.CacheSet? && step.w in st.verifiers {
        assert DrainedVerifier(st.verifiers[step.w], since, id, young, rows);
      }
    }
  }

  lemma {:induction false} Unfold(st: State, steps: seq<Step>)
    requires st.history != [] && steps != []
    ensures Run(st, steps) == Run(Next(st, steps[0]), steps[1..])
    ensures |steps| == 1 ==> Run(st, steps) == Next(st, steps[0])
  {
    HistoryGrows(st, steps[0]);
  }

  lemma {:induction false} RunDrains(st: State, steps: seq<Step>, since: int, id: nat, young: KeyRow -> bool,
                                     rows: KeyRow -> bool)
    requires st.history != [] && Drained(st, since, id, young, rows) && StaysRevoked(st, steps, id)
    requires Covers(since, young, rows)
    ensures Drained(Run(st, steps), since, id, young, rows)
    decreases |steps|
  {
    if steps != [] {
      var st' := Next(st, steps[0]);
      HistoryGrows(st, steps[0]);
      Unfold(st, steps);
      var end, v := Run(st, steps).history, |st.history| - 1;
      assert st.history <= st'.history <= end && end[v] == st.history[v];
      DrainedStep(st, steps[0], since, id, young, rows);
      RunDrains(st', steps[1..], since, id, young, rows);
    }
  }

  /** Active at the revocation: what can still be found active. */
  function ActiveAt(t: int): KeyRow -> bool {
    (row: KeyRow) => IsActive(row, t)
  }

  /** Whatever was found active is set. */
  function AnyRow(): KeyRow -> bool {
    (row: KeyRow) => true
  }

  /** Worth a full TTL after the revocation: still active then, and with an issuer to be checked. */
  function UsableAt(t: int): KeyRow -> bool {
    (row: KeyRow) => IsActive(row, t) && row.issuer.Some?
  }

  /** A verifier has taken the key's image from the cache a full TTL after `since`, or later. */
  ghost predicate HitLate(st: State, since: int, id: nat, w: nat) {
    && w in st.verifiers && Holds(st.verifiers[w]) && st.verifiers[w].image.id == id
    && st.verifiers[w].source.FromCache? && st.verifiers[w].source.hitAt >= since + TTL
  }

  /** A run in which the key stays revoked and is nevertheless taken from the cache a full TTL later. */
  ghost predicate IsLateHit(st: State, id: nat, steps: seq<Step>, w: nat)
    requires st.history != []
  {
    StaysRevoked(st, steps, id) && HitLate(Run(st, steps), st.now, id, w)
  }

  /** A run in which it is then accepted, too. */
  ghost predicate IsLateAcceptance(st: State, id: nat, steps: seq<Step>, w: nat)
    requires st.history != []
  {
    IsLateHit(st, id, steps, w) && Run(st, steps).verifiers[w].Accepted?
  }

  /** The steps by which a pending fill outlives the TTL: it is found active, unless it was, and set a second later;
      another verifier finds the entry in the last second of its life. */
  function LateHit(w: nat, n: nat, lookup: string, hash: string): seq<Step> {
    [TestActive(w), Tick(1), CacheSet(w), Tick(TTL - 1), Begin(n, lookup, hash), CacheGet(n)]
  }

  /** `states` are the states that the steps lead through. */
  ghost predicate IsPath(states: seq<State>, steps: seq<Step>) {
    |states| == |steps| + 1 && forall i | 0 <= i < |steps| :: Leads(states[i], steps[i], states[i + 1])
  }

  ghost predicate Leads(st: State, step: Step, st': State) {
    st.history != [] && st' == Next(st, step)
  }

  lemma {:induction false} PathIsRun(states: seq<State>, steps: seq<Step>)
    requires IsPath(states, steps) && states[0].history != []
    ensures Run(states[0], steps) == states[|steps|]
    decreases |steps|
  {
    if steps != [] {
      Unfold(states[0], steps);
      assert Leads(states[0], steps[0], states[1]);
      forall i | 0 <= i < |steps[1..]| ensures Leads(states[1..][i], steps[1..][i], states[1..][i + 1]) {
        assert Leads(states[i + 1], steps[i + 1], states[i + 1 + 1]);
      }
      HistoryGrows(states[0], steps[0]);
      PathIsRun(states[1..], steps[1..]);
    }
  }

  lemma {:induction false} PendingFillHitsLate(st: State, id: nat, w: nat, n: nat, hash: string)
    requires Inv(st) && w in st.verifiers && n !in st.verifiers
    requires WillFill(st.verifiers[w], id, ActiveAt(st.now), AnyRow())
    ensures var v := st.verifiers[w];
            var end := Run(st, LateHit(w, n, v.lookup, hash));
            && end.history == st.history && end.now == st.now + TTL && HitLate(end, st.now, id, n)
            && end.verifiers[n] == Loaded(v.lookup, hash, v.image, FromCache(st.now + 1, st.now + TTL))
  {
    var steps := LateHit(w, n, st.verifiers[w].lookup, hash);
    Unfold(st, steps);
    TestedHitsLate(Next(st, steps[0]), id, w, n, hash);
  }

  lemma {:induction false} TestedHitsLate(st: State, id: nat, w: nat, n: nat, hash: string)
    requires st.history != [] && w in st.verifiers && n !in st.verifiers
    requires st.verifiers[w].Tested? && st.verifiers[w].image.id == id
    ensures var v := st.verifiers[w];
            var end := Run(st, LateHit(w, n, v.lookup, hash)[1..]);
            && end.history == st.history && end.now == st.now + TTL && HitLate(end, st.now, id, n)
            && end.verifiers[n] == Loaded(v.lookup, hash, v.image, FromCache(st.now + 1, st.now + TTL))
  {
    var v, t := st.verifiers[w], st.now;
    var s1 := st.(now := t + 1);
    var s2 := With(s1, w, Loaded(v.lookup, v.hash, v.image, FromDb))
              .(cache := st.cache[v.lookup := Entry(v.image, t + 1)]);
    var s3 := s2.(now := t + TTL);
    var s4 := With(s3, n, Started(v.lookup, hash));
    var s5 := With(s4, n, Loaded(v.lookup, hash, v.image, FromCache(t + 1, t + TTL)));
    var states, steps := [st, s1, s2, s3, s4, s5], LateHit(w, n, v.lookup, hash)[1..];
    assert Leads(st, steps[0], s1);
    assert Leads(s1, steps[1], s2);
    assert Leads(s2, steps[2], s3);
    assert Leads(s3, steps[3], s4);
    assert Leads(s4, steps[4], s5);
    assert IsPath(states, steps);
    PathIsRun(states, steps);
  }

  lemma NewVerifier(verifiers: map<nat, Verifier>) returns (n: nat)
    ensures n !in verifiers
  {
    n := Above(verifiers.Keys);
  }

  lemma {:induction false} Above(ids: set<nat>) returns (n: nat)
    ensures forall i | i in ids :: i < n
  {
    if |ids| == 0 {
      n := 0;
    } else {
      var x :| x in ids;
      n := Above(ids - {x});
      n := if n <= x then x + 1 else n;
      assert forall i | i in ids :: i == x || i in ids - {x};
    }
  }

  /** The key is revoked, or gone, in state `st`. Some run in which it stays so takes it from the cache a full TTL
      later, or after that, if and only if a fill is pending that has found it active, or that can do so now. */
  lemma {:induction false} HitsOutliveTheTtlIff(st: State, id: nat)
    requires Inv(st) && RevokedFrom(st.history, |st.history| - 1, id)
    ensures (exists steps, w :: IsLateHit(st, id, steps, w))
            <==> FillPending(st, id, ActiveAt(st.now), AnyRow())
  {
    if FillPending(st, id, ActiveAt(st.now), AnyRow()) {
      var w :| w in st.verifiers && WillFill(st.verifiers[w], id, ActiveAt(st.now), AnyRow());
      var n := NewVerifier(st.verifiers);
      PendingFillHitsLate(st, id, w, n, "");
      assert IsLateHit(st, id, LateHit(w, n, st.verifiers[w].lookup, ""), n);
    } else {
      forall steps, w ensures !IsLateHit(st, id, steps, w) {
        NothingPendingNoLateHit(st, id, steps, w);
      }
    }
  }

  lemma {:induction false} NothingPendingNoLateHit(st: State, id: nat, steps: seq<Step>, w: nat)
    requires Inv(st) && !FillPending(st, id, ActiveAt(st.now), AnyRow())
    ensures !IsLateHit(st, id, steps, w)
  {
    if StaysRevoked(st, steps, id) {
      DrainedAtFirst(st, id, ActiveAt(st.now), AnyRow());
      RunDrains(st, steps, st.now, id, ActiveAt(st.now), AnyRow());
      InvRun(st, steps);
      NoLateHit(Run(st, steps), st.now, id, w);
    }
  }

  lemma NoLateHit(end: State, since: int, id: nat, w: nat)
    requires Inv(end) && Drained(end, since, id, ActiveAt(since), AnyRow())
    ensures !HitLate(end, since, id, w)
  {
    if w in end.verifiers && Holds(end.verifiers[w]) && end.verifiers[w].source.FromCache? {
      var v := end.verifiers[w];
      assert TrueVerifier(end, v) && DrainedVerifier(v, since, id, ActiveAt(since), AnyRow());
      assert Stale(since, id, AnyRow(), v.image, v.source.setAt);
    }
  }

  // ---------------------------------------------------------------------
  // And the same for accepting the key
  // ---------------------------------------------------------------------

  lemma {:induction false} RunInTwo(st: State, a: seq<Step>, b: seq<Step>)
    requires st.history != []
    ensures Run(st, a + b) == Run(Run(st, a), b)
    decreases |a|
  {
    if a == [] {
      assert a + b == b;
    } else {
      HistoryGrows(st, a[0]);
      Unfold(st, a + b);
      assert (a + b)[1..] == a[1..] + b;
      RunInTwo(Next(st, a[0]), a[1..], b);
    }
  }

  /** The two checks, in a database where the issuer is a member. */
  lemma {:induction false} CheckedAndAccepted(st: State, n: nat, db: Db)
    requires st.history != [] && n in st.verifiers && st.verifiers[n].Loaded?
    requires var v := st.verifiers[n];
             v.hash == v.image.row.hash && IsActive(v.image.row, st.now) && IssuerAuthorized(v.image.row, db.members)
    ensures var end := Run(st, [Write(db), CheckActive(n), CheckIssuer(n)]);
            && end.history == st.history + [Version(db, st.now)] && n in end.verifiers
            && end.verifiers[n].Accepted? && end.verifiers[n].image == st.verifiers[n].image
            && end.verifiers[n].source == st.verifiers[n].source
  {
    var steps := [Write(db), CheckActive(n), CheckIssuer(n)];
    var s1 := Next(st, steps[0]);
    var s2 := Next(s1, steps[1]);
    Unfold(st, steps);
    Unfold(s1, steps[1..]);
    Unfold(s2, steps[1..][1..]);
  }

  lemma PendingFillIsAcceptedLate(st: State, id: nat, w: nat) returns (steps: seq<Step>, n: nat)
    requires Inv(st) && RevokedFrom(st.history, |st.history| - 1, id)
    requires w in st.verifiers && WillFill(st.verifiers[w], id, UsableAt(st.now + TTL), UsableAt(st.now + TTL))
    ensures IsLateAcceptance(st, id, steps, n)
  {
    var v, row := st.verifiers[w], st.verifiers[w].image.row;
    n := NewVerifier(st.verifiers);
    PendingFillHitsLate(st, id, w, n, row.hash);
    var hit := Run(st, LateHit(w, n, v.lookup, row.hash));
    var db := Current(st).(members := {(row.issuer.value, row.workspace)});
    var checks := [Write(db), CheckActive(n), CheckIssuer(n)];
    CheckedAndAccepted(hit, n, db);
    RunInTwo(st, LateHit(w, n, v.lookup, row.hash), checks);
    steps := LateHit(w, n, v.lookup, row.hash) + checks;
    SameKeysStayRevoked(st.history, id, Version(db, hit.now));
  }

  lemma SameKeysStayRevoked(history: seq<Version>, id: nat, next: Version)
    requires history != [] && RevokedFrom(history, |history| - 1, id)
    requires next.db.keys == history[|history| - 1].db.keys
    ensures RevokedFrom(history + [next], |history| - 1, id)
  {
  }

  /** And some such run accepts the key on the strength of that hit if and only if a fill is pending that has read
      it, has an issuer, and does not expire within the TTL. */
  lemma {:induction false} AcceptancesOutliveTheTtlIff(st: State, id: nat)
    requires Inv(st) && RevokedFrom(st.history, |st.history| - 1, id)
    ensures (exists steps, w :: IsLateAcceptance(st, id, steps, w))
            <==> FillPending(st, id, UsableAt(st.now + TTL), UsableAt(st.now + TTL))
  {
    var rows := UsableAt(st.now + TTL);
    if FillPending(st, id, rows, rows) {
      var w :| w in st.verifiers && WillFill(st.verifiers[w], id, rows, rows);
      var steps, n := PendingFillIsAcceptedLate(st, id, w);
    } else {
      forall steps, w ensures !IsLateAcceptance(st, id, steps, w) {
        NothingPendingNoLateAcceptance(st, id, steps, w);
      }
    }
  }

  lemma {:induction false} NothingPendingNoLateAcceptance(st: State, id: nat, steps: seq<Step>, w: nat)
    requires Inv(st) && !FillPending(st, id, UsableAt(st.now + TTL), UsableAt(st.now + TTL))
    ensures !IsLateAcceptance(st, id, steps, w)
  {
    if StaysRevoked(st, steps, id) {
      var rows := UsableAt(st.now + TTL);
      DrainedAtFirst(st, id, rows, rows);
      RunDrains(st, steps, st.now, id, rows, rows);
      InvRun(st, steps);
      NoLateAcceptance(Run(st, steps), st.now, id, w);
    }
  }

  lemma NoLateAcceptance(end: State, since: int, id: nat, w: nat)
    requires Inv(end) && Drained(end, since, id, UsableAt(since + TTL), UsableAt(since + TTL))
    ensures !(HitLate(end, since, id, w) && end.verifiers[w].Accepted?)
  {
    if w in end.verifiers && end.verifiers[w].Accepted? && end.verifiers[w].source.FromCache? {
      var v := end.verifiers[w];
      assert TrueVerifier(end, v) && DrainedVerifier(v, since, id, UsableAt(since + TTL), UsableAt(since + TTL));
      assert Stale(since, id, UsableAt(since + TTL), v.image, v.source.setAt);
    }
  }

  // ---------------------------------------------------------------------
  // A run that gets there
  // ---------------------------------------------------------------------

  const ROW := KeyRow("lookup08", "hmac", {}, None, None, Some(1), 2)

  const ACTIVE_DB := Db(map[7 := ROW], {}, {(1, 2)})

  const REVOKED_DB := Db(map[7 := ROW.(revokedAt := Some(1))], {}, {(1, 2)})

  /** A verifier reads the row, then the key is revoked and its cache entry dropped. */
  const STRADDLED: seq<Step> :=
    [CacheGet(0), DbRead(0, Some(7)), Tick(1), Write(REVOKED_DB), Invalidate("lookup08")]

  /** The 30 seconds that the source promises for a revocation are not a bound: from here the key can be accepted
      from the cache a full TTL after it was revoked and invalidated. */
  lemma RevocationCanOutliveTheTtl()
    ensures var st := Run(Next(Initial(ACTIVE_DB, 0), Begin(0, "lookup08", "hmac")), STRADDLED);
            && Inv(st) && |st.history| == 2 && RevokedFrom(st.history, 1, 7) && st.history[1].since == st.now
            && "lookup08" !in st.cache
            && exists steps, w :: IsLateAcceptance(st, 7, steps, w)
  {
    var s0 := Initial(ACTIVE_DB, 0);
    var s1 := Next(s0, Begin(0, "lookup08", "hmac"));
    var st := Run(s1, STRADDLED);
    InvStep(s0, Begin(0, "lookup08", "hmac"));
    InvRun(s1, STRADDLED);
    Straddled(s1);
    AcceptancesOutliveTheTtlIff(st, 7);
  }

  lemma {:induction false} Straddled(s1: State)
    requires s1 == State(0, [Version(ACTIVE_DB, 0)], map[], map[0 := Started("lookup08", "hmac")])
    ensures var st := Run(s1, STRADDLED);
            && st.now == 1 && st.history == [Version(ACTIVE_DB, 0), Version(REVOKED_DB, 1)] && st.cache == map[]
            && 0 in st.verifiers && st.verifiers[0].Filled?
            && st.verifiers[0].image.id == 7 && st.verifiers[0].image.row == ROW
  {
    var image := Image(7, ROW, Accounts({}, 7), 0, 0);
    var missed, filled := map[0 := Missed("lookup08", "hmac")], map[0 := Filled("lookup08", "hmac", image)];
    var before, after := [Version(ACTIVE_DB, 0)], [Version(ACTIVE_DB, 0), Version(REVOKED_DB, 1)];
    var s2, s3 := State(0, before, map[], missed), State(0, before, map[], filled);
    var s4, s5 := State(1, before, map[], filled), State(1, after, map[], filled);
    assert Leads(s1, STRADDLED[0], s2);
    assert Finds(Current(s2), "lookup08", Some(7)) && Leads(s2, STRADDLED[1], s3);
    assert Leads(s3, STRADDLED[2], s4);
    assert Leads(s4, STRADDLED[3], s5);
    assert Leads(s5, STRADDLED[4], s5);
    var states := [s1, s2, s3, s4, s5, s5];
    assert IsPath(states, STRADDLED);
    PathIsRun(states, STRADDLED);
  }
}
