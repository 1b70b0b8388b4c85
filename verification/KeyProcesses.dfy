/** The row caches of several processes: what an edit by one of them leaves in the caches of the others. */
module KeyProcesses {
  import opened Prelude
  import opened KeyCache
  import opened KeyStore

  /** Without `REDIS_URL` the cache is `LocMemCache` (`config/settings/base.py`): one for each process. */
  type Caches = seq<Cache>

  ghost predicate AllCoherent(db: Db, caches: Caches) {
    forall p | 0 <= p < |caches| :: Coherent(db, caches[p])
  }

  /** Process `p` edits; its handlers reach its own cache alone. */
  function CachesAfter(db: Db, caches: Caches, p: nat, e: Edit): Caches
    requires Permitted(db, e) && p < |caches|
  {
    caches[p := CacheAfter(db, caches[p], e)]
  }

  /** The edit changes the row or the allowlist of the key, as can be seen before it is made. */
  predicate Touches(db: Db, e: Edit, id: nat)
    requires id in db.keys
  {
    match e
    case Issue(_, _, _) => false
    case Save(i, row) => i == id && row != db.keys[id]
    case Revoke(i, _) => i == id && db.keys[id].revokedAt.None?
    case AddAccounts(i, accounts) => i == id && exists a | a in accounts :: (id, a) !in db.links
    case RemoveAccounts(i, accounts) => i == id && exists a | a in accounts :: (id, a) in db.links
    case ClearAccounts(i) => i == id && exists link | link in db.links :: link.0 == id
    case AddKeys(account, ids) => id in ids && (id, account) !in db.links
    case RemoveKeys(account, ids) => id in ids && (id, account) in db.links
    case ClearKeys(account) => (id, account) in db.links
    case SetMembers(_) => false
    case _ => Cascades(db, e, id)
  }

  ghost predicate ScopeStays(db: Db, db': Db, id: nat)
    requires id in db.keys
  {
    id in db'.keys && db'.keys[id] == db.keys[id] && Accounts(db'.links, id) == Accounts(db.links, id)
  }

  lemma SameAccountsIff(a: set<(nat, int)>, b: set<(nat, int)>, id: nat)
    ensures Accounts(a, id) == Accounts(b, id) <==> forall x :: (id, x) in a <==> (id, x) in b
  {
    if Accounts(a, id) == Accounts(b, id) {
      forall x ensures (id, x) in a <==> (id, x) in b {
        AccountsAreLinks(a, id, x);
        AccountsAreLinks(b, id, x);
      }
    } else if forall x :: (id, x) in a <==> (id, x) in b {
      SameAccounts(a, b, id);
    }
  }

  /** Exactly the keys that are touched change their scope. */
  lemma TouchedScopesChange(db: Db, e: Edit, id: nat)
    requires WellFormed(db) && Permitted(db, e) && id in db.keys
    ensures Touches(db, e, id) <==> !ScopeStays(db, Edited(db, e), id)
  {
    var db' := Edited(db, e);
    if e.Delete? || e.DeleteAccount? || e.DeleteUser? || e.DeleteWorkspace? {
      if Cascades(db, e, id) {
        CascadesChangeTheScope(db, e, id);
      } else {
        UnnotifiedScopesAreUnchanged(db, e, id);
      }
    } else if e == ClearAccounts(id) {
      ClearingTouches(db, id);
    } else {
      SameAccountsIff(db.links, db'.links, id);
      forall x ensures (id, x) in db'.links <==> LinkedAfter(db, e, id, x) {
        LinksAfter(db, e, id, x);
      }
    }
  }

  /** Clearing touches a key that has links. */
  lemma ClearingTouches(db: Db, id: nat)
    requires WellFormed(db) && id in db.keys
    ensures Touches(db, ClearAccounts(id), id) <==> !ScopeStays(db, Edited(db, ClearAccounts(id)), id)
  {
    var db' := Edited(db, ClearAccounts(id));
    if link :| link in db.links && link.0 == id {
      assert link == (id, link.1);
      AccountsAreLinks(db.links, id, link.1);
      AccountsAreLinks(db'.links, id, link.1);
    } else {
      assert db'.links == db.links;
    }
  }

  /** The links of an existing key after an edit of allowlists. */
  predicate LinkedAfter(db: Db, e: Edit, id: nat, x: int) {
    match e
    case AddAccounts(i, accounts) => (id, x) in db.links || (i == id && x in accounts)
    case RemoveAccounts(i, accounts) => (id, x) in db.links && !(i == id && x in accounts)
    case ClearAccounts(i) => (id, x) in db.links && i != id
    case AddKeys(account, ids) => (id, x) in db.links || (x == account && id in ids)
    case RemoveKeys(account, ids) => (id, x) in db.links && !(x == account && id in ids)
    case ClearKeys(account) => (id, x) in db.links && x != account
    case _ => (id, x) in db.links
  }

  lemma LinksAfter(db: Db, e: Edit, id: nat, x: int)
    requires WellFormed(db) && Permitted(db, e) && id in db.keys
    requires !e.Delete? && !e.DeleteAccount? && !e.DeleteUser? && !e.DeleteWorkspace?
    ensures (id, x) in Edited(db, e).links <==> LinkedAfter(db, e, id, x)
  {
  }

  lemma UntouchedCachesStayCurrentIff(db: Db, cache: Cache, e: Edit)
    requires WellFormed(db) && Coherent(db, cache) && Permitted(db, e)
    ensures Coherent(Edited(db, e), cache) <==> TouchesNothingIn(db, cache, e)
  {
    forall l | l in cache ensures IsCurrent(Edited(db, e), l, cache[l]) <==> !Touches(db, e, cache[l].id) {
      assert IsCurrent(db, l, cache[l]);
      TouchedScopesChange(db, e, cache[l].id);
    }
  }

  ghost predicate TouchesNothingIn(db: Db, cache: Cache, e: Edit) {
    forall l | l in cache && cache[l].id in db.keys :: !Touches(db, e, cache[l].id)
  }

  /** An edit keeps the scopes in the caches of all processes equal to the table if and only if it strands no entry
      of its own process and touches no key that another process has cached. */
  lemma EditKeepsEveryCacheCurrentIff(db: Db, caches: Caches, p: nat, e: Edit)
    requires WellFormed(db) && AllCoherent(db, caches) && Permitted(db, e) && p < |caches|
    ensures AllCoherent(Edited(db, e), CachesAfter(db, caches, p, e)) <==>
              && !Strands(db, caches[p], e)
              && forall q | 0 <= q < |caches| && q != p :: TouchesNothingIn(db, caches[q], e)
  {
    var after := CachesAfter(db, caches, p, e);
    EditKeepsCoherence(db, caches[p], e);
    assert after[p] == CacheAfter(db, caches[p], e);
    forall q | 0 <= q < |caches| && q != p
      ensures Coherent(Edited(db, e), after[q]) <==> TouchesNothingIn(db, caches[q], e)
    {
      UntouchedCachesStayCurrentIff(db, caches[q], e);
    }
  }

  // ---------------------------------------------------------------------
  // Whole runs: how stale another process can be
  // ---------------------------------------------------------------------

  datatype World = World(now: int, history: seq<Version>, caches: Caches)

  datatype Act = EditBy(p: nat, e: Edit) | VerifyBy(p: nat, lookup: string, hash: string) | Wait(seconds: nat)

  function Table(w: World): Db
    requires w.history != []
  {
    w.history[|w.history| - 1].db
  }

  /** An edit that the database refuses changes nothing. */
  ghost function Next(w: World, op: Act): World
    requires w.history != []
  {
    match op
    case EditBy(p, e) =>
      if p < |w.caches| && Permitted(Table(w), e)
      then w.(history := w.history + [Version(Edited(Table(w), e), w.now)],
              caches := CachesAfter(Table(w), w.caches, p, e))
      else w
    case VerifyBy(p, lookup, hash) =>
      if p < |w.caches|
      then w.(caches := w.caches[p := CacheAfterVerifying(Table(w), w.caches[p], lookup, hash, w.now)])
      else w
    case Wait(seconds) => w.(now := w.now + seconds)
  }

  ghost function Run(w: World, ops: seq<Act>): (end: World)
    requires w.history != []
    ensures end.history != []
  {
    if ops == [] then w else Next(Run(w, ops[..|ops| - 1]), ops[|ops| - 1])
  }

  ghost function Started(db: Db, now: int, processes: nat): World {
    World(now, [Version(db, now)], seq(processes, _ => map[]))
  }

  /** The scope was the table's at time `t`. */
  ghost predicate WasCurrent(history: seq<Version>, lookup: string, c: Cached, t: int) {
    exists v: nat :: InForce(history, v, t) && IsCurrent(history[v].db, lookup, c)
  }

  ghost predicate Ordered(w: World) {
    && w.history != []
    && (forall v | 0 <= v < |w.history| :: w.history[v].since <= w.now)
    && (forall u, v | 0 <= u <= v < |w.history| :: w.history[u].since <= w.history[v].since)
  }

  ghost predicate Inv(w: World) {
    && Ordered(w) && WellFormed(Table(w))
    && forall p, l | 0 <= p < |w.caches| && l in w.caches[p] :: EntryWasCurrent(w, p, l)
  }

  ghost predicate EntryWasCurrent(w: World, p: nat, l: string)
    requires p < |w.caches| && l in w.caches[p]
  {
    w.caches[p][l].setAt <= w.now && WasCurrent(w.history, l, w.caches[p][l], w.caches[p][l].setAt)
  }

  lemma WasCurrentPersists(w: World, op: Act, l: string, c: Cached, t: int)
    requires Ordered(w) && t <= w.now && WasCurrent(w.history, l, c, t)
    ensures WasCurrent(Next(w, op).history, l, c, t)
  {
    var v: nat :| InForce(w.history, v, t) && IsCurrent(w.history[v].db, l, c);
    var history := Next(w, op).history;
    assert history[v] == w.history[v];
    assert InForce(history, v, t) && IsCurrent(history[v].db, l, c);
  }

  /** An entry of the next state is an old one, or what a verification has just used. */
  lemma EntriesComeFromVerifying(w: World, op: Act, p: nat, l: string)
    requires w.history != [] && p < |Next(w, op).caches| && l in Next(w, op).caches[p]
    ensures |Next(w, op).caches| == |w.caches|
    ensures var c := Next(w, op).caches[p][l];
            || (l in w.caches[p] && w.caches[p][l] == c)
            || (op.VerifyBy? && ImageUsed(Table(w), w.caches[p], l, w.now) == Some(c))
  {
  }

  lemma EntryStep(w: World, op: Act, p: nat, l: string)
    requires Inv(w) && p < |Next(w, op).caches| && l in Next(w, op).caches[p]
    ensures EntryWasCurrent(Next(w, op), p, l)
  {
    var c := Next(w, op).caches[p][l];
    EntriesComeFromVerifying(w, op, p, l);
    if l in w.caches[p] && w.caches[p][l] == c {
      assert EntryWasCurrent(w, p, l);
    } else {
      ImageWasCurrent(w, p, l);
    }
    WasCurrentPersists(w, op, l, c, c.setAt);
  }

  lemma ImageIsCachedOrRead(db: Db, cache: Cache, lookup: string, now: int)
    ensures var image := ImageUsed(db, cache, lookup, now);
            image.Some? ==>
              || (lookup in cache && image.value == cache[lookup] && now < cache[lookup].setAt + TTL)
              || (image.value.setAt == now && IsCurrent(db, lookup, image.value))
  {
  }

  lemma LastIsCurrent(history: seq<Version>, lookup: string, c: Cached, t: int)
    requires history != [] && history[|history| - 1].since <= t && IsCurrent(history[|history| - 1].db, lookup, c)
    ensures WasCurrent(history, lookup, c, t)
  {
    var v: nat := |history| - 1;
    assert InForce(history, v, t);
  }

  lemma UsedWasCurrent(w: World, p: nat, lookup: string, c: Cached)
    requires Inv(w) && p < |w.caches|
    requires || (lookup in w.caches[p] && c == w.caches[p][lookup] && w.now < c.setAt + TTL)
             || (c.setAt == w.now && IsCurrent(Table(w), lookup, c))
    ensures w.now - TTL < c.setAt <= w.now && WasCurrent(w.history, lookup, c, c.setAt)
  {
    if lookup in w.caches[p] && c == w.caches[p][lookup] && w.now < c.setAt + TTL {
      assert EntryWasCurrent(w, p, lookup);
    } else {
      LastIsCurrent(w.history, lookup, c, w.now);
    }
  }

  /** Whatever a verification uses was the table's scope less than the TTL ago. */
  lemma ImageWasCurrent(w: World, p: nat, lookup: string)
    requires Inv(w) && p < |w.caches|
    ensures var image := ImageUsed(Table(w), w.caches[p], lookup, w.now);
            image.Some? ==>
              && w.now - TTL < image.value.setAt <= w.now
              && WasCurrent(w.history, lookup, image.value, image.value.setAt)
  {
    var image := ImageUsed(Table(w), w.caches[p], lookup, w.now);
    if image.Some? {
      ImageIsCachedOrRead(Table(w), w.caches[p], lookup, w.now);
      UsedWasCurrent(w, p, lookup, image.value);
    }
  }

  lemma TableStaysWellFormed(w: World, op: Act)
    requires w.history != [] && WellFormed(Table(w))
    ensures WellFormed(Table(Next(w, op)))
  {
    if op.EditBy? && Permitted(Table(w), op.e) {
      EditKeepsWellFormed(Table(w), op.e);
    }
  }

  lemma InvStep(w: World, op: Act)
    requires Inv(w)
    ensures Inv(Next(w, op))
  {
    TableStaysWellFormed(w, op);
    forall p, l | 0 <= p < |Next(w, op).caches| && l in Next(w, op).caches[p]
      ensures EntryWasCurrent(Next(w, op), p, l)
    {
      EntryStep(w, op, p, l);
    }
  }

  lemma {:induction false} RunsKeepInv(db: Db, start: int, processes: nat, ops: seq<Act>)
    requires WellFormed(db)
    ensures Inv(Run(Started(db, start, processes), ops))
  {
    if ops != [] {
      RunsKeepInv(db, start, processes, ops[..|ops| - 1]);
      InvStep(Run(Started(db, start, processes), ops[..|ops| - 1]), ops[|ops| - 1]);
    }
  }

  /** In every run of any number of processes the scope that a verification uses was the table's at some moment of the
      last 30 seconds: an edit that is older, whichever process made it, is seen. */
  lemma {:induction false} ScopesAreStaleForLessThanTheTtl(db: Db, start: int, processes: nat, ops: seq<Act>, p: nat,
                                                           lookup: string)
    requires WellFormed(db) && p < |Run(Started(db, start, processes), ops).caches|
    requires var w := Run(Started(db, start, processes), ops);
             ImageUsed(Table(w), w.caches[p], lookup, w.now).Some?
    ensures var w := Run(Started(db, start, processes), ops);
            var image := ImageUsed(Table(w), w.caches[p], lookup, w.now).value;
            exists v: nat ::
              && v < |w.history| && IsCurrent(w.history[v].db, lookup, image)
              && forall r | 0 <= r < |w.history| && w.history[r].since <= w.now - TTL :: r <= v
  {
    var w := Run(Started(db, start, processes), ops);
    RunsKeepInv(db, start, processes, ops);
    ImageWasCurrent(w, p, lookup);
    var image := ImageUsed(Table(w), w.caches[p], lookup, w.now).value;
    var v: nat :| InForce(w.history, v, image.setAt) && IsCurrent(w.history[v].db, lookup, image);
    forall r | 0 <= r < |w.history| && w.history[r].since <= w.now - TTL ensures r <= v {
      assert forall u | 0 <= u <= r :: w.history[u].since <= w.history[r].since;
    }
  }

  /** So 30 seconds after its revocation no process accepts a key. */
  lemma {:induction false} RevocationReachesEveryProcess(db: Db, start: int, processes: nat, ops: seq<Act>, p: nat,
                                                         lookup: string, r: nat)
    requires WellFormed(db) && p < |Run(Started(db, start, processes), ops).caches|
    requires var w := Run(Started(db, start, processes), ops);
             var image := ImageUsed(Table(w), w.caches[p], lookup, w.now);
             && image.Some? && r < |w.history| && w.history[r].since <= w.now - TTL
             && RevokedFrom(w.history, r, image.value.id)
    ensures var w := Run(Started(db, start, processes), ops);
            !IsActive(ImageUsed(Table(w), w.caches[p], lookup, w.now).value.row, w.now)
  {
    ScopesAreStaleForLessThanTheTtl(db, start, processes, ops, p, lookup);
  }

  /** And no earlier edit is sure to be seen: another process goes on with what it has cached. */
  lemma {:induction false} OtherProcessesKeepTheirEntries(w: World, p: nat, e: Edit, q: nat, lookup: string, wait: nat)
    requires Ordered(w) && p < |w.caches| && q < |w.caches| && p != q && Permitted(Table(w), e)
    requires lookup in w.caches[q]
    ensures var w' := Run(w, [EditBy(p, e), Wait(wait)]);
            && w'.now == w.now + wait && |w'.caches| == |w.caches| && w'.caches[q] == w.caches[q]
            && (w.now + wait < w.caches[q][lookup].setAt + TTL ==>
                  ImageUsed(Table(w'), w'.caches[q], lookup, w'.now) == Some(w.caches[q][lookup]))
  {
    var ops := [EditBy(p, e), Wait(wait)];
    assert ops[..1] == [EditBy(p, e)] && [EditBy(p, e)][..0] == [];
    assert Run(w, [EditBy(p, e)]) == Next(Run(w, []), EditBy(p, e));
  }
}
