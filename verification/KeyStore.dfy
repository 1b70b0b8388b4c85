/** API keys, and their row cache kept in step by signal handlers (`apps/api_keys`). */
module KeyStore {
  import opened Prelude
  import opened KeyCache

  /** A pickled row with its prefetched allowlist. Operations run one at a time here, so unlike `KeyCache.Image` it
      needs no time or version of its read. */
  datatype Cached = Cached(id: nat, row: KeyRow, accounts: set<int>, setAt: int)

  type Cache = map<string, Cached>

  /** `lookup_prefix` is unique, and links point to existing keys. */
  ghost predicate WellFormed(db: Db) {
    && (forall i, j | i in db.keys && j in db.keys && db.keys[i].lookup == db.keys[j].lookup :: i == j)
    && (forall link | link in db.links :: link.0 in db.keys)
  }

  ghost predicate IsCurrent(db: Db, lookup: string, c: Cached) {
    c.id in db.keys && db.keys[c.id] == c.row && c.row.lookup == lookup && c.accounts == Accounts(db.links, c.id)
  }

  /** Every cached scope equals the table. */
  ghost predicate Coherent(db: Db, cache: Cache) {
    forall l | l in cache :: IsCurrent(db, l, cache[l])
  }

  // ---------------------------------------------------------------------
  // Edits
  // ---------------------------------------------------------------------

  datatype Edit =
    | Issue(id: nat, row: KeyRow, accounts: set<int>)
    | Save(id: nat, row: KeyRow)
    | Revoke(id: nat, at: int)
    | AddAccounts(id: nat, accounts: set<int>)
    | RemoveAccounts(id: nat, accounts: set<int>)
    | ClearAccounts(id: nat)
    | AddKeys(account: int, ids: set<nat>)     // the reverse side: account.api_keys.add(...)
    | RemoveKeys(account: int, ids: set<nat>)
    | ClearKeys(account: int)
    | SetMembers(members: set<(int, int)>)
    | Delete(id: nat)
    | DeleteAccount(account: int)
    | DeleteUser(user: int)
    | DeleteWorkspace(workspace: int, accounts: set<int>)  // with the accounts that belong to it

  /** What the database accepts: existing keys, and unique lookups. */
  predicate Permitted(db: Db, e: Edit) {
    match e
    case Issue(id, row, _) => id !in db.keys && (forall j | j in db.keys :: db.keys[j].lookup != row.lookup)
    case Save(id, row) => id in db.keys && (forall j | j in db.keys && j != id :: db.keys[j].lookup != row.lookup)
    case Revoke(id, _) => id in db.keys
    case AddAccounts(id, _) => id in db.keys
    case RemoveAccounts(id, _) => id in db.keys
    case ClearAccounts(id) => id in db.keys
    case AddKeys(_, ids) => ids <= db.keys.Keys
    case RemoveKeys(_, _) => true
    case ClearKeys(_) => true
    case SetMembers(_) => true
    case Delete(id) => id in db.keys
    case DeleteAccount(_) => true
    case DeleteUser(_) => true
    case DeleteWorkspace(_, _) => true
  }

  function KeysOf(links: set<(nat, int)>, account: int): set<nat> {
    set link | link in links && link.1 == account :: link.0
  }

  function Edited(db: Db, e: Edit): Db
    requires Permitted(db, e)
  {
    match e
    case Issue(id, row, accounts) =>
      db.(keys := db.keys[id := row], links := db.links + set a | a in accounts :: (id, a))
    case Save(id, row) => db.(keys := db.keys[id := row])
    case Revoke(id, at) =>
      if db.keys[id].revokedAt.None? then db.(keys := db.keys[id := db.keys[id].(revokedAt := Some(at))]) else db
    case AddAccounts(id, accounts) => db.(links := db.links + set a | a in accounts :: (id, a))
    case RemoveAccounts(id, accounts) => db.(links := db.links - set a | a in accounts :: (id, a))
    case ClearAccounts(id) => db.(links := set link | link in db.links && link.0 != id)
    case AddKeys(account, ids) => db.(links := db.links + set i | i in ids :: (i, account))
    case RemoveKeys(account, ids) => db.(links := db.links - set i | i in ids :: (i, account))
    case ClearKeys(account) => db.(links := set link | link in db.links && link.1 != account)
    case SetMembers(members) => db.(members := members)
    case Delete(id) => db.(keys := db.keys - {id}, links := set link | link in db.links && link.0 != id)
    case DeleteAccount(account) => db.(links := set link | link in db.links && link.1 != account)
    case DeleteUser(user) =>
      db.(keys := map i | i in db.keys :: WithoutIssuer(db.keys[i], user),
          members := set m | m in db.members && m.0 != user)
    case DeleteWorkspace(workspace, accounts) =>
      Db(map i | i in db.keys && db.keys[i].workspace != workspace :: db.keys[i],
         set link | link in db.links && link.0 in db.keys && db.keys[link.0].workspace != workspace
                    && link.1 !in accounts,
         set m | m in db.members && m.1 != workspace)
  }

  /** `issued_by` is `SET_NULL`. */
  function WithoutIssuer(row: KeyRow, user: int): KeyRow {
    if row.issuer == Some(user) then row.(issuer := None) else row
  }

  /** The keys whose cache entries the handlers delete after an edit of `db`. */
  function Notified(db: Db, e: Edit): set<nat> {
    match e
    case Issue(id, _, _) => {id}
    case Save(id, _) => {id}
    case Revoke(id, _) => {id}
    case AddAccounts(id, _) => {id}
    case RemoveAccounts(id, _) => {id}
    case ClearAccounts(id) => {id}
    case AddKeys(account, ids) => ids - KeysOf(db.links, account)
    case RemoveKeys(_, ids) => ids
    case ClearKeys(account) => KeysOf(db.links, account)
    case SetMembers(_) => {}
    case Delete(_) => {}
    case DeleteAccount(_) => {}
    case DeleteUser(_) => {}
    case DeleteWorkspace(_, _) => {}
  }

  function Lookups(db: Db, ids: set<nat>): set<string> {
    set i | i in ids && i in db.keys :: db.keys[i].lookup
  }

  function CacheAfter(db: Db, cache: Cache, e: Edit): Cache
    requires Permitted(db, e)
  {
    cache - Lookups(Edited(db, e), Notified(db, e))
  }

  // ---------------------------------------------------------------------
  // Verification
  // ---------------------------------------------------------------------

  /** What an uncached verification accepts: the key of this lookup, with this hash, active, and with an
      issuer who is still a member. */
  ghost predicate Authorizes(db: Db, id: nat, lookup: string, hash: string, now: int) {
    && id in db.keys && db.keys[id].lookup == lookup && db.keys[id].hash == hash
    && IsActive(db.keys[id], now) && IssuerAuthorized(db.keys[id], db.members)
  }

  ghost function Located(db: Db, lookup: string): Option<nat> {
    if id :| id in db.keys && db.keys[id].lookup == lookup then Some(id) else None
  }

  /** The image that a verification works with: the cached one while it lasts, else the row. */
  ghost function ImageUsed(db: Db, cache: Cache, lookup: string, now: int): Option<Cached> {
    if lookup in cache && now < cache[lookup].setAt + TTL then Some(cache[lookup])
    else if Located(db, lookup).None? then None
    else
      var id := Located(db, lookup).value;
      Some(Cached(id, db.keys[id], Accounts(db.links, id), now))
  }

  /** The cache after a verification: filled on a miss by an active row, dropped when the row it used is
      inactive or its issuer has left. */
  ghost function CacheAfterVerifying(db: Db, cache: Cache, lookup: string, hash: string, now: int): Cache {
    var image := ImageUsed(db, cache, lookup, now);
    if image.None? then cache
    else if !IsActive(image.value.row, now) then cache - {lookup}
    else if hash == image.value.row.hash && !IssuerAuthorized(image.value.row, db.members) then cache - {lookup}
    else cache[lookup := image.value]
  }

  /** The table, the cache, and the snapshots that `pre_clear` stashes on an account. */
  class KeyTable {
    var db: Db
    var cache: Cache
    var stash: map<int, set<nat>>

    constructor (db: Db)
      ensures this.db == db && cache == map[] && stash == map[]
    {
      this.db, cache, stash := db, map[], map[];
    }

    /** `verify_token` after parsing: `hash` is the HMAC of the presented secret. With a coherent cache the
        answer is the answer of the table, the returned scope is the current one, and the cache stays coherent. */
    method VerifyToken(lookup: string, hash: string, now: int) returns (r: Option<Cached>)
      requires WellFormed(db) && Coherent(db, cache)
      modifies this`cache
      ensures Coherent(db, cache)
      ensures r.Some? ==> IsCurrent(db, lookup, r.value) && Authorizes(db, r.value.id, lookup, hash, now)
      ensures r.None? ==> forall id :: !Authorizes(db, id, lookup, hash, now)
      ensures cache == CacheAfterVerifying(db, old(cache), lookup, hash, now)
    {
      var loaded := Load(lookup, now);
      if loaded.None? {
        return None;
      }
      var image := loaded.value;
      if !IsActive(image.row, now) {
        cache := cache - {lookup};
        return None;
      }
      if hash != image.row.hash {
        return None;
      }
      if !IssuerAuthorized(image.row, db.members) {
        cache := cache - {lookup};
        return None;
      }
      r := Some(image);
    }

    /** The cached row, or the row of the table, which fills the cache when it is active. */
    method Load(lookup: string, now: int) returns (image: Option<Cached>)
      requires WellFormed(db) && Coherent(db, cache)
      modifies this`cache
      ensures image == ImageUsed(db, old(cache), lookup, now)
      ensures image.None? ==> forall id | id in db.keys :: db.keys[id].lookup != lookup
      ensures image.Some? ==> IsCurrent(db, lookup, image.value)
      ensures cache == if image.Some? && IsActive(image.value.row, now) then old(cache)[lookup := image.value]
                       else old(cache)
    {
      if lookup in cache && now < cache[lookup].setAt + TTL {
        return Some(cache[lookup]);
      }
      var found := Find(lookup);
      if found.None? {
        return None;
      }
      var id := found.value;
      image := Some(Cached(id, db.keys[id], Accounts(db.links, id), now));
      if IsActive(image.value.row, now) {
        cache := cache[lookup := image.value];
      }
    }

    /** `ApiKey.objects.get(lookup_prefix=lookup)`. */
    method Find(lookup: string) returns (found: Option<nat>)
      ensures Finds(db, lookup, found)
    {
      if id :| id in db.keys && db.keys[id].lookup == lookup {
        return Some(id);
      }
      return None;
    }

    /** `invalidate_api_key_cache`. */
    method Invalidate(row: KeyRow)
      modifies this`cache
      ensures cache == old(cache) - {row.lookup}
    {
      cache := cache - {row.lookup};
    }

    /** The loop `for ak in ApiKey.objects.filter(pk__in=ids)`. */
    method InvalidateKeys(ids: set<nat>)
      modifies this`cache
      ensures cache == old(cache) - Lookups(db, ids)
    {
      var rest := set i | i in ids && i in db.keys;
      ghost var done: set<nat> := {};
      while rest != {}
        invariant rest + done == set i | i in ids && i in db.keys
        invariant cache == old(cache) - Lookups(db, done)
        decreases rest
      {
        var i :| i in rest;
        Invalidate(db.keys[i]);
        rest, done := rest - {i}, done + {i};
      }
      assert Lookups(db, done) == Lookups(db, ids);
    }

    /** `_invalidate_on_apikey_save`, after the row was written. */
    method SaveKey(id: nat, row: KeyRow)
      requires Permitted(db, Save(id, row))
      modifies this`db, this`cache
      ensures db == Edited(old(db), Save(id, row)) && cache == CacheAfter(old(db), old(cache), Save(id, row))
    {
      db := db.(keys := db.keys[id := row]);
      Invalidate(db.keys[id]);
    }

    /** `revoke_api_key`. */
    method RevokeKey(id: nat, at: int)
      requires WellFormed(db) && Permitted(db, Revoke(id, at))
      modifies this`db, this`cache
      ensures db == Edited(old(db), Revoke(id, at)) && cache == CacheAfter(old(db), old(cache), Revoke(id, at))
      ensures db.keys[id].revokedAt.Some? && db.keys[id].lookup !in cache
    {
      if db.keys[id].revokedAt.None? {
        SaveKey(id, db.keys[id].(revokedAt := Some(at)));
      }
      Invalidate(db.keys[id]);
    }

    /** The forward side of `_invalidate_on_social_accounts_change`: the instance is the key. */
    method ForwardAdd(id: nat, accounts: set<int>)
      requires Permitted(db, AddAccounts(id, accounts))
      modifies this`db, this`cache
      ensures db == Edited(old(db), AddAccounts(id, accounts))
      ensures cache == CacheAfter(old(db), old(cache), AddAccounts(id, accounts))
    {
      db := db.(links := db.links + set a | a in accounts :: (id, a));
      Invalidate(db.keys[id]);
    }

    method ForwardRemove(id: nat, accounts: set<int>)
      requires Permitted(db, RemoveAccounts(id, accounts))
      modifies this`db, this`cache
      ensures db == Edited(old(db), RemoveAccounts(id, accounts))
      ensures cache == CacheAfter(old(db), old(cache), RemoveAccounts(id, accounts))
    {
      db := db.(links := db.links - set a | a in accounts :: (id, a));
      Invalidate(db.keys[id]);
    }

    method ForwardClear(id: nat)
      requires Permitted(db, ClearAccounts(id))
      modifies this`db, this`cache
      ensures db == Edited(old(db), ClearAccounts(id))
      ensures cache == CacheAfter(old(db), old(cache), ClearAccounts(id))
    {
      db := db.(links := set link | link in db.links && link.0 != id);
      Invalidate(db.keys[id]);
    }

    /** `account.api_keys.add(...)`: `pk_set` holds the keys that were not linked before. */
    method ReverseAdd(account: int, ids: set<nat>)
      requires Permitted(db, AddKeys(account, ids))
      modifies this`db, this`cache
      ensures db == Edited(old(db), AddKeys(account, ids))
      ensures cache == CacheAfter(old(db), old(cache), AddKeys(account, ids))
    {
      var pkSet := ids - KeysOf(db.links, account);
      db := db.(links := db.links + set i | i in ids :: (i, account));
      InvalidateKeys(pkSet);
    }

    /** `account.api_keys.remove(...)`: after it the relation is gone, so only `pk_set` names the keys. */
    method ReverseRemove(account: int, ids: set<nat>)
      modifies this`db, this`cache
      ensures db == Edited(old(db), RemoveKeys(account, ids))
      ensures cache == CacheAfter(old(db), old(cache), RemoveKeys(account, ids))
    {
      db := db.(links := db.links - set i | i in ids :: (i, account));
      InvalidateKeys(ids);
    }

    /** `account.api_keys.clear()`: `pre_clear` stashes the linked keys, `post_clear` replays them. */
    method ReverseClear(account: int)
      modifies this
      ensures db == Edited(old(db), ClearKeys(account))
      ensures cache == CacheAfter(old(db), old(cache), ClearKeys(account))
      ensures stash == old(stash) - {account}
    {
      stash := stash[account := KeysOf(db.links, account)];
      db := db.(links := set link | link in db.links && link.1 != account);
      var ids := if account in stash then stash[account] else {};
      stash := stash - {account};
      InvalidateKeys(ids);
    }
  }

  // ---------------------------------------------------------------------
  // Coherence
  // ---------------------------------------------------------------------

  /** A deletion that reaches the key's row or allowlist through the database alone, so that no handler runs. */
  predicate Cascades(db: Db, e: Edit, id: nat)
    requires id in db.keys
  {
    match e
    case Delete(i) => i == id
    case DeleteAccount(account) => (id, account) in db.links
    case DeleteUser(user) => db.keys[id].issuer == Some(user)
    case DeleteWorkspace(workspace, accounts) =>
      db.keys[id].workspace == workspace || exists a | a in accounts :: (id, a) in db.links
    case _ => false
  }

  /** Edits after which no handler drops a cached row that is no longer the table's: a deletion that cascades to
      a cached key, and a changed lookup of one. */
  ghost predicate Strands(db: Db, cache: Cache, e: Edit)
    requires Permitted(db, e)
  {
    match e
    case Save(id, row) => row.lookup != db.keys[id].lookup && db.keys[id].lookup in cache
    case _ => exists l | l in cache && cache[l].id in db.keys :: Cascades(db, e, cache[l].id)
  }

  lemma EditKeepsWellFormed(db: Db, e: Edit)
    requires WellFormed(db) && Permitted(db, e)
    ensures WellFormed(Edited(db, e))
  {
  }

  /** The handlers reach every key whose scope changed, except through a cascade. */
  lemma UnnotifiedScopesAreUnchanged(db: Db, e: Edit, id: nat)
    requires WellFormed(db) && Permitted(db, e) && id in db.keys && id !in Notified(db, e) && !Cascades(db, e, id)
    ensures id in Edited(db, e).keys && Edited(db, e).keys[id] == db.keys[id]
    ensures Accounts(Edited(db, e).links, id) == Accounts(db.links, id)
  {
    var links := Edited(db, e).links;
    forall a ensures (id, a) in links <==> (id, a) in db.links {
      if e.AddKeys? || e.ClearKeys? {
        assert (id, e.account) in db.links ==> id in KeysOf(db.links, e.account) by {
          if (id, e.account) in db.links {
            var link := (id, e.account);
            assert link.1 == e.account && link.0 == id;
          }
        }
      }
    }
    SameAccounts(links, db.links, id);
  }

  /** And a cascade does change it. */
  lemma CascadesChangeTheScope(db: Db, e: Edit, id: nat)
    requires WellFormed(db) && Permitted(db, e) && id in db.keys && Cascades(db, e, id)
    ensures id in Edited(db, e).keys ==>
              Edited(db, e).keys[id] != db.keys[id] || Accounts(Edited(db, e).links, id) != Accounts(db.links, id)
  {
    var links := Edited(db, e).links;
    if e.DeleteAccount? {
      AccountsAreLinks(db.links, id, e.account);
      AccountsAreLinks(links, id, e.account);
    } else if e.DeleteWorkspace? && db.keys[id].workspace != e.workspace {
      var a :| a in e.accounts && (id, a) in db.links;
      AccountsAreLinks(db.links, id, a);
      AccountsAreLinks(links, id, a);
    }
  }

  lemma AccountsAreLinks(links: set<(nat, int)>, id: nat, a: int)
    ensures a in Accounts(links, id) <==> (id, a) in links
  {
    if (id, a) in links {
      var link := (id, a);
      assert link in links && link.0 == id && link.1 == a;
    }
  }

  lemma SameAccounts(a: set<(nat, int)>, b: set<(nat, int)>, id: nat)
    requires forall x :: (id, x) in a <==> (id, x) in b
    ensures Accounts(a, id) == Accounts(b, id)
  {
    forall x ensures x in Accounts(a, id) <==> x in Accounts(b, id) {
      AccountsAreLinks(a, id, x);
      AccountsAreLinks(b, id, x);
    }
  }

  /** An edit keeps every scope in the cache of its process equal to the table if and only if it does not strand an
      entry there. `KeyProcesses` has the caches of other processes. */
  lemma EditKeepsCoherence(db: Db, cache: Cache, e: Edit)
    requires WellFormed(db) && Coherent(db, cache) && Permitted(db, e)
    ensures Coherent(Edited(db, e), CacheAfter(db, cache, e)) <==> !Strands(db, cache, e)
  {
    if Strands(db, cache, e) {
      StrandedIsStale(db, cache, e);
    } else {
      var db', cache' := Edited(db, e), CacheAfter(db, cache, e);
      forall l | l in cache' ensures IsCurrent(db', l, cache'[l]) {
        KeptIsCurrent(db, cache, e, l);
      }
    }
  }

  lemma StrandedIsStale(db: Db, cache: Cache, e: Edit)
    requires WellFormed(db) && Coherent(db, cache) && Permitted(db, e) && Strands(db, cache, e)
    ensures !Coherent(Edited(db, e), CacheAfter(db, cache, e))
  {
    var db', cache' := Edited(db, e), CacheAfter(db, cache, e);
    if e.Save? {
      var l := db.keys[e.id].lookup;
      assert IsCurrent(db, l, cache[l]) && cache[l].id == e.id;
      assert l in cache' && !IsCurrent(db', l, cache'[l]);
    } else {
      var l :| l in cache && cache[l].id in db.keys && Cascades(db, e, cache[l].id);
      assert IsCurrent(db, l, cache[l]);
      CascadesChangeTheScope(db, e, cache[l].id);
      assert Notified(db, e) == {} && l in cache' && !IsCurrent(db', l, cache'[l]);
    }
  }

  lemma KeptIsCurrent(db: Db, cache: Cache, e: Edit, l: string)
    requires WellFormed(db) && Coherent(db, cache) && Permitted(db, e) && !Strands(db, cache, e)
    requires l in CacheAfter(db, cache, e)
    ensures IsCurrent(Edited(db, e), l, cache[l])
  {
    var db', id := Edited(db, e), cache[l].id;
    assert IsCurrent(db, l, cache[l]);
    assert id in Notified(db, e) && id in db'.keys ==> db'.keys[id].lookup in Lookups(db', Notified(db, e));
    assert !Cascades(db, e, id) by {
      if e.Save? {} else { assert l in cache && id in db.keys; }
    }
    if id !in Notified(db, e) {
      UnnotifiedScopesAreUnchanged(db, e, id);
    }
  }

  // ---------------------------------------------------------------------
  // Every run of edits and verifications
  // ---------------------------------------------------------------------

  datatype Op = Admin(e: Edit) | Verify(lookup: string, hash: string, now: int)

  /** An edit that the database refuses changes nothing. */
  ghost function Applied(db: Db, cache: Cache, op: Op): (Db, Cache) {
    match op
    case Admin(e) => if Permitted(db, e) then (Edited(db, e), CacheAfter(db, cache, e)) else (db, cache)
    case Verify(lookup, hash, now) => (db, CacheAfterVerifying(db, cache, lookup, hash, now))
  }

  ghost function Run(db: Db, cache: Cache, ops: seq<Op>): (Db, Cache)
    decreases |ops|
  {
    if ops == [] then (db, cache)
    else var (db', cache') := Applied(db, cache, ops[0]); Run(db', cache', ops[1..])
  }

  ghost predicate NothingStranded(db: Db, cache: Cache, ops: seq<Op>)
    decreases |ops|
  {
    ops != [] ==>
      && (ops[0].Admin? && Permitted(db, ops[0].e) ==> !Strands(db, cache, ops[0].e))
      && var (db', cache') := Applied(db, cache, ops[0]);
         NothingStranded(db', cache', ops[1..])
  }

  /** After every run of one process's edits and verifications that strands no entry, every scope in its cache equals
      the table. */
  lemma {:induction false} RunsStayCoherent(db: Db, cache: Cache, ops: seq<Op>)
    requires WellFormed(db) && Coherent(db, cache) && NothingStranded(db, cache, ops)
    ensures WellFormed(Run(db, cache, ops).0)
    ensures Coherent(Run(db, cache, ops).0, Run(db, cache, ops).1)
    decreases |ops|
  {
    if ops != [] {
      var (db', cache') := Applied(db, cache, ops[0]);
      if ops[0].Admin? && Permitted(db, ops[0].e) {
        EditKeepsWellFormed(db, ops[0].e);
        EditKeepsCoherence(db, cache, ops[0].e);
      }
      RunsStayCoherent(db', cache', ops[1..]);
    }
  }
}
