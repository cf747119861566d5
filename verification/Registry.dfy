/** The multi-user registry: accounts by id, and the two indexes from API keys and domains to ids. */
module Registry {
  import opened Common

  datatype Account = Account(id: string, username: string, key: string, domains: seq<string>, home: string,
                             quotaBw: nat, quotaConn: nat, enabled: bool, admin: bool)

  datatype Indexes = Indexes(byId: map<string, Account>, byKey: map<string, string>, byDomain: map<string, string>)

  const EMPTY: Indexes := Indexes(map[], map[], map[])

  // ---- The operations on the three maps ----

  function Claimed(m: map<string, string>, domains: seq<string>, id: string): (r: map<string, string>)
    ensures forall d :: d in r <==> d in m || d in domains
    ensures forall d | d in r :: r[d] == if d in domains then id else m[d]
    decreases |domains|
  {
    if domains == [] then m else Claimed(m[domains[0] := id], domains[1..], id)
  }

  function Inserted(ix: Indexes, u: Account): Indexes {
    Indexes(ix.byId[u.id := u], ix.byKey[u.key := u.id], Claimed(ix.byDomain, u.domains, u.id))
  }

  function Loaded(us: seq<Account>): Indexes {
    if us == [] then EMPTY else Inserted(Loaded(us[..|us| - 1]), us[|us| - 1])
  }

  function Removed(ix: Indexes, id: string): Indexes {
    if id !in ix.byId then ix
    else
      var u := ix.byId[id];
      Indexes(ix.byId - {id}, ix.byKey - {u.key}, ix.byDomain - (set d | d in u.domains))
  }

  function KeyLookup(ix: Indexes, key: string): Option<Account> {
    if key in ix.byKey && ix.byKey[key] in ix.byId then Some(ix.byId[ix.byKey[key]]) else None
  }

  function DomainLookup(ix: Indexes, domain: string): Option<Account> {
    if domain in ix.byDomain && ix.byDomain[domain] in ix.byId then Some(ix.byId[ix.byDomain[domain]]) else None
  }

  /** A list of the accounts, each once, in the order in which an iteration over the map gives them. */
  ghost predicate Lists(byId: map<string, Account>, us: seq<Account>) {
    && DistinctIds(us)
    && (forall i | 0 <= i < |us| :: us[i].id in byId && byId[us[i].id] == us[i])
    && forall id | id in byId :: byId[id] in us
  }

  ghost predicate DistinctIds(us: seq<Account>) { forall i, j | 0 <= i < j < |us| :: us[i].id != us[j].id }

  // ---- The registry ----

  class UserRegistry {
    var byId: map<string, Account>
    var byKey: map<string, string>
    var byDomain: map<string, string>
    /** The accounts that the users file holds; None when it cannot be read or parsed. */
    var file: Option<seq<Account>>

    ghost function State(): Indexes
      reads this
    {
      Indexes(byId, byKey, byDomain)
    }

    constructor Load(file: Option<seq<Account>>)
      ensures this.file == file && State() == if file.None? then EMPTY else Loaded(file.value)
    {
      byId, byKey, byDomain := map[], map[], map[];
      this.file := file;
      new;
      Reload();
    }

    method Reload()
      modifies this`byId, this`byKey, this`byDomain
      ensures State() == if file.None? then old(State()) else Loaded(file.value)
    {
      if file.None? { return; }
      byId, byKey, byDomain := map[], map[], map[];
      var users := file.value;
      for i := 0 to |users|
        invariant State() == Loaded(users[..i])
      {
        assert users[..i + 1][..i] == users[..i];
        Insert(users[i]);
      }
      assert users[..|users|] == users;
    }

    method Insert(user: Account)
      modifies this`byId, this`byKey, this`byDomain
      ensures State() == Inserted(old(State()), user)
    {
      byKey := byKey[user.key := user.id];
      for k := 0 to |user.domains|
        invariant byId == old(byId) && byKey == old(byKey)[user.key := user.id]
        invariant Claimed(byDomain, user.domains[k..], user.id) == Claimed(old(byDomain), user.domains, user.id)
      {
        assert user.domains[k..][1..] == user.domains[k + 1..];
        byDomain := byDomain[user.domains[k] := user.id];
      }
      byId := byId[user.id := user];
    }

    /** Writes the accounts to the file; a failed write leaves the file as it was. */
    method Persist(works: bool)
      requires forall id | id in byId :: byId[id].id == id
      modifies this`file
      ensures if works then file.Some? && Lists(byId, file.value) else file == old(file)
    {
      if !works { return; }
      var users := [];
      var left := byId.Keys;
      while left != {}
        invariant left <= byId.Keys && DistinctIds(users)
        invariant forall i | 0 <= i < |users| ::
          users[i].id in byId && users[i].id !in left && byId[users[i].id] == users[i]
        invariant forall id | id in byId && id !in left :: byId[id] in users
        decreases |left|
      {
        var id :| id in left;
        users := users + [byId[id]];
        left := left - {id};
      }
      file := Some(users);
    }

    /** The id and the key come from the system's random source. */
    method CreateUser(user: Account, works: bool) returns (ok: bool)
      requires forall id | id in byId :: byId[id].id == id
      modifies this
      ensures State() == Inserted(old(State()), user) && ok == works
      ensures if works then file.Some? && Lists(byId, file.value) else file == old(file)
    {
      Insert(user);
      Persist(works);
      ok := works;
    }

    method DeleteUser(id: string, works: bool) returns (found: bool)
      requires forall id | id in byId :: byId[id].id == id
      modifies this
      ensures found == (id in old(byId)) && State() == Removed(old(State()), id)
      ensures if found && works then file.Some? && Lists(byId, file.value) else file == old(file)
    {
      if id !in byId { return false; }
      var user := byId[id];
      byId := byId - {id};
      byKey := byKey - {user.key};
      for k := 0 to |user.domains|
        invariant byId == old(byId) - {id} && byKey == old(byKey) - {user.key} && file == old(file)
        invariant byDomain == old(byDomain) - (set d | d in user.domains[..k])
      {
        byDomain := byDomain - {user.domains[k]};
        assert user.domains[..k + 1] == user.domains[..k] + [user.domains[k]];
      }
      assert user.domains[..|user.domains|] == user.domains;
      Persist(works);
      found := true;
    }

    method ByApiKey(key: string) returns (r: Option<Account>)
      ensures r == KeyLookup(State(), key)
    {
      if key !in byKey { return None; }
      var id := byKey[key];
      r := if id in byId then Some(byId[id]) else None;
    }

    method ByDomain(domain: string) returns (r: Option<Account>)
      ensures r == DomainLookup(State(), domain)
    {
      if domain !in byDomain { return None; }
      var id := byDomain[domain];
      r := if id in byId then Some(byId[id]) else None;
    }
  }

  // ---- What runs keep ----

  /** Every index entry points to a live account that holds the key or the domain. */
  ghost predicate Sound(ix: Indexes) {
    && (forall id | id in ix.byId :: ix.byId[id].id == id)
    && (forall k | k in ix.byKey :: ix.byKey[k] in ix.byId && ix.byId[ix.byKey[k]].key == k)
    && (forall d | d in ix.byDomain :: ix.byDomain[d] in ix.byId && d in ix.byId[ix.byDomain[d]].domains)
  }

  /** Every key and domain of a live account is in its index. */
  ghost predicate Complete(ix: Indexes) {
    && (forall id | id in ix.byId :: ix.byId[id].key in ix.byKey)
    && (forall id, d | id in ix.byId && d in ix.byId[id].domains :: d in ix.byDomain)
  }

  predicate Share(a: Account, b: Account) { a.key == b.key || exists d :: d in a.domains && d in b.domains }

  /** No two live accounts have a key or a domain in common. */
  ghost predicate Unshared(ix: Indexes) {
    forall a, b | a in ix.byId && b in ix.byId && a != b :: !Share(ix.byId[a], ix.byId[b])
  }

  lemma InsertKeeps(ix: Indexes, u: Account)
    requires Sound(ix) && u.id !in ix.byId
    ensures Sound(Inserted(ix, u)) && (Complete(ix) ==> Complete(Inserted(ix, u)))
  {
  }

  lemma {:induction false} LoadKeeps(us: seq<Account>)
    requires DistinctIds(us)
    ensures Sound(Loaded(us)) && Complete(Loaded(us)) && Lists(Loaded(us).byId, us)
  {
    if us != [] {
      var front, last := us[..|us| - 1], us[|us| - 1];
      LoadKeeps(front);
      assert us == front + [last];
      NewId(Loaded(front).byId, front, last);
      InsertKeeps(Loaded(front), last);
      ListGrows(Loaded(front).byId, front, last);
    }
  }

  lemma NewId(byId: map<string, Account>, front: seq<Account>, last: Account)
    requires Lists(byId, front) && DistinctIds(front + [last]) && forall id | id in byId :: byId[id].id == id
    ensures last.id !in byId
  {
    var us := front + [last];
    forall id | id in byId ensures id != last.id {
      var i :| 0 <= i < |front| && front[i] == byId[id];
      assert us[i].id != us[|front|].id;
    }
  }

  lemma ListGrows(byId: map<string, Account>, front: seq<Account>, last: Account)
    requires Lists(byId, front) && DistinctIds(front + [last]) && last.id !in byId
    ensures Lists(byId[last.id := last], front + [last])
  {
  }

  lemma RemoveKeepsSound(ix: Indexes, id: string)
    requires Sound(ix)
    ensures Sound(Removed(ix, id))
  {
  }

  /** Deleting an account keeps the indexes complete exactly when no other account shares its key or one
      of its domains: entries that point to another holder of the domain are removed as well. */
  lemma DeleteKeepsComplete(ix: Indexes, id: string)
    requires Sound(ix) && Complete(ix) && id in ix.byId
    ensures Complete(Removed(ix, id)) <==> forall other | other in ix.byId && other != id ::
      !Share(ix.byId[id], ix.byId[other])
  {
    if forall other | other in ix.byId && other != id :: !Share(ix.byId[id], ix.byId[other]) {
      DeleteUnshared(ix, id);
    } else {
      var other :| other in ix.byId && other != id && Share(ix.byId[id], ix.byId[other]);
      DeleteShared(ix, id, other);
    }
  }

  lemma DeleteUnshared(ix: Indexes, id: string)
    requires Sound(ix) && Complete(ix) && id in ix.byId
    requires forall other | other in ix.byId && other != id :: !Share(ix.byId[id], ix.byId[other])
    ensures Complete(Removed(ix, id))
  {
    var after := Removed(ix, id);
    forall other | other in after.byId
      ensures after.byId[other].key in after.byKey && forall d | d in after.byId[other].domains :: d in after.byDomain
    {
      assert !Share(ix.byId[id], ix.byId[other]);
    }
  }

  lemma DeleteShared(ix: Indexes, id: string, other: string)
    requires id in ix.byId && other in ix.byId && other != id && Share(ix.byId[id], ix.byId[other])
    ensures !Complete(Removed(ix, id))
  {
    var after := Removed(ix, id);
    assert other in after.byId && after.byId[other] == ix.byId[other];
    if ix.byId[id].key == ix.byId[other].key {
      assert after.byId[other].key !in after.byKey;
    } else {
      var d :| d in ix.byId[id].domains && d in ix.byId[other].domains;
      assert d in after.byId[other].domains && d !in after.byDomain;
    }
  }

  /** With unshared keys and domains, the lookups find exactly the account that a scan finds. */
  lemma LookupsMatchScan(ix: Indexes, id: string)
    requires Sound(ix) && Complete(ix) && Unshared(ix)
    ensures id in ix.byId ==> KeyLookup(ix, ix.byId[id].key) == Some(ix.byId[id])
    ensures id in ix.byId ==> forall d | d in ix.byId[id].domains :: DomainLookup(ix, d) == Some(ix.byId[id])
    ensures forall k | KeyLookup(ix, k).Some? :: exists a ::
      a in ix.byId && ix.byId[a] == KeyLookup(ix, k).value && ix.byId[a].key == k
    ensures forall d | DomainLookup(ix, d).Some? ::
      exists a :: a in ix.byId && ix.byId[a] == DomainLookup(ix, d).value && d in ix.byId[a].domains
  {
    if id in ix.byId {
      var u := ix.byId[id];
      assert !Share(u, ix.byId[ix.byKey[u.key]]) || ix.byKey[u.key] == id;
      forall d | d in u.domains ensures ix.byDomain[d] == id {
        assert !Share(u, ix.byId[ix.byDomain[d]]) || ix.byDomain[d] == id;
      }
    }
  }

  // ---- Runs ----

  datatype Event =
    | Create(user: Account, works: bool, listed: seq<Account>)
    | Delete(id: string, works: bool, listed: seq<Account>)
    | Reload
    | Edit(users: Option<seq<Account>>)

  /** The indexes and the file; an edit replaces the file from outside. `listed` is the order in which
      `persist` meets the accounts. */
  datatype System = System(ix: Indexes, file: Option<seq<Account>>)

  function After(s: System, e: Event): System {
    match e
    case Create(u, works, listed) => System(Inserted(s.ix, u), if works then Some(listed) else s.file)
    case Delete(id, works, listed) =>
      System(Removed(s.ix, id), if works && id in s.ix.byId then Some(listed) else s.file)
    case Reload => if s.file.None? then s else s.(ix := Loaded(s.file.value))
    case Edit(users) => s.(file := users)
  }

  ghost predicate UnsharedList(us: seq<Account>) { forall i, j | 0 <= i < j < |us| :: !Share(us[i], us[j]) }

  /** New ids are new, and an edited file has distinct ids. */
  ghost predicate Allowed(s: System, e: Event) {
    match e
    case Create(u, works, listed) => u.id !in s.ix.byId && (works ==> Lists(Inserted(s.ix, u).byId, listed))
    case Delete(id, works, listed) => works ==> Lists(Removed(s.ix, id).byId, listed)
    case Reload => true
    case Edit(users) => users.Some? ==> DistinctIds(users.value)
  }

  /** Besides, new keys and domains are unused, and so are those of an edited file. */
  ghost predicate KeepsApart(s: System, e: Event) {
    match e
    case Create(u, _, _) => forall id | id in s.ix.byId :: !Share(u, s.ix.byId[id])
    case Edit(users) => users.Some? ==> UnsharedList(users.value)
    case _ => true
  }

  ghost predicate FileGood(s: System) { s.file.Some? ==> DistinctIds(s.file.value) }

  ghost predicate Apart(s: System) { Unshared(s.ix) && (s.file.Some? ==> UnsharedList(s.file.value)) }

  lemma StepKeepsSound(s: System, e: Event)
    requires Sound(s.ix) && FileGood(s) && Allowed(s, e)
    ensures Sound(After(s, e).ix) && FileGood(After(s, e))
  {
    match e {
      case Create(u, _, _) => InsertKeeps(s.ix, u);
      case Delete(id, _, _) => RemoveKeepsSound(s.ix, id);
      case Reload => if s.file.Some? { LoadKeeps(s.file.value); }
      case Edit(_) =>
    }
  }

  lemma ShareIsSymmetric(a: Account, b: Account)
    ensures Share(a, b) == Share(b, a)
  {
  }

  lemma ListedUnshared(byId: map<string, Account>, us: seq<Account>)
    requires Lists(byId, us) && forall id | id in byId :: byId[id].id == id
    ensures UnsharedList(us) <==> Unshared(Indexes(byId, map[], map[]))
  {
    hide Share;
    if UnsharedList(us) {
      forall a, b | a in byId && b in byId && a != b ensures !Share(byId[a], byId[b]) {
        var i :| 0 <= i < |us| && us[i] == byId[a];
        var j :| 0 <= j < |us| && us[j] == byId[b];
        ShareIsSymmetric(us[i], us[j]);
      }
    } else {
      var i, j :| 0 <= i < j < |us| && Share(us[i], us[j]);
      assert us[i].id != us[j].id;
    }
  }

  lemma InsertKeepsApart(ix: Indexes, u: Account)
    requires Unshared(ix) && u.id !in ix.byId && forall id | id in ix.byId :: !Share(u, ix.byId[id])
    ensures Unshared(Inserted(ix, u))
  {
    hide Share;
    var after := Inserted(ix, u);
    forall a, b | a in after.byId && b in after.byId && a != b ensures !Share(after.byId[a], after.byId[b]) {
      ShareIsSymmetric(after.byId[a], after.byId[b]);
      if a == u.id {
        assert !Share(u, ix.byId[b]);
      } else if b == u.id {
        assert !Share(u, ix.byId[a]);
      } else {
        assert !Share(ix.byId[a], ix.byId[b]);
      }
    }
  }

  lemma OnlyAccountsMatter(a: Indexes, b: Indexes)
    requires a.byId == b.byId
    ensures Unshared(a) == Unshared(b)
  {
  }

  lemma IdsMatch(ix: Indexes)
    requires Sound(ix)
    ensures forall id | id in ix.byId :: ix.byId[id].id == id
  {
  }

  lemma StepKeepsApart(s: System, e: Event)
    requires Sound(s.ix) && Complete(s.ix) && FileGood(s) && Apart(s) && Allowed(s, e) && KeepsApart(s, e)
    ensures Complete(After(s, e).ix) && Apart(After(s, e))
  {
    StepKeepsSound(s, e);
    IdsMatch(After(s, e).ix);
    hide Share, Sound, Complete;
    match e {
      case Create(u, works, listed) =>
        InsertKeeps(s.ix, u);
        InsertKeepsApart(s.ix, u);
        if works {
          ListedUnshared(After(s, e).ix.byId, listed);
          OnlyAccountsMatter(After(s, e).ix, Indexes(After(s, e).ix.byId, map[], map[]));
        }
      case Delete(id, works, listed) =>
        if id in s.ix.byId {
          DeleteKeepsComplete(s.ix, id);
          assert Unshared(Removed(s.ix, id));
          if works {
            ListedUnshared(After(s, e).ix.byId, listed);
            OnlyAccountsMatter(After(s, e).ix, Indexes(After(s, e).ix.byId, map[], map[]));
          }
        }
      case Reload =>
        if s.file.Some? {
          LoadKeeps(s.file.value);
          ListedUnshared(After(s, e).ix.byId, s.file.value);
          OnlyAccountsMatter(After(s, e).ix, Indexes(After(s, e).ix.byId, map[], map[]));
        }
      case Edit(_) =>
    }
  }

  ghost predicate Runs(s: System, es: seq<Event>)
    decreases |es|
  {
    es == [] || (Allowed(s, es[0]) && Runs(After(s, es[0]), es[1..]))
  }

  ghost predicate RunsApart(s: System, es: seq<Event>)
    decreases |es|
  {
    es == [] || (KeepsApart(s, es[0]) && RunsApart(After(s, es[0]), es[1..]))
  }

  function Final(s: System, es: seq<Event>): System
    decreases |es|
  {
    if es == [] then s else Final(After(s, es[0]), es[1..])
  }

  /** Over every run of creates, deletes, file edits and reloads with unique ids, index entries point to
      live holders; and when keys and domains are kept apart as well, the indexes are complete. */
  lemma {:induction false} EveryRun(s: System, es: seq<Event>)
    requires Sound(s.ix) && FileGood(s) && Runs(s, es)
    ensures Sound(Final(s, es).ix)
    ensures Complete(s.ix) && Apart(s) && RunsApart(s, es) ==> Complete(Final(s, es).ix) && Unshared(Final(s, es).ix)
    decreases |es|
  {
    hide Sound, Complete, Apart, After, Allowed, KeepsApart, FileGood;
    if es == [] {
      ApartIndexes(s);
    } else {
      StepKeepsSound(s, es[0]);
      if Complete(s.ix) && Apart(s) && RunsApart(s, es) { StepKeepsApart(s, es[0]); }
      EveryRun(After(s, es[0]), es[1..]);
    }
  }

  lemma ApartIndexes(s: System)
    ensures Apart(s) ==> Unshared(s.ix)
  {
  }

  // ---- What callers see ----

  /** A new account is found at once by its key and all its domains, and no other account is lost, whether the
      file could be written or not; if it could not, the next reload forgets it. */
  lemma CreateIsSeen(s: System, u: Account, works: bool, listed: seq<Account>)
    ensures var t := After(s, Create(u, works, listed));
      && KeyLookup(t.ix, u.key) == Some(u) && (forall d | d in u.domains :: DomainLookup(t.ix, d) == Some(u))
      && (forall id | id in s.ix.byId && id != u.id :: id in t.ix.byId && t.ix.byId[id] == s.ix.byId[id])
      && t.file == (if works then Some(listed) else s.file)
    ensures !works && s.file.Some? ==> After(After(s, Create(u, works, listed)), Reload) == After(s, Reload)
  {
  }

  /** A deleted account is found no longer by its key and its domains, and no other account is lost; the file
      is left alone if there was no such account. */
  lemma DeleteIsSeen(s: System, id: string, works: bool, listed: seq<Account>)
    ensures var t := After(s, Delete(id, works, listed));
      && id !in t.ix.byId
      && (forall other | other in s.ix.byId && other != id ::
            other in t.ix.byId && t.ix.byId[other] == s.ix.byId[other])
      && (id in s.ix.byId ==> KeyLookup(t.ix, s.ix.byId[id].key) == None)
      && (id in s.ix.byId ==> forall d | d in s.ix.byId[id].domains :: DomainLookup(t.ix, d) == None)
      && (t.file != s.file ==> id in s.ix.byId && works && t.file == Some(listed))
  {
  }

  // ---- Persist and reload ----

  /** Sound and complete indexes over unshared accounts are determined by the accounts. */
  lemma IndexesAreDetermined(a: Indexes, b: Indexes)
    requires a.byId == b.byId && Unshared(a) && Unshared(b)
    requires Sound(a) && Complete(a) && Sound(b) && Complete(b)
    ensures a == b
  {
    KeysDetermined(a, b);
    DomainsDetermined(a, b);
  }

  lemma KeysDetermined(a: Indexes, b: Indexes)
    requires a.byId == b.byId && Unshared(a) && Unshared(b)
    requires Sound(a) && Complete(a) && Sound(b) && Complete(b)
    ensures a.byKey == b.byKey
  {
    hide Sound, Complete, Unshared;
    forall k | k in a.byKey || k in b.byKey ensures k in a.byKey && k in b.byKey && a.byKey[k] == b.byKey[k] {
      if k in a.byKey { KeyDetermined(a, b, k); } else { KeyDetermined(b, a, k); }
    }
  }

  lemma DomainsDetermined(a: Indexes, b: Indexes)
    requires a.byId == b.byId && Unshared(a) && Unshared(b)
    requires Sound(a) && Complete(a) && Sound(b) && Complete(b)
    ensures a.byDomain == b.byDomain
  {
    hide Sound, Complete, Unshared;
    forall d | d in a.byDomain || d in b.byDomain
      ensures d in a.byDomain && d in b.byDomain && a.byDomain[d] == b.byDomain[d]
    {
      if d in a.byDomain { DomainDetermined(a, b, d); } else { DomainDetermined(b, a, d); }
    }
  }

  lemma KeyDetermined(a: Indexes, b: Indexes, k: string)
    requires a.byId == b.byId && Unshared(a) && Sound(a) && Sound(b) && Complete(b) && k in a.byKey
    ensures k in b.byKey && a.byKey[k] == b.byKey[k]
  {
    assert a.byKey[k] in b.byId;
    assert Share(a.byId[a.byKey[k]], a.byId[b.byKey[k]]);
  }

  lemma DomainDetermined(a: Indexes, b: Indexes, d: string)
    requires a.byId == b.byId && Unshared(a) && Sound(a) && Sound(b) && Complete(b) && d in a.byDomain
    ensures d in b.byDomain && a.byDomain[d] == b.byDomain[d]
  {
    assert a.byDomain[d] in b.byId;
    assert Share(a.byId[a.byDomain[d]], a.byId[b.byDomain[d]]);
  }

  lemma SameAccounts(a: map<string, Account>, b: map<string, Account>, us: seq<Account>)
    requires Lists(a, us) && Lists(b, us)
    requires forall id | id in a :: a[id].id == id
    requires forall id | id in b :: b[id].id == id
    ensures a == b
  {
    forall id | id in a || id in b ensures id in a && id in b && a[id] == b[id] {
      if id in a { Listed(a, b, us, id); } else { Listed(b, a, us, id); }
    }
  }

  lemma Listed(a: map<string, Account>, b: map<string, Account>, us: seq<Account>, id: string)
    requires Lists(a, us) && Lists(b, us) && id in a && a[id].id == id
    ensures id in b && b[id] == a[id]
  {
    var i :| 0 <= i < |us| && us[i] == a[id];
  }

  lemma ReloadFindsTheSame(ix: Indexes, us: seq<Account>)
    requires Sound(ix) && Complete(ix) && Unshared(ix) && Lists(ix.byId, us)
    ensures Loaded(us) == ix
  {
    LoadKeeps(us);
    SameAccounts(ix.byId, Loaded(us).byId, us);
    OnlyAccountsMatter(ix, Loaded(us));
    IndexesAreDetermined(ix, Loaded(us));
  }

  lemma ListEndingIn(byId: map<string, Account>, id: string) returns (us: seq<Account>)
    requires id in byId && forall x | x in byId :: byId[x].id == x
    ensures Lists(byId, us) && us != [] && us[|us| - 1] == byId[id]
    decreases |byId|
  {
    var rest := byId - {id};
    if rest == map[] {
      us := [byId[id]];
      assert forall x | x in byId :: x == id by { assert forall x | x in byId && x != id :: x in rest; }
    } else {
      var other :| other in rest;
      assert |rest| < |byId| by { assert byId.Keys == rest.Keys + {id}; }
      var front := ListEndingIn(rest, other);
      us := front + [byId[id]];
      assert rest[id := byId[id]] == byId;
      NowDistinct(rest, front, byId[id]);
      ListGrows(rest, front, byId[id]);
    }
  }

  lemma NowDistinct(rest: map<string, Account>, front: seq<Account>, last: Account)
    requires Lists(rest, front) && last.id !in rest
    ensures DistinctIds(front + [last])
  {
  }

  /** Persisting and reloading changes no index, in whatever order the accounts are written, exactly when
      no key and no domain is shared. */
  lemma PersistThenReload(ix: Indexes)
    requires Sound(ix) && Complete(ix)
    ensures (forall us | Lists(ix.byId, us) :: Loaded(us) == ix) <==> Unshared(ix)
  {
    if Unshared(ix) {
      forall us | Lists(ix.byId, us) ensures Loaded(us) == ix { ReloadFindsTheSame(ix, us); }
    } else {
      var a, b :| a in ix.byId && b in ix.byId && a != b && Share(ix.byId[a], ix.byId[b]);
      var first := ListEndingIn(ix.byId, a);
      var second := ListEndingIn(ix.byId, b);
      LastWins(first);
      LastWins(second);
      assert Loaded(first) != Loaded(second);
    }
  }

  lemma LastWins(us: seq<Account>)
    requires us != []
    ensures var u := us[|us| - 1];
      && u.key in Loaded(us).byKey && Loaded(us).byKey[u.key] == u.id
      && forall d | d in u.domains :: d in Loaded(us).byDomain && Loaded(us).byDomain[d] == u.id
  {
  }

  // ---- Files with repeated ids ----

  predicate LastId(us: seq<Account>, i: nat)
    requires i < |us|
  {
    forall m | i < m < |us| :: us[m].id != us[i].id
  }

  predicate LastKey(us: seq<Account>, i: nat)
    requires i < |us|
  {
    forall m | i < m < |us| :: us[m].key != us[i].key
  }

  predicate LastDomain(us: seq<Account>, i: nat, d: string)
    requires i < |us|
  {
    d in us[i].domains && forall m | i < m < |us| :: d !in us[m].domains
  }

  /** Later accounts have the key and the domains of account i. */
  predicate TakenOver(us: seq<Account>, i: nat)
    requires i < |us|
  {
    !LastKey(us, i) && forall d | d in us[i].domains :: !LastDomain(us, i, d)
  }

  /** The last account with an id, a key or a domain is the one in the map. */
  lemma {:induction false} LoadedAt(us: seq<Account>, i: nat)
    requires i < |us|
    ensures LastId(us, i) ==> us[i].id in Loaded(us).byId && Loaded(us).byId[us[i].id] == us[i]
    ensures LastKey(us, i) ==> us[i].key in Loaded(us).byKey && Loaded(us).byKey[us[i].key] == us[i].id
    ensures forall d | LastDomain(us, i, d) :: d in Loaded(us).byDomain && Loaded(us).byDomain[d] == us[i].id
    decreases |us|
  {
    var n := |us| - 1;
    if i < n {
      LoadedAt(us[..n], i);
      assert forall m | i < m < n :: us[..n][m] == us[m];
      assert forall d | LastDomain(us, i, d) :: LastDomain(us[..n], i, d) && d !in us[n].domains;
    }
  }

  lemma {:induction false} IdFrom(us: seq<Account>, id: string) returns (i: nat)
    requires id in Loaded(us).byId
    ensures i < |us| && us[i].id == id && LastId(us, i)
    decreases |us|
  {
    i := |us| - 1;
    if us[i].id != id {
      var n := i;
      i := IdFrom(us[..n], id);
      assert forall m | i < m < n :: us[..n][m] == us[m];
    }
  }

  lemma {:induction false} KeyFrom(us: seq<Account>, key: string) returns (i: nat)
    requires key in Loaded(us).byKey
    ensures i < |us| && us[i].key == key && LastKey(us, i)
    decreases |us|
  {
    i := |us| - 1;
    if us[i].key != key {
      var n := i;
      i := KeyFrom(us[..n], key);
      assert forall m | i < m < n :: us[..n][m] == us[m];
    }
  }

  lemma {:induction false} DomainFrom(us: seq<Account>, d: string) returns (i: nat)
    requires d in Loaded(us).byDomain
    ensures i < |us| && LastDomain(us, i, d)
    decreases |us|
  {
    i := |us| - 1;
    if d !in us[i].domains {
      var n := i;
      i := DomainFrom(us[..n], d);
      assert forall m | i < m < n :: us[..n][m] == us[m];
    }
  }

  /** Where an account was replaced by a later one of the same id, and its key or a domain is no one
      else's, that key or domain leads to an account that does not hold it. */
  lemma ReplacedAccountMisleads(us: seq<Account>, i: nat)
    requires i < |us| && !LastId(us, i) && !TakenOver(us, i)
    ensures !Sound(Loaded(us))
  {
    LoadedAt(us, i);
    IdIsLoaded(us, i);
    var j := IdFrom(us, us[i].id);
    LoadedAt(us, j);
    NoneBehind(us, i, j);
    hide Loaded;
    var ix := Loaded(us);
    assert ix.byId[us[i].id] == us[j];
    if LastKey(us, i) {
      assert us[i].key in ix.byKey && us[j].key != us[i].key;
    } else {
      var d :| d in us[i].domains && LastDomain(us, i, d);
      assert d in ix.byDomain && d !in us[j].domains;
    }
  }

  lemma NoneBehind(us: seq<Account>, i: nat, j: nat)
    requires i < |us| && j < |us| && us[i].id == us[j].id && LastId(us, j)
    ensures i <= j
  {
  }

  lemma {:induction false} IdIsLoaded(us: seq<Account>, i: nat)
    requires i < |us|
    ensures us[i].id in Loaded(us).byId
    decreases |us|
  {
    if i < |us| - 1 { IdIsLoaded(us[..|us| - 1], i); }
  }

  lemma TakenOverIsSound(us: seq<Account>)
    requires forall i | 0 <= i < |us| && !LastId(us, i) :: TakenOver(us, i)
    ensures Sound(Loaded(us))
  {
    var ix := Loaded(us);
    forall id | id in ix.byId ensures ix.byId[id].id == id {
      var i := IdFrom(us, id);
      LoadedAt(us, i);
    }
    forall k | k in ix.byKey ensures ix.byKey[k] in ix.byId && ix.byId[ix.byKey[k]].key == k {
      var i := KeyFrom(us, k);
      assert LastId(us, i);
      LoadedAt(us, i);
    }
    forall d | d in ix.byDomain ensures ix.byDomain[d] in ix.byId && d in ix.byId[ix.byDomain[d]].domains {
      var i := DomainFrom(us, d);
      assert LastId(us, i);
      LoadedAt(us, i);
    }
    hide Loaded;
  }

  lemma {:induction false} LoadIsComplete(us: seq<Account>)
    ensures Complete(Loaded(us))
  {
    if us != [] { LoadIsComplete(us[..|us| - 1]); }
  }

  /** A file loads to sound indexes exactly when every account that a later one of the same id replaces
      also loses its key and its domains to later accounts. The indexes are complete in any case. */
  lemma RepeatedIds(us: seq<Account>)
    ensures Sound(Loaded(us)) <==> forall i | 0 <= i < |us| && !LastId(us, i) :: TakenOver(us, i)
    ensures Complete(Loaded(us))
  {
    hide Sound, Complete, Loaded, LastId, TakenOver;
    LoadIsComplete(us);
    if forall i | 0 <= i < |us| && !LastId(us, i) :: TakenOver(us, i) {
      TakenOverIsSound(us);
    } else {
      var i: nat :| i < |us| && !LastId(us, i) && !TakenOver(us, i);
      ReplacedAccountMisleads(us, i);
    }
  }
}
