/**
  One process's `AccountStore` object: the cached accounts, the rows they were decoded from, and
  the loops that refresh them and write the changed ones.
*/
module AccountStoreObject {
  import opened Optional
  import opened Sets
  import opened Accounts
  import opened AccountTables
  import opened AccountStore

  class Database {
    var tables: Tables
    constructor (tables: Tables)
      ensures this.tables == tables
    {
      this.tables := tables;
    }
  }

  predicate Differs(accounts: Directory, known: Rows, u: User) {
    if u in accounts then !(u in known && known[u].account == accounts[u]) else u in known
  }

  function ChangeFor(accounts: Directory, known: Rows, seals: User -> nat, u: User): Change {
    Change(u, if u in known then Some(known[u]) else None,
           if u in accounts then Some(Payload(accounts[u], seals(u))) else None)
  }

  /** `cs` holds one change for every account of `users` that differs from its row. */
  ghost predicate Lists(accounts: Directory, known: Rows, seals: User -> nat, users: set<User>, cs: seq<Change>) {
    && OncePerUser(cs)
    && (forall i | 0 <= i < |cs| ::
          cs[i].username in users && Differs(accounts, known, cs[i].username)
          && cs[i] == ChangeFor(accounts, known, seals, cs[i].username))
    && (forall u | u in users && Differs(accounts, known, u) :: !Untouched(cs, u))
  }

  lemma ListsNext(accounts: Directory, known: Rows, seals: User -> nat, users: set<User>, cs: seq<Change>, u: User)
    requires Lists(accounts, known, seals, users, cs) && u !in users
    ensures var cs' := if Differs(accounts, known, u) then cs + [ChangeFor(accounts, known, seals, u)] else cs;
            Lists(accounts, known, seals, users + {u}, cs')
  {
    var cs' := if Differs(accounts, known, u) then cs + [ChangeFor(accounts, known, seals, u)] else cs;
    assert forall i | 0 <= i < |cs| :: cs'[i] == cs[i];
    forall v | v in users + {u} && Differs(accounts, known, v) ensures !Untouched(cs', v) {
      if v == u {
        assert cs'[|cs|].username == u;
      } else {
        var i :| 0 <= i < |cs| && cs[i].username == v;
        assert cs'[i].username == v;
      }
    }
  }

  /** The changes of `persistChangedLocked`, in any order of the two maps. */
  method CollectChanges(accounts: Directory, known: Rows, seals: User -> nat) returns (cs: seq<Change>)
    ensures Lists(accounts, known, seals, accounts.Keys + known.Keys, cs)
  {
    cs := [];
    var todo := accounts.Keys + known.Keys;
    ghost var all := todo;
    assert all - todo == {};
    while todo != {}
      invariant todo <= all && Lists(accounts, known, seals, all - todo, cs)
      decreases |todo|
    {
      var u :| u in todo;
      ListsNext(accounts, known, seals, all - todo, cs, u);
      OneLess(all, todo, u);
      if Differs(accounts, known, u) {
        cs := cs + [ChangeFor(accounts, known, seals, u)];
      }
      todo := todo - {u};
    }
    assert all - todo == all;
  }

  /** Delete the index rows of the sites the account gives up. */
  method ReleaseSites(index: SiteIndex, c: Change) returns (r: SiteIndex)
    ensures r == Release(index, c)
  {
    r := index;
    if c.previous.Some? {
      var sites, tenant := c.previous.value.account.sites, c.previous.value.account.tenant;
      for i := 0 to |sites|
        invariant r == map s | s in index && !(s in sites[..i] && s !in Kept(c) && index[s] == tenant) :: index[s]
      {
        assert sites[..i + 1] == sites[..i] + [sites[i]];
        if sites[i] !in Kept(c) && sites[i] in r && r[sites[i]] == tenant {
          r := r - {sites[i]};
        }
      }
      assert sites[..|sites|] == sites;
    }
  }

  /** Insert an index row for every newly claimed site, expecting each insert to take effect. */
  method ClaimSites(index: SiteIndex, sites: seq<Site>, held: set<Site>, tenant: User) returns (r: Option<SiteIndex>)
    ensures r == ClaimAll(index, sites, held, tenant)
  {
    var current := index;
    for i := 0 to |sites|
      invariant ClaimAll(index, sites, held, tenant) == ClaimAll(current, sites[i..], held, tenant)
    {
      assert sites[i..][1..] == sites[i + 1..];
      if sites[i] !in held {
        if sites[i] in current {
          return None;
        }
        current := current[sites[i] := tenant];
      }
    }
    r := Some(current);
  }

  /** The transaction: every release, then every guarded write with its claims. */
  method WriteChanges(t: Tables, cs: seq<Change>) returns (r: Option<Tables>)
    ensures r == Transaction(t, cs)
  {
    var index := t.tenantSites;
    for i := 0 to |cs|
      invariant ReleaseAll(t.tenantSites, cs) == ReleaseAll(index, cs[i..])
    {
      assert cs[i..][1..] == cs[i + 1..];
      index := ReleaseSites(index, cs[i]);
    }
    var current := Tables(t.rows, index);
    for i := 0 to |cs|
      invariant Transaction(t, cs) == WriteAll(current, cs[i..])
    {
      assert cs[i..][1..] == cs[i + 1..];
      var c := cs[i];
      if !Current(current.rows, c) {
        return None;
      }
      if c.next.Some? {
        var claimed := ClaimSites(current.tenantSites, c.next.value.account.sites, Held(c),
          c.next.value.account.tenant);
        if claimed.None? {
          return None;
        }
        current := Tables(NewRows(current.rows, c), claimed.value);
      } else {
        current := Tables(NewRows(current.rows, c), current.tenantSites);
      }
    }
    r := Some(current);
  }

  class Store {
    const db: Database
    var accounts: Directory
    var known: Rows

    constructor (db: Database)
      ensures this.db == db && known == map[] && accounts == map[]
    {
      this.db := db;
      this.accounts, this.known := map[], map[];
    }

    /**
      `refreshFromDBLocked`: read every row, refuse an invalid account or a site with two owners,
      and only then replace the cache.
    */
    method RefreshFromDB(f: Formats) returns (ok: bool)
      modifies this
      ensures ok <==> RefreshAccepts(f, db.tables.rows)
      ensures ok ==> known == db.tables.rows && accounts == Images(db.tables.rows)
      ensures !ok ==> known == old(known) && accounts == old(accounts)
    {
      var rows := db.tables.rows;
      var todo := rows.Keys;
      while todo != {}
        invariant todo <= rows.Keys
        invariant forall u | u in rows && u !in todo ::
            rows[u].account.username == u && ValidAccount(f, rows[u].account, false)
        decreases |todo|
      {
        var u :| u in todo;
        if rows[u].account.username != u || !ValidAccount(f, rows[u].account, false) {
          assert !RefreshAccepts(f, rows);
          return false;
        }
        todo := todo - {u};
      }
      var disjoint := CheckOwnership(rows);
      if !disjoint {
        return false;
      }
      accounts, known := Images(rows), rows;
      ok := true;
    }

    /**
      `persistChangedLocked`; the commit may be reported as failed although it took effect.  A
      refused transaction leaves everything as it was.
    */
    method PersistChanged(seals: User -> nat, acknowledged: bool, effective: bool)
      returns (ok: bool, ghost cs: seq<Change>)
      modifies this`known, db
      ensures Lists(accounts, old(known), seals, accounts.Keys + old(known).Keys, cs)
      ensures ok <==> Transaction(old(db.tables), cs).Some? && (acknowledged || cs == [])
      ensures db.tables == if Transaction(old(db.tables), cs).Some? && (acknowledged || effective)
                           then Transaction(old(db.tables), cs).value else old(db.tables)
      ensures ok ==> Images(known) == accounts
      ensures !ok ==> known == old(known)
      ensures old(known) == old(db.tables).rows && ok ==> known == db.tables.rows
    {
      var changes := CollectChanges(accounts, known, seals);
      cs := changes;
      if changes == [] {
        NothingListed(accounts, known, seals, db.tables);
        return true, cs;
      }
      var written := WriteChanges(db.tables, changes);
      if written.None? {
        return false, cs;
      }
      if acknowledged || effective {
        db.tables := written.value;
      }
      if !acknowledged {
        return false, cs;
      }
      var rows := map u | u in accounts ::
        if Differs(accounts, known, u) then Payload(accounts[u], seals(u)) else known[u];
      assert Images(rows) == accounts;
      KnownAreRows(accounts, known, seals, changes, rows, old(db.tables));
      known := rows;
      ok := true;
    }
  }

  /** The rows a store remembers after a transaction on the rows it knew are those in the table. */
  lemma KnownAreRows(accounts: Directory, known: Rows, seals: User -> nat, cs: seq<Change>, rows: Rows, t: Tables)
    requires Lists(accounts, known, seals, accounts.Keys + known.Keys, cs) && Transaction(t, cs).Some?
    requires rows == map u | u in accounts ::
        if Differs(accounts, known, u) then Payload(accounts[u], seals(u)) else known[u]
    ensures known == t.rows ==> rows == Transaction(t, cs).value.rows
  {
    if known == t.rows {
      TransactionRows(t, cs);
      var after := Transaction(t, cs).value.rows;
      forall u | u in accounts.Keys + known.Keys
        ensures (u in rows <==> u in after) && (u in rows && u in after ==> rows[u] == after[u])
      {
        if Untouched(cs, u) {
          assert !Differs(accounts, known, u);
        } else {
          var i :| 0 <= i < |cs| && cs[i].username == u;
        }
      }
      forall u | u in after ensures u in accounts.Keys + known.Keys {
        if !Untouched(cs, u) {
          var i :| 0 <= i < |cs| && cs[i].username == u;
        }
      }
    }
  }

  lemma NothingListed(accounts: Directory, known: Rows, seals: User -> nat, t: Tables)
    requires Lists(accounts, known, seals, accounts.Keys + known.Keys, [])
    ensures Images(known) == accounts && Transaction(t, []) == Some(t)
  {
    forall u | u in accounts.Keys + known.Keys ensures !Differs(accounts, known, u) {
      assert Untouched([], u);
    }
    assert ReleaseAll(t.tenantSites, []) == t.tenantSites;
  }

  ghost predicate RefreshAccepts(f: Formats, rows: Rows) {
    && (forall u | u in rows :: rows[u].account.username == u && ValidAccount(f, rows[u].account, false))
    && NoSharedSites(rows)
  }

  /** The ownership check of the refresh: build the owner map and stop at a second owner. */
  method CheckOwnership(rows: Rows) returns (ok: bool)
    ensures ok <==> NoSharedSites(rows)
  {
    var owned: map<Site, User> := map[];
    var todo := rows.Keys;
    while todo != {}
      invariant todo <= rows.Keys
      invariant forall s | s in owned :: owned[s] in rows && owned[s] !in todo && s in rows[owned[s]].account.sites
      invariant forall u, s | u in rows && u !in todo && s in rows[u].account.sites :: s in owned && owned[s] == u
      decreases |todo|
    {
      var u :| u in todo;
      var sites := rows[u].account.sites;
      ghost var before := owned;
      for i := 0 to |sites|
        invariant forall s | s in owned :: if s in before then owned[s] == before[s] else owned[s] == u && s in sites
        invariant forall s | s in before :: s in owned
        invariant forall s | s in sites[..i] :: s in owned && owned[s] == u
      {
        assert sites[..i + 1] == sites[..i] + [sites[i]];
        if sites[i] in owned && owned[sites[i]] != u {
          assert sites[i] in before;
          SharedSite(rows, u, owned[sites[i]], sites[i]);
          return false;
        }
        owned := owned[sites[i] := u];
      }
      assert sites[..|sites|] == sites;
      todo := todo - {u};
    }
    assert NoSharedSites(rows) by {
      forall u, v, s | u in rows && v in rows && s in rows[u].account.sites && s in rows[v].account.sites
        ensures u == v
      {
        assert owned[s] == u && owned[s] == v;
      }
    }
    ok := true;
  }

  lemma SharedSite(rows: Rows, u: User, v: User, s: Site)
    requires u in rows && v in rows && u != v && s in rows[u].account.sites && s in rows[v].account.sites
    ensures !NoSharedSites(rows)
  {
  }

  /** On a database the store's own transactions produced, a refresh is never refused. */
  lemma RefreshNeverRefused(cfg: Config, s0: System, actions: seq<Action>)
    requires Inv(cfg, s0) && GeneratedOk(cfg, actions)
    ensures RefreshAccepts(cfg.formats, Run(cfg, s0, actions).tables.rows)
  {
    RunKeepsInv(cfg, s0, actions);
    var t := Run(cfg, s0, actions).tables;
    forall u | u in t.rows
      ensures t.rows[u].account.username == u && ValidAccount(cfg.formats, t.rows[u].account, false)
    {
      assert u in Images(t.rows);
    }
    forall u, v, s | u in t.rows && v in t.rows && s in t.rows[u].account.sites && s in t.rows[v].account.sites
      ensures u == v
    {
      NoSharedSite(t, s, u, v);
    }
  }

  lemma EditDiffersInOne(known: Rows, u: User, next: Option<Account>, v: User)
    requires Differs(NewDirectory(Images(known), u, next), known, v)
    ensures v == u
  {
  }

  /** One edited account yields exactly the one change of the interleaving model. */
  lemma OneEditOneChange(cfg: Config, known: Rows, m: Mutation, seals: User -> nat, cs: seq<Change>)
    requires Mutated(cfg.formats, cfg.admin, Images(known), m).Some?
    requires var accounts := NewDirectory(Images(known), m.username, Mutated(cfg.formats, cfg.admin, Images(known),
          m).value);
             Lists(accounts, known, seals, accounts.Keys + known.Keys, cs)
    ensures var c := ChangeOf(cfg, known, m, seals(m.username));
            cs == if c.Some? then [c.value] else []
  {
    var next := Mutated(cfg.formats, cfg.admin, Images(known), m).value;
    OneListed(known, m.username, next, seals, cs);
  }

  lemma OneListed(known: Rows, u: User, next: Option<Account>, seals: User -> nat, cs: seq<Change>)
    requires var accounts := NewDirectory(Images(known), u, next);
             Lists(accounts, known, seals, accounts.Keys + known.Keys, cs)
    ensures var accounts := NewDirectory(Images(known), u, next);
            cs == if Differs(accounts, known, u) then [ChangeFor(accounts, known, seals, u)] else []
  {
    var accounts := NewDirectory(Images(known), u, next);
    forall i | 0 <= i < |cs| ensures cs[i].username == u {
      EditDiffersInOne(known, u, next, cs[i].username);
    }
    if |cs| > 1 {
      SamePosition(cs, u, 0, 1);
    }
    assert |cs| > 0 ==> cs[0].username == u;
    if Differs(accounts, known, u) {
      assert u in accounts.Keys + known.Keys;
      assert !Untouched(cs, u);
      assert cs == [cs[0]];
    }
  }

  lemma SamePosition(cs: seq<Change>, u: User, i: nat, j: nat)
    requires OncePerUser(cs) && i < |cs| && j < |cs| && cs[i].username == u && cs[j].username == u
    ensures i == j
  {
  }
}
