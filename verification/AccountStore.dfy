/**
  Account stores of any number of processes over one database.  A mutation refreshes the
  process's copy, edits it, and writes the changed rows in one guarded transaction; other
  processes may commit between the refresh and the write.
*/
module AccountStore {
  import opened Optional
  import opened Accounts
  import opened AccountTables

  type Pid = nat

  /** What the processes are configured with. */
  datatype Config = Config(formats: Formats, admin: User)

  /** The database, and the rows each process has last read or written. */
  datatype System = System(tables: Tables, known: map<Pid, Rows>)

  datatype Action =
    | Refresh(p: Pid)
    | Commit(p: Pid, m: Mutation, seal: nat, acknowledged: bool)   // the process may see an error although it committed
    | Crash(p: Pid)

  /** The change a mutation makes to the rows the process knows; None when there is nothing to write. */
  function ChangeOf(cfg: Config, known: Rows, m: Mutation, seal: nat): Option<Change> {
    match Mutated(cfg.formats, cfg.admin, Images(known), m)
    case None => None
    case Some(next) =>
      var u := m.username;
      var previous := if u in known then Some(known[u]) else None;
      if next.Some? && previous.Some? && previous.value.account == next.value then None
      else Some(Change(u, previous, if next.None? then None else Some(Payload(next.value, seal))))
  }

  /** The tables after a commit attempt: unchanged when it is refused or loses to a peer. */
  function Committed(cfg: Config, tables: Tables, known: Rows, m: Mutation, seal: nat): Option<Tables> {
    match ChangeOf(cfg, known, m, seal)
    case None => None
    case Some(c) => Transaction(tables, [c])
  }

  function Apply(cfg: Config, s: System, a: Action): System {
    match a
    case Refresh(p) => s.(known := s.known[p := s.tables.rows])
    case Crash(p) => s.(known := s.known - {p})
    case Commit(p, m, seal, acknowledged) =>
      if p !in s.known then s
      else match Committed(cfg, s.tables, s.known[p], m, seal)
        case None => s
        case Some(t) =>
          var rows := NewRows(s.known[p], ChangeOf(cfg, s.known[p], m, seal).value);
          System(t, if acknowledged then s.known[p := rows] else s.known)
  }

  function Run(cfg: Config, s: System, actions: seq<Action>): System
    decreases |actions|
  {
    if actions == [] then s else Run(cfg, Apply(cfg, s, actions[0]), actions[1..])
  }

  predicate GeneratedOk(cfg: Config, actions: seq<Action>) {
    forall i | 0 <= i < |actions| && actions[i].Commit? :: WellGenerated(cfg.formats, actions[i].m)
  }

  // ---------------------------------------------------------------------------------------
  // Every committed state
  // ---------------------------------------------------------------------------------------

  ghost predicate Inv(cfg: Config, s: System) {
    && IndexOk(s.tables) && ValidDirectory(cfg.formats, Images(s.tables.rows))
    && forall p | p in s.known :: ValidDirectory(cfg.formats, Images(s.known[p]))
  }

  lemma NewRowsValid(f: Formats, rows: Rows, c: Change)
    requires ValidDirectory(f, Images(rows))
    requires c.next.Some? ==>
        c.next.value.account.username == c.username && ValidAccount(f, c.next.value.account, false)
    ensures ValidDirectory(f, Images(NewRows(rows, c)))
  {
    var d := Images(NewRows(rows, c));
    forall u | u in d ensures d[u].username == u && ValidAccount(f, d[u], false) {
      if u != c.username {
        assert u in Images(rows) && d[u] == Images(rows)[u];
      }
    }
  }

  lemma ValidOwnsItself(f: Formats, a: Account)
    requires ValidAccount(f, a, false)
    ensures a.sites != [] ==> a.tenant == a.username
  {
  }

  lemma ChangeIsOk(cfg: Config, known: Rows, m: Mutation, seal: nat)
    requires ValidDirectory(cfg.formats, Images(known)) && WellGenerated(cfg.formats, m)
    requires ChangeOf(cfg, known, m, seal).Some?
    ensures var c := ChangeOf(cfg, known, m, seal).value;
            && ChangesOk([c]) && c.username == m.username
            && (c.next.Some? ==> c.next.value.account.username == c.username
                                 && ValidAccount(cfg.formats, c.next.value.account, false))
  {
    var c := ChangeOf(cfg, known, m, seal).value;
    if c.next.Some? {
      MutatedIsValid(cfg.formats, cfg.admin, Images(known), m);
      ValidOwnsItself(cfg.formats, c.next.value.account);
    }
    if m.username in known {
      assert Images(known)[m.username] == known[m.username].account;
      ValidOwnsItself(cfg.formats, known[m.username].account);
    }
    assert ChangeOk(c);
  }

  lemma {:induction false} OneChange(t: Tables, c: Change)
    ensures Transaction(t, [c]).Some? ==>
      && Current(t.rows, c) && Transaction(t, [c]).value.rows == NewRows(t.rows, c)
  {
    var released := Tables(t.rows, ReleaseAll(t.tenantSites, [c]));
    assert WriteAll(released, [c]) == match Write(released, c) case None => None case Some(u) => WriteAll(u, [c][1..]);
  }

  lemma StepKeepsInv(cfg: Config, s: System, a: Action)
    requires Inv(cfg, s) && (a.Commit? ==> WellGenerated(cfg.formats, a.m))
    ensures Inv(cfg, Apply(cfg, s, a))
  {
    if a.Commit? && a.p in s.known && Committed(cfg, s.tables, s.known[a.p], a.m, a.seal).Some? {
      var known := s.known[a.p];
      ChangeIsOk(cfg, known, a.m, a.seal);
      var c := ChangeOf(cfg, known, a.m, a.seal).value;
      TransactionKeepsIndex(s.tables, [c]);
      OneChange(s.tables, c);
      NewRowsValid(cfg.formats, s.tables.rows, c);
      NewRowsValid(cfg.formats, known, c);
    }
  }

  /**
    In every run of any number of processes, every account row is valid and the site index is the
    projection of all account rows.
  */
  lemma {:induction false} RunKeepsInv(cfg: Config, s: System, actions: seq<Action>)
    requires Inv(cfg, s) && GeneratedOk(cfg, actions)
    ensures Inv(cfg, Run(cfg, s, actions))
    decreases |actions|
  {
    if actions != [] {
      StepKeepsInv(cfg, s, actions[0]);
      assert forall i | 0 <= i < |actions[1..]| :: actions[1..][i] == actions[i + 1];
      RunKeepsInv(cfg, Apply(cfg, s, actions[0]), actions[1..]);
    }
  }

  /** A commit changes only its own account, from exactly the version its process had read. */
  lemma CommitIsGuarded(cfg: Config, s: System, p: Pid, m: Mutation, seal: nat, acknowledged: bool, u: User)
    requires p in s.known && Committed(cfg, s.tables, s.known[p], m, seal).Some?
    ensures var t := Apply(cfg, s, Commit(p, m, seal, acknowledged)).tables;
            && (m.username in s.known[p] <==> m.username in s.tables.rows)
            && (m.username in s.known[p] ==> s.tables.rows[m.username] == s.known[p][m.username])
            && (u != m.username ==> (u in t.rows <==>
                  u in s.tables.rows) && (u in t.rows ==> t.rows[u] == s.tables.rows[u]))
  {
    OneChange(s.tables, ChangeOf(cfg, s.known[p], m, seal).value);
  }

  /** The row of `u` is as the process knows it. */
  predicate UpToDate(s: System, p: Pid, u: User)
    requires p in s.known
  {
    (u in s.known[p] <==> u in s.tables.rows) && (u in s.known[p] ==> s.known[p][u] == s.tables.rows[u])
  }

  /** A site of the new account belongs to another account by now. */
  predicate Taken(rows: Rows, u: User, next: Option<Account>) {
    next.Some? && exists v, s | v in rows && v != u && s in next.value.sites :: s in rows[v].account.sites
  }

  /** The mutation leaves the account as the process knows it. */
  predicate Idempotent(known: Rows, u: User, next: Option<Account>) {
    next.Some? && u in known && known[u].account == next.value
  }

  /** The mutation changes something, its row is the one the process had read, and its sites are free. */
  ghost predicate Goes(cfg: Config, s: System, a: Action)
    requires a.Commit? && a.p in s.known
  {
    var next := Mutated(cfg.formats, cfg.admin, Images(s.known[a.p]), a.m);
    && next.Some? && !Idempotent(s.known[a.p], a.m.username, next.value)
    && UpToDate(s, a.p, a.m.username) && !Taken(s.tables.rows, a.m.username, next.value)
  }

  lemma GoesExactly(cfg: Config, s: System, a: Action)
    requires Inv(cfg, s) && a.Commit? && a.p in s.known && WellGenerated(cfg.formats, a.m)
    ensures Goes(cfg, s, a) <==> Committed(cfg, s.tables, s.known[a.p], a.m, a.seal).Some?
    ensures Goes(cfg, s, a) ==>
        Committed(cfg, s.tables, s.known[a.p], a.m, a.seal).value.rows ==
        NewRows(s.tables.rows, ChangeOf(cfg, s.known[a.p], a.m, a.seal).value)
  {
    var known := s.known[a.p];
    var next := Mutated(cfg.formats, cfg.admin, Images(known), a.m);
    if next.Some? && !Idempotent(known, a.m.username, next.value) {
      var c := ChangeOf(cfg, known, a.m, a.seal).value;
      ChangeIsOk(cfg, known, a.m, a.seal);
      OneChangeExactly(cfg, s.tables, c);
      assert next.value == if c.next.Some? then Some(c.next.value.account) else None;
    }
  }

  /**
    An accepted mutation is written exactly when it changes something, the row is still the one the
    process had read, and no site of the new account was taken in between.  The row then holds the
    new account, or is gone, and every other row is as it was.
  */
  lemma CommitsExactly(cfg: Config, s: System, a: Action)
    requires Inv(cfg, s) && a.Commit? && a.p in s.known && WellGenerated(cfg.formats, a.m)
    ensures var u, t := a.m.username, Apply(cfg, s, a);
            if Goes(cfg, s, a) then
              var next := Mutated(cfg.formats, cfg.admin, Images(s.known[a.p]), a.m).value;
              && t.tables.rows == (if next.Some? then s.tables.rows[u := Payload(next.value, a.seal)]
                                   else s.tables.rows - {u})
              && (if a.acknowledged then a.p in t.known && UpToDate(t, a.p, u) else t.known == s.known)
            else t == s
  {
    GoesExactly(cfg, s, a);
  }

  lemma OneChangeExactly(cfg: Config, t: Tables, c: Change)
    requires IndexOk(t) && ChangesOk([c])
    requires c.next.Some? ==>
        c.next.value.account.username == c.username && ValidAccount(cfg.formats, c.next.value.account, false)
    ensures Transaction(t, [c]).Some? <==>
            Current(t.rows, c) && !Taken(t.rows, c.username, if c.next.Some? then Some(c.next.value.account) else None)
    ensures Transaction(t, [c]).Some? ==> Transaction(t, [c]).value.rows == NewRows(t.rows, c)
  {
    var after := NewRows(t.rows, c);
    assert Carries(t.rows, [c], after) by {
      assert forall u | Untouched([c], u) :: u != c.username by {
        assert [c][0] == c;
      }
    }
    AccountTables.CommitsExactly(t, [c], after);
    SharedExactly(t, c);
    assert (forall i | 0 <= i < |[c]| :: Current(t.rows, [c][i])) <==> Current(t.rows, c) by {
      assert [c][0] == c;
    }
  }

  lemma SharedExactly(t: Tables, c: Change)
    requires IndexOk(t)
    ensures NoSharedSites(NewRows(t.rows, c)) <==>
            !Taken(t.rows, c.username, if c.next.Some? then Some(c.next.value.account) else None)
  {
    var after := NewRows(t.rows, c);
    if c.next.Some? && NoSharedSites(after) {
      forall v, s | v in t.rows && v != c.username && s in c.next.value.account.sites
        ensures s !in t.rows[v].account.sites
      {
        assert after[v] == t.rows[v] && after[c.username] == c.next.value;
      }
    }
    if !Taken(t.rows, c.username, if c.next.Some? then Some(c.next.value.account) else None) {
      forall u, v, s | u in after && v in after && s in after[u].account.sites && s in after[v].account.sites
        ensures u == v
      {
        if u != c.username && v != c.username { NoSharedSite(t, s, u, v); }
      }
    }
  }

  // ---------------------------------------------------------------------------------------
  // The indexed queries
  // ---------------------------------------------------------------------------------------

  /** `OwnsSite` with the index, and by scanning the tenant owner's site list. */
  predicate OwnsSiteIndexed(t: Tables, u: User, site: Site) {
    u in t.rows && site in t.tenantSites && t.tenantSites[site] == t.rows[u].account.tenant
  }

  predicate OwnsSiteScanned(t: Tables, u: User, site: Site) {
    u in t.rows
    && var tenant := t.rows[u].account.tenant;
       tenant in t.rows && exists i | 0 <= i < |t.rows[tenant].account.sites| :: t.rows[tenant].account.sites[i] == site
  }

  /** `OwnerOfSite` with the index. */
  function OwnerOfSite(t: Tables, site: Site): Option<User> {
    if site in t.tenantSites then Some(t.tenantSites[site]) else None
  }

  /** `GetSites` with the index. */
  function SitesIndexed(t: Tables, u: User): set<Site> {
    if u !in t.rows then {} else set s | s in t.tenantSites && t.tenantSites[s] == t.rows[u].account.tenant
  }

  /** The index entry of a site is its owner's row. */
  lemma IndexEntry(t: Tables, u: User, site: Site)
    requires IndexOk(t)
    ensures OwnerOfSite(t, site) == Some(u) <==> u in t.rows && site in t.rows[u].account.sites
  {
    var hold := Assigned(t.rows);
    assert (site in t.tenantSites && t.tenantSites[site] == u) <==> (u in hold && site in hold[u]);
  }

  /** The indexed ownership answer is that of a scan of the owner's account. */
  lemma OwnershipAgrees(t: Tables, u: User, site: Site)
    requires IndexOk(t)
    ensures OwnsSiteIndexed(t, u, site) <==> OwnsSiteScanned(t, u, site)
  {
    if u in t.rows {
      IndexEntry(t, t.rows[u].account.tenant, site);
    }
  }

  /** `GetSites` by scanning: the site list of the account's tenant owner, empty when the owner is gone. */
  function SitesScanned(t: Tables, u: User): set<Site> {
    if u !in t.rows || t.rows[u].account.tenant !in t.rows then {}
    else set x | x in t.rows[t.rows[u].account.tenant].account.sites
  }

  /** The indexed site list is the scanned one, also for a member whose owner was removed. */
  lemma SitesAgree(t: Tables, u: User)
    requires IndexOk(t)
    ensures SitesIndexed(t, u) == SitesScanned(t, u)
  {
    if u in t.rows {
      forall x ensures x in SitesIndexed(t, u) <==> x in SitesScanned(t, u) {
        IndexEntry(t, t.rows[u].account.tenant, x);
      }
    }
  }

  /** In every reachable state the indexed queries answer as a scan of the accounts would. */
  lemma IndexedQueriesAgree(cfg: Config, s0: System, actions: seq<Action>, u: User, site: Site)
    requires Inv(cfg, s0) && GeneratedOk(cfg, actions)
    ensures var t := Run(cfg, s0, actions).tables;
            && (OwnsSiteIndexed(t, u, site) <==> OwnsSiteScanned(t, u, site))
            && (OwnerOfSite(t, site) == Some(u) <==> u in t.rows && site in t.rows[u].account.sites)
            && SitesIndexed(t, u) == SitesScanned(t, u)
  {
    RunKeepsInv(cfg, s0, actions);
    var t := Run(cfg, s0, actions).tables;
    OwnershipAgrees(t, u, site);
    IndexEntry(t, u, site);
    SitesAgree(t, u);
  }

  // ---------------------------------------------------------------------------------------
  // Revoked sessions stay revoked
  // ---------------------------------------------------------------------------------------

  function Generation(s: System, u: User): nat
    requires u in s.tables.rows
  {
    s.tables.rows[u].account.generation
  }

  lemma StepRaisesGeneration(cfg: Config, s: System, a: Action, u: User)
    requires Inv(cfg, s)
    requires u in s.tables.rows && u in Apply(cfg, s, a).tables.rows
    ensures Generation(s, u) <= Generation(Apply(cfg, s, a), u)
    ensures CredentialsChanged(s.tables.rows[u].account, Apply(cfg, s, a).tables.rows[u].account) ==>
              Generation(s, u) < Generation(Apply(cfg, s, a), u)
  {
    if a.Commit? && a.p in s.known && Committed(cfg, s.tables, s.known[a.p], a.m, a.seal).Some? {
      CommitIsGuarded(cfg, s, a.p, a.m, a.seal, a.acknowledged, u);
      if u == a.m.username {
        assert Images(s.known[a.p])[u] == s.tables.rows[u].account;
        OneChange(s.tables, ChangeOf(cfg, s.known[a.p], a.m, a.seal).value);
        MutationRaisesGeneration(cfg.formats, cfg.admin, Images(s.known[a.p]), a.m);
      }
    }
  }

  /** The account exists in every state of the run. */
  predicate Persists(cfg: Config, s: System, actions: seq<Action>, u: User)
    decreases |actions|
  {
    u in s.tables.rows && (actions != [] ==> Persists(cfg, Apply(cfg, s, actions[0]), actions[1..], u))
  }

  /** Some step of the run changes the account's credentials or suspension. */
  predicate Revokes(cfg: Config, s: System, actions: seq<Action>, u: User)
    requires Persists(cfg, s, actions, u)
    decreases |actions|
  {
    actions != []
    && var t := Apply(cfg, s, actions[0]);
       assert Persists(cfg, t, actions[1..], u);
       CredentialsChanged(s.tables.rows[u].account, t.tables.rows[u].account) || Revokes(cfg, t, actions[1..], u)
  }

  lemma {:induction false} GenerationNeverDecreases(cfg: Config, s: System, actions: seq<Action>, u: User)
    requires Inv(cfg, s) && GeneratedOk(cfg, actions) && Persists(cfg, s, actions, u)
    ensures u in Run(cfg, s, actions).tables.rows
    ensures Generation(s, u) <= Generation(Run(cfg, s, actions), u)
    ensures Revokes(cfg, s, actions, u) ==> Generation(s, u) < Generation(Run(cfg, s, actions), u)
    decreases |actions|
  {
    if actions != [] {
      var t := Apply(cfg, s, actions[0]);
      StepKeepsInv(cfg, s, actions[0]);
      StepRaisesGeneration(cfg, s, actions[0], u);
      assert forall i | 0 <= i < |actions[1..]| :: actions[1..][i] == actions[i + 1];
      GenerationNeverDecreases(cfg, t, actions[1..], u);
    }
  }

  /** A keyed digest of user, credential key and generation (`credentialFingerprintFor`), free of collisions. */
  ghost predicate CollisionFree(digest: (User, string, nat) -> string) {
    forall u: User, k: string, g: nat, k': string, g': nat {:trigger digest(u, k, g), digest(u, k', g')} ::
      digest(u, k, g) == digest(u, k', g') ==> g == g'
  }

  /** The fingerprint of a customer account's session in state `s`. */
  function Fingerprint(digest: (User, string, nat) -> string, s: System, u: User): string
    requires u in s.tables.rows
  {
    digest(u, s.tables.rows[u].account.passwordHash, Generation(s, u))
  }

  /**
    While the account exists, a session minted before a suspension toggle, a password change or a
    TOTP change never matches again, whatever any process does.
  */
  lemma OldSessionNeverMatches(cfg: Config, s: System, actions: seq<Action>, u: User,
                               digest: (User, string, nat) -> string)
    requires Inv(cfg, s) && GeneratedOk(cfg, actions) && Persists(cfg, s, actions, u) && CollisionFree(digest)
    requires Revokes(cfg, s, actions, u)
    ensures u in Run(cfg, s, actions).tables.rows
    ensures Fingerprint(digest, s, u) != Fingerprint(digest, Run(cfg, s, actions), u)
  {
    GenerationNeverDecreases(cfg, s, actions, u);
  }
}
