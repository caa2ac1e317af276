/**
  The durable account tables and the guarded transaction of `persistChangedLocked`.

  Each account row is written only while it still holds the payload its writer last read.  The
  `tenant_sites` table is the uniqueness index over every account's site list.
*/
module AccountTables {
  import opened Optional
  import opened Accounts

  /** A row's payload: the account, and the nonce that makes each sealing of its TOTP seed differ. */
  datatype Payload = Payload(account: Account, seal: nat)

  type Rows = map<User, Payload>
  type SiteIndex = map<Site, User>

  datatype Tables = Tables(rows: Rows, tenantSites: SiteIndex)

  /** One changed account: the row its writer last read, and the row it writes. */
  datatype Change = Change(username: User, previous: Option<Payload>, next: Option<Payload>)

  function Images(rows: Rows): Directory {
    map u | u in rows :: rows[u].account
  }

  function SiteSet(p: Option<Payload>): set<Site> {
    if p.None? then {} else set s | s in p.value.account.sites
  }

  predicate SameTenant(c: Change) {
    c.previous.Some? && c.next.Some? && c.previous.value.account.tenant == c.next.value.account.tenant
  }

  /** The assignments an account keeps: neither released nor claimed again. */
  function Kept(c: Change): set<Site> {
    if SameTenant(c) then SiteSet(c.previous) * SiteSet(c.next) else {}
  }

  /** Release the assignments the account gives up. */
  function Release(index: SiteIndex, c: Change): SiteIndex {
    if c.previous.None? then index
    else
      var gone, tenant := SiteSet(c.previous) - Kept(c), c.previous.value.account.tenant;
      map s | s in index && !(s in gone && index[s] == tenant) :: index[s]
  }

  function ReleaseAll(index: SiteIndex, cs: seq<Change>): SiteIndex {
    if cs == [] then index else ReleaseAll(Release(index, cs[0]), cs[1..])
  }

  /** Claim sites one by one; a site that is already assigned is a conflict. */
  function ClaimAll(index: SiteIndex, sites: seq<Site>, held: set<Site>, tenant: User): Option<SiteIndex>
    decreases |sites|
  {
    if sites == [] then Some(index)
    else if sites[0] in held then ClaimAll(index, sites[1..], held, tenant)
    else if sites[0] in index then None
    else ClaimAll(index[sites[0] := tenant], sites[1..], held, tenant)
  }

  /** The guard of a row write: the row is as its writer last read it. */
  predicate Current(rows: Rows, c: Change) {
    if c.previous.Some? then c.username in rows && rows[c.username] == c.previous.value else c.username !in rows
  }

  function NewRows(rows: Rows, c: Change): Rows {
    if c.next.Some? then rows[c.username := c.next.value] else rows - {c.username}
  }

  function Held(c: Change): set<Site> {
    if SameTenant(c) then SiteSet(c.previous) else {}
  }

  function Write(t: Tables, c: Change): Option<Tables> {
    if !Current(t.rows, c) then None
    else if c.next.None? then Some(Tables(NewRows(t.rows, c), t.tenantSites))
    else match ClaimAll(t.tenantSites, c.next.value.account.sites, Held(c), c.next.value.account.tenant)
      case None => None
      case Some(index) => Some(Tables(NewRows(t.rows, c), index))
  }

  function WriteAll(t: Tables, cs: seq<Change>): Option<Tables>
    decreases |cs|
  {
    if cs == [] then Some(t)
    else match Write(t, cs[0])
      case None => None
      case Some(u) => WriteAll(u, cs[1..])
  }

  /** All releases come before any claim, and everything is rolled back on a conflict. */
  function Transaction(t: Tables, cs: seq<Change>): Option<Tables> {
    WriteAll(Tables(t.rows, ReleaseAll(t.tenantSites, cs)), cs)
  }

  // ---------------------------------------------------------------------------------------
  // The index is the projection of the accounts
  // ---------------------------------------------------------------------------------------

  /** The index assigns exactly the sites of `hold`, each to its user. */
  ghost predicate Indexes(index: SiteIndex, hold: map<User, set<Site>>) {
    forall s: Site, u: User :: (s in index && index[s] == u) <==> (u in hold && s in hold[u])
  }

  function Assigned(rows: Rows): map<User, set<Site>> {
    map u | u in rows :: SiteSet(Some(rows[u]))
  }

  ghost predicate IndexOk(t: Tables) {
    Indexes(t.tenantSites, Assigned(t.rows))
  }

  /** A site owner's tenant is the owner itself. */
  predicate OwnsItself(p: Option<Payload>, u: User) {
    p.Some? && p.value.account.sites != [] ==> p.value.account.tenant == u
  }

  predicate ChangeOk(c: Change) {
    OwnsItself(c.previous, c.username) && OwnsItself(c.next, c.username)
  }

  predicate OncePerUser(cs: seq<Change>) {
    forall i, j | 0 <= i < j < |cs| :: cs[i].username != cs[j].username
  }

  lemma ReleaseKeepsIndex(index: SiteIndex, hold: map<User, set<Site>>, c: Change)
    requires Indexes(index, hold) && ChangeOk(c)
    requires c.previous.Some? ==> c.username in hold && hold[c.username] == SiteSet(c.previous)
    ensures Indexes(Release(index, c), if c.previous.Some? then hold[c.username := Kept(c)] else hold)
  {
    if c.previous.Some? {
      var after := Release(index, c);
      var hold' := hold[c.username := Kept(c)];
      forall s: Site, u: User ensures (s in after && after[s] == u) <==> (u in hold' && s in hold'[u]) {
        assert (s in index && index[s] == u) <==> (u in hold && s in hold[u]);
        if s in SiteSet(c.previous) {
          assert c.previous.value.account.tenant == c.username;
          assert s in index && index[s] == c.username;
        }
      }
    }
  }

  lemma {:induction false} ClaimKeepsIndex(index: SiteIndex, hold: map<User, set<Site>>, u: User, sites: seq<Site>,
                                           held: set<Site>)
    requires Indexes(index, hold) && u in hold && ClaimAll(index, sites, held, u).Some?
    ensures Indexes(ClaimAll(index, sites, held, u).value, hold[u := hold[u] + ((set s | s in sites) - held)])
    decreases |sites|
  {
    if sites == [] {
      assert hold[u] + ((set s | s in sites) - held) == hold[u];
      assert hold[u := hold[u]] == hold;
    } else {
      var rest := sites[1..];
      assert (set s | s in sites) == {sites[0]} + (set s | s in rest);
      if sites[0] in held {
        ClaimKeepsIndex(index, hold, u, rest, held);
        assert (set s | s in sites) - held == (set s | s in rest) - held;
      } else {
        var index' := index[sites[0] := u];
        var hold' := hold[u := hold[u] + {sites[0]}];
        forall s: Site, v: User ensures (s in index' && index'[s] == v) <==> (v in hold' && s in hold'[v]) {
          assert (s in index && index[s] == v) <==> (v in hold && s in hold[v]);
          if s == sites[0] {
            assert !(v in hold && s in hold[v]);
          }
        }
        ClaimKeepsIndex(index', hold', u, rest, held);
        assert hold'[u] + ((set s | s in rest) - held) == hold[u] + ((set s | s in sites) - held);
        assert hold'[u := hold'[u] + ((set s | s in rest) - held)] ==
          hold[u := hold[u] + ((set s | s in sites) - held)];
      }
    }
  }

  /** Writing one change turns the kept assignments into all the account's assignments. */
  lemma WriteKeepsIndex(t: Tables, hold: map<User, set<Site>>, c: Change)
    requires Indexes(t.tenantSites, hold) && ChangeOk(c) && Write(t, c).Some?
    requires c.previous.Some? ==> c.username in hold && hold[c.username] == Kept(c)
    requires c.previous.None? ==> c.username !in hold
    ensures Indexes(Write(t, c).value.tenantSites,
                    if c.next.Some? then hold[c.username := SiteSet(c.next)] else hold - {c.username})
  {
    var u := c.username;
    if c.next.None? {
      var hold' := hold - {u};
      forall s: Site, v: User
        ensures (s in t.tenantSites && t.tenantSites[s] == v) <==> (v in hold' && s in hold'[v])
      {
        assert (s in t.tenantSites && t.tenantSites[s] == v) <==> (v in hold && s in hold[v]);
      }
    } else {
      var base := if c.previous.Some? then hold else hold[u := {}];
      EmptyHolder(t.tenantSites, hold, u);
      var sites := c.next.value.account.sites;
      if sites == [] {
        assert SiteSet(c.next) == {} && base[u] == {};
        assert base[u := {}] == base;
      } else {
        ClaimKeepsIndex(t.tenantSites, base, u, sites, Held(c));
        assert base[u] + ((set s | s in sites) - Held(c)) == SiteSet(c.next);
      }
      assert base[u := SiteSet(c.next)] == hold[u := SiteSet(c.next)];
    }
  }

  lemma EmptyHolder(index: SiteIndex, hold: map<User, set<Site>>, u: User)
    requires Indexes(index, hold)
    ensures u !in hold ==> Indexes(index, hold[u := {}])
  {
    if u !in hold {
      var with := hold[u := {}];
      forall s: Site, v: User ensures (s in index && index[s] == v) <==> (v in with && s in with[v]) {
        assert (s in index && index[s] == v) <==> (v in hold && s in hold[v]);
      }
    }
  }

  ghost predicate ChangesOk(cs: seq<Change>) {
    OncePerUser(cs) && forall i | 0 <= i < |cs| :: ChangeOk(cs[i])
  }

  /** No change in `cs` is about `u`. */
  predicate Untouched(cs: seq<Change>, u: User) {
    forall i | 0 <= i < |cs| :: cs[i].username != u
  }

  /** After all releases, changed accounts hold what they keep and the others what they had. */
  lemma {:induction false} ReleasePhase(index: SiteIndex, hold: map<User, set<Site>>, cs: seq<Change>)
    returns (left: map<User, set<Site>>)
    requires Indexes(index, hold) && ChangesOk(cs)
    requires forall i | 0 <= i < |cs| && cs[i].previous.Some? ::
      cs[i].username in hold && hold[cs[i].username] == SiteSet(cs[i].previous)
    ensures Indexes(ReleaseAll(index, cs), left) && left.Keys == hold.Keys
    ensures forall i | 0 <= i < |cs| && cs[i].previous.Some? :: left[cs[i].username] == Kept(cs[i])
    ensures forall u | u in hold && Untouched(cs, u) :: left[u] == hold[u]
  {
    if cs == [] {
      left := hold;
    } else {
      var c, rest := cs[0], cs[1..];
      ReleaseKeepsIndex(index, hold, c);
      var hold' := if c.previous.Some? then hold[c.username := Kept(c)] else hold;
      assert forall i | 0 <= i < |rest| :: rest[i] == cs[i + 1] && rest[i].username != c.username;
      left := ReleasePhase(Release(index, c), hold', rest);
      assert Untouched(rest, c.username);
      forall u | u in hold && Untouched(cs, u) ensures left[u] == hold[u] {
        assert Untouched(rest, u) && u != c.username;
      }
      forall i | 0 <= i < |cs| && cs[i].previous.Some? ensures left[cs[i].username] == Kept(cs[i]) {
        if i > 0 { assert cs[i] == rest[i - 1]; }
      }
    }
  }

  /** The state between the writes: `cs` is still to be written. */
  ghost predicate Midway(t: Tables, hold: map<User, set<Site>>, cs: seq<Change>) {
    && Indexes(t.tenantSites, hold) && hold.Keys == t.rows.Keys && ChangesOk(cs)
    && (forall u | u in hold && Untouched(cs, u) :: hold[u] == SiteSet(Some(t.rows[u])))
    && (forall i | 0 <= i < |cs| && cs[i].previous.Some? && cs[i].username in hold ::
          hold[cs[i].username] == Kept(cs[i]))
  }

  lemma {:induction false} WritePhase(t: Tables, hold: map<User, set<Site>>, cs: seq<Change>)
    requires Midway(t, hold, cs) && WriteAll(t, cs).Some?
    ensures IndexOk(WriteAll(t, cs).value)
    decreases |cs|
  {
    if cs == [] {
      assert hold == Assigned(t.rows) by {
        assert forall u | u in hold :: Untouched(cs, u);
      }
    } else {
      var c := cs[0];
      WriteKeepsIndex(t, hold, c);
      var hold' := if c.next.Some? then hold[c.username := SiteSet(c.next)] else hold - {c.username};
      MidwayNext(t, hold, cs);
      WritePhase(Write(t, c).value, hold', cs[1..]);
    }
  }

  lemma MidwayNext(t: Tables, hold: map<User, set<Site>>, cs: seq<Change>)
    requires cs != [] && Midway(t, hold, cs) && Write(t, cs[0]).Some?
    requires var c := cs[0];
             Indexes(Write(t, c).value.tenantSites, if c.next.Some? then hold[c.username := SiteSet(c.next)]
               else hold - {c.username})
    ensures var c := cs[0];
            Midway(Write(t, c).value, if c.next.Some? then hold[c.username := SiteSet(c.next)]
              else hold - {c.username}, cs[1..])
  {
    var c, rest := cs[0], cs[1..];
    var t' := Write(t, c).value;
    var hold' := if c.next.Some? then hold[c.username := SiteSet(c.next)] else hold - {c.username};
    assert forall i | 0 <= i < |rest| :: rest[i] == cs[i + 1] && rest[i].username != c.username;
    assert ChangesOk(rest);
    forall u | u in hold' && Untouched(rest, u) ensures hold'[u] == SiteSet(Some(t'.rows[u])) {
      if u != c.username {
        assert Untouched(cs, u) by {
          assert forall i | 0 < i < |cs| :: cs[i] == rest[i - 1];
        }
      }
    }
  }

  lemma {:induction false} GuardsHeld(t: Tables, cs: seq<Change>)
    requires OncePerUser(cs) && WriteAll(t, cs).Some?
    ensures forall i | 0 <= i < |cs| :: Current(t.rows, cs[i])
    decreases |cs|
  {
    if cs != [] {
      var rest := cs[1..];
      assert forall i | 0 <= i < |rest| :: rest[i] == cs[i + 1] && rest[i].username != cs[0].username;
      GuardsHeld(Write(t, cs[0]).value, rest);
      forall i | 0 <= i < |cs| ensures Current(t.rows, cs[i]) {
        if i > 0 { assert Current(Write(t, cs[0]).value.rows, rest[i - 1]); }
      }
    }
  }

  /** A committed transaction leaves the index equal to the projection of the accounts it leaves. */
  lemma TransactionKeepsIndex(t: Tables, cs: seq<Change>)
    requires IndexOk(t) && ChangesOk(cs) && Transaction(t, cs).Some?
    ensures IndexOk(Transaction(t, cs).value)
    ensures forall i | 0 <= i < |cs| :: Current(t.rows, cs[i])
  {
    var released := Tables(t.rows, ReleaseAll(t.tenantSites, cs));
    GuardsHeld(released, cs);
    var left := ReleasePhase(t.tenantSites, Assigned(t.rows), cs);
    WritePhase(released, left, cs);
  }

  // ---------------------------------------------------------------------------------------
  // When a transaction commits, and what it writes
  // ---------------------------------------------------------------------------------------

  ghost predicate NoSharedSites(rows: Rows) {
    forall u, v, s | u in rows && v in rows && s in rows[u].account.sites && s in rows[v].account.sites :: u == v
  }

  /** `after` has every change of `cs` and otherwise the rows of `rows`. */
  ghost predicate Carries(rows: Rows, cs: seq<Change>, after: Rows) {
    && (forall i | 0 <= i < |cs| ::
          if cs[i].next.Some? then cs[i].username in after && after[cs[i].username] == cs[i].next.value
          else cs[i].username !in after)
    && (forall u | Untouched(cs, u) :: (u in after <==> u in rows) && (u in rows ==> after[u] == rows[u]))
  }

  lemma CarriesNext(rows: Rows, cs: seq<Change>, after: Rows)
    requires cs != [] && OncePerUser(cs) && Carries(NewRows(rows, cs[0]), cs[1..], after)
    ensures Carries(rows, cs, after)
  {
    var rest := cs[1..];
    assert forall i | 0 < i < |cs| :: cs[i] == rest[i - 1] && cs[i].username != cs[0].username;
    assert Untouched(rest, cs[0].username);
    forall u | Untouched(cs, u) ensures Untouched(rest, u) && u != cs[0].username {
      assert cs[0].username != u;
    }
  }

  lemma {:induction false} WrittenRows(t: Tables, cs: seq<Change>)
    requires OncePerUser(cs) && WriteAll(t, cs).Some?
    ensures Carries(t.rows, cs, WriteAll(t, cs).value.rows)
    decreases |cs|
  {
    if cs != [] {
      var u := Write(t, cs[0]).value;
      assert OncePerUser(cs[1..]);
      WrittenRows(u, cs[1..]);
      CarriesNext(t.rows, cs, WriteAll(t, cs).value.rows);
    }
  }

  /** A committed transaction wrote every change, and no other row. */
  lemma TransactionRows(t: Tables, cs: seq<Change>)
    requires OncePerUser(cs) && Transaction(t, cs).Some?
    ensures Carries(t.rows, cs, Transaction(t, cs).value.rows)
  {
    WrittenRows(Tables(t.rows, ReleaseAll(t.tenantSites, cs)), cs);
  }

  lemma {:induction false} FreeSitesAreClaimed(index: SiteIndex, sites: seq<Site>, held: set<Site>, tenant: User)
    requires Distinct(sites) && forall s | s in sites && s in index :: s in held
    ensures ClaimAll(index, sites, held, tenant).Some?
    decreases |sites|
  {
    if sites != [] {
      var rest := sites[1..];
      assert sites[0] in sites && Distinct(rest) && forall s | s in rest :: s in sites && s != sites[0];
      FreeSitesAreClaimed(if sites[0] in held then index else index[sites[0] := tenant], rest, held, tenant);
    }
  }

  ghost predicate SitesDistinct(cs: seq<Change>) {
    forall i | 0 <= i < |cs| && cs[i].next.Some? :: Distinct(cs[i].next.value.account.sites)
  }

  /** Whatever is assigned midway stays with its account. */
  ghost predicate Within(hold: map<User, set<Site>>, after: Rows) {
    forall u, s | u in hold && s in hold[u] :: u in after && s in after[u].account.sites
  }

  lemma WriteSucceeds(t: Tables, hold: map<User, set<Site>>, c: Change, after: Rows)
    requires Indexes(t.tenantSites, hold) && Current(t.rows, c) && hold.Keys == t.rows.Keys
    requires c.previous.Some? ==> hold[c.username] == Kept(c)
    requires NoSharedSites(after) && Within(hold, after)
    requires c.next.Some? ==>
        && Distinct(c.next.value.account.sites)
        && c.username in after && after[c.username] == c.next.value
    ensures Write(t, c).Some?
  {
    if c.next.Some? {
      var sites := c.next.value.account.sites;
      forall s | s in sites && s in t.tenantSites ensures s in Held(c) {
        var v := t.tenantSites[s];
        assert v in hold && s in hold[v];
        assert v == c.username;
      }
      FreeSitesAreClaimed(t.tenantSites, sites, Held(c), c.next.value.account.tenant);
    }
  }

  lemma {:induction false} WritesSucceed(t: Tables, hold: map<User, set<Site>>, cs: seq<Change>, after: Rows)
    requires Midway(t, hold, cs) && (forall i | 0 <= i < |cs| :: Current(t.rows, cs[i])) && SitesDistinct(cs)
    requires NoSharedSites(after) && Within(hold, after) && Carries(t.rows, cs, after)
    ensures WriteAll(t, cs).Some?
    decreases |cs|
  {
    if cs != [] {
      var c, rest := cs[0], cs[1..];
      WriteSucceeds(t, hold, c, after);
      WriteKeepsIndex(t, hold, c);
      MidwayNext(t, hold, cs);
      var hold' := if c.next.Some? then hold[c.username := SiteSet(c.next)] else hold - {c.username};
      WithinNext(hold, c, after);
      RestCarried(t.rows, cs, after);
      RestCurrent(t.rows, cs);
      WritesSucceed(Write(t, c).value, hold', rest, after);
    }
  }

  lemma WithinNext(hold: map<User, set<Site>>, c: Change, after: Rows)
    requires Within(hold, after)
    requires c.next.Some? ==> c.username in after && after[c.username] == c.next.value
    ensures Within(if c.next.Some? then hold[c.username := SiteSet(c.next)] else hold - {c.username}, after)
  {
  }

  lemma RestCurrent(rows: Rows, cs: seq<Change>)
    requires cs != [] && OncePerUser(cs) && SitesDistinct(cs)
    requires forall i | 0 <= i < |cs| :: Current(rows, cs[i])
    ensures SitesDistinct(cs[1..]) && forall i | 0 <= i < |cs[1..]| :: Current(NewRows(rows, cs[0]), cs[1..][i])
  {
    var rest := cs[1..];
    assert forall i | 0 <= i < |rest| :: rest[i] == cs[i + 1] && rest[i].username != cs[0].username;
  }

  lemma RestCarried(rows: Rows, cs: seq<Change>, after: Rows)
    requires cs != [] && OncePerUser(cs) && Carries(rows, cs, after)
    ensures Carries(NewRows(rows, cs[0]), cs[1..], after)
  {
    var rest := cs[1..];
    assert forall i | 0 <= i < |rest| :: rest[i] == cs[i + 1];
    forall u | Untouched(rest, u) && u != cs[0].username ensures Untouched(cs, u) {
      assert forall i | 0 < i < |cs| :: cs[i] == rest[i - 1];
    }
  }

  lemma LeftIsWithin(t: Tables, left: map<User, set<Site>>, cs: seq<Change>, after: Rows)
    requires left.Keys == t.rows.Keys && Carries(t.rows, cs, after)
    requires forall i | 0 <= i < |cs| :: Current(t.rows, cs[i])
    requires forall i | 0 <= i < |cs| && cs[i].previous.Some? ::
      cs[i].username in left && left[cs[i].username] == Kept(cs[i])
    requires forall u | u in left && Untouched(cs, u) :: left[u] == SiteSet(Some(t.rows[u]))
    ensures Within(left, after)
  {
    forall u, s | u in left && s in left[u] ensures u in after && s in after[u].account.sites {
      if !Untouched(cs, u) {
        var i :| 0 <= i < |cs| && cs[i].username == u;
        assert Current(t.rows, cs[i]);
        assert s in Kept(cs[i]);
      }
    }
  }

  /**
    A transaction commits exactly when every row is still as its writer read it and afterwards no
    site would have two owners; `after` are the rows with all the changes.
  */
  lemma CommitsExactly(t: Tables, cs: seq<Change>, after: Rows)
    requires IndexOk(t) && ChangesOk(cs) && SitesDistinct(cs) && Carries(t.rows, cs, after)
    ensures Transaction(t, cs).Some? <==>
            (forall i | 0 <= i < |cs| :: Current(t.rows, cs[i])) && NoSharedSites(after)
    ensures Transaction(t, cs).Some? ==> Transaction(t, cs).value.rows == after
  {
    if Transaction(t, cs).Some? {
      TransactionKeepsIndex(t, cs);
      TransactionRows(t, cs);
      SameRows(t.rows, cs, Transaction(t, cs).value.rows, after);
      forall u, v, s | u in after && v in after && s in after[u].account.sites && s in after[v].account.sites
        ensures u == v
      {
        NoSharedSite(Transaction(t, cs).value, s, u, v);
      }
    }
    if (forall i | 0 <= i < |cs| :: Current(t.rows, cs[i])) && NoSharedSites(after) {
      var left := ReleasePhase(t.tenantSites, Assigned(t.rows), cs);
      LeftIsWithin(t, left, cs, after);
      WritesSucceed(Tables(t.rows, ReleaseAll(t.tenantSites, cs)), left, cs, after);
    }
  }

  lemma SameRows(rows: Rows, cs: seq<Change>, a: Rows, b: Rows)
    requires Carries(rows, cs, a) && Carries(rows, cs, b)
    ensures a == b
  {
    forall u ensures (u in a <==> u in b) && (u in a && u in b ==> a[u] == b[u]) {
      if !Untouched(cs, u) {
        var i :| 0 <= i < |cs| && cs[i].username == u;
      }
    }
  }

  /** With the index in step, no site has two owners. */
  lemma NoSharedSite(t: Tables, s: Site, u: User, v: User)
    requires IndexOk(t) && u in t.rows && v in t.rows
    requires s in t.rows[u].account.sites && s in t.rows[v].account.sites
    ensures u == v
  {
    var hold := Assigned(t.rows);
    assert s in hold[u] && s in hold[v];
    assert s in t.tenantSites && t.tenantSites[s] == u;
    assert s in t.tenantSites && t.tenantSites[s] == v;
  }
}
