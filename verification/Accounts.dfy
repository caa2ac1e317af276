/**
  Hosting accounts, their validation, and every mutation the account store offers, as functions
  of the account map the store has just refreshed.
*/
module Accounts {
  import opened Optional
  import opened Names

  type User = string
  type Site = string

  datatype Role = Owner | Manager | Developer | Viewer | Unknown(text: string)

  datatype Account = Account(
    username: User, tenant: User, role: Role, passwordHash: string, totp: string, recoveryCodes: seq<string>,
    generation: nat, passwordReset: bool, mfaEnrolment: bool, plan: string, sites: seq<Site>, suspended: bool,
    createdAt: nat)

  /** Formats this model does not look into: bcrypt hashes and base32 TOTP seeds. */
  datatype Formats = Formats(bcrypt: string -> bool, totp: string -> bool)

  function SiteLimit(plan: string): Option<nat> {
    if plan == "starter" then Some(1)
    else if plan == "professional" then Some(5)
    else if plan == "agency" then Some(25)
    else None
  }

  predicate Distinct(xs: seq<string>) {
    forall i, j | 0 <= i < j < |xs| :: xs[i] != xs[j]
  }

  /** `validateHostingAccount`. */
  predicate ValidAccount(f: Formats, a: Account, requireCreated: bool) {
    && SafeUser(a.username) != "" && a.passwordHash != "" && a.totp != ""
    && SafeUser(a.tenant) != ""
    && !a.role.Unknown?
    && (a.role.Owner? ==> a.tenant == a.username)
    && (!a.role.Owner? ==> a.sites == [])
    && f.bcrypt(a.passwordHash) && f.totp(a.totp)
    && SiteLimit(a.plan).Some? && |a.sites| <= SiteLimit(a.plan).value
    && (forall i | 0 <= i < |a.sites| :: SafeUser(a.sites[i]) != "")
    && Distinct(a.sites)
    && (requireCreated ==> a.createdAt != 0)
  }

  type Directory = map<User, Account>

  predicate ValidDirectory(f: Formats, d: Directory) {
    forall u | u in d :: d[u].username == u && ValidAccount(f, d[u], false)
  }

  datatype Mutation =
    | Create(username: User, passwordHash: string, totp: string, plan: string, sites: seq<Site>, now: nat)
    | CreateMember(tenant: User, username: User, passwordHash: string, totp: string, role: Role, now: nat)
    | UpdateMember(username: User, newRole: Option<Role>, suspend: Option<bool>)
    | Update(username: User, plan: string, sites: seq<Site>)
    | Assign(username: User, site: Site)
    | Unassign(username: User, site: Site)
    | SetSuspended(username: User, suspended: bool)
    | SetPassword(username: User, passwordHash: string)
    | SetTotp(username: User, totp: string, enrol: bool)
    | Recover(username: User, passwordHash: string, totp: string, codes: seq<string>)
    | SetRecoveryCodes(username: User, codes: seq<string>)
    | ConsumeRecoveryCode(username: User, index: nat)
    | RemoveLogin(username: User)

  /** Secrets the panel generates itself are well formed. */
  predicate WellGenerated(f: Formats, m: Mutation) {
    match m
    case SetPassword(_, hash) => hash != "" && f.bcrypt(hash)
    case SetTotp(_, totp, enrol) => enrol ==> totp != "" && f.totp(totp)
    case Recover(_, hash, totp, _) => hash != "" && f.bcrypt(hash) && totp != "" && f.totp(totp)
    case _ => true
  }

  predicate Unowned(d: Directory, except: User, sites: seq<Site>) {
    forall u | u in d && u != except :: forall i | 0 <= i < |d[u].sites| :: d[u].sites[i] !in sites
  }

  function Filter(sites: seq<Site>, site: Site): seq<Site> {
    if sites == [] then []
    else if sites[0] == site then Filter(sites[1..], site)
    else [sites[0]] + Filter(sites[1..], site)
  }

  function Suspend(a: Account, suspended: bool): Account {
    if a.suspended == suspended then a else a.(suspended := suspended, generation := a.generation + 1)
  }

  /** The account a mutation writes: None refuses it, Some(None) removes the account. */
  function Mutated(f: Formats, admin: User, d: Directory, m: Mutation): Option<Option<Account>> {
    match m
    case Create(username, hash, totp, plan, sites, now) =>
      var a := Account(username, username, Owner, hash, totp, [], 0, false, false, plan, sites, false, now);
      if ValidAccount(f, a, true) && username != admin && username !in d && Unowned(d, username, sites)
      then Some(Some(a)) else None
    case CreateMember(tenant, username, hash, totp, role, now) =>
      if tenant !in d || d[tenant].tenant != tenant || !d[tenant].role.Owner? || role.Owner?
         || username in d || username == admin
      then None
      else
        var a := Account(username, tenant, role, hash, totp, [], 0, false, false, d[tenant].plan, [], false, now);
        if ValidAccount(f, a, true) then Some(Some(a)) else None
    case RemoveLogin(username) => if username in d then Some(None) else None
    case _ =>
      if m.username !in d then None
      else match Edited(f, d, d[m.username], m)
        case None => None
        case Some(a) => Some(Some(a))
  }

  /** The mutations of one existing account. */
  function Edited(f: Formats, d: Directory, a: Account, m: Mutation): Option<Account>
    requires !m.Create? && !m.CreateMember? && !m.RemoveLogin?
  {
    match m
    case UpdateMember(_, role, suspend) =>
      if a.role.Owner? || (role.Some?
        && !(role.value.Manager? || role.value.Developer? || role.value.Viewer?)) then None
      else
        var b := if role.Some? then a.(role := role.value) else a;
        var c := if suspend.Some? then Suspend(b, suspend.value) else b;
        if ValidAccount(f, c, true) then Some(c) else None
    case Update(_, plan, sites) =>
      var b := a.(plan := plan, sites := sites);
      if a.role.Owner? && ValidAccount(f, b, true) && Unowned(d, a.username, sites) then Some(b) else None
    case Assign(_, site) =>
      var b := a.(sites := a.sites + [site]);
      if a.role.Owner? && !a.suspended && site !in a.sites && Unowned(d, a.username, [site]) && ValidAccount(f, b, true)
      then Some(b) else None
    case Unassign(_, site) => Some(a.(sites := Filter(a.sites, site)))
    case SetSuspended(_, suspended) => Some(Suspend(a, suspended))
    case SetPassword(_, hash) =>
      Some(a.(passwordHash := hash, passwordReset := false, generation := a.generation + 1))
    case SetTotp(_, totp, enrol) =>
      if totp != "" && f.totp(totp)
      then Some(a.(totp := totp, mfaEnrolment := enrol, generation := a.generation + 1)) else None
    case Recover(_, hash, totp, codes) =>
      Some(a.(passwordHash := hash, totp := totp, recoveryCodes := codes, passwordReset := true, mfaEnrolment := true,
              generation := a.generation + 1))
    case SetRecoveryCodes(_, codes) => Some(a.(recoveryCodes := codes, generation := a.generation + 1))
    case ConsumeRecoveryCode(_, index) =>
      if index < |a.recoveryCodes|
      then Some(a.(recoveryCodes := a.recoveryCodes[..index] + a.recoveryCodes[index + 1..])) else None
  }

  function NewDirectory(d: Directory, u: User, next: Option<Account>): Directory {
    if next.Some? then d[u := next.value] else d - {u}
  }

  // ---------------------------------------------------------------------------------------
  // Mutations keep accounts valid and sessions revoked
  // ---------------------------------------------------------------------------------------

  lemma {:induction false} FilterKeeps(sites: seq<Site>, site: Site)
    ensures forall s :: s in Filter(sites, site) <==> s in sites && s != site
    ensures Distinct(sites) ==> Distinct(Filter(sites, site))
    ensures |Filter(sites, site)| <= |sites|
  {
    if sites != [] {
      FilterKeeps(sites[1..], site);
      assert sites == [sites[0]] + sites[1..];
      if Distinct(sites) {
        assert Distinct(sites[1..]) && sites[0] !in sites[1..];
        var rest := Filter(sites[1..], site);
        assert forall i | 0 <= i < |rest| :: rest[i] in rest;
      }
    }
  }

  lemma UnassignKeepsValid(f: Formats, a: Account, site: Site)
    requires ValidAccount(f, a, false)
    ensures ValidAccount(f, a.(sites := Filter(a.sites, site)), false)
  {
    FilterKeeps(a.sites, site);
    var rest := Filter(a.sites, site);
    forall i | 0 <= i < |rest| ensures SafeUser(rest[i]) != "" {
      assert rest[i] in rest;
      var j :| 0 <= j < |a.sites| && a.sites[j] == rest[i];
    }
  }

  /** Edits of role, plan and sites are checked by validation itself. */
  lemma CheckedEditIsValid(f: Formats, d: Directory, a: Account, m: Mutation)
    requires (m.UpdateMember? || m.Update? || m.Assign?) && Edited(f, d, a, m).Some?
    ensures var b := Edited(f, d, a, m).value; b.username == a.username && ValidAccount(f, b, true)
  {
    if m.UpdateMember? {
      var b := if m.newRole.Some? then a.(role := m.newRole.value) else a;
      var c := if m.suspend.Some? then Suspend(b, m.suspend.value) else b;
      assert c.username == a.username && Edited(f, d, a, m) == Some(c);
    }
  }

  /** Edits of the credentials leave everything else as it is. */
  lemma CredentialEditIsValid(f: Formats, d: Directory, a: Account, m: Mutation)
    requires m.SetSuspended? || m.SetPassword? || m.SetTotp? || m.Recover? || m.SetRecoveryCodes?
             || m.ConsumeRecoveryCode?
    requires ValidAccount(f, a, false) && WellGenerated(f, m) && Edited(f, d, a, m).Some?
    ensures var b := Edited(f, d, a, m).value; b.username == a.username && ValidAccount(f, b, false)
  {
    assert Edited(f, d, a, m).value.sites == a.sites;
  }

  lemma EditIsValid(f: Formats, d: Directory, a: Account, m: Mutation)
    requires !m.Create? && !m.CreateMember? && !m.RemoveLogin?
    requires ValidAccount(f, a, false) && WellGenerated(f, m) && Edited(f, d, a, m).Some?
    ensures var b := Edited(f, d, a, m).value; b.username == a.username && ValidAccount(f, b, false)
  {
    if m.UpdateMember? || m.Update? || m.Assign? {
      CheckedEditIsValid(f, d, a, m);
    } else if m.Unassign? {
      UnassignKeepsValid(f, a, m.site);
    } else {
      CredentialEditIsValid(f, d, a, m);
    }
  }

  /** Every accepted mutation writes a valid account under its own name. */
  lemma MutatedIsValid(f: Formats, admin: User, d: Directory, m: Mutation)
    requires ValidDirectory(f, d) && WellGenerated(f, m)
    requires Mutated(f, admin, d, m).Some? && Mutated(f, admin, d, m).value.Some?
    ensures var a := Mutated(f, admin, d, m).value.value; a.username == m.username && ValidAccount(f, a, false)
  {
    if !m.Create? && !m.CreateMember? {
      assert d[m.username].username == m.username && ValidAccount(f, d[m.username], false);
      EditIsValid(f, d, d[m.username], m);
    }
  }

  // ---------------------------------------------------------------------------------------
  // What a mutation writes, and when it is refused
  // ---------------------------------------------------------------------------------------

  /** The session generation after an edit that may have changed the suspension. */
  function Revoked(a: Account, suspended: bool): nat {
    a.generation + if a.suspended != suspended then 1 else 0
  }

  /** Edits of one login: the fields they set, and that every other field stays. */
  lemma EditWrites(f: Formats, d: Directory, a: Account, m: Mutation)
    requires !m.Create? && !m.CreateMember? && !m.RemoveLogin? && Edited(f, d, a, m).Some?
    ensures var b := Edited(f, d, a, m).value;
            match m
            case Update(_, plan, sites) => b == a.(plan := plan, sites := sites)
            case Assign(_, site) => b == a.(sites := a.sites + [site])
            case Unassign(_, site) => b == a.(sites := b.sites)
            case SetSuspended(_, now) => b == a.(suspended := now, generation := Revoked(a, now))
            case SetPassword(_, hash) =>
              b == a.(passwordHash := hash, passwordReset := false, generation := a.generation + 1)
            case SetTotp(_, totp, enrol) => b == a.(totp := totp, mfaEnrolment := enrol, generation := a.generation + 1)
            case Recover(_, hash, totp, codes) =>
              b == a.(passwordHash := hash, totp := totp, recoveryCodes := codes, passwordReset := true,
                      mfaEnrolment := true, generation := a.generation + 1)
            case SetRecoveryCodes(_, codes) => b == a.(recoveryCodes := codes, generation := a.generation + 1)
            case ConsumeRecoveryCode(_, index) => b == a.(recoveryCodes := b.recoveryCodes)
            case UpdateMember(_, role, suspend) =>
              && (role.Some? ==> b.role == role.value) && (suspend.Some? ==> b.suspended == suspend.value)
              && b == a.(role := if role.Some? then b.role else a.role, suspended := b.suspended,
                         generation := Revoked(a, b.suspended))
              && (suspend.None? ==> b.suspended == a.suspended)
  {
    if m.UpdateMember? {
      MemberWrites(f, d, a, m);
    }
  }

  lemma MemberWrites(f: Formats, d: Directory, a: Account, m: Mutation)
    requires m.UpdateMember? && Edited(f, d, a, m).Some?
    ensures var b := Edited(f, d, a, m).value;
            var role := if m.newRole.Some? then m.newRole.value else a.role;
            var now := if m.suspend.Some? then m.suspend.value else a.suspended;
            b == a.(role := role, suspended := now, generation := Revoked(a, now))
  {
    var b := if m.newRole.Some? then a.(role := m.newRole.value) else a;
    var c := if m.suspend.Some? then Suspend(b, m.suspend.value) else b;
    assert Edited(f, d, a, m) == Some(c);
  }

  /** An unassigned site goes, and the others stay in their order. */
  lemma UnassignWrites(f: Formats, d: Directory, a: Account, m: Mutation, i: nat)
    requires m.Unassign? && Distinct(a.sites) && i <= |a.sites|
    requires if i < |a.sites| then a.sites[i] == m.site else m.site !in a.sites
    ensures Edited(f, d, a, m).Some?
    ensures Edited(f, d, a, m).value.sites == a.sites[..i] + if i < |a.sites| then a.sites[i + 1..] else []
  {
    if i < |a.sites| {
      FilterAt(a.sites, m.site, i);
    } else {
      FilterAbsent(a.sites, m.site);
    }
  }

  lemma {:induction false} FilterAbsent(sites: seq<Site>, site: Site)
    requires site !in sites
    ensures Filter(sites, site) == sites
  {
    if sites != [] {
      FilterAbsent(sites[1..], site);
    }
  }

  lemma {:induction false} FilterAt(sites: seq<Site>, site: Site, i: nat)
    requires Distinct(sites) && i < |sites| && sites[i] == site
    ensures Filter(sites, site) == sites[..i] + sites[i + 1..]
  {
    if i == 0 {
      FilterAbsent(sites[1..], site);
    } else {
      FilterAt(sites[1..], site, i - 1);
      assert sites[1..][..i - 1] == sites[1..i] && sites[1..][i..] == sites[i + 1..];
      assert sites[..i] == [sites[0]] + sites[1..i];
    }
  }

  /** A used recovery code goes, and the others stay in their order. */
  lemma ConsumeWrites(f: Formats, d: Directory, a: Account, m: Mutation, k: nat)
    requires m.ConsumeRecoveryCode? && m.index < |a.recoveryCodes| && k < |a.recoveryCodes| - 1
    ensures Edited(f, d, a, m).Some?
    ensures var codes := Edited(f, d, a, m).value.recoveryCodes;
            |codes| == |a.recoveryCodes| - 1 && codes[k] == a.recoveryCodes[if k < m.index then k else k + 1]
  {
  }

  /** Sites that an account of this plan may hold. */
  predicate SitesFit(plan: string, sites: seq<Site>) {
    && plan in {"starter", "professional", "agency"}
    && |sites| <= (if plan == "starter" then 1 else if plan == "professional" then 5 else 25)
    && Distinct(sites) && forall i | 0 <= i < |sites| :: SafeUser(sites[i]) != ""
  }

  predicate OwnedByAnother(d: Directory, user: User, site: Site) {
    exists u | u in d && u != user :: site in d[u].sites
  }

  /** When an edit of a valid account is refused. */
  lemma EditRefusedExactly(f: Formats, d: Directory, a: Account, m: Mutation)
    requires !m.Create? && !m.CreateMember? && !m.RemoveLogin? && ValidAccount(f, a, false)
    ensures Edited(f, d, a, m).None? <==>
            match m
            case UpdateMember(_, role, _) =>
              a.role.Owner? || a.createdAt == 0 || (role.Some? && (role.value.Owner? || role.value.Unknown?))
            case Update(_, plan, sites) =>
              || !a.role.Owner? || a.createdAt == 0 || !SitesFit(plan, sites)
              || exists s | s in sites :: OwnedByAnother(d, a.username, s)
            case Assign(_, site) =>
              || !a.role.Owner? || a.createdAt == 0 || a.suspended || site in a.sites
              || !SitesFit(a.plan, a.sites + [site]) || OwnedByAnother(d, a.username, site)
            case SetTotp(_, totp, _) => totp == "" || !f.totp(totp)
            case ConsumeRecoveryCode(_, index) => index >= |a.recoveryCodes|
            case _ => false
  {
    match m {
      case UpdateMember(_, role, suspend) => MemberRefusedExactly(f, d, a, m);
      case Update(_, _, sites) => UnownedExactly(d, a.username, sites);
      case Assign(_, site) => UnownedExactly(d, a.username, [site]);
      case _ =>
    }
  }

  lemma MemberRefusedExactly(f: Formats, d: Directory, a: Account, m: Mutation)
    requires m.UpdateMember? && ValidAccount(f, a, false)
    ensures Edited(f, d, a, m).None? <==>
            || a.role.Owner? || a.createdAt == 0
            || (m.newRole.Some? && (m.newRole.value.Owner? || m.newRole.value.Unknown?))
  {
    var b := if m.newRole.Some? then a.(role := m.newRole.value) else a;
    var c := if m.suspend.Some? then Suspend(b, m.suspend.value) else b;
    assert c.sites == a.sites && c.createdAt == a.createdAt && c.role == b.role;
  }

  lemma UnownedExactly(d: Directory, user: User, sites: seq<Site>)
    ensures Unowned(d, user, sites) <==> forall s | s in sites :: !OwnedByAnother(d, user, s)
  {
    if Unowned(d, user, sites) {
      forall s | s in sites ensures !OwnedByAnother(d, user, s) {
        assert forall u | u in d && u != user :: s !in d[u].sites;
      }
    }
    if forall s | s in sites :: !OwnedByAnother(d, user, s) {
      forall u, i | u in d && u != user && 0 <= i < |d[u].sites| ensures d[u].sites[i] !in sites {
        assert d[u].sites[i] in d[u].sites;
      }
    }
  }

  /** Creation and removal: what they write, and when they are refused. */
  lemma CreationWrites(f: Formats, admin: User, d: Directory, m: Mutation)
    requires m.Create? || m.CreateMember? || m.RemoveLogin?
    ensures var r := Mutated(f, admin, d, m);
            match m
            case Create(username, hash, totp, plan, sites, now) =>
              && (r.None? <==>
                    || SafeUser(username) == "" || username == admin || username in d || now == 0
                    || hash == "" || !f.bcrypt(hash) || totp == "" || !f.totp(totp) || !SitesFit(plan, sites)
                    || exists s | s in sites :: OwnedByAnother(d, username, s))
              && (r.Some? ==>
                    r.value == Some(Account(username, username, Owner, hash, totp, [], 0, false, false, plan, sites,
                                            false, now)))
            case CreateMember(tenant, username, hash, totp, role, now) =>
              && (r.Some? ==>
                    && tenant in d
                    && r.value == Some(Account(username, tenant, role, hash, totp, [], 0, false, false, d[tenant].plan,
                                               [], false, now)))
              && ((tenant in d ==> ValidAccount(f, d[tenant], false)) ==>
                    (r.None? <==>
                       || tenant !in d || !d[tenant].role.Owner? || d[tenant].tenant != tenant
                       || SafeUser(username) == "" || username == admin || username in d || now == 0
                       || hash == "" || !f.bcrypt(hash) || totp == "" || !f.totp(totp) || role.Owner? || role.Unknown?))
            case RemoveLogin(username) => r == if username in d then Some(None) else None
            case _ => true
  {
    if m.Create? {
      UnownedExactly(d, m.username, m.sites);
    }
  }

  /** An edit is the edit of the stored account, refused without one. */
  lemma EditIsOfStored(f: Formats, admin: User, d: Directory, m: Mutation)
    requires !m.Create? && !m.CreateMember? && !m.RemoveLogin?
    ensures Mutated(f, admin, d, m).Some? <==> m.username in d && Edited(f, d, d[m.username], m).Some?
    ensures Mutated(f, admin, d, m).Some? ==>
              Mutated(f, admin, d, m).value == Some(Edited(f, d, d[m.username], m).value)
  {
  }

  /** What an old session must not survive. */
  predicate CredentialsChanged(a: Account, b: Account) {
    a.suspended != b.suspended || a.passwordHash != b.passwordHash || a.totp != b.totp
  }

  lemma EditRaisesGeneration(f: Formats, d: Directory, a: Account, m: Mutation)
    requires !m.Create? && !m.CreateMember? && !m.RemoveLogin?
    requires Edited(f, d, a, m).Some?
    ensures var b := Edited(f, d, a, m).value;
            a.generation <= b.generation && (CredentialsChanged(a, b) ==> a.generation < b.generation)
  {
    match m {
      case UpdateMember(_, role, suspend) =>
        var b := if role.Some? then a.(role := role.value) else a;
        assert b.generation == a.generation && b.suspended == a.suspended;
      case _ =>
    }
  }

  /** No mutation lowers an account's session generation, and every credential change raises it. */
  lemma MutationRaisesGeneration(f: Formats, admin: User, d: Directory, m: Mutation)
    requires m.username in d
    requires Mutated(f, admin, d, m).Some? && Mutated(f, admin, d, m).value.Some?
    ensures var a, b := d[m.username], Mutated(f, admin, d, m).value.value;
            && a.generation <= b.generation
            && (CredentialsChanged(a, b) ==> a.generation < b.generation)
  {
    assert !m.Create? && !m.CreateMember? && !m.RemoveLogin?;
    EditRaisesGeneration(f, d, d[m.username], m);
  }
}
