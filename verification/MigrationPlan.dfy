/**
  The destination plan of a cPanel import: where every source domain lands, and why a plan that
  was approved stays the same while its own domains are being placed.
*/
module MigrationPlan {
  import opened Optional
  import opened Names

  type Site = string

  const ATTEMPTS := 99

  // ---------------------------------------------------------------------------------------
  // Site names
  // ---------------------------------------------------------------------------------------

  function LowerChar(c: char): char {
    if 'A' <= c <= 'Z' then c - 'A' + 'a' else c
  }

  function Lower(s: string): string {
    seq(|s|, i requires 0 <= i < |s| => LowerChar(s[i]))
  }

  function DotsToDashes(s: string): string {
    seq(|s|, i requires 0 <= i < |s| => if s[i] == '.' then '-' else s[i])
  }

  function DropLeadingDashes(s: string): string {
    if s != "" && s[0] == '-' then DropLeadingDashes(s[1..]) else s
  }

  function DropTrailingDashes(s: string): string {
    if s != "" && s[|s| - 1] == '-' then DropTrailingDashes(s[..|s| - 1]) else s
  }

  function BaseName(domain: string): string {
    var base := DropTrailingDashes(DropLeadingDashes(DotsToDashes(Lower(domain))));
    if |base| > NAME_LIMIT then DropTrailingDashes(base[..NAME_LIMIT]) else base
  }

  function Decimal(n: nat): string {
    var digit := ('0' as int + n % 10) as char;
    if n < 10 then [digit] else Decimal(n / 10) + [digit]
  }

  /** The name tried at an attempt: the base, then the base with "-2", "-3" and so on within the limit. */
  function CandidateName(base: string, attempt: nat): string {
    if attempt <= 1 then base
    else
      var suffix := "-" + Decimal(attempt);
      if |base| + |suffix| > NAME_LIMIT && |suffix| <= NAME_LIMIT && NAME_LIMIT - |suffix| <= |base| then
        DropTrailingDashes(base[..NAME_LIMIT - |suffix|]) + suffix
      else
        base + suffix
  }

  predicate Usable(name: string, taken: set<Site>) {
    SafeUser(name) == name && name !in taken
  }

  /** The first usable candidate from `attempt` on. */
  function FirstFree(base: string, taken: set<Site>, attempt: nat): (r: Option<Site>)
    decreases ATTEMPTS + 1 - attempt, |base|
  {
    if attempt > ATTEMPTS then None
    else if Usable(CandidateName(base, attempt), taken) then Some(CandidateName(base, attempt))
    else FirstFree(base, taken, attempt + 1)
  }

  function SiteName(domain: string, taken: set<Site>): Option<Site> {
    if BaseName(domain) == "" then None else FirstFree(BaseName(domain), taken, 1)
  }

  /** `siteNameForDomain`. */
  method SiteNameForDomain(domain: string, taken: set<Site>) returns (r: Option<Site>)
    ensures r == SiteName(domain, taken)
  {
    var base := BaseName(domain);
    if base == "" {
      return None;
    }
    var attempt := 1;
    while attempt <= ATTEMPTS
      invariant 1 <= attempt <= ATTEMPTS + 1
      invariant SiteName(domain, taken) == FirstFree(base, taken, attempt)
    {
      var name := CandidateName(base, attempt);
      if SafeUser(name) == name && name !in taken {
        return Some(name);
      }
      attempt := attempt + 1;
    }
    r := None;
  }

  lemma {:induction false} FirstFreeIsUsable(base: string, taken: set<Site>, attempt: nat)
    ensures FirstFree(base, taken, attempt).Some? ==> Usable(FirstFree(base, taken, attempt).value, taken)
    decreases ATTEMPTS + 1 - attempt, |base|
  {
    if attempt <= ATTEMPTS {
      FirstFreeIsUsable(base, taken, attempt + 1);
    }
  }

  /** More taken names do not move the choice unless they include it. */
  lemma {:induction false} FirstFreeIsStable(base: string, taken: set<Site>, more: set<Site>, attempt: nat)
    requires FirstFree(base, taken, attempt).Some? ==> FirstFree(base, taken, attempt).value !in more
    ensures FirstFree(base, taken + more, attempt) == FirstFree(base, taken, attempt)
    decreases ATTEMPTS + 1 - attempt, |base|
  {
    if attempt <= ATTEMPTS && !Usable(CandidateName(base, attempt), taken) {
      FirstFreeIsStable(base, taken, more, attempt + 1);
    }
  }

  lemma SiteNameIsUsable(domain: string, taken: set<Site>)
    ensures SiteName(domain, taken).Some? ==> Usable(SiteName(domain, taken).value, taken)
  {
    FirstFreeIsUsable(BaseName(domain), taken, 1);
  }

  lemma SiteNameIsStable(domain: string, taken: set<Site>, wider: set<Site>)
    requires taken <= wider
    requires SiteName(domain, taken).Some? ==> SiteName(domain, taken).value !in wider - taken
    ensures SiteName(domain, wider) == SiteName(domain, taken)
  {
    assert taken + (wider - taken) == wider;
    if BaseName(domain) != "" {
      FirstFreeIsStable(BaseName(domain), taken, wider - taken, 1);
    }
  }

  // ---------------------------------------------------------------------------------------
  // The plan
  // ---------------------------------------------------------------------------------------

  datatype Kind = Main | Parked | Addon | Subdomain | Unknown

  /** A source domain; `destination` is the text the archive inspection left. */
  datatype Mapping = Mapping(domain: string, kind: Kind, destination: string)

  /** The account's placements by lower-cased domain, and every site name in use. */
  datatype World = World(placements: map<string, Site>, taken: set<Site>)

  datatype Landing = Account | Untouched | Existing(site: Site) | New(site: Site) | Blocked

  predicate OwnSite(m: Mapping) {
    m.kind == Addon || m.kind == Subdomain
  }

  /** How a free name is chosen for a domain, given the taken names. */
  type Namer = (string, set<Site>) -> Option<Site>

  /** The name chosen is usable, and more taken names do not move the choice unless they include it. */
  ghost predicate NamerOk(f: Namer) {
    && (forall d, taken :: f(d, taken).Some? ==> Usable(f(d, taken).value, taken))
    && (forall d, taken, wider | taken <= wider && (f(d, taken).Some? ==> f(d, taken).value !in wider) ::
          f(d, wider) == f(d, taken))
  }

  /** `siteNameForDomain` is such a choice. */
  lemma SiteNameIsNamer()
    ensures NamerOk(SiteName)
  {
    forall d, taken ensures SiteName(d, taken).Some? ==> Usable(SiteName(d, taken).value, taken) {
      SiteNameIsUsable(d, taken);
    }
    forall d, taken, wider | taken <= wider && (SiteName(d, taken).Some? ==> SiteName(d, taken).value !in wider)
      ensures SiteName(d, wider) == SiteName(d, taken)
    {
      SiteNameIsStable(d, taken, wider);
    }
  }

  function Decide(f: Namer, w: World, user: Site, m: Mapping, planned: set<Site>): Landing {
    if m.kind == Main || m.kind == Parked then Account
    else if !OwnSite(m) then Untouched
    else if Lower(m.domain) in w.placements then Existing(w.placements[Lower(m.domain)])
    else match f(m.domain, planned + {user} + w.taken)
      case Some(name) => New(name)
      case None => Blocked
  }

  /** The new names among the first `n` landings. */
  function NewNames(plan: seq<Landing>, n: nat): set<Site>
    requires n <= |plan|
  {
    set j | 0 <= j < n && plan[j].New? :: plan[j].site
  }

  /** Every domain lands where the names planned before it let it. */
  ghost predicate IsPlan(f: Namer, w: World, user: Site, ms: seq<Mapping>, plan: seq<Landing>) {
    |plan| == |ms| && forall j | 0 <= j < |ms| :: plan[j] == Decide(f, w, user, ms[j], NewNames(plan, j))
  }

  lemma NewNamesNext(plan: seq<Landing>, l: Landing)
    ensures NewNames(plan + [l], |plan| + 1) == NewNames(plan, |plan|) + if l.New? then {l.site} else {}
    ensures forall j | 0 <= j <= |plan| :: NewNames(plan + [l], j) == NewNames(plan, j)
  {
    var next := plan + [l];
    assert next[|plan|] == l;
    forall x | x in NewNames(plan, |plan|) ensures x in NewNames(next, |plan| + 1) {
      var j :| 0 <= j < |plan| && plan[j].New? && plan[j].site == x;
      assert next[j] == plan[j];
    }
    forall j | 0 <= j <= |plan| ensures NewNames(next, j) == NewNames(plan, j) {
      assert forall i | 0 <= i < j :: next[i] == plan[i];
    }
  }

  lemma PlanNext(f: Namer, w: World, user: Site, ms: seq<Mapping>, plan: seq<Landing>)
    requires |plan| < |ms| && IsPlan(f, w, user, ms[..|plan|], plan)
    ensures var next := plan + [Decide(f, w, user, ms[|plan|], NewNames(plan, |plan|))];
            IsPlan(f, w, user, ms[..|plan| + 1], next)
  {
    var l := Decide(f, w, user, ms[|plan|], NewNames(plan, |plan|));
    var next := plan + [l];
    NewNamesNext(plan, l);
    forall j | 0 <= j < |next| ensures next[j] == Decide(f, w, user, ms[..|plan| + 1][j], NewNames(next, j)) {
      if j < |plan| {
        assert ms[..|plan|][j] == ms[j];
      }
    }
  }

  /** The mapping loop of `makeCPMoveDestinationPlan`. */
  method PlanDestinations(w: World, user: Site, ms: seq<Mapping>) returns (plan: seq<Landing>)
    ensures IsPlan(SiteName, w, user, ms, plan)
  {
    plan := [];
    var planned: set<Site> := {};
    for i := 0 to |ms|
      invariant |plan| == i && planned == NewNames(plan, i)
      invariant IsPlan(SiteName, w, user, ms[..i], plan)
    {
      var m := ms[i];
      var landing;
      if m.kind == Main || m.kind == Parked {
        landing := Account;
      } else if m.kind != Addon && m.kind != Subdomain {
        landing := Untouched;
      } else if Lower(m.domain) in w.placements {
        landing := Existing(w.placements[Lower(m.domain)]);
      } else {
        var name := SiteNameForDomain(m.domain, planned + {user} + w.taken);
        landing := if name.Some? then New(name.value) else Blocked;
      }
      PlanNext(SiteName, w, user, ms, plan);
      NewNamesNext(plan, landing);
      if landing.New? {
        planned := planned + {landing.site};
      }
      plan := plan + [landing];
    }
    assert ms[..|ms|] == ms;
  }

  /** There is one plan. */
  lemma {:induction false} PlanIsUnique(f: Namer, w: World, user: Site, ms: seq<Mapping>, plan: seq<Landing>,
                                        plan': seq<Landing>, n: nat)
    requires IsPlan(f, w, user, ms, plan) && IsPlan(f, w, user, ms, plan') && n <= |ms|
    ensures plan[..n] == plan'[..n] && NewNames(plan, n) == NewNames(plan', n)
  {
    if n > 0 {
      PlanIsUnique(f, w, user, ms, plan, plan', n - 1);
      assert plan[..n] == plan[..n - 1] + [plan[n - 1]];
      assert plan'[..n] == plan'[..n - 1] + [plan'[n - 1]];
      assert forall j | 0 <= j < n :: plan[j] == plan[..n][j] && plan'[j] == plan'[..n][j];
    }
  }

  /** What the digest covers of one domain. */
  datatype Entry = Entry(domain: string, kind: Kind, destination: string)

  function SiteText(user: Site, site: Site): string {
    "site " + site + " (account " + user + ")"
  }

  function DestinationText(user: Site, m: Mapping, l: Landing): string {
    match l
    case Account => "account " + user + " / public_html"
    case Existing(site) => SiteText(user, site)
    case New(site) => SiteText(user, site)
    case Untouched => m.destination
    case Blocked => m.destination
  }

  /** The plan's entries; the digest is a hash of their sorted list. */
  function Entries(user: Site, ms: seq<Mapping>, plan: seq<Landing>): seq<Entry>
    requires |plan| == |ms|
  {
    seq(|ms|, j requires 0 <= j < |ms| => Entry(Lower(ms[j].domain), ms[j].kind, DestinationText(user, ms[j], plan[j])))
  }

  predicate NothingBlocked(plan: seq<Landing>) {
    forall j | 0 <= j < |plan| :: !plan[j].Blocked?
  }

  /** `revalidateApprovedCPMovePlan`, on the mappings: unblocked and unchanged. */
  predicate Revalidated(user: Site, ms: seq<Mapping>, plan: seq<Landing>, approved: seq<Entry>)
    requires |plan| == |ms|
  {
    NothingBlocked(plan) && Entries(user, ms, plan) == approved
  }

  /** A planned new name is valid, free, and different from the account and from every name planned before. */
  lemma NewNameIsFresh(f: Namer, w: World, user: Site, ms: seq<Mapping>, plan: seq<Landing>, j: nat)
    requires NamerOk(f) && IsPlan(f, w, user, ms, plan) && j < |ms| && plan[j].New?
    ensures var n := plan[j].site; SafeUser(n) == n && n !in w.taken && n != user && n !in NewNames(plan, j)
  {
  }

  lemma NewNamesAreDistinct(f: Namer, w: World, user: Site, ms: seq<Mapping>, plan: seq<Landing>, i: nat, j: nat)
    requires NamerOk(f) && IsPlan(f, w, user, ms, plan) && i < j < |ms| && plan[i].New? && plan[j].New?
    ensures plan[i].site != plan[j].site
  {
    NewNameIsFresh(f, w, user, ms, plan, j);
    assert plan[i].site in NewNames(plan, j);
  }

  // ---------------------------------------------------------------------------------------
  // Rebuilding the plan while it is carried out
  // ---------------------------------------------------------------------------------------

  predicate DistinctDomains(ms: seq<Mapping>) {
    forall i, j | 0 <= i < j < |ms| && OwnSite(ms[i]) && OwnSite(ms[j]) :: Lower(ms[i].domain) != Lower(ms[j].domain)
  }

  /** `placed` are domains for which the plan chose a new site. */
  predicate PlannedNew(plan: seq<Landing>, placed: set<nat>) {
    forall i | i in placed :: i < |plan| && plan[i].New?
  }

  function PlacedNames(plan: seq<Landing>, placed: set<nat>): set<Site>
    requires PlannedNew(plan, placed)
  {
    set i | i in placed :: plan[i].site
  }

  /**
    `w'` is `w` after some of the plan's domains were placed at their planned sites and other
    names (`foreign`) were taken by someone else.
  */
  ghost predicate After(w: World, w': World, ms: seq<Mapping>, plan: seq<Landing>, placed: set<nat>, foreign: set<Site>)
    requires |plan| == |ms|
  {
    && PlannedNew(plan, placed)
    && w'.taken == w.taken + PlacedNames(plan, placed) + foreign
    && (forall d | d in w.placements :: d in w'.placements && w'.placements[d] == w.placements[d])
    && (forall i | i in placed ::
          Lower(ms[i].domain) in w'.placements && w'.placements[Lower(ms[i].domain)] == plan[i].site)
    && (forall d | d in w'.placements && d !in w.placements :: PlacedDomain(ms, placed, d))
  }

  ghost predicate PlacedDomain(ms: seq<Mapping>, placed: set<nat>, d: string) {
    exists i | i in placed && i < |ms| :: Lower(ms[i].domain) == d
  }

  /** No foreign name is the planned name of a domain still to be placed. */
  ghost predicate Undisturbed(plan: seq<Landing>, placed: set<nat>, foreign: set<Site>) {
    forall j | 0 <= j < |plan| && j !in placed && plan[j].New? :: plan[j].site !in foreign
  }

  /** What planning again must give: placed domains are found, the others land where they did. */
  function Again(plan: seq<Landing>, placed: set<nat>, j: nat): Landing
    requires j < |plan|
  {
    if j in placed && plan[j].New? then Existing(plan[j].site) else plan[j]
  }

  /** No domain still to be placed is also listed as a domain that was placed. */
  ghost predicate NoTwin(ms: seq<Mapping>, placed: set<nat>) {
    forall j | 0 <= j < |ms| && OwnSite(ms[j]) && j !in placed :: !PlacedDomain(ms, placed, Lower(ms[j].domain))
  }

  lemma DistinctDomainsHaveNoTwin(f: Namer, w: World, user: Site, ms: seq<Mapping>, plan: seq<Landing>,
                                  placed: set<nat>)
    requires DistinctDomains(ms) && IsPlan(f, w, user, ms, plan) && PlannedNew(plan, placed)
    ensures NoTwin(ms, placed)
  {
    NewIsOwn(f, w, user, ms, plan);
    forall i, j | i in placed && 0 <= j < |ms| && OwnSite(ms[j]) && j !in placed
      ensures Lower(ms[i].domain) != Lower(ms[j].domain)
    {
      assert plan[i].New?;
    }
  }

  /** The first `n` domains landed as they should when the plan was built again. */
  ghost predicate AgainUpTo(plan: seq<Landing>, plan': seq<Landing>, placed: set<nat>, n: nat) {
    n <= |plan| == |plan'| && forall i | 0 <= i < n :: plan'[i] == Again(plan, placed, i)
  }

  lemma TakenAgain(plan: seq<Landing>, plan': seq<Landing>, placed: set<nat>, j: nat)
    requires PlannedNew(plan, placed) && AgainUpTo(plan, plan', placed, j)
    ensures NewNames(plan, j) <= NewNames(plan', j) + PlacedNames(plan, placed)
    ensures NewNames(plan', j) <= NewNames(plan, j)
  {
    forall x | x in NewNames(plan, j) ensures x in NewNames(plan', j) + PlacedNames(plan, placed) {
      var i :| 0 <= i < j && plan[i].New? && plan[i].site == x;
      assert plan'[i] == Again(plan, placed, i);
    }
    forall x | x in NewNames(plan', j) ensures x in NewNames(plan, j) {
      var i :| 0 <= i < j && plan'[i].New? && plan'[i].site == x;
      assert plan'[i] == Again(plan, placed, i);
    }
  }

  lemma NotAmongPlaced(f: Namer, w: World, user: Site, ms: seq<Mapping>, plan: seq<Landing>, placed: set<nat>, j: nat)
    requires NamerOk(f) && IsPlan(f, w, user, ms, plan) && PlannedNew(plan, placed)
    requires j < |ms| && plan[j].New? && j !in placed
    ensures plan[j].site !in PlacedNames(plan, placed)
  {
    forall i | i in placed ensures plan[i].site != plan[j].site {
      if i < j {
        NewNamesAreDistinct(f, w, user, ms, plan, i, j);
      } else {
        NewNamesAreDistinct(f, w, user, ms, plan, j, i);
      }
    }
  }

  /** A domain that needs a new name, again: the same choice. */
  lemma ChoiceAgain(f: Namer, w: World, w': World, user: Site, ms: seq<Mapping>, plan: seq<Landing>,
                    plan': seq<Landing>,
                    placed: set<nat>, foreign: set<Site>, j: nat)
    requires NamerOk(f) && IsPlan(f, w, user, ms, plan) && |plan'| == |plan|
    requires After(w, w', ms, plan, placed, foreign) && Undisturbed(plan, placed, foreign)
    requires j < |ms| && j !in placed && AgainUpTo(plan, plan', placed, j)
    requires OwnSite(ms[j]) && Lower(ms[j].domain) !in w.placements
    ensures f(ms[j].domain, NewNames(plan', j) + {user} + w'.taken) ==
          f(ms[j].domain, NewNames(plan, j) + {user} + w.taken)
  {
    var before := NewNames(plan, j) + {user} + w.taken;
    var again := NewNames(plan', j) + {user} + w'.taken;
    TakenAgain(plan, plan', placed, j);
    Wider(NewNames(plan, j), NewNames(plan', j), PlacedNames(plan, placed), w.taken, w'.taken, user);
    assert plan[j] == Decide(f, w, user, ms[j], NewNames(plan, j));
    if plan[j].New? {
      NewNameIsFresh(f, w, user, ms, plan, j);
      NotAmongPlaced(f, w, user, ms, plan, placed, j);
    }
    SameChoice(f, ms[j].domain, before, again);
  }

  lemma SameChoice(f: Namer, domain: string, taken: set<Site>, wider: set<Site>)
    requires NamerOk(f) && taken <= wider && (f(domain, taken).Some? ==> f(domain, taken).value !in wider)
    ensures f(domain, wider) == f(domain, taken)
  {
  }

  lemma Wider(planned: set<Site>, planned': set<Site>, placed: set<Site>, taken: set<Site>, taken': set<Site>,
              user: Site)
    requires planned <= planned' + placed && taken + placed <= taken'
    ensures planned + {user} + taken <= planned' + {user} + taken'
  {
  }

  lemma LandsAgain(f: Namer, w: World, w': World, user: Site, ms: seq<Mapping>, plan: seq<Landing>, plan': seq<Landing>,
                   placed: set<nat>, foreign: set<Site>, j: nat)
    requires NamerOk(f) && NoTwin(ms, placed) && IsPlan(f, w, user, ms, plan) && IsPlan(f, w', user, ms, plan')
    requires After(w, w', ms, plan, placed, foreign) && Undisturbed(plan, placed, foreign)
    requires j < |ms| && AgainUpTo(plan, plan', placed, j)
    ensures plan'[j] == Again(plan, placed, j)
  {
    assert plan[j] == Decide(f, w, user, ms[j], NewNames(plan, j));
    assert plan'[j] == Decide(f, w', user, ms[j], NewNames(plan', j));
    if OwnSite(ms[j]) && j !in placed && Lower(ms[j].domain) !in w.placements {
      ChoiceAgain(f, w, w', user, ms, plan, plan', placed, foreign, j);
    }
  }

  lemma NewIsOwn(f: Namer, w: World, user: Site, ms: seq<Mapping>, plan: seq<Landing>)
    requires IsPlan(f, w, user, ms, plan)
    ensures forall i | 0 <= i < |ms| && plan[i].New? :: OwnSite(ms[i])
  {
  }

  lemma {:induction false} AllLandAgain(f: Namer, w: World, w': World, user: Site, ms: seq<Mapping>,
                                        plan: seq<Landing>, plan': seq<Landing>,
                                        placed: set<nat>, foreign: set<Site>, n: nat)
    requires NamerOk(f) && NoTwin(ms, placed) && IsPlan(f, w, user, ms, plan) && IsPlan(f, w', user, ms, plan')
    requires After(w, w', ms, plan, placed, foreign) && Undisturbed(plan, placed, foreign) && n <= |ms|
    ensures AgainUpTo(plan, plan', placed, n)
  {
    if n > 0 {
      AllLandAgain(f, w, w', user, ms, plan, plan', placed, foreign, n - 1);
      LandsAgain(f, w, w', user, ms, plan, plan', placed, foreign, n - 1);
      OneMore(plan, plan', placed, n - 1);
    }
  }

  lemma OneMore(plan: seq<Landing>, plan': seq<Landing>, placed: set<nat>, n: nat)
    requires AgainUpTo(plan, plan', placed, n) && n < |plan| && plan'[n] == Again(plan, placed, n)
    ensures AgainUpTo(plan, plan', placed, n + 1)
  {
  }

  lemma SameEntries(user: Site, ms: seq<Mapping>, plan: seq<Landing>, plan': seq<Landing>, placed: set<nat>)
    requires |plan| == |ms| && AgainUpTo(plan, plan', placed, |ms|)
    ensures Entries(user, ms, plan') == Entries(user, ms, plan)
  {
    forall j | 0 <= j < |ms| ensures DestinationText(user, ms[j], plan'[j]) == DestinationText(user, ms[j], plan[j]) {
      assert plan'[j] == Again(plan, placed, j);
    }
  }

  /** A planned name that someone else took is noticed. */
  lemma TakenNameIsNoticed(f: Namer, w: World, w': World, user: Site, ms: seq<Mapping>, plan: seq<Landing>,
                           plan': seq<Landing>,
                           placed: set<nat>, foreign: set<Site>, j: nat)
    requires NamerOk(f) && NoTwin(ms, placed) && IsPlan(f, w, user, ms, plan) && IsPlan(f, w', user, ms, plan')
    requires After(w, w', ms, plan, placed, foreign)
    requires j < |ms| && j !in placed && plan[j].New? && plan[j].site in foreign
    ensures !Revalidated(user, ms, plan', Entries(user, ms, plan))
  {
    NewIsOwn(f, w, user, ms, plan);
    assert plan[j] == Decide(f, w, user, ms[j], NewNames(plan, j));
    assert plan'[j] == Decide(f, w', user, ms[j], NewNames(plan', j));
    if plan'[j].New? {
      NewNameIsFresh(f, w', user, ms, plan', j);
      SiteTextDiffers(user, plan[j].site, plan'[j].site);
      assert Entries(user, ms, plan')[j].destination != Entries(user, ms, plan)[j].destination;
    }
  }

  lemma SiteTextDiffers(user: Site, a: Site, b: Site)
    requires a != b
    ensures SiteText(user, a) != SiteText(user, b)
  {
    var tail := " (account " + user + ")";
    assert |SiteText(user, a)| == 5 + |a| + |tail| && |SiteText(user, b)| == 5 + |b| + |tail|;
    assert SiteText(user, a)[5..5 + |a|] == a && SiteText(user, b)[5..5 + |b|] == b;
  }

  /** A domain listed twice and placed once is noticed. */
  lemma TwinIsNoticed(f: Namer, w: World, w': World, user: Site, ms: seq<Mapping>, plan: seq<Landing>,
                      plan': seq<Landing>,
                      placed: set<nat>, foreign: set<Site>, i: nat, j: nat)
    requires NamerOk(f) && NothingBlocked(plan) && IsPlan(f, w, user, ms, plan) && IsPlan(f, w', user, ms, plan')
    requires After(w, w', ms, plan, placed, foreign)
    requires i in placed && j < |ms| && OwnSite(ms[j]) && j !in placed && Lower(ms[i].domain) == Lower(ms[j].domain)
    ensures !Revalidated(user, ms, plan', Entries(user, ms, plan))
  {
    NewIsOwn(f, w, user, ms, plan);
    assert plan[i] == Decide(f, w, user, ms[i], NewNames(plan, i));
    assert plan[j] == Decide(f, w, user, ms[j], NewNames(plan, j));
    assert plan'[j] == Decide(f, w', user, ms[j], NewNames(plan', j));
    assert plan[j].New? && plan'[j] == Existing(plan[i].site);
    if i < j {
      NewNamesAreDistinct(f, w, user, ms, plan, i, j);
    } else {
      NewNamesAreDistinct(f, w, user, ms, plan, j, i);
    }
    SiteTextDiffers(user, plan[j].site, plan[i].site);
    assert Entries(user, ms, plan')[j].destination != Entries(user, ms, plan)[j].destination;
  }

  /**
    An approved plan, built again after any of its domains were placed where it said, passes
    revalidation exactly when nobody else took the planned name of a domain still to be placed
    and no such domain is listed twice.
  */
  lemma CarriedOutPlanStands(w: World, w': World, user: Site, ms: seq<Mapping>, plan: seq<Landing>, plan': seq<Landing>,
                           placed: set<nat>, foreign: set<Site>)
    requires NothingBlocked(plan)
    requires IsPlan(SiteName, w, user, ms, plan) && IsPlan(SiteName, w', user, ms, plan')
    requires After(w, w', ms, plan, placed, foreign)
    ensures Revalidated(user, ms, plan', Entries(user, ms, plan)) <==>
        Undisturbed(plan, placed, foreign) && NoTwin(ms, placed)
  {
    SiteNameIsNamer();
    if !NoTwin(ms, placed) {
      var j :| 0 <= j < |ms| && OwnSite(ms[j]) && j !in placed && PlacedDomain(ms, placed, Lower(ms[j].domain));
      var i :| i in placed && i < |ms| && Lower(ms[i].domain) == Lower(ms[j].domain);
      TwinIsNoticed(SiteName, w, w', user, ms, plan, plan', placed, foreign, i, j);
    } else if Undisturbed(plan, placed, foreign) {
      AllLandAgain(SiteName, w, w', user, ms, plan, plan', placed, foreign, |ms|);
      SameEntries(user, ms, plan, plan', placed);
      assert forall j | 0 <= j < |ms| :: plan'[j] == Again(plan, placed, j);
    } else {
      var j :| 0 <= j < |plan| && j !in placed && plan[j].New? && plan[j].site in foreign;
      TakenNameIsNoticed(SiteName, w, w', user, ms, plan, plan', placed, foreign, j);
    }
  }

  /**
    In particular, for distinct domains a retry after any part of the plan was carried out rebuilds
    the same digest.
  */
  lemma RetryRebuildsTheSamePlan(w: World, w': World, user: Site, ms: seq<Mapping>, plan: seq<Landing>,
                                 plan': seq<Landing>, placed: set<nat>)
    requires DistinctDomains(ms)
    requires IsPlan(SiteName, w, user, ms, plan) && IsPlan(SiteName, w', user, ms, plan')
    requires After(w, w', ms, plan, placed, {})
    ensures Entries(user, ms, plan') == Entries(user, ms, plan)
  {
    SiteNameIsNamer();
    DistinctDomainsHaveNoTwin(SiteName, w, user, ms, plan, placed);
    AllLandAgain(SiteName, w, w', user, ms, plan, plan', placed, {}, |ms|);
    SameEntries(user, ms, plan, plan', placed);
  }
}
