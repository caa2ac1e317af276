/**
  An approved migration plan against any later state of the account: sites placed, taken or
  removed by anyone.
*/
module MigrationChanges {
  import opened Optional
  import opened Names
  import opened MigrationPlan

  predicate PlacedIn(w: World, m: Mapping) {
    Lower(m.domain) in w.placements
  }

  predicate HasSite(l: Landing) {
    l.Existing? || l.New?
  }

  /** The planned names of the earlier domains that are still to be placed. */
  function StillNew(w: World, ms: seq<Mapping>, plan: seq<Landing>, n: nat): set<Site>
    requires n <= |ms| == |plan|
  {
    set i | 0 <= i < n && OwnSite(ms[i]) && !PlacedIn(w, ms[i]) && HasSite(plan[i]) :: plan[i].site
  }

  /** `name` is the first usable candidate for the domain. */
  ghost predicate FirstChoice(domain: string, taken: set<Site>, name: Site) {
    var base := BaseName(domain);
    base != "" && exists a | 1 <= a <= 99 ::
      CandidateName(base, a) == name && Usable(name, taken) && NoneBefore(base, taken, 1, a)
  }

  /**
    Every domain placed by now is at its planned site, and every other one still has its planned
    name as first choice.
  */
  ghost predicate StillRight(w: World, user: Site, ms: seq<Mapping>, plan: seq<Landing>, j: nat)
    requires j < |ms| == |plan|
  {
    OwnSite(ms[j]) ==>
      && HasSite(plan[j])
      && if PlacedIn(w, ms[j]) then w.placements[Lower(ms[j].domain)] == plan[j].site
         else FirstChoice(ms[j].domain, StillNew(w, ms, plan, j) + {user} + w.taken, plan[j].site)
  }

  lemma {:induction false} FirstFreeFrom(base: string, taken: set<Site>, attempt: nat, a: nat)
    requires attempt <= a <= ATTEMPTS && Usable(CandidateName(base, a), taken)
    requires NoneBefore(base, taken, attempt, a)
    ensures FirstFree(base, taken, attempt) == Some(CandidateName(base, a))
    decreases a - attempt
  {
    if attempt < a {
      assert NoneBefore(base, taken, attempt + 1, a);
      FirstFreeFrom(base, taken, attempt + 1, a);
    }
  }

  /** No candidate from `attempt` up to `a` is usable. */
  ghost predicate NoneBefore(base: string, taken: set<Site>, attempt: nat, a: nat) {
    forall b | attempt <= b < a :: !Usable(CandidateName(base, b), taken)
  }

  lemma NoneBeforeNext(base: string, taken: set<Site>, attempt: nat, a: nat)
    requires NoneBefore(base, taken, attempt + 1, a) && !Usable(CandidateName(base, attempt), taken)
    ensures NoneBefore(base, taken, attempt, a)
  {
    forall b | attempt <= b < a ensures !Usable(CandidateName(base, b), taken) {
      assert b == attempt || attempt + 1 <= b;
    }
  }

  lemma {:induction false} FirstFreeAt(base: string, taken: set<Site>, attempt: nat) returns (a: nat)
    requires FirstFree(base, taken, attempt).Some?
    ensures attempt <= a <= ATTEMPTS && Usable(CandidateName(base, a), taken)
    ensures FirstFree(base, taken, attempt) == Some(CandidateName(base, a))
    ensures NoneBefore(base, taken, attempt, a)
    decreases ATTEMPTS + 1 - attempt
  {
    a := attempt;
    if !Usable(CandidateName(base, attempt), taken) {
      a := FirstFreeAt(base, taken, attempt + 1);
      NoneBeforeNext(base, taken, attempt, a);
    }
  }

  /** The suffix search returns exactly the first usable candidate. */
  lemma SiteNameIsFirstChoice(domain: string, taken: set<Site>, name: Site)
    ensures SiteName(domain, taken) == Some(name) <==> FirstChoice(domain, taken, name)
  {
    var base := BaseName(domain);
    if SiteName(domain, taken) == Some(name) {
      var a := FirstFreeAt(base, taken, 1);
      assert 1 <= a <= ATTEMPTS && CandidateName(base, a) == name;
    }
    if FirstChoice(domain, taken, name) {
      var a :| 1 <= a <= 99 && CandidateName(base, a) == name && Usable(name, taken)
               && NoneBefore(base, taken, 1, a);
      FirstFreeFrom(base, taken, 1, a);
    }
  }

  /** The first `n` own domains have the planned sites in the new plan. */
  ghost predicate SameSites(ms: seq<Mapping>, plan: seq<Landing>, plan': seq<Landing>, n: nat) {
    && n <= |ms| == |plan| == |plan'|
    && forall i | 0 <= i < n && OwnSite(ms[i]) :: HasSite(plan[i]) && HasSite(plan'[i]) && plan'[i].site == plan[i].site
  }

  lemma StillNewIsNew(f: Namer, w: World, user: Site, ms: seq<Mapping>, plan: seq<Landing>, plan': seq<Landing>, n: nat)
    requires |plan| == |ms| && IsPlan(f, w, user, ms, plan') && SameSites(ms, plan, plan', n)
    ensures NewNames(plan', n) == StillNew(w, ms, plan, n)
  {
    forall i | 0 <= i < n
      ensures plan'[i].New? <==> OwnSite(ms[i]) && !PlacedIn(w, ms[i]) && HasSite(plan[i])
    {
      assert plan'[i] == Decide(f, w, user, ms[i], NewNames(plan', i));
    }
  }

  /** Domain `j` lands at its planned site exactly when the plan is still right about it. */
  lemma LandsRight(w: World, user: Site, ms: seq<Mapping>, plan: seq<Landing>, plan': seq<Landing>, j: nat)
    requires |plan| == |ms| && IsPlan(SiteName, w, user, ms, plan') && j < |ms| && SameSites(ms, plan, plan', j)
    requires OwnSite(ms[j]) && HasSite(plan[j])
    ensures StillRight(w, user, ms, plan, j) <==> HasSite(plan'[j]) && plan'[j].site == plan[j].site
  {
    StillNewIsNew(SiteName, w, user, ms, plan, plan', j);
    var taken := NewNames(plan', j) + {user} + w.taken;
    assert plan'[j] == Decide(SiteName, w, user, ms[j], NewNames(plan', j));
    SiteNameIsFirstChoice(ms[j].domain, taken, plan[j].site);
  }

  ghost predicate RightUpTo(w: World, user: Site, ms: seq<Mapping>, plan: seq<Landing>, n: nat)
    requires n <= |ms| == |plan|
  {
    forall j | 0 <= j < n :: StillRight(w, user, ms, plan, j)
  }

  lemma {:induction false} AllLandRight(w: World, user: Site, ms: seq<Mapping>, plan: seq<Landing>,
                                        plan': seq<Landing>, n: nat)
    requires |plan| == |ms| && IsPlan(SiteName, w, user, ms, plan') && n <= |ms|
    requires forall j | 0 <= j < |ms| && OwnSite(ms[j]) :: HasSite(plan[j])
    ensures SameSites(ms, plan, plan', n) <==> RightUpTo(w, user, ms, plan, n)
  {
    if n > 0 {
      AllLandRight(w, user, ms, plan, plan', n - 1);
      if SameSites(ms, plan, plan', n - 1) && OwnSite(ms[n - 1]) {
        LandsRight(w, user, ms, plan, plan', n - 1);
      }
      Next(ms, plan, plan', n);
      assert RightUpTo(w, user, ms, plan, n) <==>
        RightUpTo(w, user, ms, plan, n - 1) && StillRight(w, user, ms, plan, n - 1);
    }
  }

  lemma Next(ms: seq<Mapping>, plan: seq<Landing>, plan': seq<Landing>, n: nat)
    requires 0 < n <= |ms| == |plan| == |plan'|
    ensures SameSites(ms, plan, plan', n) <==>
            && SameSites(ms, plan, plan', n - 1)
            && (OwnSite(ms[n - 1]) ==>
                  HasSite(plan[n - 1]) && HasSite(plan'[n - 1]) && plan'[n - 1].site == plan[n - 1].site)
  {
  }

  lemma OwnHasSite(f: Namer, w: World, user: Site, ms: seq<Mapping>, plan: seq<Landing>)
    requires IsPlan(f, w, user, ms, plan) && NothingBlocked(plan)
    ensures forall j | 0 <= j < |ms| && OwnSite(ms[j]) :: HasSite(plan[j])
    ensures forall j | 0 <= j < |ms| && !OwnSite(ms[j]) ::
              plan[j] == if ms[j].kind == Main || ms[j].kind == Parked then Account else Untouched
  {
  }

  /** Two unblocked plans have the same entries exactly when they send every own domain to the same site. */
  lemma SameEntriesSameSites(w: World, w': World, user: Site, ms: seq<Mapping>, plan: seq<Landing>, plan': seq<Landing>)
    requires IsPlan(SiteName, w, user, ms, plan) && IsPlan(SiteName, w', user, ms, plan')
    requires NothingBlocked(plan)
    ensures Revalidated(user, ms, plan', Entries(user, ms, plan)) <==> SameSites(ms, plan, plan', |ms|)
  {
    OwnHasSite(SiteName, w, user, ms, plan);
    if Revalidated(user, ms, plan', Entries(user, ms, plan)) {
      OwnHasSite(SiteName, w', user, ms, plan');
      forall j | 0 <= j < |ms| && OwnSite(ms[j]) ensures plan'[j].site == plan[j].site {
        assert Entries(user, ms, plan')[j] == Entries(user, ms, plan)[j];
        if plan'[j].site != plan[j].site {
          SiteTextDiffers(user, plan'[j].site, plan[j].site);
        }
      }
    }
    if SameSites(ms, plan, plan', |ms|) {
      forall j | 0 <= j < |ms|
        ensures !plan'[j].Blocked? && DestinationText(user, ms[j], plan'[j]) == DestinationText(user, ms[j], plan[j])
      {
        assert plan'[j] == Decide(SiteName, w', user, ms[j], NewNames(plan', j));
      }
    }
  }

  /**
    Whatever happened to the account since, an approved plan passes revalidation exactly when every
    own domain placed by now is at its planned site and every other one still has its planned name
    as the first usable candidate.
  */
  lemma RevalidationIsExact(w: World, w': World, user: Site, ms: seq<Mapping>, plan: seq<Landing>, plan': seq<Landing>)
    requires IsPlan(SiteName, w, user, ms, plan) && IsPlan(SiteName, w', user, ms, plan') && NothingBlocked(plan)
    ensures Revalidated(user, ms, plan', Entries(user, ms, plan)) <==> RightUpTo(w', user, ms, plan, |ms|)
  {
    OwnHasSite(SiteName, w, user, ms, plan);
    AllLandRight(w', user, ms, plan, plan', |ms|);
    SameEntriesSameSites(w, w', user, ms, plan, plan');
  }

  // ---------------------------------------------------------------------------------------
  // Plans that change
  // ---------------------------------------------------------------------------------------

  const Domain := "a"
  const User := "u"
  const Listed := [Mapping(Domain, Addon, "")]

  function PlanFor(w: World): seq<Landing> {
    [Decide(SiteName, w, User, Listed[0], {})]
  }

  lemma PlanForIsPlan(w: World)
    ensures IsPlan(SiteName, w, User, Listed, PlanFor(w))
  {
    assert NewNames(PlanFor(w), 0) == {};
  }

  lemma Bases()
    ensures BaseName("a") == "a" && SafeUser("a") == "a" && CandidateName("a", 1) == "a"
    ensures CandidateName("a", 2) == "a-2" && SafeUser("a-2") == "a-2"
  {
    assert Lower("a") == "a" && DotsToDashes("a") == "a";
    assert TrimLeft("a") == "a" && TrimRight("a") == "a";
    assert Decimal(2) == "2";
    assert TrimLeft("a-2") == "a-2" && TrimRight("a-2") == "a-2";
  }

  lemma FreeAccount(taken: set<Site>)
    requires "a" !in taken
    ensures SiteName("a", taken) == Some("a")
  {
    Bases();
    assert NoneBefore("a", taken, 1, 1);
    SiteNameIsFirstChoice("a", taken, "a");
  }

  lemma SecondChoice(taken: set<Site>)
    requires "a" in taken && "a-2" !in taken
    ensures SiteName("a", taken) == Some("a-2")
  {
    Bases();
    assert NoneBefore("a", taken, 1, 2);
    SiteNameIsFirstChoice("a", taken, "a-2");
  }

  /**
    A foreign site takes the planned name, a site is removed and frees a better one, the domain is
    placed elsewhere.
  */
  lemma PlansChange()
    ensures var empty, taken, elsewhere := World(map[], {}), World(map[], {"a"}), World(map["a" := "x"], {"x"});
            && PlanFor(empty) == [New("a")] && PlanFor(taken) == [New("a-2")] && PlanFor(elsewhere) == [Existing("x")]
            && !Revalidated(User, Listed, PlanFor(taken), Entries(User, Listed, PlanFor(empty)))
            && !Revalidated(User, Listed, PlanFor(empty), Entries(User, Listed, PlanFor(taken)))
            && !Revalidated(User, Listed, PlanFor(elsewhere), Entries(User, Listed, PlanFor(empty)))
  {
    var empty, taken, elsewhere := World(map[], {}), World(map[], {"a"}), World(map["a" := "x"], {"x"});
    FreeAccount({} + {User} + {});
    SecondChoice({} + {User} + {"a"});
    assert Lower("a") == "a";
    Differ(empty, taken);
    Differ(taken, empty);
    Differ(empty, elsewhere);
  }

  lemma Differ(w: World, w': World)
    requires HasSite(PlanFor(w)[0]) && HasSite(PlanFor(w')[0]) && PlanFor(w)[0].site != PlanFor(w')[0].site
    ensures !Revalidated(User, Listed, PlanFor(w'), Entries(User, Listed, PlanFor(w)))
  {
    PlanForIsPlan(w);
    PlanForIsPlan(w');
    SameEntriesSameSites(w, w', User, Listed, PlanFor(w), PlanFor(w'));
  }
}
