/** What the names and landings of a migration plan are, without the functions that compute them. */
module MigrationNames {
  import opened Optional
  import opened Names
  import opened MigrationPlan
  import opened MigrationChanges

  predicate Dashes(s: string) {
    forall i | 0 <= i < |s| :: s[i] == '-'
  }

  predicate EndsWithDash(s: string) {
    s != "" && s[|s| - 1] == '-'
  }

  /** A character of a domain in a site name: lower case, and a dash for a dot. */
  function InName(c: char): char {
    if c == '.' then '-' else if 'A' <= c <= 'Z' then (c as int + 32) as char else c
  }

  predicate InNames(domain: string, d: string) {
    |d| == |domain| && forall i | 0 <= i < |domain| :: d[i] == InName(domain[i])
  }

  lemma Dashed(domain: string)
    ensures InNames(domain, DotsToDashes(Lower(domain)))
  {
  }

  lemma {:induction false} LeadingDashesGo(s: string) returns (left: string)
    ensures Dashes(left) && s == left + DropLeadingDashes(s)
    ensures DropLeadingDashes(s) == "" || DropLeadingDashes(s)[0] != '-'
  {
    left := "";
    if s != "" && s[0] == '-' {
      var rest := LeadingDashesGo(s[1..]);
      left := [s[0]] + rest;
      assert s == [s[0]] + s[1..];
    }
  }

  lemma {:induction false} TrailingDashesGo(s: string) returns (right: string)
    ensures Dashes(right) && s == DropTrailingDashes(s) + right && !EndsWithDash(DropTrailingDashes(s))
  {
    right := "";
    if EndsWithDash(s) {
      var rest := TrailingDashesGo(s[..|s| - 1]);
      right := rest + [s[|s| - 1]];
      assert s == s[..|s| - 1] + [s[|s| - 1]];
    }
  }

  /**
    The base of a site name: the domain in lower case with dashes for dots, without the dashes at
    both ends, cut to 32 characters and then without dashes at the end.
  */
  lemma BaseNameExactly(domain: string) returns (d: string, left: string, body: string, right: string, cut: string)
    ensures d == left + body + right && InNames(domain, d)
    ensures Dashes(left) && Dashes(right) && !EndsWithDash(body) && (body == "" || body[0] != '-')
    ensures if |body| <= 32 then BaseName(domain) == body
            else body[..32] == BaseName(domain) + cut && Dashes(cut) && !EndsWithDash(BaseName(domain))
  {
    d := DotsToDashes(Lower(domain));
    Dashed(domain);
    left := LeadingDashesGo(d);
    right := TrailingDashesGo(DropLeadingDashes(d));
    body := DropTrailingDashes(DropLeadingDashes(d));
    assert d == left + body + right;
    assert body != "" ==> body[0] == DropLeadingDashes(d)[0];
    cut := "";
    if |body| > 32 {
      cut := TrailingDashesGo(body[..32]);
    }
  }

  predicate Digit(c: char) {
    '0' <= c <= '9'
  }

  /** The number a text of digits denotes. */
  function Value(s: string): nat {
    if s == "" then 0
    else 10 * Value(s[..|s| - 1]) + (if Digit(s[|s| - 1]) then s[|s| - 1] as int - '0' as int else 0)
  }

  lemma ValueOfNext(front: string, digit: char)
    requires Digit(digit)
    ensures Value(front + [digit]) == 10 * Value(front) + (digit as int - '0' as int)
  {
    assert (front + [digit])[..|front|] == front;
  }

  lemma {:induction false} DecimalExactly(n: nat)
    ensures Value(Decimal(n)) == n && |Decimal(n)| > 0
    ensures forall i | 0 <= i < |Decimal(n)| :: Digit(Decimal(n)[i])
    ensures n > 0 ==> Decimal(n)[0] != '0'
    ensures n < 100 ==> |Decimal(n)| <= 2
  {
    var digit := ('0' as int + n % 10) as char;
    if n >= 10 {
      DecimalExactly(n / 10);
      ValueOfNext(Decimal(n / 10), digit);
    } else {
      ValueOfNext("", digit);
      assert "" + [digit] == [digit];
    }
  }

  /**
    The candidates: the base itself, then the base with a dash and the attempt's number, cut before
    the suffix where the whole would exceed 32 characters, and then without dashes at the cut.
  */
  lemma CandidateExactly(base: string, attempt: nat) returns (front: string, number: string, cut: string)
    requires |base| <= 32 && 1 <= attempt <= 99
    ensures 1 <= |number| <= 2 && (attempt == 1 ==> CandidateName(base, attempt) == base)
    ensures attempt > 1 ==>
        && CandidateName(base, attempt) == front + "-" + number && Value(number) == attempt
        && number[0] != '0' && forall i | 0 <= i < |number| :: Digit(number[i])
    ensures attempt > 1 ==>
        if |base| + 1 + |number| <= 32 then front == base
        else base[..31 - |number|] == front + cut && Dashes(cut) && !EndsWithDash(front)
    ensures |CandidateName(base, attempt)| <= 32
  {
    DecimalExactly(attempt);
    number := Decimal(attempt);
    front, cut := base, "";
    var suffix := "-" + number;
    if attempt > 1 && |base| + |suffix| > 32 {
      cut := TrailingDashesGo(base[..32 - |suffix|]);
      front := DropTrailingDashes(base[..32 - |suffix|]);
    }
    if attempt > 1 {
      assert front + "-" + number == front + suffix;
    }
  }

  /** A usable candidate is tried among the first 99. */
  ghost predicate Nameable(domain: string, taken: set<Site>) {
    exists name :: FirstChoice(domain, taken, name)
  }

  /**
    Where each domain lands: the main and parked ones on the account; an addon or subdomain where it
    is served already, or else on a new site with the first usable name not taken by the account,
    by a site or by an earlier domain, and nowhere when there is none; others are left alone.
  */
  lemma LandsExactly(w: World, user: Site, ms: seq<Mapping>, plan: seq<Landing>, j: nat, name: Site)
    requires IsPlan(SiteName, w, user, ms, plan) && j < |ms|
    ensures var own := ms[j].kind in {Addon, Subdomain};
            var served := Lower(ms[j].domain) in w.placements;
            var taken := NewNames(plan, j) + {user} + w.taken;
            && (plan[j] == Account <==> ms[j].kind in {Main, Parked})
            && (plan[j] == Existing(name) <==> own && served && w.placements[Lower(ms[j].domain)] == name)
            && (plan[j] == New(name) <==> own && !served && FirstChoice(ms[j].domain, taken, name))
            && (plan[j] == Blocked <==> own && !served && !Nameable(ms[j].domain, taken))
            && (plan[j] == Untouched <==> ms[j].kind == Unknown)
  {
    var taken := NewNames(plan, j) + {user} + w.taken;
    SiteNameIsFirstChoice(ms[j].domain, taken, name);
    var found := SiteName(ms[j].domain, taken);
    if found.Some? {
      SiteNameIsFirstChoice(ms[j].domain, taken, found.value);
    } else {
      forall x ensures !FirstChoice(ms[j].domain, taken, x) {
        SiteNameIsFirstChoice(ms[j].domain, taken, x);
      }
    }
  }

  /** What the digest covers of a domain: its name in lower case, its kind and where it lands, in words. */
  lemma EntryExactly(user: Site, ms: seq<Mapping>, plan: seq<Landing>, j: nat)
    requires |plan| == |ms| && j < |ms|
    ensures |Entries(user, ms, plan)| == |ms|
    ensures var e, m := Entries(user, ms, plan)[j], ms[j];
            && e.kind == m.kind && |e.domain| == |m.domain|
            && (forall i | 0 <= i < |m.domain| && m.domain[i] != '.' :: e.domain[i] == InName(m.domain[i]))
            && (forall i | 0 <= i < |m.domain| && m.domain[i] == '.' :: e.domain[i] == '.')
            && (plan[j] == Account ==> e.destination == "account " + user + " / public_html")
            && (plan[j].New? || plan[j].Existing? ==>
                  e.destination == "site " + plan[j].site + " (account " + user + ")")
            && (plan[j] == Untouched || plan[j] == Blocked ==> e.destination == m.destination)
  {
  }
}
