/**
  Backup retention: which of a site's backups are kept, and why an interrupted run can be repeated.
*/
module Retention {
  import opened Optional
  import opened Sets
  import opened Names

  type Name = string
  type Site = string

  const TOMBSTONE := ".pruning-"

  /** The readable part of a backup's manifest; `createdAt` is missing when the manifest has no date. */
  datatype Manifest = Manifest(site: Site, createdAt: Option<int>)

  /** A directory entry; a backup directory whose manifest cannot be read has none. */
  datatype Entry = Plain | Folder(manifest: Option<Manifest>)

  type Root = map<Name, Entry>

  datatype Candidate = Candidate(name: Name, createdAt: int)

  predicate NameCharOk(c: char) {
    'a' <= c <= 'z' || 'A' <= c <= 'Z' || '0' <= c <= '9' || c in "._-"
  }

  predicate ValidBackupName(name: Name) {
    1 <= |name| <= 160 && name != "." && name != ".." && forall i | 0 <= i < |name| :: NameCharOk(name[i])
  }

  /** 1 to 160 letters, digits, dots, dashes and underscores, but not the names of directories. */
  lemma ValidNameExactly(name: Name)
    ensures ValidBackupName(name) <==>
            && 1 <= |name| <= 160 && name !in {".", ".."}
            && forall c | c in name :: 'a' <= c <= 'z' || 'A' <= c <= 'Z' || '0' <= c <= '9' || c in {'.', '-', '_'}
  {
    if !(forall i | 0 <= i < |name| :: NameCharOk(name[i])) {
      var i :| 0 <= i < |name| && !NameCharOk(name[i]);
      assert name[i] in name;
    }
  }

  predicate Hidden(name: Name) {
    name == "" || name[0] == '.'
  }

  /** The directories retention looks at. */
  predicate Listed(root: Root, name: Name) {
    name in root && root[name].Folder? && !Hidden(name)
  }

  /** Everything a listing shows. */
  function Inventory(root: Root): Root {
    map name | name in root && !Hidden(name) :: root[name]
  }

  predicate Tombstone(name: Name) {
    TOMBSTONE <= name
  }

  /** Every listed directory names its owner, and the site's own are dated. */
  predicate Reviewable(root: Root, site: Site) {
    forall name | name in root && Listed(root, name) ::
      && root[name].manifest.Some?
      && SafeUser(root[name].manifest.value.site) != ""
      && (root[name].manifest.value.site == site ==> root[name].manifest.value.createdAt.Some?)
  }

  predicate Owned(root: Root, site: Site, name: Name) {
    Listed(root, name) && root[name].manifest.Some? && root[name].manifest.value.site == site
    && root[name].manifest.value.createdAt.Some?
  }

  function CandidateAt(root: Root, site: Site, name: Name): Candidate
    requires Owned(root, site, name)
  {
    Candidate(name, root[name].manifest.value.createdAt.value)
  }

  function Candidates(root: Root, site: Site): set<Candidate> {
    set name | name in root && Owned(root, site, name) :: CandidateAt(root, site, name)
  }

  // ---------------------------------------------------------------------------------------
  // The order
  // ---------------------------------------------------------------------------------------

  predicate Less(a: Name, b: Name) {
    if b == [] then false
    else if a == [] then true
    else a[0] < b[0] || (a[0] == b[0] && Less(a[1..], b[1..]))
  }

  /** `x` is kept in preference to `y`: protected first, then newest, then the larger name. */
  predicate Better(protected: Name, x: Candidate, y: Candidate) {
    if x.name == protected then y.name != protected
    else if y.name == protected then false
    else if x.createdAt != y.createdAt then x.createdAt > y.createdAt
    else Less(y.name, x.name)
  }

  /** At the first place where they differ, `a` has the smaller character. */
  ghost predicate Differs(a: Name, b: Name) {
    exists i | 0 <= i < |a| && i < |b| :: a[..i] == b[..i] && a[i] < b[i]
  }

  /** The order of names: a proper prefix is smaller, and otherwise the first difference decides. */
  lemma {:induction false} LessExactly(a: Name, b: Name)
    ensures Less(a, b) <==> a < b || Differs(a, b)
  {
    if a != [] && b != [] {
      LessExactly(a[1..], b[1..]);
      if a[0] == b[0] {
        DiffersLater(a, b);
        assert a < b <==> a[1..] < b[1..];
      } else {
        assert Differs(a, b) <==> a[0] < b[0] by {
          assert a[..0] == b[..0];
          forall i | 0 < i < |a| && i < |b| ensures a[..i] != b[..i] {
            assert a[..i][0] != b[..i][0];
          }
        }
      }
    }
  }

  lemma DiffersLater(a: Name, b: Name)
    requires a != [] && b != [] && a[0] == b[0]
    ensures Differs(a, b) <==> Differs(a[1..], b[1..])
  {
    if Differs(a, b) {
      var i :| 0 <= i < |a| && i < |b| && a[..i] == b[..i] && a[i] < b[i];
      assert a[1..][..i - 1] == a[..i][1..] && b[1..][..i - 1] == b[..i][1..];
    }
    if Differs(a[1..], b[1..]) {
      var i :| 0 <= i < |a[1..]| && i < |b[1..]| && a[1..][..i] == b[1..][..i] && a[1..][i] < b[1..][i];
      assert a[..i + 1] == [a[0]] + a[1..][..i] && b[..i + 1] == [b[0]] + b[1..][..i];
    }
  }

  lemma {:induction false} LessIsTotal(a: Name, b: Name)
    ensures a != b ==> Less(a, b) || Less(b, a)
    ensures !(Less(a, b) && Less(b, a)) && !Less(a, a)
  {
    if a != [] && b != [] {
      LessIsTotal(a[1..], b[1..]);
      assert a == [a[0]] + a[1..] && b == [b[0]] + b[1..];
    }
    if a != [] {
      LessIsTotal(a[1..], a[1..]);
    }
  }

  lemma {:induction false} LessIsTransitive(a: Name, b: Name, c: Name)
    requires Less(a, b) && Less(b, c)
    ensures Less(a, c)
  {
    if a != [] && a[0] == b[0] == c[0] {
      LessIsTransitive(a[1..], b[1..], c[1..]);
    }
  }

  lemma BetterIsTotal(p: Name, x: Candidate, y: Candidate)
    ensures x.name != y.name ==> Better(p, x, y) || Better(p, y, x)
    ensures !(Better(p, x, y) && Better(p, y, x)) && !Better(p, x, x)
  {
    LessIsTotal(x.name, y.name);
  }

  lemma BetterIsTransitive(p: Name, x: Candidate, y: Candidate, z: Candidate)
    requires Better(p, x, y) && Better(p, y, z)
    ensures Better(p, x, z)
  {
    if x.createdAt == y.createdAt == z.createdAt && Less(y.name, x.name) && Less(z.name, y.name) {
      LessIsTransitive(z.name, y.name, x.name);
    }
  }

  // ---------------------------------------------------------------------------------------
  // What is kept
  // ---------------------------------------------------------------------------------------

  function Ahead(p: Name, items: set<Candidate>, x: Candidate): set<Candidate> {
    set y | y in items && Better(p, y, x)
  }

  /** The candidates with fewer than `keep` better ones. */
  function Kept(p: Name, items: set<Candidate>, keep: nat): set<Candidate> {
    set x | x in items && |Ahead(p, items, x)| < keep
  }

  ghost predicate DistinctNames(items: set<Candidate>) {
    forall x, y | x in items && y in items && x.name == y.name :: x == y
  }

  ghost predicate Sorted(p: Name, s: seq<Candidate>) {
    forall i, j | 0 <= i < j < |s| :: Better(p, s[i], s[j])
  }

  function Elements(s: seq<Candidate>): set<Candidate> {
    set x | x in s
  }

  lemma {:induction false} SortedSize(p: Name, s: seq<Candidate>)
    requires Sorted(p, s)
    ensures |Elements(s)| == |s|
  {
    if s != [] {
      var n := |s| - 1;
      SortedSize(p, s[..n]);
      assert s[n] !in s[..n] by {
        forall i | 0 <= i < n ensures s[i] != s[n] {
          BetterIsTotal(p, s[i], s[n]);
        }
      }
      assert Elements(s) == Elements(s[..n]) + {s[n]};
    }
  }

  /** In a sorted list a candidate's position is the number of better ones. */
  lemma PositionIsRank(p: Name, s: seq<Candidate>, i: nat)
    requires Sorted(p, s) && i < |s|
    ensures |Ahead(p, Elements(s), s[i])| == i
  {
    SortedSize(p, s[..i]);
    forall x ensures x in Ahead(p, Elements(s), s[i]) <==> x in Elements(s[..i]) {
      if x in s {
        var j :| 0 <= j < |s| && s[j] == x;
        if j < i {
          assert x == s[..i][j];
        } else {
          BetterIsTotal(p, s[i], s[j]);
          BeyondIsNotBefore(p, s, i, j);
        }
      }
    }
    assert Ahead(p, Elements(s), s[i]) == Elements(s[..i]);
  }

  lemma BeyondIsNotBefore(p: Name, s: seq<Candidate>, i: nat, j: nat)
    requires Sorted(p, s) && i <= j < |s|
    ensures s[j] !in s[..i]
  {
    forall k | 0 <= k < i ensures s[k] != s[j] {
      BetterIsTotal(p, s[k], s[j]);
    }
  }

  /** Keeping the first `keep` of a sorted list keeps exactly `Kept`. */
  lemma FirstAreKept(p: Name, s: seq<Candidate>, keep: nat)
    requires Sorted(p, s)
    ensures var n := if keep < |s| then keep else |s|;
            Kept(p, Elements(s), keep) == Elements(s[..n]) && |Kept(p, Elements(s), keep)| == n
  {
    var n := if keep < |s| then keep else |s|;
    forall x ensures x in Kept(p, Elements(s), keep) <==> x in Elements(s[..n]) {
      if x in s {
        var i :| 0 <= i < |s| && s[i] == x;
        PositionIsRank(p, s, i);
        if i < n {
          assert s[..n][i] == x;
        } else {
          BeyondIsNotBefore(p, s, n, i);
        }
      }
    }
    assert Kept(p, Elements(s), keep) == Elements(s[..n]);
    SortedSize(p, s[..n]);
  }

  /** Insertion into a sorted list. */
  function Insert(p: Name, s: seq<Candidate>, x: Candidate): seq<Candidate> {
    if s == [] then [x]
    else if Better(p, x, s[0]) then [x] + s
    else [s[0]] + Insert(p, s[1..], x)
  }

  lemma {:induction false} InsertElements(p: Name, s: seq<Candidate>, x: Candidate)
    ensures Elements(Insert(p, s, x)) == Elements(s) + {x}
  {
    if s != [] && !Better(p, x, s[0]) {
      InsertElements(p, s[1..], x);
      assert s == [s[0]] + s[1..];
      assert Elements(s) == {s[0]} + Elements(s[1..]);
      assert Elements(Insert(p, s, x)) == {s[0]} + Elements(Insert(p, s[1..], x));
    }
  }

  lemma {:induction false} InsertSorts(p: Name, s: seq<Candidate>, x: Candidate)
    requires Sorted(p, s) && forall y | y in s :: y.name != x.name
    ensures Sorted(p, Insert(p, s, x))
  {
    if s != [] {
      if Better(p, x, s[0]) {
        forall j | 0 <= j < |s| ensures Better(p, x, s[j]) {
          if j > 0 { BetterIsTransitive(p, x, s[0], s[j]); }
        }
      } else {
        BetterIsTotal(p, s[0], x);
        InsertSorts(p, s[1..], x);
        InsertElements(p, s[1..], x);
        var rest := Insert(p, s[1..], x);
        forall j | 0 <= j < |rest| ensures Better(p, s[0], rest[j]) {
          assert rest[j] in Elements(rest);
          if rest[j] != x {
            var k :| 0 <= k < |s[1..]| && s[1..][k] == rest[j];
            assert s[k + 1] == rest[j];
          }
        }
      }
    }
  }

  /** The candidates, best first. */
  method SortCandidates(p: Name, items: set<Candidate>) returns (s: seq<Candidate>)
    requires DistinctNames(items)
    ensures Sorted(p, s) && Elements(s) == items
  {
    s := [];
    var todo := items;
    while todo != {}
      invariant todo <= items && Sorted(p, s) && Elements(s) == items - todo
      decreases |todo|
    {
      var x :| x in todo;
      forall y | y in s ensures y.name != x.name {
        assert y in Elements(s);
      }
      InsertSorts(p, s, x);
      InsertElements(p, s, x);
      s := Insert(p, s, x);
      todo := todo - {x};
    }
  }

  lemma {:induction false} Arrange(p: Name, items: set<Candidate>) returns (s: seq<Candidate>)
    requires DistinctNames(items)
    ensures Sorted(p, s) && Elements(s) == items
  {
    if items == {} {
      s := [];
    } else {
      var x :| x in items;
      s := Arrange(p, items - {x});
      forall y | y in s ensures y.name != x.name {
        assert y in Elements(s);
      }
      InsertSorts(p, s, x);
      InsertElements(p, s, x);
      s := Insert(p, s, x);
    }
  }

  /** Exactly min(keep, n) candidates are kept. */
  lemma KeptCount(p: Name, items: set<Candidate>, keep: nat)
    requires DistinctNames(items)
    ensures |Kept(p, items, keep)| == if keep < |items| then keep else |items|
  {
    var s := Arrange(p, items);
    SortedSize(p, s);
    FirstAreKept(p, s, keep);
  }

  /**
    No discarded candidate is newer than a kept one, or as new with a larger name, unless the kept
    one is protected.
  */
  lemma KeptAreBest(p: Name, items: set<Candidate>, keep: nat, x: Candidate, y: Candidate)
    requires DistinctNames(items) && x in Kept(p, items, keep) && y in items && y !in Kept(p, items, keep)
    ensures x.name == p || (y.name != p && (x.createdAt > y.createdAt ||
              (x.createdAt == y.createdAt && (y.name < x.name || Differs(y.name, x.name)))))
    ensures Better(p, x, y)
  {
    BetterIsTotal(p, x, y);
    LessExactly(y.name, x.name);
    if Better(p, y, x) {
      forall z | z in Ahead(p, items, y) ensures z in Ahead(p, items, x) {
        BetterIsTransitive(p, z, y, x);
      }
      SubsetSize(Ahead(p, items, y), Ahead(p, items, x));
    }
  }

  lemma ProtectedIsKept(p: Name, items: set<Candidate>, keep: nat, x: Candidate)
    requires DistinctNames(items) && keep >= 1 && x in items && x.name == p
    ensures x in Kept(p, items, keep)
  {
    assert Ahead(p, items, x) == {};
  }

  /** Removing some of the discarded candidates does not change what is kept. */
  lemma KeptIsStable(p: Name, items: set<Candidate>, some: set<Candidate>, keep: nat)
    requires DistinctNames(items) && Kept(p, items, keep) <= some <= items
    ensures Kept(p, some, keep) == Kept(p, items, keep)
  {
    var kept := Kept(p, items, keep);
    forall x | x in kept ensures x in Kept(p, some, keep) {
      SubsetSize(Ahead(p, some, x), Ahead(p, items, x));
    }
    forall x | x in some && x !in kept ensures x !in Kept(p, some, keep) {
      forall k | k in kept ensures k in Ahead(p, some, x) {
        KeptAreBest(p, items, keep, k, x);
      }
      SubsetSize(kept, Ahead(p, some, x));
      KeptCount(p, items, keep);
      FullWhenDiscarding(p, items, keep, x);
    }
  }

  lemma FullWhenDiscarding(p: Name, items: set<Candidate>, keep: nat, x: Candidate)
    requires DistinctNames(items) && x in items && x !in Kept(p, items, keep)
    ensures |Kept(p, items, keep)| == keep
  {
    KeptCount(p, items, keep);
    SubsetSize(Kept(p, items, keep) + {x}, items);
  }

  // ---------------------------------------------------------------------------------------
  // What retention does to an inventory
  // ---------------------------------------------------------------------------------------

  datatype Policy = Policy(site: Site, keep: int, protected: Name)

  predicate PolicyOk(q: Policy) {
    SafeUser(q.site) != "" && q.keep >= 1 && (q.protected != "" ==> ValidBackupName(q.protected))
  }

  /** The checks before anything is deleted. */
  predicate Approved(inv: Root, q: Policy) {
    PolicyOk(q) && Reviewable(inv, q.site) && (q.protected != "" ==> Owned(inv, q.site, q.protected))
  }

  /** A directory entry that retention cannot assess for the site. */
  predicate Unclear(entry: Entry, site: Site) {
    entry.Folder? &&
    (|| entry.manifest.None? || SafeUser(entry.manifest.value.site) == ""
     || (entry.manifest.value.site == site && entry.manifest.value.createdAt.None?))
  }

  /**
    Retention is refused exactly for a policy without site, count or valid protected name, over a
    visible directory whose owner, or whose date as the site's own, cannot be read, or without the
    protected backup among the site's own.
  */
  lemma ApprovedExactly(inv: Root, q: Policy)
    ensures Approved(inv, q) <==>
            && SafeUser(q.site) != "" && q.keep >= 1
            && (forall name | name in inv && name != "" && name[0] != '.' :: !Unclear(inv[name], q.site))
            && (q.protected == "" ||
                (&& ValidBackupName(q.protected) && q.protected in inv && q.protected[0] != '.'
                 && inv[q.protected].Folder? && inv[q.protected].manifest.Some?
                 && inv[q.protected].manifest.value.site == q.site))
  {
    assert forall name | name in inv :: Listed(inv, name) <==> name != "" && name[0] != '.' && inv[name].Folder?;
  }

  /** The site's own backups are the visible directories with its name and a date in the manifest. */
  lemma CandidatesExactly(inv: Root, site: Site, x: Candidate)
    ensures x in Candidates(inv, site) <==>
            && x.name in inv && x.name != "" && x.name[0] != '.'
            && inv[x.name] == Folder(Some(Manifest(site, Some(x.createdAt))))
  {
    if x.name in inv && Owned(inv, site, x.name) {
      assert CandidateAt(inv, site, x.name).name == x.name;
    }
  }

  function Victims(inv: Root, q: Policy): set<Name>
    requires PolicyOk(q)
  {
    var items := Candidates(inv, q.site);
    set x | x in items && x !in Kept(q.protected, items, q.keep) :: x.name
  }

  /** The inventory retention aims at. */
  function Pruned(inv: Root, q: Policy): Root {
    if Approved(inv, q) then inv - Victims(inv, q) else inv
  }

  lemma CandidatesHaveDistinctNames(inv: Root, site: Site)
    ensures DistinctNames(Candidates(inv, site))
  {
  }

  lemma CandidatesAfter(inv: Root, site: Site, gone: set<Name>)
    ensures Candidates(inv - gone, site) == set x | x in Candidates(inv, site) && x.name !in gone
  {
    forall name | name in inv && name !in gone ensures Owned(inv - gone, site, name) == Owned(inv, site, name) {}
  }

  /** Every intermediate inventory of a run leads to the same result. */
  lemma PrunedIsStable(inv: Root, q: Policy, gone: set<Name>)
    requires Approved(inv, q) && gone <= Victims(inv, q)
    ensures Approved(inv - gone, q) && Pruned(inv - gone, q) == Pruned(inv, q)
  {
    var items, p := Candidates(inv, q.site), q.protected;
    var some := Candidates(inv - gone, q.site);
    CandidatesHaveDistinctNames(inv, q.site);
    CandidatesAfter(inv, q.site, gone);
    KeptIsStable(p, items, some, q.keep);
    if p != "" {
      var x := CandidateAt(inv, q.site, p);
      assert x in items;
      ProtectedIsKept(p, items, q.keep, x);
      assert x in some;
    }
    assert Victims(inv - gone, q) == Victims(inv, q) - gone;
    assert inv - gone - Victims(inv - gone, q) == inv - Victims(inv, q);
  }

  /** Only the site's own backups are deleted, and min(keep, n) of them stay, the protected one among them. */
  lemma PrunedMeetsPolicy(inv: Root, q: Policy)
    requires Approved(inv, q)
    ensures Pruned(inv, q).Keys <= inv.Keys && forall name | name in Pruned(inv, q) :: Pruned(inv, q)[name] == inv[name]
    ensures forall name | name in inv && !Owned(inv, q.site, name) ::
        name in Pruned(inv, q) && Pruned(inv, q)[name] == inv[name]
    ensures Candidates(Pruned(inv, q), q.site) == Kept(q.protected, Candidates(inv, q.site), q.keep)
    ensures var n := |Candidates(inv, q.site)|; |Candidates(Pruned(inv, q), q.site)| == if q.keep < n then q.keep else n
    ensures q.protected != "" ==> q.protected in Pruned(inv, q)
  {
    var items, p := Candidates(inv, q.site), q.protected;
    CandidatesHaveDistinctNames(inv, q.site);
    CandidatesAfter(inv, q.site, Victims(inv, q));
    KeptCount(p, items, q.keep);
    assert Candidates(Pruned(inv, q), q.site) == Kept(p, items, q.keep) by {
      forall x | x in items ensures x.name in Victims(inv, q) <==> x !in Kept(p, items, q.keep) {}
    }
    if p != "" {
      ProtectedIsKept(p, items, q.keep, CandidateAt(inv, q.site, p));
    }
  }
}
