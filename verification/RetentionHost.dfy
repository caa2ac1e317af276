/** `pruneSiteBackups` on the backup directory, one effect at a time, with failures and crashes. */
module RetentionHost {
  import opened Optional
  import opened Names
  import opened Faults
  import opened Retention

  datatype Ending = Completed | Refused | Faulted | Interrupted

  function Ended(e: Effect): Ending
    requires e != Done
  {
    if e == Failed then Faulted else Interrupted
  }

  lemma RenameHides(root: Root, name: Name)
    requires name in root && !Hidden(name)
    ensures Hidden(TOMBSTONE + name)
    ensures Inventory((root - {name})[TOMBSTONE + name := root[name]]) == Inventory(root) - {name}
  {
    assert (TOMBSTONE + name)[0] == '.';
  }

  lemma HiddenChange(root: Root, name: Name, entry: Entry)
    requires Hidden(name)
    ensures Inventory(root[name := entry]) == Inventory(root) && Inventory(root - {name}) == Inventory(root)
  {
  }

  /** The backup directory, and what each effect on it will meet. */
  class Store {
    const plan: nat -> Fault
    var root: Root
    var effects: nat

    constructor (plan: nat -> Fault, root: Root)
      ensures this.plan == plan && this.root == root && Troubles() == 0
    {
      this.plan, this.root, this.effects := plan, root, 0;
    }

    /** How many effects so far did not work. */
    ghost function Troubles(): nat
      reads this`effects
    {
      Tally(plan, effects)
    }

    method NextFault() returns (f: Fault)
      modifies this`effects
      ensures f == plan(old(effects)) && Troubles() == old(Troubles()) + if f.Works? then 0 else 1
    {
      f := plan(effects);
      effects := effects + 1;
    }

    /** Recursive deletion of a hidden directory: it may stop halfway, with the manifest gone or not. */
    method RemoveAll(name: Name) returns (e: Effect)
      requires Hidden(name)
      modifies this
      ensures Inventory(root) == Inventory(old(root))
      ensures root - {name} == old(root) - {name}
      ensures e == Done ==> name !in root
      ensures Troubles() == old(Troubles()) + if e == Done then 0 else 1
    {
      HiddenChange(root, name, Folder(None));
      var f := NextFault();
      if f.Works? {
        root := root - {name};
      } else if f.took && name in root {
        root := root[name := Folder(None)];
      }
      e := Answer(f);
    }

    /** The rename to a tombstone is atomic; making it durable can still fail. */
    method Rename(name: Name) returns (e: Effect)
      requires name in root && !Hidden(name)
      modifies this
      ensures root == old(root) || root == (old(root) - {name})[TOMBSTONE + name := old(root)[name]]
      ensures e == Done ==> root == (old(root) - {name})[TOMBSTONE + name := old(root)[name]]
      ensures Troubles() == old(Troubles()) + if e == Done then 0 else 1
    {
      var f := NextFault();
      if Took(f) {
        root := (root - {name})[TOMBSTONE + name := root[name]];
      }
      e := Answer(f);
    }

    /** `discardBackup`, for a name that passed its check. */
    method Discard(name: Name) returns (e: Effect)
      requires name in Inventory(root)
      modifies this
      ensures Inventory(root) == Inventory(old(root)) || Inventory(root) == Inventory(old(root)) - {name}
      ensures e == Done ==> Inventory(root) == Inventory(old(root)) - {name}
      ensures e == Done ==> forall t | t in root && Tombstone(t) :: t in old(root)
      ensures Troubles() == old(Troubles()) + if e == Done then 0 else 1
    {
      RenameHides(root, name);
      e := Rename(name);
      if e != Done { return; }
      ghost var renamed := root;
      e := RemoveAll(TOMBSTONE + name);
      assert e == Done ==> forall t | t in root :: t in renamed - {TOMBSTONE + name};
    }

    /** `removePruneTombstones`. */
    method RemoveTombstones() returns (e: Effect)
      modifies this
      ensures Inventory(root) == Inventory(old(root))
      ensures e == Done ==> forall t | t in root :: !Tombstone(t)
      ensures Troubles() == old(Troubles()) + if e == Done then 0 else 1
    {
      var todo := set t | t in root && Tombstone(t);
      while todo != {}
        invariant Inventory(root) == Inventory(old(root))
        invariant forall t | t in todo :: Tombstone(t)
        invariant forall t | t in root && Tombstone(t) :: t in todo
        invariant Troubles() == old(Troubles())
        decreases |todo|
      {
        var t :| t in todo;
        assert t[0] == TOMBSTONE[0];
        ghost var before := root;
        e := RemoveAll(t);
        if e != Done { return; }
        assert forall x | x in root :: x in root - {t};
        assert forall x | x in root :: x in before - {t};
        todo := todo - {t};
      }
      e := Done;
    }

    /**
      `pruneSiteBackups`.  However it ends, only backups the policy discards are gone; when it
      completes, exactly those are gone and no tombstone is left.
    */
    method Prune(q: Policy) returns (r: Ending)
      modifies this
      ensures Approved(Inventory(old(root)), q) ==> Between(Inventory(old(root)), Inventory(root), q)
      ensures !Approved(Inventory(old(root)), q) ==> Inventory(root) == Inventory(old(root)) && r != Completed
      ensures r == Completed ==>
          Inventory(root) == Pruned(Inventory(old(root)), q) && forall t | t in root :: !Tombstone(t)
      ensures r == Completed ==> Deletable(Inventory(old(root)), q)
      ensures r == Refused ==> !Deletable(Inventory(old(root)), q)
      ensures Troubles() == old(Troubles()) + if r == Completed || r == Refused then 0 else 1
    {
      ghost var inv := Inventory(root);
      assert PolicyOk(q) ==> inv - {} == inv && {} <= Victims(inv, q);
      if !PolicyOk(q) {
        return Refused;
      }
      var e := RemoveTombstones();
      if e != Done {
        return Ended(e);
      }
      if !Approved(Inventory(root), q) {
        return Refused;
      }
      var items := Candidates(Inventory(root), q.site);
      CandidatesHaveDistinctNames(Inventory(root), q.site);
      var sorted := SortCandidates(q.protected, items);
      FirstAreKept(q.protected, sorted, q.keep);
      SortedSize(q.protected, sorted);
      if |sorted| <= q.keep {
        assert sorted[..|sorted|] == sorted;
        NothingDiscarded(inv, q);
        return Completed;
      }
      VictimsAreLast(inv, q, sorted);
      r := DiscardAll(q, inv, sorted[q.keep..]);
    }

    method DiscardAll(q: Policy, ghost inv: Root, last: seq<Candidate>) returns (r: Ending)
      requires Approved(inv, q) && Inventory(root) == inv && NamesOf(last) == Victims(inv, q)
      requires forall i, j | 0 <= i < j < |last| :: last[i].name != last[j].name
      requires forall t | t in root :: !Tombstone(t)
      modifies this
      ensures Between(inv, Inventory(root), q)
      ensures r == Completed ==> Inventory(root) == Pruned(inv, q) && forall t | t in root :: !Tombstone(t)
      ensures r == Completed ==> Deletable(inv, q)
      ensures r == Refused ==> !Deletable(inv, q)
      ensures Troubles() == old(Troubles()) + if r == Completed || r == Refused then 0 else 1
    {
      var i := 0;
      assert NamesOf(last[..0]) == {} && inv - {} == inv;
      while i < |last|
        invariant 0 <= i <= |last| && Inventory(root) == inv - NamesOf(last[..i])
        invariant forall t | t in root :: !Tombstone(t)
        invariant FirstValid(last, i)
        invariant Troubles() == old(Troubles())
      {
        var name := last[i].name;
        VictimIsPresent(inv, q, last, i);
        if !ValidBackupName(name) {
          return Refused;
        }
        var e := Discard(name);
        if e != Done {
          return Ended(e);
        }
        FirstValidNext(last, i);
        i := i + 1;
      }
      assert last[..|last|] == last;
      AllValid(inv, q, last);
      r := Completed;
    }
  }

  /** The run may start, and every backup it must discard has a name it agrees to delete. */
  ghost predicate Deletable(inv: Root, q: Policy) {
    Approved(inv, q) && forall name | name in Victims(inv, q) :: ValidBackupName(name)
  }

  /** The first `n` names are ones it agrees to delete. */
  predicate FirstValid(last: seq<Candidate>, n: nat) {
    forall k | 0 <= k < n && k < |last| :: ValidBackupName(last[k].name)
  }

  lemma FirstValidNext(last: seq<Candidate>, n: nat)
    requires n < |last| && FirstValid(last, n) && ValidBackupName(last[n].name)
    ensures FirstValid(last, n + 1)
  {
  }

  lemma AllValid(inv: Root, q: Policy, last: seq<Candidate>)
    requires Approved(inv, q) && NamesOf(last) == Victims(inv, q)
    requires FirstValid(last, |last|)
    ensures Deletable(inv, q)
  {
  }

  /** A copied directory with a blank in its name: retention is approved and cannot complete. */
  lemma CopiedBackupBlocksRetention() returns (inv: Root, q: Policy)
    ensures Approved(inv, q) && "b c" in Victims(inv, q) && !Deletable(inv, q)
    ensures inv.Keys == {"a", "b c"} && Pruned(inv, q) == map["a" := inv["a"]]
  {
    var x, y := Folder(Some(Manifest("shop", Some(2)))), Folder(Some(Manifest("shop", Some(1))));
    inv := map["a" := x, "b c" := y];
    q := Policy("shop", 1, "");
    assert "b c"[1] == ' ' && !ValidBackupName("b c");
    ShopIsSafe();
    var a, b := Candidate("a", 2), Candidate("b c", 1);
    assert CandidateAt(inv, "shop", "a") == a && CandidateAt(inv, "shop", "b c") == b;
    assert Candidates(inv, "shop") == {a, b};
    NewerIsKept(a, b);
    assert Victims(inv, q) == {"b c"};
  }

  lemma NewerIsKept(a: Candidate, b: Candidate)
    requires a == Candidate("a", 2) && b == Candidate("b c", 1)
    ensures Kept("", {a, b}, 1) == {a}
  {
    assert Ahead("", {a, b}, a) == {} && Ahead("", {a, b}, b) == {a};
  }

  lemma ShopIsSafe()
    ensures SafeUser("shop") == "shop"
  {
    assert TrimLeft("shop") == "shop" && TrimRight("shop") == "shop";
  }

  function NamesOf(s: seq<Candidate>): set<Name> {
    set x | x in s :: x.name
  }

  /** `now` is the inventory `inv` without some of the backups the policy discards. */
  ghost predicate Between(inv: Root, now: Root, q: Policy)
    requires Approved(inv, q)
  {
    exists gone | gone <= Victims(inv, q) :: now == inv - gone
  }

  lemma VictimIsPresent(inv: Root, q: Policy, last: seq<Candidate>, i: nat)
    requires Approved(inv, q) && NamesOf(last) == Victims(inv, q) && i < |last|
    requires forall i, j | 0 <= i < j < |last| :: last[i].name != last[j].name
    ensures last[i].name in Victims(inv, q) && last[i].name in inv - NamesOf(last[..i])
    ensures NamesOf(last[..i]) <= Victims(inv, q) && NamesOf(last[..i + 1]) <= Victims(inv, q)
    ensures NamesOf(last[..i + 1]) == NamesOf(last[..i]) + {last[i].name}
    ensures inv - NamesOf(last[..i + 1]) == inv - NamesOf(last[..i]) - {last[i].name}
  {
    assert last[..i + 1] == last[..i] + [last[i]];
    assert last[i] in last;
  }

  lemma NothingDiscarded(inv: Root, q: Policy)
    requires Approved(inv, q) && Kept(q.protected, Candidates(inv, q.site), q.keep) == Candidates(inv, q.site)
    ensures Victims(inv, q) == {} && Pruned(inv, q) == inv
  {
  }

  /** The tail of the sorted list is what the policy discards. */
  lemma VictimsAreLast(inv: Root, q: Policy, sorted: seq<Candidate>)
    requires Approved(inv, q) && Sorted(q.protected, sorted) && Elements(sorted) == Candidates(inv, q.site)
    requires q.keep < |sorted|
    ensures NamesOf(sorted[q.keep..]) == Victims(inv, q)
    ensures forall i, j | q.keep <= i < j < |sorted| :: sorted[i].name != sorted[j].name
  {
    var kept := Kept(q.protected, Elements(sorted), q.keep);
    FirstAreKept(q.protected, sorted, q.keep);
    forall i | 0 <= i < |sorted| ensures sorted[i] in kept <==> i < q.keep {
      if i < q.keep {
        assert sorted[..q.keep][i] == sorted[i];
      } else {
        BeyondIsNotBefore(q.protected, sorted, q.keep, i);
      }
    }
    forall i, j | 0 <= i < j < |sorted| ensures sorted[i].name != sorted[j].name {
      BetterIsTotal(q.protected, sorted[i], sorted[j]);
      assert sorted[i] in Elements(sorted) && sorted[j] in Elements(sorted);
      CandidatesHaveDistinctNames(inv, q.site);
    }
    TailNames(sorted, q.keep, Victims(inv, q));
  }

  lemma TailNames(sorted: seq<Candidate>, keep: nat, names: set<Name>)
    requires keep <= |sorted|
    requires forall x | x in names :: exists i | keep <= i < |sorted| :: sorted[i].name == x
    requires forall i | keep <= i < |sorted| :: sorted[i].name in names
    ensures NamesOf(sorted[keep..]) == names
  {
    forall x | x in names ensures x in NamesOf(sorted[keep..]) {
      var i :| keep <= i < |sorted| && sorted[i].name == x;
      assert sorted[keep..][i - keep] == sorted[i];
    }
  }

  /** Any number of interrupted runs, then one that completes, end where one uninterrupted run ends. */
  method PruneAgain(store: Store, q: Policy, runs: nat) returns (r: Ending)
    modifies store
    ensures Approved(Inventory(old(store.root)), q) ==> Between(Inventory(old(store.root)), Inventory(store.root), q)
    ensures r == Completed ==> Inventory(store.root) == Pruned(Inventory(old(store.root)), q)
    ensures !Approved(Inventory(old(store.root)), q) ==> Inventory(store.root) == Inventory(old(store.root))
    ensures store.Troubles() == old(store.Troubles()) && Deletable(Inventory(old(store.root)), q) ==> r == Completed
  {
    ghost var inv := Inventory(store.root);
    if Approved(inv, q) {
      assert inv - {} == inv && {} <= Victims(inv, q);
    }
    for i := 0 to runs
      invariant Approved(inv, q) ==> Between(inv, Inventory(store.root), q)
      invariant !Approved(inv, q) ==> Inventory(store.root) == inv
      invariant store.Troubles() >= old(store.Troubles())
    {
      ghost var before := Inventory(store.root);
      r := store.Prune(q);
      Chain(inv, before, Inventory(store.root), q);
    }
    ghost var before := Inventory(store.root);
    r := store.Prune(q);
    Chain(inv, before, Inventory(store.root), q);
  }

  lemma Chain(inv: Root, before: Root, after: Root, q: Policy)
    requires Approved(inv, q) ==> Between(inv, before, q)
    requires Approved(before, q) ==> Between(before, after, q)
    ensures Approved(inv, q) ==> Approved(before, q) && Between(inv, after, q) && Pruned(before, q) == Pruned(inv, q)
  {
    if Approved(inv, q) {
      var gone :| gone <= Victims(inv, q) && before == inv - gone;
      PrunedIsStable(inv, q, gone);
      VictimsShrink(inv, q, gone);
      BetweenAgain(inv, gone, after, q);
    }
  }

  lemma BetweenAgain(inv: Root, gone: set<Name>, after: Root, q: Policy)
    requires Approved(inv, q) && Approved(inv - gone, q) && gone <= Victims(inv, q)
    requires Victims(inv - gone, q) <= Victims(inv, q) && Between(inv - gone, after, q)
    ensures Between(inv, after, q)
  {
    var more :| more <= Victims(inv - gone, q) && after == inv - gone - more;
    RemovedTwice(inv, gone, more);
    assert gone + more <= Victims(inv, q);
  }

  lemma RemovedTwice(inv: Root, gone: set<Name>, more: set<Name>)
    ensures inv - gone - more == inv - (gone + more)
  {
  }

  lemma VictimsShrink(inv: Root, q: Policy, gone: set<Name>)
    requires Approved(inv, q) && gone <= Victims(inv, q) && Approved(inv - gone, q)
    ensures Victims(inv - gone, q) <= Victims(inv, q)
  {
    CandidatesAfter(inv, q.site, gone);
    CandidatesHaveDistinctNames(inv, q.site);
    KeptIsStable(q.protected, Candidates(inv, q.site), Candidates(inv - gone, q.site), q.keep);
  }
}
