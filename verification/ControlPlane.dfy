/**
  Revisioned control-plane state shared by any number of processes.

  One row of `state_blobs` holds the current payload and its revision.  Each process remembers
  the revision and payload it last read, persists with a compare-and-swap on the revision, and
  after a failed swap reloads, merges and retries a bounded number of times.  A database
  statement is one step; a process may crash between any two steps.
*/
module ControlPlane {
  import opened Optional
  import opened StateMerge

  const RETRY_LIMIT := 3
  const ABSENT := -1

  type Pid = nat

  /** Where a process stands in `persistBoundControlPlaneState`. */
  datatype Call =
    | NoCall
    | Swapping(baseRev: int, intended: Blob, payload: Blob, attempt: nat)
    | Reloading(baseRev: int, intended: Blob, payload: Blob, attempt: nat)

  /** A process's recorded revision and snapshot; in a call the snapshot is the merge base. */
  datatype Local = Local(rev: int, snap: Option<Blob>, call: Call)

  /** A row update: the writer's merge base and intent, and the revisions it replaced and created. */
  datatype Commit = Commit(writer: Pid, baseRev: int, base: Blob, intended: Blob, beforeRev: int, rev: int)

  /** `hist` keeps every image the row has held, by revision; `rev` is the row's revision or ABSENT. */
  datatype System = System(rev: int, hist: map<int, Blob>, procs: map<Pid, Local>, commits: seq<Commit>)

  function ImageAt(hist: map<int, Blob>, rev: int): Option<Blob> {
    if rev in hist then Some(hist[rev]) else None
  }

  function NextRev(rev: int): int {
    if rev < 0 then 1 else rev + 1
  }

  datatype Action =
    | Refresh(p: Pid)                  // bind, or reload outside a persist call
    | Begin(p: Pid, intended: Blob)    // a store hands over its new payload
    | SwapOk(p: Pid)                   // the swap commits and is acknowledged
    | SwapUnacknowledged(p: Pid)       // the swap commits but the process sees an error
    | SwapFail(p: Pid)                 // the revision moved, or the statement failed
    | Reload(p: Pid)                   // read the row, then merge, give up or report a conflict
    | ReloadFail(p: Pid)               // the row could not be read
    | SwapUndecoded(p: Pid)            // the swap commits, but the live map cannot be decoded from it
    | ReloadUndecoded(p: Pid)          // the call gives up after a reload, and the row cannot be decoded
    | Transact(p: Pid, next: Blob)     // another writer reads and updates the row in one transaction
    | Crash(p: Pid)

  predicate Enabled(s: System, a: Action) {
    match a
    case Refresh(p) => p in s.procs ==> s.procs[p].call.NoCall?
    case Begin(p, _) => p in s.procs && s.procs[p].call.NoCall?
    case SwapOk(p) => p in s.procs && s.procs[p].call.Swapping? && s.procs[p].rev == s.rev
    case SwapUnacknowledged(p) => p in s.procs && s.procs[p].call.Swapping? && s.procs[p].rev == s.rev
    case SwapFail(p) => p in s.procs && s.procs[p].call.Swapping?
    case Reload(p) => p in s.procs && s.procs[p].call.Reloading?
    case ReloadFail(p) => p in s.procs && s.procs[p].call.Reloading?
    case SwapUndecoded(p) => p in s.procs && s.procs[p].call.Swapping? && s.procs[p].rev == s.rev
    case ReloadUndecoded(p) =>
      && p in s.procs && s.procs[p].call.Reloading? && s.rev in s.hist
      && AfterReload(s.procs[p], s.rev, ImageAt(s.hist, s.rev)).call.NoCall?
    case Transact(_, _) => s.rev >= 0
    case Crash(p) => p in s.procs
  }

  function Commits(s: System, c: Commit, payload: Blob): System {
    s.(rev := c.rev, hist := s.hist[c.rev := payload], commits := s.commits + [c])
  }

  function SwapCommit(s: System, p: Pid): System
    requires p in s.procs && s.procs[p].call.Swapping?
  {
    var call := s.procs[p].call;
    Commits(s, Commit(p, call.baseRev, Entries(s.procs[p].snap), call.intended, s.rev, NextRev(s.rev)), call.payload)
  }

  /** The reload branch of the persist loop, after the row was read. */
  function AfterReload(l: Local, rev: int, remote: Option<Blob>): Local
    requires l.call.Reloading?
  {
    match Merge(Entries(l.snap), l.call.intended, Entries(remote))
    case None => Local(rev, remote, NoCall)
    case Some(merged) =>
      if l.call.attempt == RETRY_LIMIT - 1 then
        Local(rev, remote, NoCall)
      else
        Local(rev, l.snap, Swapping(l.call.baseRev, l.call.intended, merged, l.call.attempt + 1))
  }

  /**
    The revision left by a reload that gives up and then fails to decode the row: a conflict is
    noticed before the new revision is recorded, exhausted retries after it.
  */
  function GivenUpAt(s: System, l: Local): int
    requires l.call.Reloading?
  {
    if Merge(Entries(l.snap), l.call.intended, Entries(ImageAt(s.hist, s.rev))).None? then l.rev else s.rev
  }

  function Reported(call: Call): Call
    requires call.Swapping?
  {
    Reloading(call.baseRev, call.intended, call.payload, call.attempt)
  }

  function Apply(s: System, a: Action): System
    requires Enabled(s, a)
  {
    match a
    case Refresh(p) => s.(procs := s.procs[p := Local(s.rev, ImageAt(s.hist, s.rev), NoCall)])
    case Begin(p, intended) =>
      var l := s.procs[p];
      s.(procs := s.procs[p := l.(call := Swapping(l.rev, intended, intended, 0))])
    case SwapOk(p) =>
      var l := s.procs[p];
      SwapCommit(s, p).(procs := s.procs[p := Local(NextRev(l.rev), Some(l.call.payload), NoCall)])
    case SwapUnacknowledged(p) =>
      var l := s.procs[p];
      SwapCommit(s, p).(procs := s.procs[p := l.(call := Reported(l.call))])
    case SwapFail(p) =>
      var l := s.procs[p];
      s.(procs := s.procs[p := l.(call := Reported(l.call))])
    case Reload(p) => s.(procs := s.procs[p := AfterReload(s.procs[p], s.rev, ImageAt(s.hist, s.rev))])
    case ReloadFail(p) => s.(procs := s.procs[p := s.procs[p].(call := NoCall)])
    case SwapUndecoded(p) =>
      var l := s.procs[p];
      SwapCommit(s, p).(procs := s.procs[p := Local(NextRev(l.rev), l.snap, NoCall)])
    case ReloadUndecoded(p) => s.(procs := s.procs[p := Local(GivenUpAt(s, s.procs[p]), s.procs[p].snap, NoCall)])
    case Transact(p, next) =>
      Commits(s, Commit(p, s.rev, Entries(ImageAt(s.hist, s.rev)), next, s.rev, NextRev(s.rev)), next)
    case Crash(p) => s.(procs := s.procs - {p})
  }

  /**
    The steps outside the guarantee: a call ends with an error after the recorded revision has
    moved to an image that differs from the snapshot.
  */
  predicate Desynchronises(s: System, a: Action)
    requires Enabled(s, a)
  {
    match a
    case ReloadFail(p) => ImageAt(s.hist, s.procs[p].rev) != s.procs[p].snap
    case SwapUndecoded(p) => Some(s.procs[p].call.payload) != s.procs[p].snap
    case ReloadUndecoded(p) => ImageAt(s.hist, GivenUpAt(s, s.procs[p])) != s.procs[p].snap
    case _ => false
  }

  predicate Initial(s: System) {
    && s.procs == map[] && s.commits == []
    && ((s.rev == ABSENT && s.hist == map[]) || (s.rev >= 0 && s.hist.Keys == {s.rev}))
  }

  /** `actions` is a run from `s`. */
  predicate Possible(s: System, actions: seq<Action>)
    decreases |actions|
  {
    actions == [] || (Enabled(s, actions[0]) && Possible(Apply(s, actions[0]), actions[1..]))
  }

  function Run(s: System, actions: seq<Action>): System
    requires Possible(s, actions)
    decreases |actions|
  {
    if actions == [] then s else Run(Apply(s, actions[0]), actions[1..])
  }

  predicate KeepsSync(s: System, actions: seq<Action>)
    requires Possible(s, actions)
    decreases |actions|
  {
    actions == [] || (!Desynchronises(s, actions[0]) && KeepsSync(Apply(s, actions[0]), actions[1..]))
  }

  // ---------------------------------------------------------------------------------------
  // The invariant
  // ---------------------------------------------------------------------------------------

  predicate Recorded(s: System, rev: int) {
    rev == ABSENT || rev in s.hist
  }

  predicate HistoryOk(s: System) {
    && (s.rev < 0 ==> s.rev == ABSENT && s.hist == map[])
    && Recorded(s, s.rev)
    && (forall r | r in s.hist :: 0 <= r <= s.rev)
  }

  predicate LocalOk(s: System, l: Local) {
    && Recorded(s, l.rev)
    && match l.call
       case NoCall => l.snap == ImageAt(s.hist, l.rev)
       case Swapping(baseRev, intended, payload, attempt) => CallOk(s, l, baseRev, intended, payload, attempt)
       case Reloading(baseRev, intended, payload, attempt) => CallOk(s, l, baseRev, intended, payload, attempt)
  }

  predicate CallOk(s: System, l: Local, baseRev: int, intended: Blob, payload: Blob, attempt: nat) {
    && Recorded(s, baseRev)
    && l.snap == ImageAt(s.hist, baseRev)
    && attempt < RETRY_LIMIT
    && Merge(Entries(l.snap), intended, Entries(ImageAt(s.hist, l.rev))) == Some(payload)
  }

  /** The commit wrote exactly the merge of its base, its intent and the image it replaced. */
  predicate CommitOk(s: System, c: Commit) {
    && Recorded(s, c.baseRev) && Recorded(s, c.beforeRev) && c.rev in s.hist
    && c.baseRev <= c.beforeRev && c.rev == NextRev(c.beforeRev)
    && c.base == Entries(ImageAt(s.hist, c.baseRev))
    && Merge(c.base, c.intended, Entries(ImageAt(s.hist, c.beforeRev))) == Some(s.hist[c.rev])
  }

  /** The commits are exactly the row's successive updates. */
  predicate Chained(s: System) {
    && (forall i | 0 < i < |s.commits| :: s.commits[i].beforeRev == s.commits[i - 1].rev)
    && (s.commits != [] ==> s.commits[|s.commits| - 1].rev == s.rev)
  }

  /** In every state of the run. */
  predicate AlwaysInv(s: System, actions: seq<Action>)
    requires Possible(s, actions)
    decreases |actions|
  {
    Inv(s) && (actions == [] || AlwaysInv(Apply(s, actions[0]), actions[1..]))
  }

  predicate Inv(s: System) {
    && HistoryOk(s)
    && Chained(s)
    && (forall p | p in s.procs :: LocalOk(s, s.procs[p]))
    && (forall i | 0 <= i < |s.commits| :: CommitOk(s, s.commits[i]))
  }

  /** `t` has one more revision than `s`. */
  ghost predicate HistoryGrows(s: System, t: System) {
    forall r | Recorded(s, r) :: Recorded(t, r) && ImageAt(t.hist, r) == ImageAt(s.hist, r)
  }

  lemma LocalKept(s: System, t: System, l: Local)
    requires HistoryGrows(s, t) && LocalOk(s, l)
    ensures LocalOk(t, l)
  {
  }

  lemma CommitKept(s: System, t: System, c: Commit)
    requires HistoryGrows(s, t) && CommitOk(s, c)
    ensures CommitOk(t, c)
  {
    assert ImageAt(t.hist, c.rev) == ImageAt(s.hist, c.rev);
  }

  lemma GrowthKeepsRecords(s: System, c: Commit, payload: Blob)
    requires Inv(s) && c.rev == NextRev(s.rev) && c.beforeRev == s.rev && Recorded(s, c.baseRev)
    requires c.base == Entries(ImageAt(s.hist, c.baseRev))
    requires Merge(c.base, c.intended, Entries(ImageAt(s.hist, s.rev))) == Some(payload)
    ensures Inv(Commits(s, c, payload))
    ensures forall r | Recorded(s, r) :: ImageAt(Commits(s, c, payload).hist, r) == ImageAt(s.hist, r)
  {
    var t := Commits(s, c, payload);
    assert c.rev !in s.hist;
    assert HistoryGrows(s, t);
    forall p | p in t.procs ensures LocalOk(t, t.procs[p]) {
      LocalKept(s, t, s.procs[p]);
    }
    forall i | 0 <= i < |t.commits| ensures CommitOk(t, t.commits[i]) {
      if i < |s.commits| {
        CommitKept(s, t, s.commits[i]);
      }
    }
  }

  /** Replacing one process's local state keeps the invariant when the new state is sound. */
  lemma LocalStep(s: System, p: Pid, l: Local)
    requires Inv(s) && LocalOk(s, l)
    ensures Inv(s.(procs := s.procs[p := l]))
  {
    var t := s.(procs := s.procs[p := l]);
    forall q | q in t.procs ensures LocalOk(t, t.procs[q]) {
      if q != p { assert LocalOk(s, s.procs[q]); }
    }
    forall i | 0 <= i < |t.commits| ensures CommitOk(t, t.commits[i]) {
      assert CommitOk(s, s.commits[i]);
    }
  }

  lemma StepKeepsInv(s: System, a: Action)
    requires Inv(s) && Enabled(s, a) && !Desynchronises(s, a)
    ensures Inv(Apply(s, a))
  {
    match a {
      case Refresh(p) =>
        LocalStep(s, p, Local(s.rev, ImageAt(s.hist, s.rev), NoCall));
      case Begin(p, intended) =>
        var l := s.procs[p];
        MergeUnits(Entries(l.snap), intended);
        LocalStep(s, p, l.(call := Swapping(l.rev, intended, intended, 0)));
      case SwapOk(p) => SwapKeepsInv(s, p);
      case SwapUnacknowledged(p) => SwapKeepsInv(s, p);
      case SwapFail(p) =>
        var l := s.procs[p];
        assert LocalOk(s, l);
        LocalStep(s, p, l.(call := Reported(l.call)));
      case Reload(p) =>
        assert LocalOk(s, s.procs[p]);
        LocalStep(s, p, AfterReload(s.procs[p], s.rev, ImageAt(s.hist, s.rev)));
      case ReloadFail(p) =>
        assert LocalOk(s, s.procs[p]);
        LocalStep(s, p, s.procs[p].(call := NoCall));
      case SwapUndecoded(p) => SwapUndecodedKeepsInv(s, p);
      case ReloadUndecoded(p) =>
        assert LocalOk(s, s.procs[p]);
        LocalStep(s, p, Local(GivenUpAt(s, s.procs[p]), s.procs[p].snap, NoCall));
      case Transact(p, next) =>
        MergeUnits(Entries(ImageAt(s.hist, s.rev)), next);
        GrowthKeepsRecords(s, Commit(p, s.rev, Entries(ImageAt(s.hist, s.rev)), next, s.rev, NextRev(s.rev)), next);
      case Crash(p) => CrashKeepsInv(s, p);
    }
  }

  lemma CrashKeepsInv(s: System, p: Pid)
    requires Inv(s)
    ensures Inv(s.(procs := s.procs - {p}))
  {
    var t := s.(procs := s.procs - {p});
    forall q | q in t.procs ensures LocalOk(t, t.procs[q]) {
      LocalKept(s, t, s.procs[q]);
    }
    forall i | 0 <= i < |t.commits| ensures CommitOk(t, t.commits[i]) {
      CommitKept(s, t, s.commits[i]);
    }
  }

  lemma SwapUndecodedKeepsInv(s: System, p: Pid)
    requires Inv(s) && Enabled(s, SwapUndecoded(p)) && !Desynchronises(s, SwapUndecoded(p))
    ensures Inv(Apply(s, SwapUndecoded(p)))
  {
    var t := CommitStep(s, p);
    assert t.procs == s.procs;
    LocalStep(t, p, Local(t.rev, s.procs[p].snap, NoCall));
  }

  /** Exactly the desynchronising steps leave the invariant. */
  lemma StepKeepsInvExactly(s: System, a: Action)
    requires Inv(s) && Enabled(s, a)
    ensures Inv(Apply(s, a)) <==> !Desynchronises(s, a)
  {
    if Desynchronises(s, a) {
      assert LocalOk(s, s.procs[a.p]);
      assert !LocalOk(Apply(s, a), Apply(s, a).procs[a.p]);
    } else {
      StepKeepsInv(s, a);
    }
  }

  lemma SwapKeepsInv(s: System, p: Pid)
    requires Inv(s) && Enabled(s, SwapOk(p))
    ensures Inv(Apply(s, SwapOk(p))) && Inv(Apply(s, SwapUnacknowledged(p)))
  {
    var t := CommitStep(s, p);
    var l := s.procs[p];
    assert t.procs == s.procs;
    LocalStep(t, p, Local(t.rev, Some(l.call.payload), NoCall));
    assert LocalOk(t, t.procs[p]);
    LocalStep(t, p, l.(call := Reported(l.call)));
  }

  lemma CommitStep(s: System, p: Pid) returns (t: System)
    requires Inv(s) && p in s.procs && s.procs[p].call.Swapping? && s.procs[p].rev == s.rev
    ensures t == SwapCommit(s, p) && Inv(t)
  {
    var call := s.procs[p].call;
    assert LocalOk(s, s.procs[p]);
    t := SwapCommit(s, p);
    GrowthKeepsRecords(s, Commit(p, call.baseRev, Entries(s.procs[p].snap), call.intended, s.rev, NextRev(s.rev)),
                       call.payload);
  }

  lemma {:induction false} RunKeepsInv(s: System, actions: seq<Action>)
    requires Inv(s) && Possible(s, actions) && KeepsSync(s, actions)
    ensures Inv(Run(s, actions))
    decreases |actions|
  {
    if actions != [] {
      StepKeepsInv(s, actions[0]);
      RunKeepsInv(Apply(s, actions[0]), actions[1..]);
    }
  }

  /** A run stays within the invariant throughout exactly when none of its steps desynchronises. */
  lemma {:induction false} RunKeepsInvExactly(s: System, actions: seq<Action>)
    requires Inv(s) && Possible(s, actions)
    ensures AlwaysInv(s, actions) <==> KeepsSync(s, actions)
    decreases |actions|
  {
    if actions != [] {
      StepKeepsInvExactly(s, actions[0]);
      if !Desynchronises(s, actions[0]) {
        RunKeepsInvExactly(Apply(s, actions[0]), actions[1..]);
      }
    }
  }

  // ---------------------------------------------------------------------------------------
  // What every interleaving guarantees
  // ---------------------------------------------------------------------------------------

  function Before(s: System, c: Commit): Blob { Entries(ImageAt(s.hist, c.beforeRev)) }
  function After(s: System, c: Commit): Blob { Entries(ImageAt(s.hist, c.rev)) }

  /**
    In every run, every commit replaces the image it found by exactly the three-way merge; seen
    key by key it is a compare-and-swap, so it never overwrites a value its writer had not read.
    Every idle process's snapshot is the image the row held at the process's recorded revision.
  */
  lemma EveryCommitIsAMerge(s0: System, actions: seq<Action>, i: nat, k: Key)
    requires Initial(s0) && Possible(s0, actions) && KeepsSync(s0, actions)
    requires i < |Run(s0, actions).commits|
    ensures var s := Run(s0, actions);
            var c := s.commits[i];
            && c.base == Entries(ImageAt(s.hist, c.baseRev)) && c.baseRev <= c.beforeRev
            && Merge(c.base, c.intended, Before(s, c)) == Some(After(s, c))
            && (i > 0 ==> c.beforeRev == s.commits[i - 1].rev)
            && (At(c.intended, k) == At(c.base, k) ==> At(After(s, c), k) == At(Before(s, c), k))
            && (At(After(s, c), k) != At(Before(s, c), k) ==>
                  At(Before(s, c), k) == At(c.base, k) && At(After(s, c), k) == At(c.intended, k))
  {
    RunKeepsInv(s0, actions);
    var s := Run(s0, actions);
    var c := s.commits[i];
    assert CommitOk(s, c);
    MergeIsKeywiseSwap(c.base, c.intended, Before(s, c), After(s, c), k);
  }

  lemma SnapshotsAreHistory(s0: System, actions: seq<Action>, p: Pid)
    requires Initial(s0) && Possible(s0, actions) && KeepsSync(s0, actions)
    requires p in Run(s0, actions).procs
    ensures var s := Run(s0, actions);
            var l := s.procs[p];
            && l.snap == ImageAt(s.hist, if l.call.NoCall? then l.rev else l.call.baseRev)
            && (l.rev == ABSENT || l.rev in s.hist) && l.rev <= s.rev
  {
    RunKeepsInv(s0, actions);
    assert LocalOk(Run(s0, actions), Run(s0, actions).procs[p]);
  }

  /**
    No committed key change is silently lost: if the value commit `i` left at `k` is gone after
    commit `j`, some writer between them had read exactly that value and chose to replace it.
  */
  lemma {:induction false} CommittedChangeSurvives(s0: System, actions: seq<Action>, i: nat, j: nat, k: Key)
    requires Initial(s0) && Possible(s0, actions) && KeepsSync(s0, actions)
    requires i <= j < |Run(s0, actions).commits|
    ensures var s := Run(s0, actions);
            At(After(s, s.commits[j]), k) != At(After(s, s.commits[i]), k) ==>
              exists m | i < m <= j ::
                && At(s.commits[m].base, k) == At(After(s, s.commits[i]), k)
                && At(s.commits[m].intended, k) != At(s.commits[m].base, k)
    decreases j - i
  {
    var s := Run(s0, actions);
    if i < j && At(After(s, s.commits[j]), k) != At(After(s, s.commits[i]), k) {
      EveryCommitIsAMerge(s0, actions, j, k);
      if At(After(s, s.commits[j - 1]), k) == At(After(s, s.commits[i]), k) {
        assert At(s.commits[j].base, k) == At(After(s, s.commits[i]), k);
      } else {
        CommittedChangeSurvives(s0, actions, i, j - 1, k);
      }
    }
  }

  /** A commit that was not acknowledged is found by the reload, and its retry writes the same image. */
  lemma RetryAfterUnacknowledgedSwap(s: System, p: Pid)
    requires Inv(s) && Enabled(s, SwapUnacknowledged(p)) && s.procs[p].call.attempt < RETRY_LIMIT - 1
    ensures var t := Apply(s, SwapUnacknowledged(p));
            && Enabled(t, Reload(p))
            && var u := Apply(t, Reload(p));
            && Enabled(u, SwapOk(p))
            && var v := Apply(u, SwapOk(p));
            && t.hist[t.rev] == v.hist[v.rev] == s.procs[p].call.payload
            && v.procs[p] == Local(v.rev, Some(s.procs[p].call.payload), NoCall)
  {
    var l := s.procs[p];
    assert LocalOk(s, l);
    MergeIsIdempotent(Entries(l.snap), l.call.intended, Entries(ImageAt(s.hist, l.rev)), l.call.payload);
  }

  /** A process that has just refreshed and meets nobody writes exactly what it intends. */
  lemma UncontendedPersist(s: System, p: Pid, intended: Blob)
    requires Inv(s) && Enabled(s, Refresh(p))
    ensures var r := Apply(s, Refresh(p));
            && Enabled(r, Begin(p, intended)) && r.procs[p].snap == ImageAt(s.hist, s.rev)
            && var t := Apply(r, Begin(p, intended));
            && Enabled(t, SwapOk(p))
            && var u := Apply(t, SwapOk(p));
            && u.rev == NextRev(s.rev) && u.hist == s.hist[u.rev := intended]
            && u.procs == s.procs[p := Local(u.rev, Some(intended), NoCall)]
  {
  }

  /** A key the call and a peer both changed, differently. */
  ghost predicate Contested(s: System, p: Pid, k: Key)
    requires p in s.procs && !s.procs[p].call.NoCall?
  {
    Clash(Entries(s.procs[p].snap), s.procs[p].call.intended, Entries(ImageAt(s.hist, s.rev)), k)
  }

  /**
    What a reload decides.  Over a contested key, or on the last attempt, the call gives up with the
    row it read as its new snapshot.  Otherwise it swaps again, and if no peer comes before it, the
    row then has its changed keys as it intends them and every other key as it was.
  */
  lemma ReloadDecides(s: System, p: Pid, k: Key)
    requires Inv(s) && Enabled(s, Reload(p))
    ensures var l, t := s.procs[p], Apply(s, Reload(p));
            if (exists c :: Contested(s, p, c)) || l.call.attempt == 2 then
              t == s.(procs := s.procs[p := Local(s.rev, ImageAt(s.hist, s.rev), NoCall)])
            else
              && Enabled(t, SwapOk(p))
              && var u := Apply(t, SwapOk(p)); var row := Entries(ImageAt(u.hist, u.rev));
              && u.rev == NextRev(s.rev) && u.procs[p] == Local(u.rev, Some(row), NoCall)
              && At(row, k) == (if At(l.call.intended, k) != At(Entries(l.snap), k)
                                then At(l.call.intended, k) else At(Entries(ImageAt(s.hist, s.rev)), k))
  {
    var l := s.procs[p];
    var base, remote := Entries(l.snap), Entries(ImageAt(s.hist, s.rev));
    MergeFailsOnClash(base, l.call.intended, remote);
    if Merge(base, l.call.intended, remote).None? {
      var c :| Clash(base, l.call.intended, remote, c);
      assert Contested(s, p, c);
    } else {
      MergeIsKeywiseSwap(base, l.call.intended, remote, Merge(base, l.call.intended, remote).value, k);
      forall c ensures !Contested(s, p, c) {
        assert !Clash(base, l.call.intended, remote, c);
      }
    }
  }

  // ---------------------------------------------------------------------------------------
  // The run outside the guarantee
  // ---------------------------------------------------------------------------------------

  lemma Prepend(s: System, a: Action, rest: seq<Action>)
    requires Enabled(s, a) && Possible(Apply(s, a), rest)
    ensures Possible(s, [a] + rest)
    ensures Run(s, [a] + rest) == Run(Apply(s, a), rest)
    ensures KeepsSync(s, [a] + rest) <==> !Desynchronises(s, a) && KeepsSync(Apply(s, a), rest)
  {
    assert ([a] + rest)[1..] == rest;
  }

  /**
    Outside the guarantee an update is lost.  A database outage that fails a swap and then the
    reload, after one successful reload, leaves the new revision with the old snapshot.  The next
    persist swaps at that revision without merging: its commit replaces the peer's "9" by a "1"
    that its writer had not changed.
  */
  lemma ReloadFailureLosesPeerChange() returns (s0: System, actions: seq<Action>, c: Commit)
    ensures Initial(s0) && Possible(s0, actions) && !KeepsSync(s0, actions)
    ensures c in Run(s0, actions).commits
    ensures At(c.base, "a") == At(c.intended, "a") == Some("1")
    ensures var s := Run(s0, actions);
            At(Before(s, c), "a") == Some("9") && At(After(s, c), "a") == Some("1")
  {
    var b1: Blob, b9: Blob := map["a" := "1"], map["a" := "9"];
    var x: Blob, y: Blob := map["a" := "1", "b" := "2"], map["a" := "1", "c" := "3"];
    var m: Blob := map["a" := "9", "b" := "2"];
    s0 := System(1, map[1 := b1], map[], []);
    var s2, head := OutageStarts(s0, b1, x);
    var s5, body := PeerCommitsAndReload(s2, b1, b9, x, m);
    assert b1["a"] != b9["a"];
    var s9, tail := OutageSuffix(s5, b1, b9, x, y, m);
    Concatenate(s2, body, tail);
    Concatenate(s0, head, body + tail);
    actions := head + (body + tail);
    c := s9.commits[1];
  }

  /**
    So it is when the row a call has just written cannot be decoded: the new revision stands with
    the old snapshot, and the next persist replaces the peer's "9".
  */
  lemma DecodeFailureLosesPeerChange() returns (s0: System, actions: seq<Action>, c: Commit)
    ensures Initial(s0) && Possible(s0, actions) && !KeepsSync(s0, actions)
    ensures c in Run(s0, actions).commits
    ensures At(c.base, "a") == At(c.intended, "a") == Some("1")
    ensures var s := Run(s0, actions);
            At(Before(s, c), "a") == Some("9") && At(After(s, c), "a") == Some("1")
  {
    var b1: Blob, b9: Blob := map["a" := "1"], map["a" := "9"];
    var x: Blob, y: Blob := map["a" := "1", "b" := "2"], map["a" := "1", "c" := "3"];
    var m: Blob := map["a" := "9", "b" := "2"];
    s0 := System(1, map[1 := b1], map[], []);
    var s2, head := OutageStarts(s0, b1, x);
    var s5, body := PeerCommitsAndReload(s2, b1, b9, x, m);
    assert "b" in m && "b" !in b1;
    var s8, tail := UndecodedSuffix(s5, b1, b9, x, y, m);
    Concatenate(s2, body, tail);
    Concatenate(s0, head, body + tail);
    actions := head + (body + tail);
    c := s8.commits[2];
  }

  lemma UndecodedSuffix(s5: System, b1: Blob, b9: Blob, x: Blob, y: Blob, m: Blob)
    returns (s8: System, tail: seq<Action>)
    requires s5.rev == 2 && s5.hist == map[1 := b1, 2 := b9] && |s5.commits| == 1
    requires s5.procs == map[0 := Local(2, Some(b1), Swapping(1, x, m, 1))] && m != b1
    ensures Possible(s5, tail) && Run(s5, tail) == s8 && !KeepsSync(s5, tail)
    ensures s8.hist == map[1 := b1, 2 := b9, 3 := m, 4 := y]
    ensures |s8.commits| == 3 && s8.commits[2] == Commit(0, 3, b1, y, 3, 4)
  {
    var s6 := Apply(s5, SwapUndecoded(0));
    var s7 := Apply(s6, Begin(0, y));
    s8 := Apply(s7, SwapOk(0));
    Prepend(s7, SwapOk(0), []);
    Prepend(s6, Begin(0, y), [SwapOk(0)] + []);
    Prepend(s5, SwapUndecoded(0), [Begin(0, y)] + ([SwapOk(0)] + []));
    tail := [SwapUndecoded(0)] + ([Begin(0, y)] + ([SwapOk(0)] + []));
  }

  /** And so it is when the retries are exhausted and the row read last cannot be decoded. */
  lemma ExhaustedRetriesLosePeerChange() returns (s0: System, actions: seq<Action>, c: Commit)
    ensures Initial(s0) && Possible(s0, actions) && !KeepsSync(s0, actions)
    ensures c in Run(s0, actions).commits
    ensures At(c.base, "a") == At(c.intended, "a") == Some("1")
    ensures var s := Run(s0, actions);
            At(Before(s, c), "a") == Some("9") && At(After(s, c), "a") == Some("1")
  {
    var b1: Blob, b9: Blob := map["a" := "1"], map["a" := "9"];
    var x: Blob, y: Blob := map["a" := "1", "b" := "2"], map["a" := "1", "c" := "3"];
    var m: Blob := map["a" := "9", "b" := "2"];
    s0 := System(1, map[1 := b1], map[], []);
    var s2, head := OutageStarts(s0, b1, x);
    var s5, body := PeerCommitsAndReload(s2, b1, b9, x, m);
    assert b1["a"] != b9["a"];
    MergeIsReconciliation(b1, x, b9, m);
    var s11, tail := ExhaustedSuffix(s5, b1, b9, x, y, m);
    Concatenate(s2, body, tail);
    Concatenate(s0, head, body + tail);
    actions := head + (body + tail);
    c := s11.commits[1];
  }

  /** The second and the third swap fail, and the reload after the third cannot be decoded. */
  lemma ExhaustedSuffix(s5: System, b1: Blob, b9: Blob, x: Blob, y: Blob, m: Blob)
    returns (s11: System, tail: seq<Action>)
    requires s5.rev == 2 && s5.hist == map[1 := b1, 2 := b9] && |s5.commits| == 1
    requires s5.procs == map[0 := Local(2, Some(b1), Swapping(1, x, m, 1))] && b1 != b9
    requires Merge(b1, x, b9) == Some(m)
    ensures Possible(s5, tail) && Run(s5, tail) == s11 && !KeepsSync(s5, tail)
    ensures s11.hist == map[1 := b1, 2 := b9, 3 := y]
    ensures |s11.commits| == 2 && s11.commits[1] == Commit(0, 2, b1, y, 2, 3)
  {
    var s6 := Apply(s5, SwapFail(0));
    var s7 := Apply(s6, Reload(0));
    var rest;
    s11, rest := GivesUpUndecoded(s7, b1, b9, x, y, m);
    Prepend(s6, Reload(0), rest);
    Prepend(s5, SwapFail(0), [Reload(0)] + rest);
    tail := [SwapFail(0)] + ([Reload(0)] + rest);
  }

  lemma GivesUpUndecoded(s7: System, b1: Blob, b9: Blob, x: Blob, y: Blob, m: Blob)
    returns (s11: System, tail: seq<Action>)
    requires s7.rev == 2 && s7.hist == map[1 := b1, 2 := b9] && |s7.commits| == 1
    requires s7.procs == map[0 := Local(2, Some(b1), Swapping(1, x, m, 2))] && b1 != b9
    requires Merge(b1, x, b9) == Some(m)
    ensures Possible(s7, tail) && Run(s7, tail) == s11 && !KeepsSync(s7, tail)
    ensures s11.hist == map[1 := b1, 2 := b9, 3 := y]
    ensures |s11.commits| == 2 && s11.commits[1] == Commit(0, 2, b1, y, 2, 3)
  {
    var s8 := Apply(s7, SwapFail(0));
    var s9 := Apply(s8, ReloadUndecoded(0));
    var s10 := Apply(s9, Begin(0, y));
    s11 := Apply(s10, SwapOk(0));
    Prepend(s10, SwapOk(0), []);
    Prepend(s9, Begin(0, y), [SwapOk(0)] + []);
    Prepend(s8, ReloadUndecoded(0), [Begin(0, y)] + ([SwapOk(0)] + []));
    Prepend(s7, SwapFail(0), [ReloadUndecoded(0)] + ([Begin(0, y)] + ([SwapOk(0)] + [])));
    tail := [SwapFail(0)] + ([ReloadUndecoded(0)] + ([Begin(0, y)] + ([SwapOk(0)] + [])));
  }

  lemma {:induction false} Concatenate(s: System, xs: seq<Action>, ys: seq<Action>)
    requires Possible(s, xs) && Possible(Run(s, xs), ys)
    ensures Possible(s, xs + ys) && Run(s, xs + ys) == Run(Run(s, xs), ys)
    ensures KeepsSync(s, xs + ys) ==> KeepsSync(Run(s, xs), ys)
    decreases |xs|
  {
    if xs == [] {
      assert xs + ys == ys;
    } else {
      Concatenate(Apply(s, xs[0]), xs[1..], ys);
      assert xs + ys == [xs[0]] + (xs[1..] + ys);
      Prepend(s, xs[0], xs[1..] + ys);
    }
  }

  lemma OutageStarts(s0: System, b1: Blob, x: Blob) returns (s2: System, head: seq<Action>)
    requires s0 == System(1, map[1 := b1], map[], [])
    ensures Possible(s0, head) && Run(s0, head) == s2
    ensures s2 == System(1, map[1 := b1], map[0 := Local(1, Some(b1), Swapping(1, x, x, 0))], [])
  {
    var s1 := Apply(s0, Refresh(0));
    s2 := Apply(s1, Begin(0, x));
    Prepend(s1, Begin(0, x), []);
    head := [Refresh(0)] + ([Begin(0, x)] + []);
    Prepend(s0, Refresh(0), [Begin(0, x)] + []);
  }

  lemma PeerCommitsAndReload(s2: System, b1: Blob, b9: Blob, x: Blob, m: Blob)
    returns (s5: System, body: seq<Action>)
    requires s2 == System(1, map[1 := b1], map[0 := Local(1, Some(b1), Swapping(1, x, x, 0))], [])
    requires b1 == map["a" := "1"] && b9 == map["a" := "9"]
    requires x == map["a" := "1", "b" := "2"] && m == map["a" := "9", "b" := "2"]
    ensures Possible(s2, body) && Run(s2, body) == s5
    ensures s5.rev == 2 && s5.hist == map[1 := b1, 2 := b9] && |s5.commits| == 1
    ensures s5.procs == map[0 := Local(2, Some(b1), Swapping(1, x, m, 1))]
  {
    var s3 := Apply(s2, Transact(1, b9));
    var s4 := Apply(s3, SwapFail(0));
    var last := ReloadMerges(s4, b1, b9, x, m);
    s5 := Apply(s4, Reload(0));
    Prepend(s3, SwapFail(0), last);
    body := [Transact(1, b9)] + ([SwapFail(0)] + last);
    Prepend(s2, Transact(1, b9), [SwapFail(0)] + last);
  }

  lemma ReloadMerges(s: System, b1: Blob, b9: Blob, x: Blob, m: Blob) returns (last: seq<Action>)
    requires s.rev == 2 && s.hist == map[1 := b1, 2 := b9] && |s.commits| == 1
    requires s.procs == map[0 := Local(1, Some(b1), Reloading(1, x, x, 0))]
    requires b1 == map["a" := "1"] && b9 == map["a" := "9"]
    requires x == map["a" := "1", "b" := "2"] && m == map["a" := "9", "b" := "2"]
    ensures last == [Reload(0)] + [] && Possible(s, last) && Run(s, last) == Apply(s, Reload(0))
    ensures Apply(s, Reload(0)).procs == map[0 := Local(2, Some(b1), Swapping(1, x, m, 1))]
  {
    MergeIsReconciliation(b1, x, b9, m);
    last := [Reload(0)] + [];
    Prepend(s, Reload(0), []);
  }

  lemma OutageSuffix(s5: System, b1: Blob, b9: Blob, x: Blob, y: Blob, m: Blob)
    returns (s9: System, tail: seq<Action>)
    requires s5.rev == 2 && s5.hist == map[1 := b1, 2 := b9] && |s5.commits| == 1
    requires s5.procs == map[0 := Local(2, Some(b1), Swapping(1, x, m, 1))] && b1 != b9
    ensures Possible(s5, tail) && Run(s5, tail) == s9 && !KeepsSync(s5, tail)
    ensures s9.hist == map[1 := b1, 2 := b9, 3 := y]
    ensures |s9.commits| == 2 && s9.commits[1] == Commit(0, 2, b1, y, 2, 3)
  {
    var s6 := Apply(s5, SwapFail(0));
    var s7 := Apply(s6, ReloadFail(0));
    var s8 := Apply(s7, Begin(0, y));
    s9 := Apply(s8, SwapOk(0));
    Prepend(s8, SwapOk(0), []);
    Prepend(s7, Begin(0, y), [SwapOk(0)] + []);
    Prepend(s6, ReloadFail(0), [Begin(0, y)] + ([SwapOk(0)] + []));
    Prepend(s5, SwapFail(0), [ReloadFail(0)] + ([Begin(0, y)] + ([SwapOk(0)] + [])));
    tail := [SwapFail(0)] + ([ReloadFail(0)] + ([Begin(0, y)] + ([SwapOk(0)] + [])));
  }
}
