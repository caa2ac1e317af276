/** What whole runs of application operations, compensations and recoveries come to. */
module ActivationResults {
  import opened Optional
  import opened Activation
  import opened ActivationRuns

  ghost predicate Steps(cfg: Config, y: System, steps: seq<Step>, z: System)
    decreases |steps|
  {
    if steps == [] then y == z
    else Enabled(cfg, y, steps[0]) && Steps(cfg, Apply(cfg, y, steps[0]), steps[1..], z)
  }

  /** Every operation of the run began on a clean site. */
  ghost predicate AllClean(cfg: Config, y: System, steps: seq<Step>, z: System)
    requires Steps(cfg, y, steps, z)
    decreases |steps|
  {
    steps == [] || (Clean(cfg, y, steps[0]) && AllClean(cfg, Apply(cfg, y, steps[0]), steps[1..], z))
  }

  predicate Initial(y: System) {
    y.disk.journals == map[] && y.workers == map[] && y.log == map[] && y.latest == map[]
  }

  lemma {:induction false} RunKeepsInv(cfg: Config, y: System, steps: seq<Step>, z: System)
    requires CodecOk(cfg) && Inv(cfg, y) && Steps(cfg, y, steps, z) && AllClean(cfg, y, steps, z)
    ensures Inv(cfg, z)
    decreases |steps|
  {
    if steps != [] {
      var next := Apply(cfg, y, steps[0]);
      StepKeepsInv(cfg, y, steps[0]);
      assert Inv(cfg, next);
      RunKeepsInv(cfg, next, steps[1..], z);
    }
  }

  /** The promise the disk makes to a site is what its last operation has come to. */
  lemma DiskPromisesDue(cfg: Config, z: System, s: Site)
    requires Inv(cfg, z) && s in z.latest
    ensures AllAcceptable(cfg, z.disk) && FateOk(cfg, z.log[z.latest[s]])
    ensures Promises(cfg, z.disk, s, Due(cfg, z.log[z.latest[s]]))
  {
    forall id | id in z.disk.journals ensures Acceptable(cfg, z.disk.journals[id]) {
      var t := z.disk.journals[id].site;
      assert SiteOk(cfg, z.disk, t, id, z.log[id]);
      assert z.disk.journals[id].(phase := Committed) == z.log[id].journal.(phase := Committed);
    }
    var id := z.latest[s];
    var f := z.log[id];
    assert SiteOk(cfg, z.disk, s, id, f);
    if id in z.disk.journals {
      assert z.disk.journals[id].(phase := Committed) == f.journal.(phase := Committed);
      assert Journaled(z.disk, s);
    }
  }

  lemma CleanRunIsWhole(cfg: Config, y: System, steps: seq<Step>, z: System, s: Site)
    requires CodecOk(cfg) && Initial(y) && Steps(cfg, y, steps, z) && AllClean(cfg, y, steps, z) && s in z.latest
    ensures z.latest[s] in z.log && FateOk(cfg, z.log[z.latest[s]]) && AllAcceptable(cfg, z.disk)
    ensures Promises(cfg, z.disk, s, Due(cfg, z.log[z.latest[s]]))
    ensures z.disk.journals == map[] ==> Same(At(z.disk, s), Due(cfg, z.log[z.latest[s]]))
  {
    RunKeepsInv(cfg, y, steps, z);
    DiskPromisesDue(cfg, z, s);
  }

  /** While an operation is applied, a failed effect or a cancellation turns it round: what follows leads back. */
  lemma CompensationFollows(cfg: Config, y: System, a: Step)
    requires Inv(cfg, y) && Enabled(cfg, y, a) && (a.Cancel? || (a.Do? && !a.fault.Works?))
    ensures y.workers[a.p].stage != Applying ==> a.p !in Apply(cfg, y, a).workers
    ensures y.workers[a.p].stage == Applying ==>
        var w, z := y.workers[a.p], Apply(cfg, y, a);
        && a.p in z.workers && z.workers[a.p].stage == Undoing && z.workers[a.p].id == w.id
        && Installing(z.workers[a.p].todo)
        && Same(Play(At(z.disk, w.journal.site), z.workers[a.p].todo), PreviousOf(w.journal))
  {
    AtWork(cfg, y, a.p);
    var w := y.workers[a.p];
    if w.stage == Applying {
      UndoRuns(At(Apply(cfg, y, a).disk, w.journal.site), w.journal);
    }
    if a.Do? {
      EffectTurns(cfg, y, a.p, a.fault);
    }
  }

  lemma EffectTurns(cfg: Config, y: System, p: Pid, fault: Fault)
    requires Inv(cfg, y) && Enabled(cfg, y, Do(p, fault)) && !fault.Works?
    ensures var w, z := y.workers[p], Apply(cfg, y, Do(p, fault));
            if w.stage == Applying then p in z.workers && z.workers[p] == Compensating(w) else p !in z.workers
  {
    AtWork(cfg, y, p);
    DoIs(cfg, y, p, fault);
  }

  // ---------------------------------------------------------------------------------------
  // Settled sites
  // ---------------------------------------------------------------------------------------

  ghost predicate AllSettled(cfg: Config, d: Disk) {
    forall s :: Settled(cfg, s, At(d, s))
  }

  /** No journal of the site is left over when an operation on it begins. */
  predicate NoLeftover(y: System, a: Step) {
    a.Begin? ==> forall id | id in y.disk.journals :: y.disk.journals[id].site != a.s
  }

  ghost predicate NoLeftovers(cfg: Config, y: System, steps: seq<Step>, z: System)
    requires Steps(cfg, y, steps, z)
    decreases |steps|
  {
    steps == [] || (NoLeftover(y, steps[0]) && NoLeftovers(cfg, Apply(cfg, y, steps[0]), steps[1..], z))
  }

  /** Every operation began on a settled site, and sites without an operation are settled. */
  ghost predicate SettledSoFar(cfg: Config, y: System) {
    && (forall id | id in y.log :: Settled(cfg, y.log[id].journal.site, y.log[id].origin))
    && (forall s | s !in y.latest :: Settled(cfg, s, At(y.disk, s)))
  }

  lemma SameIsSettled(cfg: Config, s: Site, g: Generation, h: Generation)
    requires Same(g, h) && Settled(cfg, s, h)
    ensures Settled(cfg, s, g)
  {
  }

  /** Whatever an operation came to is settled. */
  lemma DueIsSettled(cfg: Config, s: Site, f: Fate, g: Generation)
    requires CodecOk(cfg) && FateOk(cfg, f) && f.journal.site == s && Settled(cfg, s, f.origin)
    requires Same(g, Due(cfg, f))
    ensures Settled(cfg, s, g)
  {
    if f.committed && !f.undone {
      OutcomeIsSettled(cfg, f.journal.(phase := Committed), g);
    } else if f.begun {
      OutcomeIsSettled(cfg, f.journal, g);
    } else {
      SameIsSettled(cfg, s, g, f.origin);
    }
  }

  /** A site without a journal is settled. */
  lemma IdleSiteIsSettled(cfg: Config, y: System, s: Site)
    requires CodecOk(cfg) && Inv(cfg, y) && SettledSoFar(cfg, y)
    requires forall id | id in y.disk.journals :: y.disk.journals[id].site != s
    ensures Settled(cfg, s, At(y.disk, s))
  {
    if s in y.latest {
      var f := y.log[y.latest[s]];
      assert SiteOk(cfg, y.disk, s, y.latest[s], f);
      DueIsSettled(cfg, s, f, At(y.disk, s));
    }
  }

  /** On a settled site, a start or stop finds the manifest's unit installed. */
  lemma SettledIsClean(cfg: Config, y: System, a: Step)
    requires CodecOk(cfg) && Inv(cfg, y) && SettledSoFar(cfg, y) && Enabled(cfg, y, a) && NoLeftover(y, a)
    ensures Clean(cfg, y, a)
  {
    if a.Begin? {
      IdleSiteIsSettled(cfg, y, a.s);
    }
  }

  /** No origin and no site without an operation changes. */
  ghost predicate KeepsOrigins(y: System, z: System) {
    && z.latest == y.latest && z.log.Keys == y.log.Keys
    && (forall id | id in y.log :: z.log[id].origin == y.log[id].origin && z.log[id].journal == y.log[id].journal)
    && (forall s | s !in y.latest :: At(z.disk, s) == At(y.disk, s))
  }

  /** What a worker's effect leaves: its own record moves, and no site but its own. */
  ghost predicate Moved(y: System, z: System, w: Worker, fault: Fault) {
    && w.todo != [] && w.id in y.log && z.log == y.log[w.id := FateAfter(y.log[w.id], w, fault)]
    && z.latest == y.latest && w.journal.site in y.latest
    && (forall s | s != w.journal.site :: At(z.disk, s) == At(y.disk, s))
  }

  lemma EffectMoves(cfg: Config, y: System, p: Pid, fault: Fault)
    requires Inv(cfg, y) && Enabled(cfg, y, Do(p, fault))
    ensures Moved(y, Apply(cfg, y, Do(p, fault)), y.workers[p], fault)
  {
    AtWork(cfg, y, p);
    DoIs(cfg, y, p, fault);
    ResultTouches(y, y.workers[p], fault);
  }

  lemma MovedKeepsOrigins(y: System, z: System, w: Worker, fault: Fault)
    requires Moved(y, z, w, fault)
    ensures KeepsOrigins(y, z)
  {
    var f := y.log[w.id];
    assert FateAfter(f, w, fault).origin == f.origin && FateAfter(f, w, fault).journal == f.journal;
  }

  lemma WorkerKeepsOrigins(cfg: Config, y: System, a: Step)
    requires Inv(cfg, y) && Enabled(cfg, y, a) && !a.Begin?
    ensures KeepsOrigins(y, Apply(cfg, y, a))
  {
    if a.Do? {
      EffectMoves(cfg, y, a.p, a.fault);
      MovedKeepsOrigins(y, Apply(cfg, y, a), y.workers[a.p], a.fault);
    }
  }

  lemma OriginsStaySettled(cfg: Config, y: System, z: System)
    requires SettledSoFar(cfg, y) && KeepsOrigins(y, z)
    ensures SettledSoFar(cfg, z)
  {
  }

  lemma StepKeepsSettled(cfg: Config, y: System, a: Step)
    requires CodecOk(cfg) && Inv(cfg, y) && SettledSoFar(cfg, y) && Enabled(cfg, y, a) && NoLeftover(y, a)
    ensures SettledSoFar(cfg, Apply(cfg, y, a))
  {
    if a.Begin? {
      IdleSiteIsSettled(cfg, y, a.s);
      JournalIsRight(cfg, a.s, At(y.disk, a.s), a.op);
    } else {
      WorkerKeepsOrigins(cfg, y, a);
      OriginsStaySettled(cfg, y, Apply(cfg, y, a));
    }
  }

  lemma {:induction false} SettledRunIsClean(cfg: Config, y: System, steps: seq<Step>, z: System)
    requires CodecOk(cfg) && Inv(cfg, y) && SettledSoFar(cfg, y)
    requires Steps(cfg, y, steps, z) && NoLeftovers(cfg, y, steps, z)
    ensures AllClean(cfg, y, steps, z)
    decreases |steps|
  {
    if steps != [] {
      var next := Apply(cfg, y, steps[0]);
      SettledIsClean(cfg, y, steps[0]);
      StepKeepsInv(cfg, y, steps[0]);
      StepKeepsSettled(cfg, y, steps[0]);
      SettledRunIsClean(cfg, next, steps[1..], z);
    }
  }

  /** Runs from settled sites in which no operation begins over a leftover journal. */
  ghost predicate GoodRun(cfg: Config, y: System, steps: seq<Step>, z: System) {
    Initial(y) && AllSettled(cfg, y.disk) && Steps(cfg, y, steps, z) && NoLeftovers(cfg, y, steps, z)
  }

  lemma GoodRunIsClean(cfg: Config, y: System, steps: seq<Step>, z: System)
    requires CodecOk(cfg) && GoodRun(cfg, y, steps, z)
    ensures AllClean(cfg, y, steps, z)
  {
    assert Inv(cfg, y) && SettledSoFar(cfg, y);
    SettledRunIsClean(cfg, y, steps, z);
  }

  /**
    At any moment of any run from settled sites without leftover journals, once recovery has left no
    journal, every site has the whole generation its last operation has come to: the target if its
    journal was committed on disk and no compensation took that back, and otherwise the previous one.
  */
  lemma WholeGenerations(cfg: Config, y: System, steps: seq<Step>, z: System, s: Site)
    requires CodecOk(cfg) && GoodRun(cfg, y, steps, z) && s in z.latest
    ensures z.latest[s] in z.log && FateOk(cfg, z.log[z.latest[s]]) && AllAcceptable(cfg, z.disk)
    ensures Promises(cfg, z.disk, s, Due(cfg, z.log[z.latest[s]]))
    ensures z.disk.journals == map[] ==> Same(At(z.disk, s), Due(cfg, z.log[z.latest[s]]))
  {
    GoodRunIsClean(cfg, y, steps, z);
    CleanRunIsWhole(cfg, y, steps, z, s);
  }

  // ---------------------------------------------------------------------------------------
  // Committed journals that are undone
  // ---------------------------------------------------------------------------------------

  /** Process `p` compensates an operation whose journal on disk is committed. */
  predicate Torn(y: System, p: Pid) {
    && p in y.workers && y.workers[p].stage == Undoing
    && y.workers[p].id in y.disk.journals && y.disk.journals[y.workers[p].id].phase == Committed
  }

  /** The commit write of process `p` fails after taking effect. */
  predicate CommitFailsLate(y: System, a: Step, p: Pid) {
    && a == Do(p, FailsAfter) && p in y.workers && y.workers[p].stage == Applying
    && y.workers[p].todo == [SetJournal(Committed)]
  }

  /** A compensation drops the committed journal of operation `id`. */
  predicate Undoes(y: System, a: Step, id: Id) {
    && a.Do? && Torn(y, a.p) && y.workers[a.p].id == id && y.workers[a.p].todo != []
    && y.workers[a.p].todo[0] == DropJournal && (a.fault.Works? || a.fault.FailsAfter?)
  }

  ghost predicate NeverUndoes(cfg: Config, y: System, steps: seq<Step>, z: System, id: Id)
    requires Steps(cfg, y, steps, z)
    decreases |steps|
  {
    steps == [] || (!Undoes(y, steps[0], id) && NeverUndoes(cfg, Apply(cfg, y, steps[0]), steps[1..], z, id))
  }

  predicate Undone(y: System, id: Id) {
    id in y.log && y.log[id].committed && y.log[id].undone
  }

  /** A committed journal comes to be compensated exactly when the commit write fails after taking effect. */
  lemma OnlyAFailedCommitIsUndone(cfg: Config, d: Disk, w: Worker, f: Fate, fault: Fault)
    requires WorkerOk(cfg, d, w, f) && w.stage == Applying && w.todo != []
    ensures (fault == FailsAfter && w.todo == [SetJournal(Committed)]) <==>
            WorkerAfter(w, fault) == Some(Compensating(w)) && FateAfter(f, w, fault).committed
  {
    if |w.todo| == 1 {
      assert w.todo == [w.todo[0]];
    }
  }

  /** The same, by the record instead of the journal. */
  predicate TornRecord(y: System, p: Pid) {
    && p in y.workers && y.workers[p].stage == Undoing
    && y.workers[p].id in y.log && y.log[y.workers[p].id].committed
  }

  lemma TornByRecord(cfg: Config, y: System, p: Pid)
    requires Inv(cfg, y)
    ensures Torn(y, p) <==> TornRecord(y, p)
  {
    if p in y.workers {
      AtWork(cfg, y, p);
    }
  }

  /** The same of the worker's next effect, whatever its stage. */
  lemma TornByEffect(cfg: Config, d: Disk, w: Worker, f: Fate, fault: Fault)
    requires WorkerOk(cfg, d, w, f) && w.todo != [] && !(w.stage == Undoing && f.committed)
    ensures var next := WorkerAfter(w, fault);
            (next.Some? && next.value.stage == Undoing && FateAfter(f, w, fault).committed) <==>
            (fault == FailsAfter && w.stage == Applying && w.todo == [SetJournal(Committed)])
  {
    if w.stage == Applying {
      OnlyAFailedCommitIsUndone(cfg, d, w, f, fault);
    } else if w.todo[0].SetJournal? {
      WritesOnlyAtTheStart(cfg, d, w, f);
    }
  }

  /** Two processes at work are at work on different operations. */
  lemma DifferentOperations(cfg: Config, y: System, p: Pid, q: Pid)
    requires Inv(cfg, y) && p in y.workers && q in y.workers && p != q
    ensures y.workers[p].id != y.workers[q].id
  {
    AtWork(cfg, y, p);
    AtWork(cfg, y, q);
  }

  /** An effect concerns its own worker only. */
  lemma EffectOnWorkers(cfg: Config, y: System, q: Pid, fault: Fault)
    requires Inv(cfg, y) && Enabled(cfg, y, Do(q, fault))
    ensures Apply(cfg, y, Do(q, fault)).workers ==
            var next := WorkerAfter(y.workers[q], fault);
            if next.Some? then y.workers[q := next.value] else y.workers - {q}
  {
    AtWork(cfg, y, q);
    DoIs(cfg, y, q, fault);
  }

  lemma TornByMove(cfg: Config, y: System, z: System, q: Pid, fault: Fault)
    requires q in y.workers && Moved(y, z, y.workers[q], fault) && !TornRecord(y, q)
    requires var next := WorkerAfter(y.workers[q], fault);
             z.workers == if next.Some? then y.workers[q := next.value] else y.workers - {q}
    requires var w := y.workers[q]; WorkerOk(cfg, y.disk, w, y.log[w.id])
    ensures TornRecord(z, q) <==> CommitFailsLate(y, Do(q, fault), q)
  {
    var w := y.workers[q];
    TornByEffect(cfg, y.disk, w, y.log[w.id], fault);
    assert WorkerAfter(w, fault).Some? ==> WorkerAfter(w, fault).value.id == w.id;
  }

  lemma NotTornByOther(y: System, z: System, q: Pid, fault: Fault, p: Pid)
    requires q in y.workers && Moved(y, z, y.workers[q], fault) && !TornRecord(y, p)
    requires p in y.workers ==> y.workers[p].id in y.log && y.workers[p].id != y.workers[q].id
    requires p != q
    requires var next := WorkerAfter(y.workers[q], fault);
             z.workers == if next.Some? then y.workers[q := next.value] else y.workers - {q}
    ensures !TornRecord(z, p)
  {
  }

  lemma TornByOwn(cfg: Config, y: System, q: Pid, fault: Fault)
    requires Inv(cfg, y) && Enabled(cfg, y, Do(q, fault)) && !TornRecord(y, q)
    ensures TornRecord(Apply(cfg, y, Do(q, fault)), q) <==> CommitFailsLate(y, Do(q, fault), q)
  {
    EffectMoves(cfg, y, q, fault);
    EffectOnWorkers(cfg, y, q, fault);
    AtWork(cfg, y, q);
    TornByMove(cfg, y, Apply(cfg, y, Do(q, fault)), q, fault);
  }

  lemma TornByPeer(cfg: Config, y: System, q: Pid, fault: Fault, p: Pid)
    requires Inv(cfg, y) && Enabled(cfg, y, Do(q, fault)) && !TornRecord(y, p) && p != q
    ensures !TornRecord(Apply(cfg, y, Do(q, fault)), p)
  {
    EffectMoves(cfg, y, q, fault);
    EffectOnWorkers(cfg, y, q, fault);
    if p in y.workers {
      AtWork(cfg, y, p);
      DifferentOperations(cfg, y, p, q);
    }
    NotTornByOther(y, Apply(cfg, y, Do(q, fault)), q, fault, p);
  }

  /** The other steps leave a worker alone, start one, stop one, or cancel one that has not committed. */
  lemma TornByOther(cfg: Config, y: System, a: Step, p: Pid)
    requires Enabled(cfg, y, a) && !a.Do? && !TornRecord(y, p)
    requires p in y.workers ==>
        y.workers[p].id in y.log && (y.workers[p].stage == Applying ==> !y.log[y.workers[p].id].committed)
    ensures !TornRecord(Apply(cfg, y, a), p)
  {
  }

  /** A compensation comes to face a committed journal exactly when the commit write fails after taking effect. */
  lemma TornExactly(cfg: Config, y: System, a: Step, p: Pid)
    requires CodecOk(cfg) && Inv(cfg, y) && Enabled(cfg, y, a) && Clean(cfg, y, a) && !Torn(y, p)
    ensures Torn(Apply(cfg, y, a), p) <==> CommitFailsLate(y, a, p)
  {
    StepKeepsInv(cfg, y, a);
    TornByRecord(cfg, y, p);
    TornByRecord(cfg, Apply(cfg, y, a), p);
    if a.Do? && a.p == p {
      TornByOwn(cfg, y, p, a.fault);
    } else if a.Do? {
      TornByPeer(cfg, y, a.p, a.fault, p);
    } else {
      if p in y.workers { AtWork(cfg, y, p); }
      TornByOther(cfg, y, a, p);
    }
  }

  /** What a step of a worker leaves of its own record: undone is only ever added, by dropping the journal. */
  lemma UndoneByWorker(cfg: Config, d: Disk, w: Worker, f: Fate, fault: Fault)
    requires WorkerOk(cfg, d, w, f) && SiteOk(cfg, d, w.journal.site, w.id, f) && w.todo != []
    ensures var g := FateAfter(f, w, fault);
            (g.committed && g.undone) <==>
            (f.committed && f.undone) ||
            (w.stage == Undoing && w.todo[0] == DropJournal && (fault.Works? || fault.FailsAfter?) &&
             w.id in d.journals && d.journals[w.id].phase == Committed)
  {
    if w.todo[0].SetJournal? {
      WritesOnlyAtTheStart(cfg, d, w, f);
    }
  }

  lemma MovedUndoes(cfg: Config, y: System, z: System, p: Pid, fault: Fault, id: Id)
    requires p in y.workers && Moved(y, z, y.workers[p], fault)
    requires var w := y.workers[p]; var f := y.log[w.id];
             WorkerOk(cfg, y.disk, w, f) && SiteOk(cfg, y.disk, w.journal.site, w.id, f)
    ensures Undone(z, id) <==> Undone(y, id) || Undoes(y, Do(p, fault), id)
  {
    var w := y.workers[p];
    UndoneByWorker(cfg, y.disk, w, y.log[w.id], fault);
  }

  lemma StepUndoes(cfg: Config, y: System, a: Step, id: Id)
    requires Inv(cfg, y) && Enabled(cfg, y, a)
    ensures Undone(Apply(cfg, y, a), id) <==> Undone(y, id) || Undoes(y, a, id)
  {
    if a.Do? {
      EffectMoves(cfg, y, a.p, a.fault);
      AtWork(cfg, y, a.p);
      MovedUndoes(cfg, y, Apply(cfg, y, a), a.p, a.fault, id);
    }
  }

  lemma {:induction false} RunUndoes(cfg: Config, y: System, steps: seq<Step>, z: System, id: Id)
    requires CodecOk(cfg) && Inv(cfg, y) && Steps(cfg, y, steps, z) && AllClean(cfg, y, steps, z)
    ensures Undone(z, id) <==> Undone(y, id) || !NeverUndoes(cfg, y, steps, z, id)
    decreases |steps|
  {
    if steps != [] {
      var next := Apply(cfg, y, steps[0]);
      StepUndoes(cfg, y, steps[0], id);
      StepKeepsInv(cfg, y, steps[0]);
      RunUndoes(cfg, next, steps[1..], z, id);
    }
  }

  predicate FailsLate(y: System, a: Step) {
    a.Do? && CommitFailsLate(y, a, a.p)
  }

  ghost predicate NeverFailsLate(cfg: Config, y: System, steps: seq<Step>, z: System)
    requires Steps(cfg, y, steps, z)
    decreases |steps|
  {
    steps == [] || (!FailsLate(y, steps[0]) && NeverFailsLate(cfg, Apply(cfg, y, steps[0]), steps[1..], z))
  }

  predicate NoneTorn(y: System) {
    forall p | p in y.workers :: !Torn(y, p)
  }

  lemma StaysUntorn(cfg: Config, y: System, a: Step)
    requires CodecOk(cfg) && Inv(cfg, y) && Enabled(cfg, y, a) && Clean(cfg, y, a)
    requires NoneTorn(y) && !FailsLate(y, a)
    ensures NoneTorn(Apply(cfg, y, a))
  {
    var z := Apply(cfg, y, a);
    forall p | p in z.workers ensures !Torn(z, p) {
      TornExactly(cfg, y, a, p);
    }
  }

  /** Without a commit write that fails after taking effect, no committed journal is undone. */
  lemma {:induction false} OnlyFailedCommitsAreUndone(
    cfg: Config, y: System, steps: seq<Step>, z: System, id: Id)
    requires CodecOk(cfg) && Inv(cfg, y) && NoneTorn(y) && Steps(cfg, y, steps, z) && AllClean(cfg, y, steps, z)
    requires NeverFailsLate(cfg, y, steps, z)
    ensures NeverUndoes(cfg, y, steps, z, id)
    decreases |steps|
  {
    if steps != [] {
      var next := Apply(cfg, y, steps[0]);
      StaysUntorn(cfg, y, steps[0]);
      StepKeepsInv(cfg, y, steps[0]);
      OnlyFailedCommitsAreUndone(cfg, next, steps[1..], z, id);
    }
  }

  /**
    "The target exactly when the journal on disk reached committed" holds of an operation that
    moves the site exactly in the runs in which no compensation drops its committed journal.
  */
  lemma TargetExactlyWhenCommitted(cfg: Config, y: System, steps: seq<Step>, z: System, s: Site)
    requires CodecOk(cfg) && GoodRun(cfg, y, steps, z) && s in z.latest && z.disk.journals == map[]
    ensures z.latest[s] in z.log && FateOk(cfg, z.log[z.latest[s]])
    ensures var f := z.log[z.latest[s]]; var target := TargetOf(cfg, f.journal);
            !Same(PreviousOf(f.journal), target) && !Same(f.origin, target) ==>
              ((Same(At(z.disk, s), target) <==> f.committed) <==> NeverUndoes(cfg, y, steps, z, z.latest[s]))
    ensures NeverFailsLate(cfg, y, steps, z) ==> NeverUndoes(cfg, y, steps, z, z.latest[s])
  {
    GoodRunIsClean(cfg, y, steps, z);
    WholeGenerations(cfg, y, steps, z, s);
    if NeverFailsLate(cfg, y, steps, z) {
      OnlyFailedCommitsAreUndone(cfg, y, steps, z, z.latest[s]);
    }
    RunUndoes(cfg, y, steps, z, z.latest[s]);
  }
}
