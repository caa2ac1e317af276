/**
  Activation, stop/start transition, compensation and startup recovery as the panel performs
  them, one effect at a time.

  Every effect may succeed, fail (and have happened nevertheless: an atomic write can fail after
  its rename) or be the last one before a crash.  A failing runtime action leaves the site's
  runtime in any condition.  Which effects fail, and how, is given by a plan.
*/
module AppHost {
  import opened Optional
  import opened Sets
  import opened Names
  import opened Faults
  import opened Activation

  /** How an operation ended. */
  datatype Ending =
    | Activated(cleanupPending: bool)
    | NotStarted                         // refused, or its journal could not be written
    | Compensated                        // failed, and the previous generation was restored
    | RecoveryPending                    // failed, and so did the compensation
    | Interrupted                        // the process died

  /** How many of its effects did not work, for each way an operation can end. */
  predicate Costs(e: Ending, troubles: int) {
    match e
    case Activated(cleanupPending) => troubles == if cleanupPending then 1 else 0
    case NotStarted => troubles == 1
    case Compensated => troubles == 1
    case RecoveryPending => troubles == 2
    case Interrupted => 1 <= troubles <= 2
  }

  function Acted(g: Generation, action: Action): Runtime {
    Runtime(g.runtime.installed, action != Stop)
  }

  /**
    What an operation with journal `j` leaves of its site, by the way it ended; `t` is the
    generation its effects add up to.  Nothing else is touched.
  */
  ghost predicate Left(d0: Disk, d: Disk, s: Site, id: Id, j: Journal, t: Generation, e: Ending) {
    && OnlyTouches(d0, d, s, id)
    && (if id in d.journals then d.journals[id].(phase := j.phase) == j
        else At(d, s) == At(d0, s) || Same(At(d, s), PreviousOf(j)) || At(d, s) == t)
    && (match e
        case Activated(pending) =>
          (if id in d.journals then pending && d.journals[id].phase == Committed else At(d, s) == t)
        case NotStarted => At(d, s) == At(d0, s) && (id in d.journals ==> d.journals[id].phase != Committed)
        case Compensated => id !in d.journals && Same(At(d, s), PreviousOf(j))
        case RecoveryPending => true
        case Interrupted => true)
  }

  /** The host, and what each of its effects will meet, in the order they are tried. */
  class Host {
    const cfg: Config
    const plan: nat -> Fault
    const wrecks: nat -> Runtime   // what a request that does not work leaves behind
    var disk: Disk
    var effects: nat

    constructor (cfg: Config, plan: nat -> Fault, wrecks: nat -> Runtime, disk: Disk)
      ensures this.cfg == cfg && this.plan == plan && this.disk == disk && Troubles() == 0
    {
      this.cfg, this.plan, this.wrecks, this.disk, this.effects := cfg, plan, wrecks, disk, 0;
    }

    /** How many effects so far did not work. */
    ghost function Troubles(): nat
      reads this`effects
    {
      Tally(plan, effects)
    }

    method NextFault() returns (f: Fault)
      modifies this`effects
      ensures f == plan(old(effects)) && Troubles() == old(Troubles()) + if f.Works? then 0 else 1
      ensures effects == old(effects) + 1
    {
      f := plan(effects);
      effects := effects + 1;
    }

    /** One file effect: an atomic write, a rename or an unlink. */
    method Attempt(next: Disk) returns (e: Effect)
      modifies this
      ensures e == Done ==> disk == next
      ensures disk == next || disk == old(disk)
      ensures Troubles() == old(Troubles()) + if e == Done then 0 else 1
      ensures effects == old(effects) + 1
    {
      var f := NextFault();
      if Took(f) {
        disk := next;
      }
      e := Answer(f);
    }

    /** One request to the root helper. */
    method Drive(s: Site, r: Runtime) returns (e: Effect)
      modifies this
      ensures disk == Place(old(disk), s, At(disk, s))
      ensures At(disk, s) == At(old(disk), s).(runtime := At(disk, s).runtime)
      ensures e == Done ==> At(disk, s).runtime == r
      ensures Troubles() == old(Troubles()) + if e == Done then 0 else 1
      ensures effects == old(effects) + 1
    {
      var f := NextFault();
      disk := Place(disk, s, At(disk, s).(runtime := if f.Works? then r else wrecks(effects)));
      e := Answer(f);
    }

    /** `restoreAppProcess`: apply always leaves the service running. */
    method RestoreProcess(m: Manifest) returns (e: Effect)
      modifies this
      ensures disk == Place(old(disk), m.site, At(disk, m.site))
      ensures At(disk, m.site) == At(old(disk), m.site).(runtime := At(disk, m.site).runtime)
      ensures e == Done ==> At(disk, m.site).runtime == RuntimeOf(m)
      ensures Troubles() == old(Troubles()) + if e == Done then 0 else 1
      ensures e == Done ==> effects == old(effects) + if m.state == "stopped" then 2 else 1
    {
      e := Drive(m.site, Runtime(Some(m.settings), true));
      if e == Done && m.state == "stopped" {
        e := Drive(m.site, Runtime(Some(m.settings), false));
      }
    }

    /** Write the file, or remove it. */
    method PutManifest(s: Site, content: Option<Bytes>) returns (e: Effect)
      modifies this
      ensures disk == old(disk) || disk == Place(old(disk), s, At(old(disk), s).(manifest := content))
      ensures e == Done ==> disk == Place(old(disk), s, At(old(disk), s).(manifest := content))
      ensures Troubles() == old(Troubles()) + if e == Done then 0 else 1
      ensures effects == old(effects) + 1
    {
      e := Attempt(Place(disk, s, At(disk, s).(manifest := content)));
    }

    method PutBackup(s: Site, content: Option<Bytes>) returns (e: Effect)
      modifies this
      ensures disk == old(disk) || disk == Place(old(disk), s, At(old(disk), s).(backup := content))
      ensures e == Done ==> disk == Place(old(disk), s, At(old(disk), s).(backup := content))
      ensures Troubles() == old(Troubles()) + if e == Done then 0 else 1
      ensures effects == old(effects) + 1
    {
      e := Attempt(Place(disk, s, At(disk, s).(backup := content)));
    }

    method PersistJournal(id: Id, j: Journal) returns (e: Effect)
      modifies this
      ensures disk == old(disk) || disk == old(disk).(journals := old(disk).journals[id := j])
      ensures e == Done ==> disk == old(disk).(journals := old(disk).journals[id := j])
      ensures Troubles() == old(Troubles()) + if e == Done then 0 else 1
      ensures effects == old(effects) + 1
    {
      e := Attempt(disk.(journals := disk.journals[id := j]));
    }

    method Cleanup(id: Id) returns (e: Effect)
      modifies this
      ensures disk == old(disk) || disk == old(disk).(journals := old(disk).journals - {id})
      ensures e == Done ==> disk == old(disk).(journals := old(disk).journals - {id})
      ensures Troubles() == old(Troubles()) + if e == Done then 0 else 1
      ensures effects == old(effects) + 1
    {
      e := Attempt(disk.(journals := disk.journals - {id}));
    }

    /** Install the files of generation `g` of site `s`, whose runtime is already in place, and drop the journal. */
    method Publish(id: Id, s: Site, g: Generation) returns (e: Effect)
      requires id in disk.journals
      requires At(disk, s).runtime.active == g.runtime.active
      requires g.manifest.Some? ==> At(disk, s).runtime == g.runtime
      modifies this
      ensures OnlyTouches(old(disk), disk, s, id)
      ensures id in disk.journals ==> disk.journals[id] == old(disk).journals[id]
      ensures id !in disk.journals ==> Same(At(disk, s), g)
      ensures At(disk, s).backup == At(old(disk), s).backup || At(disk, s).manifest == g.manifest
      ensures e == Done ==> id !in disk.journals
      ensures Troubles() == old(Troubles()) + if e == Done then 0 else 1
      ensures e == Done ==> effects == old(effects) + 3
    {
      e := PutManifest(s, g.manifest);
      if e != Done { return; }
      e := PutBackup(s, g.backup);
      if e != Done { return; }
      e := Cleanup(id);
    }

    /** `restoreAppActivation`, from the journal in memory. */
    method Restore(id: Id, j: Journal) returns (e: Effect)
      requires Acceptable(cfg, j) && id in disk.journals
      modifies this
      ensures OnlyTouches(old(disk), disk, j.site, id)
      ensures id in disk.journals ==> disk.journals[id] == old(disk).journals[id]
      ensures id !in disk.journals ==> Same(At(disk, j.site), PreviousOf(j))
      ensures e == Done ==> id !in disk.journals
      ensures Troubles() == old(Troubles()) + if e == Done then 0 else 1
    {
      if HadPrevious(j) {
        e := RestoreProcess(j.restore.value);
      } else {
        e := Drive(j.site, Runtime(At(disk, j.site).runtime.installed, false));
      }
      if e != Done { return; }
      e := Publish(id, j.site, PreviousOf(j));
    }

    /** `reconcileCommittedAppActivation` and the cleanup after it. */
    method Reconcile(id: Id, j: Journal) returns (e: Effect)
      requires TargetOk(cfg, j) && id in disk.journals
      modifies this
      ensures OnlyTouches(old(disk), disk, j.site, id)
      ensures id in disk.journals ==> disk.journals[id] == old(disk).journals[id]
      ensures id !in disk.journals ==> Same(At(disk, j.site), TargetOf(cfg, j))
      ensures e == Done ==> id !in disk.journals
      ensures Troubles() == old(Troubles()) + if e == Done then 0 else 1
    {
      e := RestoreProcess(cfg.parse(j.target).value);
      if e != Done { return; }
      e := Publish(id, j.site, TargetOf(cfg, j));
    }

    /** The journal's first two states: nothing else has been touched yet. */
    method OpenJournal(id: Id, j: Journal) returns (e: Effect)
      requires j.phase == Prepared
      modifies this
      ensures disk.sites == old(disk).sites
      ensures OnlyTouches(old(disk), disk, j.site, id)
      ensures id in disk.journals && id !in old(disk).journals ==>
          disk.journals[id].(phase := Prepared) == j && disk.journals[id].phase != Committed
      ensures e == Done ==> id in disk.journals && disk.journals[id] == j.(phase := RuntimeApplying)
      ensures Troubles() == old(Troubles()) + if e == Done then 0 else 1
      ensures e == Done ==> effects == old(effects) + 2
    {
      e := PersistJournal(id, j);
      if e != Done { return; }
      e := PersistJournal(id, j.(phase := RuntimeApplying));
    }

    /** `compensateAppActivation`, and the ending it gives. */
    method Compensate(id: Id, j: Journal) returns (r: Ending)
      requires Acceptable(cfg, j) && id in disk.journals
      modifies this
      ensures OnlyTouches(old(disk), disk, j.site, id)
      ensures id in disk.journals ==> disk.journals[id] == old(disk).journals[id]
      ensures id !in disk.journals ==> Same(At(disk, j.site), PreviousOf(j))
      ensures r == Compensated ==> id !in disk.journals
      ensures r in {Compensated, RecoveryPending, Interrupted}
      ensures Troubles() == old(Troubles()) + if r == Compensated then 0 else 1
    {
      var e := Restore(id, j);
      r := match e case Done => Compensated case Failed => RecoveryPending case Crashed => Interrupted;
    }

    /** After a failed effect the operation compensates; after a crash it is over. */
    method Abort(e: Effect, id: Id, j: Journal) returns (r: Ending)
      requires e != Done && Acceptable(cfg, j) && id in disk.journals
      modifies this
      ensures OnlyTouches(old(disk), disk, j.site, id)
      ensures id in disk.journals ==> disk.journals[id] == old(disk).journals[id]
      ensures id !in disk.journals ==> Same(At(disk, j.site), PreviousOf(j))
      ensures r == Compensated ==> id !in disk.journals
      ensures r in {Compensated, RecoveryPending, Interrupted}
      ensures e == Crashed ==> r == Interrupted && Troubles() == old(Troubles())
      ensures e == Failed ==> Troubles() == old(Troubles()) + if r == Compensated then 0 else 1
    {
      if e == Crashed {
        return Interrupted;
      }
      r := Compensate(id, j);
    }

    /** A lost lease or a cancelled request, noticed between two effects. */
    method Checkpoint() returns (e: Effect)
      modifies this`effects
      ensures Troubles() == old(Troubles()) + if e == Done then 0 else 1
      ensures effects == old(effects) + 1
    {
      var f := NextFault();
      e := Answer(f);
    }

    /** The runtime half: drive the service and record that it was applied. */
    method ApplyRuntime(id: Id, j: Journal, r: Runtime) returns (e: Effect)
      requires id in disk.journals && disk.journals[id] == j && j.phase == RuntimeApplying
      modifies this
      ensures At(disk, j.site) == At(old(disk), j.site).(runtime := At(disk, j.site).runtime)
      ensures OnlyTouches(old(disk), disk, j.site, id)
      ensures id in disk.journals && disk.journals[id].(phase := RuntimeApplying) == j
      ensures disk.journals[id].phase != Committed
      ensures e == Done ==> At(disk, j.site).runtime == r
      ensures Troubles() == old(Troubles()) + if e == Done then 0 else 1
      ensures e == Done ==> effects == old(effects) + 4
    {
      e := Checkpoint();
      if e != Done { return; }
      e := Drive(j.site, r);
      if e != Done { return; }
      e := PersistJournal(id, j.(phase := RuntimeApplied));
      if e != Done { return; }
      e := Checkpoint();
    }

    /** Commit the journal and drop it. */
    method Finish(id: Id, j: Journal) returns (r: Ending)
      requires id in disk.journals && disk.journals[id].(phase := RuntimeApplying) == j && Acceptable(cfg, j)
      requires disk.journals[id].phase != Committed
      modifies this
      ensures OnlyTouches(old(disk), disk, j.site, id)
      ensures id in disk.journals ==> disk.journals[id].(phase := RuntimeApplying) == j
      ensures r.Activated? ==> At(disk, j.site) == At(old(disk), j.site)
      ensures r.Activated? && id in disk.journals ==> r.cleanupPending && disk.journals[id].phase == Committed
      ensures r == Compensated ==> id !in disk.journals && Same(At(disk, j.site), PreviousOf(j))
      ensures r != NotStarted
      ensures id !in disk.journals ==>
          Same(At(disk, j.site), PreviousOf(j)) || At(disk, j.site) == At(old(disk), j.site)
      ensures Costs(r, Troubles() - old(Troubles()))
      ensures r == Activated(false) ==> effects == old(effects) + 3
    {
      var e := Checkpoint();
      if e == Done {
        e := PersistJournal(id, j.(phase := Committed));
      }
      if e != Done {
        r := Abort(e, id, j);
        return;
      }
      e := Cleanup(id);
      r := match e case Done => Activated(false) case Failed => Activated(true) case Crashed => Interrupted;
    }

    /** Once the release or the new state is in place, or an effect on the way there failed. */
    method Conclude(e: Effect, id: Id, j: Journal) returns (r: Ending)
      requires id in disk.journals && disk.journals[id].(phase := RuntimeApplying) == j && Acceptable(cfg, j)
      requires disk.journals[id].phase != Committed
      modifies this
      ensures OnlyTouches(old(disk), disk, j.site, id)
      ensures id in disk.journals ==> disk.journals[id].(phase := RuntimeApplying) == j
      ensures r.Activated? ==> e == Done && At(disk, j.site) == At(old(disk), j.site)
      ensures r.Activated? && id in disk.journals ==> r.cleanupPending && disk.journals[id].phase == Committed
      ensures r == Compensated ==> id !in disk.journals && Same(At(disk, j.site), PreviousOf(j))
      ensures r != NotStarted
      ensures id !in disk.journals ==>
          Same(At(disk, j.site), PreviousOf(j)) || (e == Done && At(disk, j.site) == At(old(disk), j.site))
      ensures Costs(r, (if e == Done then 0 else 1) + Troubles() - old(Troubles()))
      ensures r == Activated(false) ==> effects == old(effects) + 3
    {
      if e == Done {
        r := Finish(id, j);
      } else {
        r := Abort(e, id, j);
      }
    }

    /**
      `activateAppManifest`: publish `target` over the generation on disk.  The rollback file
      becomes the previous manifest.
    */
    method Activate(id: Id, target: Manifest, previous: Bytes, restore: Option<Manifest>, previousBackup: Option<Bytes>)
      returns (r: Ending, ghost j: Journal)
      requires CodecOk(cfg) && ValidManifest(cfg, target, target.site) && id !in disk.journals
      requires Read(cfg, At(disk, target.site), target.site, previous, restore, previousBackup)
      modifies this
      ensures j == ActivationJournal(cfg, Running(target), previous, restore, previousBackup)
      ensures Left(old(disk), disk, target.site, id, j,
                   Generation(Some(j.target), j.targetBackup, RuntimeOf(Running(target))), r)
      ensures Costs(r, Troubles() - old(Troubles()))
      ensures r == Activated(false) ==> effects == old(effects) + 12   // eight effects and four checks for cancellation
    {
      var m := Running(target);
      var s := m.site;
      var journal := ActivationJournal(cfg, m, previous, restore, previousBackup);
      j := journal;
      var e := OpenJournal(id, journal);
      if e != Done {
        r := if e == Crashed then Interrupted else NotStarted;
        return;
      }
      journal := journal.(phase := RuntimeApplying);
      e := ApplyRelease(id, journal, RuntimeOf(m));
      r := Conclude(e, id, journal);
    }

    /** Runtime, rollback file and manifest of a new release, in this order. */
    method ApplyRelease(id: Id, j: Journal, r: Runtime) returns (e: Effect)
      requires id in disk.journals && disk.journals[id] == j && j.phase == RuntimeApplying
      modifies this
      ensures OnlyTouches(old(disk), disk, j.site, id)
      ensures id in disk.journals && disk.journals[id].(phase := RuntimeApplying) == j
      ensures disk.journals[id].phase != Committed
      ensures At(disk, j.site).backup == At(old(disk), j.site).backup || At(disk, j.site).runtime == r
      ensures At(disk, j.site).manifest == At(old(disk), j.site).manifest ||
              (At(disk, j.site).backup == j.targetBackup && At(disk, j.site).runtime == r)
      ensures e == Done ==> At(disk, j.site) == Generation(Some(j.target), j.targetBackup, r)
      ensures Troubles() == old(Troubles()) + if e == Done then 0 else 1
      ensures e == Done ==> effects == old(effects) + 7
    {
      e := ApplyRuntime(id, j, r);
      if e == Done {
        e := PutBackup(j.site, j.targetBackup);
      }
      if e == Done {
        e := Checkpoint();
      }
      if e == Done {
        e := PutManifest(j.site, Some(j.target));
      }
    }

    /** `applyAppStateTransition`: start, stop or restart the deployed application. */
    method Transition(id: Id, m: Manifest, previous: Bytes, previousBackup: Option<Bytes>, action: Action)
      returns (r: Ending, ghost j: Journal)
      requires CodecOk(cfg) && id !in disk.journals && |previous| > 0
      requires Read(cfg, At(disk, m.site), m.site, previous, Some(m), previousBackup)
      modifies this
      ensures j == Journal(m.site, previous, Some(m), previousBackup, cfg.render(After(m, action)), previousBackup,
            Prepared)
      ensures var g := At(old(disk), m.site);
              Left(old(disk), disk, m.site, id, j, g.(manifest := Some(j.target), runtime := Acted(g, action)), r)
      ensures Costs(r, Troubles() - old(Troubles()))
      ensures r == Activated(false) ==> effects == old(effects) + 10   // seven effects and three such checks
    {
      var s, data := m.site, cfg.render(After(m, action));
      var journal := Journal(s, previous, Some(m), previousBackup, data, previousBackup, Prepared);
      j := journal;
      var e := OpenJournal(id, journal);
      if e != Done {
        r := if e == Crashed then Interrupted else NotStarted;
        return;
      }
      journal := journal.(phase := RuntimeApplying);
      e := ApplyState(id, journal, Acted(At(disk, s), action));
      r := Conclude(e, id, journal);
    }

    /** Runtime and manifest of a start or stop. */
    method ApplyState(id: Id, j: Journal, r: Runtime) returns (e: Effect)
      requires id in disk.journals && disk.journals[id] == j && j.phase == RuntimeApplying
      modifies this
      ensures OnlyTouches(old(disk), disk, j.site, id)
      ensures id in disk.journals && disk.journals[id].(phase := RuntimeApplying) == j
      ensures disk.journals[id].phase != Committed
      ensures At(disk, j.site).manifest == At(old(disk), j.site).manifest || At(disk, j.site).runtime == r
      ensures e == Done ==> At(disk, j.site) == At(old(disk), j.site).(manifest := Some(j.target), runtime := r)
      ensures Troubles() == old(Troubles()) + if e == Done then 0 else 1
      ensures e == Done ==> effects == old(effects) + 5
    {
      e := ApplyRuntime(id, j, r);
      if e == Done {
        e := PutManifest(j.site, Some(j.target));
      }
    }

    /**
      `applyAppDeployment`, the rollback branch of `appAction` and `runAppStateAction`: read the
      files, refuse or run.
    */
    method Operate(id: Id, s: Site, op: Operation) returns (r: Ending)
      requires CodecOk(cfg) && id !in disk.journals && OperationOk(cfg, s, op)
      modifies this
      ensures var g := At(old(disk), s); var j := JournalOf(cfg, s, g, op);
              if j.None? then disk == old(disk) && r == NotStarted
              else Left(old(disk), disk, s, id, j.value, Reached(cfg, s, g, op), r)
      ensures if JournalOf(cfg, s, At(old(disk), s), op).None? then effects == old(effects)
              else Costs(r, Troubles() - old(Troubles()))
    {
      var g := At(disk, s);
      var current := Parsed(cfg, s, g.manifest);
      ghost var j;
      match op {
        case Deploy(app) =>
          if g.manifest.Some? && current.None? {
            return NotStarted;
          }
          r, j := Activate(id, app, if g.manifest.Some? then g.manifest.value else "", current, g.backup);
        case Rollback =>
          var release := Parsed(cfg, s, g.backup);
          if release.None? || current.None? {
            return NotStarted;
          }
          r, j := Activate(id, release.value, g.manifest.value, current, g.backup);
        case Act(action) =>
          if current.None? {
            return NotStarted;
          }
          NonEmpty(cfg, g.manifest.value);
          r, j := Transition(id, current.value, g.manifest.value, g.backup, action);
      }
    }

    /**
      `recoverAppActivationJournals`: every journal in turn, stopping at the first error or at a
      journal it does not accept, which stays.  When all are acceptable, no site's promise changes
      however far it gets; when it finishes, all were and none is left.
    */
    method Recover() returns (e: Effect, recovered: set<Id>, rejected: bool)
      modifies this
      ensures Recovering(cfg, old(disk), disk)
      ensures recovered <= old(disk).journals.Keys - disk.journals.Keys
      ensures rejected ==> e == Failed && !AllAcceptable(cfg, old(disk))
      ensures e == Done ==> AllAcceptable(cfg, old(disk))
      ensures e == Done ==> disk.journals == map[] && recovered == old(disk).journals.Keys
      ensures Troubles() == old(Troubles()) + if e == Done || rejected then 0 else 1
    {
      recovered, rejected := {}, false;
      var todo := disk.journals.Keys;
      while todo != {}
        invariant todo == disk.journals.Keys && todo <= old(disk).journals.Keys && Recovering(cfg, old(disk), disk)
        invariant recovered == old(disk).journals.Keys - todo
        invariant Troubles() == old(Troubles()) && !rejected
        decreases |todo|
      {
        var id :| id in todo;
        ghost var before := disk;
        e, rejected := ReadAndRecover(id);
        assert rejected ==> !Acceptable(cfg, before.journals[id]) && before.journals[id] == old(disk).journals[id];
        RecoveringOn(cfg, old(disk), before, disk);
        if e != Done {
          return;
        }
        OneLess(old(disk).journals.Keys, todo, id);
        recovered := recovered + {id};
        todo := todo - {id};
      }
      AllWereAcceptable(cfg, old(disk), disk);
      e := Done;
    }

    /** Read one journal, check it and recover it. */
    method ReadAndRecover(id: Id) returns (e: Effect, rejected: bool)
      requires id in disk.journals
      modifies this
      ensures rejected ==> e == Failed && disk == old(disk)
      ensures rejected ==> !Acceptable(cfg, old(disk).journals[id])
      ensures Recovering(cfg, old(disk), disk)
      ensures disk.journals.Keys == if id in disk.journals then old(disk).journals.Keys
            else old(disk).journals.Keys - {id}
      ensures e == Done ==> id !in disk.journals
      ensures Troubles() == old(Troubles()) + if e == Done || rejected then 0 else 1
    {
      rejected := false;
      e := Checkpoint();
      if e != Done {
        return;
      }
      var j := disk.journals[id];
      if !Acceptable(cfg, j) {
        return Failed, true;
      }
      e := RecoverOne(id, j);
    }

    method RecoverOne(id: Id, j: Journal) returns (e: Effect)
      requires Acceptable(cfg, j) && id in disk.journals && disk.journals[id] == j
      modifies this
      ensures Recovering(cfg, old(disk), disk) && OnlyTouches(old(disk), disk, j.site, id)
      ensures disk.journals.Keys == if id in disk.journals then old(disk).journals.Keys
            else old(disk).journals.Keys - {id}
      ensures id !in disk.journals ==> Same(At(disk, j.site), Outcome(cfg, j))
      ensures e == Done ==> id !in disk.journals
      ensures Troubles() == old(Troubles()) + if e == Done then 0 else 1
    {
      ghost var d0 := disk;
      if j.phase == Committed {
        e := Reconcile(id, j);
      } else {
        e := Restore(id, j);
      }
      OneJournal(d0, disk, j.site, id);
      if AllAcceptable(cfg, d0) {
        StutterKeepsAll(cfg, d0, disk, j.site, id);
      }
    }
  }

  /** The journals still there are the ones that were there. */
  ghost predicate Rest(d: Disk, e: Disk) {
    forall id | id in e.journals :: id in d.journals && e.journals[id] == d.journals[id]
  }

  /** Only acceptable journals are gone, and when all are acceptable every promise is kept. */
  ghost predicate Recovering(cfg: Config, d: Disk, e: Disk) {
    && Rest(d, e) && (forall id | id in d.journals && id !in e.journals :: Acceptable(cfg, d.journals[id]))
    && (AllAcceptable(cfg, d) ==> AllAcceptable(cfg, e) && KeepsPromises(cfg, d, e))
  }

  lemma RecoveringOn(cfg: Config, d: Disk, e: Disk, f: Disk)
    requires Recovering(cfg, d, e) && Recovering(cfg, e, f)
    ensures Recovering(cfg, d, f)
    ensures AllAcceptable(cfg, d) ==> AllAcceptable(cfg, e)
  {
    if AllAcceptable(cfg, d) {
      KeepsTransitively(cfg, d, e, f);
    }
  }

  lemma AllWereAcceptable(cfg: Config, d: Disk, e: Disk)
    requires Recovering(cfg, d, e) && e.journals == map[]
    ensures AllAcceptable(cfg, d)
  {
  }

  lemma OneJournal(d: Disk, e: Disk, s: Site, id: Id)
    requires OnlyTouches(d, e, s, id) && id in d.journals && (id in e.journals ==> e.journals[id] == d.journals[id])
    ensures Rest(d, e)
    ensures e.journals.Keys == if id in e.journals then d.journals.Keys else d.journals.Keys - {id}
  {
  }

  lemma NonEmpty(cfg: Config, b: Bytes)
    requires CodecOk(cfg) && cfg.parse(b).Some?
    ensures |b| > 0
  {
  }

  /** The journal `activateAppManifest` builds. */
  function ActivationJournal(cfg: Config, m: Manifest, previous: Bytes, restore: Option<Manifest>,
                             previousBackup: Option<Bytes>): Journal {
    Journal(m.site, previous, restore, previousBackup, cfg.render(m), if restore.Some? then Some(previous)
      else None, Prepared)
  }

  /** What the caller read and parsed from the site's files before it starts an operation. */
  ghost predicate Read(cfg: Config, g: Generation, s: Site, previous: Bytes, restore: Option<Manifest>,
                       previousBackup: Option<Bytes>) {
    && SafeUser(s) != "" && g.backup == previousBackup
    && (match restore
        case Some(m) => g.manifest == Some(previous) && cfg.parse(previous) == Some(m) && ValidManifest(cfg, m, s)
        case None => g.manifest == None && previous == "")
  }

  /** The generation the effects of an operation add up to: start and stop drive whatever unit is installed. */
  function Reached(cfg: Config, s: Site, g: Generation, op: Operation): Generation
    requires Target(cfg, s, g, op).Some?
  {
    var t := Target(cfg, s, g, op).value;
    if op.Act? then t.(runtime := Acted(g, op.action)) else t
  }

  /** It is the target that recovery would install, exactly when a start or stop finds the manifest's unit installed. */
  lemma ReachedIsTarget(cfg: Config, s: Site, g: Generation, op: Operation)
    requires CodecOk(cfg) && OperationOk(cfg, s, op) && JournalOf(cfg, s, g, op).Some?
    ensures cfg.parse(JournalOf(cfg, s, g, op).value.target).Some?
    ensures Same(Reached(cfg, s, g, op), TargetOf(cfg, JournalOf(cfg, s, g, op).value)) <==>
            (op.Act? ==> g.runtime.installed == Some(Parsed(cfg, s, g.manifest).value.settings))
  {
    JournalIsRight(cfg, s, g, op);
  }

  /** A site whose manifest is valid but whose installed unit is another one. */
  function WithUnit(cfg: Config, m: Manifest, unit: Unit): Generation {
    Generation(Some(cfg.render(m)), None, Runtime(Some(unit), true))
  }

  /** Starting such a site is accepted and ends with the other unit, not with the target. */
  lemma StartDrivesAnotherUnit(cfg: Config, m: Manifest, unit: Unit)
    requires CodecOk(cfg) && ValidManifest(cfg, m, m.site) && unit != m.settings
    ensures var g := WithUnit(cfg, m, unit);
            && JournalOf(cfg, m.site, g, Act(Start)).Some?
            && Reached(cfg, m.site, g, Act(Start)).runtime == Runtime(Some(unit), true)
            && Target(cfg, m.site, g, Act(Start)).value.runtime == Runtime(Some(m.settings), true)
            && !Same(Reached(cfg, m.site, g, Act(Start)), Target(cfg, m.site, g, Act(Start)).value)
  {
    assert cfg.parse(cfg.render(m)) == Some(m);
  }

  /** While no other journal of the site is on disk, what an operation left is what the site is promised. */
  lemma LeftPromises(cfg: Config, d0: Disk, d: Disk, s: Site, id: Id, op: Operation, e: Ending)
    requires CodecOk(cfg) && OperationOk(cfg, s, op) && Idle(cfg, d0, s, id) && JournalOf(cfg, s, At(d0, s), op).Some?
    requires Left(d0, d, s, id, JournalOf(cfg, s, At(d0, s), op).value, Reached(cfg, s, At(d0, s), op), e)
    ensures AllAcceptable(cfg, d) && forall i | i in d.journals && d.journals[i].site == s :: i == id
    ensures forall t, g | t != s && Promises(cfg, d0, t, g) :: Promises(cfg, d, t, g)
    ensures id in d.journals ==> d.journals[id].site == s
    ensures id in d.journals && d.journals[id].phase == Committed ==>
              Outcome(cfg, d.journals[id]) == Target(cfg, s, At(d0, s), op).value
    ensures id in d.journals && d.journals[id].phase != Committed ==>
              Outcome(cfg, d.journals[id]) == PreviousOf(JournalOf(cfg, s, At(d0, s), op).value)
  {
    var j := JournalOf(cfg, s, At(d0, s), op).value;
    JournalIsRight(cfg, s, At(d0, s), op);
    if id in d.journals {
      assert d.journals[id].(phase := Committed) == j.(phase := Committed);
      PhaseDecides(cfg, d0, d, s, id, PreviousOf(j), TargetOf(cfg, j));
    } else {
      PlaceDecides(cfg, d0, d, s, id, At(d, s));
    }
    OtherPromises(cfg, d0, d, s, id);
  }

  lemma OtherPromises(cfg: Config, d0: Disk, d: Disk, s: Site, id: Id)
    requires Idle(cfg, d0, s, id) && OnlyTouches(d0, d, s, id) && AllAcceptable(cfg, d)
    requires id in d.journals ==> d.journals[id].site == s
    ensures forall t, g | t != s && Promises(cfg, d0, t, g) :: Promises(cfg, d, t, g)
  {
    forall t, g | t != s && Promises(cfg, d0, t, g) ensures Promises(cfg, d, t, g) {
      OtherSitesKept(cfg, d0, d, s, id, t, g);
    }
  }

  lemma StutterKeepsJournals(cfg: Config, d: Disk, e: Disk, s: Site, id: Id)
    requires AllAcceptable(cfg, d) && OnlyTouches(d, e, s, id) && id in d.journals
    requires id in e.journals ==> e.journals[id] == d.journals[id]
    ensures AllAcceptable(cfg, e)
    ensures e.journals.Keys == if id in e.journals then d.journals.Keys else d.journals.Keys - {id}
  {
    assert forall i | i in e.journals :: i in d.journals && e.journals[i] == d.journals[i];
  }

  lemma StutterKeepsAll(cfg: Config, d: Disk, e: Disk, s: Site, id: Id)
    requires AllAcceptable(cfg, d) && OnlyTouches(d, e, s, id)
    requires id in d.journals && d.journals[id].site == s
    requires if id in e.journals then e.journals[id] == d.journals[id] else Same(At(e, s), Outcome(cfg, d.journals[id]))
    ensures AllAcceptable(cfg, e) && KeepsPromises(cfg, d, e)
    ensures e.journals.Keys == if id in e.journals then d.journals.Keys else d.journals.Keys - {id}
  {
    StutterKeepsJournals(cfg, d, e, s, id);
    forall t, g | Promises(cfg, d, t, g) ensures Promises(cfg, e, t, g) {
      StutterKeepsPromises(cfg, d, e, s, id, t, g);
    }
  }

  /** Startup again and again, each run possibly cut short, before a last one. */
  method RunRecoveries(h: Host, restarts: nat) returns (e: Effect)
    requires AllAcceptable(h.cfg, h.disk)
    modifies h
    ensures AllAcceptable(h.cfg, h.disk) && KeepsPromises(h.cfg, old(h.disk), h.disk)
    ensures e == Done ==> h.disk.journals == map[]
    ensures h.Troubles() >= old(h.Troubles())
    ensures h.Troubles() == old(h.Troubles()) ==> e == Done
  {
    for i := 0 to restarts
      invariant AllAcceptable(h.cfg, h.disk)
      invariant KeepsPromises(h.cfg, old(h.disk), h.disk) && h.Troubles() >= old(h.Troubles())
    {
      ghost var before := h.disk;
      var _, _, _ := h.Recover();
      KeepsTransitively(h.cfg, old(h.disk), before, h.disk);
    }
    ghost var before := h.disk;
    var recovered, rejected;
    e, recovered, rejected := h.Recover();
    KeepsTransitively(h.cfg, old(h.disk), before, h.disk);
  }

  /**
    Recovery of a site with at most one journal, whoever left it there: the site gets exactly what
    that journal says, or keeps what it has.  So a journal left over from an earlier operation
    undoes a later one, completed in the meantime, unless both lead to the same generation.
  */
  method RecoverSite(h: Host, s: Site, id: Id, restarts: nat) returns (e: Effect)
    requires AllAcceptable(h.cfg, h.disk) && forall i | i in h.disk.journals && h.disk.journals[i].site == s :: i == id
    modifies h
    ensures AllAcceptable(h.cfg, h.disk) && KeepsPromises(h.cfg, old(h.disk), h.disk)
    ensures e == Done ==> h.disk.journals == map[]
    ensures e == Done ==>
      Same(At(h.disk, s), if id in old(h.disk).journals && old(h.disk).journals[id].site == s
                          then Outcome(h.cfg, old(h.disk).journals[id]) else At(old(h.disk), s))
    ensures e == Done && id in old(h.disk).journals && old(h.disk).journals[id].site == s ==>
      forall g :: Same(At(h.disk, s), g) <==> Same(Outcome(h.cfg, old(h.disk).journals[id]), g)
    ensures h.Troubles() >= old(h.Troubles())
    ensures h.Troubles() == old(h.Troubles()) ==> e == Done
  {
    ghost var d := h.disk;
    ghost var g := if id in d.journals && d.journals[id].site == s then Outcome(h.cfg, d.journals[id]) else At(d, s);
    assert Promises(h.cfg, d, s, g);
    e := RunRecoveries(h, restarts);
    if e == Done {
      PromiseDelivered(h.cfg, h.disk, s, g);
    }
  }

  /**
    One operation, ending in any way, and then any number of interrupted startups before one that
    completes.  The site has the whole target, the whole previous generation, or the untouched one;
    the answer the caller got was right; and every other site has what it was promised.
  */
  method OperateThenRecover(h: Host, id: Id, s: Site, op: Operation, restarts: nat) returns (r: Ending, e: Effect)
    requires CodecOk(h.cfg) && Idle(h.cfg, h.disk, s, id) && OperationOk(h.cfg, s, op)
    modifies h
    ensures e == Done ==> h.disk.journals == map[]
    ensures e == Done ==> forall t, g | t != s && Promises(h.cfg, old(h.disk), t, g) :: Same(At(h.disk, t), g)
    ensures e == Done ==> Answered(h.cfg, At(old(h.disk), s), At(h.disk, s), s, op, r)
    ensures h.Troubles() == old(h.Troubles()) ==> e == Done && (r == NotStarted || r == Activated(false))
  {
    ghost var d0, g := h.disk, At(h.disk, s);
    r := h.Operate(id, s, op);
    ghost var d1 := h.disk;
    if JournalOf(h.cfg, s, g, op).Some? {
      LeftPromises(h.cfg, d0, d1, s, id, op, r);
      JournalIsRight(h.cfg, s, g, op);
    }
    e := RecoverSite(h, s, id, restarts);
    if e == Done {
      forall t, x | t != s && Promises(h.cfg, d0, t, x) ensures Same(At(h.disk, t), x) {
        PromiseDelivered(h.cfg, h.disk, t, x);
      }
    }
  }

  /** The site's generation after recovery, by the answer its operation gave. */
  ghost predicate Answered(cfg: Config, before: Generation, now: Generation, s: Site, op: Operation, r: Ending) {
    var j := JournalOf(cfg, s, before, op);
    if j.None? then r == NotStarted && Same(now, before)
    else
      var previous, target := PreviousOf(j.value), Target(cfg, s, before, op).value;
      && (Same(now, before) || Same(now, previous) || Same(now, target) || Same(now, Reached(cfg, s, before, op)))
      && (r.Activated? ==> Same(now, target) || Same(now, Reached(cfg, s, before, op)))
      && (r == Compensated ==> Same(now, previous))
      && (r == NotStarted ==> Same(now, before) || Same(now, previous))
      && previous.manifest == before.manifest && previous.backup == before.backup
      && (Settled(cfg, s, before) ==> Same(before, previous))
  }
}
