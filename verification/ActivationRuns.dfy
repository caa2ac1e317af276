/**
  Application operations, compensations and recoveries as runs: any number of processes, one
  effect at a time, on any sites, with any effect failing and any process dying at any moment.

  One operation at a time works on a site (the site lock), and recovery runs before operations are
  admitted on its site (the startup barrier).
*/
module ActivationRuns {
  import opened Optional
  import opened Activation

  type Pid = nat

  datatype Effect =
    | SetJournal(phase: Phase)
    | Drive(install: Option<Unit>, active: bool)   // apply a unit, or start or stop the installed one
    | PutManifest(content: Option<Bytes>)
    | PutBackup(content: Option<Bytes>)
    | DropJournal

  /** How an effect goes; a failing runtime action leaves any runtime behind. */
  datatype Fault = Works | FailsBefore | FailsAfter | Breaks(runtime: Runtime)

  datatype Stage = Opening | Applying | Finishing | Undoing | Recovering

  /** A process at work on one journal, with the effects still to do in its stage. */
  datatype Worker = Worker(id: Id, journal: Journal, stage: Stage, todo: seq<Effect>, apply: seq<Effect>)

  /** What became of an operation so far; `journal` is its journal as first written. */
  datatype Fate = Fate(origin: Generation, journal: Journal, begun: bool, committed: bool, undone: bool)

  /** `log` and `latest` remember every operation and the last one of each site. */
  datatype System = System(disk: Disk, workers: map<Pid, Worker>, log: map<Id, Fate>, latest: map<Site, Id>)

  datatype Step =
    | Begin(p: Pid, id: Id, s: Site, op: Operation)
    | Recover(p: Pid, id: Id)
    | Do(p: Pid, fault: Fault)
    | Cancel(p: Pid)               // the request was cancelled or the lease lost, noticed before the commit
    | Crash(p: Pid)

  // ---------------------------------------------------------------------------------------
  // Programs
  // ---------------------------------------------------------------------------------------

  /** `restoreAppProcess`: apply always leaves the service running. */
  function Process(m: Manifest): seq<Effect> {
    [Drive(Some(m.settings), true)] + if m.state == "stopped" then [Drive(None, false)] else []
  }

  function Install(process: seq<Effect>, g: Generation): seq<Effect> {
    process + [PutManifest(g.manifest), PutBackup(g.backup), DropJournal]
  }

  /** `restoreAppActivation`. */
  function UndoProgram(j: Journal): seq<Effect> {
    Install(if HadPrevious(j) && j.restore.Some? then Process(j.restore.value) else [Drive(None, false)], PreviousOf(j))
  }

  /** The recovery of one journal. */
  function RecoverProgram(cfg: Config, j: Journal): seq<Effect>
    requires Acceptable(cfg, j)
  {
    if j.phase == Committed then Install(Process(cfg.parse(j.target).value), TargetOf(cfg, j)) else UndoProgram(j)
  }

  /** `activateAppManifest` and `applyAppStateTransition`, from the runtime action to the commit. */
  function ApplyProgram(m: Manifest, j: Journal, op: Operation): seq<Effect> {
    if op.Act? then
      [Drive(None, op.action != Stop), SetJournal(RuntimeApplied), PutManifest(Some(j.target)), SetJournal(Committed)]
    else
      [Drive(Some(m.settings), true), SetJournal(RuntimeApplied), PutBackup(j.targetBackup),
        PutManifest(Some(j.target)),
       SetJournal(Committed)]
  }

  const OpenProgram := [SetJournal(Prepared), SetJournal(RuntimeApplying)]

  function Touch(g: Generation, e: Effect): Generation {
    match e
    case Drive(install, active) =>
      g.(runtime := Runtime(if install.Some? then install else g.runtime.installed, active))
    case PutManifest(content) => g.(manifest := content)
    case PutBackup(content) => g.(backup := content)
    case SetJournal(_) => g
    case DropJournal => g
  }

  /** The generation the remaining effects lead to. */
  function Play(g: Generation, todo: seq<Effect>): Generation
    decreases |todo|
  {
    if todo == [] then g else Play(Touch(g, todo[0]), todo[1..])
  }

  function Perform(d: Disk, w: Worker, e: Effect): Disk {
    match e
    case SetJournal(phase) => d.(journals := d.journals[w.id := w.journal.(phase := phase)])
    case DropJournal => d.(journals := d.journals - {w.id})
    case _ => Place(d, w.journal.site, Touch(At(d, w.journal.site), e))
  }

  // ---------------------------------------------------------------------------------------
  // Steps
  // ---------------------------------------------------------------------------------------

  predicate Free(y: System, s: Site) {
    forall p | p in y.workers :: y.workers[p].journal.site != s
  }

  predicate Enabled(cfg: Config, y: System, a: Step) {
    match a
    case Begin(p, id, s, op) =>
      && p !in y.workers && Free(y, s) && id !in y.log && id !in y.disk.journals
      && OperationOk(cfg, s, op) && JournalOf(cfg, s, At(y.disk, s), op).Some?
    case Recover(p, id) =>
      && p !in y.workers && id in y.disk.journals && Acceptable(cfg, y.disk.journals[id])
      && Free(y, y.disk.journals[id].site)
    case Do(p, fault) =>
      p in y.workers && y.workers[p].todo != [] && (fault.Breaks? ==> y.workers[p].todo[0].Drive?)
    case Cancel(p) => p in y.workers && y.workers[p].stage == Applying
    case Crash(p) => p in y.workers
  }

  function Result(y: System, w: Worker, e: Effect, fault: Fault): Disk {
    match fault
    case Works => Perform(y.disk, w, e)
    case FailsAfter => Perform(y.disk, w, e)
    case FailsBefore => y.disk
    case Breaks(r) => Place(y.disk, w.journal.site, At(y.disk, w.journal.site).(runtime := r))
  }

  /** The history after an effect that took place. */
  function Recorded(f: Fate, w: Worker, e: Effect): Fate {
    match e
    case SetJournal(phase) => f.(begun := true, committed := phase == Committed)
    case DropJournal => if w.stage == Undoing then f.(undone := true) else f
    case _ => f
  }

  /** The worker after an effect that worked; None when it is finished. */
  function Advance(w: Worker): Option<Worker>
    requires w.todo != []
  {
    if |w.todo| > 1 then Some(w.(todo := w.todo[1..]))
    else match w.stage
      case Opening => Some(w.(stage := Applying, todo := w.apply))
      case Applying => Some(w.(stage := Finishing, todo := [DropJournal]))
      case _ => None
  }

  function Compensating(w: Worker): Worker {
    w.(stage := Undoing, todo := UndoProgram(w.journal))
  }

  /** After a failed effect: compensate, or stop and leave the journal to recovery. */
  function Fail(w: Worker): Option<Worker> {
    if w.stage == Applying then Some(Compensating(w)) else None
  }

  function With(y: System, p: Pid, w: Option<Worker>): System {
    y.(workers := if w.Some? then y.workers[p := w.value] else y.workers - {p})
  }

  function Apply(cfg: Config, y: System, a: Step): System
    requires Enabled(cfg, y, a)
  {
    match a
    case Begin(p, id, s, op) =>
      var g := At(y.disk, s);
      var j := JournalOf(cfg, s, g, op).value;
      var w := Worker(id, j, Opening, OpenProgram, ApplyProgram(NewManifest(cfg, s, g, op).value, j, op));
      System(y.disk, y.workers[p := w], y.log[id := Fate(g, j, false, false, false)], y.latest[s := id])
    case Recover(p, id) =>
      var j := y.disk.journals[id];
      y.(workers := y.workers[p := Worker(id, j, Recovering, RecoverProgram(cfg, j), [])])
    case Do(p, fault) =>
      var w := y.workers[p];
      var e := w.todo[0];
      var took := fault.Works? || fault.FailsAfter?;
      With(y.(disk := Result(y, w, e, fault),
              log := if took && w.id in y.log then y.log[w.id := Recorded(y.log[w.id], w, e)] else y.log),
           p, if fault.Works? then Advance(w) else Fail(w))
    case Cancel(p) => With(y, p, Some(Compensating(y.workers[p])))
    case Crash(p) => With(y, p, None)
  }

  // ---------------------------------------------------------------------------------------
  // The invariant
  // ---------------------------------------------------------------------------------------

  /** What the operation has come to: the target once committed, unless compensation undid it. */
  function Due(cfg: Config, f: Fate): Generation
    requires cfg.parse(f.journal.target).Some?
  {
    if f.committed && !f.undone then TargetOf(cfg, f.journal)
    else if f.begun then PreviousOf(f.journal)
    else f.origin
  }

  predicate FateOk(cfg: Config, f: Fate) {
    f.journal.phase == Prepared && Acceptable(cfg, f.journal) && Acceptable(cfg, f.journal.(phase := Committed))
  }

  /** The last operation of a site against the disk. */
  predicate SiteOk(cfg: Config, d: Disk, s: Site, id: Id, f: Fate) {
    && FateOk(cfg, f) && f.journal.site == s
    && if id in d.journals then
         && d.journals[id].(phase := Prepared) == f.journal && f.begun && !f.undone
         && (d.journals[id].phase == Committed <==> f.committed)
       else
         Same(At(d, s), Due(cfg, f))
  }

  predicate Quiet(e: Effect) {
    e.Drive? || e.PutManifest? || e.PutBackup?
  }

  /** The remaining effects touch the generation, and only then drop the journal. */
  predicate Installing(todo: seq<Effect>) {
    todo != [] && todo[|todo| - 1] == DropJournal && forall i | 0 <= i < |todo| - 1 :: Quiet(todo[i])
  }

  /** The remaining effects touch the generation and the journal, and only then commit it. */
  predicate Committing(todo: seq<Effect>) {
    && todo != [] && todo[|todo| - 1] == SetJournal(Committed)
    && forall i | 0 <= i < |todo| - 1 :: Quiet(todo[i]) || todo[i] == SetJournal(RuntimeApplied)
  }

  predicate WorkerOk(cfg: Config, d: Disk, w: Worker, f: Fate) {
    var g := At(d, w.journal.site);
    && FateOk(cfg, f) && f.journal.site == w.journal.site
    && match w.stage
       case Opening =>
         && w.journal == f.journal && g == f.origin && !f.committed && !f.undone
         && (w.todo == OpenProgram || w.todo == OpenProgram[1..]) && (f.begun <==> w.id in d.journals)
         && Committing(w.apply) && Same(Play(g, w.apply), TargetOf(cfg, f.journal))
       case Applying =>
         && w.journal == f.journal && w.id in d.journals && !f.committed
         && Committing(w.todo) && Same(Play(g, w.todo), TargetOf(cfg, f.journal))
       case Finishing =>
         && w.journal == f.journal && w.id in d.journals && f.committed
         && w.todo == [DropJournal] && Same(g, TargetOf(cfg, f.journal))
       case Undoing =>
         && w.journal == f.journal && w.id in d.journals
         && Installing(w.todo) && Same(Play(g, w.todo), PreviousOf(f.journal))
       case Recovering =>
         && w.id in d.journals && w.journal == d.journals[w.id] && Acceptable(cfg, w.journal)
         && Installing(w.todo) && Same(Play(g, w.todo), Outcome(cfg, w.journal))
  }

  predicate SitesOk(cfg: Config, y: System) {
    forall s | s in y.latest :: y.latest[s] in y.log && SiteOk(cfg, y.disk, s, y.latest[s], y.log[y.latest[s]])
  }

  /** Every journal belongs to the last operation of its site. */
  predicate JournalsOk(y: System) {
    forall id | id in y.disk.journals ::
      y.disk.journals[id].site in y.latest && y.latest[y.disk.journals[id].site] == id
  }

  predicate WorkersOk(cfg: Config, y: System) {
    forall p | p in y.workers :: WorkerIn(cfg, y, y.workers[p])
  }

  predicate Alone(y: System) {
    forall p, q | p in y.workers && q in y.workers && y.workers[p].journal.site == y.workers[q].journal.site :: p == q
  }

  predicate Inv(cfg: Config, y: System) {
    SitesOk(cfg, y) && JournalsOk(y) && WorkersOk(cfg, y) && Alone(y)
  }

  predicate WorkerIn(cfg: Config, y: System, w: Worker) {
    && w.journal.site in y.latest && y.latest[w.journal.site] == w.id && w.id in y.log
    && WorkerOk(cfg, y.disk, w, y.log[w.id])
  }

  /**
    An operation may begin: no journal of the site is left over, and a start or stop finds the unit
    of the current manifest installed.
  */
  predicate Clean(cfg: Config, y: System, a: Step)
    requires Enabled(cfg, y, a)
  {
    a.Begin? ==>
      && (forall id | id in y.disk.journals :: y.disk.journals[id].site != a.s)
      && (a.op.Act? ==>
            At(y.disk, a.s).runtime.installed == Some(NewManifest(cfg, a.s, At(y.disk, a.s), a.op).value.settings))
  }

  // ---------------------------------------------------------------------------------------
  // Programs do what they are for
  // ---------------------------------------------------------------------------------------

  lemma {:induction false} PlayAll(g: Generation, xs: seq<Effect>, ys: seq<Effect>)
    ensures Play(g, xs + ys) == Play(Play(g, xs), ys)
    decreases |xs|
  {
    if xs == [] {
      assert xs + ys == ys;
    } else {
      assert (xs + ys)[1..] == xs[1..] + ys;
      PlayAll(Touch(g, xs[0]), xs[1..], ys);
    }
  }

  lemma Play1(g: Generation, a: Effect)
    ensures Play(g, [a]) == Touch(g, a)
  {
    assert [a][1..] == [];
    assert Play(Touch(g, a), []) == Touch(g, a);
  }

  lemma Play3(g: Generation, a: Effect, b: Effect, c: Effect)
    ensures Play(g, [a, b, c]) == Touch(Touch(Touch(g, a), b), c)
  {
    assert [a, b, c] == [a] + ([b] + [c]);
    PlayAll(g, [a], [b] + [c]);
    PlayAll(Touch(g, a), [b], [c]);
    Play1(g, a);
    Play1(Touch(g, a), b);
    Play1(Touch(Touch(g, a), b), c);
  }

  lemma ProcessRuns(g: Generation, m: Manifest)
    ensures Play(g, Process(m)) == g.(runtime := RuntimeOf(m))
    ensures forall i | 0 <= i < |Process(m)| :: Process(m)[i].Drive?
  {
    var first := Drive(Some(m.settings), true);
    PlayAll(g, [first], if m.state == "stopped" then [Drive(None, false)] else []);
    Play1(g, first);
    Play1(Touch(g, first), Drive(None, false));
  }

  /** From any condition of the site, an installation ends with the files of `g` and the runtime of its process. */
  lemma InstallRuns(h: Generation, process: seq<Effect>, g: Generation)
    requires forall i | 0 <= i < |process| :: process[i].Drive?
    ensures Installing(Install(process, g))
    ensures Play(h, Install(process, g)) == Play(h, process).(manifest := g.manifest, backup := g.backup)
  {
    PlayAll(h, process, [PutManifest(g.manifest), PutBackup(g.backup), DropJournal]);
    Play3(Play(h, process), PutManifest(g.manifest), PutBackup(g.backup), DropJournal);
  }

  lemma UndoRuns(h: Generation, j: Journal)
    requires HadPrevious(j) ==> j.restore.Some?
    ensures Installing(UndoProgram(j)) && Same(Play(h, UndoProgram(j)), PreviousOf(j))
  {
    if HadPrevious(j) && j.restore.Some? {
      ProcessRuns(h, j.restore.value);
      InstallRuns(h, Process(j.restore.value), PreviousOf(j));
    } else {
      Play1(h, Drive(None, false));
      InstallRuns(h, [Drive(None, false)], PreviousOf(j));
    }
  }

  lemma RecoverRuns(cfg: Config, h: Generation, j: Journal)
    requires Acceptable(cfg, j)
    ensures Installing(RecoverProgram(cfg, j)) && Same(Play(h, RecoverProgram(cfg, j)), Outcome(cfg, j))
  {
    if j.phase == Committed {
      ProcessRuns(h, cfg.parse(j.target).value);
      InstallRuns(h, Process(cfg.parse(j.target).value), TargetOf(cfg, j));
    } else {
      UndoRuns(h, j);
    }
  }

  lemma ApplyRuns(cfg: Config, s: Site, g: Generation, op: Operation)
    requires CodecOk(cfg) && OperationOk(cfg, s, op) && JournalOf(cfg, s, g, op).Some?
    requires op.Act? ==> g.runtime.installed == Some(NewManifest(cfg, s, g, op).value.settings)
    ensures var j := JournalOf(cfg, s, g, op).value;
            var program := ApplyProgram(NewManifest(cfg, s, g, op).value, j, op);
            cfg.parse(j.target).Some? && Committing(program) && Same(Play(g, program), TargetOf(cfg, j))
  {
    JournalIsRight(cfg, s, g, op);
    var j, m := JournalOf(cfg, s, g, op).value, NewManifest(cfg, s, g, op).value;
    assert cfg.parse(cfg.render(m)) == Some(m);
    assert TargetOf(cfg, j).runtime == RuntimeOf(m);
    if op.Act? {
      ActRuns(g, m, j, op);
    } else {
      ActivateRuns(g, m, j, op);
    }
  }

  lemma ActRuns(g: Generation, m: Manifest, j: Journal, op: Operation)
    requires op.Act?
    ensures Committing(ApplyProgram(m, j, op))
    ensures Play(g, ApplyProgram(m, j, op)) ==
            g.(runtime := Runtime(g.runtime.installed, op.action != Stop), manifest := Some(j.target))
  {
    var a := [Drive(None, op.action != Stop)];
    var b := [SetJournal(RuntimeApplied), PutManifest(Some(j.target)), SetJournal(Committed)];
    assert ApplyProgram(m, j, op) == a + b;
    PlayAll(g, a, b);
    Play1(g, a[0]);
    Play3(Touch(g, a[0]), b[0], b[1], b[2]);
  }

  lemma ActivateRuns(g: Generation, m: Manifest, j: Journal, op: Operation)
    requires !op.Act?
    ensures Committing(ApplyProgram(m, j, op))
    ensures Play(g, ApplyProgram(m, j, op)) ==
          Generation(Some(j.target), j.targetBackup, Runtime(Some(m.settings), true))
  {
    var a := [Drive(Some(m.settings), true), SetJournal(RuntimeApplied), PutBackup(j.targetBackup)];
    var b, c := [PutManifest(Some(j.target))], [SetJournal(Committed)];
    assert ApplyProgram(m, j, op) == a + (b + c);
    PlayAll(g, a, b + c);
    PlayAll(Play(g, a), b, c);
    Play3(g, a[0], a[1], a[2]);
    Play1(Play(g, a), b[0]);
    Play1(Touch(Play(g, a), b[0]), c[0]);
  }

  // ---------------------------------------------------------------------------------------
  // Every step keeps the invariant
  // ---------------------------------------------------------------------------------------

  /** Only site `s`, journal `id`, its record and process `p` changed. */
  predicate Local(y: System, z: System, p: Pid, s: Site, id: Id) {
    && z.latest == y.latest && z.log.Keys == y.log.Keys
    && (forall i | i in y.log && i != id :: z.log[i] == y.log[i])
    && (forall q | q in z.workers && q != p :: q in y.workers && z.workers[q] == y.workers[q])
  }

  lemma OtherSite(cfg: Config, d: Disk, e: Disk, s: Site, id: Id, t: Site, i: Id, f: Fate)
    requires OnlyTouches(d, e, s, id) && t != s && i != id && SiteOk(cfg, d, t, i, f)
    ensures SiteOk(cfg, e, t, i, f)
  {
  }

  lemma OtherWorker(cfg: Config, d: Disk, e: Disk, s: Site, id: Id, w: Worker, f: Fate)
    requires OnlyTouches(d, e, s, id) && w.journal.site != s && w.id != id && WorkerOk(cfg, d, w, f)
    ensures WorkerOk(cfg, e, w, f)
  {
  }

  /** What a step of process `p` on operation `id` of site `s` may assume and must leave. */
  predicate Stepped(cfg: Config, y: System, z: System, p: Pid, s: Site, id: Id) {
    && Local(y, z, p, s, id)
    && s in y.latest && y.latest[s] == id && id in y.log && y.log[id].journal.site == s && id in z.log
    && (p in y.workers ==> y.workers[p].journal.site == s) && (p in y.workers || Free(y, s))
  }

  lemma KeptSite(cfg: Config, y: System, z: System, p: Pid, s: Site, id: Id, t: Site)
    requires Stepped(cfg, y, z, p, s, id) && OnlyTouches(y.disk, z.disk, s, id)
    requires t in y.latest && t != s && y.latest[t] in y.log && SiteOk(cfg, y.disk, t, y.latest[t], y.log[y.latest[t]])
    ensures y.latest[t] in z.log && SiteOk(cfg, z.disk, t, y.latest[t], z.log[y.latest[t]])
  {
    OtherSite(cfg, y.disk, z.disk, s, id, t, y.latest[t], y.log[y.latest[t]]);
  }

  lemma KeptWorker(cfg: Config, y: System, z: System, p: Pid, s: Site, id: Id, w: Worker)
    requires Stepped(cfg, y, z, p, s, id) && OnlyTouches(y.disk, z.disk, s, id)
    requires WorkerIn(cfg, y, w) && w.journal.site != s
    ensures WorkerIn(cfg, z, w)
  {
    assert y.log[w.id].journal.site != s;
    OtherWorker(cfg, y.disk, z.disk, s, id, w, y.log[w.id]);
  }

  lemma SitesKept(cfg: Config, y: System, z: System, p: Pid, s: Site, id: Id)
    requires SitesOk(cfg, y) && Stepped(cfg, y, z, p, s, id) && OnlyTouches(y.disk, z.disk, s, id)
    requires SiteOk(cfg, z.disk, s, id, z.log[id])
    ensures SitesOk(cfg, z)
  {
    forall t | t in z.latest ensures z.latest[t] in z.log && SiteOk(cfg, z.disk, t, z.latest[t], z.log[z.latest[t]]) {
      if t != s { KeptSite(cfg, y, z, p, s, id, t); }
    }
  }

  lemma JournalsKept(cfg: Config, y: System, z: System, p: Pid, s: Site, id: Id)
    requires JournalsOk(y) && Stepped(cfg, y, z, p, s, id) && OnlyTouches(y.disk, z.disk, s, id)
    requires id in z.disk.journals ==> z.disk.journals[id].site == s
    ensures JournalsOk(z)
  {
    forall i | i in z.disk.journals
      ensures z.disk.journals[i].site in z.latest && z.latest[z.disk.journals[i].site] == i
    {
      if i != id { assert i in y.disk.journals; }
    }
  }

  lemma WorkersKept(cfg: Config, y: System, z: System, p: Pid, s: Site, id: Id)
    requires WorkersOk(cfg, y) && Alone(y) && Stepped(cfg, y, z, p, s, id) && OnlyTouches(y.disk, z.disk, s, id)
    requires p in z.workers ==> z.workers[p].journal.site == s && WorkerIn(cfg, z, z.workers[p])
    ensures WorkersOk(cfg, z)
  {
    forall q | q in z.workers ensures WorkerIn(cfg, z, z.workers[q]) {
      if q != p {
        assert q in y.workers && WorkerIn(cfg, y, y.workers[q]);
        KeptWorker(cfg, y, z, p, s, id, y.workers[q]);
      }
    }
  }

  lemma AloneKept(cfg: Config, y: System, z: System, p: Pid, s: Site, id: Id)
    requires Alone(y) && Stepped(cfg, y, z, p, s, id) && (p in z.workers ==> z.workers[p].journal.site == s)
    ensures Alone(z)
  {
  }

  lemma Assemble(cfg: Config, y: System, z: System, p: Pid, s: Site, id: Id)
    requires Inv(cfg, y) && Stepped(cfg, y, z, p, s, id) && OnlyTouches(y.disk, z.disk, s, id)
    requires SiteOk(cfg, z.disk, s, id, z.log[id])
    requires id in z.disk.journals ==> z.disk.journals[id].site == s
    requires p in z.workers ==> z.workers[p].journal.site == s && WorkerIn(cfg, z, z.workers[p])
    ensures Inv(cfg, z)
  {
    SitesKept(cfg, y, z, p, s, id);
    JournalsKept(cfg, y, z, p, s, id);
    WorkersKept(cfg, y, z, p, s, id);
    AloneKept(cfg, y, z, p, s, id);
  }

  /** What the invariant says of a process at work. */
  lemma AtWork(cfg: Config, y: System, p: Pid)
    requires Inv(cfg, y) && p in y.workers
    ensures var w := y.workers[p]; var s := w.journal.site;
            && s in y.latest && y.latest[s] == w.id && w.id in y.log && y.log[w.id].journal.site == s
            && WorkerOk(cfg, y.disk, w, y.log[w.id]) && SiteOk(cfg, y.disk, s, w.id, y.log[w.id])
            && (w.id in y.disk.journals ==> y.disk.journals[w.id].site == s)
  {
    assert WorkerIn(cfg, y, y.workers[p]);
  }

  /** The last effect but not of its program: the rest of the program. */
  lemma InstallingTail(todo: seq<Effect>)
    requires Installing(todo) && |todo| > 1
    ensures Installing(todo[1..]) && Quiet(todo[0])
  {
  }

  lemma CommittingTail(todo: seq<Effect>)
    requires Committing(todo) && |todo| > 1
    ensures Committing(todo[1..])
  {
  }

  /** An effect on the generation, under the journal: the site's record is not concerned. */
  lemma QuietSite(cfg: Config, d: Disk, s: Site, id: Id, f: Fate, g: Generation)
    requires SiteOk(cfg, d, s, id, f) && id in d.journals
    ensures SiteOk(cfg, Place(d, s, g), s, id, f)
  {
  }

  lemma QuietWorks(cfg: Config, d: Disk, w: Worker, f: Fate)
    requires WorkerOk(cfg, d, w, f) && w.todo != [] && Quiet(w.todo[0]) && w.stage != Opening && w.stage != Finishing
    ensures |w.todo| > 1 && w.id in d.journals
    ensures WorkerOk(cfg, Perform(d, w, w.todo[0]), w.(todo := w.todo[1..]), f)
  {
    if w.stage == Applying { CommittingTail(w.todo); } else { InstallingTail(w.todo); }
    var s := w.journal.site;
    assert At(Perform(d, w, w.todo[0]), s) == Touch(At(d, s), w.todo[0]);
  }

  lemma UndoStarts(cfg: Config, d: Disk, w: Worker, f: Fate)
    requires FateOk(cfg, f) && w.journal == f.journal && w.id in d.journals
    ensures WorkerOk(cfg, d, Compensating(w), f)
  {
    UndoRuns(At(d, w.journal.site), w.journal);
  }

  /** Replacing the disk, the record and the worker of one operation is a step of that operation. */
  lemma StepIsLocal(cfg: Config, y: System, z: System, p: Pid, d: Disk, f: Fate, next: Option<Worker>)
    requires p in y.workers && y.workers[p].id in y.log
    requires var w := y.workers[p]; z == With(y.(disk := d, log := y.log[w.id := f]), p, next)
    requires var w := y.workers[p]; var s := w.journal.site;
             s in y.latest && y.latest[s] == w.id && y.log[w.id].journal.site == s
    ensures var w := y.workers[p]; Stepped(cfg, y, z, p, w.journal.site, w.id) && z.log[w.id] == f
    ensures z.disk == d && (p in z.workers <==> next.Some?) && (next.Some? ==> z.workers[p] == next.value)
  {
  }

  /** A step of process `p` that leaves its site, its record and itself in order. */
  lemma WorkerStep(cfg: Config, y: System, z: System, p: Pid, d: Disk, f: Fate, next: Option<Worker>)
    requires Inv(cfg, y) && p in y.workers && y.workers[p].id in y.log
    requires var w := y.workers[p]; z == With(y.(disk := d, log := y.log[w.id := f]), p, next)
    requires var w := y.workers[p]; var s := w.journal.site;
             && OnlyTouches(y.disk, d, s, w.id)
             && SiteOk(cfg, d, s, w.id, f) && (w.id in d.journals ==> d.journals[w.id].site == s)
             && (next.Some? ==>
                   next.value.id == w.id && next.value.journal.site == s && WorkerOk(cfg, d, next.value, f))
    ensures Inv(cfg, z)
  {
    var w := y.workers[p];
    AtWork(cfg, y, p);
    StepIsLocal(cfg, y, z, p, d, f, next);
    Assemble(cfg, y, z, p, w.journal.site, w.id);
  }

  /** The record after the head effect of a worker. */
  function FateAfter(f: Fate, w: Worker, fault: Fault): Fate
    requires w.todo != []
  {
    if fault.Works? || fault.FailsAfter? then Recorded(f, w, w.todo[0]) else f
  }

  function WorkerAfter(w: Worker, fault: Fault): Option<Worker>
    requires w.todo != []
  {
    if fault.Works? then Advance(w) else Fail(w)
  }

  lemma SameEntry(log: map<Id, Fate>, id: Id)
    requires id in log
    ensures log[id := log[id]] == log
  {
  }

  lemma DoIs(cfg: Config, y: System, p: Pid, fault: Fault)
    requires Enabled(cfg, y, Do(p, fault)) && y.workers[p].id in y.log
    ensures var w := y.workers[p];
            Apply(cfg, y, Do(p, fault)) ==
            With(y.(disk := Result(y, w, w.todo[0], fault), log := y.log[w.id := FateAfter(y.log[w.id], w, fault)]),
                 p, WorkerAfter(w, fault))
  {
    SameEntry(y.log, y.workers[p].id);
  }

  /** What one effect leaves of the site, the record and the worker. */
  predicate EffectOk(cfg: Config, y: System, w: Worker, f: Fate, fault: Fault)
    requires w.todo != []
  {
    var d, g, next := Result(y, w, w.todo[0], fault), FateAfter(f, w, fault), WorkerAfter(w, fault);
    && SiteOk(cfg, d, w.journal.site, w.id, g)
    && (w.id in d.journals ==> d.journals[w.id].site == w.journal.site)
    && (next.Some? ==> WorkerOk(cfg, d, next.value, g))
  }

  lemma ResultTouches(y: System, w: Worker, fault: Fault)
    requires w.todo != []
    ensures OnlyTouches(y.disk, Result(y, w, w.todo[0], fault), w.journal.site, w.id)
    ensures WorkerAfter(w, fault).Some? ==>
        WorkerAfter(w, fault).value.id == w.id && WorkerAfter(w, fault).value.journal == w.journal
  {
  }

  lemma DoKeepsInv(cfg: Config, y: System, p: Pid, fault: Fault)
    requires Inv(cfg, y) && Enabled(cfg, y, Do(p, fault)) && y.workers[p].id in y.log
    requires EffectOk(cfg, y, y.workers[p], y.log[y.workers[p].id], fault)
    ensures Inv(cfg, Apply(cfg, y, Do(p, fault)))
  {
    var w := y.workers[p];
    var z := Apply(cfg, y, Do(p, fault));
    ResultTouches(y, w, fault);
    DoIs(cfg, y, p, fault);
    WorkerStep(cfg, y, z, p, Result(y, w, w.todo[0], fault), FateAfter(y.log[w.id], w, fault), WorkerAfter(w, fault));
  }

  /** However an effect on the generation goes, the journals stay as they are. */
  lemma QuietSiteAfter(cfg: Config, y: System, w: Worker, f: Fate, fault: Fault)
    requires SiteOk(cfg, y.disk, w.journal.site, w.id, f) && w.id in y.disk.journals
    requires w.todo != [] && Quiet(w.todo[0])
    ensures Result(y, w, w.todo[0], fault).journals == y.disk.journals
    ensures SiteOk(cfg, Result(y, w, w.todo[0], fault), w.journal.site, w.id, f)
  {
    var g := At(Result(y, w, w.todo[0], fault), w.journal.site);
    QuietSite(cfg, y.disk, w.journal.site, w.id, f, g);
  }

  lemma QuietWorkerAfter(cfg: Config, y: System, w: Worker, f: Fate, fault: Fault)
    requires WorkerOk(cfg, y.disk, w, f) && w.todo != [] && Quiet(w.todo[0]) && w.id in y.disk.journals
    requires w.stage != Opening && w.stage != Finishing
    requires Result(y, w, w.todo[0], fault).journals == y.disk.journals
    ensures var next := WorkerAfter(w, fault);
            next.Some? ==> WorkerOk(cfg, Result(y, w, w.todo[0], fault), next.value, f)
  {
    if fault.Works? {
      QuietWorks(cfg, y.disk, w, f);
    } else if w.stage == Applying {
      UndoStarts(cfg, Result(y, w, w.todo[0], fault), w, f);
    }
  }

  lemma QuietEffect(cfg: Config, y: System, w: Worker, f: Fate, fault: Fault)
    requires WorkerOk(cfg, y.disk, w, f) && SiteOk(cfg, y.disk, w.journal.site, w.id, f)
    requires w.todo != [] && Quiet(w.todo[0])
    requires w.id in y.disk.journals ==> y.disk.journals[w.id].site == w.journal.site
    ensures EffectOk(cfg, y, w, f, fault)
  {
    QuietUnderJournal(cfg, y.disk, w, f);
    QuietSiteAfter(cfg, y, w, f, fault);
    QuietWorkerAfter(cfg, y, w, f, fault);
    assert FateAfter(f, w, fault) == f;
  }

  /** The generation is only touched while the journal is on disk. */
  lemma QuietUnderJournal(cfg: Config, d: Disk, w: Worker, f: Fate)
    requires WorkerOk(cfg, d, w, f) && w.todo != [] && Quiet(w.todo[0])
    ensures w.stage != Opening && w.stage != Finishing && w.id in d.journals
  {
    assert OpenProgram[1..] == [SetJournal(RuntimeApplying)];
  }

  /** Writing the journal while it is being opened. */
  lemma OpeningEffect(cfg: Config, y: System, w: Worker, f: Fate, fault: Fault)
    requires WorkerOk(cfg, y.disk, w, f) && SiteOk(cfg, y.disk, w.journal.site, w.id, f) && w.stage == Opening
    requires !fault.Breaks?
    ensures w.todo != [] && EffectOk(cfg, y, w, f, fault)
  {
    assert OpenProgram[1..] == [SetJournal(RuntimeApplying)];
  }

  /** Writing the journal while the operation is applied; the last write commits it. */
  lemma ApplyingEffect(cfg: Config, y: System, w: Worker, f: Fate, fault: Fault)
    requires WorkerOk(cfg, y.disk, w, f) && SiteOk(cfg, y.disk, w.journal.site, w.id, f) && w.stage == Applying
    requires w.todo != [] && w.todo[0].SetJournal? && !fault.Breaks?
    ensures EffectOk(cfg, y, w, f, fault)
  {
    var d := Result(y, w, w.todo[0], fault);
    assert At(d, w.journal.site) == At(y.disk, w.journal.site);
    if |w.todo| > 1 { CommittingTail(w.todo); }
      else { Play1(At(d, w.journal.site), w.todo[0]); assert w.todo == [w.todo[0]]; }
    if !fault.Works? {
      UndoStarts(cfg, d, w, FateAfter(f, w, fault));
    }
  }

  /** Dropping the journal once everything else is in place. */
  lemma DropEffect(cfg: Config, y: System, w: Worker, f: Fate, fault: Fault)
    requires WorkerOk(cfg, y.disk, w, f) && SiteOk(cfg, y.disk, w.journal.site, w.id, f)
    requires w.todo != [] && w.todo[0] == DropJournal && !fault.Breaks?
    requires w.id in y.disk.journals ==> y.disk.journals[w.id].site == w.journal.site
    ensures EffectOk(cfg, y, w, f, fault)
  {
    LastEffect(cfg, y.disk, w, f);
    var d := Result(y, w, w.todo[0], fault);
    Play1(At(d, w.journal.site), DropJournal);
  }

  lemma LastEffect(cfg: Config, d: Disk, w: Worker, f: Fate)
    requires WorkerOk(cfg, d, w, f) && w.todo != [] && w.todo[0] == DropJournal
    ensures w.todo == [DropJournal] && (w.stage == Finishing || w.stage == Undoing || w.stage == Recovering)
  {
    assert w.stage == Applying ==> Committing(w.todo);
    assert |w.todo| > 1 ==> !Quiet(w.todo[0]);
  }

  lemma EffectKeepsInv(cfg: Config, y: System, p: Pid, fault: Fault)
    requires Inv(cfg, y) && Enabled(cfg, y, Do(p, fault))
    ensures Inv(cfg, Apply(cfg, y, Do(p, fault)))
  {
    var w := y.workers[p];
    AtWork(cfg, y, p);
    var f := y.log[w.id];
    if Quiet(w.todo[0]) {
      QuietEffect(cfg, y, w, f, fault);
    } else if w.todo[0] == DropJournal {
      DropEffect(cfg, y, w, f, fault);
    } else {
      WritesOnlyAtTheStart(cfg, y.disk, w, f);
      if w.stage == Opening { OpeningEffect(cfg, y, w, f, fault); } else { ApplyingEffect(cfg, y, w, f, fault); }
    }
    DoKeepsInv(cfg, y, p, fault);
  }

  lemma WritesOnlyAtTheStart(cfg: Config, d: Disk, w: Worker, f: Fate)
    requires WorkerOk(cfg, d, w, f) && w.todo != [] && w.todo[0].SetJournal?
    ensures w.stage == Opening || w.stage == Applying
  {
    assert w.stage == Undoing || w.stage == Recovering ==> Installing(w.todo);
  }

  /** A new operation concerns a site without worker and without journal, and a new name. */
  predicate Fresh(y: System, z: System, p: Pid, s: Site, id: Id) {
    && z.disk == y.disk && p !in y.workers && Free(y, s) && id !in y.log && id !in y.disk.journals && p in z.workers
    && (forall i | i in y.disk.journals :: y.disk.journals[i].site != s)
    && z.log.Keys == y.log.Keys + {id} && (forall i | i in y.log :: z.log[i] == y.log[i])
    && z.latest == y.latest[s := id]
    && z.workers == y.workers[p := z.workers[p]] && z.workers[p].journal.site == s && z.workers[p].id == id
  }

  lemma BegunWorker(cfg: Config, y: System, z: System, p: Pid, s: Site, id: Id, w: Worker)
    requires Fresh(y, z, p, s, id) && WorkerIn(cfg, y, w) && w.journal.site != s
    ensures WorkerIn(cfg, z, w)
  {
  }

  lemma BegunWorkers(cfg: Config, y: System, z: System, p: Pid, s: Site, id: Id)
    requires WorkersOk(cfg, y) && Fresh(y, z, p, s, id) && WorkerIn(cfg, z, z.workers[p])
    ensures WorkersOk(cfg, z)
  {
    forall q | q in z.workers ensures WorkerIn(cfg, z, z.workers[q]) {
      if q != p { BegunWorker(cfg, y, z, p, s, id, y.workers[q]); }
    }
  }

  lemma BegunAlone(y: System, z: System, p: Pid, s: Site, id: Id)
    requires Alone(y) && Fresh(y, z, p, s, id)
    ensures Alone(z)
  {
  }

  lemma BegunSite(cfg: Config, y: System, z: System, p: Pid, s: Site, id: Id, t: Site)
    requires SitesOk(cfg, y) && Fresh(y, z, p, s, id) && t in y.latest && t != s
    ensures z.latest[t] in z.log && SiteOk(cfg, z.disk, t, z.latest[t], z.log[z.latest[t]])
  {
    assert y.latest[t] in y.log;
  }

  lemma BegunSites(cfg: Config, y: System, z: System, p: Pid, s: Site, id: Id)
    requires SitesOk(cfg, y) && Fresh(y, z, p, s, id) && SiteOk(cfg, z.disk, s, id, z.log[id])
    ensures SitesOk(cfg, z)
  {
    forall t | t in z.latest ensures z.latest[t] in z.log && SiteOk(cfg, z.disk, t, z.latest[t], z.log[z.latest[t]]) {
      if t != s { BegunSite(cfg, y, z, p, s, id, t); }
    }
  }

  lemma BegunJournals(y: System, z: System, p: Pid, s: Site, id: Id)
    requires JournalsOk(y) && Fresh(y, z, p, s, id)
    ensures JournalsOk(z)
  {
  }

  /** The new operation as it starts: its record, its worker, and nothing else. */
  lemma BeginIsFresh(cfg: Config, y: System, z: System, a: Step)
    requires a.Begin? && Enabled(cfg, y, a) && Clean(cfg, y, a) && z == Apply(cfg, y, a)
    requires JournalOf(cfg, a.s, At(y.disk, a.s), a.op).value.site == a.s
    ensures Fresh(y, z, a.p, a.s, a.id)
    ensures var g := At(y.disk, a.s); var j := JournalOf(cfg, a.s, g, a.op).value;
            && z.log[a.id] == Fate(g, j, false, false, false)
            && z.workers[a.p] ==
               Worker(a.id, j, Opening, OpenProgram, ApplyProgram(NewManifest(cfg, a.s, g, a.op).value, j, a.op))
  {
  }

  /** The site has its origin until the journal is written, and the program leads to the target. */
  lemma BeginIsOk(cfg: Config, d: Disk, id: Id, s: Site, op: Operation, w: Worker, f: Fate)
    requires CodecOk(cfg) && OperationOk(cfg, s, op) && JournalOf(cfg, s, At(d, s), op).Some? && id !in d.journals
    requires var g := At(d, s); var j := JournalOf(cfg, s, g, op).value;
             && (op.Act? ==> g.runtime.installed == Some(NewManifest(cfg, s, g, op).value.settings))
             && f == Fate(g, j, false, false, false)
             && w == Worker(id, j, Opening, OpenProgram, ApplyProgram(NewManifest(cfg, s, g, op).value, j, op))
    ensures SiteOk(cfg, d, s, id, f) && WorkerOk(cfg, d, w, f)
  {
    JournalIsRight(cfg, s, At(d, s), op);
    ApplyRuns(cfg, s, At(d, s), op);
  }

  lemma BeginKeepsInv(cfg: Config, y: System, a: Step)
    requires CodecOk(cfg) && Inv(cfg, y) && a.Begin? && Enabled(cfg, y, a) && Clean(cfg, y, a)
    ensures Inv(cfg, Apply(cfg, y, a))
  {
    var z := Apply(cfg, y, a);
    JournalIsRight(cfg, a.s, At(y.disk, a.s), a.op);
    BeginIsFresh(cfg, y, z, a);
    BeginIsOk(cfg, y.disk, a.id, a.s, a.op, z.workers[a.p], z.log[a.id]);
    BegunInv(cfg, y, z, a.p, a.s, a.id);
  }

  lemma BegunInv(cfg: Config, y: System, z: System, p: Pid, s: Site, id: Id)
    requires Inv(cfg, y) && Fresh(y, z, p, s, id)
    requires SiteOk(cfg, z.disk, s, id, z.log[id]) && WorkerOk(cfg, z.disk, z.workers[p], z.log[id])
    ensures Inv(cfg, z)
  {
    BegunSites(cfg, y, z, p, s, id);
    BegunJournals(y, z, p, s, id);
    BegunWorkers(cfg, y, z, p, s, id);
    BegunAlone(y, z, p, s, id);
  }

  lemma RecoverKeepsInv(cfg: Config, y: System, p: Pid, id: Id)
    requires Inv(cfg, y) && Enabled(cfg, y, Recover(p, id))
    ensures Inv(cfg, Apply(cfg, y, Recover(p, id)))
  {
    var j := y.disk.journals[id];
    var z := Apply(cfg, y, Recover(p, id));
    assert SiteOk(cfg, y.disk, j.site, id, y.log[id]);
    RecoverRuns(cfg, At(y.disk, j.site), j);
    Assemble(cfg, y, z, p, j.site, id);
  }

  lemma StepKeepsInv(cfg: Config, y: System, a: Step)
    requires CodecOk(cfg) && Inv(cfg, y) && Enabled(cfg, y, a) && Clean(cfg, y, a)
    ensures Inv(cfg, Apply(cfg, y, a))
  {
    match a {
      case Begin(_, _, _, _) => BeginKeepsInv(cfg, y, a);
      case Recover(p, id) => RecoverKeepsInv(cfg, y, p, id);
      case Do(p, fault) => EffectKeepsInv(cfg, y, p, fault);
      case Cancel(p) => CancelKeepsInv(cfg, y, p);
      case Crash(p) => CrashKeepsInv(cfg, y, p);
    }
  }

  /** Only the worker changes. */
  lemma WorkerChange(cfg: Config, y: System, z: System, p: Pid, next: Option<Worker>)
    requires Inv(cfg, y) && p in y.workers && y.workers[p].id in y.log && z == With(y, p, next)
    requires var w := y.workers[p];
             next.Some? ==>
               && next.value.id == w.id && next.value.journal == w.journal
               && WorkerOk(cfg, y.disk, next.value, y.log[w.id])
    ensures Inv(cfg, z)
  {
    AtWork(cfg, y, p);
    var w := y.workers[p];
    SameEntry(y.log, w.id);
    WorkerStep(cfg, y, z, p, y.disk, y.log[w.id], next);
  }

  lemma CancelKeepsInv(cfg: Config, y: System, p: Pid)
    requires Inv(cfg, y) && Enabled(cfg, y, Cancel(p))
    ensures Inv(cfg, Apply(cfg, y, Cancel(p)))
  {
    AtWork(cfg, y, p);
    var w := y.workers[p];
    UndoStarts(cfg, y.disk, w, y.log[w.id]);
    WorkerChange(cfg, y, Apply(cfg, y, Cancel(p)), p, Some(Compensating(w)));
  }

  lemma CrashKeepsInv(cfg: Config, y: System, p: Pid)
    requires Inv(cfg, y) && Enabled(cfg, y, Crash(p))
    ensures Inv(cfg, Apply(cfg, y, Crash(p)))
  {
    AtWork(cfg, y, p);
    WorkerChange(cfg, y, Apply(cfg, y, Crash(p)), p, None);
  }
}
