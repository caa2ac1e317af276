/**
  The database-restore marker: a retried restore job must keep using the safety backup that was
  taken before its first load.

  Attempts of any number of jobs run in any number of processes, one at a time per site (the site
  lock).  A file effect or a helper call is one step, a failing step may have taken effect, and
  a process may die between any two steps.
*/
module RestoreMarker {
  import opened Optional
  import opened Retention

  type Pid = nat
  type JobId = nat

  datatype Request = Request(site: Site, database: string)
  datatype Marker = Marker(site: Site, database: string, safety: Name)

  datatype Stage =
    | Locked
    | Checked(previous: Option<Name>)   // the marker of an earlier attempt was looked up
    | Safe(safety: Name)                // a safety backup was taken, or the earlier one verified
    | Marked(safety: Name)              // the marker is on disk
    | Loading(safety: Name)             // the dump is being loaded
    | Restored(safety: Name)            // the load was reported complete

  datatype Attempt = Attempt(job: JobId, stage: Stage)

  /**
    A load that began: its job, the safety backup it relied on, and whether the job's marker had
    been cleared before.
  */
  datatype Use = Use(job: JobId, safety: Name, afterClear: bool)

  /**
    `backups` gives, for every backup, the jobs whose first load had begun when it was taken;
    `loaded`, `cleared` and `uses` remember the loads begun and the markers cleared.
  */
  datatype System = System(
    jobs: map<JobId, Request>,
    markers: map<JobId, Marker>,
    backups: map<Name, set<JobId>>,
    attempts: map<Pid, Attempt>,
    loaded: set<JobId>,
    cleared: set<JobId>,
    uses: seq<Use>)

  datatype Action =
    | Start(p: Pid, job: JobId)
    | Check(p: Pid)
    | Take(p: Pid, name: Name)
    | Reuse(p: Pid)
    | Mark(p: Pid)
    | MarkFailed(p: Pid, written: bool)
    | Load(p: Pid)
    | LoadDone(p: Pid)
    | Clear(p: Pid)
    | ClearFailed(p: Pid, removed: bool)
    | Stop(p: Pid)                       // any other failure, or a crash

  predicate Running(s: System, p: Pid) {
    p in s.attempts && s.attempts[p].job in s.jobs
  }

  predicate Free(s: System, site: Site) {
    forall p | p in s.attempts && s.attempts[p].job in s.jobs :: s.jobs[s.attempts[p].job].site != site
  }

  predicate Matches(m: Marker, r: Request) {
    m.site == r.site && m.database == r.database && ValidBackupName(m.safety)
  }

  predicate Enabled(s: System, a: Action) {
    match a
    case Start(p, job) => p !in s.attempts && job in s.jobs && Free(s, s.jobs[job].site)
    case Check(p) => Running(s, p) && s.attempts[p].stage.Locked?
    case Take(p, name) =>
      Running(s, p) && s.attempts[p].stage == Checked(None) && name !in s.backups && ValidBackupName(name)
    case Reuse(p) => Running(s, p) && s.attempts[p].stage.Checked? && s.attempts[p].stage.previous.Some?
    case Mark(p) => Running(s, p) && s.attempts[p].stage.Safe?
    case MarkFailed(p, _) => Running(s, p) && s.attempts[p].stage.Safe?
    case Load(p) => Running(s, p) && s.attempts[p].stage.Marked?
    case LoadDone(p) => Running(s, p) && s.attempts[p].stage.Loading?
    case Clear(p) => Running(s, p) && s.attempts[p].stage.Restored?
    case ClearFailed(p, _) => Running(s, p) && s.attempts[p].stage.Restored?
    case Stop(p) => p in s.attempts
  }

  function To(s: System, p: Pid, stage: Stage): System
    requires p in s.attempts
  {
    s.(attempts := s.attempts[p := s.attempts[p].(stage := stage)])
  }

  function Ended(s: System, p: Pid): System {
    s.(attempts := s.attempts - {p})
  }

  function WithMarker(s: System, p: Pid): System
    requires Running(s, p) && s.attempts[p].stage.Safe?
  {
    var job := s.attempts[p].job;
    s.(markers := s.markers[job := Marker(s.jobs[job].site, s.jobs[job].database, s.attempts[p].stage.safety)])
  }

  function Unmarked(s: System, job: JobId): System {
    s.(markers := s.markers - {job}, cleared := s.cleared + {job})
  }

  function Apply(s: System, a: Action): System
    requires Enabled(s, a)
  {
    match a
    case Start(p, job) => s.(attempts := s.attempts[p := Attempt(job, Locked)])
    case Check(p) =>
      var job := s.attempts[p].job;
      if job !in s.markers then To(s, p, Checked(None))
      else if Matches(s.markers[job], s.jobs[job]) then To(s, p, Checked(Some(s.markers[job].safety)))
      else Ended(s, p)
    case Take(p, name) => To(s.(backups := s.backups[name := s.loaded]), p, Safe(name))
    case Reuse(p) => To(s, p, Safe(s.attempts[p].stage.previous.value))
    case Mark(p) => To(WithMarker(s, p), p, Marked(s.attempts[p].stage.safety))
    case MarkFailed(p, written) => Ended(if written then WithMarker(s, p) else s, p)
    case Load(p) =>
      var job := s.attempts[p].job;
      To(s.(loaded := s.loaded + {job}, uses := s.uses + [Use(job, s.attempts[p].stage.safety, job in s.cleared)]),
         p, Loading(s.attempts[p].stage.safety))
    case LoadDone(p) => To(s, p, Restored(s.attempts[p].stage.safety))
    case Clear(p) => Ended(Unmarked(s, s.attempts[p].job), p)
    case ClearFailed(p, removed) => Ended(if removed then Unmarked(s, s.attempts[p].job) else s, p)
    case Stop(p) => Ended(s, p)
  }

  // ---------------------------------------------------------------------------------------
  // The invariant
  // ---------------------------------------------------------------------------------------

  /** `name` is a backup taken before the first load of `job`. */
  predicate Early(s: System, job: JobId, name: Name) {
    name in s.backups && job !in s.backups[name]
  }

  /** What an attempt may rely on, unless the job's marker was cleared before. */
  predicate Trusted(s: System, job: JobId, name: Name) {
    name in s.backups && ValidBackupName(name) && (job !in s.cleared ==> Early(s, job, name))
  }

  predicate MarkerOk(s: System, job: JobId)
    requires job in s.markers
  {
    job in s.jobs && Matches(s.markers[job], s.jobs[job]) && Trusted(s, job, s.markers[job].safety)
  }

  predicate AttemptOk(s: System, t: Attempt) {
    && t.job in s.jobs
    && match t.stage
       case Locked => true
       case Checked(previous) =>
         (previous.Some? <==> t.job in s.markers) && (previous.Some? ==> Trusted(s, t.job, previous.value))
       case Safe(safety) => Trusted(s, t.job, safety)
       case Marked(safety) => t.job in s.markers && Trusted(s, t.job, safety)
       case Loading(safety) => t.job in s.markers && Trusted(s, t.job, safety)
       case Restored(safety) => t.job in s.markers && Trusted(s, t.job, safety)
  }

  predicate UseOk(s: System, u: Use) {
    u.safety in s.backups && (!u.afterClear ==> Early(s, u.job, u.safety))
  }

  predicate Inv(s: System) {
    && (forall job | job in s.markers :: MarkerOk(s, job))
    && (forall p | p in s.attempts :: AttemptOk(s, s.attempts[p]))
    && (forall p, q | p in s.attempts && q in s.attempts && s.attempts[p].job in s.jobs && s.attempts[q].job in s.jobs
          && s.jobs[s.attempts[p].job].site == s.jobs[s.attempts[q].job].site :: p == q)
    && (forall job | job in s.loaded && job !in s.cleared :: job in s.markers)
    && (forall i | 0 <= i < |s.uses| :: UseOk(s, s.uses[i]))
  }

  /** Only what concerns `job` changes, backups are only added and markers only cleared. */
  ghost predicate Frame(s: System, t: System, job: JobId) {
    && t.jobs == s.jobs && s.cleared <= t.cleared
    && (forall n | n in s.backups :: n in t.backups && t.backups[n] == s.backups[n])
    && (forall k | k != job :: (k in t.markers <==>
          k in s.markers) && (k in s.markers ==> t.markers[k] == s.markers[k]))
  }

  lemma MarkerKept(s: System, t: System, job: JobId, k: JobId)
    requires Frame(s, t, job) && k in s.markers && k in t.markers && t.markers[k] == s.markers[k] && MarkerOk(s, k)
    ensures MarkerOk(t, k)
  {
  }

  lemma AttemptKept(s: System, t: System, job: JobId, x: Attempt)
    requires Frame(s, t, job) && AttemptOk(s, x) && (x.job in t.markers <==> x.job in s.markers)
    ensures AttemptOk(t, x)
  {
  }

  /** The parts of the invariant a step of process `p` on `job` must establish itself. */
  lemma Assemble(s: System, t: System, p: Pid, job: JobId)
    requires Inv(s) && Frame(s, t, job) && job in s.jobs
    requires p in s.attempts ==> s.attempts[p].job == job
    requires forall q | q != p ::
        (q in t.attempts <==> q in s.attempts) && (q in s.attempts ==> t.attempts[q] == s.attempts[q])
    requires p in t.attempts ==> t.attempts[p].job == job && AttemptOk(t, t.attempts[p])
    requires p in t.attempts && p !in s.attempts ==> Free(s, s.jobs[job].site)
    requires job in t.markers ==> MarkerOk(t, job)
    requires t.markers != s.markers ==> p in s.attempts
    requires t.loaded <= s.loaded + {job} && (job in t.loaded && job !in t.cleared ==> job in t.markers)
    requires t.uses == s.uses
             || (|t.uses| == |s.uses| + 1 && t.uses[..|s.uses|] == s.uses && UseOk(t, t.uses[|s.uses|]))
    ensures Inv(t)
  {
    forall k | k in t.markers ensures MarkerOk(t, k) {
      if k != job { MarkerKept(s, t, job, k); }
    }
    forall q | q in t.attempts ensures AttemptOk(t, t.attempts[q]) {
      if q != p {
        assert t.markers == s.markers || s.attempts[q].job != job;
        AttemptKept(s, t, job, s.attempts[q]);
      }
    }
    forall i | 0 <= i < |t.uses| ensures UseOk(t, t.uses[i]) {
      if i < |s.uses| {
        assert t.uses[i] == s.uses[i] && UseOk(s, s.uses[i]);
      }
    }
  }

  /** Only the stage of process `p` changes, or its attempt ends. */
  lemma StageKeepsInv(s: System, p: Pid, stage: Stage)
    requires Inv(s) && Running(s, p) && AttemptOk(s, Attempt(s.attempts[p].job, stage))
    ensures Inv(To(s, p, stage)) && Inv(Ended(s, p))
  {
    var job := s.attempts[p].job;
    AttemptKept(s, To(s, p, stage), job, Attempt(job, stage));
    assert job in s.markers ==> MarkerOk(s, job);
    if job in s.markers {
      MarkerKept(s, To(s, p, stage), job, job);
      MarkerKept(s, Ended(s, p), job, job);
    }
    Assemble(s, To(s, p, stage), p, job);
    Assemble(s, Ended(s, p), p, job);
  }

  lemma StartKeepsInv(s: System, p: Pid, job: JobId)
    requires Inv(s) && Enabled(s, Start(p, job))
    ensures Inv(Apply(s, Start(p, job)))
  {
    if job in s.markers {
      assert MarkerOk(s, job);
      MarkerKept(s, Apply(s, Start(p, job)), job, job);
    }
    Assemble(s, Apply(s, Start(p, job)), p, job);
  }

  /** A new backup, with no attempt relying on it yet. */
  lemma BackupKeepsInv(s: System, p: Pid, name: Name)
    requires Inv(s) && Running(s, p) && name !in s.backups
    ensures Inv(s.(backups := s.backups[name := s.loaded]))
  {
    var t, job := s.(backups := s.backups[name := s.loaded]), s.attempts[p].job;
    AttemptKept(s, t, job, s.attempts[p]);
    if job in s.markers {
      assert MarkerOk(s, job);
      MarkerKept(s, t, job, job);
    }
    Assemble(s, t, p, job);
  }

  lemma TakeKeepsInv(s: System, p: Pid, name: Name)
    requires Inv(s) && Enabled(s, Take(p, name))
    ensures Inv(Apply(s, Take(p, name)))
  {
    BackupKeepsInv(s, p, name);
    assert AttemptOk(s, s.attempts[p]);
    StageKeepsInv(s.(backups := s.backups[name := s.loaded]), p, Safe(name));
  }

  lemma MarkKeepsInv(s: System, p: Pid)
    requires Inv(s) && Running(s, p) && s.attempts[p].stage.Safe?
    ensures Inv(WithMarker(s, p)) && WithMarker(s, p).attempts == s.attempts
  {
    var t, job := WithMarker(s, p), s.attempts[p].job;
    assert AttemptOk(s, s.attempts[p]);
    Assemble(s, t, p, job);
  }

  lemma LoadKeepsInv(s: System, p: Pid)
    requires Inv(s) && Enabled(s, Load(p))
    ensures Inv(Apply(s, Load(p)))
  {
    var t, job := Apply(s, Load(p)), s.attempts[p].job;
    assert AttemptOk(s, s.attempts[p]);
    MarkerKept(s, t, job, job);
    Assemble(s, t, p, job);
  }

  lemma ClearKeepsInv(s: System, p: Pid)
    requires Inv(s) && Running(s, p)
    ensures Inv(Ended(Unmarked(s, s.attempts[p].job), p))
  {
    Assemble(s, Ended(Unmarked(s, s.attempts[p].job), p), p, s.attempts[p].job);
  }

  lemma StepKeepsInv(s: System, a: Action)
    requires Inv(s) && Enabled(s, a)
    ensures Inv(Apply(s, a))
  {
    assert a.p in s.attempts ==> AttemptOk(s, s.attempts[a.p]);
    match a {
      case Start(p, job) => StartKeepsInv(s, p, job);
      case Check(p) =>
        var job := s.attempts[p].job;
        assert job in s.markers ==> MarkerOk(s, job);
        StageKeepsInv(s, p, if job in s.markers then Checked(Some(s.markers[job].safety)) else Checked(None));
      case Take(p, name) => TakeKeepsInv(s, p, name);
      case Reuse(p) => StageKeepsInv(s, p, Safe(s.attempts[p].stage.previous.value));
      case Mark(p) =>
        MarkKeepsInv(s, p);
        StageKeepsInv(WithMarker(s, p), p, Marked(s.attempts[p].stage.safety));
      case MarkFailed(p, written) =>
        MarkKeepsInv(s, p);
        StageKeepsInv(if written then WithMarker(s, p) else s, p, Locked);
      case Load(p) => LoadKeepsInv(s, p);
      case LoadDone(p) => StageKeepsInv(s, p, Restored(s.attempts[p].stage.safety));
      case Clear(p) => ClearKeepsInv(s, p);
      case ClearFailed(p, removed) =>
        ClearKeepsInv(s, p);
        StageKeepsInv(s, p, Locked);
      case Stop(p) => StageKeepsInv(s, p, Locked);
    }
  }

  // ---------------------------------------------------------------------------------------
  // Runs
  // ---------------------------------------------------------------------------------------

  predicate Initial(s: System) {
    s.markers == map[] && s.backups == map[] && s.attempts == map[] && s.loaded == {} && s.cleared == {} && s.uses == []
  }

  ghost predicate Steps(s: System, actions: seq<Action>, t: System)
    decreases |actions|
  {
    if actions == [] then s == t
    else Enabled(s, actions[0]) && Steps(Apply(s, actions[0]), actions[1..], t)
  }

  lemma {:induction false} RunKeepsInv(s: System, actions: seq<Action>, t: System)
    requires Inv(s) && Steps(s, actions, t)
    ensures Inv(t)
    decreases |actions|
  {
    if actions != [] {
      var next := Apply(s, actions[0]);
      StepKeepsInv(s, actions[0]);
      assert Inv(next);
      RunKeepsInv(next, actions[1..], t);
    }
  }

  /** Until a job's marker is cleared, every load of the job relies on a backup taken before its first load. */
  lemma SafetyBackupIsEarly(s: System, actions: seq<Action>, t: System, i: nat)
    requires Initial(s) && Steps(s, actions, t) && i < |t.uses| && !t.uses[i].afterClear
    ensures Early(t, t.uses[i].job, t.uses[i].safety)
  {
    RunKeepsInv(s, actions, t);
    assert UseOk(t, t.uses[i]);
  }

  /** From its first load until its marker is cleared, a job has a marker that names such a backup. */
  lemma MarkerNamesEarlyBackup(s: System, actions: seq<Action>, t: System, job: JobId)
    requires Initial(s) && Steps(s, actions, t) && job in t.loaded && job !in t.cleared
    ensures job in t.markers && Early(t, job, t.markers[job].safety)
  {
    RunKeepsInv(s, actions, t);
    assert MarkerOk(t, job);
  }

  /** A retried job is never refused because of a marker an earlier attempt wrote. */
  lemma MarkerNeverRefused(s: System, actions: seq<Action>, t: System, p: Pid)
    requires Initial(s) && Steps(s, actions, t) && Enabled(t, Check(p))
    ensures p in Apply(t, Check(p)).attempts
  {
    RunKeepsInv(s, actions, t);
    assert t.attempts[p].job in t.markers ==> MarkerOk(t, t.attempts[p].job);
  }

  /** A new safety backup is too late exactly when the job's marker was cleared after a load. */
  lemma LateOnlyAfterClear(s: System, actions: seq<Action>, t: System, p: Pid, name: Name)
    requires Initial(s) && Steps(s, actions, t) && Enabled(t, Take(p, name))
    ensures var job := t.attempts[p].job;
            Early(Apply(t, Take(p, name)), job, name) <==> !(job in t.loaded && job in t.cleared)
  {
    RunKeepsInv(s, actions, t);
    assert AttemptOk(t, t.attempts[p]);
  }

  // ---------------------------------------------------------------------------------------
  // A safety backup that comes too late
  // ---------------------------------------------------------------------------------------

  const Fresh := System(map[7 := Request("shop", "db")], map[], map[], map[], {}, {}, [])

  ghost predicate Reachable(s: System) {
    exists actions :: Steps(Fresh, actions, s)
  }

  lemma {:induction false} AddStep(s: System, actions: seq<Action>, t: System, a: Action)
    requires Steps(s, actions, t) && Enabled(t, a)
    ensures Steps(s, actions + [a], Apply(t, a))
    decreases |actions|
  {
    if actions == [] {
      assert (actions + [a])[1..] == [];
    } else {
      AddStep(Apply(s, actions[0]), actions[1..], t, a);
      assert (actions + [a])[1..] == actions[1..] + [a];
    }
  }

  lemma Go(s: System, a: Action) returns (t: System)
    requires Reachable(s) && Enabled(s, a)
    ensures t == Apply(s, a) && Reachable(t)
  {
    var actions :| Steps(Fresh, actions, s);
    AddStep(Fresh, actions, s, a);
    t := Apply(s, a);
  }

  /** The marker lookup: none, the recorded safety backup, or a refusal of a marker that is not the job's. */
  lemma CheckExactly(s: System, p: Pid)
    requires Enabled(s, Check(p))
    ensures var t, job := Apply(s, Check(p)), s.attempts[p].job;
            if job !in s.markers then p in t.attempts && t.attempts[p] == Attempt(job, Checked(None))
            else
              var m, r := s.markers[job], s.jobs[job];
              if m.site != r.site || m.database != r.database || !ValidBackupName(m.safety) then p !in t.attempts
              else p in t.attempts && t.attempts[p] == Attempt(job, Checked(Some(m.safety)))
  {
  }

  /** An attempt of the job without a marker takes a new safety backup. */
  lemma TakesBackup(s: System, p: Pid, name: Name) returns (t: System)
    requires Reachable(s) && s.jobs == Fresh.jobs && s.attempts == map[] && s.markers == map[]
    requires name !in s.backups && ValidBackupName(name)
    ensures Reachable(t)
    ensures t == s.(backups := s.backups[name := s.loaded], attempts := map[p := Attempt(7, Safe(name))])
  {
    t := Go(s, Start(p, 7));
    t := Go(t, Check(p));
    t := Go(t, Take(p, name));
    assert t.attempts == map[p := Attempt(7, Safe(name))];
  }

  lemma BackupAndMark() returns (t: System)
    ensures Reachable(t) && t.jobs == Fresh.jobs && t.attempts == map[1 := Attempt(7, Marked("b1"))]
    ensures t.markers.Keys == {7} && "b2" !in t.backups
  {
    assert Steps(Fresh, [], Fresh);
    t := TakesBackup(Fresh, 1, "b1");
    t := Go(t, Mark(1));
  }

  /** A first attempt takes a backup, loads, completes and clears its marker. */
  lemma FirstAttempt() returns (t: System)
    ensures Reachable(t) && t.jobs == Fresh.jobs && t.markers == map[] && t.attempts == map[] && "b2" !in t.backups
    ensures 7 in t.loaded && 7 in t.cleared
  {
    t := BackupAndMark();
    t := LoadAndClear(t);
  }

  lemma LoadAndClear(s: System) returns (t: System)
    requires Reachable(s) && s.jobs == Fresh.jobs && s.attempts == map[1 := Attempt(7, Marked("b1"))]
    requires s.markers.Keys == {7} && "b2" !in s.backups
    ensures Reachable(t) && t.jobs == Fresh.jobs && t.markers == map[] && t.attempts == map[] && "b2" !in t.backups
    ensures 7 in t.loaded && 7 in t.cleared
  {
    t := Go(s, Load(1));
    t := Go(t, LoadDone(1));
    t := Go(t, Clear(1));
  }

  /** The job runs again (it was not yet recorded as done), and its new safety backup is taken after its own load. */
  lemma LateBackupHappens() returns (t: System)
    ensures Reachable(t) && t.attempts == map[2 := Attempt(7, Safe("b2"))] && "b2" in t.backups && !Early(t, 7, "b2")
  {
    t := FirstAttempt();
    t := TakesBackup(t, 2, "b2");
  }
}
