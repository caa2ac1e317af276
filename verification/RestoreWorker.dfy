/** The database branch of `handleBackupRestoreJob` as one worker executes it, while other workers run other jobs. */
module RestoreWorker {
  import opened Optional
  import opened Retention
  import opened RestoreMarker

  /** What the steps of other processes leave alone. */
  ghost predicate Follows(s: System, t: System) {
    && t.jobs == s.jobs && s.uses <= t.uses
    && forall n | n in s.backups :: n in t.backups && t.backups[n] == s.backups[n]
  }

  lemma StepFollows(s: System, a: Action)
    requires Enabled(s, a)
    ensures Follows(s, Apply(s, a))
  {
  }

  lemma FollowsTransitively(s: System, t: System, u: System)
    requires Follows(s, t) && Follows(t, u)
    ensures Follows(s, u)
  {
  }

  class Shared {
    var s: System

    constructor (jobs: map<JobId, Request>)
      ensures Initial(s) && s.jobs == jobs
    {
      s := System(jobs, map[], map[], map[], {}, {}, []);
    }

    method Do(a: Action)
      requires Inv(s) && Enabled(s, a)
      modifies this
      ensures s == Apply(old(s), a) && Inv(s) && Follows(old(s), s)
    {
      StepKeepsInv(s, a);
      StepFollows(s, a);
      s := Apply(s, a);
    }

    /** Any number of steps of other processes. */
    method Others(me: Pid)
      requires Inv(s)
      modifies this
      ensures Inv(s) && Follows(old(s), s)
      ensures me in s.attempts <==> me in old(s).attempts
      ensures me in s.attempts ==> s.attempts[me] == old(s).attempts[me]
    {
      var steps: int := *;
      while steps > 0
        invariant Inv(s) && Follows(old(s), s)
        invariant me in s.attempts <==> me in old(s).attempts
        invariant me in s.attempts ==> s.attempts[me] == old(s).attempts[me]
      {
        var a: Action := *;
        if a.p != me && Enabled(s, a) {
          ghost var before := s;
          Do(a);
          FollowsTransitively(old(s), before, s);
        }
        steps := steps - 1;
      }
    }
  }

  /**
    A load of `job` relying on `safety` began since `start`; unless the marker was cleared before,
    the backup is early.
  */
  ghost predicate LoadedWith(start: System, now: System, job: JobId, safety: Name) {
    exists i | |start.uses| <= i < |now.uses| ::
      now.uses[i].job == job && now.uses[i].safety == safety && (!now.uses[i].afterClear ==> Early(now, job, safety))
  }

  lemma LoadRecorded(start: System, s: System, job: JobId, safety: Name)
    requires Inv(s) && Follows(start, s) && |s.uses| > |start.uses|
    requires s.uses[|s.uses| - 1].job == job && s.uses[|s.uses| - 1].safety == safety
    ensures LoadedWith(start, s, job, safety)
  {
    assert UseOk(s, s.uses[|s.uses| - 1]);
  }

  lemma LoadRemembered(start: System, s: System, t: System, job: JobId, safety: Name)
    requires LoadedWith(start, s, job, safety) && Follows(s, t)
    ensures LoadedWith(start, t, job, safety)
  {
    var i :| |start.uses| <= i < |s.uses| && s.uses[i].job == job && s.uses[i].safety == safety
             && (!s.uses[i].afterClear ==> Early(s, job, safety));
    assert t.uses[i] == s.uses[i];
  }

  /** What goes wrong in one attempt. */
  datatype Trouble =
    | Nothing
    | SafetyError                 // the safety backup cannot be taken, or does not verify
    | MarkError(written: bool)
    | LoadError
    | ClearError(removed: bool)

  /** The name of a new safety backup, for an attempt that ended in state `s`. */
  predicate Nameable(s: System, name: Name) {
    name !in s.backups && ValidBackupName(name)
  }

  /** Look the marker up and take a safety backup, or reuse the one the marker names. */
  method Secure(db: Shared, me: Pid, job: JobId, name: Name, trouble: Trouble) returns (safety: Option<Name>)
    requires Inv(db.s) && me !in db.s.attempts && job in db.s.jobs
    modifies db
    ensures Inv(db.s) && Follows(old(db.s), db.s)
    ensures safety.Some? ==>
        && me in db.s.attempts && db.s.attempts[me] == Attempt(job, Safe(safety.value))
        && Free(old(db.s), db.s.jobs[job].site) && !trouble.SafetyError?
        && (if job in old(db.s).markers then safety.value == old(db.s).markers[job].safety
            else safety.value == name && Nameable(old(db.s), name))
    ensures safety.None? ==>
        && me !in db.s.attempts
        && (|| !Free(old(db.s), db.s.jobs[job].site) || trouble.SafetyError?
            || (job !in old(db.s).markers && !Nameable(db.s, name)))
  {
    ghost var start := db.s;
    if !Free(db.s, db.s.jobs[job].site) {
      return None;
    }
    MarkerMatches(db.s, job);
    db.Do(Start(me, job));
    db.Do(Check(me));
    ghost var before := db.s;
    db.Others(me);
    FollowsTransitively(start, before, db.s);
    before := db.s;
    var previous := db.s.attempts[me].stage.previous;
    if trouble.SafetyError? || (previous.None? && (name in db.s.backups || !ValidBackupName(name))) {
      db.Do(Stop(me));
      safety := None;
    } else if previous.None? {
      db.Do(Take(me, name));
      safety := Some(name);
    } else {
      safety := previous;
      db.Do(Reuse(me));
    }
    FollowsTransitively(start, before, db.s);
  }

  lemma MarkerMatches(s: System, job: JobId)
    requires Inv(s)
    ensures job in s.markers ==> job in s.jobs && Matches(s.markers[job], s.jobs[job])
  {
    assert job in s.markers ==> MarkerOk(s, job);
  }

  /** Write the marker and load the dump. */
  method LoadDump(db: Shared, me: Pid, job: JobId, safety: Name, trouble: Trouble) returns (began: bool, complete: bool)
    requires Inv(db.s) && job in db.s.jobs && me in db.s.attempts && db.s.attempts[me] == Attempt(job, Safe(safety))
    modifies db
    ensures Inv(db.s) && Follows(old(db.s), db.s)
    ensures began <==> !trouble.MarkError?
    ensures complete <==> !trouble.MarkError? && !trouble.LoadError?
    ensures complete ==> me in db.s.attempts && db.s.attempts[me] == Attempt(job, Restored(safety))
    ensures !complete ==> me !in db.s.attempts
    ensures began ==> LoadedWith(old(db.s), db.s, job, safety)
  {
    ghost var start := db.s;
    if trouble.MarkError? {
      db.Do(MarkFailed(me, trouble.written));
      return false, false;
    }
    db.Do(Mark(me));
    ghost var before := db.s;
    db.Others(me);
    FollowsTransitively(start, before, db.s);
    before := db.s;
    db.Do(Load(me));
    FollowsTransitively(start, before, db.s);
    LoadRecorded(start, db.s, job, safety);
    before := db.s;
    db.Others(me);
    LoadRemembered(start, before, db.s, job, safety);
    FollowsTransitively(start, before, db.s);
    before := db.s;
    complete := !trouble.LoadError?;
    if complete {
      db.Do(LoadDone(me));
    } else {
      db.Do(Stop(me));
    }
    LoadRemembered(start, before, db.s, job, safety);
    FollowsTransitively(start, before, db.s);
    began := true;
  }

  /** Remove the marker of a completed job. */
  method ClearMarker(db: Shared, me: Pid, job: JobId, safety: Name, trouble: Trouble)
    requires Inv(db.s) && job in db.s.jobs && me in db.s.attempts && db.s.attempts[me] == Attempt(job, Restored(safety))
    modifies db
    ensures Inv(db.s) && Follows(old(db.s), db.s) && me !in db.s.attempts
    ensures job in db.s.markers <==> job in old(db.s).markers && trouble.ClearError? && !trouble.removed
  {
    if trouble.ClearError? {
      db.Do(ClearFailed(me, trouble.removed));
    } else {
      db.Do(Clear(me));
    }
  }

  /**
    One attempt of a restore job; a failure or crash can end it after any step.  It completes
    exactly when its site is free, a safety backup can be had, and marking and loading work; then
    the marker is gone, unless removing it failed.
  */
  method HandleRestoreJob(db: Shared, me: Pid, job: JobId, name: Name, trouble: Trouble)
    returns (complete: bool, began: Option<Name>)
    requires Inv(db.s) && me !in db.s.attempts && job in db.s.jobs
    modifies db
    ensures Inv(db.s) && Follows(old(db.s), db.s) && me !in db.s.attempts
    ensures complete ==> began.Some?
    ensures began.Some? ==>
        && LoadedWith(old(db.s), db.s, job, began.value)
        && began.value == if job in old(db.s).markers then old(db.s).markers[job].safety else name
    ensures complete ==> (job in db.s.markers ==> trouble.ClearError? && !trouble.removed)
    ensures !complete ==>
        || !Free(old(db.s), db.s.jobs[job].site) || trouble.SafetyError? || trouble.MarkError? || trouble.LoadError?
        || (job !in old(db.s).markers && !Nameable(db.s, name))
    ensures complete ==> Free(old(db.s), db.s.jobs[job].site) && (trouble.Nothing? || trouble.ClearError?)
  {
    ghost var start := db.s;
    complete, began := false, None;
    var safety := Secure(db, me, job, name, trouble);
    if safety.None? {
      return;
    }
    ghost var secured := db.s;
    var loading;
    loading, complete := LoadDump(db, me, job, safety.value, trouble);
    FollowsTransitively(start, secured, db.s);
    if !loading {
      return;
    }
    began := safety;
    LoadedEarlier(start, secured, db.s, job, safety.value);
    if complete {
      ghost var before := db.s;
      ClearMarker(db, me, job, safety.value, trouble);
      LoadRemembered(start, before, db.s, job, safety.value);
      FollowsTransitively(start, before, db.s);
    }
  }

  lemma LoadedEarlier(start: System, mid: System, now: System, job: JobId, safety: Name)
    requires Follows(start, mid) && LoadedWith(mid, now, job, safety)
    ensures LoadedWith(start, now, job, safety)
  {
  }
}
