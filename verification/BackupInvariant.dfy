/** Every step of the schedulers, editors, workers and dispatchers keeps the schedule invariant. */
module BackupInvariant {
  import opened Optional
  import StateMerge
  import opened BackupSchedule

  /** What a step may do to the rest of the system: add newer intents, remove rows, add jobs, rewind sites. */
  ghost predicate Keeps(s: System, t: System) {
    && (forall x | x in s.staged :: x in t.staged) && s.rewound <= t.rewound
    && (forall k, x | k in t.outbox && x in s.staged && x.key.site !in t.rewound && Older(t.outbox[k], x) ::
          k in s.outbox && s.outbox[k] == t.outbox[k])
    && (forall k | HasJob(s, k) :: HasJob(t, k))
  }

  lemma ClearedKept(s: System, t: System, x: Intent)
    requires Keeps(s, t) && x in s.staged && Cleared(s, x)
    ensures Cleared(t, x)
  {
  }

  lemma DispatcherKept(s: System, t: System, d: Dispatcher)
    requires Keeps(s, t) && DispatcherOk(s, d)
    ensures DispatcherOk(t, d)
  {
    if !d.Idle? {
      forall x | x in d.batch ensures x in t.staged && Cleared(t, x) {
        ClearedKept(s, t, x);
      }
    }
  }

  lemma DispatchersKept(s: System, t: System, p: Pid)
    requires Keeps(s, t) && DispatchersOk(s) && DispatcherOk(t, At(t, p))
    requires forall q | q in t.dispatchers && q != p :: q in s.dispatchers && t.dispatchers[q] == s.dispatchers[q]
    ensures DispatchersOk(t)
  {
    forall q | q in t.dispatchers ensures DispatcherOk(t, t.dispatchers[q]) {
      if q != p { DispatcherKept(s, t, s.dispatchers[q]); }
    }
  }

  lemma JobsKept(s: System, t: System)
    requires Keeps(s, t) && JobsOk(s) && RowsOk(s)
    requires forall j | j in t.jobs :: j in s.jobs || Cleared(t, j)
    ensures JobsOk(t)
  {
    forall j | j in t.jobs ensures Cleared(t, j) {
      if j in s.jobs { ClearedKept(s, t, j); }
    }
  }

  /** A step keeps the invariant when its tables are sound and process `p` is left in order. */
  lemma Assemble(s: System, t: System, p: Pid)
    requires Inv(s) && Keeps(s, t) && CopiesOk(t) && StagedOk(t) && RowsOk(t)
    requires forall j | j in t.jobs :: j in s.jobs || Cleared(t, j)
    requires forall q | q in t.dispatchers && q != p :: q in s.dispatchers && t.dispatchers[q] == s.dispatchers[q]
    requires DispatcherOk(t, At(t, p))
    ensures Inv(t)
  {
    JobsKept(s, t);
    DispatchersKept(s, t, p);
  }

  lemma InvGivesBatches(s: System)
    requires Inv(s)
    ensures BatchesOk(s)
  {
    forall p | p in s.dispatchers && !s.dispatchers[p].Idle? ensures s.dispatchers[p].batch != [] {
      assert DispatcherOk(s, s.dispatchers[p]);
    }
  }

  lemma AtOk(s: System, p: Pid)
    requires Inv(s)
    ensures DispatcherOk(s, At(s, p))
  {
  }

  /** A step that touches no dispatcher and no job. */
  lemma TablesKeepInv(s: System, t: System)
    requires Inv(s) && Keeps(s, t) && CopiesOk(t) && StagedOk(t) && RowsOk(t)
    requires t.dispatchers == s.dispatchers && t.jobs == s.jobs
    ensures Inv(t)
  {
    AtOk(s, 0);
    DispatcherKept(s, t, At(s, 0));
    Assemble(s, t, 0);
  }

  lemma SameTables(s: System, t: System)
    requires RowsOk(s) && t.outbox == s.outbox && t.jobs == s.jobs && t.staged == s.staged && t.dropped == s.dropped
    requires s.rewound <= t.rewound
    ensures RowsOk(t) && Keeps(s, t)
  {
    forall k ensures HasJob(t, k) == HasJob(s, k) {}
  }

  lemma SchedulesUntouched(s: System, t: System)
    requires StagedOk(s) && CopiesOk(s) && t.schedules == s.schedules && t.copies == s.copies && t.staged == s.staged
    requires t.clock == s.clock && t.rewound == s.rewound
    ensures StagedOk(t) && CopiesOk(t)
  {
  }

  /** Only process `p` changes. */
  lemma DispatcherKeepsInv(s: System, p: Pid, d: Dispatcher)
    requires Inv(s) && DispatcherOk(s, d)
    ensures Inv(Become(s, p, d))
  {
    var t := Become(s, p, d);
    SameTables(s, t);
    DispatcherKept(s, t, d);
    assert StagedOk(t) && CopiesOk(t);
    Assemble(s, t, p);
  }

  // ---------------------------------------------------------------------------------------
  // Schedules and copies
  // ---------------------------------------------------------------------------------------

  lemma MergedIntervals(base: Schedules, intended: Schedules, current: Schedules, m: Schedules)
    requires StateMerge.Merge(base, intended, current) == Some(m) && IntervalsOk(intended) && IntervalsOk(current)
    ensures IntervalsOk(m)
  {
    forall site | site in m ensures m[site].interval >= MIN_INTERVAL {
      StateMerge.MergedAt(base, intended, current, site);
    }
  }

  /** Only the clock, the schedules, the copies and the record of rewound sites change. */
  lemma SchedulesKeepInv(s: System, t: System)
    requires Inv(s) && CopiesOk(t) && Ahead(t) && s.rewound <= t.rewound && s.clock <= t.clock
    requires t == s.(clock := t.clock, schedules := t.schedules, copies := t.copies, rewound := t.rewound)
    ensures Inv(t)
  {
    SameTables(s, t);
    assert StagedOk(t);
    TablesKeepInv(s, t);
  }

  lemma CopyOfOk(s: System, p: Pid)
    requires CopiesOk(s)
    ensures IntervalsOk(CopyOf(s, p).base) && IntervalsOk(CopyOf(s, p).live)
  {
  }

  lemma KeepIsOk(s: System, p: Pid, c: Copy)
    requires CopiesOk(s) && IntervalsOk(c.base) && IntervalsOk(c.live)
    ensures CopiesOk(Keep(s, p, c))
  {
  }

  lemma RefreshKeepsInv(s: System, p: Pid, live: Schedules)
    requires Inv(s) && IntervalsOk(live)
    ensures Inv(Refreshed(s, p, live))
  {
    KeepIsOk(s, p, Copy(s.schedules, live + s.schedules));
    SchedulesKeepInv(s, Refreshed(s, p, live));
  }

  /** A commit of the schedules records every site it sets back, so the others stay ahead. */
  lemma CommitKeepsInv(s: System, m: Schedules, copies: map<Pid, Copy>)
    requires Inv(s) && IntervalsOk(m)
    requires forall p | p in copies :: IntervalsOk(copies[p].base) && IntervalsOk(copies[p].live)
    ensures Inv(s.(schedules := m, rewound := s.rewound + BehindSites(s.staged, m), copies := copies))
  {
    SchedulesKeepInv(s, s.(schedules := m, rewound := s.rewound + BehindSites(s.staged, m), copies := copies));
  }

  /** Acknowledged or not. */
  lemma PersistCommits(s: System, p: Pid, intended: Schedules, m: Schedules)
    requires Inv(s) && IntervalsOk(intended) && IntervalsOk(m)
    ensures var t := s.(schedules := m, rewound := s.rewound + BehindSites(s.staged, m));
            Inv(t) && Inv(Keep(t, p, Copy(m, intended + m)))
  {
    CommitKeepsInv(s, m, s.copies[p := Copy(m, intended + m)]);
    CommitKeepsInv(s, m, s.copies);
  }

  lemma PersistKeepsInv(s: System, p: Pid, site: Site, next: Option<Schedule>, how: Swap)
    requires Inv(s) && (next.Some? ==> next.value.interval >= MIN_INTERVAL)
    ensures Inv(Persisted(s, p, site, next, how))
  {
    var c := CopyOf(s, p);
    var intended := Intended(c.live, site, next);
    CopyOfOk(s, p);
    assert IntervalsOk(intended);
    match StateMerge.Merge(c.base, intended, s.schedules) {
      case None => RefreshKeepsInv(s, p, intended);
      case Some(m) =>
        MergedIntervals(c.base, intended, s.schedules, m);
        if how == Busy { RefreshKeepsInv(s, p, intended); } else { PersistCommits(s, p, intended, m); }
    }
  }

  // ---------------------------------------------------------------------------------------
  // Staging
  // ---------------------------------------------------------------------------------------

  /** At a site that was not rewound, a due slot is later than everything staged for the site. */
  lemma StageIsLater(s: System, site: Site, dueRun: Time, now: Time, x: Intent)
    requires StagedOk(s) && Due(s, site, dueRun) && dueRun <= now && x in s.staged && x.key.site == site
    requires site !in s.rewound
    ensures x.key.slot < dueRun && x.createdAt < now
  {
    var i :| 0 <= i < |s.staged| && s.staged[i] == x;
  }

  /** So the slot was never staged before, and the insert takes effect. */
  lemma SlotIsNew(s: System, site: Site, dueRun: Time, now: Time)
    requires StagedOk(s) && RowsOk(s) && Due(s, site, dueRun) && dueRun <= now && site !in s.rewound
    ensures Key(site, dueRun) !in s.outbox && !HasJob(s, Key(site, dueRun))
    ensures forall x | x in s.staged :: x.key != Key(site, dueRun)
  {
    forall x | x in s.staged ensures x.key != Key(site, dueRun) {
      if x.key.site == site { StageIsLater(s, site, dueRun, now, x); }
    }
  }

  lemma StageKeepsOrder(s: System, site: Site, dueRun: Time, now: Time)
    requires StagedOk(s) && Due(s, site, dueRun) && dueRun <= now <= s.clock
    ensures Increasing(Staged(s, site, dueRun, now).staged, s.rewound)
  {
    var t := Staged(s, site, dueRun, now);
    forall i, j | 0 <= i < j < |t.staged|
                  && t.staged[i].key.site == t.staged[j].key.site && t.staged[i].key.site !in s.rewound
      ensures t.staged[i].key.slot < t.staged[j].key.slot && t.staged[i].createdAt < t.staged[j].createdAt
    {
      if j == |s.staged| {
        assert t.staged[i] in s.staged;
        StageIsLater(s, site, dueRun, now, t.staged[i]);
      }
    }
  }

  lemma StageKeepsAhead(s: System, site: Site, dueRun: Time, now: Time)
    requires StagedOk(s) && CopiesOk(s) && Due(s, site, dueRun) && dueRun <= now <= s.clock
    ensures Ahead(Staged(s, site, dueRun, now))
  {
    var t := Staged(s, site, dueRun, now);
    forall other | other in t.schedules && other !in t.rewound
      ensures !Behind(t.staged, other, t.schedules[other].nextRun)
    {
      forall i | 0 <= i < |t.staged| && t.staged[i].key.site == other
        ensures t.staged[i].createdAt < t.schedules[other].nextRun
      {
        if i < |s.staged| && other == site {
          assert s.staged[i] in s.staged;
          StageIsLater(s, site, dueRun, now, s.staged[i]);
        } else if i < |s.staged| {
          assert !Behind(s.staged, other, s.schedules[other].nextRun);
        }
      }
    }
  }

  lemma StageKeepsRows(s: System, site: Site, dueRun: Time, now: Time)
    requires StagedOk(s) && RowsOk(s) && Due(s, site, dueRun) && dueRun <= now
    ensures RowsOk(Staged(s, site, dueRun, now)) && Keeps(s, Staged(s, site, dueRun, now))
  {
    var t := Staged(s, site, dueRun, now);
    var x := IntentOf(site, s.schedules[site], now);
    forall k ensures HasJob(t, k) == HasJob(s, k) {}
    if x.key !in s.outbox {
      assert t.staged[|s.staged|] == x;
      forall k, y | k in t.outbox && y in s.staged && y.key.site !in t.rewound && Older(t.outbox[k], y)
        ensures k in s.outbox && s.outbox[k] == t.outbox[k]
      {
        if k == x.key { StageIsLater(s, site, dueRun, now, y); }
      }
    }
  }

  lemma StageKeepsInv(s: System, site: Site, dueRun: Time, now: Time)
    requires Inv(s) && dueRun <= now <= s.clock
    ensures Inv(Staged(s, site, dueRun, now))
  {
    if Due(s, site, dueRun) {
      StageKeepsRows(s, site, dueRun, now);
      StageKeepsStaged(s, site, dueRun, now);
      TablesKeepInv(s, Staged(s, site, dueRun, now));
    }
  }

  lemma StageKeepsStaged(s: System, site: Site, dueRun: Time, now: Time)
    requires StagedOk(s) && CopiesOk(s) && Due(s, site, dueRun) && dueRun <= now <= s.clock
    ensures StagedOk(Staged(s, site, dueRun, now)) && CopiesOk(Staged(s, site, dueRun, now))
  {
    StageKeepsOrder(s, site, dueRun, now);
    StageKeepsAhead(s, site, dueRun, now);
  }

  // ---------------------------------------------------------------------------------------
  // Dispatch
  // ---------------------------------------------------------------------------------------

  lemma ProceedOk(s: System, batch: seq<Intent>)
    requires batch != [] && forall x | x in batch :: x in s.staged && Cleared(s, x)
    ensures DispatcherOk(s, Proceed(batch[1..]))
  {
  }

  lemma RemovedRows(s: System, t: System, gone: set<Key>)
    requires RowsOk(s) && t.outbox == s.outbox - gone && t.jobs == s.jobs && t.staged == s.staged
    requires t.rewound == s.rewound
    requires s.dropped <= t.dropped && forall k | k in gone && k in s.outbox :: HasJob(s, k) || k in t.dropped
    ensures RowsOk(t) && Keeps(s, t)
  {
    forall k ensures HasJob(t, k) == HasJob(s, k) {}
  }

  lemma PurgeKeepsInv(s: System, site: Site)
    requires Inv(s)
    ensures Inv(Purged(s, site))
  {
    var t := Purged(s, site);
    RemovedRows(s, t, set k | k in s.outbox && k.site == site);
    assert StagedOk(t) && CopiesOk(t);
    TablesKeepInv(s, t);
  }

  lemma JobAdded(s: System, x: Intent)
    requires RowsOk(s) && x in s.staged
    ensures RowsOk(WithJob(s, x)) && HasJob(WithJob(s, x), x.key) && Keeps(s, WithJob(s, x))
  {
    var t := WithJob(s, x);
    if t != s { assert t.jobs[|s.jobs|] == x; }
    forall k | HasJob(s, k) ensures HasJob(t, k) {
      var i :| 0 <= i < |s.jobs| && s.jobs[i].key == k;
      assert t.jobs[i].key == k;
    }
    forall j | j in t.jobs ensures j in t.staged {
      assert j in s.jobs || j == x;
    }
  }

  lemma JobClears(s: System, x: Intent)
    requires JobsOk(s) && RowsOk(s) && Keeps(s, WithJob(s, x)) && x in s.staged && Cleared(s, x)
    ensures JobsOk(WithJob(s, x))
  {
    var t := WithJob(s, x);
    ClearedKept(s, t, x);
    forall j | j in t.jobs ensures Cleared(t, j) {
      if j in s.jobs { ClearedKept(s, t, j); } else { assert j == x; }
    }
  }

  lemma WithJobKeepsInv(s: System, x: Intent)
    requires Inv(s) && x in s.staged && Cleared(s, x)
    ensures Inv(WithJob(s, x))
  {
    if !HasJob(s, x.key) {
      JobAdded(s, x);
      JobClears(s, x);
      JobKeepsInv(s, WithJob(s, x));
    }
  }

  lemma JobKeepsInv(s: System, t: System)
    requires Inv(s) && Keeps(s, t) && RowsOk(t) && JobsOk(t) && t == s.(jobs := t.jobs)
    ensures Inv(t)
  {
    SchedulesUntouched(s, t);
    AtOk(s, 0);
    DispatcherKept(s, t, At(s, 0));
    DispatchersKept(s, t, 0);
  }

  lemma JobThen(s: System, p: Pid, batch: seq<Intent>, d: Dispatcher)
    requires Inv(s) && At(s, p) == SeenEnabled(batch) && batch != []
    requires d == Enqueued(batch) || d == Proceed(batch[1..])
    ensures Inv(Become(WithJob(s, batch[0]), p, d))
  {
    AtOk(s, p);
    WithJobKeepsInv(s, batch[0]);
    JobAdded(s, batch[0]);
    var t := WithJob(s, batch[0]);
    DispatcherKept(s, t, At(s, p));
    ProceedOk(t, batch);
    DispatcherKeepsInv(t, p, d);
  }

  lemma SkipKeepsInv(s: System, p: Pid)
    requires Inv(s) && !At(s, p).Idle? && At(s, p).batch != []
    ensures Inv(Become(s, p, Proceed(At(s, p).batch[1..])))
  {
    AtOk(s, p);
    ProceedOk(s, At(s, p).batch);
    DispatcherKeepsInv(s, p, Proceed(At(s, p).batch[1..]));
  }

  lemma FetchKeepsInv(s: System, p: Pid, batch: seq<Intent>)
    requires Inv(s) && IsBatch(s, batch)
    ensures Inv(Become(s, p, Proceed(batch)))
  {
    forall x | x in batch ensures x in s.staged && Cleared(s, x) {
      assert Oldest(s, x);
    }
    DispatcherKeepsInv(s, p, Proceed(batch));
  }

  lemma LookKeepsInv(s: System, p: Pid)
    requires Inv(s) && BatchesOk(s) && At(s, p).Holding?
    ensures Inv(Looked(s, p))
  {
    var t := Refreshed(s, p, CopyOf(s, p).live);
    CopyOfOk(s, p);
    RefreshKeepsInv(s, p, CopyOf(s, p).live);
    AtOk(t, p);
    DispatcherKeepsInv(t, p, At(Looked(s, p), p));
  }

  lemma DeletedKeepsInv(s: System, p: Pid)
    requires Inv(s) && BatchesOk(s) && (At(s, p).Enqueued? || At(s, p).SeenDisabled?)
    ensures Inv(Deleted(s, p)) && At(Deleted(s, p), p) == At(s, p)
  {
    var t := Deleted(s, p);
    AtOk(s, p);
    RemovedRows(s, t, {At(s, p).batch[0].key});
    assert StagedOk(t) && CopiesOk(t);
    TablesKeepInv(s, t);
  }

  lemma DeleteKeepsInv(s: System, p: Pid)
    requires Inv(s) && BatchesOk(s) && (At(s, p).Enqueued? || At(s, p).SeenDisabled?)
    ensures Inv(Become(Deleted(s, p), p, Proceed(At(s, p).batch[1..]))) && Inv(Become(Deleted(s, p), p, Idle))
  {
    DeletedKeepsInv(s, p);
    SkipKeepsInv(Deleted(s, p), p);
    DispatcherKeepsInv(Deleted(s, p), p, Idle);
  }

  lemma CrashKeepsInv(s: System, p: Pid)
    requires Inv(s)
    ensures Inv(s.(dispatchers := s.dispatchers - {p}, copies := s.copies - {p}))
  {
    var t := s.(dispatchers := s.dispatchers - {p}, copies := s.copies - {p});
    SameTables(s, t);
    assert StagedOk(t) && CopiesOk(t);
    Assemble(s, t, p);
  }

  predicate OnSchedules(a: Action) {
    a.Elapse? || a.Refresh? || a.Put? || a.Remove? || a.Record? || a.Stage? || a.Purge?
  }

  lemma PutKeepsInv(s: System, a: Action)
    requires Inv(s) && BatchesOk(s) && a.Put? && Enabled(s, a)
    ensures Inv(Apply(s, a))
  {
    PersistKeepsInv(s, a.p, a.site, Some(NewSchedule(a)), a.how);
  }

  lemma RecordKeepsInv(s: System, a: Action)
    requires Inv(s) && BatchesOk(s) && a.Record? && Enabled(s, a)
    ensures Inv(Apply(s, a))
  {
    CopyOfOk(s, a.p);
    PersistKeepsInv(s, a.p, a.site, Some(CopyOf(s, a.p).live[a.site].(result := a.result)), a.how);
  }

  lemma ClockKeepsInv(s: System, a: Action)
    requires Inv(s) && BatchesOk(s) && (a.Elapse? || a.Refresh?) && Enabled(s, a)
    ensures Inv(Apply(s, a))
  {
    if a.Elapse? {
      SchedulesKeepInv(s, Apply(s, a));
    } else {
      CopyOfOk(s, a.p);
      RefreshKeepsInv(s, a.p, CopyOf(s, a.p).live);
    }
  }

  lemma EditKeepsInv(s: System, a: Action)
    requires Inv(s) && BatchesOk(s) && Enabled(s, a) && OnSchedules(a)
    ensures Inv(Apply(s, a))
  {
    if a.Put? {
      PutKeepsInv(s, a);
    } else if a.Remove? {
      PersistKeepsInv(s, a.p, a.site, None, a.how);
    } else if a.Record? {
      RecordKeepsInv(s, a);
    } else if a.Stage? {
      StageKeepsInv(s, a.site, a.dueRun, a.now);
    } else if a.Purge? {
      PurgeKeepsInv(s, a.site);
    } else {
      ClockKeepsInv(s, a);
    }
  }

  lemma DispatchKeepsInv(s: System, a: Action)
    requires Inv(s) && BatchesOk(s) && Enabled(s, a) && !OnSchedules(a)
    ensures Inv(Apply(s, a))
  {
    match a {
      case Fetch(p, batch) => FetchKeepsInv(s, p, batch);
      case Skip(p) => SkipKeepsInv(s, p);
      case Quit(p) => DispatcherKeepsInv(s, p, Idle);
      case Look(p) => LookKeepsInv(s, p);
      case Enqueue(p) => JobThen(s, p, At(s, p).batch, Enqueued(At(s, p).batch));
      case EnqueueFailed(p, written) =>
        if written {
          JobThen(s, p, At(s, p).batch, Proceed(At(s, p).batch[1..]));
        } else {
          SkipKeepsInv(s, p);
        }
      case Delete(p) => DeleteKeepsInv(s, p);
      case DeleteFailed(p, written) =>
        DeleteKeepsInv(s, p);
        DispatcherKeepsInv(s, p, Idle);
      case Crash(p) => CrashKeepsInv(s, p);
    }
  }

  lemma StepKeepsInv(s: System, a: Action)
    requires Inv(s) && BatchesOk(s) && Enabled(s, a)
    ensures Inv(Apply(s, a))
  {
    if OnSchedules(a) {
      EditKeepsInv(s, a);
    } else {
      DispatchKeepsInv(s, a);
    }
  }

  // ---------------------------------------------------------------------------------------
  // Runs
  // ---------------------------------------------------------------------------------------

  ghost predicate Initial(s: System) {
    && s.outbox == map[] && s.jobs == [] && s.dispatchers == map[] && s.staged == [] && s.copies == map[]
    && s.dropped == {} && s.rewound == {} && IntervalsOk(s.schedules)
  }

  ghost predicate Steps(s: System, actions: seq<Action>, t: System)
    decreases |actions|
  {
    if actions == [] then s == t
    else BatchesOk(s) && Enabled(s, actions[0]) && Steps(Apply(s, actions[0]), actions[1..], t)
  }

  lemma {:induction false} RunKeepsInv(s: System, actions: seq<Action>, t: System)
    requires Inv(s) && Steps(s, actions, t)
    ensures Inv(t)
    decreases |actions|
  {
    if actions != [] {
      var next := Apply(s, actions[0]);
      StepKeepsInv(s, actions[0]);
      assert Inv(next);
      RunKeepsInv(next, actions[1..], t);
    }
  }
}
