/** One scheduler process's tick (`runDueBackups`), while its peers stage, dispatch, edit and record. */
module BackupScheduler {
  import Optional
  import opened BackupSchedule
  import opened BackupInvariant
  import opened BackupResults

  predicate ByOther(a: Action, me: Pid) {
    a.Elapse? || a.Purge? || a.Stage? || a.p != me
  }

  datatype DueSlot = DueSlot(site: Site, run: Time)

  /** An intent that is no longer pending, of a site never rewound, never is again. */
  ghost predicate StayCleared(s: System, t: System) {
    forall x | x in s.staged && x.key !in s.outbox && x.key.site !in t.rewound :: x.key !in t.outbox
  }

  /** Time passes, and what was staged, given up, turned into a job or deleted stays so. */
  ghost predicate Follows(s: System, t: System) {
    && StayCleared(s, t) && s.clock <= t.clock
    && s.staged <= t.staged && s.jobs <= t.jobs && s.dropped <= t.dropped && s.rewound <= t.rewound
  }

  lemma FollowsTransitively(s: System, t: System, u: System)
    requires Follows(s, t) && Follows(t, u)
    ensures Follows(s, u)
  {
  }

  lemma StepClears(s: System, a: Action, x: Intent)
    requires Inv(s) && BatchesOk(s) && Enabled(s, a) && x in s.staged && x.key !in s.outbox
    requires x.key.site !in s.rewound
    ensures x.key !in Apply(s, a).outbox
  {
    RowAfter(s, a, x.key);
    if a.Stage? && x.key == Key(a.site, a.dueRun) && Due(s, a.site, a.dueRun) {
      StageIsLater(s, a.site, a.dueRun, a.now, x);
    }
  }

  lemma StepFollows(s: System, a: Action)
    requires Inv(s) && BatchesOk(s) && Enabled(s, a)
    ensures Follows(s, Apply(s, a))
  {
    StagedGrows(s, a);
    StepKeepsRewound(s, a);
    forall x | x in s.staged && x.key !in s.outbox && x.key.site !in Apply(s, a).rewound
      ensures x.key !in Apply(s, a).outbox
    {
      StepClears(s, a, x);
    }
    if a.Put? || a.Remove? || a.Record? { PersistFollows(s, a.p, a.site, Written(s, a), a.how); }
  }

  lemma StepKeepsRewound(s: System, a: Action)
    requires BatchesOk(s) && Enabled(s, a)
    ensures s.rewound <= Apply(s, a).rewound
  {
    if a.Put? || a.Remove? || a.Record? { PersistFollows(s, a.p, a.site, Written(s, a), a.how); }
  }

  lemma PersistFollows(s: System, p: Pid, site: Site, next: Optional.Option<Schedule>, how: Swap)
    ensures Follows(s, Persisted(s, p, site, next, how))
  {
  }

  /** The database, shared by all processes. */
  class Shared {
    var s: System

    constructor (clock: Time)
      ensures Initial(s) && Inv(s) && s.clock == clock
    {
      s := System(clock, map[], map[], map[], [], map[], [], {}, {});
    }

    method Do(a: Action)
      requires Inv(s) && BatchesOk(s) && Enabled(s, a)
      modifies this
      ensures s == Apply(old(s), a) && Inv(s) && BatchesOk(s) && Follows(old(s), s)
    {
      StepKeepsInv(s, a);
      StepFollows(s, a);
      s := Apply(s, a);
      InvGivesBatches(s);
    }

    /** Any number of steps of other processes. */
    method Others(me: Pid)
      requires Inv(s) && BatchesOk(s)
      modifies this
      ensures Inv(s) && BatchesOk(s) && Follows(old(s), s) && At(s, me) == At(old(s), me)
    {
      var steps: int := *;
      while steps > 0
        invariant Inv(s) && BatchesOk(s) && Follows(old(s), s) && At(s, me) == At(old(s), me)
      {
        var a: Action := *;
        if ByOther(a, me) && Enabled(s, a) {
          ghost var before := s;
          Do(a);
          FollowsTransitively(old(s), before, s);
          OtherKeepsMine(before, a, me);
        }
        steps := steps - 1;
      }
    }
  }

  lemma OtherKeepsMine(s: System, a: Action, me: Pid)
    requires BatchesOk(s) && Enabled(s, a) && ByOther(a, me)
    ensures At(Apply(s, a), me) == At(s, me)
  {
    if a.Put? || a.Remove? || a.Record? { PersistKeepsDispatchers(s, a.p, a.site, Written(s, a), a.how); }
  }

  lemma PersistKeepsDispatchers(s: System, p: Pid, site: Site, next: Optional.Option<Schedule>, how: Swap)
    ensures Persisted(s, p, site, next, how).dispatchers == s.dispatchers
  {
  }

  /** `due` lists, once each, the sites outside `todo` whose schedule is due. */
  ghost predicate ListsDue(items: map<Site, Schedule>, now: Time, todo: set<Site>, due: seq<DueSlot>) {
    && (forall i | 0 <= i < |due| :: due[i].site in items && due[i].site !in todo
          && items[due[i].site].enabled && items[due[i].site].nextRun == due[i].run <= now)
    && (forall i, j | 0 <= i < j < |due| :: due[i].site != due[j].site)
    && (forall site | site in items && site !in todo && items[site].enabled && items[site].nextRun <= now ::
          DueSlot(site, items[site].nextRun) in due)
  }

  /** The schedules of the process's own copy that are due at `now`. */
  method CollectDue(items: map<Site, Schedule>, now: Time) returns (due: seq<DueSlot>)
    ensures ListsDue(items, now, {}, due)
  {
    due := [];
    var todo := items.Keys;
    while todo != {}
      invariant todo <= items.Keys && ListsDue(items, now, todo, due)
      decreases |todo|
    {
      var site :| site in todo;
      if items[site].enabled && items[site].nextRun <= now {
        due := due + [DueSlot(site, items[site].nextRun)];
      }
      todo := todo - {site};
    }
  }

  /** `batch` takes the oldest row of every site it takes, and nothing outside it is older. */
  ghost predicate Selected(s: System, batch: seq<Intent>) {
    && (forall i | 0 <= i < |batch| :: Oldest(s, batch[i]))
    && (forall i, j | 0 <= i < j < |batch| ::
          batch[i].key.site != batch[j].key.site && batch[i].createdAt <= batch[j].createdAt)
    && (forall i, k | 0 <= i < |batch| && k in s.outbox && !Takes(batch, k.site) ::
          batch[i].createdAt <= s.outbox[k].createdAt)
  }

  predicate FreeIn(s: System, batch: seq<Intent>, k: Key) {
    k in s.outbox && !Takes(batch, k.site)
  }

  lemma SelectNext(s: System, batch: seq<Intent>, k: Key)
    requires RowsOk(s) && Selected(s, batch) && FreeIn(s, batch, k)
    requires forall other | FreeIn(s, batch, other) :: s.outbox[k].createdAt <= s.outbox[other].createdAt
    ensures Selected(s, batch + [s.outbox[k]])
  {
    var x := s.outbox[k];
    var next := batch + [x];
    forall other | other in s.outbox ensures !Older(s.outbox[other], x) {
      if other.site == k.site {
        assert FreeIn(s, batch, other);
      }
    }
    forall i | 0 <= i < |batch| ensures batch[i].key.site != x.key.site && batch[i].createdAt <= x.createdAt {
      assert !Takes(batch, x.key.site);
    }
    forall other | other in s.outbox && !Takes(next, other.site) ensures FreeIn(s, batch, other) {
      TakesMore(batch, x, other.site);
    }
  }

  lemma TakesMore(batch: seq<Intent>, x: Intent, site: Site)
    requires !Takes(batch + [x], site)
    ensures !Takes(batch, site)
  {
    forall i | 0 <= i < |batch| ensures batch[i].key.site != site {
      assert (batch + [x])[i].key.site != site;
    }
  }

  /** The free row with the smallest staging time. */
  method Earliest(s: System, free: set<Key>) returns (k: Key)
    requires free != {} && free <= s.outbox.Keys
    ensures k in free && forall x | x in free :: s.outbox[k].createdAt <= s.outbox[x].createdAt
  {
    k :| k in free;
    var todo := free - {k};
    while todo != {}
      invariant todo <= free && k in free
      invariant forall x | x in free && x !in todo :: s.outbox[k].createdAt <= s.outbox[x].createdAt
      decreases |todo|
    {
      var x :| x in todo;
      if s.outbox[x].createdAt < s.outbox[k].createdAt {
        k := x;
      }
      todo := todo - {x};
    }
  }

  /** The dispatch query. */
  method SelectBatch(s: System) returns (batch: seq<Intent>)
    requires RowsOk(s)
    ensures IsBatch(s, batch)
  {
    batch := [];
    while |batch| < BATCH_LIMIT
      invariant |batch| <= BATCH_LIMIT && Selected(s, batch)
      decreases BATCH_LIMIT - |batch|
    {
      var free := set k | k in s.outbox && FreeIn(s, batch, k);
      if free == {} {
        assert forall k | k in s.outbox && !Takes(batch, k.site) :: k in free;
        return;
      }
      var k := Earliest(s, free);
      SelectNext(s, batch, k);
      batch := batch + [s.outbox[k]];
    }
  }

  // ---------------------------------------------------------------------------------------
  // Dispatch
  // ---------------------------------------------------------------------------------------

  /** What goes wrong with one row of a batch. */
  datatype Trouble =
    | Nothing
    | SiteBusy
    | LockError
    | RefreshError
    | LockLost
    | EnqueueError(written: bool)
    | DeleteError(written: bool)

  datatype Progress =
    | Settled        // the row was deleted
    | Left           // busy, lock lost or enqueue failed: the row stays for the next tick
    | Stopped        // an error that ends the batch

  /** The errors that are not local to one site. */
  predicate EndsBatch(trouble: Trouble) {
    trouble.LockError? || trouble.RefreshError? || trouble.DeleteError?
  }

  /** The intent has its job, or was given up because its schedule was seen off. */
  ghost predicate Delivered(s: System, x: Intent) {
    x in s.staged && (HasJob(s, x.key) || x.key in s.dropped)
  }

  lemma StillDelivered(s: System, t: System, x: Intent)
    requires Follows(s, t) && Delivered(s, x)
    ensures Delivered(t, x)
  {
    if HasJob(s, x.key) {
      var i :| 0 <= i < |s.jobs| && s.jobs[i].key == x.key;
      assert t.jobs[i].key == x.key;
    }
  }

  /** At a site that was never rewound a key was staged once, so a job with it has the intent's settings. */
  lemma CleanIsCompatible(s: System, x: Intent)
    requires Inv(s) && x in s.staged && x.key.site !in s.rewound
    ensures Compatible(s, x)
  {
    forall i | 0 <= i < |s.jobs| && s.jobs[i].key == x.key ensures s.jobs[i] == x {
      assert s.jobs[i] in s.staged;
      var a :| 0 <= a < |s.staged| && s.staged[a] == s.jobs[i];
      var b :| 0 <= b < |s.staged| && s.staged[b] == x;
    }
  }

  /** The process sees the schedule of the intent's site enabled, once it refreshes. */
  predicate SeenOn(s: System, me: Pid, x: Intent) {
    SeenBy(s, me, x.key.site).Some? && SeenBy(s, me, x.key.site).value.enabled
  }

  /** `dispatchBackupScheduleItem` on the head of the batch this process holds. */
  method DispatchItem(db: Shared, me: Pid, batch: seq<Intent>, trouble: Trouble) returns (r: Progress)
    requires Inv(db.s) && BatchesOk(db.s) && batch != [] && At(db.s, me) == Holding(batch)
    modifies db
    ensures Inv(db.s) && BatchesOk(db.s) && Follows(old(db.s), db.s)
    ensures At(db.s, me) == if r == Stopped then Idle else Proceed(batch[1..])
    ensures r == Settled ==> Delivered(db.s, batch[0]) && batch[0].key !in db.s.outbox
    ensures r == Settled ==>
        if SeenOn(old(db.s), me, batch[0]) then HasJob(db.s, batch[0].key) else batch[0].key in db.s.dropped
    ensures r == Stopped ==> EndsBatch(trouble)
    ensures trouble.LockError? || trouble.RefreshError? ==> r == Stopped
    ensures trouble.SiteBusy? ==> r == Left
    ensures trouble.Nothing? && batch[0].key.site !in db.s.rewound ==> r == Settled
  {
    ghost var start := db.s;
    if trouble.SiteBusy? {
      db.Do(Skip(me));
      return Left;
    }
    if trouble.LockError? || trouble.RefreshError? {
      db.Do(Quit(me));
      return Stopped;
    }
    LookSees(db.s, me);
    db.Do(Look(me));
    ghost var mid := db.s;
    db.Others(me);
    FollowsTransitively(start, mid, db.s);
    mid := db.s;
    if At(db.s, me).SeenEnabled? {
      if trouble.LockLost? {
        db.Do(Skip(me));
        FollowsTransitively(start, mid, db.s);
        return Left;
      }
      var enqueued := EnqueueHead(db, me, batch, trouble);
      FollowsTransitively(start, mid, db.s);
      if !enqueued {
        return Left;
      }
      mid := db.s;
    }
    r := DeleteHead(db, me, batch, trouble);
    FollowsTransitively(start, mid, db.s);
  }

  /** Enqueue the head; a job with the same key and other settings is an error that leaves the row. */
  method EnqueueHead(db: Shared, me: Pid, batch: seq<Intent>, trouble: Trouble) returns (ok: bool)
    requires Inv(db.s) && BatchesOk(db.s) && batch != [] && At(db.s, me) == SeenEnabled(batch)
    modifies db
    ensures Inv(db.s) && BatchesOk(db.s) && Follows(old(db.s), db.s)
    ensures At(db.s, me) == if ok then Enqueued(batch) else Proceed(batch[1..])
    ensures !trouble.EnqueueError? && batch[0].key.site !in db.s.rewound ==> ok
  {
    AtOk(db.s, me);
    if batch[0].key.site !in db.s.rewound { CleanIsCompatible(db.s, batch[0]); }
    if trouble.EnqueueError? || !Compatible(db.s, batch[0]) {
      var written := trouble.EnqueueError? && trouble.written && Compatible(db.s, batch[0]);
      db.Do(EnqueueFailed(me, written));
      return false;
    }
    ghost var start := db.s;
    db.Do(Enqueue(me));
    ghost var mid := db.s;
    db.Others(me);
    FollowsTransitively(start, mid, db.s);
    ok := true;
  }

  method DeleteHead(db: Shared, me: Pid, batch: seq<Intent>, trouble: Trouble) returns (r: Progress)
    requires Inv(db.s) && BatchesOk(db.s) && batch != []
    requires At(db.s, me) == Enqueued(batch) || At(db.s, me) == SeenDisabled(batch)
    modifies db
    ensures Inv(db.s) && BatchesOk(db.s) && Follows(old(db.s), db.s)
    ensures At(db.s, me) == if r == Stopped then Idle else Proceed(batch[1..])
    ensures r == Settled ==> Delivered(db.s, batch[0]) && batch[0].key !in db.s.outbox
    ensures r == Settled ==>
        if At(old(db.s), me).Enqueued? then HasJob(db.s, batch[0].key) else batch[0].key in db.s.dropped
    ensures r == if trouble.DeleteError? then Stopped else Settled
  {
    AtOk(db.s, me);
    ghost var before := db.s;
    if trouble.DeleteError? {
      db.Do(DeleteFailed(me, trouble.written));
      return Stopped;
    }
    db.Do(Delete(me));
    assert Delivered(db.s, batch[0]) by {
      if HasJob(before, batch[0].key) {
        var i :| 0 <= i < |before.jobs| && before.jobs[i].key == batch[0].key;
        assert db.s.jobs[i].key == batch[0].key;
      }
    }
    r := Settled;
  }

  /** The settled entries of the batch are delivered, and entries without trouble at sites never rewound are settled. */
  ghost predicate Dispatched(s: System, batch: seq<Intent>, settled: seq<Progress>, troubles: nat -> Trouble) {
    && |settled| <= |batch|
    && (forall i | 0 <= i < |settled| && settled[i] == Settled ::
          Delivered(s, batch[i]) && (batch[i].key.site in s.rewound || batch[i].key !in s.outbox))
    && (forall i | 0 <= i < |settled| && troubles(i).Nothing? && batch[i].key.site !in s.rewound ::
          settled[i] == Settled)
  }

  lemma DispatchedNext(s: System, t: System, batch: seq<Intent>, settled: seq<Progress>, troubles: nat -> Trouble,
                       r: Progress)
    requires Follows(s, t) && Dispatched(s, batch, settled, troubles) && |settled| < |batch|
    requires r == Settled ==> Delivered(t, batch[|settled|]) && batch[|settled|].key !in t.outbox
    requires troubles(|settled|).Nothing? && batch[|settled|].key.site !in t.rewound ==> r == Settled
    ensures Dispatched(t, batch, settled, troubles) && Dispatched(t, batch, settled + [r], troubles)
  {
    StillDispatched(s, t, batch, settled, troubles);
  }

  lemma StillDispatched(s: System, t: System, batch: seq<Intent>, settled: seq<Progress>, troubles: nat -> Trouble)
    requires Follows(s, t) && Dispatched(s, batch, settled, troubles)
    ensures Dispatched(t, batch, settled, troubles)
  {
    forall i | 0 <= i < |settled| && settled[i] == Settled ensures Delivered(t, batch[i]) {
      StillDelivered(s, t, batch[i]);
    }
  }

  /** `dispatchBackupScheduleOutbox`: one batch; a site that cannot be served is left for the next tick. */
  method DispatchOutbox(db: Shared, me: Pid, troubles: nat -> Trouble)
    returns (ok: bool, batch: seq<Intent>, settled: seq<Progress>, ghost read: System)
    requires Inv(db.s) && BatchesOk(db.s) && At(db.s, me) == Idle
    modifies db
    ensures Inv(db.s) && BatchesOk(db.s) && Follows(old(db.s), db.s) && At(db.s, me) == Idle
    ensures Follows(old(db.s), read) && Follows(read, db.s) && IsBatch(read, batch)
    ensures Dispatched(db.s, batch, settled, troubles) && OncePerSite(batch)
    ensures ok ==> |settled| == |batch|
    ensures !ok ==> |settled| < |batch| && EndsBatch(troubles(|settled|))
  {
    db.Others(me);
    read := db.s;
    batch := SelectBatch(db.s);
    db.Do(Fetch(me, batch));
    ghost var before := db.s;
    ok, settled := DispatchBatch(db, me, batch, troubles);
    FollowsTransitively(read, before, db.s);
    FollowsTransitively(old(db.s), read, db.s);
  }

  ghost predicate OncePerSite(batch: seq<Intent>) {
    forall i, j | 0 <= i < j < |batch| :: batch[i].key.site != batch[j].key.site
  }

  method DispatchBatch(db: Shared, me: Pid, batch: seq<Intent>, troubles: nat -> Trouble)
    returns (ok: bool, settled: seq<Progress>)
    requires Inv(db.s) && BatchesOk(db.s) && At(db.s, me) == Proceed(batch)
    modifies db
    ensures Inv(db.s) && BatchesOk(db.s) && Follows(old(db.s), db.s) && At(db.s, me) == Idle
    ensures Dispatched(db.s, batch, settled, troubles)
    ensures ok ==> |settled| == |batch|
    ensures !ok ==> |settled| < |batch| && EndsBatch(troubles(|settled|))
  {
    settled := [];
    var i := 0;
    while i < |batch|
      invariant 0 <= i <= |batch| && |settled| == i
      invariant Inv(db.s) && BatchesOk(db.s) && Follows(old(db.s), db.s)
      invariant At(db.s, me) == Proceed(batch[i..])
      invariant Dispatched(db.s, batch, settled, troubles)
    {
      assert batch[i..][1..] == batch[i + 1..] && batch[i..][0] == batch[i];
      ghost var before := db.s;
      var r := DispatchItem(db, me, batch[i..], troubles(i));
      FollowsTransitively(old(db.s), before, db.s);
      DispatchedNext(before, db.s, batch, settled, troubles, r);
      if r == Stopped {
        return false, settled;
      }
      settled := settled + [r];
      i := i + 1;
    }
    ok := true;
  }

  // ---------------------------------------------------------------------------------------
  // Staging
  // ---------------------------------------------------------------------------------------

  /** The slot was staged by this tick or an earlier one. */
  ghost predicate IntentStaged(s: System, k: Key) {
    exists i | 0 <= i < |s.staged| :: s.staged[i].key == k
  }

  /** One staging transaction, at state `now`: unless it fails, a slot still due there is recorded. */
  method StageOne(db: Shared, me: Pid, slot: DueSlot, tick: Time, fails: bool) returns (ghost now: System)
    requires Inv(db.s) && BatchesOk(db.s) && slot.run <= tick <= db.s.clock
    modifies db
    ensures Inv(db.s) && BatchesOk(db.s) && Follows(old(db.s), db.s) && At(db.s, me) == At(old(db.s), me)
    ensures Follows(old(db.s), now) && Follows(now, db.s)
    ensures db.s == if fails then now else Staged(now, slot.site, slot.run, tick)
    ensures !fails && Due(now, slot.site, slot.run) ==> IntentStaged(db.s, Key(slot.site, slot.run))
  {
    db.Others(me);
    now := db.s;
    if fails {
      return;
    }
    db.Do(Stage(slot.site, slot.run, tick));
    FollowsTransitively(old(db.s), now, db.s);
    if Due(now, slot.site, slot.run) {
      WasStaged(now, db.s, Key(slot.site, slot.run), slot, tick);
    }
  }

  lemma WasStaged(s: System, t: System, k: Key, slot: DueSlot, tick: Time)
    requires RowsOk(s) && k == Key(slot.site, slot.run) && Due(s, slot.site, slot.run)
    requires t == Staged(s, slot.site, slot.run, tick)
    ensures IntentStaged(t, k)
  {
    if k in s.outbox {
      var i :| 0 <= i < |s.staged| && s.staged[i] == s.outbox[k];
      assert t.staged[i].key == k;
    } else {
      assert t.staged[|s.staged|].key == k;
    }
  }

  /** Every slot was staged unless its transaction failed or found it no longer due, in a state of this tick. */
  ghost predicate AllTried(start: System, s: System, due: seq<DueSlot>, seen: seq<System>, fails: nat -> bool) {
    && |seen| <= |due|
    && forall i | 0 <= i < |seen| ::
         && Follows(start, seen[i]) && Follows(seen[i], s)
         && (!fails(i) && Due(seen[i], due[i].site, due[i].run) ==> IntentStaged(s, Key(due[i].site, due[i].run)))
  }

  lemma StillStaged(s: System, t: System, k: Key)
    requires Follows(s, t) && IntentStaged(s, k)
    ensures IntentStaged(t, k)
  {
    var i :| 0 <= i < |s.staged| && s.staged[i].key == k;
    assert t.staged[i].key == k;
  }

  lemma TriedNext(start: System, s: System, t: System, due: seq<DueSlot>, seen: seq<System>, fails: nat -> bool)
    requires AllTried(start, s, due, seen, fails) && Follows(s, t)
    ensures AllTried(start, t, due, seen, fails)
  {
    forall i | 0 <= i < |seen|
      ensures Follows(seen[i], t)
      ensures !fails(i) && Due(seen[i], due[i].site, due[i].run) ==> IntentStaged(t, Key(due[i].site, due[i].run))
    {
      FollowsTransitively(seen[i], s, t);
      if !fails(i) && Due(seen[i], due[i].site, due[i].run) { StillStaged(s, t, Key(due[i].site, due[i].run)); }
    }
  }

  lemma TriedAlso(start: System, s: System, due: seq<DueSlot>, seen: seq<System>, fails: nat -> bool, now: System)
    requires AllTried(start, s, due, seen, fails) && |seen| < |due| && Follows(start, now) && Follows(now, s)
    requires var slot := due[|seen|];
             !fails(|seen|) && Due(now, slot.site, slot.run) ==> IntentStaged(s, Key(slot.site, slot.run))
    ensures AllTried(start, s, due, seen + [now], fails)
  {
  }

  method StageAll(db: Shared, me: Pid, due: seq<DueSlot>, tick: Time, fails: nat -> bool)
    returns (ghost seen: seq<System>)
    requires Inv(db.s) && BatchesOk(db.s) && tick <= db.s.clock && forall i | 0 <= i < |due| :: due[i].run <= tick
    modifies db
    ensures Inv(db.s) && BatchesOk(db.s) && Follows(old(db.s), db.s) && At(db.s, me) == At(old(db.s), me)
    ensures |seen| == |due| && AllTried(old(db.s), db.s, due, seen, fails)
  {
    seen := [];
    var i := 0;
    while i < |due|
      invariant 0 <= i <= |due| && |seen| == i
      invariant Inv(db.s) && BatchesOk(db.s) && Follows(old(db.s), db.s) && At(db.s, me) == At(old(db.s), me)
      invariant AllTried(old(db.s), db.s, due, seen, fails)
    {
      ghost var before := db.s;
      ghost var now := StageOne(db, me, due[i], tick, fails(i));
      FollowsTransitively(old(db.s), before, db.s);
      FollowsTransitively(old(db.s), before, now);
      TriedNext(old(db.s), before, db.s, due, seen, fails);
      TriedAlso(old(db.s), db.s, due, seen, fails, now);
      seen := seen + [now];
      i := i + 1;
    }
  }

  /** One dispatch of a tick: the batch that was read in state `read`, and what became of it. */
  datatype Dispatch = Dispatch(ok: bool, batch: seq<Intent>, settled: seq<Progress>)

  ghost predicate DispatchOk(read: System, now: System, d: Dispatch, troubles: nat -> Trouble) {
    && IsBatch(read, d.batch) && Dispatched(now, d.batch, d.settled, troubles)
    && (if d.ok then |d.settled| == |d.batch| else |d.settled| < |d.batch| && EndsBatch(troubles(|d.settled|)))
  }

  /**
    `runDueBackups`: one tick, from the process's own copy of the schedules: dispatch what is
    pending, stage what is due, and dispatch again, from a state in which all of that was tried.
  */
  method RunDueBackups(db: Shared, me: Pid, troubles: nat -> Trouble, fails: nat -> bool)
    returns (due: seq<DueSlot>, first: Dispatch, second: Dispatch, ghost seen: seq<System>, ghost fetched: seq<System>)
    requires Inv(db.s) && BatchesOk(db.s) && At(db.s, me) == Idle
    modifies db
    ensures Inv(db.s) && BatchesOk(db.s) && Follows(old(db.s), db.s) && At(db.s, me) == Idle
    ensures ListsDue(CopyOf(old(db.s), me).live, old(db.s).clock, {}, due)
    ensures |seen| == |due| && AllTried(old(db.s), db.s, due, seen, fails)
    ensures |fetched| == 2 && Follows(old(db.s), fetched[0])
    ensures Follows(fetched[0], fetched[1]) && Follows(fetched[1], db.s)
    ensures DispatchOk(fetched[0], db.s, first, troubles) && DispatchOk(fetched[1], db.s, second, troubles)
    ensures AllTried(fetched[0], fetched[1], due, seen, fails)
  {
    var tick := db.s.clock;
    ghost var start := db.s;
    due := CollectDue(CopyOf(db.s, me).live, tick);
    ghost var read;
    first, read := DispatchOnce(db, me, troubles);
    fetched := [read];
    ghost var mid := db.s;
    seen := StageAll(db, me, due, tick, fails);
    FollowsTransitively(start, mid, db.s);
    FollowsTransitively(read, mid, db.s);
    TriedFrom(read, mid, db.s, due, seen, fails);
    StillDispatched(mid, db.s, first.batch, first.settled, troubles);
    mid := db.s;
    second, read := DispatchOnce(db, me, troubles);
    fetched := fetched + [read];
    FollowsTransitively(start, mid, db.s);
    FollowsTransitively(fetched[0], mid, read);
    TriedNext(fetched[0], mid, read, due, seen, fails);
    StillDispatched(mid, db.s, first.batch, first.settled, troubles);
    TriedNext(fetched[0], read, db.s, due, seen, fails);
    TriedFrom(start, fetched[0], db.s, due, seen, fails);
  }

  method DispatchOnce(db: Shared, me: Pid, troubles: nat -> Trouble) returns (d: Dispatch, ghost read: System)
    requires Inv(db.s) && BatchesOk(db.s) && At(db.s, me) == Idle
    modifies db
    ensures Inv(db.s) && BatchesOk(db.s) && Follows(old(db.s), db.s) && At(db.s, me) == Idle
    ensures Follows(old(db.s), read) && Follows(read, db.s) && DispatchOk(read, db.s, d, troubles)
  {
    var ok, batch, settled;
    ok, batch, settled, read := DispatchOutbox(db, me, troubles);
    d := Dispatch(ok, batch, settled);
  }

  lemma TriedFrom(start: System, mid: System, s: System, due: seq<DueSlot>, seen: seq<System>, fails: nat -> bool)
    requires Follows(start, mid) && AllTried(mid, s, due, seen, fails)
    ensures AllTried(start, s, due, seen, fails)
  {
    forall i | 0 <= i < |seen| ensures Follows(start, seen[i]) {
      FollowsTransitively(start, mid, seen[i]);
    }
  }
}
