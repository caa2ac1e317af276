/** Runs in which slots are staged twice, a schedule advances without an intent, and jobs are created out of order. */
module BackupWitness {
  import opened Optional
  import StateMerge
  import opened BackupSchedule
  import opened BackupInvariant
  import opened BackupResults

  const SITE := "shop"

  const Start := System(0, map[], map[], map[], [], map[], [], {}, {})

  function Slot(nextRun: Time, result: string): Schedule {
    Schedule(true, 5, 7, false, nextRun, result)
  }

  function Plan(nextRun: Time): Schedules {
    map[SITE := Slot(nextRun, "")]
  }

  function IntentAt(time: Time): Intent {
    Intent(Key(SITE, time), time, 7, false)
  }

  ghost predicate Reachable(s: System) {
    exists actions :: Steps(Start, actions, s)
  }

  lemma {:induction false} AddStep(s: System, actions: seq<Action>, t: System, a: Action)
    requires Steps(s, actions, t) && BatchesOk(t) && Enabled(t, a)
    ensures Steps(s, actions + [a], Apply(t, a))
    decreases |actions|
  {
    if actions == [] {
      assert (actions + [a])[1..] == [];
    } else {
      AddStep(Apply(s, actions[0]), actions[1..], t, a);
      assert (actions + [a])[1..] == actions[1..] + [a];
    }
  }

  lemma StartIsReachable()
    ensures Reachable(Start) && Initial(Start)
  {
    assert Steps(Start, [], Start);
  }

  lemma ReachableIsSound(s: System)
    requires Reachable(s)
    ensures BatchesOk(s)
  {
    var actions :| Steps(Start, actions, s);
    RunKeepsInv(Start, actions, s);
    InvGivesBatches(s);
  }

  lemma Go(s: System, a: Action) returns (t: System)
    requires Reachable(s) && BatchesOk(s) && Enabled(s, a)
    ensures t == Apply(s, a) && Reachable(t) && BatchesOk(t)
  {
    var actions :| Steps(Start, actions, s);
    AddStep(Start, actions, s, a);
    t := Apply(s, a);
    ReachableIsSound(t);
  }

  /** What the examples need to know of a state. */
  ghost predicate Looks(s: System, clock: Time, schedules: Schedules, outbox: map<Key, Intent>, jobs: seq<Intent>,
                        staged: seq<Intent>) {
    && Reachable(s) && BatchesOk(s) && s.clock == clock
    && s.schedules == schedules && s.outbox == outbox && s.jobs == jobs && s.staged == staged
  }

  // ---------------------------------------------------------------------------------------
  // Persists
  // ---------------------------------------------------------------------------------------

  /** A process whose base is the current image commits its live map. */
  lemma PersistsFreely(s: System, a: Action) returns (t: System)
    requires Reachable(s) && BatchesOk(s) && (a.Put? || a.Remove? || a.Record?) && Enabled(s, a)
    requires a.how == Acknowledged
    requires CopyOf(s, a.p).base == s.schedules
    ensures Reachable(t) && BatchesOk(t) && t.schedules == Handed(s, a)
    ensures t == s.(schedules := t.schedules, copies := t.copies, rewound := t.rewound)
    ensures t.copies == s.copies[a.p := Copy(t.schedules, t.schedules)]
  {
    StateMerge.MergeUnits(s.schedules, Handed(s, a));
    t := Go(s, a);
    assert t == Persisted(s, a.p, a.site, Written(s, a), a.how);
    assert Handed(s, a) + Handed(s, a) == Handed(s, a);
  }

  /** A result for a schedule that was deleted meanwhile: the conflict refreshes the copy, which keeps the key. */
  lemma RecordConflicts(s: System, p: Pid, plan: Schedule, result: string) returns (t: System)
    requires Reachable(s) && BatchesOk(s) && s.schedules == map[] && result != plan.result
    requires CopyOf(s, p) == Copy(map[SITE := plan], map[SITE := plan])
    ensures Reachable(t) && BatchesOk(t)
    ensures t == s.(copies := s.copies[p := Copy(map[], map[SITE := plan.(result := result)])])
  {
    var a := Record(p, SITE, result, Acknowledged);
    var handed := map[SITE := plan.(result := result)];
    assert Handed(s, a) == handed;
    StateMerge.ClashFails(map[SITE := plan], handed, s.schedules, SITE);
    t := Go(s, a);
    assert t == Persisted(s, p, SITE, Written(s, a), Acknowledged);
    assert handed + s.schedules == handed;
  }

  /** The change is tried again, and the deleted schedule is back, due at its old time. */
  lemma WriteBack(s: System, p: Pid, plan: Schedule) returns (t: System)
    requires Reachable(s) && BatchesOk(s) && s.schedules == map[] && plan.result == ""
    requires CopyOf(s, p) == Copy(map[SITE := plan], map[SITE := plan])
    ensures Reachable(t) && BatchesOk(t) && t == s.(schedules := t.schedules, copies := t.copies, rewound := t.rewound)
    ensures t.schedules == map[SITE := plan.(result := "again")]
  {
    var mid := RecordConflicts(s, p, plan, "done");
    t := PersistsFreely(mid, Record(p, SITE, "again", Acknowledged));
    assert t.schedules == map[SITE := plan.(result := "again")];
  }

  // ---------------------------------------------------------------------------------------
  // A slot staged twice, and a schedule that advances alone
  // ---------------------------------------------------------------------------------------

  /** The panel plans a site, the worker binds, and the first slot is staged. */
  lemma FirstSlot() returns (t: System)
    ensures Looks(t, 300, Plan(600), map[IntentAt(300).key := IntentAt(300)], [], [IntentAt(300)])
    ensures CopyOf(t, 2) == Copy(Plan(300), Plan(300)) && CopyOf(t, 1).live == Plan(300) && t.dispatchers == map[]
  {
    StartIsReachable();
    t := PersistsFreely(Start, Put(1, SITE, 5, 7, false, 0, Acknowledged));
    assert t.schedules == Plan(300);
    t := Go(t, Refresh(2));
    assert map[] + Plan(300) == Plan(300);
    t := IntervalPasses(t, 0, []);
  }

  /** The interval passes and the slot is staged. */
  lemma IntervalPasses(s: System, clock: Time, staged: seq<Intent>) returns (t: System)
    requires Looks(s, clock, Plan(clock + 300), map[], [], staged)
    ensures Looks(t, clock + 300, Plan(clock + 600), map[IntentAt(clock + 300).key := IntentAt(clock + 300)], [],
                  staged + [IntentAt(clock + 300)])
    ensures t.dispatchers == s.dispatchers && t.copies == s.copies
  {
    t := Go(s, Elapse(300));
    t := Go(t, Stage(SITE, clock + 300, clock + 300));
    assert t.schedules == Plan(clock + 600);
  }

  /** The panel deletes the schedule, and the worker, which has not seen that, records a result. */
  lemma DeletedThenRecorded(s: System) returns (t: System)
    requires Reachable(s) && BatchesOk(s) && s.schedules == Plan(600) && CopyOf(s, 1).live.Keys == {SITE}
    requires CopyOf(s, 2) == Copy(Plan(300), Plan(300))
    ensures Reachable(t) && BatchesOk(t) && t == s.(schedules := t.schedules, copies := t.copies, rewound := t.rewound)
    ensures t.schedules == map[SITE := Slot(300, "again")]
  {
    var a := Go(s, Refresh(1));
    assert CopyOf(a, 1).live.Keys == {SITE};
    var b := PersistsFreely(a, Remove(1, SITE, Acknowledged));
    assert b.schedules == map[];
    t := WriteBack(b, 2, Slot(300, ""));
  }

  lemma FetchOnly(s: System, p: Pid, x: Intent) returns (t: System)
    requires Reachable(s) && BatchesOk(s) && s.outbox == map[x.key := x] && At(s, p) == Idle
    ensures Reachable(t) && BatchesOk(t) && t == Become(s, p, Holding([x]))
  {
    assert Oldest(s, x);
    assert [x][0].key.site == x.key.site;
    t := Go(s, Fetch(p, [x]));
  }

  /** Dispatcher 1 delivers the only pending row. */
  lemma Deliver(s: System, x: Intent) returns (t: System)
    requires Reachable(s) && BatchesOk(s) && s.outbox == map[x.key := x] && s.jobs == [] && s.dispatchers == map[]
    requires x.key.site == SITE && s.schedules == Plan(600) && CopyOf(s, 1).live.Keys == {SITE}
    ensures Reachable(t) && BatchesOk(t) && t.outbox == map[] && t.jobs == [x] && t.staged == s.staged
    ensures t.clock == s.clock
    ensures t.schedules == s.schedules && CopyOf(t, 1).live.Keys == {SITE} && CopyOf(t, 2) == CopyOf(s, 2)
  {
    t := FetchOnly(s, 1, x);
    t := Go(t, Look(1));
    assert CopyOf(t, 1).live.Keys == {SITE};
    t := Settle(t, x);
  }

  lemma Settle(s: System, x: Intent) returns (t: System)
    requires Reachable(s) && BatchesOk(s) && s.outbox == map[x.key := x] && s.jobs == [] && At(s, 1) == SeenEnabled([x])
    ensures Reachable(t) && BatchesOk(t) && t.outbox == map[] && t.jobs == [x]
    ensures t == s.(outbox := t.outbox, jobs := t.jobs, dispatchers := t.dispatchers)
  {
    t := Go(s, Enqueue(1));
    t := Go(t, Delete(1));
  }

  /**
    The first slot is staged and its job created.  The panel deletes the schedule, the worker's
    result brings it back with its old due time, and the slot is staged a second time.
  */
  lemma SlotStagedTwice() returns (t: System)
    ensures Initial(Start) && Reachable(t) && !SlotsIncrease(t.staged)
    ensures |t.staged| == 2 && t.staged[0].key == t.staged[1].key && SITE in t.schedules && |t.jobs| == 1
  {
    StartIsReachable();
    t := FirstSlot();
    t := Deliver(t, IntentAt(300));
    t := DeletedThenRecorded(t);
    t := Go(t, Stage(SITE, 300, 300));
    assert t.staged[0] == IntentAt(300) && t.staged[1] == IntentAt(300);
  }

  /** The same with the first row still pending: the schedule advances and no intent is recorded. */
  lemma AdvancedAlone() returns (s: System, t: System)
    ensures Reachable(s) && BatchesOk(s) && Enabled(s, Stage(SITE, 300, 300)) && t == Apply(s, Stage(SITE, 300, 300))
    ensures t.schedules != s.schedules && t.outbox == s.outbox && t.staged == s.staged
  {
    s := FirstSlot();
    s := DeletedThenRecorded(s);
    t := Go(s, Stage(SITE, 300, 300));
    assert t.schedules[SITE].nextRun == 600 && s.schedules[SITE].nextRun == 300;
  }

  // ---------------------------------------------------------------------------------------
  // Jobs out of order
  // ---------------------------------------------------------------------------------------

  /** The panel plans the site, its interval passes and its slot is staged. */
  lemma StageSlot(s: System, clock: Time, staged: seq<Intent>) returns (t: System)
    requires Looks(s, clock, map[], map[], [], staged) && CopyOf(s, 3).live == map[] && CopyOf(s, 3).base == map[]
    ensures Looks(t, clock + 300, Plan(clock + 600), map[IntentAt(clock + 300).key := IntentAt(clock + 300)], [],
                  staged + [IntentAt(clock + 300)])
    ensures t.dispatchers == s.dispatchers && CopyOf(t, 3).base == CopyOf(t, 3).live == Plan(clock + 300)
    ensures forall p | p != 3 :: CopyOf(t, p) == CopyOf(s, p)
  {
    t := PersistsFreely(s, Put(3, SITE, 5, 7, false, clock, Acknowledged));
    assert t.schedules == Plan(clock + 300);
    t := IntervalPasses(t, clock, staged);
  }

  /** The schedule is deleted and dispatcher 2 gives up the row that dispatcher 1 holds. */
  lemma GiveUp(s: System) returns (t: System)
    requires Looks(s, 300, Plan(600), map[IntentAt(300).key := IntentAt(300)], [], [IntentAt(300)])
    requires s.dispatchers == map[1 := Holding([IntentAt(300)])] && CopyOf(s, 3).live.Keys == {SITE}
    requires CopyOf(s, 1) == CopyOf(s, 2) == Copy(map[], map[])
    ensures Looks(t, 300, map[], map[], [], [IntentAt(300)])
    ensures t.dispatchers == map[1 := Holding([IntentAt(300)]), 2 := Idle]
    ensures CopyOf(t, 1) == Copy(map[], map[]) && CopyOf(t, 3) == Copy(map[], map[])
  {
    var gone := Unplan(s);
    t := FetchAndDiscard(gone, IntentAt(300));
  }

  lemma FetchAndDiscard(s: System, x: Intent) returns (t: System)
    requires Reachable(s) && BatchesOk(s) && s.schedules == map[] && s.outbox == map[x.key := x]
    requires At(s, 2) == Idle && CopyOf(s, 2) == Copy(map[], map[])
    ensures Reachable(t) && BatchesOk(t) && t.schedules == map[] && t.outbox == map[]
    ensures t.clock == s.clock && t.jobs == s.jobs && t.staged == s.staged && t.dispatchers == s.dispatchers[2 := Idle]
    ensures forall p | p != 2 :: CopyOf(t, p) == CopyOf(s, p)
  {
    var held := FetchOnly(s, 2, x);
    t := Discard(held, x);
    assert s.dispatchers[2 := Holding([x])][2 := Idle] == s.dispatchers[2 := Idle];
  }

  lemma Unplan(s: System) returns (t: System)
    requires Reachable(s) && BatchesOk(s) && CopyOf(s, 3).live.Keys == s.schedules.Keys == {SITE}
    ensures Reachable(t) && BatchesOk(t) && t.schedules == map[] && CopyOf(t, 3) == Copy(map[], map[])
    ensures t == s.(schedules := map[], copies := t.copies, rewound := t.rewound)
    ensures CopyOf(t, 1) == CopyOf(s, 1) && CopyOf(t, 2) == CopyOf(s, 2)
  {
    t := Go(s, Refresh(3));
    assert CopyOf(t, 3).live.Keys == {SITE};
    t := PersistsFreely(t, Remove(3, SITE, Acknowledged));
    assert t.schedules == map[];
  }

  lemma Discard(s: System, x: Intent) returns (t: System)
    requires Reachable(s) && BatchesOk(s) && s.schedules == map[] && s.outbox == map[x.key := x]
    requires At(s, 2) == Holding([x])
    requires CopyOf(s, 2) == Copy(map[], map[])
    ensures Reachable(t) && BatchesOk(t) && t.schedules == map[] && t.outbox == map[]
    ensures t.clock == s.clock && t.jobs == s.jobs && t.staged == s.staged && t.dispatchers == s.dispatchers[2 := Idle]
    ensures forall p | p != 2 :: CopyOf(t, p) == CopyOf(s, p)
  {
    t := Go(s, Look(2));
    t := Go(t, Delete(2));
  }

  /** A dispatcher that holds an intent without a job sees the schedule enabled and enqueues it. */
  lemma Hand(s: System, p: Pid, x: Intent) returns (t: System)
    requires Reachable(s) && BatchesOk(s) && At(s, p) == Holding([x]) && !HasJob(s, x.key)
    requires x.key.site in s.schedules && s.schedules[x.key.site].enabled
    ensures Reachable(t) && BatchesOk(t) && t.jobs == s.jobs + [x] && t.schedules == s.schedules
    ensures forall q | q != p :: At(t, q) == At(s, q)
  {
    t := Go(s, Look(p));
    t := Go(t, Enqueue(p));
  }

  /** The first slot is staged, and dispatcher 2 gives its intent up while dispatcher 1 holds it. */
  lemma FirstIsGivenUp() returns (t: System)
    ensures Looks(t, 300, map[], map[], [], [IntentAt(300)])
    ensures t.dispatchers == map[1 := Holding([IntentAt(300)]), 2 := Idle]
    ensures CopyOf(t, 1) == Copy(map[], map[]) && CopyOf(t, 3) == Copy(map[], map[])
  {
    StartIsReachable();
    t := StageSlot(Start, 0, []);
    assert CopyOf(t, 1) == CopyOf(Start, 1) && CopyOf(t, 2) == CopyOf(Start, 2);
    t := FetchOnly(t, 1, IntentAt(300));
    t := GiveUp(t);
  }

  /** It gets its job after the second slot's. */
  lemma OvertakingHappens() returns (t: System)
    ensures Initial(Start) && Reachable(t) && !InOrder(t.jobs)
  {
    t := FirstIsGivenUp();
    t := StageSlot(t, 300, [IntentAt(300)]);
    t := FetchOnly(t, 2, IntentAt(600));
    t := Hand(t, 2, IntentAt(600));
    t := Hand(t, 1, IntentAt(300));
    assert t.jobs[0] == IntentAt(600) && t.jobs[1] == IntentAt(300);
  }
}
