/** What holds of scheduled backups in every run, and exactly when the rest of it does. */
module BackupResults {
  import opened Optional
  import opened Sets
  import StateMerge
  import opened BackupSchedule
  import opened BackupInvariant

  // ---------------------------------------------------------------------------------------
  // Schedules that are set back
  // ---------------------------------------------------------------------------------------

  predicate AheadAt(s: System, site: Site) {
    site in s.schedules ==> !Behind(s.staged, site, s.schedules[site].nextRun)
  }

  /** The live map a persist step hands over. */
  function Handed(s: System, a: Action): Schedules
    requires BatchesOk(s) && Enabled(s, a) && (a.Put? || a.Remove? || a.Record?)
  {
    Intended(CopyOf(s, a.p).live, a.site, Written(s, a))
  }

  /** What a persist step makes of its site in the process's live map. */
  function Written(s: System, a: Action): Option<Schedule>
    requires BatchesOk(s) && Enabled(s, a) && (a.Put? || a.Remove? || a.Record?)
  {
    if a.Remove? then None
    else if a.Put? then Some(NewSchedule(a))
    else Some(CopyOf(s, a.p).live[a.site].(result := a.result))
  }

  /**
    The process writes a schedule that it changed, or that its live map still holds although its
    base does not, and that is due no later than an intent already staged for the site.
  */
  predicate SetsBack(s: System, a: Action, site: Site)
    requires BatchesOk(s) && Enabled(s, a)
  {
    && (a.Put? || a.Remove? || a.Record?) && a.how != Busy
    && var base, handed := CopyOf(s, a.p).base, Handed(s, a);
       && StateMerge.Merge(base, handed, s.schedules).Some?
       && site in handed && StateMerge.At(handed, site) != StateMerge.At(base, site)
       && Behind(s.staged, site, handed[site].nextRun)
  }

  lemma MergedSchedule(base: Schedules, handed: Schedules, current: Schedules, m: Schedules, site: Site)
    requires StateMerge.Merge(base, handed, current) == Some(m)
    ensures StateMerge.At(m, site) ==
            if StateMerge.At(handed, site) != StateMerge.At(base, site) then StateMerge.At(handed, site)
            else StateMerge.At(current, site)
  {
    StateMerge.MergedAt(base, handed, current, site);
  }

  /** At a site not rewound so far, a commit is behind exactly when it sets the site back. */
  lemma CommitSetsBack(s: System, a: Action, m: Schedules, site: Site)
    requires Inv(s) && BatchesOk(s) && Enabled(s, a) && (a.Put? || a.Remove? || a.Record?) && a.how != Busy
    requires StateMerge.Merge(CopyOf(s, a.p).base, Handed(s, a), s.schedules) == Some(m) && site !in s.rewound
    ensures site in BehindSites(s.staged, m) <==> SetsBack(s, a, site)
  {
    MergedSchedule(CopyOf(s, a.p).base, Handed(s, a), s.schedules, m, site);
    assert site in s.schedules ==> !Behind(s.staged, site, s.schedules[site].nextRun);
  }

  lemma PersistIs(s: System, a: Action)
    requires BatchesOk(s) && Enabled(s, a) && (a.Put? || a.Remove? || a.Record?)
    ensures var t := Apply(s, a);
            match StateMerge.Merge(CopyOf(s, a.p).base, Handed(s, a), s.schedules)
            case None => t.schedules == s.schedules && t.rewound == s.rewound
            case Some(m) =>
              if a.how == Busy then t.schedules == s.schedules && t.rewound == s.rewound
              else t.schedules == m && t.rewound == s.rewound + BehindSites(s.staged, m)
    ensures var t := Apply(s, a); t.staged == s.staged && t.jobs == s.jobs && t.outbox == s.outbox
  {
    PersistedIs(s, a.p, a.site, Written(s, a), a.how);
    assert Apply(s, a) == Persisted(s, a.p, a.site, Written(s, a), a.how);
  }

  lemma PersistedIs(s: System, p: Pid, site: Site, next: Option<Schedule>, how: Swap)
    ensures var t := Persisted(s, p, site, next, how);
            match StateMerge.Merge(CopyOf(s, p).base, Intended(CopyOf(s, p).live, site, next), s.schedules)
            case None => t.schedules == s.schedules && t.rewound == s.rewound
            case Some(m) =>
              if how == Busy then t.schedules == s.schedules && t.rewound == s.rewound
              else t.schedules == m && t.rewound == s.rewound + BehindSites(s.staged, m)
    ensures var t := Persisted(s, p, site, next, how); t.staged == s.staged && t.jobs == s.jobs && t.outbox == s.outbox
  {
  }

  /** A site comes to be rewound exactly by a step that sets its schedule back. */
  lemma RewoundExactlyWhenSetBack(s: System, a: Action, site: Site)
    requires Inv(s) && BatchesOk(s) && Enabled(s, a) && site !in s.rewound
    ensures site in Apply(s, a).rewound <==> SetsBack(s, a, site)
  {
    if a.Put? || a.Remove? || a.Record? {
      PersistIs(s, a);
      var merged := StateMerge.Merge(CopyOf(s, a.p).base, Handed(s, a), s.schedules);
      if merged.Some? && a.how != Busy { CommitSetsBack(s, a, merged.value, site); }
    }
  }

  /** And exactly that step makes a schedule due at or before something already staged. */
  lemma StepKeepsAheadExactly(s: System, a: Action, site: Site)
    requires Inv(s) && BatchesOk(s) && Enabled(s, a) && site !in s.rewound
    ensures AheadAt(Apply(s, a), site) <==> !SetsBack(s, a, site)
  {
    StepKeepsInv(s, a);
    RewoundExactlyWhenSetBack(s, a, site);
    if SetsBack(s, a, site) {
      PersistIs(s, a);
      MergedSchedule(CopyOf(s, a.p).base, Handed(s, a), s.schedules, Apply(s, a).schedules, site);
    }
  }

  /** The schedule of `k` in the map a persist step hands over. */
  function HandedAt(s: System, a: Action, k: Site): Option<Schedule>
    requires BatchesOk(s) && Enabled(s, a) && (a.Put? || a.Remove? || a.Record?)
  {
    if k != a.site then StateMerge.At(CopyOf(s, a.p).live, k)
    else match a
      case Put(_, _, interval, keepLast, databases, start, _) =>
        Some(Schedule(true, interval, keepLast, databases, start + 60 * interval, ""))
      case Record(_, _, result, _) => Some(CopyOf(s, a.p).live[k].(result := result))
      case _ => None
  }

  /** The process and a peer both changed the schedule of `k`, differently. */
  predicate Conflict(s: System, a: Action, k: Site)
    requires BatchesOk(s) && Enabled(s, a) && (a.Put? || a.Remove? || a.Record?)
  {
    var base, now := StateMerge.At(CopyOf(s, a.p).base, k), StateMerge.At(s.schedules, k);
    HandedAt(s, a, k) != base && now != base && HandedAt(s, a, k) != now
  }

  lemma HandedIs(s: System, a: Action, k: Site)
    requires BatchesOk(s) && Enabled(s, a) && (a.Put? || a.Remove? || a.Record?)
    ensures StateMerge.At(Handed(s, a), k) == HandedAt(s, a, k)
  {
  }

  ghost predicate Commits(s: System, a: Action)
    requires BatchesOk(s) && Enabled(s, a) && (a.Put? || a.Remove? || a.Record?)
  {
    a.how != Busy && !(exists k :: Conflict(s, a, k))
  }

  lemma CommitsExactly(s: System, a: Action)
    requires BatchesOk(s) && Enabled(s, a) && (a.Put? || a.Remove? || a.Record?)
    ensures Commits(s, a) <==>
            a.how != Busy && StateMerge.Merge(CopyOf(s, a.p).base, Handed(s, a), s.schedules).Some?
  {
    var base, handed := CopyOf(s, a.p).base, Handed(s, a);
    StateMerge.MergeFailsOnClash(base, handed, s.schedules);
    forall k ensures StateMerge.Clash(base, handed, s.schedules, k) <==> Conflict(s, a, k) {
      HandedIs(s, a, k);
    }
  }

  /** The copy of the process after a persist: the image it ended with, under its own schedules. */
  lemma CopyAfter(s: System, p: Pid, site: Site, next: Option<Schedule>, how: Swap)
    ensures var t, handed := Persisted(s, p, site, next, how), Intended(CopyOf(s, p).live, site, next);
            var merged := StateMerge.Merge(CopyOf(s, p).base, handed, s.schedules);
            if how == Unacknowledged && merged.Some? then t.copies == s.copies
            else CopyOf(t, p) == Copy(t.schedules, handed + t.schedules)
  {
  }

  /**
    An edit or result is committed exactly when no schedule is in conflict and the swap gets
    through.  Then every schedule the process changed is as it hands it over and every other one as
    it was; otherwise nothing changes but the process's copy.
  */
  lemma PersistExactly(s: System, a: Action, k: Site)
    requires BatchesOk(s) && Enabled(s, a) && (a.Put? || a.Remove? || a.Record?)
    ensures a.Put? ==> 5 <= a.interval <= 10_080
    ensures var t, base := Apply(s, a), CopyOf(s, a.p).base;
            if Commits(s, a) then
              StateMerge.At(t.schedules, k) ==
                if HandedAt(s, a, k) != StateMerge.At(base, k) then HandedAt(s, a, k) else StateMerge.At(s.schedules, k)
            else t.schedules == s.schedules
  {
    CommitsExactly(s, a);
    HandedIs(s, a, k);
    PersistIs(s, a);
    if Commits(s, a) {
      MergedSchedule(CopyOf(s, a.p).base, Handed(s, a), s.schedules, Apply(s, a).schedules, k);
    }
  }

  /** The process's live map is then the image it ended with, over what it handed over. */
  lemma CopyExactly(s: System, a: Action, k: Site)
    requires BatchesOk(s) && Enabled(s, a) && (a.Put? || a.Remove? || a.Record?)
    ensures var t := Apply(s, a);
            if a.how == Unacknowledged && Commits(s, a) then t.copies == s.copies
            else
              && CopyOf(t, a.p).base == t.schedules
              && StateMerge.At(CopyOf(t, a.p).live, k) ==
                 if k in t.schedules then Some(t.schedules[k]) else HandedAt(s, a, k)
  {
    CommitsExactly(s, a);
    HandedIs(s, a, k);
    CopyAfter(s, a.p, a.site, Written(s, a), a.how);
    assert Apply(s, a) == Persisted(s, a.p, a.site, Written(s, a), a.how);
  }

  // ---------------------------------------------------------------------------------------
  // Staging
  // ---------------------------------------------------------------------------------------

  /** At a site that was never rewound, each slot is staged at most once and slots are staged in increasing order. */
  lemma SlotsStagedOnceInOrder(s: System, actions: seq<Action>, t: System, i: nat, j: nat)
    requires Initial(s) && Steps(s, actions, t) && i < j < |t.staged| && t.staged[i].key.site !in t.rewound
    ensures t.staged[i].key != t.staged[j].key
    ensures t.staged[i].key.site == t.staged[j].key.site ==> t.staged[i].key.slot < t.staged[j].key.slot
  {
    RunKeepsInv(s, actions, t);
  }

  /** Every site's slots were staged in increasing order, so none twice. */
  predicate SlotsIncrease(xs: seq<Intent>) {
    forall i, j | 0 <= i < j < |xs| && xs[i].key.site == xs[j].key.site :: xs[i].key.slot < xs[j].key.slot
  }

  predicate StagedFrom(xs: seq<Intent>, k: Key) {
    exists i | 0 <= i < |xs| :: xs[i].key.site == k.site && xs[i].key.slot >= k.slot
  }

  /** A slot of a rewound site is staged although it, or a later one, was staged before. */
  predicate Restages(s: System, a: Action) {
    && a.Stage? && Due(s, a.site, a.dueRun) && Key(a.site, a.dueRun) !in s.outbox
    && a.site in s.rewound && StagedFrom(s.staged, Key(a.site, a.dueRun))
  }

  lemma AppendSlot(xs: seq<Intent>, x: Intent)
    requires SlotsIncrease(xs)
    ensures SlotsIncrease(xs + [x]) <==> !StagedFrom(xs, x.key)
  {
    var ys := xs + [x];
    if StagedFrom(xs, x.key) {
      var i :| 0 <= i < |xs| && xs[i].key.site == x.key.site && xs[i].key.slot >= x.key.slot;
      assert ys[i].key.slot >= ys[|xs|].key.slot;
    } else {
      forall i, j | 0 <= i < j < |ys| && ys[i].key.site == ys[j].key.site ensures ys[i].key.slot < ys[j].key.slot {
        if j == |xs| { assert xs[i].key.slot < x.key.slot; }
      }
    }
  }

  lemma CleanSlotIsLast(s: System, site: Site, dueRun: Time, now: Time)
    requires StagedOk(s) && Due(s, site, dueRun) && dueRun <= now && site !in s.rewound
    ensures !StagedFrom(s.staged, Key(site, dueRun))
  {
    forall i | 0 <= i < |s.staged| && s.staged[i].key.site == site ensures s.staged[i].key.slot < dueRun {
      assert s.staged[i] in s.staged;
      StageIsLater(s, site, dueRun, now, s.staged[i]);
    }
  }

  /** A step keeps the slots increasing exactly when it does not restage. */
  lemma StepKeepsSlots(s: System, a: Action)
    requires Inv(s) && BatchesOk(s) && Enabled(s, a) && SlotsIncrease(s.staged)
    ensures SlotsIncrease(Apply(s, a).staged) <==> !Restages(s, a)
  {
    if a.Stage? {
      if Due(s, a.site, a.dueRun) && Key(a.site, a.dueRun) !in s.outbox {
        AppendSlot(s.staged, IntentOf(a.site, s.schedules[a.site], a.now));
        if a.site !in s.rewound { CleanSlotIsLast(s, a.site, a.dueRun, a.now); }
      }
    } else if a.Put? || a.Remove? || a.Record? {
      PersistIs(s, a);
    }
  }

  ghost predicate NeverRestages(s: System, actions: seq<Action>, t: System)
    requires Steps(s, actions, t)
    decreases |actions|
  {
    actions == [] || (!Restages(s, actions[0]) && NeverRestages(Apply(s, actions[0]), actions[1..], t))
  }

  lemma StagedGrows(s: System, a: Action)
    requires BatchesOk(s) && Enabled(s, a)
    ensures s.staged <= Apply(s, a).staged && s.jobs <= Apply(s, a).jobs
  {
    if a.Put? || a.Remove? || a.Record? { PersistIs(s, a); }
  }

  lemma {:induction false} HistoryGrows(s: System, actions: seq<Action>, t: System)
    requires Steps(s, actions, t)
    ensures s.staged <= t.staged && s.jobs <= t.jobs
    decreases |actions|
  {
    if actions != [] {
      StagedGrows(s, actions[0]);
      HistoryGrows(Apply(s, actions[0]), actions[1..], t);
    }
  }

  lemma SlotDisorderStays(xs: seq<Intent>, ys: seq<Intent>)
    requires xs <= ys && !SlotsIncrease(xs)
    ensures !SlotsIncrease(ys)
  {
    var i, j :| 0 <= i < j < |xs| && xs[i].key.site == xs[j].key.site && xs[i].key.slot >= xs[j].key.slot;
    assert ys[i] == xs[i] && ys[j] == xs[j];
  }

  /** Over a whole run, every site's slots are staged once and in order exactly when no step restages. */
  lemma {:induction false} SlotsIncreaseExactly(s: System, actions: seq<Action>, t: System)
    requires Inv(s) && Steps(s, actions, t) && SlotsIncrease(s.staged)
    ensures SlotsIncrease(t.staged) <==> NeverRestages(s, actions, t)
    decreases |actions|
  {
    if actions != [] {
      var next := Apply(s, actions[0]);
      StepKeepsInv(s, actions[0]);
      StepKeepsSlots(s, actions[0]);
      assert Inv(next);
      if SlotsIncrease(next.staged) {
        SlotsIncreaseExactly(next, actions[1..], t);
      } else {
        HistoryGrows(next, actions[1..], t);
        SlotDisorderStays(next.staged, t.staged);
      }
    }
  }

  /**
    A staging transaction advances the schedule and records the slot's intent together, or does
    neither, exactly when the slot's own row is not still pending; at a site that was never
    rewound it never is.
  */
  lemma AdvanceAndRecordTogether(s: System, actions: seq<Action>, t: System, site: Site, dueRun: Time, now: Time)
    requires Initial(s) && Steps(s, actions, t) && dueRun <= now <= t.clock
    ensures var u := Staged(t, site, dueRun, now);
            && ((u.schedules == t.schedules <==> u.outbox == t.outbox) <==>
                  !(Due(t, site, dueRun) && Key(site, dueRun) in t.outbox))
            && (Due(t, site, dueRun) && site !in t.rewound ==> Key(site, dueRun) !in t.outbox)
            && (Due(t, site, dueRun) && Key(site, dueRun) !in t.outbox ==>
                  && u.schedules[site] == t.schedules[site].(nextRun := now + 60 * t.schedules[site].interval)
                  && u.outbox[Key(site, dueRun)].keepLast == t.schedules[site].keepLast
                  && u.outbox[Key(site, dueRun)].includeDatabases == t.schedules[site].includeDatabases)
  {
    RunKeepsInv(s, actions, t);
    if Due(t, site, dueRun) {
      assert t.schedules[site].interval >= MIN_INTERVAL;
      assert Staged(t, site, dueRun, now).schedules[site].nextRun > t.schedules[site].nextRun;
      if site !in t.rewound { SlotIsNew(t, site, dueRun, now); }
    }
  }

  // ---------------------------------------------------------------------------------------
  // What a step does to a row, to the jobs and to a dispatcher
  // ---------------------------------------------------------------------------------------

  ghost predicate SameRow(s: System, t: System, k: Key) {
    (k in t.outbox <==> k in s.outbox) && (k in s.outbox ==> t.outbox[k] == s.outbox[k])
  }

  /** A row comes with its staging, and goes with its site, or when its dispatcher deletes it. */
  lemma RowAfter(s: System, a: Action, k: Key)
    requires BatchesOk(s) && Enabled(s, a)
    ensures var t := Apply(s, a);
            match a
            case Stage(site, dueRun, now) =>
              if k == Key(site, dueRun) && Due(s, site, dueRun) && k !in s.outbox
              then k in t.outbox && t.outbox[k].key == k && t.outbox[k].createdAt == now else SameRow(s, t, k)
            case Purge(site) => if k.site == site then k !in t.outbox else SameRow(s, t, k)
            case Delete(p) => if k == At(s, p).batch[0].key then k !in t.outbox else SameRow(s, t, k)
            case DeleteFailed(p, written) =>
              if written && k == At(s, p).batch[0].key then k !in t.outbox else SameRow(s, t, k)
            case _ => SameRow(s, t, k)
  {
    if a.Put? || a.Remove? || a.Record? {
      PersistIs(s, a);
    }
  }

  /**
    A staging transaction does something exactly for an enabled schedule still due at the time it
    was collected for: it moves the due time on and records the slot with the schedule's settings,
    unless the slot is still pending.
  */
  lemma StagesExactly(s: System, site: Site, dueRun: Time, now: Time)
    requires BatchesOk(s) && dueRun <= now <= s.clock
    ensures var t := Apply(s, Stage(site, dueRun, now));
            if site in s.schedules && s.schedules[site].enabled && s.schedules[site].nextRun == dueRun then
              var due := s.schedules[site]; var x := Intent(Key(site, dueRun), now, due.keepLast, due.includeDatabases);
              && t.schedules == s.schedules[site := due.(nextRun := now + 60 * due.interval)]
              && (if x.key in s.outbox then t.outbox == s.outbox && t.staged == s.staged
                  else t.outbox == s.outbox[x.key := x] && t.staged == s.staged + [x])
            else t == s
  {
  }

  /** An intent whose key has a job is enqueued exactly when that job has its settings. */
  lemma EnqueuesExactly(s: System, p: Pid)
    requires BatchesOk(s) && At(s, p).SeenEnabled?
    ensures var x := At(s, p).batch[0];
            Enabled(s, Enqueue(p)) <==>
            forall j | j in s.jobs && j.key == x.key ::
              j.keepLast == x.keepLast && j.includeDatabases == x.includeDatabases
  {
  }

  /** A job comes only from an enqueue, which adds the head of the batch unless its key has one. */
  lemma JobsAfter(s: System, a: Action)
    requires BatchesOk(s) && Enabled(s, a)
    ensures var t := Apply(s, a);
            t.jobs == if (a.Enqueue? || (a.EnqueueFailed? && a.written)) && !HasJob(s, At(s, a.p).batch[0].key)
                      then s.jobs + [At(s, a.p).batch[0]] else s.jobs
  {
    if a.Put? || a.Remove? || a.Record? {
      PersistIs(s, a);
    }
  }

  /** The schedule of `site` as a process that refreshes its copy now sees it. */
  function SeenBy(s: System, p: Pid, site: Site): Option<Schedule> {
    if site in s.schedules then Some(s.schedules[site]) else StateMerge.At(CopyOf(s, p).live, site)
  }

  /** A refresh adopts the blob, and keeps only the schedules that the blob does not have. */
  lemma RefreshSees(s: System, p: Pid, site: Site)
    requires BatchesOk(s)
    ensures var t := Apply(s, Refresh(p));
            CopyOf(t, p).base == s.schedules && StateMerge.At(CopyOf(t, p).live, site) == SeenBy(s, p, site)
  {
  }

  /** A dispatcher goes on to enqueue exactly when it sees the schedule of its row enabled. */
  lemma LookSees(s: System, p: Pid)
    requires BatchesOk(s) && Enabled(s, Look(p))
    ensures var batch := At(s, p).batch; var seen := SeenBy(s, p, batch[0].key.site);
            At(Apply(s, Look(p)), p) ==
            if seen.Some? && seen.value.enabled then SeenEnabled(batch) else SeenDisabled(batch)
  {
  }

  // ---------------------------------------------------------------------------------------
  // Jobs
  // ---------------------------------------------------------------------------------------

  /**
    In every run: one job per key, jobs only for staged intents, and every staged intent is
    pending, has its job or was given up.
  */
  lemma OneJobPerIntent(s: System, actions: seq<Action>, t: System)
    requires Initial(s) && Steps(s, actions, t)
    ensures forall i, j | 0 <= i < j < |t.jobs| :: t.jobs[i].key != t.jobs[j].key
    ensures forall j | j in t.jobs :: j in t.staged
    ensures forall x | x in t.staged :: x.key in t.outbox || HasJob(t, x.key) || x.key in t.dropped
  {
    RunKeepsInv(s, actions, t);
  }

  /**
    A row disappears only once its job exists, by a dispatcher that saw the schedule missing or
    disabled, or with its site.
  */
  lemma RowOutlivesJobless(s: System, a: Action, k: Key)
    requires Inv(s) && BatchesOk(s) && Enabled(s, a) && k in s.outbox && k !in Apply(s, a).outbox
    ensures HasJob(s, k) || a == Purge(k.site) || ((a.Delete? || a.DeleteFailed?) && At(s, a.p).SeenDisabled?)
  {
    RowAfter(s, a, k);
    if a.Delete? || a.DeleteFailed? {
      AtOk(s, a.p);
    }
  }

  /**
    A stuck site takes one place of the batch at most, and with no more than BATCH_LIMIT sites
    pending each has one.
  */
  lemma StuckSiteTakesOnePlace(s: System, batch: seq<Intent>, sites: set<Site>)
    requires RowsOk(s) && IsBatch(s, batch) && sites == (set k | k in s.outbox :: k.site)
    ensures forall i, j | 0 <= i < j < |batch| :: batch[i].key.site != batch[j].key.site
    ensures |batch| <= 100 && (|sites| <= 100 ==> forall site | site in sites :: Takes(batch, site))
  {
    var taken := set i | 0 <= i < |batch| :: batch[i].key.site;
    CountTaken(batch, |batch|);
    forall site | site in taken ensures site in sites {
      var i :| 0 <= i < |batch| && batch[i].key.site == site;
      assert Oldest(s, batch[i]);
    }
    if |sites| <= BATCH_LIMIT && |batch| == BATCH_LIMIT {
      assert (set i | 0 <= i < |batch| :: batch[i].key.site) == taken;
      SubsetOfSize(taken, sites);
    }
  }

  lemma {:induction false} CountTaken(batch: seq<Intent>, n: nat)
    requires n <= |batch|
    requires forall i, j | 0 <= i < j < |batch| :: batch[i].key.site != batch[j].key.site
    ensures |(set i | 0 <= i < n :: batch[i].key.site)| == n
  {
    if n > 0 {
      CountTaken(batch, n - 1);
      var rest := set i | 0 <= i < n - 1 :: batch[i].key.site;
      assert batch[n - 1].key.site !in rest;
      assert (set i | 0 <= i < n :: batch[i].key.site) == rest + {batch[n - 1].key.site};
    }
  }

  // ---------------------------------------------------------------------------------------
  // The order in which jobs are created
  // ---------------------------------------------------------------------------------------

  /** Jobs of one site were created in the order of their slots. */
  predicate InOrder(jobs: seq<Intent>) {
    forall i, j | 0 <= i < j < |jobs| && jobs[i].key.site == jobs[j].key.site :: jobs[i].key.slot < jobs[j].key.slot
  }

  predicate LaterJob(s: System, k: Key) {
    exists i | 0 <= i < |s.jobs| :: s.jobs[i].key.site == k.site && s.jobs[i].key.slot > k.slot
  }

  /**
    The first enqueue of an intent that another dispatcher gave up meanwhile, or of a rewound
    site's, after a later slot of the site already got its job.
  */
  predicate Overtaken(s: System, a: Action)
    requires BatchesOk(s) && Enabled(s, a)
  {
    && (a.Enqueue? || (a.EnqueueFailed? && a.written))
    && var k := At(s, a.p).batch[0].key;
       (k in s.dropped || k.site in s.rewound) && !HasJob(s, k) && LaterJob(s, k)
  }

  lemma PendingIsNext(s: System, x: Intent)
    requires Inv(s) && x in s.staged && x.key in s.outbox && x.key.site !in s.rewound
    ensures !LaterJob(s, x.key)
  {
    forall i | 0 <= i < |s.jobs| && s.jobs[i].key.site == x.key.site ensures s.jobs[i].key.slot <= x.key.slot {
      NotLater(s, s.outbox[x.key], s.jobs[i]);
    }
  }

  lemma NotLater(s: System, x: Intent, z: Intent)
    requires Inv(s) && x.key in s.outbox && s.outbox[x.key] == x && z in s.jobs && z.key.site == x.key.site
    requires x.key.site !in s.rewound
    ensures z.key.slot <= x.key.slot
  {
    assert Cleared(s, z);
    if x.key.slot < z.key.slot {
      SlotOrderIsStagingOrder(s, x, z);
    }
  }

  lemma SlotOrderIsStagingOrder(s: System, x: Intent, z: Intent)
    requires StagedOk(s) && x in s.staged && z in s.staged && x.key.site == z.key.site && x.key.slot < z.key.slot
    requires x.key.site !in s.rewound
    ensures Older(x, z)
  {
    var i :| 0 <= i < |s.staged| && s.staged[i] == x;
    var j :| 0 <= j < |s.staged| && s.staged[j] == z;
  }

  lemma EnqueueOrder(s: System, x: Intent)
    requires Inv(s) && x in s.staged && InOrder(s.jobs)
    ensures InOrder(WithJob(s, x).jobs) <==>
            !((x.key in s.dropped || x.key.site in s.rewound) && !HasJob(s, x.key) && LaterJob(s, x.key))
  {
    if !HasJob(s, x.key) {
      AppendOrder(s, x);
      if x.key in s.outbox && x.key.site !in s.rewound { PendingIsNext(s, x); }
    }
  }

  lemma AppendOrder(s: System, x: Intent)
    requires InOrder(s.jobs) && !HasJob(s, x.key)
    ensures InOrder(s.jobs + [x]) <==> !LaterJob(s, x.key)
  {
    var js := s.jobs + [x];
    if LaterJob(s, x.key) {
      var i :| 0 <= i < |s.jobs| && s.jobs[i].key.site == x.key.site && s.jobs[i].key.slot > x.key.slot;
      assert js[i].key.slot > js[|s.jobs|].key.slot;
    } else {
      forall i, j | 0 <= i < j < |js| && js[i].key.site == js[j].key.site ensures js[i].key.slot < js[j].key.slot {
        if j == |s.jobs| {
          assert s.jobs[i].key != x.key;
        }
      }
    }
  }

  /** A step keeps the jobs in order exactly when it enqueues no overtaken intent. */
  lemma StepKeepsOrder(s: System, a: Action)
    requires Inv(s) && BatchesOk(s) && Enabled(s, a) && InOrder(s.jobs)
    ensures InOrder(Apply(s, a).jobs) <==> !Overtaken(s, a)
  {
    if a.Enqueue? || (a.EnqueueFailed? && a.written) {
      AtOk(s, a.p);
      EnqueueOrder(s, At(s, a.p).batch[0]);
    } else if a.Put? || a.Remove? || a.Record? {
      PersistIs(s, a);
    }
  }

  ghost predicate NeverOvertaken(s: System, actions: seq<Action>, t: System)
    requires Steps(s, actions, t)
    decreases |actions|
  {
    actions == [] || (!Overtaken(s, actions[0]) && NeverOvertaken(Apply(s, actions[0]), actions[1..], t))
  }

  lemma DisorderStays(a: seq<Intent>, b: seq<Intent>)
    requires a <= b && !InOrder(a)
    ensures !InOrder(b)
  {
    var i, j :| 0 <= i < j < |a| && a[i].key.site == a[j].key.site && a[i].key.slot >= a[j].key.slot;
    assert b[i] == a[i] && b[j] == a[j];
  }

  /** Over a whole run, every site's jobs are created in slot order exactly when no enqueue was overtaken. */
  lemma {:induction false} JobsInIntentOrder(s: System, actions: seq<Action>, t: System)
    requires Inv(s) && Steps(s, actions, t) && InOrder(s.jobs)
    ensures InOrder(t.jobs) <==> NeverOvertaken(s, actions, t)
    decreases |actions|
  {
    if actions != [] {
      var next := Apply(s, actions[0]);
      StepKeepsInv(s, actions[0]);
      StepKeepsOrder(s, actions[0]);
      assert Inv(next);
      if InOrder(next.jobs) {
        JobsInIntentOrder(next, actions[1..], t);
      } else {
        HistoryGrows(next, actions[1..], t);
        DisorderStays(next.jobs, t.jobs);
      }
    }
  }
}
