/**
  Scheduled backups: schedules in one revisioned blob that every process copies, an outbox of
  staged intents, and jobs.

  Any number of processes edit schedules, record results, stage due slots and dispatch pending
  intents.  A database transaction is one step, and so is a persist of the schedules, which commits
  the three-way merge of the process's base, its live map and the current blob.  A step that fails
  may have taken effect, and a process may die between any two steps.  Nothing here depends on the
  per-site lock, which can be lost.
*/
module BackupSchedule {
  import opened Optional
  import opened Sets
  import opened StateMerge

  const MIN_INTERVAL := 5
  const MAX_INTERVAL := 10080
  const BATCH_LIMIT := 100

  type Pid = nat
  type Site = string
  type Time = int              // seconds

  /** `result` stands for the outcome fields of the last run. */
  datatype Schedule = Schedule(
    enabled: bool, interval: int, keepLast: int, includeDatabases: bool, nextRun: Time, result: string)

  type Schedules = Image<Schedule>

  /** A process's copy: the durable image it last saw, and the live map it works on. */
  datatype Copy = Copy(base: Schedules, live: Schedules)

  datatype Key = Key(site: Site, slot: Time)

  /** An outbox row; the job it becomes carries the same key and settings. */
  datatype Intent = Intent(key: Key, createdAt: Time, keepLast: int, includeDatabases: bool)

  /** A dispatcher, with the rows of its batch it has not finished. */
  datatype Dispatcher =
    | Idle
    | Holding(batch: seq<Intent>)
    | SeenEnabled(batch: seq<Intent>)
    | SeenDisabled(batch: seq<Intent>)
    | Enqueued(batch: seq<Intent>)

  /**
    `staged` and `dropped` remember every intent recorded and every one given up; `rewound` the
    sites whose schedule was once set back to a due time not after an intent staged before.
  */
  datatype System = System(
    clock: Time,
    schedules: Schedules,
    copies: map<Pid, Copy>,
    outbox: map<Key, Intent>,
    jobs: seq<Intent>,
    dispatchers: map<Pid, Dispatcher>,
    staged: seq<Intent>,
    dropped: set<Key>,
    rewound: set<Site>)

  function At(s: System, p: Pid): Dispatcher {
    if p in s.dispatchers then s.dispatchers[p] else Idle
  }

  function CopyOf(s: System, p: Pid): Copy {
    if p in s.copies then s.copies[p] else Copy(map[], map[])
  }

  predicate HasJob(s: System, k: Key) {
    exists i | 0 <= i < |s.jobs| :: s.jobs[i].key == k
  }

  predicate Older(x: Intent, y: Intent) {
    x.key.site == y.key.site && x.createdAt < y.createdAt
  }

  predicate Oldest(s: System, x: Intent) {
    x.key in s.outbox && s.outbox[x.key] == x
    && forall k | k in s.outbox :: !Older(s.outbox[k], x)
  }

  predicate Takes(batch: seq<Intent>, site: Site) {
    exists i | 0 <= i < |batch| :: batch[i].key.site == site
  }

  /** The first BATCH_LIMIT of the sites' oldest pending rows, oldest first. */
  predicate IsBatch(s: System, batch: seq<Intent>) {
    && |batch| <= BATCH_LIMIT
    && (forall i | 0 <= i < |batch| :: Oldest(s, batch[i]))
    && (forall i, j | 0 <= i < j < |batch| ::
          batch[i].key.site != batch[j].key.site && batch[i].createdAt <= batch[j].createdAt)
    && (forall k | k in s.outbox && !Takes(batch, k.site) ::
          |batch| == BATCH_LIMIT
          && (Oldest(s, s.outbox[k]) ==> batch[BATCH_LIMIT - 1].createdAt <= s.outbox[k].createdAt))
  }

  /** How a persist of the schedules goes. */
  datatype Swap =
    | Acknowledged
    | Unacknowledged   // committed, but the process keeps its copy
    | Busy             // peers keep winning: the process refreshes and gives up

  datatype Action =
    | Elapse(seconds: nat)
    | Refresh(p: Pid)
    | Put(p: Pid, site: Site, interval: int, keepLast: int, includeDatabases: bool, start: Time, how: Swap)
    | Remove(p: Pid, site: Site, how: Swap)
    | Record(p: Pid, site: Site, result: string, how: Swap)
    | Stage(site: Site, dueRun: Time, now: Time)        // `now` is the start of the scheduler's tick
    | Purge(site: Site)                                  // the site is being terminated
    | Fetch(p: Pid, batch: seq<Intent>)
    | Skip(p: Pid)                                       // site busy, or its lock was lost
    | Quit(p: Pid)                                       // the lock or the refresh failed: the batch ends
    | Look(p: Pid)                                       // refresh the copy and look the schedule up
    | Enqueue(p: Pid)
    | EnqueueFailed(p: Pid, written: bool)
    | Delete(p: Pid)
    | DeleteFailed(p: Pid, written: bool)
    | Crash(p: Pid)

  /** A job with the intent's key, if there is one, has the intent's settings. */
  predicate Compatible(s: System, x: Intent) {
    forall i | 0 <= i < |s.jobs| && s.jobs[i].key == x.key ::
      s.jobs[i].keepLast == x.keepLast && s.jobs[i].includeDatabases == x.includeDatabases
  }

  predicate BatchesOk(s: System) {
    forall p | p in s.dispatchers :: !s.dispatchers[p].Idle? ==> s.dispatchers[p].batch != []
  }

  predicate Enabled(s: System, a: Action)
    requires BatchesOk(s)
  {
    match a
    case Elapse(_) => true
    case Refresh(_) => true
    case Put(_, _, interval, _, _, start, _) => MIN_INTERVAL <= interval <= MAX_INTERVAL && start <= s.clock
    case Remove(_, _, _) => true
    case Record(p, site, _, _) => site in CopyOf(s, p).live
    case Stage(_, dueRun, now) => dueRun <= now <= s.clock
    case Purge(_) => true
    case Fetch(p, batch) => At(s, p).Idle? && IsBatch(s, batch)
    case Skip(p) => At(s, p).Holding? || At(s, p).SeenEnabled?
    case Quit(p) => At(s, p).Holding?
    case Look(p) => At(s, p).Holding?
    case Enqueue(p) => At(s, p).SeenEnabled? && Compatible(s, At(s, p).batch[0])
    case EnqueueFailed(p, written) => At(s, p).SeenEnabled? && (written ==> Compatible(s, At(s, p).batch[0]))
    case Delete(p) => At(s, p).Enqueued? || At(s, p).SeenDisabled?
    case DeleteFailed(p, _) => At(s, p).Enqueued? || At(s, p).SeenDisabled?
    case Crash(_) => true
  }

  function Become(s: System, p: Pid, d: Dispatcher): System {
    s.(dispatchers := s.dispatchers[p := d])
  }

  function Proceed(batch: seq<Intent>): Dispatcher {
    if batch == [] then Idle else Holding(batch)
  }

  // ---------------------------------------------------------------------------------------
  // Schedules
  // ---------------------------------------------------------------------------------------

  function Keep(s: System, p: Pid, c: Copy): System {
    s.(copies := s.copies[p := c])
  }

  /** Decoding into an existing map keeps the keys the payload does not have. */
  function Refreshed(s: System, p: Pid, live: Schedules): System {
    Keep(s, p, Copy(s.schedules, live + s.schedules))
  }

  /** An intent of the site was staged at or after this due time. */
  predicate Behind(staged: seq<Intent>, site: Site, nextRun: Time) {
    exists i | 0 <= i < |staged| :: staged[i].key.site == site && nextRun <= staged[i].createdAt
  }

  function BehindSites(staged: seq<Intent>, m: Schedules): set<Site> {
    set site | site in m && Behind(staged, site, m[site].nextRun)
  }

  function Intended(live: Schedules, site: Site, next: Option<Schedule>): Schedules {
    if next.Some? then live[site := next.value] else live - {site}
  }

  /** `persistMapKeyChange` over `persistBoundControlPlaneState`. */
  function Persisted(s: System, p: Pid, site: Site, next: Option<Schedule>, how: Swap): System {
    var c := CopyOf(s, p);
    var intended := Intended(c.live, site, next);
    match Merge(c.base, intended, s.schedules)
    case None => Refreshed(s, p, intended)
    case Some(m) =>
      if how == Busy then Refreshed(s, p, intended)
      else
        var t := s.(schedules := m, rewound := s.rewound + BehindSites(s.staged, m));
        if how == Acknowledged then Keep(t, p, Copy(m, intended + m)) else t
  }

  // ---------------------------------------------------------------------------------------
  // Staging and dispatch
  // ---------------------------------------------------------------------------------------

  predicate Due(s: System, site: Site, dueRun: Time) {
    site in s.schedules && s.schedules[site].enabled && s.schedules[site].nextRun == dueRun
  }

  function IntentOf(site: Site, due: Schedule, now: Time): Intent {
    Intent(Key(site, due.nextRun), now, due.keepLast, due.includeDatabases)
  }

  /** `stageScheduledBackup`: advance the schedule and insert the intent, unless its key is still there. */
  function Staged(s: System, site: Site, dueRun: Time, now: Time): System {
    if Due(s, site, dueRun) then
      var due := s.schedules[site];
      var x := IntentOf(site, due, now);
      var t := s.(schedules := s.schedules[site := due.(nextRun := now + 60 * due.interval)]);
      if x.key in s.outbox then t else t.(outbox := s.outbox[x.key := x], staged := s.staged + [x])
    else
      s
  }

  /** `EnqueueIdempotent`, by the unique job key. */
  function WithJob(s: System, x: Intent): System {
    if HasJob(s, x.key) then s else s.(jobs := s.jobs + [x])
  }

  function Deleted(s: System, p: Pid): System
    requires !At(s, p).Idle? && At(s, p).batch != []
  {
    var k := At(s, p).batch[0].key;
    s.(outbox := s.outbox - {k}, dropped := if At(s, p).SeenDisabled? then s.dropped + {k} else s.dropped)
  }

  /** `removeSiteBackupSchedule`, after the schedule is gone: the site's pending rows go. */
  function Purged(s: System, site: Site): System {
    var gone := set k | k in s.outbox && k.site == site;
    s.(outbox := s.outbox - gone, dropped := s.dropped + gone)
  }

  function Looked(s: System, p: Pid): System
    requires !At(s, p).Idle? && At(s, p).batch != []
  {
    var batch := At(s, p).batch;
    var live := CopyOf(s, p).live + s.schedules;
    var site := batch[0].key.site;
    Become(Refreshed(s, p, CopyOf(s, p).live), p,
           if site in live && live[site].enabled then SeenEnabled(batch) else SeenDisabled(batch))
  }

  /** The schedule an operator's edit writes; the edit read the clock at `start`. */
  function NewSchedule(a: Action): Schedule
    requires a.Put?
  {
    Schedule(true, a.interval, a.keepLast, a.includeDatabases, a.start + 60 * a.interval, "")
  }

  function Apply(s: System, a: Action): System
    requires BatchesOk(s) && Enabled(s, a)
  {
    match a
    case Elapse(seconds) => s.(clock := s.clock + seconds)
    case Refresh(p) => Refreshed(s, p, CopyOf(s, p).live)
    case Put(p, site, _, _, _, _, how) => Persisted(s, p, site, Some(NewSchedule(a)), how)
    case Remove(p, site, how) => Persisted(s, p, site, None, how)
    case Record(p, site, result, how) =>
      Persisted(s, p, site, Some(CopyOf(s, p).live[site].(result := result)), how)
    case Stage(site, dueRun, now) => Staged(s, site, dueRun, now)
    case Purge(site) => Purged(s, site)
    case Fetch(p, batch) => Become(s, p, Proceed(batch))
    case Skip(p) => Become(s, p, Proceed(At(s, p).batch[1..]))
    case Quit(p) => Become(s, p, Idle)
    case Look(p) => Looked(s, p)
    case Enqueue(p) => Become(WithJob(s, At(s, p).batch[0]), p, Enqueued(At(s, p).batch))
    case EnqueueFailed(p, written) =>
      var batch := At(s, p).batch;
      Become(if written then WithJob(s, batch[0]) else s, p, Proceed(batch[1..]))
    case Delete(p) => Become(Deleted(s, p), p, Proceed(At(s, p).batch[1..]))
    case DeleteFailed(p, written) => Become(if written then Deleted(s, p) else s, p, Idle)
    case Crash(p) => s.(dispatchers := s.dispatchers - {p}, copies := s.copies - {p})
  }

  // ---------------------------------------------------------------------------------------
  // The invariant
  // ---------------------------------------------------------------------------------------

  predicate IntervalsOk(m: Schedules) {
    forall site | site in m :: m[site].interval >= MIN_INTERVAL
  }

  predicate CopiesOk(s: System) {
    IntervalsOk(s.schedules)
    && forall p | p in s.copies :: IntervalsOk(s.copies[p].base) && IntervalsOk(s.copies[p].live)
  }

  /** Slots and staging times of every site outside `except` increase together. */
  predicate Increasing(xs: seq<Intent>, except: set<Site>) {
    forall i, j | 0 <= i < j < |xs| && xs[i].key.site == xs[j].key.site && xs[i].key.site !in except ::
      xs[i].key.slot < xs[j].key.slot && xs[i].createdAt < xs[j].createdAt
  }

  /** Every schedule outside `rewound` is due after everything staged for its site. */
  predicate Ahead(s: System) {
    forall site | site in s.schedules && site !in s.rewound :: !Behind(s.staged, site, s.schedules[site].nextRun)
  }

  predicate StagedOk(s: System) {
    && Increasing(s.staged, s.rewound) && Ahead(s)
    && (forall x | x in s.staged :: x.key.slot <= x.createdAt <= s.clock)
  }

  /** Every staged intent is pending, has its job, or was given up: its schedule was off, or its site terminated. */
  predicate RowsOk(s: System) {
    && (forall k | k in s.outbox :: s.outbox[k].key == k && s.outbox[k] in s.staged)
    && (forall j | j in s.jobs :: j in s.staged)
    && (forall x | x in s.staged :: x.key in s.outbox || HasJob(s, x.key) || x.key in s.dropped)
    && (forall i, j | 0 <= i < j < |s.jobs| :: s.jobs[i].key != s.jobs[j].key)
  }

  /** No older intent of the site is still pending, unless the schedule was rewound. */
  predicate Cleared(s: System, x: Intent) {
    x.key.site in s.rewound || forall k | k in s.outbox :: !Older(s.outbox[k], x)
  }

  predicate DispatcherOk(s: System, d: Dispatcher) {
    d.Idle? ||
    (&& d.batch != []
     && (forall x | x in d.batch :: x in s.staged && Cleared(s, x))
     && (d.Enqueued? ==> HasJob(s, d.batch[0].key)))
  }

  predicate JobsOk(s: System) {
    forall j | j in s.jobs :: Cleared(s, j)
  }

  predicate DispatchersOk(s: System) {
    forall p | p in s.dispatchers :: DispatcherOk(s, s.dispatchers[p])
  }

  predicate Inv(s: System) {
    CopiesOk(s) && StagedOk(s) && RowsOk(s) && JobsOk(s) && DispatchersOk(s)
  }
}
