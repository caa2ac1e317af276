/**
  What an application activation leaves on the host: the running unit, the manifest file, the
  rollback file and the activation journals, and what the journals promise about them.
*/
module Activation {
  import opened Optional
  import opened Names

  type Site = string
  type Id = nat
  type Bytes = string

  /** The settings the root helper turns into a service unit. */
  datatype Unit = Unit(version: string, root: string, port: int)

  datatype Manifest = Manifest(site: Site, domain: string, settings: Unit, state: string)

  /** The JSON codec and the settings check, as functions. */
  datatype Config = Config(
    parse: Bytes -> Option<Manifest>,
    render: Manifest -> Bytes,
    settingsOk: (string, Unit, Site) -> bool)

  ghost predicate CodecOk(cfg: Config) {
    && cfg.parse("") == None
    && forall m :: cfg.parse(cfg.render(m)) == Some(m)
  }

  predicate ValidManifest(cfg: Config, m: Manifest, s: Site) {
    m.site == s && SafeUser(s) != "" && cfg.settingsOk(m.domain, m.settings, s)
  }

  datatype Runtime = Runtime(installed: Option<Unit>, active: bool)
  datatype Generation = Generation(manifest: Option<Bytes>, backup: Option<Bytes>, runtime: Runtime)

  const Nothing := Generation(None, None, Runtime(None, false))

  datatype Phase = Prepared | RuntimeApplying | RuntimeApplied | Committed

  datatype Journal = Journal(
    site: Site,
    previous: Bytes,
    restore: Option<Manifest>,
    previousBackup: Option<Bytes>,
    target: Bytes,
    targetBackup: Option<Bytes>,
    phase: Phase)

  datatype Disk = Disk(sites: map<Site, Generation>, journals: map<Id, Journal>)

  function At(d: Disk, s: Site): Generation {
    if s in d.sites then d.sites[s] else Nothing
  }

  /** The runtime a manifest describes. */
  function RuntimeOf(m: Manifest): Runtime {
    Runtime(Some(m.settings), m.state != "stopped")
  }

  /** Two generations agree; the unit left behind by a stopped service without a manifest is ignored. */
  predicate Same(g: Generation, h: Generation) {
    && g.manifest == h.manifest && g.backup == h.backup
    && g.runtime.active == h.runtime.active
    && (g.manifest.Some? ==> g.runtime.installed == h.runtime.installed)
  }

  /** The runtime is the one the manifest describes, or nothing runs when there is no manifest. */
  predicate Settled(cfg: Config, s: Site, g: Generation) {
    match g.manifest
    case None => !g.runtime.active
    case Some(b) => match cfg.parse(b)
      case Some(m) => ValidManifest(cfg, m, s) ==> g.runtime == RuntimeOf(m)
      case None => true
  }

  predicate HadPrevious(j: Journal) {
    |j.previous| > 0
  }

  /** The checks of startup recovery on one journal. */
  predicate Acceptable(cfg: Config, j: Journal) {
    && SafeUser(j.site) != ""
    && (if HadPrevious(j) then
          j.restore.Some? && cfg.parse(j.previous) == j.restore && ValidManifest(cfg, j.restore.value, j.site)
        else
          j.restore.None?)
    && (j.phase == Committed ==> TargetOk(cfg, j))
  }

  predicate TargetOk(cfg: Config, j: Journal) {
    |j.target| > 0 && cfg.parse(j.target).Some? && ValidManifest(cfg, cfg.parse(j.target).value, j.site)
  }

  /** The file is there and is a valid manifest of the site. */
  predicate Usable(cfg: Config, s: Site, file: Option<Bytes>) {
    file.Some? && cfg.parse(file.value).Some? && ValidManifest(cfg, cfg.parse(file.value).value, s)
  }

  /**
    Recovery does not accept a journal exactly for an unusable site name, for a previous generation
    that is not recorded as the usable manifest it is, and, once committed, for an unusable target.
  */
  lemma RejectedExactly(cfg: Config, j: Journal)
    requires CodecOk(cfg)
    ensures !Acceptable(cfg, j) <==>
            || SafeUser(j.site) == ""
            || (if j.previous == "" then j.restore.Some?
                else !Usable(cfg, j.site, Some(j.previous)) || j.restore != cfg.parse(j.previous))
            || (j.phase == Committed && !Usable(cfg, j.site, Some(j.target)))
  {
  }

  function PreviousOf(j: Journal): Generation {
    Generation(
      if HadPrevious(j) then Some(j.previous) else None,
      j.previousBackup,
      if HadPrevious(j) && j.restore.Some? then RuntimeOf(j.restore.value) else Runtime(None, false))
  }

  function TargetOf(cfg: Config, j: Journal): Generation
    requires cfg.parse(j.target).Some?
  {
    Generation(Some(j.target), j.targetBackup, RuntimeOf(cfg.parse(j.target).value))
  }

  /** The generation recovery installs for an accepted journal. */
  function Outcome(cfg: Config, j: Journal): Generation
    requires Acceptable(cfg, j)
  {
    if j.phase == Committed then TargetOf(cfg, j) else PreviousOf(j)
  }

  ghost predicate AllAcceptable(cfg: Config, d: Disk) {
    forall id | id in d.journals :: Acceptable(cfg, d.journals[id])
  }

  ghost predicate Journaled(d: Disk, s: Site) {
    exists id | id in d.journals :: d.journals[id].site == s
  }

  /**
    `g` is what site `s` is committed to: every journal of `s` leads to it, and without a journal
    it is already there.
  */
  ghost predicate Promises(cfg: Config, d: Disk, s: Site, g: Generation)
    requires AllAcceptable(cfg, d)
  {
    && (forall id | id in d.journals && d.journals[id].site == s :: Same(Outcome(cfg, d.journals[id]), g))
    && (!Journaled(d, s) ==> Same(At(d, s), g))
  }

  /** Every site is still promised what it was promised before. */
  ghost predicate KeepsPromises(cfg: Config, d: Disk, e: Disk)
    requires AllAcceptable(cfg, d) && AllAcceptable(cfg, e)
  {
    forall s, g | Promises(cfg, d, s, g) :: Promises(cfg, e, s, g)
  }

  lemma KeepsTransitively(cfg: Config, d: Disk, e: Disk, f: Disk)
    requires AllAcceptable(cfg, d) && AllAcceptable(cfg, e) && AllAcceptable(cfg, f)
    requires KeepsPromises(cfg, d, e) && KeepsPromises(cfg, e, f)
    ensures KeepsPromises(cfg, d, f)
  {
  }

  /** Only site `s` and journal `id` differ. */
  ghost predicate OnlyTouches(d: Disk, e: Disk, s: Site, id: Id) {
    && (forall t | t != s :: At(e, t) == At(d, t))
    && (forall i | i != id :: (i in d.journals <==> i in e.journals))
    && (forall i | i != id && i in d.journals && i in e.journals :: d.journals[i] == e.journals[i])
  }

  function Place(d: Disk, s: Site, g: Generation): Disk {
    d.(sites := d.sites[s := g])
  }

  /**
    Changing one site's generation while a journal of that site is on disk, or removing the
    journal once its outcome is in place, breaks no promise made to any site.
  */
  lemma StutterKeepsPromises(cfg: Config, d: Disk, e: Disk, s: Site, id: Id, t: Site, g: Generation)
    requires AllAcceptable(cfg, d) && AllAcceptable(cfg, e)
    requires OnlyTouches(d, e, s, id)
    requires id in d.journals && d.journals[id].site == s
    requires if id in e.journals then e.journals[id] == d.journals[id] else Same(At(e, s), Outcome(cfg, d.journals[id]))
    requires Promises(cfg, d, t, g)
    ensures Promises(cfg, e, t, g)
  {
    if !Journaled(e, t) {
      if t == s {
        assert d.journals[id].site == t;
      } else {
        assert !Journaled(d, t);
      }
    }
  }

  /** The journal `j` records an operation from generation `p` to generation `t`. */
  ghost predicate Records(cfg: Config, j: Journal, p: Generation, t: Generation) {
    && Acceptable(cfg, j.(phase := Committed))
    && Same(p, PreviousOf(j)) && Same(t, TargetOf(cfg, j))
  }

  /** `d` is a disk on which no operation on site `s` is pending and `id` is a fresh journal name. */
  ghost predicate Idle(cfg: Config, d: Disk, s: Site, id: Id) {
    AllAcceptable(cfg, d) && !Journaled(d, s) && id !in d.journals
  }

  /** While the operation's journal is on disk, its phase alone decides what is promised. */
  lemma PhaseDecides(cfg: Config, d0: Disk, d: Disk, s: Site, id: Id, p: Generation, t: Generation)
    requires Idle(cfg, d0, s, id) && OnlyTouches(d0, d, s, id)
    requires id in d.journals && d.journals[id].site == s && Records(cfg, d.journals[id], p, t)
    ensures AllAcceptable(cfg, d)
    ensures Promises(cfg, d, s, if d.journals[id].phase == Committed then t else p)
  {
    assert forall i | i in d.journals && i != id :: i in d0.journals;
  }

  /** Without its journal, the site is promised what it has. */
  lemma PlaceDecides(cfg: Config, d0: Disk, d: Disk, s: Site, id: Id, g: Generation)
    requires Idle(cfg, d0, s, id) && OnlyTouches(d0, d, s, id)
    requires id !in d.journals && Same(At(d, s), g)
    ensures AllAcceptable(cfg, d) && !Journaled(d, s) && Promises(cfg, d, s, g)
  {
    assert forall i | i in d.journals :: i in d0.journals;
  }

  /** Nothing an operation on `s` does, finished or not, changes what another site is promised. */
  lemma OtherSitesKept(cfg: Config, d0: Disk, d: Disk, s: Site, id: Id, t: Site, g: Generation)
    requires Idle(cfg, d0, s, id) && OnlyTouches(d0, d, s, id) && AllAcceptable(cfg, d)
    requires id in d.journals ==> d.journals[id].site == s
    requires t != s && Promises(cfg, d0, t, g)
    ensures Promises(cfg, d, t, g)
  {
    assert !Journaled(d, t) ==> !Journaled(d0, t);
  }

  /** With no journal left, what was promised is what is there. */
  lemma PromiseDelivered(cfg: Config, d: Disk, s: Site, g: Generation)
    requires AllAcceptable(cfg, d) && d.journals == map[] && Promises(cfg, d, s, g)
    ensures Same(At(d, s), g)
  {
  }

  /** What recovery installs is settled, so it can serve as the previous generation of a later operation. */
  lemma OutcomeIsSettled(cfg: Config, j: Journal, g: Generation)
    requires CodecOk(cfg) && Acceptable(cfg, j) && Same(g, Outcome(cfg, j))
    ensures Settled(cfg, j.site, g)
  {
  }

  // ---------------------------------------------------------------------------------------
  // Operations
  // ---------------------------------------------------------------------------------------

  datatype Action = Start | Stop | Restart

  datatype Operation = Deploy(app: Manifest) | Rollback | Act(action: Action)

  /** A deployed manifest has passed the deploy handler's checks. */
  predicate OperationOk(cfg: Config, s: Site, op: Operation) {
    op.Deploy? ==> ValidManifest(cfg, op.app, s)
  }

  function Running(m: Manifest): Manifest {
    m.(state := "running")
  }

  function After(m: Manifest, action: Action): Manifest {
    m.(state := if action == Stop then "stopped" else "running")
  }

  function Parsed(cfg: Config, s: Site, file: Option<Bytes>): Option<Manifest> {
    match file
    case None => None
    case Some(b) => match cfg.parse(b)
      case Some(m) => if ValidManifest(cfg, m, s) then Some(m) else None
      case None => None
  }

  /** The manifest an operation publishes, or none when it is refused. */
  function NewManifest(cfg: Config, s: Site, g: Generation, op: Operation): Option<Manifest> {
    var current := Parsed(cfg, s, g.manifest);
    match op
    case Deploy(app) => if g.manifest.Some? && current.None? then None else Some(Running(app))
    case Rollback =>
      var release := Parsed(cfg, s, g.backup);
      if release.None? || current.None? then None else Some(Running(release.value))
    case Act(action) => if current.None? then None else Some(After(current.value, action))
  }

  /** The generation an operation aims at: activations keep the replaced manifest as rollback file. */
  function Target(cfg: Config, s: Site, g: Generation, op: Operation): Option<Generation> {
    match NewManifest(cfg, s, g, op)
    case None => None
    case Some(m) => Some(Generation(Some(cfg.render(m)), if op.Act? then g.backup else g.manifest, RuntimeOf(m)))
  }

  /** The journal of an operation, before its first write. */
  function JournalOf(cfg: Config, s: Site, g: Generation, op: Operation): Option<Journal> {
    match Target(cfg, s, g, op)
    case None => None
    case Some(t) =>
      Some(Journal(s, if g.manifest.Some? then g.manifest.value else "", Parsed(cfg, s, g.manifest), g.backup,
                   t.manifest.value, t.backup, Prepared))
  }

  /**
    A deployment is refused exactly over a manifest file that is not usable, a rollback exactly
    without a usable manifest and a usable rollback file, a start, stop or restart exactly without
    a usable manifest.
  */
  lemma RefusedExactly(cfg: Config, s: Site, g: Generation, op: Operation)
    ensures JournalOf(cfg, s, g, op).None? <==>
            match op
            case Deploy(_) => g.manifest.Some? && !Usable(cfg, s, g.manifest)
            case Rollback => !Usable(cfg, s, g.manifest) || !Usable(cfg, s, g.backup)
            case Act(_) => !Usable(cfg, s, g.manifest)
  {
  }

  /**
    What an accepted operation publishes: the deployed application, the release of the rollback
    file or the current one, running unless the operation is a stop and otherwise as it was.  The
    replaced manifest becomes the rollback file, except by a start or stop.
  */
  lemma PublishedManifest(cfg: Config, s: Site, g: Generation, op: Operation)
    requires CodecOk(cfg) && JournalOf(cfg, s, g, op).Some?
    ensures var j := JournalOf(cfg, s, g, op).value;
            var state := if op == Act(Stop) then "stopped" else "running";
            && cfg.parse(j.target).Some?
            && var m := cfg.parse(j.target).value;
            && m == (match op
                     case Deploy(app) => app
                     case Rollback => cfg.parse(g.backup.value).value
                     case Act(_) => cfg.parse(g.manifest.value).value).(state := state)
            && j.targetBackup == (if op.Act? then g.backup else g.manifest)
            && Target(cfg, s, g, op) ==
               Some(Generation(Some(j.target), j.targetBackup, Runtime(Some(m.settings), op != Act(Stop))))
  {
    RefusedExactly(cfg, s, g, op);
    var m := NewManifest(cfg, s, g, op).value;
    assert cfg.parse(cfg.render(m)) == Some(m);
  }

  /** The journal records the files on the host as previous and the operation's aim as target. */
  lemma JournalIsRight(cfg: Config, s: Site, g: Generation, op: Operation)
    requires CodecOk(cfg) && OperationOk(cfg, s, op) && JournalOf(cfg, s, g, op).Some?
    ensures var j := JournalOf(cfg, s, g, op).value;
            && j.site == s && j.phase == Prepared && Acceptable(cfg, j) && Acceptable(cfg, j.(phase := Committed))
            && TargetOf(cfg, j) == Target(cfg, s, g, op).value
            && PreviousOf(j).manifest == g.manifest && PreviousOf(j).backup == g.backup
            && (Settled(cfg, s, g) ==> Same(g, PreviousOf(j)))
  {
    var j := JournalOf(cfg, s, g, op).value;
    var m := NewManifest(cfg, s, g, op).value;
    assert cfg.parse(cfg.render(m)) == Some(m);
    assert ValidManifest(cfg, m, s);
  }

  /**
    Rolling a deployment back runs the earlier release again, and rolling back once more returns to
    the deployed one.
  */
  lemma RollbackTwice(cfg: Config, s: Site, g: Generation, app: Manifest)
    requires CodecOk(cfg) && ValidManifest(cfg, app, s) && Parsed(cfg, s, g.manifest).Some?
    ensures var deployed := Target(cfg, s, g, Deploy(app)).value;
            var back := Target(cfg, s, deployed, Rollback);
            && back.Some?
            && Parsed(cfg, s, back.value.manifest) == Some(Running(Parsed(cfg, s, g.manifest).value))
            && back.value.backup == deployed.manifest
            && var again := Target(cfg, s, back.value, Rollback);
               again.Some? && again.value.manifest == deployed.manifest && again.value.runtime == deployed.runtime
  {
    assert Running(Running(app)) == Running(app);
  }
}
