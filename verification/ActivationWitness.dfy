/** Runs in which a site does not end where the last operation on it was heading. */
module ActivationWitness {
  import opened Optional
  import opened Activation
  import opened ActivationRuns
  import opened ActivationResults

  /** `y` reaches `z` without beginning another operation. */
  ghost predicate Continues(cfg: Config, y: System, z: System) {
    exists steps :: Steps(cfg, y, steps, z) && NoBegin(steps)
  }

  ghost predicate Reaches(cfg: Config, y: System, z: System) {
    exists steps :: Steps(cfg, y, steps, z)
  }

  predicate NoBegin(steps: seq<Step>) {
    forall i | 0 <= i < |steps| :: !steps[i].Begin?
  }

  lemma {:induction false} Joined(cfg: Config, x: System, first: seq<Step>, y: System, second: seq<Step>, z: System)
    requires Steps(cfg, x, first, y) && Steps(cfg, y, second, z)
    ensures Steps(cfg, x, first + second, z)
    decreases |first|
  {
    if first == [] {
      assert first + second == second;
    } else {
      var next := Head(cfg, x, first, y);
      Joined(cfg, next, first[1..], y, second, z);
      Prefixed(cfg, x, first[0], next, first[1..] + second, z);
      SplitHead(first, second);
    }
  }

  lemma SplitHead<T>(first: seq<T>, second: seq<T>)
    requires first != []
    ensures [first[0]] + (first[1..] + second) == first + second
  {
  }

  lemma Head(cfg: Config, x: System, steps: seq<Step>, y: System) returns (next: System)
    requires Steps(cfg, x, steps, y) && steps != []
    ensures Enabled(cfg, x, steps[0]) && next == Apply(cfg, x, steps[0]) && Steps(cfg, next, steps[1..], y)
  {
    next := Apply(cfg, x, steps[0]);
  }

  lemma Prefixed(cfg: Config, x: System, a: Step, next: System, rest: seq<Step>, z: System)
    requires Enabled(cfg, x, a) && next == Apply(cfg, x, a) && Steps(cfg, next, rest, z)
    ensures Steps(cfg, x, [a] + rest, z)
  {
    assert ([a] + rest)[1..] == rest;
  }

  lemma ContinuesTransitively(cfg: Config, x: System, y: System, z: System)
    requires Continues(cfg, x, y) && Continues(cfg, y, z)
    ensures Continues(cfg, x, z)
  {
    var first :| Steps(cfg, x, first, y) && NoBegin(first);
    var second :| Steps(cfg, y, second, z) && NoBegin(second);
    Joined(cfg, x, first, y, second, z);
    assert NoBegin(first + second);
  }

  lemma Go(cfg: Config, y: System, a: Step) returns (z: System)
    requires Enabled(cfg, y, a) && !a.Begin?
    ensures z == Apply(cfg, y, a) && Continues(cfg, y, z)
  {
    z := Apply(cfg, y, a);
    assert Steps(cfg, z, [], z);
    assert [a][1..] == [];
    assert Steps(cfg, y, [a], z) && NoBegin([a]);
  }

  lemma Stays(cfg: Config, y: System)
    ensures Continues(cfg, y, y)
  {
    assert Steps(cfg, y, [], y) && NoBegin([]);
  }

  /** An installation whose effects all work installs its generation and drops the journal. */
  lemma {:induction false} InstallCompletes(cfg: Config, y: System, p: Pid) returns (z: System)
    requires p in y.workers && Installing(y.workers[p].todo) && y.workers[p].id in y.log
    requires y.workers[p].stage == Undoing || y.workers[p].stage == Recovering
    ensures var w := y.workers[p]; var f := y.log[w.id];
            && Continues(cfg, y, z) && z.workers == y.workers - {p} && z.latest == y.latest
            && z.disk.journals == y.disk.journals - {w.id}
            && z.log == y.log[w.id := if w.stage == Undoing then f.(undone := true) else f]
            && At(z.disk, w.journal.site) == Play(At(y.disk, w.journal.site), w.todo)
    decreases |y.workers[p].todo|
  {
    var w := y.workers[p];
    var next := Go(cfg, y, Do(p, Works));
    if |w.todo| == 1 {
      assert w.todo == [DropJournal];
      Play1(At(y.disk, w.journal.site), DropJournal);
      z := next;
      assert y.log[w.id := y.log[w.id]] == y.log;
    } else {
      InstallingTail(w.todo);
      assert y.log[w.id := y.log[w.id]] == y.log;
      z := InstallCompletes(cfg, next, p);
      ContinuesTransitively(cfg, y, next, z);
      assert z.workers == y.workers - {p};
    }
  }

  /** The worker stands right before its commit write. */
  ghost predicate BeforeCommit(y: System, p: Pid, id: Id, j: Journal, f: Fate) {
    && p in y.workers && id in y.log && id in y.disk.journals
    && y.workers[p].id == id && y.workers[p].journal == j && y.workers[p].stage == Applying
    && y.workers[p].todo == [SetJournal(Committed)]
    && y.log[id] == f.(begun := true, committed := false)
  }

  /** What the effects before the commit leave of everything else. */
  ghost predicate Beside(y: System, z: System, p: Pid, id: Id) {
    && z.workers.Keys == y.workers.Keys && z.latest == y.latest && z.log.Keys == y.log.Keys
    && (forall i | i in y.log && i != id :: z.log[i] == y.log[i])
    && z.disk.journals - {id} == y.disk.journals - {id}
    && (forall q | q in y.workers && q != p :: z.workers[q] == y.workers[q])
  }

  lemma {:induction false} ApplyingWorks(cfg: Config, y: System, p: Pid, f: Fate) returns (z: System)
    requires p in y.workers && y.workers[p].stage == Applying && Committing(y.workers[p].todo)
    requires y.workers[p].id in y.disk.journals
    requires y.workers[p].id in y.log && y.log[y.workers[p].id] == f.(begun := true, committed := false)
    ensures var w := y.workers[p];
            && Continues(cfg, y, z) && BeforeCommit(z, p, w.id, w.journal, f) && Beside(y, z, p, w.id)
            && At(z.disk, w.journal.site) == Play(At(y.disk, w.journal.site), w.todo)
    decreases |y.workers[p].todo|
  {
    var w := y.workers[p];
    if |w.todo| == 1 {
      assert w.todo == [SetJournal(Committed)];
      Play1(At(y.disk, w.journal.site), w.todo[0]);
      Stays(cfg, y);
      z := y;
    } else {
      CommittingTail(w.todo);
      var next := Go(cfg, y, Do(p, Works));
      assert next.log[w.id] == f.(begun := true, committed := false);
      z := ApplyingWorks(cfg, next, p, f);
      ContinuesTransitively(cfg, y, next, z);
    }
  }

  lemma OpeningWorks(cfg: Config, y: System, p: Pid) returns (z: System)
    requires p in y.workers && y.workers[p].stage == Opening && y.workers[p].todo == OpenProgram
    requires y.workers[p].id in y.log
    ensures var w := y.workers[p];
            && Continues(cfg, y, z) && Beside(y, z, p, w.id) && p in z.workers && w.id in z.log
            && w.id in z.disk.journals
            && z.workers[p] == w.(stage := Applying, todo := w.apply)
            && z.log[w.id] == y.log[w.id].(begun := true, committed := false) && z.disk.sites == y.disk.sites
  {
    var next := Go(cfg, y, Do(p, Works));
    assert OpenProgram[1..] == [SetJournal(RuntimeApplying)];
    z := Go(cfg, next, Do(p, Works));
    ContinuesTransitively(cfg, y, next, z);
  }

  /** An operation that has just begun, on a system without other workers. */
  ghost predicate Begun(cfg: Config, y: System, p: Pid, id: Id, j: Journal, origin: Generation) {
    && y.workers.Keys == {p} && id in y.log && y.log[id] == Fate(origin, j, false, false, false)
    && y.workers[p].id == id && y.workers[p].journal == j && y.workers[p].stage == Opening
    && y.workers[p].todo == OpenProgram && Committing(y.workers[p].apply)
  }

  lemma BeginsSo(cfg: Config, y: System, a: Step)
    requires CodecOk(cfg) && a.Begin? && Enabled(cfg, y, a) && y.workers == map[]
    ensures var g := At(y.disk, a.s);
            var j := JournalOf(cfg, a.s, g, a.op).value;
            && Begun(cfg, Apply(cfg, y, a), a.p, a.id, j, g)
            && Apply(cfg, y, a).workers[a.p].apply == ApplyProgram(NewManifest(cfg, a.s, g, a.op).value, j, a.op)
  {
    var g := At(y.disk, a.s);
    var j, m := JournalOf(cfg, a.s, g, a.op).value, NewManifest(cfg, a.s, g, a.op).value;
    if a.op.Act? { ActRuns(g, m, j, a.op); } else { ActivateRuns(g, m, j, a.op); }
  }

  /** Everything before the commit write works. */
  lemma ReachesCommit(cfg: Config, y: System, p: Pid, id: Id, j: Journal, origin: Generation) returns (z: System)
    requires Begun(cfg, y, p, id, j, origin)
    ensures Continues(cfg, y, z) && BeforeCommit(z, p, id, j, Fate(origin, j, true, false, false))
    ensures z.workers.Keys == {p} && z.latest == y.latest && z.log.Keys == y.log.Keys
    ensures z.disk.journals - {id} == y.disk.journals - {id}
    ensures At(z.disk, j.site) == Play(At(y.disk, j.site), y.workers[p].apply)
  {
    var mid := OpeningWorks(cfg, y, p);
    z := ApplyingWorks(cfg, mid, p, Fate(origin, j, true, false, false));
    ContinuesTransitively(cfg, y, mid, z);
  }

  /** The commit write takes effect but reports an error, and the compensation completes. */
  lemma CommitIsUndone(cfg: Config, y: System, p: Pid, id: Id, j: Journal, f: Fate) returns (z: System)
    requires BeforeCommit(y, p, id, j, f) && y.workers.Keys == {p} && (HadPrevious(j) ==> j.restore.Some?)
    ensures Continues(cfg, y, z) && z.workers == map[] && z.latest == y.latest && id in z.log
    ensures z.log[id] == f.(begun := true, committed := true, undone := true)
    ensures z.disk.journals == y.disk.journals - {id}
  {
    var mid := Go(cfg, y, Do(p, FailsAfter));
    UndoRuns(At(mid.disk, j.site), j);
    assert mid.workers[p] == Compensating(y.workers[p]);
    z := InstallCompletes(cfg, mid, p);
    ContinuesTransitively(cfg, y, mid, z);
  }

  /** The commit works and the journal is dropped, or its removal fails and it stays. */
  lemma CommitWorks(cfg: Config, y: System, p: Pid, id: Id, j: Journal, f: Fate, cleaned: bool) returns (z: System)
    requires BeforeCommit(y, p, id, j, f) && y.workers.Keys == {p}
    ensures Continues(cfg, y, z) && z.workers == map[] && z.latest == y.latest && id in z.log
    ensures z.log[id] == f.(begun := true, committed := true) && z.log.Keys == y.log.Keys
    ensures z.disk.journals == if cleaned then y.disk.journals - {id} else y.disk.journals[id := j.(phase := Committed)]
    ensures z.disk.sites == y.disk.sites
  {
    var mid := Go(cfg, y, Do(p, Works));
    z := Go(cfg, mid, Do(p, if cleaned then Works else FailsBefore));
    ContinuesTransitively(cfg, y, mid, z);
  }

  const Empty := System(Disk(map[], map[]), map[], map[], map[])

  lemma {:induction false} NoBeginNoLeftover(cfg: Config, y: System, steps: seq<Step>, z: System)
    requires Steps(cfg, y, steps, z) && NoBegin(steps)
    ensures NoLeftovers(cfg, y, steps, z)
    decreases |steps|
  {
    if steps != [] {
      assert NoBegin(steps[1..]);
      NoBeginNoLeftover(cfg, Apply(cfg, y, steps[0]), steps[1..], z);
    }
  }

  lemma RunFromEmpty(cfg: Config, a: Step, y: System, z: System) returns (steps: seq<Step>)
    requires Enabled(cfg, Empty, a) && y == Apply(cfg, Empty, a) && Continues(cfg, y, z)
    ensures GoodRun(cfg, Empty, steps, z)
  {
    var rest :| Steps(cfg, y, rest, z) && NoBegin(rest);
    NoBeginNoLeftover(cfg, y, rest, z);
    Prefixed(cfg, Empty, a, y, rest, z);
    steps := [a] + rest;
    assert steps[1..] == rest;
  }

  /**
    The first deployment of a site: its commit write fails after the rename, compensation completes,
    and the site ends without the application although its journal on disk was committed.
  */
  lemma CommittedButUndone(cfg: Config, m: Manifest) returns (steps: seq<Step>, z: System)
    requires CodecOk(cfg) && ValidManifest(cfg, m, m.site)
    ensures GoodRun(cfg, Empty, steps, z)
    ensures z.disk.journals == map[] && z.workers == map[] && m.site in z.latest && z.latest[m.site] in z.log
    ensures var f := z.log[z.latest[m.site]];
            && f.committed && FateOk(cfg, f) && !NeverUndoes(cfg, Empty, steps, z, z.latest[m.site])
            && !Same(At(z.disk, m.site), TargetOf(cfg, f.journal)) && Same(At(z.disk, m.site), PreviousOf(f.journal))
  {
    var a := Begin(1, 7, m.site, Deploy(m));
    var y, j := FirstBegins(cfg, m);
    var mid := ReachesCommit(cfg, y, 1, 7, j, Nothing);
    z := CommitIsUndone(cfg, mid, 1, 7, j, Fate(Nothing, j, true, false, false));
    ContinuesTransitively(cfg, y, mid, z);
    steps := RunFromEmpty(cfg, a, y, z);
    assert z.disk.journals == map[];
    WholeGenerations(cfg, Empty, steps, z, m.site);
    GoodRunIsClean(cfg, Empty, steps, z);
    RunUndoes(cfg, Empty, steps, z, 7);
  }

  /**
    Whenever a journal of a site is left over and no one is at work, a later operation on the site
    can complete, journal and all, and the next recovery installs what the leftover journal says.
  */
  lemma LeftoverDecides(cfg: Config, y: System, left: Id, a: Step) returns (done: System, z: System)
    requires CodecOk(cfg) && y.workers == map[] && left in y.disk.journals && left in y.log
    requires Acceptable(cfg, y.disk.journals[left])
    requires a.Begin? && Enabled(cfg, y, a) && y.disk.journals[left].site == a.s
    ensures Continues(cfg, Apply(cfg, y, a), done) && done.workers == map[] && a.id !in done.disk.journals
    ensures a.id in done.log && done.log[a.id].committed && !done.log[a.id].undone
    ensures var g := At(y.disk, a.s);
            (a.op.Act? ==> g.runtime.installed == Some(NewManifest(cfg, a.s, g, a.op).value.settings)) ==>
              Same(At(done.disk, a.s), Target(cfg, a.s, g, a.op).value)
    ensures Continues(cfg, done, z) && z.workers == map[] && z.disk.journals == y.disk.journals - {left}
    ensures Same(At(z.disk, a.s), Outcome(cfg, y.disk.journals[left]))
  {
    var g := At(y.disk, a.s);
    var j := JournalOf(cfg, a.s, g, a.op).value;
    var begun := Apply(cfg, y, a);
    BeginsSo(cfg, y, a);
    var mid := ReachesCommit(cfg, begun, a.p, a.id, j, g);
    done := CommitWorks(cfg, mid, a.p, a.id, j, Fate(g, j, true, false, false), true);
    ContinuesTransitively(cfg, begun, mid, done);
    LeftInPlace(y.disk.journals, mid.disk.journals, done.disk.journals, a.id, left);
    z := RecoveryCompletes(cfg, done, left, a.p);
    JournalIsRight(cfg, a.s, g, a.op);
    if a.op.Act? ==> g.runtime.installed == Some(NewManifest(cfg, a.s, g, a.op).value.settings) {
      ApplyRuns(cfg, a.s, g, a.op);
    }
  }

  lemma LeftInPlace(before: map<Id, Journal>, mid: map<Id, Journal>, after: map<Id, Journal>, id: Id, left: Id)
    requires mid - {id} == before - {id} && after == mid - {id} && id !in before && left in before
    ensures after == before && left in after && after[left] == before[left]
  {
    assert before - {id} == before;
  }

  lemma RecoveryCompletes(cfg: Config, y: System, left: Id, p: Pid) returns (z: System)
    requires y.workers == map[] && left in y.disk.journals && left in y.log && Acceptable(cfg, y.disk.journals[left])
    ensures Continues(cfg, y, z) && z.workers == map[] && z.disk.journals == y.disk.journals - {left}
    ensures Same(At(z.disk, y.disk.journals[left].site), Outcome(cfg, y.disk.journals[left]))
  {
    var j := y.disk.journals[left];
    var mid := Go(cfg, y, Recover(p, left));
    RecoverRuns(cfg, At(mid.disk, j.site), j);
    z := InstallCompletes(cfg, mid, p);
    ContinuesTransitively(cfg, y, mid, z);
  }

  /**
    Two deployments of one site: the first commits but fails to remove its journal, the second
    completes, and the next recovery brings the first one back.
  */
  lemma LeftoverUndoesActivation(cfg: Config, m: Manifest, n: Manifest) returns (done: System, z: System)
    requires CodecOk(cfg) && ValidManifest(cfg, m, m.site) && ValidManifest(cfg, n, m.site) && m.settings != n.settings
    ensures Reaches(cfg, Empty, done) && Reaches(cfg, done, z)
    ensures 8 in done.log && done.log[8].committed && !done.log[8].undone && 8 !in done.disk.journals
    ensures At(done.disk, m.site).runtime == Runtime(Some(n.settings), true)
    ensures At(z.disk, m.site).runtime.installed == Some(m.settings) && z.disk.journals == map[] && z.workers == map[]
  {
    var y := FirstDeployment(cfg, m);
    var a := Begin(1, 8, m.site, Deploy(n));
    var j := y.disk.journals[7];
    assert Parsed(cfg, m.site, At(y.disk, m.site).manifest) == Some(Running(m));
    done, z := LeftoverDecides(cfg, y, 7, a);
    ReachedBy(cfg, y, a, Apply(cfg, y, a), done);
  }

  lemma ReachedBy(cfg: Config, y: System, a: Step, begun: System, z: System)
    requires Reaches(cfg, Empty, y) && Enabled(cfg, y, a) && begun == Apply(cfg, y, a) && Continues(cfg, begun, z)
    ensures Reaches(cfg, Empty, z)
  {
    var first :| Steps(cfg, Empty, first, y);
    var rest :| Steps(cfg, begun, rest, z) && NoBegin(rest);
    Prefixed(cfg, y, a, begun, rest, z);
    Joined(cfg, Empty, first, y, [a] + rest, z);
  }

  /** The first deployment up to its commit write: everything is in place. */
  lemma FirstUpToCommit(cfg: Config, m: Manifest) returns (begun: System, mid: System, j: Journal)
    requires CodecOk(cfg) && ValidManifest(cfg, m, m.site)
    ensures Enabled(cfg, Empty, Begin(1, 7, m.site, Deploy(m)))
    ensures begun == Apply(cfg, Empty, Begin(1, 7, m.site, Deploy(m)))
    ensures Continues(cfg, begun, mid) && BeforeCommit(mid, 1, 7, j, Fate(Nothing, j, true, false, false))
    ensures mid.workers.Keys == {1} && mid.log.Keys == {7} && mid.disk.journals.Keys == {7}
    ensures j.site == m.site && Acceptable(cfg, j.(phase := Committed))
    ensures TargetOf(cfg, j) == Generation(Some(cfg.render(Running(m))), None, RuntimeOf(Running(m)))
    ensures Same(At(mid.disk, m.site), TargetOf(cfg, j))
  {
    begun, j := FirstBegins(cfg, m);
    mid := ReachesCommit(cfg, begun, 1, 7, j, Nothing);
    ApplyRuns(cfg, m.site, Nothing, Deploy(m));
    OnlyKey(mid.disk.journals, begun.disk.journals, 7);
  }

  lemma OnlyKey(a: map<Id, Journal>, b: map<Id, Journal>, id: Id)
    requires a - {id} == b - {id} && b == map[] && id in a
    ensures a.Keys == {id}
  {
    forall i | i in a ensures i == id {
      assert i != id ==> i in a - {id};
    }
  }

  lemma FirstBegins(cfg: Config, m: Manifest) returns (begun: System, j: Journal)
    requires CodecOk(cfg) && ValidManifest(cfg, m, m.site)
    ensures Enabled(cfg, Empty, Begin(1, 7, m.site, Deploy(m)))
    ensures begun == Apply(cfg, Empty, Begin(1, 7, m.site, Deploy(m)))
    ensures Clean(cfg, Empty, Begin(1, 7, m.site, Deploy(m)))
    ensures Begun(cfg, begun, 1, 7, j, Nothing) && begun.log.Keys == {7} && begun.disk.journals == map[]
    ensures j.site == m.site && Acceptable(cfg, j.(phase := Committed))
    ensures TargetOf(cfg, j) == Generation(Some(cfg.render(Running(m))), None, RuntimeOf(Running(m)))
  {
    var a := Begin(1, 7, m.site, Deploy(m));
    begun := Apply(cfg, Empty, a);
    BeginsSo(cfg, Empty, a);
    j := begun.log[7].journal;
    JournalIsRight(cfg, m.site, Nothing, Deploy(m));
  }

  lemma FirstDeployment(cfg: Config, m: Manifest) returns (y: System)
    requires CodecOk(cfg) && ValidManifest(cfg, m, m.site)
    ensures Reaches(cfg, Empty, y)
    ensures y.workers == map[] && y.log.Keys == {7} && y.disk.journals.Keys == {7}
    ensures var j := y.disk.journals[7];
            && j.site == m.site && Acceptable(cfg, j) && j.phase == Committed
            && TargetOf(cfg, j) == Generation(Some(cfg.render(Running(m))), None, RuntimeOf(Running(m)))
    ensures At(y.disk, m.site).manifest == Some(cfg.render(Running(m)))
  {
    var begun, mid, j := FirstUpToCommit(cfg, m);
    y := CommitWorks(cfg, mid, 1, 7, j, Fate(Nothing, j, true, false, false), false);
    ContinuesTransitively(cfg, begun, mid, y);
    var steps := RunFromEmpty(cfg, Begin(1, 7, m.site, Deploy(m)), begun, y);
  }
}
