/**
  Security operations: a row per operation that moves from pending to one terminal state, each
  move in one transaction with the event that reports it.
*/
module SecurityAudit {
  import opened Names
  import AuditOutbox

  type OpId = string
  type Pid = AuditOutbox.Pid
  type Time = AuditOutbox.Time
  type EventId = AuditOutbox.EventId
  type Event = AuditOutbox.Event

  const ORPHAN_AGE := 3 * 3600
  const OPERATION_RETENTION := 90 * 24 * 3600
  const FAILURE_LIMIT := 1024
  const RECONCILED := "security.audit.operation.reconciled"

  datatype OpState =
    | Pending
    | Completed(action: string, detail: string, finishedAt: Time)
    | Reconciled(detail: string, finishedAt: Time)

  datatype Op = Op(actor: string, action: string, target: string, detail: string, startedAt: Time, state: OpState)

  /** Which step stored an event. */
  datatype Origin = Initiated(id: OpId) | Terminal(id: OpId) | Unrelated

  /** `used` remembers every operation ever begun; `failed` is each process's list of failed outcome writes. */
  datatype System = System(
    ops: map<OpId, Op>,
    used: set<OpId>,
    outbox: AuditOutbox.System,
    origin: map<EventId, Origin>,
    failed: map<Pid, set<OpId>>)

  const Empty := System(map[], {}, AuditOutbox.Empty, map[], map[])

  function OperationDetail(id: OpId, detail: string): string {
    if detail == "" then "operation_id=" + id else "operation_id=" + id + "; " + detail
  }

  function InitiatedEvent(id: OpId, op: Op): Event {
    AuditOutbox.Event(op.actor, op.action + ".initiated", op.target, OperationDetail(id, op.detail))
  }

  function FailedBy(s: System, p: Pid): set<OpId> {
    if p in s.failed then s.failed[p] else {}
  }

  predicate Stale(op: Op, now: Time) {
    op.startedAt < now - ORPHAN_AGE
  }

  datatype Action =
    | Begin(id: OpId, op: Op)
    | Complete(id: OpId, actor: string, baseAction: string, action: string, target: string, detail: string, now: Time)
    | Reconcile(p: Pid, id: OpId, operator: string, detail: string, now: Time)
    | RecordFailure(p: Pid, id: OpId)
    | PruneOperations(now: Time, ids: set<OpId>)
    | Outbox(a: AuditOutbox.Action)
    | Crash(p: Pid)

  predicate Expired(s: System, now: Time, id: OpId) {
    && id in s.ops && !s.ops[id].state.Pending? && s.ops[id].state.finishedAt < now - OPERATION_RETENTION
  }

  /** `ids` is the first PRUNE_LIMIT of the expired rows, by the time they finished. */
  predicate IsPruning(s: System, now: Time, ids: set<OpId>) {
    && |ids| <= AuditOutbox.PRUNE_LIMIT && (forall id | id in ids :: Expired(s, now, id))
    && (forall id | id in s.ops && Expired(s, now, id) && id !in ids ::
          |ids| == AuditOutbox.PRUNE_LIMIT
          && forall x | x in ids :: s.ops[x].state.finishedAt <= s.ops[id].state.finishedAt)
  }

  /** Operation identifiers are random: one that is gone from the table is not drawn again. */
  predicate Enabled(s: System, a: Action) {
    match a
    case Begin(id, op) => op.state == Pending && (id in s.used ==> id in s.ops)
    case PruneOperations(now, ids) => IsPruning(s, now, ids)
    case Outbox(b) => AuditOutbox.FlushersOk(s.outbox) && AuditOutbox.Enabled(s.outbox, b)
    case _ => true
  }

  /** A committed transaction: the operation's new row and its event, together. */
  function Record(s: System, id: OpId, op: Op, e: Event, o: Origin): System {
    s.(ops := s.ops[id := op], outbox := AuditOutbox.Insert(s.outbox, e), origin := s.origin[s.outbox.nextId := o])
  }

  /** `beginSecurityAudit`; the flag is false when the call reports an error. */
  function Begun(s: System, id: OpId, op: Op): (System, bool) {
    if op.actor == "" || op.action == "" || id == "" || id in s.ops then
      (s, false)
    else
      (Record(s, id, op, InitiatedEvent(id, op), Initiated(id)).(used := s.used + {id}), true)
  }

  /** `completeSecurityAudit`. */
  function CompletedAs(s: System, id: OpId, actor: string, baseAction: string, action: string, target: string,
                       detail: string, now: Time): (System, bool) {
    if id == "" || id !in s.ops then
      (s, false)
    else
      var op := s.ops[id];
      if op.state == Pending && op.actor == actor && op.action == baseAction && op.target == target then
        (Record(s, id, op.(state := Completed(action, detail, now)),
                AuditOutbox.Event(actor, action, target, OperationDetail(id, detail)), Terminal(id)), true)
      else
        (s, op.actor == actor && op.target == target && op.state.Completed?
            && op.state.action == action && op.state.detail == detail)
  }

  /** The guard of `reconcileSecurityAuditOperation`: stale, or known by this process to have failed. */
  predicate MayReconcile(s: System, p: Pid, id: OpId, now: Time) {
    && id in s.ops && s.ops[id].state == Pending
    && s.ops[id].startedAt < if id in FailedBy(s, p) then now + 1 else now - ORPHAN_AGE
  }

  function ReconciledBy(s: System, p: Pid, id: OpId, operator: string, detail: string, now: Time): (System, bool) {
    if id == "" || operator == "" || TrimSpace(detail) == "" || !MayReconcile(s, p, id, now) then
      (s, false)
    else
      var op := s.ops[id];
      (Record(s, id, op.(state := Reconciled(detail, now)),
              AuditOutbox.Event(operator, RECONCILED, id, OperationDetail(id, detail)), Terminal(id))
       .(failed := s.failed[p := FailedBy(s, p) - {id}]), true)
  }

  function FailureRecorded(known: set<OpId>, id: OpId): set<OpId> {
    if id != "" && |known| < FAILURE_LIMIT then known + {id} else known
  }

  function Apply(s: System, a: Action): System
    requires Enabled(s, a)
  {
    match a
    case Begin(id, op) => Begun(s, id, op).0
    case Complete(id, actor, baseAction, action, target, detail, now) =>
      CompletedAs(s, id, actor, baseAction, action, target, detail, now).0
    case Reconcile(p, id, operator, detail, now) => ReconciledBy(s, p, id, operator, detail, now).0
    case RecordFailure(p, id) => s.(failed := s.failed[p := FailureRecorded(FailedBy(s, p), id)])
    case PruneOperations(now, ids) => s.(ops := s.ops - ids)
    case Outbox(b) =>
      var outbox := AuditOutbox.Apply(s.outbox, b);
      s.(outbox := outbox, origin := if b.Persist? then s.origin[s.outbox.nextId := Unrelated] else s.origin)
    case Crash(p) => s.(failed := s.failed - {p})
  }

  // ---------------------------------------------------------------------------------------
  // The invariant
  // ---------------------------------------------------------------------------------------

  ghost function EventsOf(s: System, o: Origin): set<EventId> {
    set e | e in s.origin && s.origin[e] == o
  }

  /** How many events of each kind an operation has, by its row. */
  ghost predicate Accounted(s: System, id: OpId) {
    && |EventsOf(s, Initiated(id))| == (if id in s.used then 1 else 0)
    && |EventsOf(s, Terminal(id))| == (if id !in s.used || (id in s.ops && s.ops[id].state == Pending) then 0 else 1)
  }

  /** The event of a terminal state: the outcome under the operation's own names, or the operator's review of it. */
  predicate Concludes(e: Event, id: OpId, op: Op) {
    match op.state
    case Pending => true
    case Completed(action, detail, _) =>
      e.actor == op.actor && e.action == action && e.target == op.target && Tells(e.detail, id, detail)
    case Reconciled(detail, _) =>
      && e.actor != "" && e.action == "security.audit.operation.reconciled" && e.target == id
      && Tells(e.detail, id, detail)
  }

  /** The text of an event names its operation, and says what was said about it. */
  predicate Tells(text: string, id: OpId, detail: string) {
    text == "operation_id=" + id + if detail == "" then "" else "; " + detail
  }

  predicate Announces(e: Event, id: OpId, op: Op) {
    && e.actor == op.actor && e.action == op.action + ".initiated" && e.target == op.target
    && Tells(e.detail, id, op.detail)
  }

  /** The stored events say what the rows say. */
  ghost predicate Reported(s: System, id: OpId)
    requires id in s.ops
  {
    && (forall e | e in EventsOf(s, Initiated(id)) ::
          e in s.outbox.persisted && Announces(s.outbox.persisted[e], id, s.ops[id]))
    && (forall e | e in EventsOf(s, Terminal(id)) ::
          e in s.outbox.persisted && Concludes(s.outbox.persisted[e], id, s.ops[id]))
  }

  ghost predicate Inv(s: System) {
    && AuditOutbox.Inv(s.outbox)
    && s.origin.Keys == s.outbox.persisted.Keys
    && s.ops.Keys <= s.used
    && (forall id :: Accounted(s, id))
    && (forall id | id in s.ops :: Reported(s, id))
  }

  /** `t` stores one more event than `s`, of origin `o`. */
  ghost predicate Grown(s: System, t: System, o: Origin) {
    && s.outbox.nextId !in s.origin
    && EventsOf(t, o) == EventsOf(s, o) + {s.outbox.nextId}
    && (forall x | x != o :: EventsOf(t, x) == EventsOf(s, x))
    && (forall x | x in s.origin ::
          x in t.outbox.persisted && x in s.outbox.persisted && t.outbox.persisted[x] == s.outbox.persisted[x])
  }

  lemma GrownBy(s: System, t: System, e: Event, o: Origin)
    requires s.outbox.nextId !in s.origin && s.origin.Keys == s.outbox.persisted.Keys
    requires t.origin == s.origin[s.outbox.nextId := o]
    requires t.outbox.persisted == s.outbox.persisted[s.outbox.nextId := e]
    ensures Grown(s, t, o) && t.origin.Keys == t.outbox.persisted.Keys
  {
  }

  lemma NewEvent(s: System, id: OpId, op: Op, e: Event, o: Origin)
    requires Inv(s)
    ensures var t := Record(s, id, op, e, o).(used := s.used + {id});
            AuditOutbox.Inv(t.outbox) && t.origin.Keys == t.outbox.persisted.Keys && Grown(s, t, o)
  {
    AuditOutbox.InsertKeepsInv(s.outbox, e);
    FreshEvent(s);
    GrownBy(s, Record(s, id, op, e, o).(used := s.used + {id}), e, o);
  }

  lemma FreshEvent(s: System)
    requires Inv(s)
    ensures s.outbox.nextId !in s.origin
  {
    assert s.outbox.nextId !in s.outbox.persisted.Keys;
  }

  /** `op` is the next state of operation `id`, and `o` the kind of event that reports it. */
  ghost predicate Moves(s: System, id: OpId, op: Op, o: Origin) {
    if op.state == Pending then o == Initiated(id) && id !in s.used
    else o == Terminal(id) && id in s.ops && s.ops[id] == op.(state := Pending)
  }

  lemma AccountedAfter(s: System, t: System, id: OpId, op: Op, o: Origin, x: OpId)
    requires Accounted(s, x) && s.ops.Keys <= s.used && Moves(s, id, op, o) && Grown(s, t, o)
    requires t.ops == s.ops[id := op] && t.used == s.used + {id}
    ensures Accounted(t, x)
  {
    assert s.outbox.nextId !in EventsOf(s, o);
  }

  lemma ReportedAfter(s: System, t: System, id: OpId, op: Op, e: Event, o: Origin, x: OpId)
    requires Moves(s, id, op, o) && Grown(s, t, o) && Accounted(s, x)
    requires x in s.ops ==> Reported(s, x)
    requires t.ops == s.ops[id := op] && x in t.ops
    requires s.outbox.nextId in t.outbox.persisted && t.outbox.persisted[s.outbox.nextId] == e
    requires op.state == Pending ==> Announces(e, id, op)
    requires Concludes(e, id, op)
    requires s.ops.Keys <= s.used
    ensures Reported(t, x)
  {
  }

  /** Storing the event that reports a row's first or terminal state keeps the account. */
  lemma RecordKeepsInv(s: System, id: OpId, op: Op, e: Event, o: Origin)
    requires Inv(s) && Moves(s, id, op, o)
    requires op.state == Pending ==> Announces(e, id, op)
    requires Concludes(e, id, op)
    ensures Inv(Record(s, id, op, e, o).(used := s.used + {id}))
  {
    var t := Record(s, id, op, e, o).(used := s.used + {id});
    NewEvent(s, id, op, e, o);
    forall x ensures Accounted(t, x) {
      AccountedAfter(s, t, id, op, o, x);
    }
    forall x | x in t.ops ensures Reported(t, x) {
      ReportedAfter(s, t, id, op, e, o, x);
    }
  }

  /** No event of an operation changes, and rows change only by pruning terminal ones. */
  ghost predicate Undisturbed(s: System, t: System) {
    && t.used == s.used && t.ops.Keys <= s.ops.Keys
    && (forall id | id in t.ops :: t.ops[id] == s.ops[id])
    && (forall id | id in s.ops && id !in t.ops :: s.ops[id].state != Pending)
    && (forall o: Origin | o != Unrelated :: EventsOf(t, o) == EventsOf(s, o))
    && (forall e | e in s.origin ::
          e in s.outbox.persisted && e in t.outbox.persisted && t.outbox.persisted[e] == s.outbox.persisted[e])
  }

  lemma StillAccounted(s: System, t: System, id: OpId)
    requires Undisturbed(s, t) && Accounted(s, id) && s.ops.Keys <= s.used
    ensures Accounted(t, id)
  {
  }

  lemma StillReported(s: System, t: System, id: OpId)
    requires Undisturbed(s, t) && id in t.ops && Reported(s, id)
    ensures Reported(t, id)
  {
  }

  lemma SameEvents(s: System, t: System)
    requires Inv(s) && AuditOutbox.Inv(t.outbox) && t.origin.Keys == t.outbox.persisted.Keys && Undisturbed(s, t)
    ensures Inv(t)
  {
    forall id ensures Accounted(t, id) {
      StillAccounted(s, t, id);
    }
    forall id | id in t.ops ensures Reported(t, id) {
      StillReported(s, t, id);
    }
  }

  lemma BeginKeepsInv(s: System, id: OpId, op: Op)
    requires Inv(s) && Enabled(s, Begin(id, op))
    ensures Inv(Begun(s, id, op).0)
  {
    if Begun(s, id, op).1 {
      RecordKeepsInv(s, id, op, InitiatedEvent(id, op), Initiated(id));
    }
  }

  lemma CompleteKeepsInv(s: System, id: OpId, actor: string, baseAction: string, action: string, target: string,
                         detail: string, now: Time)
    requires Inv(s)
    ensures Inv(CompletedAs(s, id, actor, baseAction, action, target, detail, now).0)
  {
    var t := CompletedAs(s, id, actor, baseAction, action, target, detail, now).0;
    if t != s {
      RecordKeepsInv(s, id, s.ops[id].(state := Completed(action, detail, now)),
                     AuditOutbox.Event(actor, action, target, OperationDetail(id, detail)), Terminal(id));
      assert t.used == s.used + {id};
    }
  }

  lemma ReconcileKeepsInv(s: System, p: Pid, id: OpId, operator: string, detail: string, now: Time)
    requires Inv(s)
    ensures Inv(ReconciledBy(s, p, id, operator, detail, now).0)
  {
    var t := ReconciledBy(s, p, id, operator, detail, now).0;
    if t != s {
      var op := s.ops[id].(state := Reconciled(detail, now));
      var e := AuditOutbox.Event(operator, RECONCILED, id, OperationDetail(id, detail));
      RecordKeepsInv(s, id, op, e, Terminal(id));
      SameEvents(Record(s, id, op, e, Terminal(id)).(used := s.used + {id}), t);
    }
  }

  lemma OutboxKeepsInv(s: System, b: AuditOutbox.Action)
    requires Inv(s) && Enabled(s, Outbox(b))
    ensures Inv(Apply(s, Outbox(b)))
  {
    var t := Apply(s, Outbox(b));
    AuditOutbox.StepKeepsInv(s.outbox, b);
    FreshEvent(s);
    OutboxStores(s.outbox, b);
    OutboxEvents(s, t, b);
    SameEvents(s, t);
  }

  /** The outbox's own steps store one event or none. */
  lemma OutboxStores(o: AuditOutbox.System, b: AuditOutbox.Action)
    requires AuditOutbox.FlushersOk(o) && AuditOutbox.Enabled(o, b)
    ensures AuditOutbox.Apply(o, b).persisted == if b.Persist? then o.persisted[o.nextId := b.e] else o.persisted
  {
  }

  lemma OutboxEvents(s: System, t: System, b: AuditOutbox.Action)
    requires s.outbox.nextId !in s.origin
    requires t.origin == if b.Persist? then s.origin[s.outbox.nextId := Unrelated] else s.origin
    ensures forall o: Origin | o != Unrelated :: EventsOf(t, o) == EventsOf(s, o)
  {
  }

  lemma StepKeepsInv(s: System, a: Action)
    requires Inv(s) && Enabled(s, a)
    ensures Inv(Apply(s, a))
  {
    match a {
      case Begin(id, op) => BeginKeepsInv(s, id, op);
      case Complete(id, actor, baseAction, action, target, detail, now) =>
        CompleteKeepsInv(s, id, actor, baseAction, action, target, detail, now);
      case Reconcile(p, id, operator, detail, now) => ReconcileKeepsInv(s, p, id, operator, detail, now);
      case Outbox(b) => OutboxKeepsInv(s, b);
      case RecordFailure(_, _) => SameEvents(s, Apply(s, a));
      case PruneOperations(_, _) => SameEvents(s, Apply(s, a));
      case Crash(_) => SameEvents(s, Apply(s, a));
    }
  }

  // ---------------------------------------------------------------------------------------
  // Runs
  // ---------------------------------------------------------------------------------------

  ghost predicate Steps(s: System, actions: seq<Action>, t: System)
    decreases |actions|
  {
    if actions == [] then s == t
    else Enabled(s, actions[0]) && Steps(Apply(s, actions[0]), actions[1..], t)
  }

  lemma {:induction false} RunKeepsInv(s: System, actions: seq<Action>, t: System)
    requires Inv(s) && Steps(s, actions, t)
    ensures Inv(t)
    decreases |actions|
  {
    if actions != [] {
      var next := Apply(s, actions[0]);
      StepKeepsInv(s, actions[0]);
      assert Inv(next);
      RunKeepsInv(next, actions[1..], t);
    }
  }

  lemma EmptyInv()
    ensures Inv(Empty)
  {
    assert forall o :: EventsOf(Empty, o) == {};
  }

  /**
    Every operation ever begun has exactly one initiated event, and one terminal event exactly
    when it is no longer pending.  Both wait in the outbox or stand in the log.
  */
  lemma OneEventPerMove(actions: seq<Action>, t: System, id: OpId)
    requires Steps(Empty, actions, t) && id in t.used
    ensures |EventsOf(t, Initiated(id))| == 1
    ensures |EventsOf(t, Terminal(id))| == if id in t.ops && t.ops[id].state == Pending then 0 else 1
    ensures forall e | e in EventsOf(t, Initiated(id)) + EventsOf(t, Terminal(id)) ::
              AuditOutbox.Undelivered(t.outbox, e) || AuditOutbox.Published(t.outbox, e)
    ensures id in t.ops ==> Reported(t, id)
  {
    EmptyInv();
    RunKeepsInv(Empty, actions, t);
    assert Accounted(t, id);
    assert AuditOutbox.RowsOk(t.outbox);
  }

  /** The move from pending to a terminal state is made once: no later step changes the row, except to prune it. */
  lemma StepKeepsTerminal(s: System, a: Action, id: OpId)
    requires Enabled(s, a) && s.ops.Keys <= s.used && id in s.ops && s.ops[id].state != Pending
    ensures var t := Apply(s, a); id in t.used && (id in t.ops ==> t.ops[id] == s.ops[id])
  {
  }

  lemma {:induction false} TerminalIsFinal(s: System, actions: seq<Action>, t: System, id: OpId)
    requires Inv(s) && Steps(s, actions, t) && id in s.used && (id in s.ops ==> s.ops[id].state != Pending)
    ensures id in t.used && (id in t.ops ==> id in s.ops && t.ops[id] == s.ops[id])
    decreases |actions|
  {
    if actions != [] {
      var next := Apply(s, actions[0]);
      StepKeepsInv(s, actions[0]);
      assert Inv(next);
      if id in s.ops {
        StepKeepsTerminal(s, actions[0], id);
      }
      TerminalIsFinal(next, actions[1..], t, id);
    }
  }

  /** A pending operation changes only by a matching outcome, or by a reconciliation that is allowed. */
  lemma PendingMoves(s: System, a: Action, id: OpId)
    requires Enabled(s, a) && id in s.ops && s.ops[id].state == Pending
    ensures var t := Apply(s, a);
      && id in t.ops && t.ops[id].(state := Pending) == s.ops[id]
      && match t.ops[id].state
         case Pending => true
         case Completed(action, detail, now) =>
           a == Complete(id, s.ops[id].actor, s.ops[id].action, action, s.ops[id].target, detail, now)
         case Reconciled(detail, now) =>
           && a.Reconcile? && a.id == id && a.detail == detail && a.now == now
           && (Stale(s.ops[id], now) || (id in FailedBy(s, a.p) && s.ops[id].startedAt <= now))
  {
  }

  // ---------------------------------------------------------------------------------------
  // When a call is accepted, and what it writes
  // ---------------------------------------------------------------------------------------

  /** The outcome names the operation as it was begun. */
  predicate Matches(op: Op, actor: string, baseAction: string, target: string) {
    op.actor == actor && op.action == baseAction && op.target == target
  }

  /** Some character of the evidence is not a blank. */
  predicate Evidence(detail: string) {
    exists i | 0 <= i < |detail| :: detail[i] !in " \t\n\r"
  }

  /** Three hours old, or known to this process to have failed. */
  predicate Reviewable(op: Op, knownFailed: bool, now: Time) {
    op.startedAt < now - 3 * 3600 || (knownFailed && op.startedAt <= now)
  }

  /**
    A call succeeds exactly so: a beginning with all names and a new identifier; a matching outcome
    of a pending operation, or the same outcome again; a reconciliation, with an operator and
    evidence, of a pending operation that may be reviewed.
  */
  lemma AcceptedExactly(s: System, a: Action)
    ensures match a
            case Begin(id, op) =>
              Begun(s, id, op).1 <==> op.actor != "" && op.action != "" && id != "" && id !in s.ops
            case Complete(id, actor, baseAction, action, target, detail, now) =>
              CompletedAs(s, id, actor, baseAction, action, target, detail, now).1 <==>
                && id != "" && id in s.ops
                && var op := s.ops[id];
                || (op.state == Pending && Matches(op, actor, baseAction, target))
                || (op.state.Completed? && Matches(op, actor, op.action, target)
                    && op.state.action == action && op.state.detail == detail)
            case Reconcile(p, id, operator, detail, now) =>
              ReconciledBy(s, p, id, operator, detail, now).1 <==>
                && id != "" && operator != "" && Evidence(detail) && id in s.ops && s.ops[id].state == Pending
                && Reviewable(s.ops[id], id in FailedBy(s, p), now)
            case _ => true
  {
    if a.Reconcile? {
      BlankExactly(a.detail);
      assert Blank(a.detail) <==> !Evidence(a.detail);
    }
  }

  ghost predicate SameOp(s: System, t: System, id: OpId) {
    (id in t.ops <==> id in s.ops) && (id in s.ops ==> t.ops[id] == s.ops[id])
  }

  /** What a step makes of an operation's row. */
  lemma RowAfter(s: System, a: Action, id: OpId)
    requires Enabled(s, a)
    ensures var t := Apply(s, a);
            match a
            case Begin(x, op) =>
              if x == id && op.actor != "" && op.action != "" && id != "" && id !in s.ops
              then id in t.ops && t.ops[id] == op else SameOp(s, t, id)
            case Complete(x, actor, baseAction, action, target, detail, now) =>
              if x == id && id != "" && id in s.ops && s.ops[id].state == Pending
                 && Matches(s.ops[id], actor, baseAction, target)
              then id in t.ops && t.ops[id] == s.ops[id].(state := Completed(action, detail, now))
              else SameOp(s, t, id)
            case Reconcile(p, x, operator, detail, now) =>
              if x == id && id != "" && operator != "" && Evidence(detail) && id in s.ops && s.ops[id].state == Pending
                 && Reviewable(s.ops[id], id in FailedBy(s, p), now)
              then id in t.ops && t.ops[id] == s.ops[id].(state := Reconciled(detail, now)) && id !in FailedBy(t, p)
              else SameOp(s, t, id)
            case PruneOperations(_, ids) => if id in ids then id !in t.ops else SameOp(s, t, id)
            case _ => SameOp(s, t, id)
  {
    AcceptedExactly(s, a);
  }

  /** What a process remembers of failed outcome writes: at most 1,024 of them. */
  lemma FailureAfter(known: set<OpId>, id: OpId, k: OpId)
    ensures k in FailureRecorded(known, id) <==> k in known || (k == id && id != "" && |known| < 1_024)
  {
  }

  /** Reporting the same outcome again succeeds and stores nothing; reporting another one fails and stores nothing. */
  lemma OutcomeIsIdempotent(s: System, id: OpId, actor: string, base: string, action: string, target: string,
                            detail: string,
                            now: Time, action': string, detail': string, now': Time)
    requires CompletedAs(s, id, actor, base, action, target, detail, now).1
    ensures var t := CompletedAs(s, id, actor, base, action, target, detail, now).0;
            var again := CompletedAs(t, id, actor, base, action', target, detail', now');
            again.0 == t && (again.1 <==> action' == action && detail' == detail)
  {
  }
}
