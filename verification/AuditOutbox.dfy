/**
  The audit outbox: events are stored in a table, and any number of processes publish them to the
  audit log and mark them delivered.

  A database statement and a log append are one step each.  A step that fails may have taken
  effect, and a process may die between any two steps.
*/
module AuditOutbox {
  import opened Optional

  const BATCH_LIMIT := 32
  const PRUNE_LIMIT := 500
  const RETENTION := 90 * 24 * 3600

  type Pid = nat
  type EventId = nat
  type Time = int

  datatype Event = Event(actor: string, action: string, target: string, detail: string)
  datatype Row = Row(event: Event, deliveredAt: Option<Time>, attempts: nat)

  /** A published event, with the id of the row it was published from. */
  datatype Entry = Entry(id: EventId, event: Event)

  datatype Flusher =
    | Idle
    | Sending(batch: seq<Entry>)   // batch[0] is about to be published
    | Sent(batch: seq<Entry>)      // batch[0] is published and not yet marked

  /** `persisted` remembers every event ever stored, pruned or not. */
  datatype System = System(
    rows: map<EventId, Row>,
    nextId: EventId,
    persisted: map<EventId, Event>,
    log: seq<Entry>,
    flushers: map<Pid, Flusher>)

  const Empty := System(map[], 1, map[], [], map[])

  function FlusherOf(s: System, p: Pid): Flusher {
    if p in s.flushers then s.flushers[p] else Idle
  }

  predicate Undelivered(s: System, id: EventId) {
    id in s.rows && s.rows[id].deliveredAt.None?
  }

  /** The ids of `batch`, in increasing order. */
  predicate Ordered(batch: seq<Entry>) {
    forall i, j | 0 <= i < j < |batch| :: batch[i].id < batch[j].id
  }

  predicate Lists(batch: seq<Entry>, id: EventId) {
    exists i | 0 <= i < |batch| :: batch[i].id == id
  }

  /** `batch` is the first BATCH_LIMIT undelivered rows by id. */
  predicate IsBatch(s: System, batch: seq<Entry>) {
    && |batch| <= BATCH_LIMIT && Ordered(batch)
    && (forall i | 0 <= i < |batch| :: Undelivered(s, batch[i].id) && s.rows[batch[i].id].event == batch[i].event)
    && (forall id | id in s.rows && Undelivered(s, id) ::
          Lists(batch, id) || (|batch| == BATCH_LIMIT && batch[|batch| - 1].id < id))
  }

  datatype Action =
    | Persist(e: Event)
    | Prune(p: Pid, now: Time, ids: set<EventId>)
    | ReadBatch(p: Pid, batch: seq<Entry>)
    | Publish(p: Pid)
    | PublishFailed(p: Pid, written: bool)
    | Mark(p: Pid, now: Time)
    | MarkFailed(p: Pid, now: Time, written: bool)
    | Crash(p: Pid)

  predicate Prunable(s: System, now: Time, id: EventId) {
    id in s.rows && s.rows[id].deliveredAt.Some? && s.rows[id].deliveredAt.value < now - RETENTION
  }

  /** Delivered earlier, or at the same time and with a smaller id. */
  predicate DeliveredBefore(s: System, x: EventId, y: EventId)
    requires x in s.rows && y in s.rows && s.rows[x].deliveredAt.Some? && s.rows[y].deliveredAt.Some?
  {
    var t, u := s.rows[x].deliveredAt.value, s.rows[y].deliveredAt.value;
    t < u || (t == u && x < y)
  }

  /** `ids` is the first PRUNE_LIMIT of the expired rows, by delivery. */
  predicate IsPruning(s: System, now: Time, ids: set<EventId>) {
    && |ids| <= PRUNE_LIMIT && (forall id | id in ids :: Prunable(s, now, id))
    && (forall id | id in s.rows && Prunable(s, now, id) && id !in ids ::
          |ids| == PRUNE_LIMIT && forall x | x in ids :: DeliveredBefore(s, x, id))
  }

  predicate Enabled(s: System, a: Action) {
    match a
    case Persist(e) => e.actor != "" && e.action != ""
    case Prune(p, now, ids) => FlusherOf(s, p).Idle? && IsPruning(s, now, ids)
    case ReadBatch(p, batch) => FlusherOf(s, p).Idle? && IsBatch(s, batch)
    case Publish(p) => FlusherOf(s, p).Sending?
    case PublishFailed(p, _) => FlusherOf(s, p).Sending?
    case Mark(p, _) => FlusherOf(s, p).Sent?
    case MarkFailed(p, _, _) => FlusherOf(s, p).Sent?
    case Crash(_) => true
  }

  function Become(s: System, p: Pid, f: Flusher): System {
    s.(flushers := s.flushers[p := f])
  }

  function Proceed(batch: seq<Entry>): Flusher {
    if batch == [] then Idle else Sending(batch)
  }

  function Insert(s: System, e: Event): System {
    s.(rows := s.rows[s.nextId := Row(e, None, 0)], persisted := s.persisted[s.nextId := e], nextId := s.nextId + 1)
  }

  function Marked(s: System, id: EventId, now: Time): System {
    if Undelivered(s, id) then s.(rows := s.rows[id := s.rows[id].(deliveredAt := Some(now))]) else s
  }

  function Attempted(s: System, id: EventId): System {
    if Undelivered(s, id) then s.(rows := s.rows[id := s.rows[id].(attempts := s.rows[id].attempts + 1)]) else s
  }

  function Append(s: System, e: Entry): System {
    s.(log := s.log + [e])
  }

  predicate FlushersOk(s: System) {
    forall p | p in s.flushers :: !s.flushers[p].Idle? ==> s.flushers[p].batch != []
  }

  function Apply(s: System, a: Action): System
    requires Enabled(s, a) && FlushersOk(s)
  {
    match a
    case Persist(e) => Insert(s, e)
    case Prune(p, now, ids) => s.(rows := s.rows - ids)
    case ReadBatch(p, batch) => Become(s, p, Proceed(batch))
    case Publish(p) =>
      var batch := FlusherOf(s, p).batch;
      Become(Append(s, batch[0]), p, Sent(batch))
    case PublishFailed(p, written) =>
      var batch := FlusherOf(s, p).batch;
      Become(Attempted(if written then Append(s, batch[0]) else s, batch[0].id), p, Idle)
    case Mark(p, now) =>
      var batch := FlusherOf(s, p).batch;
      Become(Marked(s, batch[0].id, now), p, Proceed(batch[1..]))
    case MarkFailed(p, now, written) =>
      Become(if written then Marked(s, FlusherOf(s, p).batch[0].id, now) else s, p, Idle)
    case Crash(p) => s.(flushers := s.flushers - {p})
  }

  // ---------------------------------------------------------------------------------------
  // The invariant
  // ---------------------------------------------------------------------------------------

  /** The event with this id is among the first `n` log entries. */
  predicate PublishedBefore(log: seq<Entry>, n: nat, id: EventId) {
    exists i | 0 <= i < n && i < |log| :: log[i].id == id
  }

  predicate Published(s: System, id: EventId) {
    PublishedBefore(s.log, |s.log|, id)
  }

  predicate Known(s: System, e: Entry) {
    e.id in s.persisted && s.persisted[e.id] == e.event
  }

  predicate RowsOk(s: System) {
    && (forall id | id in s.persisted :: id < s.nextId)
    && (forall id | id in s.rows :: Known(s, Entry(id, s.rows[id].event)))
    && (forall id | id in s.persisted :: Undelivered(s, id) || Published(s, id))
  }

  /** Whatever is published, everything stored before it was published earlier. */
  predicate LogOk(s: System) {
    && (forall i | 0 <= i < |s.log| :: Known(s, s.log[i]))
    && (forall i, id | 0 <= i < |s.log| && id in s.persisted && id < s.log[i].id :: PublishedBefore(s.log, i, id))
  }

  predicate Covered(s: System, batch: seq<Entry>, id: EventId) {
    Published(s, id) || Lists(batch, id)
  }

  /** A batch being sent skips only events that are published already. */
  predicate BatchOk(s: System, batch: seq<Entry>) {
    && batch != [] && Ordered(batch)
    && (forall i | 0 <= i < |batch| :: Known(s, batch[i]))
    && (forall id | id in s.persisted && id <= batch[|batch| - 1].id :: Covered(s, batch, id))
  }

  predicate FlusherOk(s: System, f: Flusher) {
    match f
    case Idle => true
    case Sending(batch) => BatchOk(s, batch)
    case Sent(batch) => BatchOk(s, batch) && Published(s, batch[0].id)
  }

  predicate Inv(s: System) {
    && RowsOk(s) && LogOk(s)
    && forall p | p in s.flushers :: FlusherOk(s, s.flushers[p])
  }

  /** `t` has stored and published at least what `s` has; delivered and pruned rows stay so. */
  ghost predicate Extends(s: System, t: System) {
    && (forall id | Undelivered(t, id) && id in s.persisted :: Undelivered(s, id))
    && (forall id | id in t.rows && id in s.persisted :: id in s.rows)
    && (forall id | id in s.persisted :: id in t.persisted && t.persisted[id] == s.persisted[id])
    && (forall id | id in t.persisted && id !in s.persisted :: id >= s.nextId)
    && s.log <= t.log && s.nextId <= t.nextId
  }

  lemma ExtensionKeepsPublished(s: System, t: System, id: EventId)
    requires s.log <= t.log && Published(s, id)
    ensures Published(t, id)
  {
    var i :| 0 <= i < |s.log| && s.log[i].id == id;
    assert t.log[i] == s.log[i];
  }

  lemma ExtensionKeepsFlusher(s: System, t: System, f: Flusher)
    requires RowsOk(s) && Extends(s, t) && FlusherOk(s, f)
    ensures FlusherOk(t, f)
  {
    if !f.Idle? {
      forall i | 0 <= i < |f.batch| ensures Known(t, f.batch[i]) {
        assert Known(s, f.batch[i]);
      }
      var last := f.batch[|f.batch| - 1].id;
      forall id | id in t.persisted && id <= last ensures Covered(t, f.batch, id) {
        assert Known(s, f.batch[|f.batch| - 1]);
        assert Covered(s, f.batch, id);
        if Published(s, id) { ExtensionKeepsPublished(s, t, id); }
      }
      if f.Sent? { ExtensionKeepsPublished(s, t, f.batch[0].id); }
    }
  }

  /** A step keeps the invariant when it extends the system and leaves one process in order. */
  lemma FlushersKept(s: System, t: System, p: Pid)
    requires Inv(s) && Extends(s, t) && RowsOk(t) && LogOk(t)
    requires forall q | q in t.flushers && q != p :: q in s.flushers && t.flushers[q] == s.flushers[q]
    requires FlusherOk(t, FlusherOf(t, p))
    ensures Inv(t)
  {
    forall q | q in t.flushers ensures FlusherOk(t, t.flushers[q]) {
      if q != p { ExtensionKeepsFlusher(s, t, s.flushers[q]); }
    }
  }

  lemma InsertKeepsInv(s: System, e: Event)
    requires Inv(s)
    ensures Inv(Insert(s, e)) && Extends(s, Insert(s, e))
  {
    var t := Insert(s, e);
    assert s.nextId !in s.persisted;
    forall p | p in t.flushers ensures FlusherOk(t, t.flushers[p]) {
      ExtensionKeepsFlusher(s, t, s.flushers[p]);
    }
    forall id | id in t.persisted ensures Undelivered(t, id) || Published(t, id) {
      assert id != s.nextId ==> Undelivered(s, id) || Published(s, id);
    }
    forall i | 0 <= i < |t.log| ensures Known(t, t.log[i]) {
      assert Known(s, s.log[i]);
    }
  }

  /** Publishing the head of a sound batch keeps the log in order. */
  lemma AppendKeepsLog(s: System, batch: seq<Entry>)
    requires RowsOk(s) && LogOk(s) && BatchOk(s, batch)
    ensures var t := Append(s, batch[0]);
            Extends(s, t) && RowsOk(t) && LogOk(t) && BatchOk(t, batch) && Published(t, batch[0].id)
  {
    var t := Append(s, batch[0]);
    forall id | Published(s, id) ensures Published(t, id) {
      ExtensionKeepsPublished(s, t, id);
    }
    assert t.log[|s.log|] == batch[0];
    forall i, id | 0 <= i < |t.log| && id in t.persisted && id < t.log[i].id ensures PublishedBefore(t.log, i, id) {
      if i == |s.log| {
        assert Covered(s, batch, id);
        assert !Lists(batch, id);
      }
      PrefixPublished(s.log, batch[0], i, id);
    }
  }

  lemma PrefixPublished(log: seq<Entry>, e: Entry, n: nat, id: EventId)
    requires n <= |log| && PublishedBefore(log, n, id)
    ensures PublishedBefore(log + [e], n, id)
  {
    var k :| 0 <= k < n && log[k].id == id;
    assert (log + [e])[k].id == id;
  }

  /** The batch read from the table skips only published events. */
  lemma BatchIsSound(s: System, batch: seq<Entry>)
    requires RowsOk(s) && IsBatch(s, batch) && batch != []
    ensures BatchOk(s, batch)
  {
    forall i | 0 <= i < |batch| ensures Known(s, batch[i]) {
      assert Undelivered(s, batch[i].id);
      assert Known(s, Entry(batch[i].id, s.rows[batch[i].id].event));
    }
    forall id | id in s.persisted && id <= batch[|batch| - 1].id ensures Covered(s, batch, id) {
      assert Undelivered(s, id) || Published(s, id);
    }
  }

  lemma TailIsSound(s: System, batch: seq<Entry>)
    requires BatchOk(s, batch) && Published(s, batch[0].id)
    ensures FlusherOk(s, Proceed(batch[1..]))
  {
    var tail := batch[1..];
    if tail != [] {
      forall id | id in s.persisted && id <= tail[|tail| - 1].id ensures Covered(s, tail, id) {
        assert Covered(s, batch, id);
        if !Published(s, id) {
          var i :| 0 <= i < |batch| && batch[i].id == id;
          assert tail[i - 1].id == id;
        }
      }
    }
  }

  /** Changing the delivery columns of a row, or removing delivered rows, keeps the tables in order. */
  lemma RowsKept(s: System, t: System)
    requires RowsOk(s) && LogOk(s)
    requires t.persisted == s.persisted && t.nextId == s.nextId && t.log == s.log
    requires forall id | id in t.rows :: id in s.rows && t.rows[id].event == s.rows[id].event
    requires forall id | Undelivered(s, id) :: Undelivered(t, id) || Published(s, id)
    requires forall id | Undelivered(t, id) :: Undelivered(s, id)
    ensures RowsOk(t) && LogOk(t) && Extends(s, t)
  {
    forall id | id in t.rows ensures Known(t, Entry(id, t.rows[id].event)) {
      assert Known(s, Entry(id, s.rows[id].event));
    }
    forall i | 0 <= i < |t.log| ensures Known(t, t.log[i]) {
      assert Known(s, s.log[i]);
    }
    assert forall id :: Published(t, id) == Published(s, id);
    forall i, id | 0 <= i < |t.log| && id in t.persisted && id < t.log[i].id ensures PublishedBefore(t.log, i, id) {
      assert PublishedBefore(s.log, i, id);
    }
  }

  lemma InvGivesFlushersOk(s: System)
    requires Inv(s)
    ensures FlushersOk(s)
  {
    forall p | p in s.flushers && !s.flushers[p].Idle? ensures s.flushers[p].batch != [] {
      assert FlusherOk(s, s.flushers[p]);
    }
  }

  lemma StepKeepsInv(s: System, a: Action)
    requires Inv(s) && Enabled(s, a)
    ensures FlushersOk(s) && Inv(Apply(s, a)) && Extends(s, Apply(s, a))
  {
    InvGivesFlushersOk(s);
    match a {
      case Persist(e) => InsertKeepsInv(s, e);
      case Prune(p, now, ids) =>
        RemovalKeepsInv(s, Apply(s, a), p);
      case ReadBatch(p, batch) => ReadKeepsInv(s, p, batch);
      case Publish(p) => PublishKeepsInv(s, p);
      case PublishFailed(p, written) => PublishFailedKeepsInv(s, p, written);
      case Mark(p, now) => MarkKeepsInv(s, p, now);
      case MarkFailed(p, now, written) => MarkFailedKeepsInv(s, p, now, written);
      case Crash(p) =>
        RemovalKeepsInv(s, Apply(s, a), p);
    }
  }

  lemma ReadKeepsInv(s: System, p: Pid, batch: seq<Entry>)
    requires Inv(s) && IsBatch(s, batch)
    ensures Inv(Become(s, p, Proceed(batch))) && Extends(s, Become(s, p, Proceed(batch)))
  {
    if batch != [] { BatchIsSound(s, batch); }
    BecomeKeepsInv(s, s, p, Proceed(batch));
  }

  lemma PublishKeepsInv(s: System, p: Pid)
    requires Inv(s) && FlushersOk(s) && FlusherOf(s, p).Sending?
    ensures Inv(Apply(s, Publish(p))) && Extends(s, Apply(s, Publish(p)))
  {
    var batch := FlusherOf(s, p).batch;
    AppendKeepsLog(s, batch);
    BecomeKeepsInv(s, Append(s, batch[0]), p, Sent(batch));
  }

  lemma MarkFailedKeepsInv(s: System, p: Pid, now: Time, written: bool)
    requires Inv(s) && FlushersOk(s) && FlusherOf(s, p).Sent?
    ensures Inv(Apply(s, MarkFailed(p, now, written))) && Extends(s, Apply(s, MarkFailed(p, now, written)))
  {
    var id := FlusherOf(s, p).batch[0].id;
    if written {
      MarkedKeepsRows(s, id, now);
      BecomeKeepsInv(s, Marked(s, id, now), p, Idle);
    } else {
      BecomeKeepsInv(s, s, p, Idle);
    }
  }

  lemma BecomeKeepsInv(s: System, t: System, p: Pid, f: Flusher)
    requires Inv(s) && Extends(s, t) && RowsOk(t) && LogOk(t) && t.flushers == s.flushers && FlusherOk(t, f)
    ensures Inv(Become(t, p, f)) && Extends(s, Become(t, p, f))
  {
    var u := Become(t, p, f);
    RowsKept(t, u);
    ExtensionKeepsFlusher(t, u, f);
    FlushersKept(s, u, p);
  }

  lemma AttemptKeepsInv(s: System, t: System, p: Pid, id: EventId)
    requires Inv(s) && Extends(s, t) && RowsOk(t) && LogOk(t) && t.flushers == s.flushers
    ensures var u := Become(Attempted(t, id), p, Idle); Inv(u) && Extends(s, u)
  {
    RowsKept(t, Attempted(t, id));
    ExtendsTransitively(s, t, Attempted(t, id));
    BecomeKeepsInv(s, Attempted(t, id), p, Idle);
  }

  lemma LateFailureKeepsInv(s: System, p: Pid, batch: seq<Entry>)
    requires Inv(s) && BatchOk(s, batch)
    ensures var u := Become(Attempted(Append(s, batch[0]), batch[0].id), p, Idle); Inv(u) && Extends(s, u)
  {
    AppendKeepsLog(s, batch);
    AttemptKeepsInv(s, Append(s, batch[0]), p, batch[0].id);
  }

  lemma PublishFailedKeepsInv(s: System, p: Pid, written: bool)
    requires Inv(s) && FlushersOk(s) && FlusherOf(s, p).Sending?
    ensures Inv(Apply(s, PublishFailed(p, written))) && Extends(s, Apply(s, PublishFailed(p, written)))
  {
    var batch := FlusherOf(s, p).batch;
    if written {
      LateFailureKeepsInv(s, p, batch);
    } else {
      AttemptKeepsInv(s, s, p, batch[0].id);
    }
  }

  lemma MarkedKeepsRows(s: System, id: EventId, now: Time)
    requires RowsOk(s) && LogOk(s) && Published(s, id)
    ensures var t := Marked(s, id, now); RowsOk(t) && LogOk(t) && Extends(s, t)
  {
    RowsKept(s, Marked(s, id, now));
  }

  lemma MarkKeepsInv(s: System, p: Pid, now: Time)
    requires Inv(s) && FlushersOk(s) && FlusherOf(s, p).Sent?
    ensures Inv(Apply(s, Mark(p, now))) && Extends(s, Apply(s, Mark(p, now)))
  {
    var batch := FlusherOf(s, p).batch;
    var t := Marked(s, batch[0].id, now);
    MarkedKeepsRows(s, batch[0].id, now);
    ExtensionKeepsFlusher(s, t, Sent(batch));
    TailIsSound(t, batch);
    BecomeKeepsInv(s, t, p, Proceed(batch[1..]));
  }

  lemma RemovalKeepsInv(s: System, t: System, p: Pid)
    requires Inv(s) && t.persisted == s.persisted && t.nextId == s.nextId && t.log == s.log
    requires forall id | id in t.rows :: id in s.rows && t.rows[id] == s.rows[id]
    requires forall id | Undelivered(s, id) :: Undelivered(t, id)
    requires t.flushers == s.flushers || t.flushers == s.flushers - {p}
    ensures Inv(t) && Extends(s, t)
  {
    RowsKept(s, t);
    FlushersOfKept(s, t);
  }

  lemma FlushersOfKept(s: System, t: System)
    requires Inv(s) && Extends(s, t) && RowsOk(t) && LogOk(t)
    requires forall q | q in t.flushers :: q in s.flushers && t.flushers[q] == s.flushers[q]
    ensures Inv(t)
  {
    forall q | q in t.flushers ensures FlusherOk(t, t.flushers[q]) {
      ExtensionKeepsFlusher(s, t, s.flushers[q]);
    }
  }

  /** What a step does to the row of an event. */
  lemma RowAfter(s: System, a: Action, id: EventId)
    requires Inv(s) && Enabled(s, a)
    ensures FlushersOk(s)
    ensures var t := Apply(s, a);
            match a
            case Persist(e) =>
              if id == s.nextId then Undelivered(t, id) && t.rows[id].event == e && id !in s.persisted
              else SameRow(s, t, id)
            case Prune(_, _, ids) => if id in ids then id !in t.rows else SameRow(s, t, id)
            case PublishFailed(p, _) =>
              if id == FlusherOf(s, p).batch[0].id && Undelivered(s, id) then
                Undelivered(t, id) && t.rows[id] == s.rows[id].(attempts := s.rows[id].attempts + 1)
              else
                SameRow(s, t, id)
            case Mark(p, now) => MarkedRow(s, t, FlusherOf(s, p).batch[0].id, id, now)
            case MarkFailed(p, now, written) =>
              if written then MarkedRow(s, t, FlusherOf(s, p).batch[0].id, id, now) else SameRow(s, t, id)
            case _ => SameRow(s, t, id)
  {
    InvGivesFlushersOk(s);
  }

  ghost predicate SameRow(s: System, t: System, id: EventId) {
    (id in t.rows <==> id in s.rows) && (id in s.rows ==> t.rows[id] == s.rows[id])
  }

  /** The head of the batch is delivered; when it already was, nothing about it changes. */
  ghost predicate MarkedRow(s: System, t: System, head: EventId, id: EventId, now: Time) {
    if id == head && Undelivered(s, id) then
      id in t.rows && t.rows[id] == s.rows[id].(deliveredAt := Some(now))
    else
      SameRow(s, t, id)
  }

  // ---------------------------------------------------------------------------------------
  // Runs
  // ---------------------------------------------------------------------------------------

  /** `s` reached `t` by some run. */
  ghost predicate Steps(s: System, actions: seq<Action>, t: System)
    decreases |actions|
  {
    if actions == [] then s == t
    else Enabled(s, actions[0]) && FlushersOk(s) && Steps(Apply(s, actions[0]), actions[1..], t)
  }

  lemma {:induction false} RunKeepsInv(s: System, actions: seq<Action>, t: System)
    requires Inv(s) && Steps(s, actions, t)
    ensures Inv(t) && Extends(s, t)
    decreases |actions|
  {
    if actions != [] {
      var next := Apply(s, actions[0]);
      StepKeepsInv(s, actions[0]);
      assert Inv(next) && Extends(s, next);
      RunKeepsInv(next, actions[1..], t);
      ExtendsTransitively(s, next, t);
    }
  }

  lemma ExtendsTransitively(s: System, t: System, u: System)
    requires Extends(s, t) && Extends(t, u)
    ensures Extends(s, u)
  {
  }

  // ---------------------------------------------------------------------------------------
  // What holds in every reachable state
  // ---------------------------------------------------------------------------------------

  /** Every event ever stored waits in the table or stands in the log, with the content it was stored with. */
  lemma NothingLost(actions: seq<Action>, t: System, id: EventId)
    requires Steps(Empty, actions, t) && id in t.persisted
    ensures (Undelivered(t, id) && t.rows[id].event == t.persisted[id])
            || exists i | 0 <= i < |t.log| :: t.log[i] == Entry(id, t.persisted[id])
  {
    RunKeepsInv(Empty, actions, t);
    if Undelivered(t, id) {
      assert Known(t, Entry(id, t.rows[id].event));
    } else {
      assert Published(t, id);
      var i :| 0 <= i < |t.log| && t.log[i].id == id;
      assert Known(t, t.log[i]);
    }
  }

  /** A row that pruning removes has been published. */
  lemma PrunedOnlyAfterPublication(actions: seq<Action>, t: System, a: Action, id: EventId)
    requires Steps(Empty, actions, t) && a.Prune? && Enabled(t, a) && id in a.ids
    ensures Published(t, id)
  {
    RunKeepsInv(Empty, actions, t);
    assert Prunable(t, a.now, id);
    assert Known(t, Entry(id, t.rows[id].event));
  }

  predicate FirstAt(log: seq<Entry>, i: nat) {
    i < |log| && !PublishedBefore(log, i, log[i].id)
  }

  /** First publications follow the order in which the events were stored. */
  lemma FirstPublicationsInOrder(actions: seq<Action>, t: System, i: nat, j: nat)
    requires Steps(Empty, actions, t) && i < j && FirstAt(t.log, i) && FirstAt(t.log, j)
    ensures t.log[i].id < t.log[j].id
  {
    RunKeepsInv(Empty, actions, t);
    assert Known(t, t.log[j]);
    if t.log[j].id < t.log[i].id {
      Earlier(t.log, i, j, t.log[j].id);
    } else if t.log[j].id == t.log[i].id {
      assert false;
    }
  }

  lemma Earlier(log: seq<Entry>, i: nat, j: nat, id: EventId)
    requires i <= j && PublishedBefore(log, i, id)
    ensures PublishedBefore(log, j, id)
  {
  }
}
