/** `flush` as one process executes it, while its peers store, publish, mark and prune. */
module AuditFlusher {
  import opened Optional
  import opened Sets
  import opened AuditOutbox

  predicate ByOther(a: Action, me: Pid) {
    a.Persist? || a.p != me
  }

  /** The database and the log, shared by all processes. */
  class Shared {
    var s: System

    constructor ()
      ensures s == Empty
    {
      s := Empty;
    }

    method Do(a: Action)
      requires Inv(s) && Enabled(s, a)
      modifies this
      ensures FlushersOk(old(s)) && s == Apply(old(s), a)
      ensures Inv(s) && Extends(old(s), s)
    {
      StepKeepsInv(s, a);
      s := Apply(s, a);
    }

    /** Any number of steps of other processes. */
    method Others(me: Pid)
      requires Inv(s)
      modifies this
      ensures Inv(s) && Extends(old(s), s) && FlusherOf(s, me) == FlusherOf(old(s), me)
    {
      var steps: int := *;
      while steps > 0
        invariant Inv(s) && Extends(old(s), s) && FlusherOf(s, me) == FlusherOf(old(s), me)
      {
        var a: Action := *;
        if ByOther(a, me) && Enabled(s, a) {
          ghost var before := s;
          Do(a);
          ExtendsTransitively(old(s), before, s);
          OtherKeepsMine(before, a, me);
        }
        steps := steps - 1;
      }
    }
  }

  lemma OtherKeepsMine(s: System, a: Action, me: Pid)
    requires Enabled(s, a) && FlushersOk(s) && ByOther(a, me)
    ensures FlusherOf(Apply(s, a), me) == FlusherOf(s, me)
  {
  }

  /** `batch` lists, in order, the undelivered rows outside `rest`, all of which come later. */
  ghost predicate Selected(s: System, batch: seq<Entry>, rest: set<EventId>) {
    && Ordered(batch)
    && (forall i | 0 <= i < |batch| :: Undelivered(s, batch[i].id) && s.rows[batch[i].id].event == batch[i].event)
    && (forall id | id in rest :: Undelivered(s, id))
    && (forall id | id in s.rows && Undelivered(s, id) :: id in rest || Lists(batch, id))
    && (forall i, id | 0 <= i < |batch| && id in rest :: batch[i].id < id)
  }

  lemma SelectNext(s: System, batch: seq<Entry>, rest: set<EventId>, id: EventId)
    requires Selected(s, batch, rest) && id in rest && forall other | other in rest :: id <= other
    ensures Undelivered(s, id) && Selected(s, batch + [Entry(id, s.rows[id].event)], rest - {id})
  {
    var next := batch + [Entry(id, s.rows[id].event)];
    forall x | x in s.rows && Undelivered(s, x) ensures x in rest - {id} || Lists(next, x) {
      if x == id {
        assert next[|batch|].id == x;
      } else if x !in rest {
        var i :| 0 <= i < |batch| && batch[i].id == x;
        assert next[i].id == x;
      }
    }
  }

  method Least(ids: set<EventId>) returns (least: EventId)
    requires ids != {}
    ensures least in ids && forall id | id in ids :: least <= id
  {
    least :| least in ids;
    var todo := ids - {least};
    while todo != {}
      invariant todo <= ids && least in ids
      invariant forall id | id in ids && id !in todo :: least <= id
      decreases |todo|
    {
      var id :| id in todo;
      if id < least {
        least := id;
      }
      todo := todo - {id};
    }
  }

  /** The first BATCH_LIMIT undelivered rows by id. */
  method SelectBatch(s: System) returns (batch: seq<Entry>)
    ensures IsBatch(s, batch)
  {
    batch := [];
    var rest := set id | id in s.rows && Undelivered(s, id);
    while rest != {} && |batch| < BATCH_LIMIT
      invariant |batch| <= BATCH_LIMIT && Selected(s, batch, rest)
      decreases |rest|
    {
      var id := Least(rest);
      SelectNext(s, batch, rest, id);
      batch := batch + [Entry(id, s.rows[id].event)];
      rest := rest - {id};
    }
  }

  /** `ids` are the first prunable rows by delivery outside `rest`, all of which come later. */
  ghost predicate Pruning(s: System, now: Time, ids: set<EventId>, rest: set<EventId>) {
    && (forall id | id in ids :: Prunable(s, now, id)) && (forall id | id in rest :: Prunable(s, now, id))
    && (forall id | id in s.rows && Prunable(s, now, id) :: id in ids || id in rest)
    && (forall x, y | x in ids && y in rest :: DeliveredBefore(s, x, y))
  }

  method FirstDelivered(s: System, ids: set<EventId>) returns (first: EventId)
    requires ids != {} && forall id | id in ids :: id in s.rows && s.rows[id].deliveredAt.Some?
    ensures first in ids && forall id | id in ids && id != first :: DeliveredBefore(s, first, id)
  {
    first :| first in ids;
    var todo := ids - {first};
    while todo != {}
      invariant todo <= ids && first in ids
      invariant forall id | id in ids && id !in todo && id != first :: DeliveredBefore(s, first, id)
      decreases |todo|
    {
      var id :| id in todo;
      if DeliveredBefore(s, id, first) {
        first := id;
      }
      todo := todo - {id};
    }
  }

  /** The rows `pruneDelivered` deletes: expired ones, the earliest delivered first. */
  method SelectPruning(s: System, now: Time) returns (ids: set<EventId>)
    ensures IsPruning(s, now, ids)
  {
    ids := {};
    var rest := set id | id in s.rows && Prunable(s, now, id);
    while rest != {} && |ids| < PRUNE_LIMIT
      invariant |ids| <= PRUNE_LIMIT && Pruning(s, now, ids, rest)
      decreases |rest|
    {
      var id := FirstDelivered(s, rest);
      ids := ids + {id};
      rest := rest - {id};
    }
  }

  /** What a flush meets while it sends one entry. */
  datatype Trouble = Nothing | PublishError(written: bool) | MarkError(written: bool)

  /** The first `n` entries meet no trouble. */
  predicate Smooth(troubles: nat -> Trouble, n: nat) {
    forall i: nat | i < n :: troubles(i).Nothing?
  }

  lemma SmoothNext(troubles: nat -> Trouble, n: nat)
    requires Smooth(troubles, n) && troubles(n).Nothing?
    ensures Smooth(troubles, n + 1)
  {
  }

  /**
    Everything stored when the batch was read, up to its last entry, is published and delivered;
    without a full batch, everything.
  */
  ghost predicate Caught(read: System, batch: seq<Entry>, now: System) {
    forall id | id in read.persisted && (|batch| < BATCH_LIMIT || id <= batch[|batch| - 1].id) ::
      Published(now, id) && !Undelivered(now, id)
  }

  lemma BatchCatchesUp(read: System, batch: seq<Entry>, now: System)
    requires RowsOk(read) && IsBatch(read, batch) && Extends(read, now)
    requires forall i | 0 <= i < |batch| :: Published(now, batch[i].id) && !Undelivered(now, batch[i].id)
    ensures Caught(read, batch, now)
  {
    forall id | id in read.persisted && (|batch| < BATCH_LIMIT || id <= batch[|batch| - 1].id)
      ensures Published(now, id) && !Undelivered(now, id)
    {
      if Undelivered(read, id) {
        assert Lists(batch, id);
      } else {
        ExtensionKeepsPublished(read, now, id);
      }
    }
  }

  /** The rows that wait to be delivered. */
  ghost function Backlog(s: System): set<EventId> {
    set id | id in s.rows && Undelivered(s, id)
  }

  lemma TakenFromBacklog(read: System, batch: seq<Entry>, now: System)
    requires RowsOk(read) && IsBatch(read, batch) && Caught(read, batch, now)
    ensures IdsOf(batch) <= Backlog(read) && IdsOf(batch) !! Backlog(now)
    ensures |batch| < BATCH_LIMIT ==> IdsOf(batch) == Backlog(read)
  {
    forall id | id in IdsOf(batch) ensures id in Backlog(read) && id !in Backlog(now) {
      var i :| 0 <= i < |batch| && batch[i].id == id;
      assert Undelivered(read, id) && Known(read, Entry(id, read.rows[id].event));
    }
  }

  /** A flush that works takes a full batch, or all there is, from the backlog it found. */
  lemma BacklogShrinks(read: System, batch: seq<Entry>, now: System)
    requires RowsOk(read) && IsBatch(read, batch) && Caught(read, batch, now)
    ensures |batch| == if |Backlog(read)| < 32 then |Backlog(read)| else 32
    ensures |Backlog(read) * Backlog(now)| <= |Backlog(read)| - |batch|
  {
    TakenFromBacklog(read, batch, now);
    CountIds(batch);
    Disjointly(Backlog(read), Backlog(now), IdsOf(batch));
  }

  lemma Disjointly(a: set<EventId>, b: set<EventId>, taken: set<EventId>)
    requires taken <= a && taken !! b
    ensures |a * b| <= |a| - |taken| && |taken| <= |a|
  {
    SubsetSize(taken, a);
    SubsetSize(a * b, a - taken);
  }

  ghost function IdsOf(batch: seq<Entry>): set<EventId> {
    set i | 0 <= i < |batch| :: batch[i].id
  }

  lemma {:induction false} CountIds(batch: seq<Entry>)
    requires Ordered(batch)
    ensures |IdsOf(batch)| == |batch|
    decreases |batch|
  {
    if batch != [] {
      var n := |batch| - 1;
      CountIds(batch[..n]);
      assert IdsOf(batch) == IdsOf(batch[..n]) + {batch[n].id};
      assert batch[n].id !in IdsOf(batch[..n]);
    } else {
      assert IdsOf(batch) == {};
    }
  }

  /** Publish and mark the head of the batch; false when the flush stops here. */
  method SendHead(db: Shared, me: Pid, batch: seq<Entry>, now: Time, trouble: Trouble) returns (ok: bool)
    requires Inv(db.s) && batch != [] && FlusherOf(db.s, me) == Sending(batch)
    modifies db
    ensures Inv(db.s) && Extends(old(db.s), db.s)
    ensures FlusherOf(db.s, me) == if ok then Proceed(batch[1..]) else Idle
    ensures ok <==> trouble.Nothing?
    ensures ok || trouble.MarkError? || (trouble.PublishError? && trouble.written) ==> Published(db.s, batch[0].id)
    ensures ok || (trouble.MarkError? && trouble.written) ==> !Undelivered(db.s, batch[0].id)
  {
    if trouble.PublishError? {
      db.Do(PublishFailed(me, trouble.written));
      assert trouble.written ==> db.s.log[|db.s.log| - 1] == batch[0];
      return false;
    }
    db.Do(Publish(me));
    ghost var sent := db.s;
    assert sent.log[|sent.log| - 1] == batch[0];
    assert Published(sent, batch[0].id);
    db.Others(me);
    ghost var before := db.s;
    ExtendsTransitively(old(db.s), sent, before);
    ok := MarkHead(db, me, batch, now, trouble);
    ExtendsTransitively(sent, before, db.s);
    ExtendsTransitively(old(db.s), before, db.s);
    ExtensionKeepsPublished(sent, db.s, batch[0].id);
  }

  method MarkHead(db: Shared, me: Pid, batch: seq<Entry>, now: Time, trouble: Trouble) returns (ok: bool)
    requires Inv(db.s) && batch != [] && FlusherOf(db.s, me) == Sent(batch)
    modifies db
    ensures Inv(db.s) && Extends(old(db.s), db.s)
    ensures FlusherOf(db.s, me) == if ok then Proceed(batch[1..]) else Idle
    ensures ok <==> !trouble.MarkError?
    ensures ok || trouble.written ==> !Undelivered(db.s, batch[0].id)
  {
    if trouble.MarkError? {
      RowAfter(db.s, MarkFailed(me, now, trouble.written), batch[0].id);
      db.Do(MarkFailed(me, now, trouble.written));
      return false;
    }
    RowAfter(db.s, Mark(me, now), batch[0].id);
    db.Do(Mark(me, now));
    ok := true;
  }

  /** `flush`: prune, read a batch, publish and mark it entry by entry. */
  method Flush(db: Shared, me: Pid, now: Time, troubles: nat -> Trouble, pruned: bool)
    returns (ok: bool, batch: seq<Entry>, gone: set<EventId>, ghost found: System, ghost read: System)
    requires Inv(db.s) && FlusherOf(db.s, me) == Idle
    modifies db
    ensures Inv(db.s) && Extends(old(db.s), db.s) && FlusherOf(db.s, me) == Idle
    ensures Extends(old(db.s), found) && Extends(found, read) && Extends(read, db.s)
    ensures IsBatch(read, batch) && Cleaned(found, db.s, now, pruned, gone)
    ensures ok <==> Smooth(troubles, |batch|)
    ensures ok ==> Caught(read, batch, db.s) && |Backlog(read) * Backlog(db.s)| <= |Backlog(read)| - |batch|
  {
    found, gone := Prepare(db, me, now, pruned);
    read := db.s;
    batch := SelectBatch(db.s);
    assert RowsOk(read);
    db.Do(ReadBatch(me, batch));
    ok := SendBatch(db, me, read, batch, now, troubles);
    ExtendsTransitively(old(db.s), read, db.s);
    StaysCleaned(found, read, db.s, now, pruned, gone);
    if ok {
      BatchCatchesUp(read, batch, db.s);
      BacklogShrinks(read, batch, db.s);
    }
  }

  /** Publish and mark the batch entry by entry, up to the first failure. */
  method SendBatch(db: Shared, me: Pid, ghost read: System, batch: seq<Entry>, now: Time, troubles: nat -> Trouble)
    returns (ok: bool)
    requires Inv(db.s) && FlusherOf(db.s, me) == Proceed(batch)
    requires RowsOk(read) && IsBatch(read, batch) && Extends(read, db.s)
    modifies db
    ensures Inv(db.s) && Extends(read, db.s) && FlusherOf(db.s, me) == Idle
    ensures ok <==> Smooth(troubles, |batch|)
    ensures ok ==> FirstSentOff(read, db.s, batch, |batch|)
  {
    var i := 0;
    while i < |batch|
      invariant 0 <= i <= |batch| && Inv(db.s) && Extends(read, db.s)
      invariant FlusherOf(db.s, me) == Proceed(batch[i..])
      invariant Smooth(troubles, i)
      invariant FirstSentOff(read, db.s, batch, i)
    {
      ghost var before := db.s;
      var sent := SendNext(db, me, batch, i, now, troubles(i));
      ExtendsTransitively(read, before, db.s);
      if !sent {
        return false;
      }
      NextSentOff(read, before, db.s, batch, i);
      SmoothNext(troubles, i);
      i := i + 1;
    }
    ok := true;
  }

  /** Entry `i` of the batch, after any steps of other processes. */
  method SendNext(db: Shared, me: Pid, batch: seq<Entry>, i: nat, now: Time, trouble: Trouble) returns (ok: bool)
    requires Inv(db.s) && i < |batch| && FlusherOf(db.s, me) == Proceed(batch[i..])
    modifies db
    ensures Inv(db.s) && Extends(old(db.s), db.s)
    ensures FlusherOf(db.s, me) == if ok then Proceed(batch[i + 1..]) else Idle
    ensures ok <==> trouble.Nothing?
    ensures ok ==> Published(db.s, batch[i].id) && !Undelivered(db.s, batch[i].id)
  {
    db.Others(me);
    ghost var mid := db.s;
    assert batch[i..][1..] == batch[i + 1..];
    ok := SendHead(db, me, batch[i..], now, trouble);
    ExtendsTransitively(old(db.s), mid, db.s);
  }

  /** The first `n` entries of the batch are published and delivered. */
  ghost predicate FirstSentOff(read: System, s: System, batch: seq<Entry>, n: nat) {
    forall i | 0 <= i < n && i < |batch| ::
      batch[i].id in read.persisted && Published(s, batch[i].id) && !Undelivered(s, batch[i].id)
  }

  lemma NextSentOff(read: System, s: System, t: System, batch: seq<Entry>, n: nat)
    requires RowsOk(read) && IsBatch(read, batch) && Extends(read, s) && Extends(s, t) && n < |batch|
    requires FirstSentOff(read, s, batch, n) && Published(t, batch[n].id) && !Undelivered(t, batch[n].id)
    ensures FirstSentOff(read, t, batch, n + 1)
  {
    forall i | 0 <= i < n ensures Published(t, batch[i].id) {
      ExtensionKeepsPublished(s, t, batch[i].id);
    }
    assert Known(read, Entry(batch[n].id, read.rows[batch[n].id].event));
  }

  /** The part of a flush before the read: peers, and the pruning of old delivered rows, which may fail. */
  method Prepare(db: Shared, me: Pid, now: Time, pruned: bool) returns (ghost found: System, gone: set<EventId>)
    requires Inv(db.s) && FlusherOf(db.s, me) == Idle
    modifies db
    ensures Inv(db.s) && Extends(old(db.s), db.s) && FlusherOf(db.s, me) == Idle
    ensures Extends(old(db.s), found) && Extends(found, db.s) && Cleaned(found, db.s, now, pruned, gone)
  {
    db.Others(me);
    found, gone := db.s, {};
    if pruned {
      gone := SelectPruning(db.s, now);
      StoredRows(db.s, now, gone);
      db.Do(Prune(me, now, gone));
    }
    ghost var before := db.s;
    assert Cleaned(found, before, now, pruned, gone);
    db.Others(me);
    ExtendsTransitively(found, before, db.s);
    ExtendsTransitively(old(db.s), found, db.s);
    StaysCleaned(found, before, db.s, now, pruned, gone);
  }

  /**
    Of the rows found, those delivered more than 90 days ago are gone, up to 500 of them, the
    earliest delivered first.
  */
  ghost predicate Cleaned(found: System, s: System, now: Time, pruned: bool, gone: set<EventId>) {
    pruned ==>
      && IsPruning(found, now, gone) && gone !! s.rows.Keys && gone <= found.persisted.Keys
      && gone <= s.persisted.Keys
      && (|gone| < 500 ==>
            forall id | id in found.rows && found.rows[id].deliveredAt.Some?
              && found.rows[id].deliveredAt.value < now - 90 * 24 * 3600 :: id in gone)
  }

  lemma StaysCleaned(found: System, s: System, t: System, now: Time, pruned: bool, gone: set<EventId>)
    requires Cleaned(found, s, now, pruned, gone) && Extends(s, t)
    ensures Cleaned(found, t, now, pruned, gone)
  {
  }

  lemma StoredRows(s: System, now: Time, ids: set<EventId>)
    requires RowsOk(s) && IsPruning(s, now, ids)
    ensures ids <= s.persisted.Keys
  {
    forall id | id in ids ensures id in s.persisted {
      assert Prunable(s, now, id) && Known(s, Entry(id, s.rows[id].event));
    }
  }
}
