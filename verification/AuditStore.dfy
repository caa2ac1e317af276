/** The in-memory side of `auditOutboxStore`: the failed outcome writes and the unresolved count. */
module AuditStore {
  import opened Sets
  import opened SecurityAudit

  predicate PendingAt(ops: map<OpId, Op>, id: OpId) {
    id in ops && ops[id].state == Pending
  }

  /** The operations that need an operator. */
  function Unresolved(ops: map<OpId, Op>, failed: set<OpId>, now: Time): set<OpId> {
    set id | id in ops && PendingAt(ops, id) && (Stale(ops[id], now) || id in failed)
  }

  /** Pending for more than three hours, or pending and known here to have failed. */
  lemma UnresolvedExactly(ops: map<OpId, Op>, failed: set<OpId>, now: Time, id: OpId)
    ensures id in Unresolved(ops, failed, now) <==>
            id in ops && ops[id].state.Pending? && (ops[id].startedAt < now - 3 * 3600 || id in failed)
  {
  }

  function PendingAmong(ops: map<OpId, Op>, ids: set<OpId>): set<OpId> {
    set id | id in ids && PendingAt(ops, id)
  }

  class Store {
    var failedOutcomes: set<OpId>

    ghost predicate Valid()
      reads this
    {
      |failedOutcomes| <= FAILURE_LIMIT
    }

    constructor ()
      ensures Valid() && failedOutcomes == {}
    {
      failedOutcomes := {};
    }

    /** `recordOutcomeFailure`: the record is bounded, so a failure beyond the bound waits for the orphan age. */
    method RecordOutcomeFailure(id: OpId)
      requires Valid()
      modifies this
      ensures Valid() && failedOutcomes == FailureRecorded(old(failedOutcomes), id)
    {
      if id != "" && |failedOutcomes| < FAILURE_LIMIT {
        failedOutcomes := failedOutcomes + {id};
      }
    }

    /**
      `unresolvedSecurityAuditOperations`: the stale rows, and the failed ones that are not already
      among them.  Failures whose operation is no longer pending are forgotten.
    */
    method UnresolvedOperations(ops: map<OpId, Op>, now: Time) returns (count: nat)
      requires Valid()
      modifies this
      ensures Valid()
      ensures count == |Unresolved(ops, old(failedOutcomes), now)|
      ensures failedOutcomes == PendingAmong(ops, old(failedOutcomes))
    {
      var todo := failedOutcomes;
      ghost var all := failedOutcomes;
      count := |Unresolved(ops, {}, now)|;
      assert all - todo == {};
      while todo != {}
        invariant todo <= all
        invariant count == |Unresolved(ops, all - todo, now)|
        invariant failedOutcomes == Remaining(ops, all, todo)
        decreases |todo|
      {
        var id :| id in todo;
        Visit(ops, all, todo, now, id);
        if !PendingAt(ops, id) {
          failedOutcomes := failedOutcomes - {id};
        } else if !Stale(ops[id], now) {
          count := count + 1;
        }
        todo := todo - {id};
      }
      assert all - todo == all;
      SubsetSize(failedOutcomes, all);
    }
  }

  function Remaining(ops: map<OpId, Op>, all: set<OpId>, todo: set<OpId>): set<OpId> {
    set id | id in all && (id in todo || PendingAt(ops, id))
  }

  lemma Visit(ops: map<OpId, Op>, all: set<OpId>, todo: set<OpId>, now: Time, id: OpId)
    requires id in todo && todo <= all
    ensures Remaining(ops, all, todo - {id})
            == if PendingAt(ops, id) then Remaining(ops, all, todo) else Remaining(ops, all, todo) - {id}
    ensures |Unresolved(ops, all - (todo - {id}), now)|
            == |Unresolved(ops, all - todo, now)| + if PendingAt(ops, id) && !Stale(ops[id], now) then 1 else 0
  {
    assert all - (todo - {id}) == (all - todo) + {id};
    CountOne(ops, all - todo, now, id);
  }

  lemma CountOne(ops: map<OpId, Op>, done: set<OpId>, now: Time, id: OpId)
    requires id !in done
    ensures |Unresolved(ops, done + {id}, now)|
            == |Unresolved(ops, done, now)| + if PendingAt(ops, id) && !Stale(ops[id], now) then 1 else 0
  {
    if PendingAt(ops, id) && !Stale(ops[id], now) {
      assert Unresolved(ops, done + {id}, now) == Unresolved(ops, done, now) + {id};
    } else {
      assert Unresolved(ops, done + {id}, now) == Unresolved(ops, done, now);
    }
  }
}
