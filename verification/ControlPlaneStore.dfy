/**
  `persistBoundControlPlaneState` as one process executes it, against a row that its peers may
  rewrite before every statement and statements that may fail, with or without taking effect.
*/
module ControlPlaneStore {
  import opened Optional
  import opened StateMerge
  import opened ControlPlane

  ghost predicate Grows(h: map<int, Blob>, h': map<int, Blob>) {
    forall r | r in h :: r in h' && h'[r] == h[r]
  }

  datatype SwapResult = Swapped | SwapError

  /** What one round of the persist loop meets: whether each of its statements works. */
  datatype Round = Round(reached: bool, acknowledged: bool, readable: bool, decodable: bool)

  /** One row of `state_blobs`; `hist` remembers the image of every revision. */
  class StateRow {
    var revision: int
    var payload: Blob
    ghost var hist: map<int, Blob>

    ghost predicate Valid()
      reads this
    {
      && (revision < 0 ==> revision == ABSENT && hist == map[])
      && (revision >= 0 ==> revision in hist && hist[revision] == payload)
      && (forall r | r in hist :: 0 <= r <= revision)
    }

    method Write(next: Blob)
      requires Valid()
      modifies this
      ensures Valid() && Grows(old(hist), hist)
      ensures revision == NextRev(old(revision)) && payload == next
      ensures hist == old(hist)[revision := next]
    {
      revision := NextRev(revision);
      payload := next;
      hist := hist[revision := next];
    }

    /** Any number of commits by other processes. */
    method Peers()
      requires Valid()
      modifies this
      ensures Valid() && Grows(old(hist), hist) && revision >= old(revision)
    {
      var commits: int := *;
      while commits > 0
        invariant Valid() && Grows(old(hist), hist) && revision >= old(revision)
      {
        var next: Blob := *;
        Write(next);
        commits := commits - 1;
      }
    }

    /** `compareAndSwapControlPlaneState`: the statement may not reach the row, or take effect and still fail. */
    method CompareAndSwap(expected: int, next: Blob, reached: bool, acknowledged: bool) returns (result: SwapResult)
      requires Valid()
      modifies this
      ensures Valid() && Grows(old(hist), hist)
      ensures if reached && old(revision) == expected
              then revision == NextRev(expected) && hist == old(hist)[revision := next]
              else revision == old(revision) && hist == old(hist)
      ensures result.Swapped? <==> reached && acknowledged && old(revision) == expected
    {
      if !reached || revision != expected {
        return SwapError;
      }
      Write(next);
      result := if acknowledged then Swapped else SwapError;
    }

    /** `readControlPlaneBlobWithRevision`; None when the query fails. */
    method Read(reached: bool) returns (image: Option<Option<Blob>>)
      requires Valid()
      ensures image == if reached then Some(ImageAt(hist, revision)) else None
    {
      image := if !reached then None else if revision < 0 then Some(None) else Some(Some(payload));
    }
  }

  datatype Outcome =
    | Committed
    | CommitUndecoded   // committed, but the live map could not be decoded from the new image
    | Refreshed         // errControlPlaneStateRefreshed: conflict, or still busy after the last attempt
    | BusyUndecoded     // still busy after the last attempt, and the row could not be decoded
    | ReloadFailed      // the row could not be read, or not be decoded after a conflict

  /**
    Why a call ends as it does: what its last round met, whether that was the last attempt, and
    whether its intent clashes with the image it adopted, or with the row.
  */
  predicate Explained(outcome: Outcome, luck: Round, last: bool, adoptedClashes: bool, rowClashes: bool) {
    match outcome
    case Committed => luck.reached && luck.acknowledged && luck.decodable
    case CommitUndecoded => luck.reached && luck.acknowledged && !luck.decodable
    case Refreshed => luck.readable && luck.decodable && (last || adoptedClashes)
    case BusyUndecoded => luck.readable && !luck.decodable && last
    case ReloadFailed => !luck.readable || (!luck.decodable && rowClashes)
  }

  /** How one round of the persist loop ends. */
  datatype Step = Done(outcome: Outcome) | Retry(payload: Blob)

  /** A store bound to its row: the recorded revision and snapshot, and the live map it decodes into. */
  class BoundStore {
    const row: StateRow
    var revision: int
    var snapshot: Option<Blob>
    var live: Blob
    ghost var retries: nat   // the reloads that were followed by another swap

    ghost predicate Valid()
      reads this, row
    {
      row.Valid() && (revision == ABSENT || revision in row.hist)
    }

    /** The snapshot is the image the row held at the recorded revision. */
    ghost predicate Synced()
      reads this, row
    {
      Valid() && snapshot == ImageAt(row.hist, revision)
    }

    constructor Bind(row: StateRow)
      requires row.Valid()
      ensures this.row == row && Synced() && snapshot == ImageAt(row.hist, row.revision)
      ensures live == Entries(snapshot)
    {
      this.row := row;
      this.revision := row.revision;
      this.snapshot := if row.revision < 0 then None else Some(row.payload);
      this.live := if row.revision < 0 then map[] else row.payload;
    }

    /**
      `restoreBoundControlPlaneTarget` for a plain map: decoding into an existing map overwrites
      the keys of the payload and keeps every other key.
    */
    method Restore(image: Option<Blob>)
      modifies this`live
      ensures live == old(live) + Entries(image)
    {
      if image.Some? {
        live := live + image.value;
      }
    }

    /** Decoding can fail; a plain map may then hold some of the payload's keys. */
    method TryRestore(image: Option<Blob>, decodable: bool)
      modifies this`live
      ensures decodable ==> live == old(live) + Entries(image)
    {
      if decodable {
        Restore(image);
      } else {
        live := *;
      }
    }

    /** The merge that a reload of the row, as it is now, leads to. */
    ghost function Remerged(base: Option<Blob>, intended: Blob): Option<Blob>
      reads this, row
    {
      Merge(Entries(base), intended, Entries(ImageAt(row.hist, row.revision)))
    }

    /**
      After a failed swap: reload the row, then refuse a clash, give up on the last attempt, or
      retry with the merge.  A clash is noticed before the new revision is recorded.
    */
    method ReloadAndMerge(intended: Blob, last: bool, luck: Round) returns (step: Step)
      requires Valid()
      modifies this, row
      ensures Valid() && Grows(old(row.hist), row.hist) && row.revision >= old(row.revision)
      ensures var merged := Remerged(old(snapshot), intended);
              step == if !luck.readable then Done(ReloadFailed)
                      else if merged.None? then Done(if luck.decodable then Refreshed else ReloadFailed)
                      else if last then Done(if luck.decodable then Refreshed else BusyUndecoded)
                      else Retry(merged.value)
      ensures step == Done(ReloadFailed) ==> revision == old(revision) && snapshot == old(snapshot)
      ensures step == Done(Refreshed) ==>
          Synced() && revision == row.revision && live == old(live) + Entries(snapshot)
      ensures step == Done(BusyUndecoded) ==> revision == row.revision && snapshot == old(snapshot)
      ensures step.Retry? ==> revision == row.revision && snapshot == old(snapshot) && live == old(live)
      ensures !luck.readable && luck.decodable ==> live == old(live) + Entries(snapshot)
      ensures retries == if step.Retry? then old(retries) + 1 else old(retries)
    {
      row.Peers();
      var read := row.Read(luck.readable);
      if read.None? {
        TryRestore(snapshot, luck.decodable);
        return Done(ReloadFailed);
      }
      var remote, remoteRevision := read.value, row.revision;
      var merged := MergeControlPlaneState(snapshot, intended, remote);
      if merged.None? {
        TryRestore(remote, luck.decodable);
        if !luck.decodable {
          return Done(ReloadFailed);
        }
        revision, snapshot := remoteRevision, remote;
        return Done(Refreshed);
      }
      revision := remoteRevision;
      if last {
        TryRestore(remote, luck.decodable);
        if !luck.decodable {
          return Done(BusyUndecoded);
        }
        snapshot := remote;
        return Done(Refreshed);
      }
      retries := retries + 1;
      step := Retry(merged.value);
    }

    /** The commit of this call: the merge of its base, its intent and the image it replaced. */
    ghost predicate Wrote(base: Option<Blob>, intended: Blob, replaced: int)
      reads this, row
    {
      && revision == NextRev(replaced) && revision in row.hist
      && Merge(Entries(base), intended, Entries(ImageAt(row.hist, replaced))) == Some(row.hist[revision])
    }

    /** One swap, and the decoding of what it wrote; None when the swap failed. */
    method SwapAndDecode(payload: Blob, luck: Round) returns (outcome: Option<Outcome>)
      requires Valid()
      modifies this`revision, this`snapshot, this`live, row
      ensures Valid() && Grows(old(row.hist), row.hist)
      ensures outcome.None? ==> revision == old(revision) && snapshot == old(snapshot) && live == old(live)
      ensures outcome.None? && luck.reached && luck.acknowledged ==> row.revision > revision
      ensures outcome.Some? ==>
        && luck.reached && luck.acknowledged
        && outcome.value == (if luck.decodable then Committed else CommitUndecoded)
        && revision == NextRev(old(revision)) && ImageAt(row.hist, revision) == Some(payload)
        && ImageAt(row.hist, old(revision)) == ImageAt(old(row.hist), old(revision))
        && snapshot == (if luck.decodable then Some(payload) else old(snapshot))
        && (luck.decodable ==> live == old(live) + payload)
    {
      row.Peers();
      var swap := row.CompareAndSwap(revision, payload, luck.reached, luck.acknowledged);
      if swap.SwapError? {
        return None;
      }
      revision := NextRev(revision);
      TryRestore(Some(payload), luck.decodable);
      if !luck.decodable {
        return Some(CommitUndecoded);
      }
      snapshot := Some(payload);
      return Some(Committed);
    }

    /** What an ending leaves, for a call that started with snapshot `base` and live map `was`. */
    ghost predicate Settles(outcome: Outcome, base: Option<Blob>, was: Blob, intended: Blob, replaced: int)
      reads this, row
    {
      match outcome
      case Committed => Synced() && Wrote(base, intended, replaced) && live == was + row.hist[revision]
      case CommitUndecoded =>
        && Wrote(base, intended, replaced) && snapshot == base
        && (Synced() <==> Merge(Entries(base), intended, Entries(ImageAt(row.hist, replaced))) == base)
      case Refreshed => Synced() && live == was + Entries(snapshot)
      case BusyUndecoded => snapshot == base && revision == row.revision
      case ReloadFailed => snapshot == base && revision == replaced
    }

    /** One round of the persist loop, with the payload to write. */
    method OneRound(intended: Blob, payload: Blob, last: bool, luck: Round) returns (step: Step)
      requires Valid() && Merge(Entries(snapshot), intended, Entries(ImageAt(row.hist, revision))) == Some(payload)
      modifies this, row
      ensures Valid() && Grows(old(row.hist), row.hist)
      ensures step.Done? ==> retries == old(retries)
      ensures step.Done? ==> Settles(step.outcome, old(snapshot), old(live), intended, old(revision))
      ensures step.Done? ==>
        Explained(step.outcome, luck, last, Merge(Entries(old(snapshot)), intended, Entries(snapshot)).None?,
                  Remerged(old(snapshot), intended).None?)
      ensures step.Retry? ==>
        && !last && retries == old(retries) + 1 && revision == row.revision
        && snapshot == old(snapshot) && live == old(live)
        && Merge(Entries(snapshot), intended, Entries(ImageAt(row.hist, revision))) == Some(step.payload)
      ensures luck.reached && luck.acknowledged && step !in {Done(Committed), Done(CommitUndecoded)} ==>
        row.revision > old(revision)
    {
      var swapped := SwapAndDecode(payload, luck);
      if swapped.Some? {
        return Done(swapped.value);
      }
      step := ReloadAndMerge(intended, last, luck);
    }

    /** The attempt at which a call that began with `before` retries behind it has ended. */
    ghost function Ended(before: nat): int
      reads this
    {
      retries - before
    }

    /**
      The persist loop.  A commit writes exactly the merge of the caller's base, its intent and
      the image it replaced.  A commit that could be decoded and a refusal that could be decoded
      leave the store in sync.  The three other endings leave the old snapshot: beside the
      revision just written, beside the revision of the last reload, or, when no reload of this
      call was followed by a retry, beside the old revision and so in sync.

      A call is refused only over a clash with the image it has then adopted, or after the last
      attempt; with statements that all work, each failed attempt is a commit by a peer.
    */
    method Persist(intended: Blob, luck: nat -> Round) returns (outcome: Outcome, ghost replaced: int)
      requires Synced()
      modifies this, row
      ensures Valid() && Grows(old(row.hist), row.hist) && 0 <= Ended(old(retries)) < 3
      ensures Settles(outcome, old(snapshot), old(live), intended, replaced)
      ensures retries == old(retries) ==> replaced == old(revision) && (outcome.ReloadFailed? ==> Synced())
      ensures var n := Ended(old(retries));
              Explained(outcome, luck(n), n == 2,
                        Merge(Entries(old(snapshot)), intended, Entries(snapshot)).None?,
                        Remerged(old(snapshot), intended).None?)
      ensures var n := Ended(old(retries));
              (forall i | 0 <= i <= n :: luck(i).reached && luck(i).acknowledged) ==>
                outcome.Committed? || outcome.CommitUndecoded? || row.revision > old(revision) + n
    {
      var payload := intended;
      MergeUnits(Entries(snapshot), intended);
      for attempt := 0 to RETRY_LIMIT
        invariant attempt < RETRY_LIMIT
        invariant Valid() && Grows(old(row.hist), row.hist)
        invariant snapshot == old(snapshot) && live == old(live) && retries == old(retries) + attempt
        invariant attempt == 0 ==> revision == old(revision) && Synced()
        invariant Merge(Entries(snapshot), intended, Entries(ImageAt(row.hist, revision))) == Some(payload)
        invariant (forall i | 0 <= i < attempt :: luck(i).reached && luck(i).acknowledged) ==>
                    revision >= old(revision) + attempt
      {
        replaced := revision;
        var step := OneRound(intended, payload, attempt == RETRY_LIMIT - 1, luck(attempt));
        if step.Done? {
          return step.outcome, replaced;
        }
        payload := step.payload;
      }
      assert false;
    }
  }

  /**
    After a merged commit the live map equals the durable image exactly when no peer had deleted
    a key the caller left alone.  Otherwise the deleted key stays in the live map, and the next
    persist of that map brings it back.
  */
  lemma LiveMapAfterCommit(base: Blob, intended: Blob, remote: Blob, m: Blob)
    requires Merge(base, intended, remote) == Some(m)
    ensures intended + m == m <==> forall k | k in intended && At(intended, k) == At(base, k) :: k in remote
    ensures Merge(m, intended + m, m) == Some(intended + m)
  {
    MergeUnits(m, intended + m);
    if intended + m == m {
      forall k | k in intended && At(intended, k) == At(base, k) ensures k in remote {
        assert k in (intended + m);
        MergedAt(base, intended, remote, k);
      }
    }
    if forall k | k in intended && At(intended, k) == At(base, k) :: k in remote {
      forall k | k in intended ensures k in m {
        MergedAt(base, intended, remote, k);
      }
      assert intended + m == m;
    }
  }

  /** A peer deletes "b" while the caller changes "a": the merged image has no "b", the live map keeps it. */
  lemma DeletedKeyStaysLive()
    ensures var base: Blob := map["a" := "1", "b" := "2"];
            var intended: Blob := map["a" := "9", "b" := "2"];
            var remote: Blob := map["a" := "1"];
            var m: Blob := map["a" := "9"];
            && Merge(base, intended, remote) == Some(m)
            && intended + m == map["a" := "9", "b" := "2"]
            && Merge(m, intended + m, m) == Some(intended + m)
  {
    var base: Blob, intended: Blob := map["a" := "1", "b" := "2"], map["a" := "9", "b" := "2"];
    var remote: Blob, m: Blob := map["a" := "1"], map["a" := "9"];
    MergeIsReconciliation(base, intended, remote, m);
    MergeUnits(m, intended + m);
  }
}
