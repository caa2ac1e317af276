/**
  The three-way key merge of control-plane state (`mergeControlPlaneState`).

  A control-plane payload is one JSON object.  Its values are opaque tokens: the merge only
  compares them for equality.
*/
module StateMerge {
  import opened Optional
  import opened Sets

  type Key = string
  type Token = string
  type Image<V> = map<Key, V>
  type Blob = Image<Token>

  function At<V(==)>(m: Image<V>, k: Key): Option<V> {
    if k in m then Some(m[k]) else None
  }

  /** `k` was changed on both sides, to different values (or deleted on one side only). */
  predicate Clash<V(==)>(base: Image<V>, local: Image<V>, remote: Image<V>, k: Key) {
    At(local, k) != At(base, k) && At(remote, k) != At(base, k) && At(local, k) != At(remote, k)
  }

  predicate Mergeable<V(==)>(base: Image<V>, local: Image<V>, remote: Image<V>) {
    forall k | k in base.Keys + local.Keys :: !Clash(base, local, remote, k)
  }

  /** The side that wins at `k` when there is no clash. */
  function Winner<V(==)>(base: Image<V>, local: Image<V>, remote: Image<V>, k: Key): Option<V> {
    if At(local, k) != At(base, k) then At(local, k) else At(remote, k)
  }

  function Merge<V(==)>(base: Image<V>, local: Image<V>, remote: Image<V>): Option<Image<V>> {
    if Mergeable(base, local, remote) then
      Some(map k | k in local.Keys + remote.Keys && Winner(base, local, remote, k).Some?
             :: Winner(base, local, remote, k).value)
    else
      None
  }

  /**
    What a reconciled key means, said without a preferred side: wherever two of the three
    images agree the merged key follows the side that moved, and two of them must agree.
  */
  ghost predicate Reconciled<V>(base: Option<V>, x: Option<V>, y: Option<V>, m: Option<V>) {
    && (x == base ==> m == y)
    && (y == base ==> m == x)
    && (x == y ==> m == x)
    && (x == base || y == base || x == y)
  }

  lemma SameEntries<V>(m: Image<V>, n: Image<V>)
    requires forall k :: At(m, k) == At(n, k)
    ensures m == n
  {
    forall k ensures k in m <==> k in n {
      assert At(m, k) == At(n, k);
    }
    forall k | k in m ensures m[k] == n[k] {
      assert At(m, k) == At(n, k);
    }
  }

  lemma MergedAt<V>(base: Image<V>, local: Image<V>, remote: Image<V>, k: Key)
    requires Mergeable(base, local, remote)
    ensures At(Merge(base, local, remote).value, k) == Winner(base, local, remote, k)
    ensures !Clash(base, local, remote, k)
  {
    if k !in base.Keys + local.Keys {
      assert At(local, k) == At(base, k) == None;
    }
  }

  /** The merge succeeds with `m` exactly when every key is reconciled to its value in `m`. */
  lemma MergeIsReconciliation<V>(base: Image<V>, x: Image<V>, y: Image<V>, m: Image<V>)
    ensures Merge(base, x, y) == Some(m)
       <==> forall k :: Reconciled(At(base, k), At(x, k), At(y, k), At(m, k))
  {
    if Merge(base, x, y) == Some(m) {
      forall k ensures Reconciled(At(base, k), At(x, k), At(y, k), At(m, k)) {
        MergedAt(base, x, y, k);
      }
    }
    if forall k :: Reconciled(At(base, k), At(x, k), At(y, k), At(m, k)) {
      forall k ensures !Clash(base, x, y, k) {
        assert Reconciled(At(base, k), At(x, k), At(y, k), At(m, k));
      }
      var n := Merge(base, x, y).value;
      forall k ensures At(n, k) == At(m, k) {
        assert Reconciled(At(base, k), At(x, k), At(y, k), At(m, k));
        MergedAt(base, x, y, k);
      }
      SameEntries(n, m);
    }
  }

  /** It fails exactly when some key was changed to different values on both sides. */
  lemma MergeFailsOnClash<V>(base: Image<V>, x: Image<V>, y: Image<V>)
    ensures Merge(base, x, y).None? <==> exists k :: Clash(base, x, y, k)
  {
    if Mergeable(base, x, y) {
      forall k ensures !Clash(base, x, y, k) {
        MergedAt(base, x, y, k);
      }
    }
  }

  /** Two writers that start from one image end in the same image whichever commits first. */
  lemma MergeIsSymmetric<V>(base: Image<V>, x: Image<V>, y: Image<V>)
    ensures Merge(base, x, y) == Merge(base, y, x)
  {
    MergeFailsOnClash(base, x, y);
    MergeFailsOnClash(base, y, x);
    if Merge(base, x, y).None? {
      var k :| Clash(base, x, y, k);
      assert Clash(base, y, x, k);
    } else {
      var m := Merge(base, x, y).value;
      MergeIsReconciliation(base, x, y, m);
      forall k ensures Reconciled(At(base, k), At(y, k), At(x, k), At(m, k)) {
        assert Reconciled(At(base, k), At(x, k), At(y, k), At(m, k));
      }
      MergeIsReconciliation(base, y, x, m);
    }
  }

  lemma MergeUnits<V>(base: Image<V>, x: Image<V>)
    ensures Merge(base, x, base) == Some(x)
    ensures Merge(base, base, x) == Some(x)
    ensures Merge(base, x, x) == Some(x)
  {
    MergeIsReconciliation(base, x, base, x);
    MergeIsReconciliation(base, base, x, x);
    MergeIsReconciliation(base, x, x, x);
  }

  /** Merging again into an image that already holds the change adds nothing. */
  lemma MergeIsIdempotent<V>(base: Image<V>, x: Image<V>, y: Image<V>, m: Image<V>)
    requires Merge(base, x, y) == Some(m)
    ensures Merge(base, x, m) == Some(m)
  {
    MergeIsReconciliation(base, x, y, m);
    forall k ensures Reconciled(At(base, k), At(x, k), At(m, k), At(m, k)) {
      assert Reconciled(At(base, k), At(x, k), At(y, k), At(m, k));
    }
    MergeIsReconciliation(base, x, m, m);
  }

  /**
    Each merged-in writer is a compare-and-swap per key: a key whose value the merge changed
    held exactly the writer's base value and now holds exactly the writer's value, and every
    other key keeps the peer's value.
  */
  lemma MergeIsKeywiseSwap<V>(base: Image<V>, local: Image<V>, remote: Image<V>, m: Image<V>, k: Key)
    requires Merge(base, local, remote) == Some(m)
    ensures At(m, k) != At(remote, k) ==> At(remote, k) == At(base, k) && At(m, k) == At(local, k)
    ensures At(local, k) == At(base, k) ==> At(m, k) == At(remote, k)
    ensures At(local, k) != At(base, k) ==> At(m, k) == At(local, k)
  {
    MergedAt(base, local, remote, k);
  }

  /** The loop's progress: the keys in `done` are merged, every other key is still the remote's. */
  ghost predicate Progress<V>(base: Image<V>, local: Image<V>, remote: Image<V>, merged: Image<V>, done: set<Key>) {
    && (forall k | k in done :: !Clash(base, local, remote, k))
    && (forall k | k in done :: At(merged, k) == Winner(base, local, remote, k))
    && (forall k | k !in done :: At(merged, k) == At(remote, k))
  }

  lemma ProgressAtEnd<V>(base: Image<V>, local: Image<V>, remote: Image<V>, merged: Image<V>)
    requires Progress(base, local, remote, merged, base.Keys + local.Keys)
    ensures Merge(base, local, remote) == Some(merged)
  {
    assert Mergeable(base, local, remote);
    forall k ensures At(merged, k) == At(Merge(base, local, remote).value, k) {
      MergedAt(base, local, remote, k);
    }
    SameEntries(merged, Merge(base, local, remote).value);
  }

  lemma NothingDone<V>(base: Image<V>, local: Image<V>, remote: Image<V>, all: set<Key>)
    ensures Progress(base, local, remote, remote, all - all)
  {
  }

  lemma ClashFails<V>(base: Image<V>, local: Image<V>, remote: Image<V>, key: Key)
    requires key in base.Keys + local.Keys && Clash(base, local, remote, key)
    ensures Merge(base, local, remote) == None
  {
  }

  /** One round of the loop over the changed keys. */
  method ReapplyKey<V(==)>(base: Image<V>, local: Image<V>, remote: Image<V>, merged: Image<V>, key: Key,
    ghost done: set<Key>)
    returns (r: Option<Image<V>>)
    requires Progress(base, local, remote, merged, done) && key !in done
    ensures r.None? <==> Clash(base, local, remote, key)
    ensures r.Some? ==> Progress(base, local, remote, r.value, done + {key})
  {
    var hadBase, hasLocal, hasRemote := key in base, key in local, key in remote;
    var localChanged := hadBase != hasLocal || (hadBase && hasLocal && base[key] != local[key]);
    var remoteChanged := hadBase != hasRemote || (hadBase && hasRemote && base[key] != remote[key]);
    assert localChanged == (At(local, key) != At(base, key));
    assert remoteChanged == (At(remote, key) != At(base, key));
    if !localChanged {
      r := Some(merged);
    } else if remoteChanged && (hasLocal != hasRemote || (hasLocal && local[key] != remote[key])) {
      r := None;
    } else if hasLocal {
      r := Some(merged[key := local[key]]);
    } else {
      r := Some(merged - {key});
    }
    if r.Some? {
      assert forall k | k != key :: At(r.value, k) == At(merged, k);
    }
  }

  /** `mergeControlPlaneState`: start from the remote image and reapply each local key change. */
  method MergeControlPlaneState<V(==)>(base: Option<Image<V>>, intended: Image<V>, remote: Option<Image<V>>)
    returns (r: Option<Image<V>>)
    ensures r == Merge(Entries(base), intended, Entries(remote))
  {
    var baseMap, remoteMap := Entries(base), Entries(remote);
    var merged := remoteMap;
    var keys := baseMap.Keys + intended.Keys;
    ghost var all := keys;
    NothingDone(baseMap, intended, remoteMap, all);
    while keys != {}
      invariant keys <= all
      invariant Progress(baseMap, intended, remoteMap, merged, all - keys)
      decreases |keys|
    {
      var key :| key in keys;
      var step := ReapplyKey(baseMap, intended, remoteMap, merged, key, all - keys);
      OneLess(all, keys, key);
      if step.None? {
        ClashFails(baseMap, intended, remoteMap, key);
        return None;
      }
      merged := step.value;
      keys := keys - {key};
    }
    assert all - keys == all;
    ProgressAtEnd(baseMap, intended, remoteMap, merged);
    r := Some(merged);
  }

  /** A missing payload merges as the empty object. */
  function Entries<V(==)>(image: Option<Image<V>>): Image<V> {
    match image
    case None => map[]
    case Some(blob) => blob
  }
}
