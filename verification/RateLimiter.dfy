/**
  The rate limiter's mutable objects: bucket entries shared by a map and a recency list, updated
  in place.  Each method is proved against the limiter as a value.
*/
module RateLimiter {
  import opened Optional
  import opened TokenBuckets
  import opened TokenLimiter

  class BucketEntry {
    const key: Key
    var tokens: real
    var lastRefill: real
    var lastSeen: real

    constructor (key: Key, tokens: real, now: real)
      ensures this.key == key && this.tokens == tokens && lastRefill == lastSeen == now
    {
      this.key, this.tokens, this.lastRefill, this.lastSeen := key, tokens, now, now;
    }

    function View(): Slot
      reads this
    {
      Slot(tokens, lastRefill, lastSeen)
    }

    /** Refill for the time since the last refill, then take a token if a whole one is there. */
    method Charge(p: Policy, now: real) returns (ok: bool)
      modifies this
      ensures ok <==> Refill(p, old(View()), now).tokens >= 1.0
      ensures View() == (var s := Refill(p, old(View()), now); if ok then s.(tokens := s.tokens - 1.0) else s)
    {
      if now - lastRefill > 0.0 {
        tokens := Min(p.Burst(), tokens + Gain(p, now - lastRefill));
        lastRefill := now;
      }
      ok := tokens >= 1.0;
      if ok {
        tokens := tokens - 1.0;
      }
    }
  }

  /** Dropping position `i` of a duplicate-free list is dropping its key. */
  lemma {:induction false} WithoutIndex(order: seq<Key>, i: nat)
    requires i < |order| && NoDuplicates(order)
    ensures Without(order, order[i]) == order[..i] + order[i + 1..]
  {
    var rest := order[1..];
    if i == 0 {
      assert order[0] !in rest;
      WithoutAbsent(rest, order[0]);
    } else {
      WithoutIndex(rest, i - 1);
      assert order[..i] == [order[0]] + rest[..i - 1] && order[i + 1..] == rest[i..];
    }
  }

  lemma {:induction false} WithoutAbsent(order: seq<Key>, key: Key)
    requires key !in order
    ensures Without(order, key) == order
  {
    if order != [] {
      WithoutAbsent(order[1..], key);
    }
  }

  /** Map and list hold the same entries, each once, each under its own key. */
  ghost predicate Linked(items: map<Key, BucketEntry>, lru: seq<BucketEntry>) {
    && (forall i | 0 <= i < |lru| :: lru[i].key in items && items[lru[i].key] == lru[i])
    && (forall k | k in items :: items[k] in lru && items[k].key == k)
    && NoDuplicates(Keys(lru))
  }

  ghost function Keys(lru: seq<BucketEntry>): (order: seq<Key>)
    ensures |order| == |lru| && forall i | 0 <= i < |lru| :: order[i] == lru[i].key
  {
    seq(|lru|, i requires 0 <= i < |lru| => lru[i].key)
  }

  lemma UnlinkKeys(lru: seq<BucketEntry>, i: nat)
    requires i < |lru| && NoDuplicates(Keys(lru))
    ensures var rest := lru[..i] + lru[i + 1..];
            && Keys(rest) == Without(Keys(lru), lru[i].key)
            && Keys(rest) == Keys(lru)[..i] + Keys(lru)[i + 1..]
            && NoDuplicates(Keys(rest)) && lru[i].key !in Keys(rest)
  {
    var rest := lru[..i] + lru[i + 1..];
    assert Keys(lru)[i] == lru[i].key;
    WithoutIndex(Keys(lru), i);
    WithoutKey(Keys(lru), lru[i].key);
    assert Keys(rest) == Keys(lru)[..i] + Keys(lru)[i + 1..];
  }

  lemma RestAt(lru: seq<BucketEntry>, i: nat, j: nat)
    requires i < |lru| && j < |lru| && i != j
    ensures lru[j] in lru[..i] + lru[i + 1..]
  {
    assert (lru[..i] + lru[i + 1..])[if j < i then j else j - 1] == lru[j];
  }

  lemma UnlinkedEntries(items: map<Key, BucketEntry>, lru: seq<BucketEntry>, i: nat)
    requires Linked(items, lru) && i < |lru|
    ensures forall x | x in lru[..i] + lru[i + 1..] :: x.key in items && items[x.key] == x
    ensures forall k | k in items && k != lru[i].key :: items[k] in lru[..i] + lru[i + 1..]
  {
    forall k | k in items && k != lru[i].key ensures items[k] in lru[..i] + lru[i + 1..] {
      var j :| 0 <= j < |lru| && lru[j] == items[k];
      RestAt(lru, i, j);
    }
  }

  lemma UnlinkEntry(items: map<Key, BucketEntry>, lru: seq<BucketEntry>, i: nat)
    requires Linked(items, lru) && i < |lru|
    ensures Linked(items - {lru[i].key}, lru[..i] + lru[i + 1..])
    ensures Keys(lru[..i] + lru[i + 1..]) == Without(Keys(lru), lru[i].key)
    ensures Keys(lru[..i] + lru[i + 1..]) == Keys(lru)[..i] + Keys(lru)[i + 1..]
  {
    var rest := lru[..i] + lru[i + 1..];
    UnlinkKeys(lru, i);
    UnlinkedEntries(items, lru, i);
    forall j | 0 <= j < |rest|
      ensures rest[j].key in items && rest[j].key != lru[i].key && items[rest[j].key] == rest[j]
    {
      assert rest[j] in rest;
      assert Keys(rest)[j] in Keys(rest);
    }
  }

  lemma LinkFront(items: map<Key, BucketEntry>, lru: seq<BucketEntry>, entry: BucketEntry)
    requires Linked(items, lru) && entry.key !in items
    ensures Linked(items[entry.key := entry], [entry] + lru)
    ensures Keys([entry] + lru) == [entry.key] + Keys(lru)
  {
    var all := [entry] + lru;
    assert forall i | 0 < i < |all| :: all[i] == lru[i - 1];
    assert Keys(all) == [entry.key] + Keys(lru);
    forall k | k in items ensures items[k] in all {
      var j :| 0 <= j < |lru| && lru[j] == items[k];
      assert all[j + 1] == items[k];
    }
    assert all[0] == entry;
  }

  lemma MoveFront(items: map<Key, BucketEntry>, lru: seq<BucketEntry>, i: nat)
    requires Linked(items, lru) && i < |lru|
    ensures Linked(items, [lru[i]] + (lru[..i] + lru[i + 1..]))
    ensures Keys([lru[i]] + (lru[..i] + lru[i + 1..])) == [lru[i].key] + Without(Keys(lru), lru[i].key)
  {
    UnlinkEntry(items, lru, i);
    LinkFront(items - {lru[i].key}, lru[..i] + lru[i + 1..], lru[i]);
    assert (items - {lru[i].key})[lru[i].key := lru[i]] == items;
  }

  /** A map of entries and the list of the same entries, most recently used first. */
  class BucketCache {
    const policy: Policy
    var items: map<Key, BucketEntry>
    var lru: seq<BucketEntry>
    ghost var state: Cache   // the cache as a value

    constructor (policy: Policy)
      ensures Sound() && this.policy == policy && state == Cache(map[], []) && Entries() == {}
    {
      this.policy, this.items, this.lru, this.state := policy, map[], [], Cache(map[], []);
    }

    /** Map, list and entries agree with each other and with the cache's value. */
    ghost predicate Sound()
      reads this, Entries()
    {
      Valid() && state == View()
    }

    ghost function Entries(): set<BucketEntry>
      reads this`items
    {
      set k | k in items :: items[k]
    }

    ghost predicate Valid()
      reads this`items, this`lru
    {
      Linked(items, lru)
    }

    ghost function Slots(): map<Key, Slot>
      reads this`items, Entries()
    {
      map k | k in items :: items[k].View()
    }

    ghost function View(): Cache
      reads this`items, this`lru, Entries()
    {
      Cache(Slots(), Keys(lru))
    }

    /** Delete the entry at position `i` from the map and the list. */
    method Unlink(i: nat)
      requires Valid() && i < |lru|
      modifies this
      ensures Valid() && Entries() <= old(Entries())
      ensures lru == old(lru[..i] + lru[i + 1..]) && items == old(items) - {old(lru[i].key)}
      ensures View() == Remove(old(View()), old(lru[i].key))
    {
      UnlinkEntry(items, lru, i);
      items := items - {lru[i].key};
      lru := lru[..i] + lru[i + 1..];
      assert Slots() == old(Slots()) - {old(lru[i].key)};
    }

    /** Delete the key's entry, if it has one. */
    method Drop(key: Key)
      requires Sound()
      modifies this
      ensures Sound() && Entries() <= old(Entries())
      ensures state == Remove(old(state), key)
    {
      DropEntry(key);
      state := View();
    }

    method DropEntry(key: Key)
      requires Valid()
      modifies this
      ensures Valid() && Entries() <= old(Entries())
      ensures View() == Remove(old(View()), key)
    {
      if key in items {
        var i := Find(items[key]);
        Unlink(i);
      } else {
        forall i | 0 <= i < |lru| ensures Keys(lru)[i] != key {
          assert lru[i].key in items;
        }
        WithoutAbsent(Keys(lru), key);
        assert Slots() - {key} == Slots();
      }
    }

    method Find(entry: BucketEntry) returns (i: nat)
      requires entry in lru
      ensures i < |lru| && lru[i] == entry
    {
      i := 0;
      while lru[i] != entry
        invariant i < |lru| && entry in lru[i..]
        decreases |lru| - i
      {
        i := i + 1;
      }
    }

    /** A new key at capacity evicts the least recently used one. */
    method MakeRoom(key: Key)
      requires Valid()
      modifies this
      ensures Valid() && Entries() <= old(Entries())
      ensures View() == AfterEviction(old(View()), key)
      ensures forall k | k in items :: k in old(items) && items[k] == old(items)[k]
      ensures key in items <==> key in old(items)
    {
      assert Slots().Keys == items.Keys;
      if key !in items && |items| >= MAX_KEYS && lru != [] {
        assert Keys(lru)[|lru| - 1] == lru[|lru| - 1].key;
        Unlink(|lru| - 1);
      }
    }

    /** Create the key's entry, with a full bucket, at the front of the list. */
    method PushFront(key: Key, now: real) returns (entry: BucketEntry)
      requires Valid() && key !in items
      modifies this
      ensures Valid() && fresh(entry) && items == old(items)[key := entry]
      ensures entry.View() == Slot(policy.Burst(), now, now)
      ensures Keys(lru) == [key] + Without(old(Keys(lru)), key)
    {
      entry := new BucketEntry(key, policy.Burst(), now);
      forall i | 0 <= i < |lru| ensures Keys(lru)[i] != key {
        assert lru[i].key in items;
      }
      WithoutAbsent(Keys(lru), key);
      LinkFront(items, lru, entry);
      lru := [entry] + lru;
      items := items[key := entry];
    }

    /** Mark the key's entry as just used and move it to the front of the list. */
    method MoveToFront(key: Key, now: real) returns (entry: BucketEntry)
      requires Valid() && key in items
      modifies this, items[key]
      ensures Valid() && items == old(items) && entry == items[key]
      ensures entry.View() == old(items[key].View()).(lastSeen := now)
      ensures Keys(lru) == [key] + Without(old(Keys(lru)), key)
    {
      entry := items[key];
      entry.lastSeen := now;
      var i := Find(entry);
      MoveFront(items, lru, i);
      lru := [entry] + (lru[..i] + lru[i + 1..]);
    }

    method ChargeExisting(key: Key, now: real) returns (ok: bool)
      requires Valid() && key in items
      modifies this, Entries()
      ensures Valid() && items == old(items)
      ensures ok <==> Admits(policy, old(Slots()), key, now)
      ensures Keys(lru) == [key] + Without(old(Keys(lru)), key)
      ensures Slots() == old(Slots())[key := Spend(policy, old(Slots()), key, now)]
    {
      ghost var before := Slots();
      assert forall k | k in items && k != key :: items[k].key != key;
      var entry := MoveToFront(key, now);
      ok := entry.Charge(policy, now);
      SameSlots(Slots(), before[key := Spend(policy, before, key, now)]);
    }

    method ChargeNew(key: Key, now: real) returns (ok: bool)
      requires Valid() && key !in items
      modifies this
      ensures Valid() && forall k | k in items :: k != key ==> k in old(items) && items[k] == old(items)[k]
      ensures key in items && fresh(items[key])
      ensures ok <==> Admits(policy, old(Slots()), key, now)
      ensures Keys(lru) == [key] + Without(old(Keys(lru)), key)
      ensures Slots() == old(Slots())[key := Spend(policy, old(Slots()), key, now)]
    {
      ghost var before := Slots();
      var entry := PushFront(key, now);
      ok := entry.Charge(policy, now);
      SameSlots(Slots(), before[key := Spend(policy, before, key, now)]);
    }

    /** `consume`: find or create the key's entry, move it to the front, refill and charge it. */
    method Consume(key: Key, now: real) returns (ok: bool)
      requires Sound()
      modifies this, Entries()
      ensures Sound() && forall e | e in Entries() :: e in old(Entries()) || fresh(e)
      ensures ok <==> Admits(policy, old(state).slots, key, now)
      ensures state == TokenBuckets.Consume(policy, old(state), key, now)
    {
      ok := ChargeKey(key, now);
      ghost var entries, next := Entries(), View();
      state := next;
      assert Entries() == entries && View() == next;
    }

    method ChargeKey(key: Key, now: real) returns (ok: bool)
      requires Valid()
      modifies this, Entries()
      ensures Valid() && forall e | e in Entries() :: e in old(Entries()) || fresh(e)
      ensures ok <==> Admits(policy, old(Slots()), key, now)
      ensures View() == TokenBuckets.Consume(policy, old(View()), key, now)
    {
      ConsumeUnfolds(policy, View(), key, now);
      if key in items {
        ok := ChargeExisting(key, now);
      } else {
        MakeRoom(key);
        ok := ChargeNew(key, now);
      }
    }

    /** Look at the entry before position `n` and drop it if it is idle. */
    method CollectBefore(n: nat, now: real, ghost c: Cache, ghost all: map<Key, BucketEntry>)
      requires 0 < n && Tail(c, all, items, lru, n, now)
      requires c.slots[lru[n - 1].key].lastSeen == lru[n - 1].lastSeen
      modifies this
      ensures Tail(c, all, items, lru, n - 1, now)
    {
      var i := n - 1;
      TailStep(c, all, items, lru, n, now);
      if now - lru[i].lastSeen > INACTIVE {
        items := items - {lru[i].key};
        lru := lru[..i] + lru[i + 1..];
      }
    }

    /** Walk the list from the back and drop idle entries. */
    method CollectFromBack(now: real, ghost c: Cache, ghost all: map<Key, BucketEntry>)
      requires Tail(c, all, items, lru, |lru|, now)
      requires forall k | k in all :: c.slots[k].lastSeen == all[k].lastSeen
      modifies this
      ensures Tail(c, all, items, lru, 0, now)
    {
      var i := |lru|;
      while i > 0
        invariant 0 <= i && Tail(c, all, items, lru, i, now)
      {
        TailEntry(c, all, items, lru, i, now);
        CollectBefore(i, now, c, all);
        i := i - 1;
      }
    }

    /** This cache's part of `garbageCollect`. */
    method CollectIdle(now: real)
      requires Sound()
      modifies this
      ensures Sound() && Entries() <= old(Entries())
      ensures state == Collect(old(state), now)
    {
      CollectEntries(now);
      state := View();
    }

    method CollectEntries(now: real)
      requires Valid()
      modifies this
      ensures Valid() && Entries() <= old(Entries())
      ensures View() == Collect(old(View()), now)
    {
      ghost var c := View();
      CollectKeys(now, c);
      SameSlots(Slots(), Collect(c, now).slots);
    }

    /** What the walk leaves, before the entries are read again. */
    method CollectKeys(now: real, ghost c: Cache)
      requires Valid() && c == View()
      modifies this
      ensures Valid() && Keys(lru) == Collect(c, now).order
      ensures items.Keys == Collect(c, now).slots.Keys
      ensures forall k | k in items :: k in old(items) && items[k] == old(items)[k]
    {
      ghost var all := items;
      TailStart(c, items, lru, now);
      ListedKeys(items, lru);
      CollectFromBack(now, c, all);
      TailEnd(c, all, items, lru, now);
    }
  }

  /** The order once the walk from the back has reached position `i`. */
  ghost function Walked(c: Cache, i: nat, now: real): seq<Key>
    requires i <= |c.order|
  {
    c.order[..i] + Fresh(c.slots, c.order[i..], now)
  }

  lemma WalkStep(c: Cache, i: nat, now: real)
    requires i < |c.order| && c.order[i] in c.slots
    ensures var before := Walked(c, i + 1, now);
            && |before| > i && before[i] == c.order[i]
            && Walked(c, i, now) == if Idle(c.slots[c.order[i]], now) then before[..i] + before[i + 1..] else before
  {
    FreshFromBack(c.slots, c.order, i, now);
    var rest := Fresh(c.slots, c.order[i + 1..], now);
    assert c.order[..i + 1] == c.order[..i] + [c.order[i]];
    assert Walked(c, i + 1, now)[..i] == c.order[..i];
    assert Walked(c, i + 1, now)[i + 1..] == rest;
  }

  /** The entries from position `i` on have been looked at: the idle ones are gone, the others stay. */
  ghost predicate Tail(c: Cache, all: map<Key, BucketEntry>, items: map<Key, BucketEntry>, lru: seq<BucketEntry>,
                       i: nat, now: real) {
    && i <= |c.order| && i <= |lru| && Linked(items, lru) && c.slots.Keys == all.Keys
    && (forall k | k in items :: k in all && items[k] == all[k])
    && Keys(lru) == Walked(c, i, now)
    && (forall k | k in all && k !in items :: Idle(c.slots[k], now))
    && (forall j | i <= j < |c.order| && c.order[j] in items ::
          c.order[j] in c.slots && !Idle(c.slots[c.order[j]], now))
  }

  lemma ListedKeys(items: map<Key, BucketEntry>, lru: seq<BucketEntry>)
    requires Linked(items, lru)
    ensures forall k | k in items :: k in Keys(lru)
  {
    forall k | k in items ensures k in Keys(lru) {
      var j :| 0 <= j < |lru| && lru[j] == items[k];
      assert Keys(lru)[j] == k;
    }
  }

  lemma TailStart(c: Cache, items: map<Key, BucketEntry>, lru: seq<BucketEntry>, now: real)
    requires Linked(items, lru) && c.order == Keys(lru) && c.slots.Keys == items.Keys
    ensures Tail(c, items, items, lru, |lru|, now)
  {
    assert Walked(c, |lru|, now) == c.order;
  }

  lemma TailEntry(c: Cache, all: map<Key, BucketEntry>, items: map<Key, BucketEntry>, lru: seq<BucketEntry>, n: nat,
                  now: real)
    requires 0 < n && Tail(c, all, items, lru, n, now)
    ensures lru[n - 1].key in c.slots && lru[n - 1].key in all && all[lru[n - 1].key] == lru[n - 1]
  {
  }

  lemma TailEnd(c: Cache, all: map<Key, BucketEntry>, items: map<Key, BucketEntry>, lru: seq<BucketEntry>, now: real)
    requires Tail(c, all, items, lru, 0, now)
    requires forall k | k in c.slots :: k in c.order
    ensures items.Keys == Collect(c, now).slots.Keys && Keys(lru) == Collect(c, now).order
  {
    assert c.order[0..] == c.order && Walked(c, 0, now) == Fresh(c.slots, c.order, now);
    CollectedKeys(c, items, now);
  }

  lemma TailStep(c: Cache, all: map<Key, BucketEntry>, items: map<Key, BucketEntry>, lru: seq<BucketEntry>, n: nat,
                 now: real)
    requires 0 < n && Tail(c, all, items, lru, n, now)
    ensures var i := n - 1;
            && lru[i].key in c.slots && lru[i].key in items
            && (Idle(c.slots[lru[i].key], now) ==>
                  Tail(c, all, items - {lru[i].key}, lru[..i] + lru[i + 1..], i, now))
            && (!Idle(c.slots[lru[i].key], now) ==> Tail(c, all, items, lru, i, now))
  {
    var i := n - 1;
    TailKey(c, all, items, lru, n, now);
    if Idle(c.slots[lru[i].key], now) {
      TailDrop(c, all, items, lru, n, now);
    } else {
      WalkStep(c, i, now);
    }
  }

  lemma TailDrop(c: Cache, all: map<Key, BucketEntry>, items: map<Key, BucketEntry>, lru: seq<BucketEntry>, n: nat,
                 now: real)
    requires 0 < n && Tail(c, all, items, lru, n, now)
    requires lru[n - 1].key == c.order[n - 1] && lru[n - 1].key in c.slots && Idle(c.slots[lru[n - 1].key], now)
    ensures Tail(c, all, items - {lru[n - 1].key}, lru[..n - 1] + lru[n..], n - 1, now)
  {
    DropOrder(c, items, lru, n, now);
    assert forall j | n - 1 < j < |c.order| && c.order[j] in items :: n <= j;
  }

  lemma DropOrder(c: Cache, items: map<Key, BucketEntry>, lru: seq<BucketEntry>, n: nat, now: real)
    requires 0 < n <= |c.order| && n <= |lru| && Linked(items, lru) && Keys(lru) == Walked(c, n, now)
    requires lru[n - 1].key == c.order[n - 1] && lru[n - 1].key in c.slots && Idle(c.slots[lru[n - 1].key], now)
    ensures var rest := lru[..n - 1] + lru[n..];
            Linked(items - {lru[n - 1].key}, rest) && Keys(rest) == Walked(c, n - 1, now)
  {
    UnlinkEntry(items, lru, n - 1);
    WalkStep(c, n - 1, now);
  }

  lemma TailKey(c: Cache, all: map<Key, BucketEntry>, items: map<Key, BucketEntry>, lru: seq<BucketEntry>, n: nat,
                now: real)
    requires 0 < n && Tail(c, all, items, lru, n, now)
    ensures lru[n - 1].key == c.order[n - 1] && lru[n - 1].key in c.slots
  {
    assert Keys(lru)[n - 1] == Walked(c, n, now)[n - 1];
  }

  /** Dropping an idle key in front of an already collected tail. */
  lemma FreshFromBack(slots: map<Key, Slot>, order: seq<Key>, i: nat, now: real)
    requires i < |order| && order[i] in slots
    ensures Fresh(slots, order[i..], now) ==
            (if Idle(slots[order[i]], now) then [] else [order[i]]) + Fresh(slots, order[i + 1..], now)
  {
    assert order[i..][0] == order[i] && order[i..][1..] == order[i + 1..];
  }

  /** Whether or not the key has a slot, charging after eviction is charging before it. */
  lemma ConsumeUnfolds(p: Policy, c: Cache, key: Key, now: real)
    ensures var room := AfterEviction(c, key);
            && TokenBuckets.Consume(p, c, key, now)
               == Cache(room.slots[key := Spend(p, room.slots, key, now)], [key] + Without(room.order, key))
            && (Admits(p, c.slots, key, now) <==> Admits(p, room.slots, key, now))
            && (key in c.slots ==> room == c)
  {
    if key !in c.slots {
      assert SlotFor(p, AfterEviction(c, key).slots, key, now) == SlotFor(p, c.slots, key, now);
    }
  }

  lemma CollectedKeys(c: Cache, items: map<Key, BucketEntry>, now: real)
    requires forall k | k in items :: k in c.slots
    requires forall k | k in c.slots && k !in items :: Idle(c.slots[k], now)
    requires forall j | 0 <= j < |c.order| && c.order[j] in items ::
        c.order[j] in c.slots && !Idle(c.slots[c.order[j]], now)
    requires forall k | k in c.slots :: k in c.order
    ensures items.Keys == Collect(c, now).slots.Keys
  {
    forall k | k in items ensures !Idle(c.slots[k], now) {
      var j :| 0 <= j < |c.order| && c.order[j] == k;
    }
  }

  lemma SameSlots(m: map<Key, Slot>, n: map<Key, Slot>)
    requires m.Keys == n.Keys && forall k | k in m :: m[k] == n[k]
    ensures m == n
  {
  }
}
