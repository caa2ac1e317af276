/**
  The rate limiter's bucket cache as a value: token buckets by key, in order of last use, with
  LRU eviction and garbage collection of idle buckets.  Times are seconds on a monotone clock.
*/
module TokenBuckets {
  import opened Optional
  import opened Sets

  type Key = string

  /** The three limits a request is charged to. */
  datatype Policy = PerToken | PerIdentity | PerSource
  {
    function Burst(): real {
      match this
      case PerToken => 60.0
      case PerIdentity => 600.0
      case PerSource => 1_200.0
    }
  }

  const MAX_KEYS: nat := 10_000
  const INACTIVE := 300.0

  function RatePerMinute(p: Policy): real {
    match p
    case PerToken => 600.0
    case PerIdentity => 6_000.0
    case PerSource => 12_000.0
  }

  datatype Slot = Slot(tokens: real, lastRefill: real, lastSeen: real)

  /** `order` lists the keys of `slots`, most recently used first. */
  datatype Cache = Cache(slots: map<Key, Slot>, order: seq<Key>)

  /** Tokens gained in `elapsed` seconds. */
  function Gain(p: Policy, elapsed: real): real {
    match p
    case PerToken => 600.0 * elapsed / 60.0
    case PerIdentity => 6_000.0 * elapsed / 60.0
    case PerSource => 12_000.0 * elapsed / 60.0
  }

  function Min(x: real, y: real): real {
    if x <= y then x else y
  }

  function Refill(p: Policy, s: Slot, now: real): Slot {
    if now > s.lastRefill then
      s.(tokens := Min(p.Burst(), s.tokens + Gain(p, now - s.lastRefill)), lastRefill := now)
    else
      s
  }

  function Without(order: seq<Key>, key: Key): seq<Key> {
    if order == [] then []
    else if order[0] == key then Without(order[1..], key)
    else [order[0]] + Without(order[1..], key)
  }

  function Remove(c: Cache, key: Key): Cache {
    Cache(c.slots - {key}, Without(c.order, key))
  }

  /** The key that admitting `key` would evict, if any. */
  function Victim(c: Cache, key: Key): Option<Key> {
    if key !in c.slots && |c.slots| >= MAX_KEYS && c.order != [] then Some(c.order[|c.order| - 1]) else None
  }

  function AfterEviction(c: Cache, key: Key): Cache {
    match Victim(c, key)
    case None => c
    case Some(oldest) => Remove(c, oldest)
  }

  /** The slot a request for `key` finds at `now`, refilled; a key without a slot gets a full one. */
  function SlotFor(p: Policy, slots: map<Key, Slot>, key: Key, now: real): Slot {
    Refill(p, if key in slots then slots[key].(lastSeen := now) else Slot(p.Burst(), now, now), now)
  }

  predicate Admits(p: Policy, slots: map<Key, Slot>, key: Key, now: real) {
    SlotFor(p, slots, key, now).tokens >= 1.0
  }

  function Spend(p: Policy, slots: map<Key, Slot>, key: Key, now: real): Slot {
    var slot := SlotFor(p, slots, key, now);
    if slot.tokens < 1.0 then slot else slot.(tokens := slot.tokens - 1.0)
  }

  /** `bucketCache.consume`. */
  function Consume(p: Policy, c: Cache, key: Key, now: real): Cache {
    var room := AfterEviction(c, key);
    Cache(room.slots[key := Spend(p, c.slots, key, now)], [key] + Without(room.order, key))
  }

  predicate Idle(s: Slot, now: real) {
    now - s.lastSeen > INACTIVE
  }

  function Fresh(slots: map<Key, Slot>, order: seq<Key>, now: real): seq<Key> {
    if order == [] then []
    else if order[0] in slots && Idle(slots[order[0]], now) then Fresh(slots, order[1..], now)
    else [order[0]] + Fresh(slots, order[1..], now)
  }

  /** One cache's part of `garbageCollect`. */
  function Collect(c: Cache, now: real): Cache {
    Cache(map k | k in c.slots && !Idle(c.slots[k], now) :: c.slots[k], Fresh(c.slots, c.order, now))
  }

  // ---------------------------------------------------------------------------------------
  // Well-formed caches
  // ---------------------------------------------------------------------------------------

  ghost predicate SlotOk(p: Policy, s: Slot, clock: real) {
    0.0 <= s.tokens <= p.Burst() && s.lastRefill == s.lastSeen <= clock
  }

  ghost predicate NoDuplicates(order: seq<Key>) {
    forall i, j | 0 <= i < j < |order| :: order[i] != order[j]
  }

  /** Every listed key has a slot, and the slots were last seen in the listed order. */
  ghost predicate Sorted(slots: map<Key, Slot>, order: seq<Key>) {
    && (forall i | 0 <= i < |order| :: order[i] in slots)
    && (forall i, j | 0 <= i <= j < |order| :: slots[order[i]].lastSeen >= slots[order[j]].lastSeen)
  }

  ghost predicate Lists(order: seq<Key>, keys: set<Key>) {
    NoDuplicates(order) && forall k :: k in order <==> k in keys
  }

  ghost predicate OrderOk(c: Cache) {
    Lists(c.order, c.slots.Keys) && Sorted(c.slots, c.order)
  }

  /** Map and list in bijection, ordered by last use, within capacity, with sound buckets. */
  ghost predicate CacheOk(p: Policy, c: Cache, clock: real) {
    OrderOk(c) && |c.slots| <= MAX_KEYS && SlotsOk(p, c.slots, clock)
  }

  // ---------------------------------------------------------------------------------------
  // What a bucket can still admit
  // ---------------------------------------------------------------------------------------

  ghost predicate SlotsOk(p: Policy, slots: map<Key, Slot>, clock: real) {
    forall k | k in slots :: SlotOk(p, slots[k], clock)
  }

  /** The tokens a request for `k` would find at `now`. */
  function Available(p: Policy, slots: map<Key, Slot>, k: Key, now: real): real {
    if k in slots then Min(p.Burst(), slots[k].tokens + Gain(p, now - slots[k].lastRefill)) else p.Burst()
  }

  /** Every policy refills its whole burst within the inactivity limit. */
  lemma IdleBucketIsFull(p: Policy, elapsed: real)
    requires elapsed > INACTIVE
    ensures Gain(p, elapsed) >= p.Burst()
  {
  }

  /** Refilling at `now` yields exactly what is available. */
  lemma RefillIsAvailable(p: Policy, slots: map<Key, Slot>, key: Key, clock: real, now: real)
    requires SlotsOk(p, slots, clock) && clock <= now
    ensures SlotFor(p, slots, key, now).tokens == Available(p, slots, key, now)
    ensures SlotFor(p, slots, key, now).lastRefill == SlotFor(p, slots, key, now).lastSeen == now
    ensures 0.0 <= Available(p, slots, key, now) <= p.Burst()
  {
    if key in slots {
      assert SlotOk(p, slots[key], clock);
    }
  }

  /** Availability between two times, with nothing happening to the key. */
  lemma AvailableLater(p: Policy, slots: map<Key, Slot>, k: Key, clock: real, now: real, later: real)
    requires SlotsOk(p, slots, clock) && clock <= now <= later
    ensures Available(p, slots, k, later) == Min(p.Burst(), Available(p, slots, k, now) + Gain(p, later - now))
  {
    if k in slots {
      var s := slots[k];
      assert SlotOk(p, s, clock);
      assert later - s.lastRefill == (now - s.lastRefill) + (later - now);
    }
  }

  /** A request is admitted exactly when a whole token is available, and takes it. */
  lemma ConsumeSpends(p: Policy, slots: map<Key, Slot>, key: Key, clock: real, now: real, later: real)
    requires SlotsOk(p, slots, clock) && clock <= now <= later
    ensures Admits(p, slots, key, now) <==> Available(p, slots, key, now) >= 1.0
    ensures var left := Available(p, slots, key, now) - (if Admits(p, slots, key, now) then 1.0 else 0.0);
            Available(p, slots[key := Spend(p, slots, key, now)], key, later) ==
              Min(p.Burst(), left + Gain(p, later - now))
    ensures SlotOk(p, Spend(p, slots, key, now), now) && Spend(p, slots, key, now).lastSeen == now
  {
    RefillIsAvailable(p, slots, key, clock, now);
  }

  /** Collection only drops buckets that are full again, so it changes no key's availability. */
  lemma CollectIsUnobservable(p: Policy, c: Cache, k: Key, clock: real, now: real, later: real)
    requires SlotsOk(p, c.slots, clock) && clock <= now <= later
    ensures Available(p, Collect(c, now).slots, k, later) == Available(p, c.slots, k, later)
  {
    if k in c.slots && Idle(c.slots[k], now) {
      assert SlotOk(p, c.slots[k], clock);
      IdleBucketIsFull(p, later - c.slots[k].lastRefill);
    }
  }

  // ---------------------------------------------------------------------------------------
  // Requests and collections keep a cache well formed
  // ---------------------------------------------------------------------------------------

  lemma {:induction false} WithoutKey(order: seq<Key>, key: Key)
    requires NoDuplicates(order)
    ensures NoDuplicates(Without(order, key)) && key !in Without(order, key)
    ensures forall k :: k in Without(order, key) <==> k in order && k != key
    ensures |Without(order, key)| == |order| - (if key in order then 1 else 0)
  {
    if order != [] {
      var rest := order[1..];
      assert order == [order[0]] + rest;
      assert order[0] !in rest;
      WithoutKey(rest, key);
    }
  }

  lemma {:induction false} WithoutStaysSorted(slots: map<Key, Slot>, order: seq<Key>, key: Key)
    requires Sorted(slots, order)
    ensures Sorted(slots, Without(order, key))
    ensures forall k | k in Without(order, key) :: k in order && k != key
  {
    if order != [] {
      WithoutStaysSorted(slots, order[1..], key);
      var rest := Without(order[1..], key);
      assert order == [order[0]] + order[1..];
      if order[0] != key {
        PrependSorted(slots, order, rest);
      }
    }
  }

  lemma PrependSorted(slots: map<Key, Slot>, order: seq<Key>, rest: seq<Key>)
    requires order != [] && Sorted(slots, order) && Sorted(slots, rest)
    requires forall k | k in rest :: k in order[1..]
    ensures Sorted(slots, [order[0]] + rest)
  {
    var r := [order[0]] + rest;
    forall j | 0 <= j < |r| ensures r[j] in slots && slots[r[0]].lastSeen >= slots[r[j]].lastSeen {
      if j > 0 {
        assert rest[j - 1] in order[1..];
        var i :| 0 <= i < |order[1..]| && order[1..][i] == rest[j - 1];
        assert order[i + 1] == r[j];
      }
    }
    assert forall i | 0 < i < |r| :: r[i] == rest[i - 1];
  }

  /** Every cached bucket was last seen by `now`, so the key used at `now` goes in front. */
  lemma FrontIsNewest(slots: map<Key, Slot>, rest: seq<Key>, key: Key, spent: Slot)
    requires Sorted(slots, rest) && key !in rest
    requires forall k | k in slots :: slots[k].lastSeen <= spent.lastSeen
    ensures Sorted(slots[key := spent], [key] + rest)
  {
    var r := [key] + rest;
    assert forall i | 0 < i < |r| :: r[i] == rest[i - 1] && r[i] != key;
  }

  lemma SortedWithout(slots: map<Key, Slot>, order: seq<Key>, key: Key)
    requires Sorted(slots, order) && key !in order
    ensures Sorted(slots - {key}, order)
  {
  }

  lemma RemovalKeepsOrder(c: Cache, key: Key)
    requires OrderOk(c)
    ensures OrderOk(Remove(c, key))
  {
    WithoutKey(c.order, key);
    WithoutStaysSorted(c.slots, c.order, key);
    SortedWithout(c.slots, Without(c.order, key), key);
    assert (c.slots - {key}).Keys == c.slots.Keys - {key};
  }

  lemma RemovalSize(c: Cache, key: Key)
    requires key in c.slots
    ensures |Remove(c, key).slots| == |c.slots| - 1
  {
    assert (c.slots - {key}).Keys == c.slots.Keys - {key};
  }

  lemma FullCacheHasOldest(c: Cache)
    requires OrderOk(c) && |c.slots| >= MAX_KEYS
    ensures c.order != [] && c.order[|c.order| - 1] in c.slots
  {
    assert c.slots.Keys != {};
    var k :| k in c.slots.Keys;
    assert k in c.order;
  }

  lemma RoomForKey(p: Policy, c: Cache, key: Key, clock: real)
    requires CacheOk(p, c, clock)
    ensures var room := AfterEviction(c, key);
            && OrderOk(room) && |room.slots| <= MAX_KEYS && (key !in room.slots ==> |room.slots| < MAX_KEYS)
            && (forall k | k in room.slots :: k in c.slots && room.slots[k] == c.slots[k])
            && (key in room.slots <==> key in c.slots)
  {
    if key !in c.slots && |c.slots| >= MAX_KEYS {
      FullCacheHasOldest(c);
      var oldest := c.order[|c.order| - 1];
      RemovalKeepsOrder(c, oldest);
      RemovalSize(c, oldest);
    }
  }

  /** A new key displaces a bucket exactly in a full cache, and then the least recently used one. */
  lemma DisplacesLeastRecent(p: Policy, c: Cache, key: Key, clock: real)
    requires CacheOk(p, c, clock)
    ensures Victim(c, key).Some? <==> key !in c.slots && |c.slots| == 10_000
    ensures Victim(c, key).Some? ==>
              && Victim(c, key).value in c.slots
              && forall k | k in c.slots :: c.slots[Victim(c, key).value].lastSeen <= c.slots[k].lastSeen
    ensures forall now :: Consume(p, c, key, now).slots.Keys ==
                          c.slots.Keys + {key} - (if Victim(c, key).Some? then {Victim(c, key).value} else {})
  {
    if |c.slots| >= MAX_KEYS { FullCacheHasOldest(c); }
    if Victim(c, key).Some? {
      forall k | k in c.slots ensures c.slots[Victim(c, key).value].lastSeen <= c.slots[k].lastSeen {
        assert k in c.order;
      }
    }
  }

  lemma FrontInserted(slots: map<Key, Slot>, order: seq<Key>, key: Key, spent: Slot)
    requires Lists(order, slots.Keys)
    ensures Lists([key] + Without(order, key), slots[key := spent].Keys)
    ensures |slots[key := spent]| == |slots| + (if key in slots then 0 else 1)
  {
    WithoutKey(order, key);
    var rest := Without(order, key);
    var r := [key] + rest;
    forall i, j | 0 <= i < j < |r| ensures r[i] != r[j] {
      assert r[j] == rest[j - 1];
      if i > 0 { assert r[i] == rest[i - 1]; }
    }
    assert slots[key := spent].Keys == slots.Keys + {key};
  }

  lemma ConsumeKeepsCache(p: Policy, c: Cache, key: Key, clock: real, now: real)
    requires CacheOk(p, c, clock) && clock <= now
    ensures CacheOk(p, Consume(p, c, key, now), now)
  {
    var room := AfterEviction(c, key);
    RoomForKey(p, c, key, clock);
    ConsumeSpends(p, c.slots, key, clock, now, now);
    InsertKeepsCache(p, room, key, Spend(p, c.slots, key, now), clock, now);
  }

  lemma InsertKeepsCache(p: Policy, room: Cache, key: Key, spent: Slot, clock: real, now: real)
    requires OrderOk(room) && SlotsOk(p, room.slots, clock) && clock <= now
    requires |room.slots| <= MAX_KEYS && (key !in room.slots ==> |room.slots| < MAX_KEYS)
    requires SlotOk(p, spent, now) && spent.lastSeen == now
    ensures CacheOk(p, Cache(room.slots[key := spent], [key] + Without(room.order, key)), now)
  {
    WithoutKey(room.order, key);
    WithoutStaysSorted(room.slots, room.order, key);
    assert forall k | k in room.slots :: SlotOk(p, room.slots[k], clock);
    FrontIsNewest(room.slots, Without(room.order, key), key, spent);
    FrontInserted(room.slots, room.order, key, spent);
  }

  lemma {:induction false} FreshKeys(slots: map<Key, Slot>, order: seq<Key>, now: real)
    requires NoDuplicates(order) && Sorted(slots, order)
    ensures NoDuplicates(Fresh(slots, order, now)) && Sorted(slots, Fresh(slots, order, now))
    ensures forall k :: k in Fresh(slots, order, now) <==> k in order && !Idle(slots[k], now)
  {
    if order != [] {
      var rest := order[1..];
      assert order == [order[0]] + rest;
      assert order[0] !in rest;
      FreshKeys(slots, rest, now);
      if !Idle(slots[order[0]], now) {
        PrependSorted(slots, order, Fresh(slots, rest, now));
      }
    }
  }

  lemma CollectKeepsCache(p: Policy, c: Cache, clock: real, now: real)
    requires CacheOk(p, c, clock) && clock <= now
    ensures CacheOk(p, Collect(c, now), now)
    ensures forall k :: k in Collect(c, now).slots <==> k in c.slots && !Idle(c.slots[k], now)
  {
    FreshKeys(c.slots, c.order, now);
    var d := Collect(c, now);
    assert forall i | 0 <= i < |d.order| :: d.order[i] in d.order;
    assert d.slots.Keys <= c.slots.Keys;
    SubsetSize(d.slots.Keys, c.slots.Keys);
    assert forall k | k in d.slots :: SlotOk(p, c.slots[k], clock);
  }

  // ---------------------------------------------------------------------------------------
  // One visit: an optional collection, then an optional request
  // ---------------------------------------------------------------------------------------

  function Sweep(c: Cache, due: bool, now: real): Cache {
    if due then Collect(c, now) else c
  }

  lemma SweepKeepsCache(p: Policy, c: Cache, due: bool, clock: real, now: real)
    requires CacheOk(p, c, clock) && clock <= now
    ensures CacheOk(p, Sweep(c, due, now), now)
    ensures forall k: Key, t: real | now <= t ::
        Available(p, Sweep(c, due, now).slots, k, t) == Available(p, c.slots, k, t)
  {
    if due {
      CollectKeepsCache(p, c, clock, now);
      forall k: Key, t: real | now <= t
        ensures Available(p, Collect(c, now).slots, k, t) == Available(p, c.slots, k, t)
      {
        CollectIsUnobservable(p, c, k, clock, now, t);
      }
    } else {
      assert forall k | k in c.slots :: SlotOk(p, c.slots[k], clock);
    }
  }

  /** A request takes a token from the bucket it is charged to, and from no other it does not evict. */
  lemma RequestTakesToken(p: Policy, c: Cache, key: Key, k: Key, now: real)
    requires CacheOk(p, c, now) && Victim(c, key) != Some(k)
    ensures Available(p, Consume(p, c, key, now).slots, k, now)
         == Available(p, c.slots, k, now) - (if key == k && Admits(p, c.slots, k, now) then 1.0 else 0.0)
    ensures Admits(p, c.slots, k, now) <==> Available(p, c.slots, k, now) >= 1.0
  {
    ConsumeSpends(p, c.slots, k, now, now, now);
    RefillIsAvailable(p, c.slots, k, now, now);
    if key == k {
      assert Consume(p, c, key, now).slots[k] == Spend(p, c.slots, k, now);
    } else {
      assert k in Consume(p, c, key, now).slots <==> k in c.slots;
    }
  }

  /** Charging one request to two bucket maps that offer the same keeps them offering the same. */
  lemma RequestKeepsAgreement(p: Policy, c: Cache, slots: map<Key, Slot>, key: Key, k: Key, now: real, t: real)
    requires CacheOk(p, c, now) && SlotsOk(p, slots, now) && Victim(c, key).None? && now <= t
    requires Available(p, c.slots, key, now) == Available(p, slots, key, now)
    requires Available(p, c.slots, k, t) == Available(p, slots, k, t)
    ensures Admits(p, c.slots, key, now) <==> Admits(p, slots, key, now)
    ensures Available(p, Consume(p, c, key, now).slots, k, t)
         == Available(p, slots[key := Spend(p, slots, key, now)], k, t)
  {
    SpendAgrees(p, c.slots, slots, key, now, t);
    if key != k {
      OthersUntouched(p, c.slots, key, Spend(p, c.slots, key, now), k, t);
      OthersUntouched(p, slots, key, Spend(p, slots, key, now), k, t);
    }
  }

  lemma SpendAgrees(p: Policy, a: map<Key, Slot>, b: map<Key, Slot>, key: Key, now: real, t: real)
    requires SlotsOk(p, a, now) && SlotsOk(p, b, now) && now <= t
    requires Available(p, a, key, now) == Available(p, b, key, now)
    ensures Admits(p, a, key, now) <==> Admits(p, b, key, now)
    ensures Available(p, a[key := Spend(p, a, key, now)], key, t) ==
          Available(p, b[key := Spend(p, b, key, now)], key, t)
  {
    ConsumeSpends(p, a, key, now, now, t);
    ConsumeSpends(p, b, key, now, now, t);
  }

  lemma OthersUntouched(p: Policy, slots: map<Key, Slot>, key: Key, slot: Slot, k: Key, t: real)
    requires k != key
    ensures Available(p, slots[key := slot], k, t) == Available(p, slots, k, t)
  {
  }
}
