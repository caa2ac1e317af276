/**
  The API token rate limiter: every request is charged to its token, its account and its source,
  and is allowed when all of them admit it.
*/
module TokenLimiter {
  import opened Optional
  import opened Sets
  import opened TokenBuckets

  const GC_PERIOD := 60.0

  datatype Limiter = Limiter(byToken: Cache, byUser: Cache, bySource: Cache, lastGC: real)

  datatype Event =
    | Request(token: string, user: string, source: string, now: real)
    | Reset(token: string)

  function CacheOf(l: Limiter, d: Policy): Cache {
    match d
    case PerToken => l.byToken
    case PerIdentity => l.byUser
    case PerSource => l.bySource
  }

  /** The bucket a request is charged to; an empty account or source skips that dimension. */
  function KeyOf(d: Policy, e: Event): Option<Key>
    requires e.Request?
  {
    match d
    case PerToken => Some(e.token)
    case PerIdentity => if e.user == "" then None else Some(e.user)
    case PerSource => if e.source == "" then None else Some(e.source)
  }

  /** Collection runs at most once a minute, at the start of a request. */
  predicate Due(l: Limiter, now: real) {
    now - l.lastGC >= GC_PERIOD
  }

  function Swept(l: Limiter, now: real): Limiter {
    var due := Due(l, now);
    Limiter(Sweep(l.byToken, due, now), Sweep(l.byUser, due, now), Sweep(l.bySource, due, now),
            if due then now else l.lastGC)
  }

  function Charge(d: Policy, c: Cache, e: Event): Cache
    requires e.Request?
  {
    match KeyOf(d, e)
    case None => c
    case Some(key) => Consume(d, c, key, e.now)
  }

  predicate LimitAdmits(d: Policy, slots: map<Key, Slot>, e: Event)
    requires e.Request?
  {
    KeyOf(d, e).Some? ==> Admits(d, slots, KeyOf(d, e).value, e.now)
  }

  /** `allow`: every dimension is charged, whatever the others answer. */
  predicate Allows(l: Limiter, e: Event)
    requires e.Request?
  {
    var s := Swept(l, e.now);
    && LimitAdmits(PerToken, s.byToken.slots, e)
    && LimitAdmits(PerIdentity, s.byUser.slots, e)
    && LimitAdmits(PerSource, s.bySource.slots, e)
  }

  function Next(l: Limiter, e: Event): Limiter {
    match e
    case Request(_, _, _, now) =>
      var s := Swept(l, now);
      Limiter(Charge(PerToken, s.byToken, e), Charge(PerIdentity, s.byUser, e), Charge(PerSource, s.bySource, e),
        s.lastGC)
    case Reset(token) =>
      l.(byToken := Remove(l.byToken, token))
  }

  ghost predicate LimiterOk(l: Limiter, clock: real) {
    forall d :: CacheOk(d, CacheOf(l, d), clock)
  }

  /** Request times do not go back before `clock`, nor beyond `end`. */
  predicate Timely(events: seq<Event>, clock: real, end: real)
    decreases |events|
  {
    && clock <= end
    && (events != [] ==>
          if events[0].Request? then
            clock <= events[0].now <= end && Timely(events[1..], events[0].now, end)
          else
            Timely(events[1..], clock, end))
  }

  function ClockAfter(clock: real, e: Event): real {
    if e.Request? then e.now else clock
  }

  lemma ChargeKeepsCache(d: Policy, l: Limiter, e: Event, clock: real)
    requires e.Request? && LimiterOk(l, clock) && clock <= e.now
    ensures CacheOk(d, CacheOf(Swept(l, e.now), d), e.now)
    ensures CacheOk(d, CacheOf(Next(l, e), d), e.now)
    ensures CacheOf(Next(l, e), d) == Charge(d, CacheOf(Swept(l, e.now), d), e)
    ensures forall k: Key, t: real | e.now <= t ::
      Available(d, CacheOf(Swept(l, e.now), d).slots, k, t) == Available(d, CacheOf(l, d).slots, k, t)
  {
    assert CacheOk(d, CacheOf(l, d), clock);
    var s := CacheOf(Swept(l, e.now), d);
    assert s == Sweep(CacheOf(l, d), Due(l, e.now), e.now);
    SweepKeepsCache(d, CacheOf(l, d), Due(l, e.now), clock, e.now);
    if KeyOf(d, e).Some? {
      ConsumeKeepsCache(d, s, KeyOf(d, e).value, e.now, e.now);
    }
  }

  /** Every cache stays a bijection of map and list, in order of use and within capacity, on every run. */
  lemma NextKeepsLimiter(l: Limiter, e: Event, clock: real)
    requires LimiterOk(l, clock) && (e.Request? ==> clock <= e.now)
    ensures LimiterOk(Next(l, e), ClockAfter(clock, e))
  {
    forall d ensures CacheOk(d, CacheOf(Next(l, e), d), ClockAfter(clock, e)) {
      assert CacheOk(d, CacheOf(l, d), clock);
      match e {
        case Request(_, _, _, _) =>
          ChargeKeepsCache(d, l, e, clock);
        case Reset(token) =>
          assert CacheOk(PerToken, CacheOf(l, PerToken), clock);
          RemovalKeepsOrder(l.byToken, token);
          SubsetSize((l.byToken.slots - {token}).Keys, l.byToken.slots.Keys);
      }
    }
  }

  /** A reset gives the token a full bucket again and leaves every other token, account and source as it was. */
  lemma ResetForgetsOneToken(l: Limiter, token: Key, d: Policy, k: Key, now: real)
    ensures Available(d, CacheOf(Next(l, Reset(token)), d).slots, k, now) ==
            if d == PerToken && k == token then d.Burst() else Available(d, CacheOf(l, d).slots, k, now)
    ensures token !in Next(l, Reset(token)).byToken.slots && token !in Next(l, Reset(token)).byToken.order
    ensures d != PerToken ==> CacheOf(Next(l, Reset(token)), d) == CacheOf(l, d)
  {
    NotInWithout(l.byToken.order, token);
  }

  lemma {:induction false} NotInWithout(order: seq<Key>, key: Key)
    ensures key !in Without(order, key)
  {
    if order != [] {
      NotInWithout(order[1..], key);
    }
  }

  // ---------------------------------------------------------------------------------------
  // The admission bound
  // ---------------------------------------------------------------------------------------

  /** The step neither evicts nor resets the bucket of `k`. */
  predicate Spares(d: Policy, k: Key, l: Limiter, e: Event) {
    match e
    case Request(_, _, _, now) =>
      KeyOf(d, e).Some? ==> Victim(CacheOf(Swept(l, now), d), KeyOf(d, e).value) != Some(k)
    case Reset(token) => d.PerToken? ==> token != k
  }

  predicate SparesAll(d: Policy, k: Key, l: Limiter, events: seq<Event>)
    decreases |events|
  {
    events == [] || (Spares(d, k, l, events[0]) && SparesAll(d, k, Next(l, events[0]), events[1..]))
  }

  /** The allowed requests charged to bucket `k` of dimension `d`. */
  function Allowed(d: Policy, k: Key, l: Limiter, events: seq<Event>): nat
    decreases |events|
  {
    if events == [] then 0
    else
      var e := events[0];
      (if e.Request? && KeyOf(d, e) == Some(k) && Allows(l, e) then 1 else 0) + Allowed(d, k, Next(l, e), events[1..])
  }

  /** What one request does to the tokens available to `k`. */
  lemma RequestSpends(d: Policy, k: Key, l: Limiter, e: Event, clock: real)
    requires e.Request? && LimiterOk(l, clock) && clock <= e.now && Spares(d, k, l, e)
    ensures var p := d;
            Available(p, CacheOf(Next(l, e), d).slots, k, e.now)
              <= Available(p, CacheOf(l, d).slots, k, e.now)
                 - (if KeyOf(d, e) == Some(k) && Allows(l, e) then 1.0 else 0.0)
  {
    ChargeKeepsCache(d, l, e, clock);
    var s := CacheOf(Swept(l, e.now), d);
    if KeyOf(d, e).Some? {
      RequestTakesToken(d, s, KeyOf(d, e).value, k, e.now);
    }
  }

  /** The bound for the rest of the run, from the time of a request, gives it from before the request. */
  lemma BoundBeforeRequest(d: Policy, k: Key, l: Limiter, e: Event, rest: nat, clock: real, from: real, end: real)
    requires e.Request? && LimiterOk(l, clock) && clock <= from <= e.now <= end && Spares(d, k, l, e)
    requires rest as real <= Available(d, CacheOf(Next(l, e), d).slots, k, e.now) + Gain(d, end - e.now)
    ensures ((if KeyOf(d, e) == Some(k) && Allows(l, e) then 1 else 0) + rest) as real
         <= Available(d, CacheOf(l, d).slots, k, from) + Gain(d, end - from)
  {
    assert CacheOk(d, CacheOf(l, d), clock);
    RequestSpends(d, k, l, e, clock);
    AvailableLater(d, CacheOf(l, d).slots, k, clock, from, e.now);
  }

  lemma {:induction false} AllowedWithinAvailable(d: Policy, k: Key, l: Limiter, events: seq<Event>,
                                                  clock: real, from: real, end: real)
    requires LimiterOk(l, clock) && clock <= from && Timely(events, from, end) && SparesAll(d, k, l, events)
    ensures Allowed(d, k, l, events) as real <= Available(d, CacheOf(l, d).slots, k, from) + Gain(d, end - from)
    decreases |events|
  {
    if events == [] {
      assert CacheOk(d, CacheOf(l, d), clock);
      RefillIsAvailable(d, CacheOf(l, d).slots, k, clock, from);
    } else {
      var e := events[0];
      NextKeepsLimiter(l, e, clock);
      if e.Request? {
        AllowedWithinAvailable(d, k, Next(l, e), events[1..], e.now, e.now, end);
        BoundBeforeRequest(d, k, l, e, Allowed(d, k, Next(l, e), events[1..]), clock, from, end);
      } else {
        AllowedWithinAvailable(d, k, Next(l, e), events[1..], clock, from, end);
      }
    }
  }

  /**
    Over any window in which its bucket is neither evicted nor reset, a token, an account across
    all its tokens, or a source gets at most its burst plus its rate times the elapsed time.
  */
  lemma AdmissionBound(d: Policy, k: Key, l: Limiter, events: seq<Event>, clock: real, end: real)
    requires LimiterOk(l, clock) && Timely(events, clock, end) && SparesAll(d, k, l, events)
    ensures Allowed(d, k, l, events) as real <= d.Burst() + RatePerMinute(d) * (end - clock) / 60.0
  {
    assert CacheOk(d, CacheOf(l, d), clock);
    RefillIsAvailable(d, CacheOf(l, d).slots, k, clock, clock);
    AllowedWithinAvailable(d, k, l, events, clock, clock, end);
  }

  /** The requests among `events` that are allowed and that `who` picks out. */
  ghost function AllowedWhere(l: Limiter, events: seq<Event>, who: Event -> bool): nat
    decreases |events|
  {
    if events == [] then 0
    else
      (if events[0].Request? && who(events[0]) && Allows(l, events[0]) then 1 else 0)
      + AllowedWhere(Next(l, events[0]), events[1..], who)
  }

  lemma {:induction false} AllowedWhereIs(d: Policy, k: Key, l: Limiter, events: seq<Event>, who: Event -> bool)
    requires forall e: Event | e.Request? :: who(e) <==> KeyOf(d, e) == Some(k)
    ensures AllowedWhere(l, events, who) == Allowed(d, k, l, events)
    decreases |events|
  {
    if events != [] {
      AllowedWhereIs(d, k, Next(l, events[0]), events[1..], who);
    }
  }

  /** At most 60 requests of a token at once, and 600 a minute. */
  lemma TokenBound(token: string, l: Limiter, events: seq<Event>, clock: real, end: real)
    requires LimiterOk(l, clock) && Timely(events, clock, end) && SparesAll(PerToken, token, l, events)
    ensures AllowedWhere(l, events, (e: Event) => e.Request? && e.token == token) as real
         <= 60.0 + 600.0 * (end - clock) / 60.0
  {
    AllowedWhereIs(PerToken, token, l, events, (e: Event) => e.Request? && e.token == token);
    AdmissionBound(PerToken, token, l, events, clock, end);
  }

  /** At most 600 requests of an account at once, whatever tokens they come with, and 6,000 a minute. */
  lemma AccountBound(user: string, l: Limiter, events: seq<Event>, clock: real, end: real)
    requires user != ""
    requires LimiterOk(l, clock) && Timely(events, clock, end) && SparesAll(PerIdentity, user, l, events)
    ensures AllowedWhere(l, events, (e: Event) => e.Request? && e.user == user) as real
         <= 600.0 + 6_000.0 * (end - clock) / 60.0
  {
    AllowedWhereIs(PerIdentity, user, l, events, (e: Event) => e.Request? && e.user == user);
    AdmissionBound(PerIdentity, user, l, events, clock, end);
  }

  /** At most 1,200 requests from a source at once, whatever their accounts, and 12,000 a minute. */
  lemma SourceBound(source: string, l: Limiter, events: seq<Event>, clock: real, end: real)
    requires source != ""
    requires LimiterOk(l, clock) && Timely(events, clock, end) && SparesAll(PerSource, source, l, events)
    ensures AllowedWhere(l, events, (e: Event) => e.Request? && e.source == source) as real
         <= 1_200.0 + 12_000.0 * (end - clock) / 60.0
  {
    AllowedWhereIs(PerSource, source, l, events, (e: Event) => e.Request? && e.source == source);
    AdmissionBound(PerSource, source, l, events, clock, end);
  }

  // ---------------------------------------------------------------------------------------
  // What a request is answered and charged
  // ---------------------------------------------------------------------------------------

  /** The tokens left to a token, an account or a source. */
  function TokensOf(l: Limiter, d: Policy, k: Key, now: real): real {
    Available(d, CacheOf(l, d).slots, k, now)
  }

  /**
    A request is allowed exactly when its token, its account and its source each have a whole token
    left; an empty account or source is not asked.
  */
  lemma AllowsExactly(l: Limiter, e: Event, clock: real)
    requires e.Request? && LimiterOk(l, clock) && clock <= e.now
    ensures Allows(l, e) <==>
            && TokensOf(l, PerToken, e.token, e.now) >= 1.0
            && (e.user == "" || TokensOf(l, PerIdentity, e.user, e.now) >= 1.0)
            && (e.source == "" || TokensOf(l, PerSource, e.source, e.now) >= 1.0)
  {
    AdmitsExactly(PerToken, l, e, clock, e.token);
    AdmitsExactly(PerIdentity, l, e, clock, e.user);
    AdmitsExactly(PerSource, l, e, clock, e.source);
  }

  lemma AdmitsExactly(d: Policy, l: Limiter, e: Event, clock: real, k: Key)
    requires e.Request? && LimiterOk(l, clock) && clock <= e.now
    ensures Admits(d, CacheOf(Swept(l, e.now), d).slots, k, e.now) <==> TokensOf(l, d, k, e.now) >= 1.0
  {
    ChargeKeepsCache(d, l, e, clock);
    ConsumeSpends(d, CacheOf(Swept(l, e.now), d).slots, k, e.now, e.now, e.now);
  }

  /** The field of a request that a limit is kept by. */
  function NameIn(d: Policy, e: Event): string
    requires e.Request?
  {
    match d case PerToken => e.token case PerIdentity => e.user case PerSource => e.source
  }

  /**
    Whatever the answer, the request takes a token from each limit it names that has one, and
    nothing from any other bucket that it does not displace; an empty account or source leaves
    that limit alone.
  */
  lemma ChargesExactly(l: Limiter, e: Event, clock: real, d: Policy, k: Key)
    requires e.Request? && LimiterOk(l, clock) && clock <= e.now && Spares(d, k, l, e)
    ensures var before, charged := TokensOf(l, d, k, e.now), k == NameIn(d, e) && (k != "" || d == PerToken);
            TokensOf(Next(l, e), d, k, e.now) == before - if charged && before >= 1.0 then 1.0 else 0.0
    ensures d != PerToken && NameIn(d, e) == "" ==> CacheOf(Next(l, e), d) == CacheOf(Swept(l, e.now), d)
  {
    ChargeKeepsCache(d, l, e, clock);
    var c := CacheOf(Swept(l, e.now), d);
    if KeyOf(d, e).Some? {
      var key := KeyOf(d, e).value;
      RequestTakesToken(d, c, key, k, e.now);
    }
  }

  /** A bucket fills at its rate up to its burst, from a full one. */
  lemma RefillsExactly(l: Limiter, clock: real, k: Key, now: real, later: real)
    requires LimiterOk(l, clock) && clock <= now <= later
    ensures TokensOf(l, PerToken, k, later) == Min(60.0, TokensOf(l, PerToken, k, now) + 600.0 * (later - now) / 60.0)
    ensures TokensOf(l, PerIdentity, k, later) ==
            Min(600.0, TokensOf(l, PerIdentity, k, now) + 6_000.0 * (later - now) / 60.0)
    ensures TokensOf(l, PerSource, k, later) ==
            Min(1_200.0, TokensOf(l, PerSource, k, now) + 12_000.0 * (later - now) / 60.0)
    ensures k !in l.byToken.slots ==> TokensOf(l, PerToken, k, now) == 60.0
    ensures k !in l.byUser.slots ==> TokensOf(l, PerIdentity, k, now) == 600.0
    ensures k !in l.bySource.slots ==> TokensOf(l, PerSource, k, now) == 1_200.0
  {
    RefillLaw(l, PerToken, clock, k, now, later);
    RefillLaw(l, PerIdentity, clock, k, now, later);
    RefillLaw(l, PerSource, clock, k, now, later);
  }

  lemma RefillLaw(l: Limiter, d: Policy, clock: real, k: Key, now: real, later: real)
    requires LimiterOk(l, clock) && clock <= now <= later
    ensures TokensOf(l, d, k, later) == Min(d.Burst(), TokensOf(l, d, k, now) + Gain(d, later - now))
  {
    assert CacheOk(d, CacheOf(l, d), clock);
    AvailableLater(d, CacheOf(l, d).slots, k, clock, now, later);
  }

  /** A minute after the last collection, the next request drops what was not used for five minutes. */
  lemma SweepsExactly(l: Limiter, now: real, d: Policy, k: Key)
    ensures now - l.lastGC < 60.0 ==> Swept(l, now) == l
    ensures now - l.lastGC >= 60.0 ==>
              && Swept(l, now).lastGC == now
              && (k in CacheOf(Swept(l, now), d).slots <==>
                    k in CacheOf(l, d).slots && now - CacheOf(l, d).slots[k].lastSeen <= 300.0)
  {
  }

  // ---------------------------------------------------------------------------------------
  // Garbage collection is unobservable
  // ---------------------------------------------------------------------------------------

  /** The reference limiter: unbounded, and never collects. */
  type Reference = Policy -> map<Key, Slot>

  function ReferenceCharge(d: Policy, slots: map<Key, Slot>, e: Event): map<Key, Slot>
    requires e.Request?
  {
    match KeyOf(d, e)
    case None => slots
    case Some(key) => slots[key := Spend(d, slots, key, e.now)]
  }

  predicate ReferenceAllows(r: Reference, e: Event)
    requires e.Request?
  {
    LimitAdmits(PerToken, r(PerToken), e) && LimitAdmits(PerIdentity, r(PerIdentity), e)
      && LimitAdmits(PerSource, r(PerSource), e)
  }

  function ReferenceNext(r: Reference, e: Event): Reference
    requires e.Request?
  {
    (d: Policy) => ReferenceCharge(d, r(d), e)
  }

  /** A request that displaces no bucket. */
  predicate NoEviction(l: Limiter, e: Event)
    requires e.Request?
  {
    var s := Swept(l, e.now);
    forall d: Policy :: KeyOf(d, e).Some? ==> Victim(CacheOf(s, d), KeyOf(d, e).value).None?
  }

  predicate Undisturbed(l: Limiter, events: seq<Event>)
    decreases |events|
  {
    events == [] || (events[0].Request? && NoEviction(l, events[0]) && Undisturbed(Next(l, events[0]), events[1..]))
  }

  function Answers(l: Limiter, events: seq<Event>): seq<bool>
    requires Undisturbed(l, events)
    decreases |events|
  {
    if events == [] then [] else [Allows(l, events[0])] + Answers(Next(l, events[0]), events[1..])
  }

  function ReferenceAnswers(r: Reference, events: seq<Event>): seq<bool>
    requires forall i | 0 <= i < |events| :: events[i].Request?
    decreases |events|
  {
    if events == [] then []
    else [ReferenceAllows(r, events[0])] + ReferenceAnswers(ReferenceNext(r, events[0]), events[1..])
  }

  /** The two limiters agree on what every key can still get, at every time from `clock` on. */
  ghost predicate Agree(l: Limiter, r: Reference, clock: real) {
    && LimiterOk(l, clock)
    && (forall d: Policy :: SlotsOk(d, r(d), clock))
    && forall d: Policy, k: Key, t: real | clock <= t ::
         Available(d, CacheOf(l, d).slots, k, t) == Available(d, r(d), k, t)
  }

  lemma ChargeAgrees(d: Policy, l: Limiter, r: Reference, e: Event, clock: real, k: Key, t: real)
    requires e.Request? && Agree(l, r, clock) && clock <= e.now <= t && NoEviction(l, e)
    ensures LimitAdmits(d, CacheOf(Swept(l, e.now), d).slots, e) <==> LimitAdmits(d, r(d), e)
    ensures Available(d, CacheOf(Next(l, e), d).slots, k, t)
         == Available(d, ReferenceCharge(d, r(d), e), k, t)
  {
    ChargeKeepsCache(d, l, e, clock);
    var s := CacheOf(Swept(l, e.now), d);
    assert Available(d, s.slots, k, t) == Available(d, r(d), k, t);
    if KeyOf(d, e).Some? {
      var key := KeyOf(d, e).value;
      assert Available(d, s.slots, key, e.now) == Available(d, r(d), key, e.now);
      assert SlotsOk(d, r(d), e.now) by {
        assert forall x | x in r(d) :: SlotOk(d, r(d)[x], clock);
      }
      RequestKeepsAgreement(d, s, r(d), key, k, e.now, t);
    }
  }

  lemma RequestAgrees(l: Limiter, r: Reference, e: Event, clock: real)
    requires e.Request? && Agree(l, r, clock) && clock <= e.now && NoEviction(l, e)
    ensures Allows(l, e) <==> ReferenceAllows(r, e)
    ensures Agree(Next(l, e), ReferenceNext(r, e), e.now)
  {
    ChargeAgrees(PerToken, l, r, e, clock, "", e.now);
    ChargeAgrees(PerIdentity, l, r, e, clock, "", e.now);
    ChargeAgrees(PerSource, l, r, e, clock, "", e.now);
    NextKeepsLimiter(l, e, clock);
    var l', r' := Next(l, e), ReferenceNext(r, e);
    forall d: Policy, k: Key, t: real | e.now <= t
      ensures Available(d, CacheOf(l', d).slots, k, t) == Available(d, r'(d), k, t)
    {
      ChargeAgrees(d, l, r, e, clock, k, t);
    }
    ReferenceKeepsSlots(r, e, clock);
  }

  lemma ReferenceKeepsSlots(r: Reference, e: Event, clock: real)
    requires e.Request? && clock <= e.now && forall d: Policy :: SlotsOk(d, r(d), clock)
    ensures forall d: Policy :: SlotsOk(d, ReferenceNext(r, e)(d), e.now)
  {
    forall d: Policy ensures SlotsOk(d, ReferenceNext(r, e)(d), e.now) {
      assert forall x | x in r(d) :: SlotOk(d, r(d)[x], clock);
      if KeyOf(d, e).Some? {
        ConsumeSpends(d, r(d), KeyOf(d, e).value, clock, e.now, e.now);
      }
    }
  }

  /** Without eviction or reset, the collecting limiter gives the answers of one that never collects. */
  lemma {:induction false} CollectionIsUnobservable(l: Limiter, r: Reference, events: seq<Event>, clock: real,
                                                    end: real)
    requires Agree(l, r, clock) && Timely(events, clock, end) && Undisturbed(l, events)
    ensures forall i | 0 <= i < |events| :: events[i].Request?
    ensures Answers(l, events) == ReferenceAnswers(r, events)
    decreases |events|
  {
    if events != [] {
      RequestAgrees(l, r, events[0], clock);
      CollectionIsUnobservable(Next(l, events[0]), ReferenceNext(r, events[0]), events[1..], events[0].now, end);
      assert forall i | 0 < i < |events| :: events[i] == events[1..][i - 1];
    }
  }

  const NeverUsed: Reference := (d: Policy) => map[]

  function NewLimiter(now: real): Limiter {
    Limiter(Cache(map[], []), Cache(map[], []), Cache(map[], []), now)
  }

  lemma NewLimiterAgrees(now: real)
    ensures Agree(NewLimiter(now), NeverUsed, now)
  {
    forall d: Policy ensures CacheOk(d, CacheOf(NewLimiter(now), d), now) {
      assert CacheOf(NewLimiter(now), d) == Cache(map[], []);
    }
  }

  /** So it is from the start of the process. */
  lemma NewLimiterIsUnobservable(events: seq<Event>, now: real, end: real)
    requires Timely(events, now, end) && Undisturbed(NewLimiter(now), events)
    ensures forall i | 0 <= i < |events| :: events[i].Request?
    ensures Answers(NewLimiter(now), events) == ReferenceAnswers(NeverUsed, events)
  {
    NewLimiterAgrees(now);
    CollectionIsUnobservable(NewLimiter(now), NeverUsed, events, now, end);
  }
}
