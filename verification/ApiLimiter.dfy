/** The limiter object: three caches on the heap, and the clock of the last collection. */
module ApiLimiter {
  import opened TokenBuckets
  import opened TokenLimiter
  import opened RateLimiter

  class ApiTokenRateLimiter {
    const byToken: BucketCache
    const byUser: BucketCache
    const bySource: BucketCache
    var lastGC: real

    constructor (now: real)
      ensures Valid() && fresh(byToken) && fresh(byUser) && fresh(bySource) && Entries() == {}
      ensures View() == NewLimiter(now)
    {
      byToken := new BucketCache(PerToken);
      byUser := new BucketCache(PerIdentity);
      bySource := new BucketCache(PerSource);
      lastGC := now;
    }

    /** Three different caches that share no entry. */
    ghost predicate Valid()
      reads this, byToken, byUser, bySource, Entries()
    {
      && byToken.policy == PerToken && byUser.policy == PerIdentity && bySource.policy == PerSource
      && byToken.Sound() && byUser.Sound() && bySource.Sound()
      && byToken.Entries() !! byUser.Entries() && byToken.Entries() !! bySource.Entries()
      && byUser.Entries() !! bySource.Entries()
    }

    ghost function Entries(): set<BucketEntry>
      reads this, byToken, byUser, bySource
    {
      byToken.Entries() + byUser.Entries() + bySource.Entries()
    }

    ghost function View(): Limiter
      reads this, byToken, byUser, bySource
    {
      Limiter(byToken.state, byUser.state, bySource.state, lastGC)
    }

    method ChargeToken(key: Key, now: real) returns (ok: bool)
      requires Valid()
      modifies byToken, byToken.Entries()
      ensures Valid() && byToken.state == Consume(PerToken, old(byToken.state), key, now)
      ensures ok <==> Admits(PerToken, old(byToken.state).slots, key, now)
      ensures fresh(byToken.Entries() - old(byToken.Entries()))
      ensures byUser.state == old(byUser.state) && bySource.state == old(bySource.state)
      ensures byUser.Entries() == old(byUser.Entries()) && bySource.Entries() == old(bySource.Entries())
    {
      ok := byToken.Consume(key, now);
    }

    /** An empty account is not charged. */
    method ChargeUser(key: Key, now: real) returns (ok: bool)
      requires Valid()
      modifies byUser, byUser.Entries()
      ensures Valid()
      ensures byUser.state == if key == "" then old(byUser.state) else Consume(PerIdentity, old(byUser.state), key, now)
      ensures ok <==> key == "" || Admits(PerIdentity, old(byUser.state).slots, key, now)
      ensures fresh(byUser.Entries() - old(byUser.Entries()))
      ensures byToken.state == old(byToken.state) && bySource.state == old(bySource.state)
      ensures byToken.Entries() == old(byToken.Entries()) && bySource.Entries() == old(bySource.Entries())
    {
      if key == "" {
        return true;
      }
      ok := byUser.Consume(key, now);
    }

    /** An empty source is not charged. */
    method ChargeSource(key: Key, now: real) returns (ok: bool)
      requires Valid()
      modifies bySource, bySource.Entries()
      ensures Valid()
      ensures bySource.state == if key == "" then old(bySource.state)
            else Consume(PerSource, old(bySource.state), key, now)
      ensures ok <==> key == "" || Admits(PerSource, old(bySource.state).slots, key, now)
      ensures fresh(bySource.Entries() - old(bySource.Entries()))
      ensures byToken.state == old(byToken.state) && byUser.state == old(byUser.state)
      ensures byToken.Entries() == old(byToken.Entries()) && byUser.Entries() == old(byUser.Entries())
    {
      if key == "" {
        return true;
      }
      ok := bySource.Consume(key, now);
    }

    method CollectToken(now: real)
      requires Valid()
      modifies byToken
      ensures Valid() && byToken.state == Collect(old(byToken.state), now)
      ensures byToken.Entries() <= old(byToken.Entries())
    {
      byToken.CollectIdle(now);
    }

    method CollectUser(now: real)
      requires Valid()
      modifies byUser
      ensures Valid() && byUser.state == Collect(old(byUser.state), now)
      ensures byUser.Entries() <= old(byUser.Entries())
    {
      byUser.CollectIdle(now);
    }

    method CollectSource(now: real)
      requires Valid()
      modifies bySource
      ensures Valid() && bySource.state == Collect(old(bySource.state), now)
      ensures bySource.Entries() <= old(bySource.Entries())
    {
      bySource.CollectIdle(now);
    }

    /** `garbageCollect`: the three caches in turn. */
    method GarbageCollect(now: real)
      requires Valid()
      modifies byToken, byUser, bySource
      ensures Valid() && byToken.state == Collect(old(byToken.state), now)
      ensures byUser.state == Collect(old(byUser.state), now)
      ensures bySource.state == Collect(old(bySource.state), now)
      ensures byToken.Entries() <= old(byToken.Entries()) && byUser.Entries() <= old(byUser.Entries())
      ensures bySource.Entries() <= old(bySource.Entries())
    {
      CollectToken(now);
      CollectUser(now);
      CollectSource(now);
    }

    /** Collect when a minute has passed since the last collection. */
    method SweepIfDue(now: real)
      requires Valid()
      modifies this, byToken, byUser, bySource
      ensures Valid() && View() == Swept(old(View()), now)
      ensures byToken.Entries() <= old(byToken.Entries()) && byUser.Entries() <= old(byUser.Entries())
      ensures bySource.Entries() <= old(bySource.Entries())
    {
      if now - lastGC >= GC_PERIOD {
        GarbageCollect(now);
        lastGC := now;
      }
    }

    /** `allow`: collect when due, then charge every dimension whatever the others answer. */
    method Allow(token: string, user: string, source: string, now: real) returns (allowed: bool)
      requires Valid()
      modifies this, byToken, byUser, bySource, Entries()
      ensures Valid()
      ensures allowed <==> Allows(old(View()), Request(token, user, source, now))
      ensures View() == Next(old(View()), Request(token, user, source, now))
    {
      SweepIfDue(now);
      allowed := ChargeAll(token, user, source, now);
    }

    /** Charge the three dimensions, whatever the others answer. */
    method ChargeAll(token: string, user: string, source: string, now: real) returns (allowed: bool)
      requires Valid()
      modifies byToken, byUser, bySource, Entries()
      ensures Valid()
      ensures byToken.state == Charge(PerToken, old(byToken.state), Request(token, user, source, now))
      ensures byUser.state == Charge(PerIdentity, old(byUser.state), Request(token, user, source, now))
      ensures bySource.state == Charge(PerSource, old(bySource.state), Request(token, user, source, now))
      ensures allowed <==>
        && LimitAdmits(PerToken, old(byToken.state).slots, Request(token, user, source, now))
        && LimitAdmits(PerIdentity, old(byUser.state).slots, Request(token, user, source, now))
        && LimitAdmits(PerSource, old(bySource.state).slots, Request(token, user, source, now))
    {
      allowed := ChargeToken(token, now);
      var ok := ChargeOwner(user, source, now);
      allowed := ok && allowed;
    }

    /** The account and the source of a request. */
    method ChargeOwner(user: string, source: string, now: real) returns (allowed: bool)
      requires Valid()
      modifies byUser, bySource, byUser.Entries(), bySource.Entries()
      ensures Valid() && byToken.state == old(byToken.state)
      ensures byUser.state ==
        if user == "" then old(byUser.state) else Consume(PerIdentity, old(byUser.state), user, now)
      ensures bySource.state ==
        if source == "" then old(bySource.state) else Consume(PerSource, old(bySource.state), source, now)
      ensures allowed <==>
        && (user == "" || Admits(PerIdentity, old(byUser.state).slots, user, now))
        && (source == "" || Admits(PerSource, old(bySource.state).slots, source, now))
    {
      allowed := ChargeUser(user, now);
      var ok := ChargeSource(source, now);
      allowed := ok && allowed;
    }

    /** `reset`: unlink the token's entry. */
    method Reset(token: string)
      requires Valid()
      modifies byToken
      ensures Valid() && View() == Next(old(View()), Event.Reset(token))
    {
      byToken.Drop(token);
    }
  }
}
