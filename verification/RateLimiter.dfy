/** The limiter table and the middleware loop of ratelimit.go, updating token buckets in place. */
module RateLimiters {
  import opened Wrappers
  import opened RateLimits

  // golang.org/x/time/rate.Limiter, as an exact bucket.
  class Limiter {
    ghost const key: string // the table entry it belongs to
    const per: int
    const burst: int
    var credit: int
    var last: int

    constructor (ghost key: string, per: int, burst: int, now: int)
      ensures this.key == key && Value() == Bucket(per, burst, Capacity(per, burst), now)
    {
      this.key := key;
      this.per, this.burst := per, burst;
      credit, last := Capacity(per, burst), now;
    }

    function Value(): Bucket
      reads this
    {
      Bucket(per, burst, credit, last)
    }

    method Allow(now: int) returns (ok: bool)
      modifies this
      ensures ok == old(Allows(Value(), now)) && Value() == old(Take(Value(), now))
    {
      var level := Level(Value(), now);
      ok := burst >= 1 && level >= per;
      if ok {
        credit, last := level - per, now;
      }
    }

    method AllowOrTell(now: int) returns (ok: bool, remaining: int)
      requires Sound(Value())
      modifies this
      ensures Told(old(Value()), Value(), now, ok, remaining)
    {
      SoundBucket(Value(), now);
      ok := Allow(now);
      remaining := 0;
      if !ok {
        remaining := Remaining(Value(), now);
      }
    }
  }

  // Allow, and what limiter.Tokens() tells after a rejection.
  ghost predicate Told(before: Bucket, after: Bucket, now: int, ok: bool, remaining: int) {
    ok == Allows(before, now) && after == Take(before, now) && Sound(after) && (!ok ==> remaining == 0)
  }

  ghost function Values(ls: map<string, Limiter>): Buckets
    reads ls.Values
  {
    map key | key in ls :: ls[key].Value()
  }

  datatype Reply = Reply(serverError: bool, verdict: Verdict, remaining: int)

  class RateLimiter {
    var limiters: map<string, Limiter>
    const limits: seq<LimitConfig>

    ghost var owned: set<object> // the limiters

    ghost predicate Valid()
      reads this, owned
    {
      && this !in owned
      && (forall lc | lc in limits :: Legal(lc))
      && forall key | key in limiters ::
           limiters[key] in owned && limiters[key].key == key && Sound(limiters[key].Value())
    }

    constructor (limits: seq<LimitConfig>)
      requires forall lc | lc in limits :: Legal(lc)
      ensures Valid() && this.limits == limits && limiters == map[] && owned == {}
    {
      this.limits := limits;
      limiters := map[];
      owned := {};
    }

    // One request; when no limit objects the next handler is called.
    method ServeHTTP(addr: string, now: int) returns (reply: Reply)
      requires Valid()
      modifies this, owned
      ensures Valid() && fresh(owned - old(owned))
      ensures (Values(limiters), reply.verdict) == Handle(limits, old(Values(limiters)), addr, now)
      ensures reply.verdict.Limited? ==> reply.verdict.limit < |limits|
      ensures reply.serverError <==> WritesServerError(limits, reply.verdict)
      ensures reply.verdict.Limited? ==> reply.remaining == 0
    {
      ghost var goal := Handle(limits, Values(limiters), addr, now);
      Beginning(goal, addr, now);
      reply := TryLimits(goal, addr, now);
    }

    // The loop over the limits; goal is what it is to arrive at.
    method TryLimits(ghost goal: (Buckets, Verdict), addr: string, now: int) returns (reply: Reply)
      requires Valid() && Reached(Reply(false, Next, 0), 0, goal, addr, now)
      modifies this, owned
      ensures Valid() && fresh(owned - old(owned)) && Arrived(reply, goal)
    {
      reply := Reply(false, Next, 0);
      var k := 0;
      while k < |limits| && reply.verdict.Next?
        invariant k <= |limits| && Valid() && fresh(owned - old(owned))
        invariant Reached(reply, k, goal, addr, now)
        decreases |limits| - k
      {
        reply := TryLimit(reply, k, goal, addr, now);
        k := k + 1;
      }
      Finished(reply, k, goal, addr, now);
    }

    lemma Beginning(goal: (Buckets, Verdict), addr: string, now: int)
      requires Valid() && goal == Handle(limits, Values(limiters), addr, now)
      ensures Reached(Reply(false, Next, 0), 0, goal, addr, now)
    {
    }

    lemma Finished(reply: Reply, k: nat, goal: (Buckets, Verdict), addr: string, now: int)
      requires Valid() && k <= |limits| && Reached(reply, k, goal, addr, now)
      requires k == |limits| || reply.verdict.Limited?
      ensures Arrived(reply, goal)
    {
    }

    // The loop is over.
    ghost predicate Arrived(reply: Reply, goal: (Buckets, Verdict))
      reads this, owned
      requires Valid()
    {
      && (Values(limiters), reply.verdict) == goal
      && (reply.verdict.Limited? ==> reply.verdict.limit < |limits| && reply.remaining == 0)
      && (reply.serverError <==> WritesServerError(limits, reply.verdict))
    }

    // After k rounds: what is still to come makes goal of the present table.
    ghost predicate Reached(reply: Reply, k: nat, goal: (Buckets, Verdict), addr: string, now: int)
      reads this, owned
      requires Valid() && k <= |limits|
    {
      && (reply.serverError <==> Misspelled(limits, k))
      && match reply.verdict
         case Next => goal == Visit(limits, Keys(limits, addr), k, Values(limiters), now)
         case Limited(j) => j + 1 == k && reply.remaining == 0 && goal == (Values(limiters), Limited(j))
    }

    // One round of the loop.
    method TryLimit(reply: Reply, k: nat, ghost goal: (Buckets, Verdict), addr: string, now: int) returns (reply': Reply)
      requires Valid() && k < |limits| && reply.verdict.Next? && Reached(reply, k, goal, addr, now)
      modifies this, owned
      ensures Valid() && fresh(owned - old(owned))
      ensures Reached(reply', k + 1, goal, addr, now)
    {
      VisitStep(limits, Keys(limits, addr), k, Values(limiters), now);
      var (key, err) := GetKey(limits[k], addr);
      var ok, remaining := AllowOne(key, limits[k], now);
      reply' := Reply(reply.serverError || err, if ok then Next else Limited(k), remaining);
    }

    // The limiter of a key, created full on first use.
    method GetLimiter(key: string, config: LimitConfig, now: int) returns (limiter: Limiter)
      requires Valid() && Legal(config)
      modifies this
      ensures Valid() && fresh(owned - old(owned))
      ensures key in limiters && limiter == limiters[key]
      ensures Values(limiters) == old(Values(limiters))[key := old(BucketFor(Values(limiters), config, key, now))]
    {
      if key in limiters {
        return limiters[key];
      }
      SoundFull(config, now);
      limiter := new Limiter(key, config.per, config.requests, now);
      limiters := limiters[key := limiter];
      owned := owned + {limiter};
    }

    // Get or create the limiter of a key and ask it for one token.
    method AllowOne(key: string, config: LimitConfig, now: int) returns (ok: bool, remaining: int)
      requires Valid() && Legal(config)
      modifies this, owned
      ensures Valid() && fresh(owned - old(owned))
      ensures ok == old(Allows(BucketFor(Values(limiters), config, key, now), now))
      ensures Values(limiters) == Ask(old(Values(limiters)), config, key, now)
      ensures !ok ==> remaining == 0
    {
      var limiter := GetLimiter(key, config, now);
      ghost var bs := Values(limiters);
      assert limiter.Value() == bs[key];
      ok, remaining := limiter.AllowOrTell(now);
      assert Values(limiters) == bs[key := limiter.Value()];
    }
  }

  method NewRateLimitMiddleware(limits: seq<string>) returns (r: Result<seq<LimitConfig>, ParseError>)
    ensures r.Ok? <==> forall i | 0 <= i < |limits| :: ParseLimitConfig(limits[i]).Ok?
    ensures r.Ok? ==> |r.value| == |limits|
                      && forall i | 0 <= i < |limits| :: r.value[i] == ParseLimitConfig(limits[i]).value
    ensures r.Ok? ==> forall lc | lc in r.value :: Legal(lc)
    ensures r.Err? ==> exists i | 0 <= i < |limits| ::
              (&& ParseLimitConfig(limits[i]) == Err(r.error)
               && forall j | 0 <= j < i :: ParseLimitConfig(limits[j]).Ok?)
  {
    var parsedLimits := [];
    for k := 0 to |limits|
      invariant |parsedLimits| == k
      invariant forall i | 0 <= i < k :: ParseLimitConfig(limits[i]) == Ok(parsedLimits[i])
      invariant forall i | 0 <= i < k :: Legal(parsedLimits[i])
    {
      var parsed := ParseLimitConfig(limits[k]);
      if parsed.Err? {
        return Err(parsed.error);
      }
      ParsedIsLegal(limits[k]);
      parsedLimits := parsedLimits + [parsed.value];
    }
    return Ok(parsedLimits);
  }
}
