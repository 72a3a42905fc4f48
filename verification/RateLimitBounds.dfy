/** What the limiter table guarantees over every run of timed requests. */
module RateLimitBounds {
  import opened Arithmetic
  import opened RateLimits

  datatype Arrival = Arrival(addr: string, time: int)

  predicate Ordered(run: seq<Arrival>) {
    forall i, j | 0 <= i < j < |run| :: run[i].time <= run[j].time
  }

  predicate AllLegal(limits: seq<LimitConfig>) {
    forall i | 0 <= i < |limits| :: Legal(limits[i])
  }

  // The table after run, starting from an empty table.
  function After(limits: seq<LimitConfig>, run: seq<Arrival>): Buckets {
    if run == [] then map[]
    else Handle(limits, After(limits, run[..|run| - 1]), run[|run| - 1].addr, run[|run| - 1].time).0
  }

  function VerdictAt(limits: seq<LimitConfig>, run: seq<Arrival>, k: nat): Verdict
    requires k < |run|
  {
    Handle(limits, After(limits, run[..k]), run[k].addr, run[k].time).1
  }

  // Request k comes from the address part ip and reaches the next handler.
  ghost function Passing(limits: seq<LimitConfig>, run: seq<Arrival>, ip: string): nat -> bool {
    (k: nat) => k < |run| && AddressPart(run[k].addr) == ip && VerdictAt(limits, run, k).Next?
  }

  // How many of a .. b-1 satisfy p.
  ghost function CountIn(p: nat -> bool, a: nat, b: nat): nat
    requires a <= b
  {
    if a == b then 0 else CountIn(p, a, b - 1) + if p(b - 1) then 1 else 0
  }

  // How many of the requests a .. b-1 come from ip and reach the next handler.
  ghost function Passes(limits: seq<LimitConfig>, run: seq<Arrival>, a: nat, b: nat, ip: string): nat
    requires a <= b
  {
    CountIn(Passing(limits, run, ip), a, b)
  }

  // ---------- the buckets in every reachable table ----------

  // The bucket of a key, if there is one, is sound, is that of the limit the key was made from,
  // and is not from the future.
  predicate Fit(lc: LimitConfig, key: string, bs: Buckets, t: int) {
    key in bs ==>
      Sound(bs[key]) && bs[key].per == lc.per && bs[key].burst == lc.requests && bs[key].last <= t
  }

  // Limits with equal keys are the same limit, and the buckets of all keys fit.
  ghost predicate Coherent(limits: seq<LimitConfig>, keys: seq<string>, bs: Buckets, t: int) {
    && |keys| == |limits|
    && (forall i | 0 <= i < |limits| :: Legal(limits[i]) && Fit(limits[i], keys[i], bs, t))
    && (forall i, j | 0 <= i < |limits| && 0 <= j < |limits| && keys[i] == keys[j] ::
          SameLimit(limits[i], limits[j]))
  }

  // The same for one more limit, whose bucket is being watched.
  ghost predicate Watched(limits: seq<LimitConfig>, keys: seq<string>, bs: Buckets, t: int, lc: LimitConfig, key: string) {
    && Coherent(limits, keys, bs, t)
    && Legal(lc) && Fit(lc, key, bs, t)
    && (forall i | 0 <= i < |limits| && keys[i] == key :: SameLimit(limits[i], lc))
  }

  // The credit at time t of the bucket under key; an absent bucket is full.
  function Credit(bs: Buckets, lc: LimitConfig, key: string, t: int): int {
    Level(BucketFor(bs, lc, key, t), t)
  }

  lemma AskStep(limits: seq<LimitConfig>, keys: seq<string>, k: nat, bs: Buckets, t: int, lc: LimitConfig, key: string)
    requires Watched(limits, keys, bs, t, lc, key) && k < |limits|
    ensures Watched(limits, keys, Ask(bs, limits[k], keys[k], t), t, lc, key)
    ensures Credit(Ask(bs, limits[k], keys[k], t), lc, key, t) == Credit(bs, lc, key, t)
              - if Allows(BucketFor(bs, limits[k], keys[k], t), t) && keys[k] == key then lc.per else 0
  {
    SoundFull(limits[k], t);
    SoundBucket(BucketFor(bs, limits[k], keys[k], t), t);
  }

  // ---------- how much a request takes ----------

  // The price of one token of lc for each of the limits from .. upto-1 whose key is key.
  function Cost(keys: seq<string>, from: nat, upto: nat, lc: LimitConfig, key: string): int
    requires from <= upto <= |keys|
    decreases upto - from
  {
    if from == upto then 0
    else (if keys[from] == key then lc.per else 0) + Cost(keys, from + 1, upto, lc, key)
  }

  function Stop(limits: seq<LimitConfig>, v: Verdict): (k: nat)
    requires v.Limited? ==> v.limit < |limits|
    ensures k <= |limits|
  {
    if v.Limited? then v.limit else |limits|
  }

  // A request takes one token for each limit it got past, from that limit's bucket, and none for
  // the limit that rejected it or for any later one.
  lemma {:induction false} VisitTakes(limits: seq<LimitConfig>, keys: seq<string>, k: nat, bs: Buckets, t: int,
                                      lc: LimitConfig, key: string)
    requires Watched(limits, keys, bs, t, lc, key) && k <= |limits|
    ensures var (bs', v) := Visit(limits, keys, k, bs, t);
            && Watched(limits, keys, bs', t, lc, key)
            && Credit(bs', lc, key, t) == Credit(bs, lc, key, t) - Cost(keys, k, Stop(limits, v), lc, key)
    decreases |limits| - k
  {
    if k < |limits| {
      AskStep(limits, keys, k, bs, t, lc, key);
      if Allows(BucketFor(bs, limits[k], keys[k], t), t) {
        VisitTakes(limits, keys, k + 1, Ask(bs, limits[k], keys[k], t), t, lc, key);
      }
    }
  }

  lemma {:induction false} CostOfPassing(keys: seq<string>, from: nat, i: nat, lc: LimitConfig, key: string)
    requires from <= i <= |keys| && lc.per > 0
    ensures Cost(keys, from, |keys|, lc, key) >= 0
    ensures i < |keys| && keys[i] == key ==> Cost(keys, from, |keys|, lc, key) >= lc.per
    decreases |keys| - from
  {
    if from < |keys| {
      CostOfPassing(keys, from + 1, if from < i then i else from + 1, lc, key);
    }
  }

  // ---------- every run ----------

  lemma KeysCoherent(limits: seq<LimitConfig>, visitor: string, lc: LimitConfig, addr: string)
    requires AllLegal(limits) && Legal(lc)
    ensures var keys := Keys(limits, visitor);
            && (forall i, j | 0 <= i < |limits| && 0 <= j < |limits| && keys[i] == keys[j] ::
                  SameLimit(limits[i], limits[j]))
            && (forall i | 0 <= i < |limits| && keys[i] == Key(lc, addr) :: SameLimit(limits[i], lc))
  {
    var keys := Keys(limits, visitor);
    forall i, j | 0 <= i < |limits| && 0 <= j < |limits| && keys[i] == keys[j]
      ensures SameLimit(limits[i], limits[j])
    {
      KeyCondition(limits[i], visitor, limits[j], visitor);
    }
    forall i | 0 <= i < |limits| && keys[i] == Key(lc, addr)
      ensures SameLimit(limits[i], lc)
    {
      KeyCondition(limits[i], visitor, lc, addr);
    }
  }

  lemma {:induction false} RunFits(limits: seq<LimitConfig>, run: seq<Arrival>, t: int, lc: LimitConfig, addr: string)
    requires AllLegal(limits) && Legal(lc) && Ordered(run)
    requires run != [] ==> run[|run| - 1].time <= t
    ensures Fit(lc, Key(lc, addr), After(limits, run), t)
    decreases |run|, 0
  {
    if run != [] {
      var front, r := run[..|run| - 1], run[|run| - 1];
      RunWatched(limits, front, r, lc, addr);
      VisitTakes(limits, Keys(limits, r.addr), 0, After(limits, front), r.time, lc, Key(lc, addr));
    }
  }

  // A new request finds every bucket it asks for, and the watched one, in order.
  lemma {:induction false} RunWatched(limits: seq<LimitConfig>, front: seq<Arrival>, r: Arrival, lc: LimitConfig, addr: string)
    requires AllLegal(limits) && Legal(lc) && Ordered(front)
    requires front != [] ==> front[|front| - 1].time <= r.time
    ensures Watched(limits, Keys(limits, r.addr), After(limits, front), r.time, lc, Key(lc, addr))
    decreases |front|, 1
  {
    var keys := Keys(limits, r.addr);
    KeysCoherent(limits, r.addr, lc, addr);
    RunFits(limits, front, r.time, lc, addr);
    forall i | 0 <= i < |limits|
      ensures Fit(limits[i], keys[i], After(limits, front), r.time)
    {
      RunFits(limits, front, r.time, limits[i], r.addr);
    }
  }

  // ---------- the window bound ----------

  lemma CreditRange(bs: Buckets, lc: LimitConfig, key: string, t: int)
    requires Legal(lc) && Fit(lc, key, bs, t)
    ensures 0 <= Credit(bs, lc, key, t) <= Capacity(lc.per, lc.requests)
  {
    SoundFull(lc, t);
    SoundBucket(BucketFor(bs, lc, key, t), t);
  }

  // Between two times credit grows by at most the time that passes.
  lemma CreditGrows(bs: Buckets, lc: LimitConfig, key: string, s: int, t: int)
    requires Fit(lc, key, bs, s) && s <= t
    ensures Credit(bs, lc, key, t) <= Credit(bs, lc, key, s) + (t - s)
  {
  }

  // A request that passes pays at least one token of every limit of its address part.
  lemma ArrivalPays(limits: seq<LimitConfig>, front: seq<Arrival>, r: Arrival, lc: LimitConfig, addr: string)
    requires AllLegal(limits) && lc in limits && Ordered(front)
    requires front != [] ==> front[|front| - 1].time <= r.time
    ensures var bs := After(limits, front);
            var (bs', v) := Handle(limits, bs, r.addr, r.time);
            Credit(bs', lc, Key(lc, addr), r.time) <= Credit(bs, lc, Key(lc, addr), r.time)
              - if AddressPart(r.addr) == AddressPart(addr) && v.Next? then lc.per else 0
  {
    var bs := After(limits, front);
    var keys, key := Keys(limits, r.addr), Key(lc, addr);
    RunWatched(limits, front, r, lc, addr);
    VisitTakes(limits, keys, 0, bs, r.time, lc, key);
    var v := Handle(limits, bs, r.addr, r.time).1;
    var i :| 0 <= i < |limits| && limits[i] == lc;
    assert keys[i] == Key(lc, r.addr);
    if AddressPart(r.addr) == AddressPart(addr) {
      KeyCondition(lc, r.addr, lc, addr);
    }
    if v.Next? {
      CostOfPassing(keys, 0, i, lc, key);
    } else {
      CostNonNegative(keys, 0, v.limit, lc, key);
    }
  }

  lemma {:induction false} CostNonNegative(keys: seq<string>, from: nat, upto: nat, lc: LimitConfig, key: string)
    requires from <= upto <= |keys| && lc.per > 0
    ensures Cost(keys, from, upto, lc, key) >= 0
    decreases upto - from
  {
    if from < upto { CostNonNegative(keys, from + 1, upto, lc, key); }
  }

  // Credit that grows with time and is paid per for every k with p.
  lemma {:induction false} Telescope(p: nat -> bool, per: int, credit: nat -> int, time: nat -> int, a: nat, b: nat)
    requires a <= b
    requires forall k | a <= k < b :: credit(k + 1) <= credit(k) + (time(k + 1) - time(k)) - if p(k) then per else 0
    ensures credit(b) + per * CountIn(p, a, b) <= credit(a) + (time(b) - time(a))
  {
    if a < b {
      Telescope(p, per, credit, time, a, b - 1);
      TimesNext(per, CountIn(p, a, b - 1));
    } else {
      TimesNext(per, 0);
    }
  }

  lemma TimesNext(per: int, n: int)
    ensures per * (n + 1) == per * n + per && per * 0 == 0
  {
  }

  // The time up to which the first k requests of a window from a on reach.
  function Clock(run: seq<Arrival>, a: nat, k: nat): int
    requires a < |run|
  {
    if a < k <= |run| then run[k - 1].time else run[a].time
  }

  ghost function Clocks(run: seq<Arrival>, a: nat): nat -> int
    requires a < |run|
  {
    (k: nat) => Clock(run, a, k)
  }

  ghost function Credits(limits: seq<LimitConfig>, run: seq<Arrival>, a: nat, lc: LimitConfig, key: string): nat -> int
    requires a < |run|
  {
    (k: nat) => if k <= |run| then Credit(After(limits, run[..k]), lc, key, Clock(run, a, k)) else 0
  }

  lemma AfterNext(limits: seq<LimitConfig>, run: seq<Arrival>, k: nat)
    requires k < |run|
    ensures After(limits, run[..k + 1]) == Handle(limits, After(limits, run[..k]), run[k].addr, run[k].time).0
  {
    assert run[..k + 1][..k] == run[..k];
  }

  // Credit that the window gains before request k, and pays for it.
  lemma CreditGained(limits: seq<LimitConfig>, run: seq<Arrival>, a: nat, k: nat, lc: LimitConfig, addr: string)
    requires AllLegal(limits) && Legal(lc) && Ordered(run) && a <= k < |run|
    ensures var bs, s, t := After(limits, run[..k]), Clock(run, a, k), run[k].time;
            Credit(bs, lc, Key(lc, addr), t) <= Credit(bs, lc, Key(lc, addr), s) + (t - s)
  {
    RunFits(limits, run[..k], Clock(run, a, k), lc, addr);
    CreditGrows(After(limits, run[..k]), lc, Key(lc, addr), Clock(run, a, k), run[k].time);
  }

  lemma CreditPaid(limits: seq<LimitConfig>, run: seq<Arrival>, k: nat, lc: LimitConfig, addr: string)
    requires AllLegal(limits) && lc in limits && Ordered(run) && k < |run|
    ensures Credit(After(limits, run[..k + 1]), lc, Key(lc, addr), run[k].time)
            <= Credit(After(limits, run[..k]), lc, Key(lc, addr), run[k].time)
               - if Passing(limits, run, AddressPart(addr))(k) then lc.per else 0
  {
    AfterNext(limits, run, k);
    ArrivalPays(limits, run[..k], run[k], lc, addr);
  }

  lemma WindowStep(limits: seq<LimitConfig>, run: seq<Arrival>, a: nat, k: nat, lc: LimitConfig, addr: string, key: string)
    requires AllLegal(limits) && lc in limits && Ordered(run) && a <= k < |run| && key == Key(lc, addr)
    ensures Credit(After(limits, run[..k + 1]), lc, key, run[k].time)
            <= Credit(After(limits, run[..k]), lc, key, Clock(run, a, k)) + (run[k].time - Clock(run, a, k))
               - if Passing(limits, run, AddressPart(addr))(k) then lc.per else 0
  {
    CreditPaid(limits, run, k, lc, addr);
    CreditGained(limits, run, a, k, lc, addr);
  }

  lemma CreditsAt(limits: seq<LimitConfig>, run: seq<Arrival>, a: nat, k: nat, lc: LimitConfig, key: string)
    requires a <= k < |run|
    ensures Credits(limits, run, a, lc, key)(k) == Credit(After(limits, run[..k]), lc, key, Clock(run, a, k))
    ensures Credits(limits, run, a, lc, key)(k + 1) == Credit(After(limits, run[..k + 1]), lc, key, run[k].time)
    ensures Clocks(run, a)(k) == Clock(run, a, k) && Clocks(run, a)(k + 1) == run[k].time
  {
  }

  lemma CreditStep(limits: seq<LimitConfig>, run: seq<Arrival>, a: nat, k: nat, lc: LimitConfig, addr: string, key: string)
    requires AllLegal(limits) && lc in limits && Ordered(run) && a <= k < |run| && key == Key(lc, addr)
    ensures Credits(limits, run, a, lc, key)(k + 1)
            <= Credits(limits, run, a, lc, key)(k) + (Clocks(run, a)(k + 1) - Clocks(run, a)(k))
               - if Passing(limits, run, AddressPart(addr))(k) then lc.per else 0
  {
    WindowStep(limits, run, a, k, lc, addr, key);
    CreditsAt(limits, run, a, k, lc, key);
  }

  lemma WindowPays(limits: seq<LimitConfig>, run: seq<Arrival>, a: nat, b: nat, lc: LimitConfig, addr: string, key: string)
    requires AllLegal(limits) && lc in limits && Ordered(run) && a < b <= |run| && key == Key(lc, addr)
    ensures var credit := Credits(limits, run, a, lc, key);
            credit(b) + lc.per * Passes(limits, run, a, b, AddressPart(addr))
            <= credit(a) + (run[b - 1].time - run[a].time)
  {
    var credit, time := Credits(limits, run, a, lc, key), Clocks(run, a);
    var p := Passing(limits, run, AddressPart(addr));
    forall k | a <= k < b
      ensures credit(k + 1) <= credit(k) + (time(k + 1) - time(k)) - if p(k) then lc.per else 0
    {
      CreditStep(limits, run, a, k, lc, addr, key);
    }
    Telescope(p, lc.per, credit, time, a, b);
  }

  // In any window of a run, for every limit at once: at most Requests + T / Per requests of one
  // address part reach the next handler, and at most Requests if the window is shorter than Per.
  lemma WindowBound(limits: seq<LimitConfig>, run: seq<Arrival>, a: nat, b: nat, lc: LimitConfig, addr: string)
    requires AllLegal(limits) && lc in limits && Ordered(run) && a < b <= |run|
    ensures var passed, T := Passes(limits, run, a, b, AddressPart(addr)), run[b - 1].time - run[a].time;
            && passed * lc.per <= lc.requests * lc.per + T
            && (T < lc.per ==> passed <= lc.requests)
  {
    WindowPays(limits, run, a, b, lc, addr, Key(lc, addr));
    CreditAt(limits, run, a, run[a].time, lc, addr);
    CreditAt(limits, run, b, run[b - 1].time, lc, addr);
    FewerThan(Passes(limits, run, a, b, AddressPart(addr)), lc.requests, lc.per, run[b - 1].time - run[a].time);
  }

  lemma CreditAt(limits: seq<LimitConfig>, run: seq<Arrival>, k: nat, t: int, lc: LimitConfig, addr: string)
    requires AllLegal(limits) && Legal(lc) && Ordered(run) && k <= |run|
    requires k > 0 ==> run[k - 1].time <= t
    ensures 0 <= Credit(After(limits, run[..k]), lc, Key(lc, addr), t) <= Capacity(lc.per, lc.requests)
  {
    RunFits(limits, run[..k], t, lc, addr);
    CreditRange(After(limits, run[..k]), lc, Key(lc, addr), t);
  }

  lemma FewerThan(passed: int, requests: int, per: int, T: int)
    requires per > 0 && per * passed <= Capacity(per, requests) + T
    ensures passed * per <= requests * per + T
    ensures T < per ==> passed <= requests
  {
    MulBound(passed - requests, per);
    assert (passed - requests) * per == per * passed - Capacity(per, requests);
  }
}
