/**
 One bucket over its whole history: which requests it admits, and how that compares with the
 advertised "Requests per Per".
 */
module TokenBuckets {
  import opened Arithmetic
  import opened RateLimits
  import opened RateLimitBounds

  // The bucket after admissions at the given times.
  function Admitted(lc: LimitConfig, start: int, h: seq<int>): Bucket {
    if h == [] then FullBucket(lc, start)
    else
      var b := Admitted(lc, start, h[..|h| - 1]);
      b.(credit := Level(b, h[|h| - 1]) - lc.per, last := h[|h| - 1])
  }

  // Each admission was allowed, and times do not go back.
  predicate History(lc: LimitConfig, start: int, h: seq<int>) {
    h == [] ||
    (&& History(lc, start, h[..|h| - 1])
     && Latest(start, h[..|h| - 1]) <= h[|h| - 1]
     && Allows(Admitted(lc, start, h[..|h| - 1]), h[|h| - 1]))
  }

  function Latest(start: int, h: seq<int>): int {
    if h == [] then start else h[|h| - 1]
  }

  lemma {:induction false} AdmittedShape(lc: LimitConfig, start: int, h: seq<int>)
    ensures var b := Admitted(lc, start, h);
            b.per == lc.per && b.burst == lc.requests && b.last == Latest(start, h)
  {
    if h != [] { AdmittedShape(lc, start, h[..|h| - 1]); }
  }

  // The price of n tokens.
  function Price(per: int, n: nat): int {
    if n == 0 then 0 else Price(per, n - 1) + per
  }

  lemma {:induction false} PriceIsProduct(per: int, n: nat)
    ensures Price(per, n) == per * n
  {
    if n > 0 { PriceIsProduct(per, n - 1); }
  }

  // The room that admission i leaves at time t: a burst, plus the time since, minus what has been
  // admitted from i on.
  function Room(lc: LimitConfig, h: seq<int>, i: nat, t: int): int
    requires i < |h|
  {
    Capacity(lc.per, lc.requests) + (t - h[i]) - Price(lc.per, |h| - i)
  }

  // The level is the least of these rooms and the capacity.
  lemma {:induction false} LevelIsLeastRoom(lc: LimitConfig, start: int, h: seq<int>, t: int)
    requires History(lc, start, h) && Latest(start, h) <= t
    ensures var level := Level(Admitted(lc, start, h), t);
            && level <= Capacity(lc.per, lc.requests)
            && (forall i | 0 <= i < |h| :: level <= Room(lc, h, i, t))
            && (level == Capacity(lc.per, lc.requests) || exists i | 0 <= i < |h| :: level == Room(lc, h, i, t))
  {
    AdmittedShape(lc, start, h);
    if h != [] {
      var n := |h| - 1;
      var front, s := h[..n], h[n];
      LevelIsLeastRoom(lc, start, front, s);
      AdmittedShape(lc, start, front);
      var before := Level(Admitted(lc, start, front), s);
      forall i | 0 <= i < n
        ensures Room(lc, h, i, t) == Room(lc, front, i, s) + (t - s) - lc.per
      {}
      assert Price(lc.per, 1) == Price(lc.per, 0) + lc.per == lc.per;
      assert Room(lc, h, n, t) == Capacity(lc.per, lc.requests) + (t - s) - lc.per;
      if before == Capacity(lc.per, lc.requests) {
        assert before - lc.per + (t - s) == Room(lc, h, n, t);
      } else {
        var i :| 0 <= i < n && before == Room(lc, front, i, s);
        assert before - lc.per + (t - s) == Room(lc, h, i, t);
      }
    }
  }

  // The windows that end with a request at time t and start at an earlier admission.
  predicate FitsEveryWindow(lc: LimitConfig, h: seq<int>, t: int) {
    forall i | 0 <= i < |h| :: lc.per * (|h| - i + 1) <= Capacity(lc.per, lc.requests) + (t - h[i])
  }

  // A request is admitted exactly when it keeps every window of length T that ends now within
  // Requests + T / Per requests (and Requests is not 0).
  lemma AdmissionCondition(lc: LimitConfig, start: int, h: seq<int>, t: int)
    requires Legal(lc) && History(lc, start, h) && Latest(start, h) <= t
    ensures Allows(Admitted(lc, start, h), t) <==> lc.requests >= 1 && FitsEveryWindow(lc, h, t)
  {
    AdmittedShape(lc, start, h);
    LevelIsLeastRoom(lc, start, h, t);
    forall i | 0 <= i < |h|
      ensures Room(lc, h, i, t) >= lc.per <==>
              lc.per * (|h| - i + 1) <= Capacity(lc.per, lc.requests) + (t - h[i])
    {
      PriceIsProduct(lc.per, |h| - i + 1);
    }
    MulBound(lc.requests, lc.per);
    assert Capacity(lc.per, lc.requests) == lc.requests * lc.per;
  }

  // ---------- "Requests per Per" ----------

  // Arrivals of a client that never makes more than n requests in a window shorter than per.
  predicate Conforming(n: int, per: int, times: seq<int>) {
    && (forall i, j | 0 <= i < j < |times| :: times[i] <= times[j])
    && (n <= 0 ==> times == [])
    && (forall i, j | 0 <= i < j < |times| && j - i >= n :: times[j] - times[i] >= per)
  }

  lemma AdmittedCredit(lc: LimitConfig, start: int, h: seq<int>)
    requires lc.requests >= 1 && lc.per > 0 && History(lc, start, h)
    ensures Admitted(lc, start, h).credit >= 0
  {
    if h == [] {
      MulBound(lc.requests, lc.per);
    } else {
      AdmittedShape(lc, start, h[..|h| - 1]);
    }
  }

  lemma OneToken(b: Bucket, t: int)
    requires b.per > 0 && b.burst == 1 && b.credit >= 0 && t >= b.last
    requires b.credit >= b.per || t - b.last >= b.per
    ensures Allows(b, t)
  {
    assert Capacity(b.per, 1) == b.per;
  }

  lemma {:induction false} SingleTokenServes(lc: LimitConfig, start: int, times: seq<int>)
    requires Legal(lc) && lc.requests == 1 && Conforming(1, lc.per, times)
    requires times != [] ==> start <= times[0]
    ensures History(lc, start, times)
  {
    if times != [] {
      var n := |times| - 1;
      var front := times[..n];
      SingleTokenServes(lc, start, front);
      AdmittedShape(lc, start, front);
      AdmittedCredit(lc, start, front);
      assert front == [] ==> Admitted(lc, start, front).credit == Capacity(lc.per, 1) == lc.per;
      OneToken(Admitted(lc, start, front), times[n]);
    }
  }

  function Repeat(t: int, n: nat): seq<int> {
    seq(n, _ => t)
  }

  lemma Affordable(lc: LimitConfig, n: nat)
    requires lc.per > 0 && 1 <= n <= lc.requests
    ensures Capacity(lc.per, lc.requests) - Price(lc.per, n - 1) >= lc.per
  {
    PriceIsProduct(lc.per, n - 1);
    MulBound(lc.requests - (n - 1), lc.per);
    assert Capacity(lc.per, lc.requests) - Price(lc.per, n - 1) == (lc.requests - (n - 1)) * lc.per;
  }

  // A full bucket admits its burst at once, and is then that much emptier.
  lemma {:induction false} Burst(lc: LimitConfig, n: nat)
    requires Legal(lc) && n <= lc.requests
    ensures History(lc, 0, Repeat(0, n))
    ensures Admitted(lc, 0, Repeat(0, n)).credit == Capacity(lc.per, lc.requests) - Price(lc.per, n)
    ensures Price(lc.per, n) >= 0
  {
    if n > 0 {
      assert Repeat(0, n)[..n - 1] == Repeat(0, n - 1);
      Burst(lc, n - 1);
      AdmittedShape(lc, 0, Repeat(0, n - 1));
      Affordable(lc, n);
    }
  }

  lemma EmptyAfterBurst(lc: LimitConfig)
    requires Legal(lc)
    ensures var b := Admitted(lc, 0, Repeat(0, lc.requests));
            b.credit == 0 && b.per == lc.per && b.burst == lc.requests && b.last == 0
  {
    Burst(lc, lc.requests);
    PriceIsProduct(lc.per, lc.requests);
    AdmittedShape(lc, 0, Repeat(0, lc.requests));
  }

  // A period after the burst there is one token, and then none.
  lemma OneAfterBurst(lc: LimitConfig)
    requires Legal(lc) && lc.requests >= 1
    ensures var h := Repeat(0, lc.requests) + [lc.per];
            History(lc, 0, h) && !Allows(Admitted(lc, 0, h), lc.per)
  {
    var burst := Repeat(0, lc.requests);
    assert (burst + [lc.per])[..lc.requests] == burst;
    Burst(lc, lc.requests);
    EmptyAfterBurst(lc);
    MulBound(lc.requests, lc.per);
    AdmittedShape(lc, 0, burst + [lc.per]);
  }

  // ---------- a table with one limit ----------

  predicate FromOne(run: seq<Arrival>, addr: string) {
    forall i | 0 <= i < |run| :: AddressPart(run[i].addr) == AddressPart(addr)
  }

  // All requests ask the bucket under key.
  predicate OneBucket(lc: LimitConfig, run: seq<Arrival>, key: string) {
    forall i | 0 <= i < |run| :: Key(lc, run[i].addr) == key
  }

  lemma ClientBucket(lc: LimitConfig, run: seq<Arrival>, addr: string)
    requires Legal(lc)
    ensures OneBucket(lc, run, Key(lc, addr)) <==> lc.zone != "ip" || FromOne(run, addr)
  {
    forall i | 0 <= i < |run|
      ensures Key(lc, run[i].addr) == Key(lc, addr) <==>
                lc.zone != "ip" || AddressPart(run[i].addr) == AddressPart(addr)
    {
      KeyCondition(lc, run[i].addr, lc, addr);
    }
  }

  // The times of the requests that reached the next handler.
  function PassTimes(limits: seq<LimitConfig>, run: seq<Arrival>): seq<int> {
    if run == [] then []
    else
      var front, r := run[..|run| - 1], run[|run| - 1];
      PassTimes(limits, front) + if Handle(limits, After(limits, front), r.addr, r.time).1.Next? then [r.time] else []
  }

  lemma OneVisit(lc: LimitConfig, bs: Buckets, visitor: string, t: int, key: string)
    requires key == Key(lc, visitor)
    ensures var b := BucketFor(bs, lc, key, t);
            Handle([lc], bs, visitor, t) == (bs[key := Take(b, t)], if Allows(b, t) then Next else Limited(0))
  {
    var keys := Keys([lc], visitor);
    assert keys == [key];
    assert Visit([lc], keys, 1, Ask(bs, lc, key, t), t) == (Ask(bs, lc, key, t), Next);
  }

  // Asking for a token extends the history if the token is granted.
  lemma TakeExtends(lc: LimitConfig, start: int, h: seq<int>, t: int)
    requires History(lc, start, h) && Latest(start, h) <= t
    ensures var b := Admitted(lc, start, h);
            var h' := if Allows(b, t) then h + [t] else h;
            History(lc, start, h') && Latest(start, h') <= t && Take(b, t) == Admitted(lc, start, h')
  {
    AdmittedShape(lc, start, h);
    assert (h + [t])[..|h|] == h;
  }

  // The bucket under key has the history h up to time t.
  predicate Tracks(bs: Buckets, key: string, lc: LimitConfig, start: int, h: seq<int>, t: int) {
    && History(lc, start, h) && Latest(start, h) <= t
    && key in bs && bs[key] == Admitted(lc, start, h)
  }

  lemma OneMore(lc: LimitConfig, bs: Buckets, r: Arrival, key: string, start: int, h: seq<int>)
    requires key == Key(lc, r.addr) && History(lc, start, h) && Latest(start, h) <= r.time
    requires BucketFor(bs, lc, key, r.time) == Admitted(lc, start, h)
    ensures var (bs', v) := Handle([lc], bs, r.addr, r.time);
            Tracks(bs', key, lc, start, h + if v.Next? then [r.time] else [], r.time)
  {
    OneVisit(lc, bs, r.addr, r.time, key);
    TakeExtends(lc, start, h, r.time);
    assert h + [] == h;
  }

  // A bucket in a table with one limit has exactly the history of the requests that passed, so
  // AdmissionCondition decides every request of a run.
  lemma {:induction false} OneLimitHistory(lc: LimitConfig, run: seq<Arrival>, key: string)
    requires Ordered(run) && OneBucket(lc, run, key) && run != []
    ensures Tracks(After([lc], run), key, lc, run[0].time, PassTimes([lc], run), run[|run| - 1].time)
  {
    var n := |run| - 1;
    var front, r := run[..n], run[n];
    if n > 0 {
      OneLimitHistory(lc, front, key);
      assert front[0] == run[0] && front[n - 1].time <= r.time;
    }
    OneMore(lc, After([lc], front), r, key, run[0].time, PassTimes([lc], front));
  }

  // The next request of a client passes exactly when it keeps every window within bounds.
  lemma {:induction false} OneLimitCondition(lc: LimitConfig, run: seq<Arrival>, addr: string, t: int)
    requires Legal(lc) && Ordered(run) && FromOne(run, addr) && run != []
    requires run[|run| - 1].time <= t
    ensures Handle([lc], After([lc], run), addr, t).1.Next? <==>
              lc.requests >= 1 && FitsEveryWindow(lc, PassTimes([lc], run), t)
  {
    ClientBucket(lc, run, addr);
    OneLimitHistory(lc, run, Key(lc, addr));
    OneVisit(lc, After([lc], run), addr, t, Key(lc, addr));
    AdmissionCondition(lc, run[0].time, PassTimes([lc], run), t);
  }

  // ---------- runs on which every request is served ----------

  function Times(run: seq<Arrival>): seq<int> {
    seq(|run|, i requires 0 <= i < |run| => run[i].time)
  }

  // Every request of the run passes: all before the last one, and the last.
  predicate AllPass(lc: LimitConfig, run: seq<Arrival>) {
    run == [] || (AllPass(lc, run[..|run| - 1]) && VerdictAt([lc], run, |run| - 1).Next?)
  }

  lemma TimesSnoc(run: seq<Arrival>)
    requires run != []
    ensures var n := |run| - 1;
            Times(run)[..n] == Times(run[..n]) && Times(run) == Times(run[..n]) + [run[n].time]
  {
  }

  // The last request after others that all passed.
  lemma LastVerdict(lc: LimitConfig, run: seq<Arrival>, key: string)
    requires Ordered(run) && OneBucket(lc, run, key) && run != []
    requires PassTimes([lc], run[..|run| - 1]) == Times(run[..|run| - 1])
    ensures var n := |run| - 1;
            && VerdictAt([lc], run, n).Next?
                 == Allows(Admitted(lc, run[0].time, Times(run[..n])), run[n].time)
            && Latest(run[0].time, Times(run[..n])) <= run[n].time
  {
    var n := |run| - 1;
    OneVisit(lc, After([lc], run[..n]), run[n].addr, run[n].time, key);
    if n > 0 { OneLimitHistory(lc, run[..n], key); }
  }

  lemma HistorySnoc(lc: LimitConfig, start: int, h: seq<int>, t: int)
    requires Latest(start, h) <= t
    ensures History(lc, start, h + [t]) <==> History(lc, start, h) && Allows(Admitted(lc, start, h), t)
  {
    assert (h + [t])[..|h|] == h;
  }

  // Whether all pass can be read off the history of one bucket.
  lemma {:induction false} AllPassHistory(lc: LimitConfig, run: seq<Arrival>, key: string, start: int)
    requires Ordered(run) && OneBucket(lc, run, key) && (run != [] ==> start == run[0].time)
    ensures AllPass(lc, run) <==> History(lc, start, Times(run))
    ensures AllPass(lc, run) ==> PassTimes([lc], run) == Times(run)
  {
    if run != [] {
      var n := |run| - 1;
      AllPassHistory(lc, run[..n], key, start);
      TimesSnoc(run);
      if n > 0 { assert run[n - 1].time <= run[n].time; }
      HistorySnoc(lc, start, Times(run[..n]), run[n].time);
      if AllPass(lc, run[..n]) { LastVerdict(lc, run, key); }
    }
  }

  // The requests of one client at the given times.
  function Arrivals(addr: string, times: seq<int>): (run: seq<Arrival>)
    ensures |run| == |times| && forall i | 0 <= i < |run| :: run[i] == Arrival(addr, times[i])
  {
    seq(|times|, i requires 0 <= i < |times| => Arrival(addr, times[i]))
  }

  lemma ArrivalsPass(lc: LimitConfig, addr: string, times: seq<int>)
    requires times != [] && forall i, j | 0 <= i < j < |times| :: times[i] <= times[j]
    ensures var run := Arrivals(addr, times);
            Ordered(run) && Times(run) == times && (AllPass(lc, run) <==> History(lc, times[0], times))
  {
    var run := Arrivals(addr, times);
    assert Times(run) == times;
    AllPassHistory(lc, run, Key(lc, addr), times[0]);
  }

  // A client that never makes more than Requests requests in a window shorter than Per is served
  // every time.
  ghost predicate ServesConforming(lc: LimitConfig, addr: string) {
    forall run: seq<Arrival> | Ordered(run) && FromOne(run, addr) && Conforming(lc.requests, lc.per, Times(run)) ::
      AllPass(lc, run)
  }

  // n requests at once and two more one period later: all but the last are served.
  lemma SecondBurstRefused(lc: LimitConfig, addr: string)
    requires Legal(lc) && lc.requests >= 2
    ensures var n := lc.requests;
            var run := Arrivals(addr, Repeat(0, n) + Repeat(lc.per, 2));
            && Ordered(run) && Conforming(n, lc.per, Times(run))
            && AllPass(lc, run[..n + 1]) && !VerdictAt([lc], run, n + 1).Next?
  {
    var n := lc.requests;
    var times := Repeat(0, n) + Repeat(lc.per, 2);
    TwoBursts(lc, n);
    BurstHistories(lc, times);
    RefusedAtLast(lc, addr, times, n + 1);
  }

  lemma RefusedAtLast(lc: LimitConfig, addr: string, times: seq<int>, n: nat)
    requires |times| == n + 1 && n > 0 && forall i, j | 0 <= i < j < |times| :: times[i] <= times[j]
    requires History(lc, times[0], times[..n]) && !History(lc, times[0], times)
    ensures var run := Arrivals(addr, times);
            Ordered(run) && Times(run) == times && AllPass(lc, run[..n]) && !VerdictAt([lc], run, n).Next?
  {
    ArrivalsPass(lc, addr, times);
    ArrivalsPass(lc, addr, times[..n]);
    ArrivalsPrefix(addr, times, n);
    LastOne(lc, Arrivals(addr, times), n);
  }

  lemma LastOne(lc: LimitConfig, run: seq<Arrival>, n: nat)
    requires |run| == n + 1
    ensures AllPass(lc, run) <==> AllPass(lc, run[..n]) && VerdictAt([lc], run, n).Next?
  {
  }

  lemma BurstHistories(lc: LimitConfig, times: seq<int>)
    requires Legal(lc) && lc.requests >= 2 && |times| == lc.requests + 2
    requires times[..lc.requests + 1] == Repeat(0, lc.requests) + [lc.per] && times[lc.requests + 1] == lc.per
    ensures History(lc, 0, times[..lc.requests + 1]) && !History(lc, 0, times)
  {
    OneAfterBurst(lc);
    assert times == times[..lc.requests + 1] + [lc.per];
    HistorySnoc(lc, 0, times[..lc.requests + 1], lc.per);
  }

  lemma TwoBursts(lc: LimitConfig, n: nat)
    requires Legal(lc) && n >= 2
    ensures var times := Repeat(0, n) + Repeat(lc.per, 2);
            && Conforming(n, lc.per, times) && |times| == n + 2
            && times[..n + 1] == Repeat(0, n) + [lc.per] && times[n + 1] == lc.per && times[0] == 0
  {
  }

  lemma ArrivalsPrefix(addr: string, times: seq<int>, n: nat)
    requires n <= |times|
    ensures Arrivals(addr, times)[..n] == Arrivals(addr, times[..n])
  {
  }

  // The advertised limit, taken as "n requests in any Per are served", holds only up to n = 1:
  // after its burst a bucket refills one token per Per, not Requests per Per.
  lemma AdvertisedCondition(lc: LimitConfig, addr: string)
    requires Legal(lc)
    ensures ServesConforming(lc, addr) <==> lc.requests <= 1
  {
    if lc.requests <= 1 {
      forall run: seq<Arrival> | Ordered(run) && FromOne(run, addr) && Conforming(lc.requests, lc.per, Times(run))
        ensures AllPass(lc, run)
      {
        ClientBucket(lc, run, addr);
        if run != [] {
          AllPassHistory(lc, run, Key(lc, addr), run[0].time);
          SingleTokenServes(lc, run[0].time, Times(run));
        }
      }
    } else {
      SecondBurstRefused(lc, addr);
      var run := Arrivals(addr, Repeat(0, lc.requests) + Repeat(lc.per, 2));
      assert FromOne(run, addr) && !AllPass(lc, run);
    }
  }
}
