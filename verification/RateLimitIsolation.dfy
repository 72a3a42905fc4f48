/** Clients with different address parts do not influence each other. */
module RateLimitIsolation {
  import opened GoStrings
  import opened RateLimits
  import opened RateLimitBounds
  import opened TokenBuckets

  // The requests of run whose address part is ip.
  function Only(run: seq<Arrival>, ip: string): seq<Arrival> {
    if run == [] then []
    else Only(run[..|run| - 1], ip)
         + if AddressPart(run[|run| - 1].addr) == ip then [run[|run| - 1]] else []
  }

  predicate ProperZones(limits: seq<LimitConfig>) {
    forall i | 0 <= i < |limits| :: limits[i].zone == "ip"
  }

  // Two tables that hold the same buckets under the given keys.
  predicate Agree(keys: seq<string>, bs: Buckets, cs: Buckets) {
    forall i | 0 <= i < |keys| ::
      (keys[i] in bs <==> keys[i] in cs) && (keys[i] in bs ==> bs[keys[i]] == cs[keys[i]])
  }

  lemma {:induction false} VisitAgrees(limits: seq<LimitConfig>, keys: seq<string>, k: nat, bs: Buckets, cs: Buckets, t: int)
    requires k <= |limits| == |keys| && Agree(keys, bs, cs)
    ensures Visit(limits, keys, k, bs, t).1 == Visit(limits, keys, k, cs, t).1
    ensures Agree(keys, Visit(limits, keys, k, bs, t).0, Visit(limits, keys, k, cs, t).0)
    decreases |limits| - k
  {
    if k < |limits| {
      VisitAgrees(limits, keys, k + 1, Ask(bs, limits[k], keys[k], t), Ask(cs, limits[k], keys[k], t), t);
    }
  }

  // A visit under other keys leaves these buckets alone.
  lemma {:induction false} VisitForeign(limits: seq<LimitConfig>, keys: seq<string>, k: nat, bs: Buckets, t: int, mine: seq<string>)
    requires k <= |limits| == |keys|
    requires forall i, j | 0 <= i < |keys| && 0 <= j < |mine| :: keys[i] != mine[j]
    ensures Agree(mine, Visit(limits, keys, k, bs, t).0, bs)
    decreases |limits| - k
  {
    if k < |limits| {
      VisitForeign(limits, keys, k + 1, Ask(bs, limits[k], keys[k], t), t, mine);
    }
  }

  lemma KeysDiffer(limits: seq<LimitConfig>, addr: string, other: string)
    requires AllLegal(limits) && ProperZones(limits) && AddressPart(addr) != AddressPart(other)
    ensures forall i, j | 0 <= i < |limits| && 0 <= j < |limits| ::
              Keys(limits, addr)[i] != Keys(limits, other)[j]
  {
    forall i, j | 0 <= i < |limits| && 0 <= j < |limits|
      ensures Keys(limits, addr)[i] != Keys(limits, other)[j]
    {
      KeyCondition(limits[i], addr, limits[j], other);
    }
  }

  lemma KeysSame(limits: seq<LimitConfig>, addr: string, other: string)
    requires AllLegal(limits) && ProperZones(limits) && AddressPart(addr) == AddressPart(other)
    ensures Keys(limits, addr) == Keys(limits, other)
  {
    forall i | 0 <= i < |limits| ensures Key(limits[i], addr) == Key(limits[i], other) {
      KeyCondition(limits[i], addr, limits[i], other);
    }
  }

  // The buckets of a client after any run are those after its own requests alone.
  lemma {:induction false} Isolation(limits: seq<LimitConfig>, run: seq<Arrival>, addr: string)
    requires AllLegal(limits) && ProperZones(limits)
    ensures Agree(Keys(limits, addr), After(limits, run), After(limits, Only(run, AddressPart(addr))))
  {
    if run != [] {
      var ip := AddressPart(addr);
      var front, r := run[..|run| - 1], run[|run| - 1];
      var mine := Only(front, ip);
      Isolation(limits, front, addr);
      if AddressPart(r.addr) == ip {
        assert (mine + [r])[..|mine|] == mine;
        KeysSame(limits, r.addr, addr);
        VisitAgrees(limits, Keys(limits, addr), 0, After(limits, front), After(limits, mine), r.time);
      } else {
        assert Only(run, ip) == mine;
        KeysDiffer(limits, r.addr, addr);
        VisitForeign(limits, Keys(limits, r.addr), 0, After(limits, front), r.time, Keys(limits, addr));
      }
    }
  }

  // So the answer to its next request does not depend on anybody else.
  lemma IsolatedVerdict(limits: seq<LimitConfig>, run: seq<Arrival>, addr: string, t: int)
    requires AllLegal(limits) && ProperZones(limits)
    ensures Handle(limits, After(limits, run), addr, t).1
         == Handle(limits, After(limits, Only(run, AddressPart(addr))), addr, t).1
  {
    Isolation(limits, run, addr);
    VisitAgrees(limits, Keys(limits, addr), 0, After(limits, run), After(limits, Only(run, AddressPart(addr))), t);
  }

  // With one limit: nobody's answer ever depends on the requests of others.
  ghost predicate Undisturbed(lc: LimitConfig) {
    forall run, addr, t | Ordered(run + [Arrival(addr, t)]) ::
      Handle([lc], After([lc], run), addr, t).1
        == Handle([lc], After([lc], Only(run, AddressPart(addr))), addr, t).1
  }

  // A limit of no requests refuses everybody.
  lemma {:induction false} NoBurst(lc: LimitConfig, run: seq<Arrival>, addr: string, t: int)
    requires lc.requests == 0
    ensures forall key | key in After([lc], run) :: After([lc], run)[key].burst == 0
    ensures Handle([lc], After([lc], run), addr, t).1 == Limited(0)
  {
    if run != [] {
      var front, r := run[..|run| - 1], run[|run| - 1];
      NoBurst(lc, front, r.addr, r.time);
      OneVisit(lc, After([lc], front), r.addr, r.time, Key(lc, r.addr));
    }
    OneVisit(lc, After([lc], run), addr, t, Key(lc, addr));
  }

  lemma {:induction false} OnlyOthers(run: seq<Arrival>, ip: string)
    requires forall i | 0 <= i < |run| :: AddressPart(run[i].addr) != ip
    ensures Only(run, ip) == []
  {
    if run != [] { OnlyOthers(run[..|run| - 1], ip); }
  }

  // A full bucket serves a client, and after the burst of another client it does not.
  lemma SharedBurst(lc: LimitConfig, addr: string, other: string)
    requires Legal(lc) && lc.requests >= 1 && Key(lc, addr) == Key(lc, other)
    ensures var run := Arrivals(other, Repeat(0, lc.requests));
            && Ordered(run + [Arrival(addr, 0)])
            && Handle([lc], map[], addr, 0).1 == Next && Handle([lc], After([lc], run), addr, 0).1 == Limited(0)
  {
    var burst := Repeat(0, lc.requests);
    var run, key := Arrivals(other, burst), Key(lc, addr);
    Burst(lc, lc.requests);
    EmptyAfterBurst(lc);
    ArrivalsPass(lc, other, burst);
    AllPassHistory(lc, run, key, 0);
    OneLimitHistory(lc, run, key);
    OneVisit(lc, After([lc], run), addr, 0, key);
    OneVisit(lc, map[], addr, 0, key);
    Burst(lc, 1);
    assert Repeat(0, 1)[..0] == [];
  }

  // Others never change an answer exactly when the zone is spelled "ip" or no request is allowed
  // at all.
  lemma IsolationCondition(lc: LimitConfig)
    requires Legal(lc)
    ensures Undisturbed(lc) <==> lc.zone == "ip" || lc.requests == 0
  {
    if lc.zone == "ip" || lc.requests == 0 {
      forall run, addr, t | Ordered(run + [Arrival(addr, t)])
        ensures Handle([lc], After([lc], run), addr, t).1
             == Handle([lc], After([lc], Only(run, AddressPart(addr))), addr, t).1
      {
        if lc.zone == "ip" {
          IsolatedVerdict([lc], run, addr, t);
        } else {
          NoBurst(lc, run, addr, t);
          NoBurst(lc, Only(run, AddressPart(addr)), addr, t);
        }
      }
    } else {
      var run := Arrivals("b", Repeat(0, lc.requests));
      SplitWhole("a", ':');
      SplitWhole("b", ':');
      KeyCondition(lc, "a", lc, "b");
      SharedBurst(lc, "a", "b");
      OnlyOthers(run, "a");
    }
  }

  // With a misspelled zone one client can use up the tokens of another.
  lemma SharedBucketExample(addr: string, other: string, t: int)
    ensures var limits := [LimitConfig("IP", 1, SECOND)];
            && AllLegal(limits)
            && Handle(limits, After(limits, []), addr, t).1 == Next
            && Handle(limits, After(limits, [Arrival(other, t)]), addr, t).1 == Limited(0)
  {
    var lc := LimitConfig("IP", 1, SECOND);
    var limits := [lc];
    assert ToLower("IP") == "ip";
    var run := [Arrival(other, t)];
    assert run[..0] == [];
    var keys := Keys(limits, addr);
    assert keys == Keys(limits, other) == [Key(lc, addr)];
    assert Visit(limits, keys, 1, Ask(map[], lc, keys[0], t), t).1 == Next;
    assert After(limits, run) == Ask(map[], lc, keys[0], t);
    assert !Allows(After(limits, run)[keys[0]], t);
  }
}
