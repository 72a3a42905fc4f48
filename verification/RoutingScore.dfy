/** Which scores the detector can forward, over every run. */
module RoutingScore {
  import opened Wrappers
  import opened PathGraphs
  import opened RoutingAnomaly
  import opened RoutingRating
  import opened RoutingFall

  // How the last request of a run ended.
  function LastOutcome(c: Config, rs: seq<Request>): Outcome
    requires rs != []
  {
    Step(c, Run(c, rs[..|rs| - 1]), rs[|rs| - 1]).1
  }

  // A score that is a number lies in [0, 1].
  predicate NumberInUnit(out: Outcome) {
    out.Rated? && out.rating.Score? ==> 0.0 <= out.rating.value <= 1.0
  }

  ghost predicate NumbersInUnit(c: Config) {
    forall rs | rs != [] && FreshRun(c, rs) :: NumberInUnit(LastOutcome(c, rs))
  }

  predicate NarrowOrNegative(c: Config) {
    c.maxScore - c.minScore <= 100 || c.maxScore < 0
  }

  lemma RunSnoc(c: Config, rs: seq<Request>, r: Request)
    ensures Run(c, rs + [r]) == Step(c, Run(c, rs), r).0
    ensures LastOutcome(c, rs + [r]) == Step(c, Run(c, rs), r).1
    ensures FreshRun(c, rs + [r]) <==> FreshRun(c, rs) && Fresh(Run(c, rs), r)
  {
    assert (rs + [r])[..|rs|] == rs;
  }

  // ---------- requests that a run can always be continued with ----------

  lemma {:induction false} Longer(texts: set<string>) returns (t: string)
    ensures t != "" && forall s | s in texts :: |s| < |t|
  {
    if texts == {} {
      t := "a";
    } else {
      var s :| s in texts;
      t := Longer(texts - {s});
      t := t + s + "a";
    }
  }

  ghost predicate Unseen(jumps: multiset<Jump>, path: string) {
    forall j | j in jumps :: j.dst != NormalizePath(path)
  }

  // A page that no jump leads to, other than the one given and "/".
  lemma NewPage(jumps: multiset<Jump>, other: string) returns (path: string)
    ensures Unseen(jumps, path) && NormalizePath(path) != other && NormalizePath(path) != "/"
  {
    var t := Longer((set j | j in jumps :: j.dst) + {other});
    path := "/" + t;
    assert |NormalizePath(path)| == |t| + 1;
  }

  // The step of a request whose jump has weight w.
  lemma WeighedStep(c: Config, s: State, r: Request, id: string, w: nat)
    requires SessionId(r) == Some(id) && id in Opened(s, r, id).histories && r.referer.Some?
    requires s.jumps[JumpBetween(LastPath(s, id), r.path)] == w
    ensures var (s', out) := Step(c, s, r);
            var h := Scored(Opened(s, r, id).histories[id], w);
            var n := s.numberOfJumps + 1;
            var d := Deviation(s.scoreSum + w, n, h);
            && s'.jumps == s.jumps + multiset{JumpBetween(LastPath(s, id), r.path)}
            && s'.numberOfJumps == n && s'.scoreSum == s.scoreSum + w
            && s'.histories == Opened(s, r, id).histories[id := h] && s'.lastPaths == s.lastPaths[id := r.path]
            && s'.avgDiviation == Average(s.avgDiviation, n, d) && s'.deviations == s.deviations + [d]
            && out == Rated(Rate(c, n, d, s.avgDiviation))
  {
  }

  // ---------- a session that walks over new pages, then repeats a jump ----------

  ghost predicate Walked(s: State, id: string, k: nat) {
    && Invariant(s) && s.numberOfJumps == k && s.scoreSum == 0 && s.avgDiviation == 0.0
    && id != "" && id in s.lastPaths && s.histories[id] == History(k, 0)
    && s.jumps[JumpBetween(s.lastPaths[id], s.lastPaths[id])] == 0
  }

  lemma NoDeviation(n: nat, k: nat)
    requires n > 0 && k > 0
    ensures Deviation(0, n, History(k, 0)) == 0.0 && Average(0.0, n, 0.0) == 0.0
  {
  }

  function Again(id: string, path: string): Request {
    Request(id, None, path, Some(""))
  }

  function First(id: string, path: string): Request {
    Request("", Some(id), path, Some(""))
  }

  // The first request of all.
  lemma Open(c: Config) returns (rs: seq<Request>, id: string)
    ensures FreshRun(c, rs) && Walked(Run(c, rs), id, 1)
  {
    var path := NewPage(multiset{}, "");
    id := "a";
    var r := First(id, path);
    rs := [r];
    assert [] + [r] == rs;
    RunSnoc(c, [], r);
    WeighedStep(c, INIT, r, id, 0);
    NoDeviation(1, 1);
    RootPath();
  }

  // One more page.
  lemma WalkOn(c: Config, rs: seq<Request>, id: string, k: nat) returns (more: seq<Request>)
    requires FreshRun(c, rs) && Walked(Run(c, rs), id, k)
    ensures FreshRun(c, more) && Walked(Run(c, more), id, k + 1)
    ensures more != [] && LastOutcome(c, more) == Rated(Rate(c, k + 1, 0.0, 0.0))
  {
    var s := Run(c, rs);
    var path := NewPage(s.jumps, NormalizePath(s.lastPaths[id]));
    var r := Again(id, path);
    more := rs + [r];
    RunSnoc(c, rs, r);
    RunInvariant(c, more);
    WeighedStep(c, s, r, id, 0);
    NoDeviation(k + 1, k + 1);
  }

  lemma {:induction false} Walk(c: Config, k: nat) returns (rs: seq<Request>, id: string)
    requires k >= 1
    ensures FreshRun(c, rs) && Walked(Run(c, rs), id, k)
  {
    if k == 1 {
      rs, id := Open(c);
    } else {
      rs, id := Walk(c, k - 1);
      rs := WalkOn(c, rs, id, k - 1);
    }
  }

  // One jump has been repeated once, by session id, which has made k jumps.
  ghost predicate Primed(s: State, id: string, n: nat, k: nat) {
    && Invariant(s) && s.numberOfJumps == n && s.scoreSum == 1 && s.avgDiviation > 0.0
    && id != "" && id in s.lastPaths && s.histories[id] == History(k, 1)
  }

  lemma FirstDeviation(n: nat)
    requires n > 0
    ensures Deviation(1, n, History(n, 1)) == Per(1.0, n) > 0.0
    ensures Average(0.0, n, Per(1.0, n)) == Per(Per(1.0, n), n) > 0.0
  {
    RunningUpdate(0.0, n, 1.0);
    RunningUpdate(0.0, n, Per(1.0, n));
  }

  lemma Prime(c: Config, n: nat) returns (rs: seq<Request>, id: string)
    requires n >= 3
    ensures FreshRun(c, rs) && Primed(Run(c, rs), id, n, n)
    ensures Run(c, rs).avgDiviation == Per(Per(1.0, n), n)
  {
    rs, id := Walk(c, n - 2);
    var s := Run(c, rs);
    var r := Again(id, s.lastPaths[id]);
    WeighedStep(c, s, r, id, 0);
    NoDeviation(n - 1, n - 1);
    RunSnoc(c, rs, r);
    var s1 := Run(c, rs + [r]);
    RunSnoc(c, rs + [r], r);
    RunInvariant(c, rs + [r] + [r]);
    WeighedStep(c, s1, r, id, 1);
    FirstDeviation(n);
    rs := rs + [r] + [r];
  }

  // ---------- visitors of new pages ----------

  lemma Visit(c: Config, rs: seq<Request>, id: string, n: nat, k: nat) returns (more: seq<Request>)
    requires FreshRun(c, rs) && Primed(Run(c, rs), id, n, k)
    ensures FreshRun(c, more) && Primed(Run(c, more), id, n + 1, k) && more != []
    ensures var avg, d := Run(c, rs).avgDiviation, Per(2.0, n + 1);
            && Run(c, more).avgDiviation == avg + Per(d, n + 1)
            && LastOutcome(c, more) == Rated(Rate(c, n + 1, d, avg))
  {
    var s := Run(c, rs);
    var path := NewPage(s.jumps, "");
    var visitor := Longer(s.histories.Keys);
    var r := First(visitor, path);
    more := rs + [r];
    RunSnoc(c, rs, r);
    RunInvariant(c, more);
    WeighedStep(c, s, r, visitor, 0);
    VisitorDeviation(n + 1);
    RunningUpdate(s.avgDiviation, n + 1, Per(2.0, n + 1));
    assert id in s.histories;
  }

  lemma VisitorDeviation(n: nat)
    requires n > 0
    ensures Deviation(1, n, History(1, 0)) == Per(2.0, n) >= 0.0
  {
    assert 1.0 / n as real * 2.0 == 2.0 / n as real;
  }

  lemma {:induction false} Visits(c: Config, rs: seq<Request>, id: string, n: nat, k: nat, m: nat)
    returns (more: seq<Request>)
    requires FreshRun(c, rs) && Primed(Run(c, rs), id, n, k)
    ensures FreshRun(c, more) && Primed(Run(c, more), id, n + m, k)
    decreases m
  {
    more := rs;
    if m > 0 {
      more := Visits(c, rs, id, n, k, m - 1);
      more := Visit(c, more, id, n + m - 1, k);
    }
  }

  // ---------- scores above 1 ----------

  // The quotient of the m-th rated request, a visitor, is above x.
  predicate Above(x: nat, avg: real, m: nat) {
    Product(x, avg, m) < 200.0
  }

  lemma VisitorAbove(x: nat, avg: real, m: nat)
    requires m > 0 && avg > 0.0
    ensures Above(x, avg, m) <==> Divide(Per(2.0, m), avg).q > x as real
  {
    VisitorQuotient(avg, m);
    QuotientBound(x, avg, m, Divide(Per(2.0, m), avg).q, 200.0);
  }

  // A quotient above t falls by less than 1, and it does not stay above t for good.
  lemma StillAbove(t: nat, avg: real, avg': real, m: nat, bound: nat)
    requires t >= 1 && m >= t * (t + 2) && avg > 0.0 && avg' == avg + Per(Per(2.0, m), m)
    requires Above(t, avg, m) && !Above(t, avg, bound)
    ensures m < bound && Above(t - 1, avg', m + 1) && !Above(t, avg', bound)
  {
    var p := Per(Per(2.0, m), m);
    VisitGain(t, m, p);
    SmallFall(t, avg, avg', m, p, 200.0);
    Growing(t, avg, avg', m, bound, 200.0);
  }

  // A quotient between t - 1 and t.
  lemma Caught(c: Config, t: nat, avg: real, m: nat)
    requires t >= 1 && m >= 1 && m >= c.tresholdForRating && avg > 0.0
    requires c.minScore + 101 == t <= c.maxScore
    requires Above(t - 1, avg, m) && !Above(t, avg, m)
    ensures !NumberInUnit(Rated(Rate(c, m, Per(2.0, m), avg)))
  {
    VisitorAbove(t - 1, avg, m);
    VisitorAbove(t, avg, m);
  }

  // Visitors come until the quotient lies between t - 1 and t.
  lemma {:induction false} Settle(c: Config, rs: seq<Request>, id: string, n: nat, k: nat, t: nat, bound: nat)
    returns (more: seq<Request>)
    requires FreshRun(c, rs) && Primed(Run(c, rs), id, n, k)
    requires t >= 1 && n + 1 >= t * (t + 2) && n + 1 >= c.tresholdForRating
    requires c.minScore + 101 == t <= c.maxScore
    requires Above(t - 1, Run(c, rs).avgDiviation, n + 1) && !Above(t, Run(c, rs).avgDiviation, bound)
    ensures more != [] && FreshRun(c, more) && !NumberInUnit(LastOutcome(c, more))
    decreases bound - n
  {
    var avg := Run(c, rs).avgDiviation;
    more := Visit(c, rs, id, n, k);
    var avg' := Run(c, more).avgDiviation;
    if Above(t, avg, n + 1) {
      StillAbove(t, avg, avg', n + 1, bound);
      more := Settle(c, more, id, n + 1, k, t, bound);
    } else {
      Caught(c, t, avg, n + 1);
    }
  }

  function Enough(c: Config, least: nat): nat {
    least + if c.tresholdForRating > 0 then c.tresholdForRating else 0
  }

  lemma HighScore(c: Config) returns (rs: seq<Request>)
    requires -100 <= c.minScore && c.maxScore - c.minScore > 100
    ensures rs != [] && FreshRun(c, rs) && !NumberInUnit(LastOutcome(c, rs))
  {
    var t := c.minScore + 101;
    assert t * (t + 2) >= 3;
    var n := Enough(c, t * (t + 2));
    var id;
    rs, id := Prime(c, n);
    var avg := Run(c, rs).avgDiviation;
    Beginning(t, n, avg);
    assert Above(t - 1, avg, n + 1) && !Above(t, avg, 200 * Area(n, n));
    rs := Settle(c, rs, id, n, n, t, 200 * Area(n, n));
  }

  // The session that repeated a jump walks on.
  lemma WalkAgain(c: Config, rs: seq<Request>, id: string, n: nat, k: nat, d: real) returns (more: seq<Request>)
    requires FreshRun(c, rs) && Primed(Run(c, rs), id, n, k) && d == Deviation(1, n + 1, History(k + 1, 1))
    ensures FreshRun(c, more) && more != []
    ensures LastOutcome(c, more) == Rated(Rate(c, n + 1, d, Run(c, rs).avgDiviation))
  {
    var s := Run(c, rs);
    var path := NewPage(s.jumps, "");
    var r := Again(id, path);
    RunSnoc(c, rs, r);
    assert Opened(s, r, id) == s && Scored(s.histories[id], 0) == History(k + 1, 1);
    WeighedStep(c, s, r, id, 0);
    more := rs + [r];
  }

  // A session that deviates by nothing although others have.
  lemma EvenWalk(c: Config, rs: seq<Request>, id: string, n: nat, k: nat) returns (more: seq<Request>)
    requires FreshRun(c, rs) && Primed(Run(c, rs), id, n, k) && n + 1 == 2 * (k + 1)
    requires c.minScore < -100 && c.maxScore >= 0 && n >= c.tresholdForRating
    ensures more != [] && FreshRun(c, more) && !NumberInUnit(LastOutcome(c, more))
  {
    EvenDeviation(n + 1, k + 1);
    more := WalkAgain(c, rs, id, n, k, 0.0);
    ZeroRate(c, n + 1, Run(c, rs).avgDiviation);
  }

  lemma ZeroScore(c: Config) returns (rs: seq<Request>)
    requires c.minScore < -100 && c.maxScore >= 0
    ensures rs != [] && FreshRun(c, rs) && !NumberInUnit(LastOutcome(c, rs))
  {
    var n := Enough(c, 3);
    var id;
    rs, id := Prime(c, n);
    rs := Visits(c, rs, id, n, n, n + 1);
    rs := EvenWalk(c, rs, id, n + (n + 1), n);
  }

  lemma ZeroRate(c: Config, n: nat, avg: real)
    requires c.minScore < -100 && c.maxScore >= 0 && n >= c.tresholdForRating && avg > 0.0
    ensures !NumberInUnit(Rated(Rate(c, n, 0.0, avg)))
  {
    assert Divide(0.0, avg) == Finite(0.0);
  }

  lemma EvenDeviation(m: nat, k: nat)
    requires m == 2 * k > 0
    ensures Deviation(1, m, History(k, 1)) == 0.0
  {
    var x := k as real;
    assert m as real == 2.0 * x;
    assert 1.0 / (2.0 * x) * 2.0 == 1.0 / x;
  }

  lemma NarrowScores(c: Config, n: nat, d: real, avg: real)
    requires c.minScore < c.maxScore && NarrowOrNegative(c) && d >= 0.0 && avg >= 0.0
    ensures NumberInUnit(Rated(Rate(c, n, d, avg)))
  {
    QuotientOrder(0.0, d, avg);
  }

  // Over every run: the scores that are numbers stay in [0, 1] exactly when the two thresholds are
  // at most 100 apart or the upper one is negative. In any other configuration there is a run on
  // which one does not.
  lemma NumbersInUnitCondition(c: Config)
    requires c.minScore < c.maxScore
    ensures NumbersInUnit(c) <==> NarrowOrNegative(c)
  {
    if NarrowOrNegative(c) {
      forall rs | rs != [] && FreshRun(c, rs) ensures NumberInUnit(LastOutcome(c, rs)) {
        var s := Run(c, rs[..|rs| - 1]);
        RunAveraged(c, rs[..|rs| - 1]);
        HarmonicZero(s.deviations);
        var d := StepDeviation(c, s, rs[|rs| - 1]);
        NarrowScores(c, s.numberOfJumps + 1, d, s.avgDiviation);
      }
    } else if c.minScore >= -100 {
      var rs := HighScore(c);
    } else {
      var rs := ZeroScore(c);
    }
  }

  // In every configuration some run ends with a score that is not a number: a session that walks
  // over new pages until the rating threshold is reached.
  lemma NotANumberRun(c: Config) returns (rs: seq<Request>)
    ensures rs != [] && FreshRun(c, rs) && LastOutcome(c, rs) == Rated(NotANumber)
  {
    var id;
    rs, id := Walk(c, Enough(c, 1));
    rs := WalkOn(c, rs, id, Enough(c, 1));
  }

  // ---------- examples ----------

  // A new session asks for "/" twice; then another one opens with "/a".
  const THREE: seq<Request> := [First("A", "/"), Again("A", "/"), First("B", "/a")]

  lemma FirstOne(c: Config)
    ensures FreshRun(c, THREE[..1]) && LastOutcome(c, THREE[..1]) == Rated(Rate(c, 1, 0.0, 0.0))
    ensures Run(c, THREE[..1]) ==
            State(multiset{Jump("/", "/")}, 1, 0, 0.0, map["A" := "/"], map["A" := History(1, 0)], [0.0], [])
  {
    var r := THREE[0];
    assert THREE[..1] == [] + [r];
    RunSnoc(c, [], r);
    RootPath();
    NormalizeIdempotent("");
    WeighedStep(c, INIT, r, "A", 0);
    NoDeviation(1, 1);
  }

  lemma FirstTwo(c: Config)
    ensures FreshRun(c, THREE[..2])
    ensures Run(c, THREE[..2]) ==
            State(multiset{Jump("/", "/"), Jump("/", "/")}, 2, 1, 0.25, map["A" := "/"], map["A" := History(2, 1)],
                  [0.0, 0.5], [])
  {
    var r := THREE[1];
    FirstOne(c);
    assert THREE[..2] == THREE[..1] + [r];
    RunSnoc(c, THREE[..1], r);
    RootPath();
    NormalizeIdempotent("");
    WeighedStep(c, Run(c, THREE[..1]), r, "A", 1);
    FirstDeviation(2);
  }

  lemma AllThree(c: Config)
    ensures FreshRun(c, THREE) && LastOutcome(c, THREE) == Rated(Rate(c, 3, 2.0 / 3.0, 0.25))
    ensures Run(c, THREE).avgDiviation == 17.0 / 36.0 && Run(c, THREE).deviations == [0.0, 0.5, 2.0 / 3.0]
  {
    var r := THREE[2];
    FirstTwo(c);
    LastOfThree(THREE[0], THREE[1], r);
    RunSnoc(c, THREE[..2], r);
    RootPath();
    NewEdge();
    WeighedStep(c, Run(c, THREE[..2]), r, "B", 0);
    ThirdDeviation();
  }

  lemma LastOfThree(r0: Request, r1: Request, r2: Request)
    ensures var rs := [r0, r1, r2];
            rs[..2] + [r2] == rs
  {
  }

  lemma ThirdDeviation()
    ensures Deviation(1, 3, History(1, 0)) == 2.0 / 3.0 && Average(0.25, 3, 2.0 / 3.0) == 17.0 / 36.0
  {
  }

  lemma NewEdge()
    ensures NormalizePath("/a") != "/"
  {
    assert |NormalizePath("/a")| == 2;
  }

  // With thresholds 100 and 300 the third request is forwarded with the score 5/3.
  lemma AboveOneExample(threshold: int)
    requires threshold <= 3
    ensures LastOutcome(Config(threshold, 100, 300), THREE) == Rated(Score(5.0 / 3.0))
  {
    AllThree(Config(threshold, 100, 300));
  }

  // The very first request is forwarded with a score that is not a number.
  lemma NotANumberExample(c: Config)
    requires c.tresholdForRating <= 1
    ensures FreshRun(c, THREE[..1]) && LastOutcome(c, THREE[..1]) == Rated(NotANumber)
  {
    FirstOne(c);
  }

  // avgDiviation is 17/36 where the mean deviation is 14/36.
  lemma AverageExample(c: Config)
    ensures Run(c, THREE).avgDiviation == 17.0 / 36.0 && Mean(Run(c, THREE).deviations) == 14.0 / 36.0
  {
    AllThree(c);
    var ds := [0.0, 0.5, 2.0 / 3.0];
    assert ds[..2] == [0.0, 0.5] && [0.0, 0.5][..1] == [0.0] && [0.0][..0] == [];
    assert Total([0.0]) == 0.0;
    assert Total([0.0, 0.5]) == 0.5;
    assert Total(ds) == 0.5 + 2.0 / 3.0;
  }

  // Four new sessions ask for "/", "/", "/a" and "/".
  const FOUR: seq<Request> := [First("A", "/"), First("B", "/"), First("C", "/a"), First("D", "/")]

  lemma TwoOfFour(c: Config)
    ensures FreshRun(c, FOUR[..2])
    ensures Run(c, FOUR[..2]) ==
            State(multiset{Jump("/", "/"), Jump("/", "/")}, 2, 1, 0.0, map["A" := "/", "B" := "/"],
                  map["A" := History(1, 0), "B" := History(1, 1)], [0.0, 0.0], [])
  {
    var r := FOUR[1];
    FirstOne(c);
    assert FOUR[..1] == THREE[..1] && FOUR[..2] == FOUR[..1] + [r];
    RunSnoc(c, FOUR[..1], r);
    RootPath();
    NormalizeIdempotent("");
    WeighedStep(c, Run(c, FOUR[..1]), r, "B", 1);
    FourDeviations();
  }

  lemma FourSlices(r0: Request, r1: Request, r2: Request, r3: Request)
    ensures var rs := [r0, r1, r2, r3];
            rs[..2] + [r2] == rs[..3] && rs[..3] + [r3] == rs
  {
  }

  lemma FourDeviations()
    ensures Deviation(1, 2, History(1, 1)) == 0.0 && Average(0.0, 2, 0.0) == 0.0
    ensures Deviation(1, 3, History(1, 0)) == 2.0 / 3.0 && Average(0.0, 3, 2.0 / 3.0) == 2.0 / 9.0
    ensures Deviation(3, 4, History(1, 2)) == 0.5
  {
  }

  lemma ThreeOfFour(c: Config)
    ensures FreshRun(c, FOUR[..3])
    ensures var s := Run(c, FOUR[..3]);
            && s.jumps[Jump("/", "/")] == 2 && s.numberOfJumps == 3 && s.scoreSum == 1
            && s.avgDiviation == 2.0 / 9.0 && "D" !in s.histories && "D" !in s.lastPaths
  {
    var r := FOUR[2];
    TwoOfFour(c);
    FourSlices(FOUR[0], FOUR[1], r, FOUR[3]);
    RunSnoc(c, FOUR[..2], r);
    RootPath();
    NewEdge();
    WeighedStep(c, Run(c, FOUR[..2]), r, "C", 0);
    FourDeviations();
  }

  // A session whose average lies above twice the global one: with the default thresholds 100 and
  // 200 the fourth request is forwarded with the score 1.
  lemma SuspiciousExample(threshold: int)
    requires threshold <= 4
    ensures var c := Config(threshold, 100, 200);
            FreshRun(c, FOUR) && LastOutcome(c, FOUR) == Rated(Score(1.0))
  {
    var c := Config(threshold, 100, 200);
    var r := FOUR[3];
    ThreeOfFour(c);
    FourSlices(FOUR[0], FOUR[1], FOUR[2], r);
    RunSnoc(c, FOUR[..3], r);
    RootPath();
    NormalizeIdempotent("");
    WeighedStep(c, Run(c, FOUR[..3]), r, "D", 2);
    FourDeviations();
    RateMeaning(c, 4, 0.5, 2.0 / 9.0);
  }
}
