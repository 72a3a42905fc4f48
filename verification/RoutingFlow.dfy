/** What the path graph, the last-path table and the sums have to do with each other, over every run. */
module RoutingFlow {
  import opened Wrappers
  import opened Sums
  import opened PathGraphs
  import opened RoutingAnomaly

  // ---------- flow balance ----------

  ghost function From(v: string): Jump -> bool { (e: Jump) => e.src == v }

  ghost function To(v: string): Jump -> bool { (e: Jump) => e.dst == v }

  ghost function Every(): Jump -> bool { e => true }

  ghost function Count(): nat -> int { w => w }

  // The scores 0, 1, .., w-1 handed out for an edge of weight w add up to this.
  ghost function Triangle(): nat -> int { w => w * (w - 1) / 2 }

  ghost function Outgoing(jumps: multiset<Jump>, v: string): int { EdgeSum(jumps, From(v), Count()) }

  ghost function Incoming(jumps: multiset<Jump>, v: string): int { EdgeSum(jumps, To(v), Count()) }

  ghost function SessionsAt(lastPaths: map<string, string>, v: string): set<string> {
    set id | id in lastPaths && NormalizePath(lastPaths[id]) == v
  }

  function LostTo(lost: seq<Lost>, v: string): nat {
    if lost == [] then 0
    else LostTo(lost[..|lost| - 1], v) + if lost[|lost| - 1].jump.dst == v then 1 else 0
  }

  // Every session walks from "/" to where it is now; a lost jump is a walk of one step from "/".
  ghost predicate Balance(jumps: multiset<Jump>, lastPaths: map<string, string>, lost: seq<Lost>, v: string) {
    Outgoing(jumps, v) - Incoming(jumps, v)
      == (if v == "/" then |lastPaths| + |lost| else 0) - |SessionsAt(lastPaths, v)| - LostTo(lost, v)
  }

  ghost predicate Balanced(s: State, v: string) {
    Balance(s.jumps, s.lastPaths, s.lost, v)
  }

  lemma MovedSession(last: map<string, string>, id: string, path: string, v: string)
    ensures |SessionsAt(last[id := path], v)| == |SessionsAt(last, v)|
              - (if id in last && NormalizePath(last[id]) == v then 1 else 0)
              + (if NormalizePath(path) == v then 1 else 0)
  {
    var others := SessionsAt(last, v) - {id};
    assert SessionsAt(last[id := path], v) == if NormalizePath(path) == v then others + {id} else others;
    assert SessionsAt(last, v) == if id in SessionsAt(last, v) then others + {id} else others;
  }

  lemma JumpFlow(jumps: multiset<Jump>, j: Jump, v: string)
    ensures Outgoing(jumps + multiset{j}, v) == Outgoing(jumps, v) + if j.src == v then 1 else 0
    ensures Incoming(jumps + multiset{j}, v) == Incoming(jumps, v) + if j.dst == v then 1 else 0
  {
    EdgeSumStep(jumps, j, From(v), Count());
    EdgeSumStep(jumps, j, To(v), Count());
  }

  lemma WalkBalance(jumps: multiset<Jump>, last: map<string, string>, lost: seq<Lost>,
                    id: string, path: string, v: string)
    requires Balance(jumps, last, lost, v)
    ensures var j := JumpBetween(if id in last then last[id] else "", path);
            Balance(jumps + multiset{j}, last[id := path], lost, v)
  {
    RootPath();
    JumpFlow(jumps, JumpBetween(if id in last then last[id] else "", path), v);
    MovedSession(last, id, path, v);
    assert last[id := path].Keys == last.Keys + {id};
  }

  lemma StrayBalance(jumps: multiset<Jump>, last: map<string, string>, lost: seq<Lost>,
                     l: Lost, path: string, v: string)
    requires Balance(jumps, last, lost, v)
    requires l.jump == JumpBetween("", path)
    ensures Balance(jumps + multiset{l.jump}, last, lost + [l], v)
  {
    RootPath();
    JumpFlow(jumps, l.jump, v);
    assert (lost + [l])[..|lost|] == lost;
  }

  lemma MoveBalanced(c: Config, s: State, id: string, path: string, v: string)
    requires Balanced(s, v) && (id in s.lastPaths ==> id in s.histories)
    ensures Balanced(Move(c, s, id, LastPath(s, id), path).0, v)
  {
    var j := JumpBetween(LastPath(s, id), path);
    if id in s.histories {
      WalkBalance(s.jumps, s.lastPaths, s.lost, id, path, v);
    } else {
      StrayBalance(s.jumps, s.lastPaths, s.lost, Lost(j, s.jumps[j]), path, v);
    }
  }

  lemma StepBalanced(c: Config, s: State, r: Request, v: string)
    requires Invariant(s) && Fresh(s, r) && Balanced(s, v)
    ensures Balanced(Step(c, s, r).0, v)
  {
    StepMoves(c, s, r);
    if SessionId(r).Some? {
      var id := SessionId(r).value;
      MoveBalanced(c, Opened(s, r, id), id, r.path, v);
    }
  }

  lemma {:induction false} FlowBalance(c: Config, rs: seq<Request>, v: string)
    requires FreshRun(c, rs)
    ensures Balanced(Run(c, rs), v)
  {
    if rs == [] {
      assert SessionsAt(INIT.lastPaths, v) == {};
    } else {
      RunInvariant(c, rs[..|rs| - 1]);
      FlowBalance(c, rs[..|rs| - 1], v);
      StepBalanced(c, Run(c, rs[..|rs| - 1]), rs[|rs| - 1], v);
    }
  }

  // The balance that counts sessions alone.
  ghost predicate SessionBalance(s: State, v: string) {
    Outgoing(s.jumps, v) - Incoming(s.jumps, v)
      == (if v == "/" then |s.lastPaths| else 0) - |SessionsAt(s.lastPaths, v)|
  }

  lemma {:induction false} LostToAtMost(lost: seq<Lost>, v: string)
    ensures 0 <= LostTo(lost, v) <= |lost|
    ensures LostTo(lost, v) == |lost| <==> forall l | l in lost :: l.jump.dst == v
    ensures LostTo(lost, v) == 0 <==> forall l | l in lost :: l.jump.dst != v
  {
    if lost != [] {
      LostToAtMost(lost[..|lost| - 1], v);
      assert lost == lost[..|lost| - 1] + [lost[|lost| - 1]];
    }
  }

  lemma SessionBalanceLost(c: Config, rs: seq<Request>)
    requires FreshRun(c, rs)
    ensures (forall v :: SessionBalance(Run(c, rs), v))
              <==> forall l | l in Run(c, rs).lost :: l.jump.dst == "/"
  {
    var s := Run(c, rs);
    forall v
      ensures SessionBalance(s, v) <==> LostTo(s.lost, v) == if v == "/" then |s.lost| else 0
    {
      FlowBalance(c, rs, v);
    }
    forall v { LostToAtMost(s.lost, v); }
    if l :| l in s.lost && l.jump.dst != "/" {
      assert LostTo(s.lost, "/") != |s.lost|;
      assert !SessionBalance(s, "/");
    }
  }

  // ---------- counting identities ----------

  ghost function TotalWeight(jumps: multiset<Jump>): int { EdgeSum(jumps, Every(), Count()) }

  ghost function TotalScore(jumps: multiset<Jump>): int { EdgeSum(jumps, Every(), Triangle()) }

  ghost function JumpsOf(hs: map<string, History>): string -> int {
    id => if id in hs then hs[id].jumpsCount else 0
  }

  ghost function ScoreOf(hs: map<string, History>): string -> int {
    id => if id in hs then hs[id].jumpsScoreSum else 0
  }

  ghost function SessionJumps(hs: map<string, History>): int { SumOver(hs.Keys, JumpsOf(hs)) }

  ghost function SessionScores(hs: map<string, History>): int { SumOver(hs.Keys, ScoreOf(hs)) }

  function LostScore(lost: seq<Lost>): nat {
    if lost == [] then 0 else LostScore(lost[..|lost| - 1]) + lost[|lost| - 1].score
  }

  ghost predicate Counted(s: State) {
    && SessionJumps(s.histories) == s.numberOfJumps
    && SessionScores(s.histories) == s.scoreSum
    && TotalWeight(s.jumps) == s.numberOfJumps + |s.lost|
    && TotalScore(s.jumps) == s.scoreSum + LostScore(s.lost)
  }

  lemma HistoryChange(hs: map<string, History>, id: string, h: History)
    ensures var was := if id in hs then hs[id] else History(0, 0);
            && SessionJumps(hs[id := h]) == SessionJumps(hs) + h.jumpsCount - was.jumpsCount
            && SessionScores(hs[id := h]) == SessionScores(hs) + h.jumpsScoreSum - was.jumpsScoreSum
  {
    var hs' := hs[id := h];
    assert hs'.Keys == hs.Keys + {id};
    SumChange(hs.Keys, JumpsOf(hs), JumpsOf(hs'), id);
    SumChange(hs.Keys, ScoreOf(hs), ScoreOf(hs'), id);
  }

  lemma JumpTotals(jumps: multiset<Jump>, j: Jump)
    ensures TotalWeight(jumps + multiset{j}) == TotalWeight(jumps) + 1
    ensures TotalScore(jumps + multiset{j}) == TotalScore(jumps) + jumps[j]
  {
    EdgeSumStep(jumps, j, Every(), Count());
    EdgeSumStep(jumps, j, Every(), Triangle());
    var w: int := jumps[j];
    assert (w + 1) * w == w * (w - 1) + 2 * w;
  }

  lemma MoveCounted(c: Config, s: State, id: string, lastPath: string, path: string)
    requires Counted(s)
    ensures Counted(Move(c, s, id, lastPath, path).0)
  {
    var j := JumpBetween(lastPath, path);
    JumpTotals(s.jumps, j);
    if id in s.histories {
      HistoryChange(s.histories, id, Move(c, s, id, lastPath, path).0.histories[id]);
    } else {
      assert (s.lost + [Lost(j, s.jumps[j])])[..|s.lost|] == s.lost;
    }
  }

  lemma OpenedCounted(s: State, r: Request, id: string)
    requires Counted(s) && Fresh(s, r) && SessionId(r) == Some(id)
    ensures Counted(Opened(s, r, id))
  {
    HistoryChange(s.histories, id, History(0, 0));
  }

  lemma StepCounted(c: Config, s: State, r: Request)
    requires Invariant(s) && Fresh(s, r) && Counted(s)
    ensures Counted(Step(c, s, r).0)
  {
    StepMoves(c, s, r);
    if SessionId(r).Some? {
      var id := SessionId(r).value;
      OpenedCounted(s, r, id);
      MoveCounted(c, Opened(s, r, id), id, LastPath(Opened(s, r, id), id), r.path);
    }
  }

  lemma {:induction false} CountingIdentity(c: Config, rs: seq<Request>)
    requires FreshRun(c, rs)
    ensures Counted(Run(c, rs))
  {
    if rs != [] {
      RunInvariant(c, rs[..|rs| - 1]);
      CountingIdentity(c, rs[..|rs| - 1]);
      StepCounted(c, Run(c, rs[..|rs| - 1]), rs[|rs| - 1]);
    }
  }

  // ---------- requests whose cookie the detector never issued ----------

  predicate Stranger(s: State, r: Request) {
    r.cookie != "" && r.cookie !in s.histories && r.referer.Some?
  }

  // A first visit whose Referer header url.Parse rejects.
  predicate BadReferer(s: State, r: Request) {
    (if r.cookie == "" then r.newId.Some? else r.cookie !in s.lastPaths) && r.referer.None?
  }

  // How a request ends, and that a request which is not rated or lost leaves the graph and every
  // statistic alone.
  lemma OutcomeConditions(c: Config, s: State, r: Request)
    requires Invariant(s) && Fresh(s, r)
    ensures var (s', out) := Step(c, s, r);
            && (out == ServedUnrated <==> r.cookie == "" && r.newId == None)
            && (out == RefererPanic <==> BadReferer(s, r))
            && (out == HistoryPanic <==> Stranger(s, r))
            && (out == ServedUnrated || out == RefererPanic ==>
                  s'.jumps == s.jumps && s'.numberOfJumps == s.numberOfJumps && s'.scoreSum == s.scoreSum
                  && s'.avgDiviation == s.avgDiviation && s'.lastPaths == s.lastPaths)
  {
  }

  // The path that getLastPath finds in a Referer header is never used: all headers that parse have
  // the same effect, and one that does not parse makes a difference exactly when it panics.
  lemma RefererUnused(c: Config, s: State, r: Request, referer: string)
    requires Invariant(s) && Fresh(s, r)
    ensures r.referer.Some? ==> Step(c, s, r) == Step(c, s, r.(referer := Some(referer)))
    ensures r.referer.None? ==>
              (Step(c, s, r) == Step(c, s, r.(referer := Some(referer))) <==> !BadReferer(s, r))
  {
    if SessionId(r).Some? {
      var id := SessionId(r).value;
      assert id in s.lastPaths ==> GetLastPath(s.lastPaths, id, None) == GetLastPath(s.lastPaths, id, Some(referer));
    }
  }

  // A stranger leaves one more jump in the graph, from "/", and changes nothing else; no other
  // request leaves a jump without a session.
  lemma StrangerPanics(c: Config, s: State, r: Request)
    requires Invariant(s) && Fresh(s, r)
    ensures Stranger(s, r) ==>
              var j := Jump("/", NormalizePath(r.path));
              Step(c, s, r) ==
                (s.(jumps := s.jumps + multiset{j}, lost := s.lost + [Lost(j, s.jumps[j])]), HistoryPanic)
    ensures !Stranger(s, r) ==> Step(c, s, r).0.lost == s.lost
  {
    RootPath();
  }

  predicate NoStranger(c: Config, rs: seq<Request>) {
    rs == [] || (NoStranger(c, rs[..|rs| - 1]) && !Stranger(Run(c, rs[..|rs| - 1]), rs[|rs| - 1]))
  }

  predicate StrangersAtRoot(c: Config, rs: seq<Request>) {
    rs == [] ||
    (&& StrangersAtRoot(c, rs[..|rs| - 1])
     && (Stranger(Run(c, rs[..|rs| - 1]), rs[|rs| - 1]) ==> NormalizePath(rs[|rs| - 1].path) == "/"))
  }

  lemma {:induction false} LostByStrangers(c: Config, rs: seq<Request>)
    requires FreshRun(c, rs)
    ensures Run(c, rs).lost == [] <==> NoStranger(c, rs)
    ensures (forall l | l in Run(c, rs).lost :: l.jump.dst == "/") <==> StrangersAtRoot(c, rs)
  {
    if rs != [] {
      var s, r := Run(c, rs[..|rs| - 1]), rs[|rs| - 1];
      RunInvariant(c, rs[..|rs| - 1]);
      LostByStrangers(c, rs[..|rs| - 1]);
      StrangerPanics(c, s, r);
      var lost := Run(c, rs).lost;
      if Stranger(s, r) {
        assert lost == s.lost + [lost[|s.lost|]];
      }
    }
  }

  // Sessions alone balance the graph exactly when strangers only ever ask for "/".
  lemma SessionBalanceCondition(c: Config, rs: seq<Request>)
    requires FreshRun(c, rs)
    ensures (forall v :: SessionBalance(Run(c, rs), v)) <==> StrangersAtRoot(c, rs)
  {
    SessionBalanceLost(c, rs);
    LostByStrangers(c, rs);
  }

  // The request counter agrees with the graph exactly when there has been no stranger.
  lemma JumpCountCondition(c: Config, rs: seq<Request>)
    requires FreshRun(c, rs)
    ensures TotalWeight(Run(c, rs).jumps) == Run(c, rs).numberOfJumps <==> NoStranger(c, rs)
  {
    CountingIdentity(c, rs);
    LostByStrangers(c, rs);
  }

  // One stranger at "/a": an edge of weight 1 that no counter and no session knows about.
  lemma StrangerExample(c: Config)
    ensures var s := Run(c, [Request("forged", None, "/a", Some(""))]);
            TotalWeight(s.jumps) == 1 && s.numberOfJumps == 0 && s.lastPaths == map[]
  {
    var rs := [Request("forged", None, "/a", Some(""))];
    assert rs[..0] == [];
    assert FreshRun(c, rs[..0]);
    assert Stranger(Run(c, rs[..0]), rs[0]);
    CountingIdentity(c, rs);
  }
}
