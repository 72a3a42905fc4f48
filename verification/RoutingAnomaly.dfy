/**
 internal/middlewares/security/routing_anomaly_score.go as a state machine on values: one request
 is one step. RoutingAnomalyDetectors.RoutingAnomalyDetector is the object that takes these steps.
 */
module RoutingAnomaly {
  import opened Wrappers
  import opened PathGraphs

  datatype Config = Config(tresholdForRating: int, minScore: int, maxScore: int)

  // trackerHistory: the jumps of one session and the sum of their scores.
  datatype History = History(jumpsCount: nat, jumpsScoreSum: int)

  // A jump that entered the graph but none of the statistics, with its score.
  datatype Lost = Lost(jump: Jump, score: nat)

  // deviations and lost only record what happened; no step depends on them.
  datatype State = State(
    jumps: multiset<Jump>,
    numberOfJumps: nat,
    scoreSum: int,
    avgDiviation: real,
    lastPaths: map<string, string>,
    histories: map<string, History>,
    deviations: seq<real>,
    lost: seq<Lost>
  )

  // cookie is "" when the request has none; newId is the identifier drawn for a new session, None
  // when drawing it failed; referer is the path in the Referer header, None if url.Parse
  // rejects the header.
  datatype Request = Request(cookie: string, newId: Option<string>, path: string, referer: Option<string>)

  datatype Rating = Score(value: real) | NotANumber

  datatype Outcome =
    | Rated(rating: Rating)
    | ServedUnrated     // no identifier could be drawn
    | RefererPanic      // type assertion on a nil last path
    | HistoryPanic      // nil history

  const INIT := State(multiset{}, 0, 0, 0.0, map[], map[], [], [])

  // ---------- the rating ----------

  function Abs(x: real): real {
    if x < 0.0 then -x else x
  }

  function Per(x: real, n: nat): real
    requires n != 0
  {
    x / n as real
  }

  // The update of avgDiviation, numberOfJumps having been counted up already.
  function Average(avg: real, n: nat, d: real): real
    requires n != 0
  {
    Per(avg * n as real + d, n)
  }

  function Deviation(scoreSum: int, numberOfJumps: nat, h: History): real
    requires numberOfJumps != 0 && h.jumpsCount != 0
  {
    Abs(Per(scoreSum as real, numberOfJumps) * 2.0 - Per(h.jumpsScoreSum as real, h.jumpsCount))
  }

  // Floating-point division of a non-negative deviation by avg / 100.
  datatype Quotient = Finite(q: real) | Infinite | Undefined

  function Divide(deviation: real, avg: real): Quotient {
    if avg != 0.0 then Finite(deviation / (avg / 100.0))
    else if deviation == 0.0 then Undefined
    else Infinite
  }

  // Every comparison with an undefined quotient is false, so it falls through to the last return.
  function Rate(c: Config, numberOfJumps: int, deviation: real, avg: real): Rating {
    if numberOfJumps < c.tresholdForRating then Score(0.0)
    else
      match Divide(deviation, avg)
      case Undefined => NotANumber
      case Infinite => Score(1.0)
      case Finite(q) =>
        if q < c.minScore as real then Score(0.0)
        else if q > c.maxScore as real then Score(1.0)
        else Score((q - c.minScore as real) / 100.0)
  }

  // ---------- one request ----------

  function SessionId(r: Request): Option<string> {
    if r.cookie != "" then Some(r.cookie) else r.newId
  }

  // A request without a cookie opens a session with an empty history.
  function Opened(s: State, r: Request, id: string): State {
    if r.cookie == "" then s.(histories := s.histories[id := History(0, 0)]) else s
  }

  // The stored path of a session, or else the one in the Referer header, and whether it was
  // stored; None when neither exists and the type assertion fails.
  function GetLastPath(lastPaths: map<string, string>, id: string, referer: Option<string>): Option<(string, bool)> {
    if id in lastPaths then Some((lastPaths[id], true))
    else if referer.Some? then Some((referer.value, false))
    else None
  }

  // Where the jump of a session starts.
  function LastPath(s: State, id: string): string {
    if id in s.lastPaths then s.lastPaths[id] else ""
  }

  function Step(c: Config, s: State, r: Request): (State, Outcome) {
    match SessionId(r)
    case None => (s, ServedUnrated)
    case Some(id) =>
      var s1 := Opened(s, r, id);
      match GetLastPath(s1.lastPaths, id, r.referer)
      case None => (s1, RefererPanic)
      case Some((lastPath, exists_)) => Move(c, s1, id, if exists_ then lastPath else "", r.path)
  }

  function Move(c: Config, s: State, id: string, lastPath: string, path: string): (State, Outcome) {
    var j := JumpBetween(lastPath, path);
    var score := s.jumps[j];
    var s1 := s.(jumps := s.jumps + multiset{j});
    if id !in s.histories then (s1.(lost := s.lost + [Lost(j, score)]), HistoryPanic)
    else Account(c, s1, id, path, score)
  }

  function Account(c: Config, s: State, id: string, path: string, score: nat): (State, Outcome)
    requires id in s.histories
  {
    var h := Scored(s.histories[id], score);
    Tally(c, s.(histories := s.histories[id := h]), id, path, h, score)
  }

  function Scored(h: History, score: nat): History {
    History(h.jumpsCount + 1, h.jumpsScoreSum + score)
  }

  // The statistics of the detector, those of the session being h.
  function Tally(c: Config, s: State, id: string, path: string, h: History, score: nat): (State, Outcome)
    requires h.jumpsCount != 0
  {
    var n, sum := s.numberOfJumps + 1, s.scoreSum + score;
    var d := Deviation(sum, n, h);
    (s.(numberOfJumps := n,
        scoreSum := sum,
        avgDiviation := Average(s.avgDiviation, n, d),
        lastPaths := s.lastPaths[id := path],
        deviations := s.deviations + [d]),
     Rated(Rate(c, n, d, s.avgDiviation)))
  }

  // A request either moves its session from the stored path, or leaves all but the histories alone.
  lemma StepMoves(c: Config, s: State, r: Request)
    ensures var (s', out) := Step(c, s, r);
            if out.ServedUnrated? then s' == s
            else
              && SessionId(r).Some?
              && var id := SessionId(r).value;
                 var s1 := Opened(s, r, id);
                 if out.RefererPanic? then s' == s1
                 else (s', out) == Move(c, s1, id, LastPath(s1, id), r.path)
  {
  }

  // ---------- runs ----------

  function Run(c: Config, rs: seq<Request>): State {
    if rs == [] then INIT else Step(c, Run(c, rs[..|rs| - 1]), rs[|rs| - 1]).0
  }

  // Identifiers are drawn at random from 128 bits: a drawn one is new and is not the empty string.
  predicate Fresh(s: State, r: Request) {
    r.cookie == "" && r.newId.Some? ==> r.newId.value != "" && r.newId.value !in s.histories
  }

  predicate FreshRun(c: Config, rs: seq<Request>) {
    rs == [] || (FreshRun(c, rs[..|rs| - 1]) && Fresh(Run(c, rs[..|rs| - 1]), rs[|rs| - 1]))
  }

  ghost predicate Invariant(s: State) {
    && s.lastPaths.Keys <= s.histories.Keys
    && s.numberOfJumps == |s.deviations|
  }

  lemma StepInvariant(c: Config, s: State, r: Request)
    requires Invariant(s) && Fresh(s, r)
    ensures Invariant(Step(c, s, r).0)
  {
  }

  lemma {:induction false} RunInvariant(c: Config, rs: seq<Request>)
    requires FreshRun(c, rs)
    ensures Invariant(Run(c, rs))
  {
    if rs != [] {
      RunInvariant(c, rs[..|rs| - 1]);
      StepInvariant(c, Run(c, rs[..|rs| - 1]), rs[|rs| - 1]);
    }
  }
}
