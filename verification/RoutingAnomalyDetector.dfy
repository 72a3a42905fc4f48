/** The detector object of routing_anomaly_score.go; each request takes one step of RoutingAnomaly. */
module RoutingAnomalyDetectors {
  import opened PathGraphs
  import opened RoutingAnomaly

  class TrackerHistory {
    ghost const owner: string // the session this history belongs to
    var jumpsCount: nat
    var jumpsScoreSum: int

    constructor (ghost owner: string)
      ensures this.owner == owner && jumpsCount == 0 && jumpsScoreSum == 0
    {
      this.owner := owner;
      jumpsCount, jumpsScoreSum := 0, 0;
    }

    function Value(): History
      reads this
    {
      History(jumpsCount, jumpsScoreSum)
    }

    method Count(jumpScore: int)
      modifies this
      ensures Value() == History(old(jumpsCount) + 1, old(jumpsScoreSum) + jumpScore)
    {
      jumpsCount := jumpsCount + 1;
      jumpsScoreSum := jumpsScoreSum + jumpScore;
    }

    method Avg() returns (avg: real)
      requires jumpsCount != 0
      ensures avg == Per(jumpsScoreSum as real, jumpsCount)
    {
      avg := jumpsScoreSum as real / jumpsCount as real;
    }
  }

  ghost function Values(hs: map<string, TrackerHistory>): map<string, History>
    reads hs.Values
  {
    map id | id in hs :: hs[id].Value()
  }

  class RoutingAnomalyDetector {
    const config: Config
    const graph: PathGraph
    var numberOfJumps: nat
    var scoreSum: int
    var avgDiviation: real
    var lastPaths: map<string, string>
    var trackerRoutingHistory: map<string, TrackerHistory>

    ghost var deviations: seq<real>
    ghost var lost: seq<Lost>
    ghost var owned: set<TrackerHistory> // the histories

    ghost predicate Valid()
      reads this, owned, graph, graph.Repr
    {
      && this !in graph.Repr && owned !! graph.Repr && graph.Valid()
      && forall id | id in trackerRoutingHistory ::
           trackerRoutingHistory[id] in owned && trackerRoutingHistory[id].owner == id
    }

    ghost function Abstract(): State
      reads this, owned, graph, graph.Repr
      requires Valid()
    {
      State(graph.jumps, numberOfJumps, scoreSum, avgDiviation, lastPaths, Values(trackerRoutingHistory),
            deviations, lost)
    }

    constructor (config: Config)
      ensures Valid() && fresh(this) && fresh(owned) && fresh(graph.Repr)
      ensures Abstract() == INIT && this.config == config
    {
      this.config := config;
      graph := new PathGraph();
      numberOfJumps, scoreSum, avgDiviation := 0, 0, 0.0;
      lastPaths, trackerRoutingHistory := map[], map[];
      deviations, lost := [], [];
      owned := {};
    }

    // The update of the statistics and the rating, for a session whose history is trackerH.
    method CalcAnomalyRating(trackerH: TrackerHistory) returns (rating: Rating)
      requires numberOfJumps != 0 && trackerH.jumpsCount != 0
      modifies `avgDiviation, `deviations
      ensures var d := Deviation(scoreSum, numberOfJumps, trackerH.Value());
              && avgDiviation == Average(old(avgDiviation), numberOfJumps, d)
              && deviations == old(deviations) + [d]
              && rating == Rate(config, numberOfJumps, d, old(avgDiviation))
    {
      var avgGlobalScore := Per(scoreSum as real, numberOfJumps) * 2.0;
      var avgTrackerScore := trackerH.Avg();
      var diviation := Abs(avgGlobalScore - avgTrackerScore);
      var anomalyScore := Divide(diviation, avgDiviation);
      avgDiviation := Average(avgDiviation, numberOfJumps, diviation);
      deviations := deviations + [diviation];

      if numberOfJumps < config.tresholdForRating {
        return Score(0.0);
      }
      if anomalyScore.Finite? && anomalyScore.q < config.minScore as real {
        return Score(0.0);
      }
      if anomalyScore.Infinite? || (anomalyScore.Finite? && anomalyScore.q > config.maxScore as real) {
        return Score(1.0);
      }
      if anomalyScore.Undefined? {
        return NotANumber;
      }
      return Score((anomalyScore.q - config.minScore as real) / 100.0);
    }

    method AddAnomalyScore(r: Request) returns (outcome: Outcome)
      requires Valid()
      modifies this, owned, graph.Repr
      ensures Valid() && fresh(owned - old(owned)) && fresh(graph.Repr - old(graph.Repr))
      ensures (Abstract(), outcome) == Step(config, old(Abstract()), r)
    {
      var traceId := r.cookie;
      if traceId == "" {
        if r.newId.None? {
          return ServedUnrated;
        }
        traceId := r.newId.value;
        OpenSession(traceId);
      }
      assert Abstract() == Opened(old(Abstract()), r, traceId);
      var found := GetLastPath(lastPaths, traceId, r.referer);
      if found.None? {
        return RefererPanic;
      }
      var (lastPath, exists_) := found.value;
      if !exists_ {
        lastPath := "";
      }
      outcome := MoveSession(traceId, lastPath, r.path);
    }

    method OpenSession(traceId: string)
      requires Valid()
      modifies `trackerRoutingHistory, `owned
      ensures Valid() && fresh(owned - old(owned))
      ensures Abstract() == old(Abstract()).(histories := old(Values(trackerRoutingHistory))[traceId := History(0, 0)])
    {
      var trackerH := new TrackerHistory(traceId);
      owned := owned + {trackerH};
      trackerRoutingHistory := trackerRoutingHistory[traceId := trackerH];
      assert Values(trackerRoutingHistory) == old(Values(trackerRoutingHistory))[traceId := History(0, 0)];
    }

    // From AddJump on: the jump enters the graph before the history is looked up.
    method MoveSession(traceId: string, lastPath: string, currentPath: string) returns (outcome: Outcome)
      requires Valid()
      modifies this, owned, graph.Repr
      ensures Valid() && owned == old(owned) && fresh(graph.Repr - old(graph.Repr))
      ensures (Abstract(), outcome) == Move(config, old(Abstract()), traceId, lastPath, currentPath)
    {
      var jumpScore := RecordJump(lastPath, currentPath);
      if traceId !in trackerRoutingHistory {
        lost := lost + [Lost(JumpBetween(lastPath, currentPath), jumpScore)];
        return HistoryPanic;
      }
      outcome := AccountJump(traceId, currentPath, jumpScore);
    }

    method RecordJump(lastPath: string, currentPath: string) returns (jumpScore: int)
      requires Valid()
      modifies graph.Repr
      ensures Valid() && fresh(graph.Repr - old(graph.Repr))
      ensures var j := JumpBetween(lastPath, currentPath);
              && jumpScore == old(graph.jumps)[j]
              && graph.jumps == old(graph.jumps) + multiset{j}
      ensures Values(trackerRoutingHistory) == old(Values(trackerRoutingHistory))
    {
      jumpScore := graph.AddJump(lastPath, currentPath);
    }

    // Lines 102 to 111: the statistics of the session, then those of the detector.
    method AccountJump(traceId: string, currentPath: string, jumpScore: nat) returns (outcome: Outcome)
      requires Valid() && traceId in trackerRoutingHistory
      modifies this, owned
      ensures Valid() && owned == old(owned)
      ensures (Abstract(), outcome) == Account(config, old(Abstract()), traceId, currentPath, jumpScore)
    {
      var trackerH := CountJump(traceId, jumpScore);
      outcome := TallyJump(traceId, trackerH, currentPath, jumpScore);
    }

    method CountJump(traceId: string, jumpScore: nat) returns (trackerH: TrackerHistory)
      requires Valid() && traceId in trackerRoutingHistory
      modifies owned
      ensures Valid() && trackerH.Value() == Scored(old(Values(trackerRoutingHistory))[traceId], jumpScore)
      ensures Values(trackerRoutingHistory) == old(Values(trackerRoutingHistory))[traceId := trackerH.Value()]
    {
      trackerH := trackerRoutingHistory[traceId];
      trackerH.Count(jumpScore);
    }

    method TallyJump(traceId: string, trackerH: TrackerHistory, currentPath: string, jumpScore: nat)
      returns (outcome: Outcome)
      requires Valid() && trackerH.jumpsCount != 0
      modifies `numberOfJumps, `scoreSum, `lastPaths, `avgDiviation, `deviations
      ensures Valid()
      ensures (Abstract(), outcome) ==
              Tally(config, old(Abstract()), traceId, currentPath, trackerH.Value(), jumpScore)
    {
      numberOfJumps := numberOfJumps + 1;
      scoreSum := scoreSum + jumpScore;
      lastPaths := lastPaths[traceId := currentPath];
      var rating := CalcAnomalyRating(trackerH);
      outcome := Rated(rating);
    }
  }
}
