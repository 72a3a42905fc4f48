/** The running deviation and the score that calcAnomalyRating derives from it. */
module RoutingRating {
  import opened RoutingAnomaly

  // ---------- avgDiviation ----------

  // The k-th deviation is divided by k, not by the number of deviations.
  function Harmonic(ds: seq<real>): real {
    if ds == [] then 0.0 else Harmonic(ds[..|ds| - 1]) + Per(ds[|ds| - 1], |ds|)
  }

  function Total(ds: seq<real>): real {
    if ds == [] then 0.0 else Total(ds[..|ds| - 1]) + ds[|ds| - 1]
  }

  function Mean(ds: seq<real>): real
    requires ds != []
  {
    Per(Total(ds), |ds|)
  }

  predicate NonNegative(ds: seq<real>) {
    forall i | 0 <= i < |ds| :: ds[i] >= 0.0
  }

  predicate AllZero(ds: seq<real>) {
    forall i | 0 <= i < |ds| :: ds[i] == 0.0
  }

  ghost predicate Averaged(s: State) {
    && s.avgDiviation == Harmonic(s.deviations)
    && NonNegative(s.deviations)
  }

  lemma RunningUpdate(avg: real, n: nat, d: real)
    requires n > 0
    ensures Average(avg, n, d) == avg + Per(d, n)
    ensures d >= 0.0 ==> Per(d, n) >= 0.0
    ensures Per(d, n) == 0.0 <==> d == 0.0
    ensures Per(d, n) * n as real == d
  {
    var k := n as real;
    assert (avg * k + d) / k == avg * k / k + d / k;
  }

  // The distance between twice the average of the whole detector and the average of a session.
  predicate Distance(d: real, sum: int, n: nat, h: History)
    requires n > 0 && h.jumpsCount > 0
  {
    var global, session := sum as real / n as real * 2.0, h.jumpsScoreSum as real / h.jumpsCount as real;
    (global >= session ==> d == global - session) && (global <= session ==> d == session - global)
  }

  lemma DeviationIsDistance(sum: int, n: nat, h: History)
    requires n > 0 && h.jumpsCount > 0
    ensures Distance(Deviation(sum, n, h), sum, n, h)
  {
  }

  // What a step does to the deviations: nothing, or it rates one more, comparing the averages of
  // the whole detector and of the session after the step.
  lemma StepDeviation(c: Config, s: State, r: Request) returns (d: real)
    ensures d >= 0.0
    ensures var (s', out) := Step(c, s, r);
            if out.Rated? then
              var n := s.numberOfJumps + 1;
              && s'.deviations == s.deviations + [d]
              && s'.numberOfJumps == n
              && SessionId(r).Some? && SessionId(r).value in s'.histories
              && s'.histories[SessionId(r).value].jumpsCount > 0
              && d == Deviation(s'.scoreSum, n, s'.histories[SessionId(r).value])
              && Distance(d, s'.scoreSum, n, s'.histories[SessionId(r).value])
              && s'.avgDiviation == Average(s.avgDiviation, n, d)
              && out.rating == Rate(c, n, d, s.avgDiviation)
            else
              s'.deviations == s.deviations && s'.avgDiviation == s.avgDiviation
              && s'.numberOfJumps == s.numberOfJumps
  {
    var (s', out) := Step(c, s, r);
    d := if out.Rated? then s'.deviations[|s.deviations|] else 0.0;
    if out.Rated? {
      DeviationIsDistance(s'.scoreSum, s'.numberOfJumps, s'.histories[SessionId(r).value]);
    }
  }

  lemma NonNegativeSnoc(ds: seq<real>, d: real)
    requires NonNegative(ds) && d >= 0.0
    ensures NonNegative(ds + [d])
  {
  }

  lemma {:induction false} HarmonicSnoc(ds: seq<real>, d: real)
    requires d >= 0.0
    ensures var n := |ds| + 1;
            Harmonic(ds + [d]) == Harmonic(ds) + Per(d, n) == Average(Harmonic(ds), n, d) >= Harmonic(ds)
  {
    RunningUpdate(Harmonic(ds), |ds| + 1, d);
    assert (ds + [d])[..|ds|] == ds;
  }

  lemma StepAveraged(c: Config, s: State, r: Request)
    requires s.numberOfJumps == |s.deviations| && Averaged(s)
    ensures Averaged(Step(c, s, r).0)
    ensures Step(c, s, r).0.avgDiviation >= s.avgDiviation
  {
    var d := StepDeviation(c, s, r);
    NonNegativeSnoc(s.deviations, d);
    HarmonicSnoc(s.deviations, d);
  }

  // After n rated requests avgDiviation is the sum of deviation k divided by k.
  lemma {:induction false} RunAveraged(c: Config, rs: seq<Request>)
    requires FreshRun(c, rs)
    ensures Averaged(Run(c, rs)) && Run(c, rs).numberOfJumps == |Run(c, rs).deviations|
  {
    RunInvariant(c, rs);
    if rs != [] {
      RunInvariant(c, rs[..|rs| - 1]);
      RunAveraged(c, rs[..|rs| - 1]);
      StepAveraged(c, Run(c, rs[..|rs| - 1]), rs[|rs| - 1]);
    }
  }

  // It never decreases from one point of a run to a later one.
  lemma {:induction false} NeverDecreases(c: Config, rs: seq<Request>, k: nat)
    requires FreshRun(c, rs) && k <= |rs|
    ensures FreshRun(c, rs[..k])
    ensures 0.0 <= Run(c, rs[..k]).avgDiviation <= Run(c, rs).avgDiviation
    decreases |rs|
  {
    if k == |rs| {
      assert rs[..k] == rs;
      RunAveraged(c, rs);
      HarmonicZero(Run(c, rs).deviations);
    } else {
      var front := rs[..|rs| - 1];
      NeverDecreases(c, front, k);
      assert front[..k] == rs[..k];
      RunInvariant(c, front);
      RunAveraged(c, front);
      StepAveraged(c, Run(c, front), rs[|rs| - 1]);
    }
  }

  lemma {:induction false} HarmonicZero(ds: seq<real>)
    requires NonNegative(ds)
    ensures Harmonic(ds) >= 0.0 && Total(ds) >= 0.0
    ensures Harmonic(ds) == 0.0 <==> AllZero(ds)
  {
    if ds != [] {
      var front, d := ds[..|ds| - 1], ds[|ds| - 1];
      assert ds == front + [d];
      HarmonicZero(front);
      RunningUpdate(0.0, |ds|, d);
    }
  }

  function Times(x: real, n: nat): real { x * n as real }

  lemma TimesGrow(h: real, n: nat, d: real)
    requires n > 0
    ensures Times(h + Per(d, n), n) == Times(h, n - 1) + h + d
    ensures Times(h, 0) == 0.0
  {
    RunningUpdate(0.0, n, d);
    assert (n - 1) as real == n as real - 1.0;
  }

  lemma {:induction false} HarmonicTotal(ds: seq<real>)
    requires NonNegative(ds)
    ensures Times(Harmonic(ds), |ds|) >= Total(ds)
    ensures ds != [] ==> (Times(Harmonic(ds), |ds|) == Total(ds) <==> AllZero(ds[..|ds| - 1]))
  {
    if ds == [] {
      TimesGrow(0.0, 1, 0.0);
    } else {
      var n := |ds|;
      var front := ds[..n - 1];
      HarmonicZero(front);
      HarmonicTotal(front);
      // n * Harmonic(ds) - Total(ds) exceeds the same difference for front by Harmonic(front).
      TimesGrow(Harmonic(front), n, ds[n - 1]);
      if AllZero(front) {
        TotalZero(front);
        TimesGrow(0.0, n, ds[n - 1]);
      }
    }
  }

  lemma {:induction false} TotalZero(ds: seq<real>)
    requires AllZero(ds)
    ensures Total(ds) == 0.0
  {
    if ds != [] { TotalZero(ds[..|ds| - 1]); }
  }

  // avgDiviation is at least the mean deviation, and is the mean only while every deviation
  // before the latest was zero.
  lemma AverageCondition(c: Config, rs: seq<Request>)
    requires FreshRun(c, rs) && Run(c, rs).deviations != []
    ensures var s := Run(c, rs);
            && s.avgDiviation >= Mean(s.deviations)
            && (s.avgDiviation == Mean(s.deviations) <==> AllZero(s.deviations[..|s.deviations| - 1]))
  {
    RunAveraged(c, rs);
    HarmonicMean(Run(c, rs).deviations);
  }

  lemma HarmonicMean(ds: seq<real>)
    requires NonNegative(ds) && ds != []
    ensures Harmonic(ds) >= Mean(ds)
    ensures Harmonic(ds) == Mean(ds) <==> AllZero(ds[..|ds| - 1])
  {
    HarmonicTotal(ds);
    ScaledCompare(Harmonic(ds), Total(ds), |ds|);
  }

  lemma ScaledCompare(h: real, t: real, n: nat)
    requires n > 0
    ensures h >= Per(t, n) <==> Times(h, n) >= t
    ensures h == Per(t, n) <==> Times(h, n) == t
  {
    var k := n as real;
    assert t / k * k == t;
    if h * k >= t && h < t / k {
      assert (t / k - h) * k > 0.0;
    }
    if h >= t / k {
      assert (h - t / k) * k >= 0.0;
    }
  }

  // ---------- the score ----------

  lemma QuotientOrder(d: real, d': real, avg: real)
    requires 0.0 <= d <= d' && avg >= 0.0
    ensures avg != 0.0 ==> 0.0 <= Divide(d, avg).q <= Divide(d', avg).q
  {
    if avg != 0.0 {
      var step := avg / 100.0;
      assert d' / step - d / step == (d' - d) / step;
      assert (d' - d) / step >= 0.0 && d / step >= 0.0;
    }
  }

  // The score for a deviation d when avgDiviation is avg: 0 below the rating threshold or when 100 d
  // stays below minScore times avg, 1 when it exceeds maxScore times avg, a proportion in between,
  // and not a number when both are zero.
  lemma RateMeaning(c: Config, n: nat, d: real, avg: real)
    requires c.minScore < c.maxScore && d >= 0.0 && avg >= 0.0
    ensures n < c.tresholdForRating ==> Rate(c, n, d, avg) == Score(0.0)
    ensures n >= c.tresholdForRating && avg == 0.0 ==>
              Rate(c, n, d, avg) == if d == 0.0 then NotANumber else Score(1.0)
    ensures n >= c.tresholdForRating && avg > 0.0 ==>
              && Rate(c, n, d, avg).Score?
              && var v := Rate(c, n, d, avg).value;
                 && (100.0 * d < c.minScore as real * avg ==> v == 0.0)
                 && (100.0 * d > c.maxScore as real * avg ==> v == 1.0)
                 && (c.minScore as real * avg <= 100.0 * d <= c.maxScore as real * avg ==>
                       v * 100.0 * avg == 100.0 * d - c.minScore as real * avg)
  {
    if avg > 0.0 {
      var q := Divide(d, avg).q;
      assert q * (avg / 100.0) == d && q * avg == 100.0 * d;
      Compare(q, c.minScore as real, avg);
      Compare(q, c.maxScore as real, avg);
    }
  }

  lemma Compare(q: real, x: real, avg: real)
    requires avg > 0.0
    ensures q < x <==> q * avg < x * avg
  {
  }

  ghost predicate Monotone(c: Config) {
    forall n: nat, d: real, d': real, avg: real | 0.0 <= d <= d' && avg > 0.0 ::
      Rate(c, n, d, avg).value <= Rate(c, n, d', avg).value
  }

  // A larger deviation never lowers the score exactly when the thresholds are at most 100 apart (or
  // no quotient can reach the window between them).
  lemma MonotoneCondition(c: Config)
    requires c.minScore < c.maxScore
    ensures Monotone(c) <==> c.maxScore - c.minScore <= 100 || c.maxScore < 0
  {
    if c.maxScore - c.minScore <= 100 || c.maxScore < 0 {
      forall n: nat, d: real, d': real, avg: real | 0.0 <= d <= d' && avg > 0.0
        ensures Rate(c, n, d, avg).value <= Rate(c, n, d', avg).value
      {
        QuotientOrder(d, d', avg);
      }
    } else {
      var n := if c.tresholdForRating > 0 then c.tresholdForRating else 0;
      var d, d' := c.maxScore as real / 100.0, (c.maxScore + 1) as real / 100.0;
      assert Divide(d, 1.0) == Finite(c.maxScore as real);
      assert Divide(d', 1.0) == Finite((c.maxScore + 1) as real);
      assert Rate(c, n, d, 1.0).value > Rate(c, n, d', 1.0).value;
    }
  }

  lemma UndefinedQuotient(c: Config, n: nat, d: real, avg: real)
    ensures Rate(c, n, d, avg).NotANumber? <==> n >= c.tresholdForRating && avg == 0.0 && d == 0.0
  {
  }

  lemma AllZeroSnoc(ds: seq<real>, d: real)
    ensures AllZero(ds + [d]) <==> AllZero(ds) && d == 0.0
  {
    if AllZero(ds + [d]) {
      assert (ds + [d])[|ds|] == 0.0;
      assert forall i | 0 <= i < |ds| :: (ds + [d])[i] == ds[i];
    }
  }

  lemma StepNotANumber(c: Config, s: State, r: Request)
    requires s.numberOfJumps == |s.deviations| && Averaged(s)
    ensures var (s', out) := Step(c, s, r);
            out.Rated? ==> (out.rating.NotANumber? <==>
              s'.numberOfJumps >= c.tresholdForRating && AllZero(s'.deviations))
  {
    var d := StepDeviation(c, s, r);
    HarmonicZero(s.deviations);
    AllZeroSnoc(s.deviations, d);
    UndefinedQuotient(c, s.numberOfJumps + 1, d, s.avgDiviation);
  }

  // The forwarded header is not a number exactly when the threshold has been reached and every
  // deviation so far, the current one included, was zero.
  lemma NotANumberCondition(c: Config, rs: seq<Request>, r: Request)
    requires FreshRun(c, rs)
    ensures var (s', out) := Step(c, Run(c, rs), r);
            out.Rated? ==> (out.rating.NotANumber? <==>
              s'.numberOfJumps >= c.tresholdForRating && AllZero(s'.deviations))
  {
    RunAveraged(c, rs);
    StepNotANumber(c, Run(c, rs), r);
  }
}
