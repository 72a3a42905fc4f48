/** RandomPolicy: how the W equally likely draws are shared out. */
module RandomPolicies {
  import opened Arithmetic
  import opened Balancers
  import opened RoundRobinPolicies

  // The first server whose cumulated weight is at least the draw.
  function RandomPick(ss: seq<Server>, draw: int): nat
    requires Ready(ss) && 0 <= draw < WeightSum(ss)
  {
    PickFrom(ss, draw, 0)
  }

  function PickFrom(ss: seq<Server>, draw: int, k: nat): (i: nat)
    requires Ready(ss) && 0 <= draw < WeightSum(ss) && k < |ss|
    requires k > 0 ==> Prefix(ss, k) < draw
    ensures i < |ss|
    decreases |ss| - k
  {
    if draw <= Prefix(ss, k + 1) then k else PickFrom(ss, draw, k + 1)
  }

  class RandomPolicy {
    const weightsSum: int
    const servers: seq<Server>

    ghost predicate Valid() {
      Ready(servers) && weightsSum == WeightSum(servers)
    }

    constructor (servers: seq<Server>)
      requires Ready(servers)
      ensures Valid() && this.servers == servers
    {
      var sum := SumWeights(servers);
      this.servers := servers;
      weightsSum := sum;
    }

    // draw is the result of rand.Intn(weightsSum). The statement after the loop is not reached.
    method GetNext(draw: int) returns (index: nat)
      requires Valid() && 0 <= draw < weightsSum
      ensures index == RandomPick(servers, draw)
    {
      var randomServerIndex := draw;
      index := 0;
      for i := 0 to |servers|
        invariant randomServerIndex == draw - Prefix(servers, i)
        invariant i > 0 ==> randomServerIndex > 0
        invariant i < |servers| ==> RandomPick(servers, draw) == PickFrom(servers, draw, i)
      {
        randomServerIndex := randomServerIndex - servers[i].weight;
        if randomServerIndex <= 0 {
          return i;
        }
      }
      assert false;
    }
  }

  // The <= 0 test shifts the weight line by one: draw 0 joins slot 0 and the last slot is cut off.
  lemma {:induction false} PickFromShift(ss: seq<Server>, draw: int, k: nat)
    requires Ready(ss) && 0 <= draw < WeightSum(ss) && k < |ss|
    requires k > 0 ==> Prefix(ss, k) < draw
    ensures Owns(ss, PickFrom(ss, draw, k), if draw == 0 then 0 else draw - 1)
    decreases |ss| - k
  {
    if draw > Prefix(ss, k + 1) {
      PickFromShift(ss, draw, k + 1);
    }
    PrefixGrows(ss, 0, if k == 0 then 1 else k);
  }

  lemma RandomIsShifted(ss: seq<Server>, draw: int)
    requires Ready(ss) && 0 <= draw < WeightSum(ss)
    ensures RandomPick(ss, draw) == Owner(ss, if draw == 0 then 0 else draw - 1)
  {
    var slot := if draw == 0 then 0 else draw - 1;
    PickFromShift(ss, draw, 0);
    OwnerUnique(ss, RandomPick(ss, draw), Owner(ss, slot), slot);
  }

  // How many of the draws 0 .. n-1 choose server i.
  function Draws(ss: seq<Server>, i: nat, n: nat): nat
    requires Ready(ss) && n <= WeightSum(ss)
  {
    if n == 0 then 0 else Draws(ss, i, n - 1) + if RandomPick(ss, n - 1) == i then 1 else 0
  }

  lemma {:induction false} DrawsShift(ss: seq<Server>, i: nat, n: nat)
    requires Ready(ss) && i < |ss| && 1 <= n <= WeightSum(ss)
    ensures Draws(ss, i, n) == Picks(ss, i, 0, n - 1) + if i == 0 then 1 else 0
  {
    RandomIsShifted(ss, n - 1);
    if n == 1 {
      PrefixGrows(ss, 0, 1);
      OwnerUnique(ss, 0, RandomPick(ss, 0), 0);
      assert Draws(ss, i, 0) == 0;
    } else {
      DrawsShift(ss, i, n - 1);
      ModIs(n - 2, WeightSum(ss), 0, n - 2);
    }
  }

  // Over all W draws the first server gains one and the last loses one; the draws add up to W.
  lemma RandomShares(ss: seq<Server>, i: nat)
    requires Ready(ss) && i < |ss|
    ensures Draws(ss, i, WeightSum(ss)) ==
            ss[i].weight + (if i == 0 then 1 else 0) - (if i == |ss| - 1 then 1 else 0)
  {
    var W := WeightSum(ss);
    PrefixGrows(ss, i + 1, |ss|);
    DrawsShift(ss, i, W);
    PicksFromStart(ss, i, W - 1);
  }

  // The draws chosen for the first k servers.
  function DrawsOfFirst(ss: seq<Server>, k: nat, n: nat): nat
    requires Ready(ss) && n <= WeightSum(ss)
  {
    if k == 0 then 0 else DrawsOfFirst(ss, k - 1, n) + Draws(ss, k - 1, n)
  }

  lemma {:induction false} DrawsOfFirstStep(ss: seq<Server>, k: nat, n: nat)
    requires Ready(ss) && 0 < n <= WeightSum(ss)
    ensures DrawsOfFirst(ss, k, n) == DrawsOfFirst(ss, k, n - 1) + if RandomPick(ss, n - 1) < k then 1 else 0
  {
    if k > 0 { DrawsOfFirstStep(ss, k - 1, n); }
  }

  lemma {:induction false} NoDraws(ss: seq<Server>, k: nat)
    requires Ready(ss)
    ensures DrawsOfFirst(ss, k, 0) == 0
  {
    if k > 0 { NoDraws(ss, k - 1); }
  }

  // Every draw chooses one of the servers: the counts add up to the number of draws.
  lemma {:induction false} DrawsTotal(ss: seq<Server>, n: nat)
    requires Ready(ss) && n <= WeightSum(ss)
    ensures DrawsOfFirst(ss, |ss|, n) == n
  {
    if n == 0 {
      NoDraws(ss, |ss|);
    } else {
      DrawsTotal(ss, n - 1);
      DrawsOfFirstStep(ss, |ss|, n);
      RandomIsShifted(ss, n - 1);
    }
  }

  // Shares equal weights only for a single server or away from both ends of the list.
  lemma ExactShareCondition(ss: seq<Server>, i: nat)
    requires Ready(ss) && i < |ss|
    ensures Draws(ss, i, WeightSum(ss)) == ss[i].weight <==> |ss| == 1 || 0 < i < |ss| - 1
    ensures Draws(ss, i, WeightSum(ss)) == 0 <==> |ss| > 1 && i == |ss| - 1 && ss[i].weight == 1
  {
    RandomShares(ss, i);
  }

  // Two servers of weight 1: the second one is never chosen.
  lemma StarvedExample(u: string, v: string)
    ensures var ss := [Server(1, u), Server(1, v)];
            Ready(ss) && WeightSum(ss) == 2 && Draws(ss, 0, 2) == 2 && Draws(ss, 1, 2) == 0
  {
    var ss := [Server(1, u), Server(1, v)];
    assert Prefix(ss, 1) == 1;
    RandomShares(ss, 0);
    RandomShares(ss, 1);
  }

  // ---------- the same loop with a < 0 test ----------

  // The first server whose cumulated weight is more than the draw.
  function StrictPick(ss: seq<Server>, draw: int): nat
    requires Ready(ss) && 0 <= draw < WeightSum(ss)
  {
    StrictFrom(ss, draw, 0)
  }

  // The loop from server k on, rest being what is left of the draw.
  function StrictFrom(ss: seq<Server>, rest: int, k: nat): (i: nat)
    requires Ready(ss) && k < |ss| && 0 <= rest < WeightSum(ss) - Prefix(ss, k)
    ensures Owns(ss, i, rest + Prefix(ss, k))
    decreases |ss| - k
  {
    var randomServerIndex := rest - ss[k].weight;
    if randomServerIndex < 0 then k else StrictFrom(ss, randomServerIndex, k + 1)
  }

  function StrictDraws(ss: seq<Server>, i: nat, n: nat): nat
    requires Ready(ss) && n <= WeightSum(ss)
  {
    if n == 0 then 0 else StrictDraws(ss, i, n - 1) + if StrictPick(ss, n - 1) == i then 1 else 0
  }

  lemma StrictIsOwner(ss: seq<Server>, draw: int)
    requires Ready(ss) && 0 <= draw < WeightSum(ss)
    ensures StrictPick(ss, draw) == Owner(ss, draw)
  {
    OwnerUnique(ss, StrictPick(ss, draw), Owner(ss, draw), draw);
  }

  lemma {:induction false} StrictDrawsArePicks(ss: seq<Server>, i: nat, n: nat)
    requires Ready(ss) && n <= WeightSum(ss)
    ensures StrictDraws(ss, i, n) == Picks(ss, i, 0, n)
  {
    if n > 0 {
      StrictDrawsArePicks(ss, i, n - 1);
      StrictIsOwner(ss, n - 1);
      ModIs(n - 1, WeightSum(ss), 0, n - 1);
    }
  }

  // A < 0 test would choose the owner of the drawn slot and share all draws exactly by weight.
  lemma StrictTestIsFair(ss: seq<Server>, i: nat)
    requires Ready(ss) && i < |ss|
    ensures forall draw | 0 <= draw < WeightSum(ss) :: StrictPick(ss, draw) == Owner(ss, draw)
    ensures StrictDraws(ss, i, WeightSum(ss)) == ss[i].weight
  {
    forall draw | 0 <= draw < WeightSum(ss)
      ensures StrictPick(ss, draw) == Owner(ss, draw)
    {
      StrictIsOwner(ss, draw);
    }
    StrictDrawsArePicks(ss, i, WeightSum(ss));
    FairWindow(ss, i, 0);
  }
}
