/** RoundRobinPolicy: a counter that runs 0, 1, .., W and then back to 1, and what it amounts to. */
module RoundRobinPolicies {
  import opened Arithmetic
  import opened Balancers

  // ---------- the specification: call k serves the owner of slot k mod W ----------

  function Pick(ss: seq<Server>, k: nat): nat
    requires Ready(ss)
  {
    Owner(ss, k % WeightSum(ss))
  }

  // How many of the n calls from call a on serve server i.
  function Picks(ss: seq<Server>, i: nat, a: nat, n: nat): nat
    requires Ready(ss)
  {
    if n == 0 then 0 else Picks(ss, i, a, n - 1) + if Pick(ss, a + n - 1) == i then 1 else 0
  }

  // ---------- the counter ----------

  // The counter before call k.
  function Counter(W: int, k: nat): int
    requires W > 0
  {
    if k == 0 then 0 else (k - 1) % W + 1
  }

  lemma CounterSlot(W: int, k: nat)
    requires W > 0
    ensures 0 <= Counter(W, k) <= W
    ensures k % W == if Counter(W, k) == W then 0 else Counter(W, k)
    ensures Counter(W, k + 1) == if Counter(W, k) == W then 1 else Counter(W, k) + 1
  {
    if k > 0 {
      var q, r := (k - 1) / W, (k - 1) % W;
      assert k - 1 == q * W + r;
      if r == W - 1 {
        assert k == (q + 1) * W;
        ModIs(k, W, q + 1, 0);
      } else {
        ModIs(k, W, q, r + 1);
      }
    }
  }

  class RoundRobinPolicy {
    var current: int
    const weightsSum: int
    const servers: seq<Server>

    ghost var calls: nat // the calls of GetNext made so far

    ghost predicate Valid()
      reads this
    {
      && Ready(servers)
      && weightsSum == WeightSum(servers) > 0
      && current == Counter(weightsSum, calls)
    }

    constructor (servers: seq<Server>)
      requires Ready(servers)
      ensures Valid() && calls == 0 && this.servers == servers
    {
      var sum := SumWeights(servers);
      this.servers := servers;
      weightsSum := sum;
      current := 0;
      calls := 0;
    }

    method GetNext() returns (index: nat)
      requires Valid()
      modifies `current, `calls
      ensures Valid() && calls == old(calls) + 1
      ensures index == Pick(servers, old(calls))
    {
      CounterSlot(weightsSum, calls);
      ghost var k := calls;
      calls := calls + 1;
      var serverIndex := current;
      for i := 0 to |servers|
        invariant serverIndex == current - Prefix(servers, i) >= 0
        invariant current == old(current)
      {
        serverIndex := serverIndex - servers[i].weight;
        if serverIndex < 0 {
          PrefixGrows(servers, i + 1, |servers|);
          OwnerUnique(servers, i, Pick(servers, k), current);
          current := current + 1;
          return i;
        }
      }
      ModIs(weightsSum, weightsSum, 1, 0);
      OwnerUnique(servers, 0, Pick(servers, k), 0);
      current := current % weightsSum + 1;
      return 0;
    }
  }

  // ---------- fairness ----------

  lemma {:induction false} PicksSplit(ss: seq<Server>, i: nat, a: nat, m: nat, n: nat)
    requires Ready(ss)
    ensures Picks(ss, i, a, m + n) == Picks(ss, i, a, m) + Picks(ss, i, a + m, n)
  {
    if n > 0 { PicksSplit(ss, i, a, m, n - 1); }
  }

  // The first n <= W calls walk once along the weight line.
  lemma {:induction false} PicksFromStart(ss: seq<Server>, i: nat, n: nat)
    requires Ready(ss) && i < |ss| && n <= WeightSum(ss)
    ensures Picks(ss, i, 0, n) ==
            if n <= Prefix(ss, i) then 0
            else if n <= Prefix(ss, i + 1) then n - Prefix(ss, i)
            else ss[i].weight
  {
    PrefixGrows(ss, 0, i);
    if n > 0 {
      PicksFromStart(ss, i, n - 1);
      ModIs(n - 1, WeightSum(ss), 0, n - 1);
      if Owns(ss, i, n - 1) {
        OwnerUnique(ss, i, Pick(ss, n - 1), n - 1);
      }
    }
  }

  lemma SinglePick(ss: seq<Server>, i: nat, a: nat)
    requires Ready(ss)
    ensures Picks(ss, i, a, 1) == if Pick(ss, a) == i then 1 else 0
  {
    assert Picks(ss, i, a, 0) == 0;
  }

  // Any W consecutive calls serve each server exactly as often as its weight says.
  lemma {:induction false} FairWindow(ss: seq<Server>, i: nat, a: nat)
    requires Ready(ss) && i < |ss|
    ensures Picks(ss, i, a, WeightSum(ss)) == ss[i].weight
  {
    var W := WeightSum(ss);
    if a == 0 {
      PrefixGrows(ss, i + 1, |ss|);
      PicksFromStart(ss, i, W);
    } else {
      FairWindow(ss, i, a - 1);
      PicksSplit(ss, i, a - 1, 1, W - 1);
      PicksSplit(ss, i, a, W - 1, 1);
      ModPeriodic(a - 1, W);
      SinglePick(ss, i, a - 1);
      SinglePick(ss, i, a - 1 + W);
    }
  }

  lemma {:induction false} FairRounds(ss: seq<Server>, i: nat, a: nat, q: nat)
    requires Ready(ss) && i < |ss|
    ensures q * WeightSum(ss) >= 0 && Picks(ss, i, a, q * WeightSum(ss)) == q * ss[i].weight
  {
    var W := WeightSum(ss);
    if q > 0 {
      FairRounds(ss, i, a, q - 1);
      assert q * W == (q - 1) * W + W && q * ss[i].weight == (q - 1) * ss[i].weight + ss[i].weight;
      PicksSplit(ss, i, a, (q - 1) * W, W);
      FairWindow(ss, i, a + (q - 1) * W);
    }
  }

  // n calls, starting anywhere: the count is within one round's share of exact proportion.
  lemma FairShare(ss: seq<Server>, i: nat, a: nat, n: nat)
    requires Ready(ss) && i < |ss|
    ensures var whole := n / WeightSum(ss) * ss[i].weight;
            whole <= Picks(ss, i, a, n) <= whole + ss[i].weight
  {
    var W := WeightSum(ss);
    var q, r := n / W, n % W;
    assert n == q * W + r;
    FairRounds(ss, i, a, q);
    PicksSplit(ss, i, a, q * W, r);
    FairWindow(ss, i, a + q * W);
    PicksSplit(ss, i, a + q * W, r, W - r);
  }
}
