/** internal/handlers/balancer.go: the server table and the weight line that the policies share. */
module Balancers {
  import opened Wrappers

  type Uint64 = n: int | 0 <= n < 0x1_0000_0000_0000_0000

  // A backend as configured: weight is a 64-bit unsigned number, urlParses is url.Parse's verdict.
  datatype ServerConfig = ServerConfig(url: string, urlParses: bool, weight: Uint64)

  // An entry of the server table. The proxy of entry i is identified by i.
  datatype Server = Server(weight: int, url: string)

  datatype PolicyKind = RoundRobin | Random | LeastLatency

  // int(weight) of a 64-bit unsigned number, then the clamp.
  function ClampWeight(weight: Uint64): (w: int)
    ensures w >= 1
  {
    var signed := if weight < 0x8000_0000_0000_0000 then weight else weight - 0x1_0000_0000_0000_0000;
    if signed < 1 then 1 else signed
  }

  // What the configuration check and the clamp guarantee to every policy.
  predicate Ready(ss: seq<Server>) {
    |ss| > 0 && forall i | 0 <= i < |ss| :: ss[i].weight >= 1
  }

  // An unknown policy name leaves the balancer without a policy.
  function PolicyOf(name: string): Option<PolicyKind> {
    if name == "round-robin" then Some(RoundRobin)
    else if name == "random" then Some(Random)
    else if name == "least-latency" then Some(LeastLatency)
    else None
  }

  method NewBalancer(configs: seq<ServerConfig>, policy: string)
      returns (r: Result<(seq<Server>, Option<PolicyKind>), string>)
    ensures r.Ok? <==> forall i | 0 <= i < |configs| :: configs[i].urlParses
    ensures r.Err? ==> exists i | 0 <= i < |configs| ::
              (&& !configs[i].urlParses && r.error == configs[i].url
               && forall j | 0 <= j < i :: configs[j].urlParses)
    ensures r.Ok? ==> |r.value.0| == |configs| && (configs != [] ==> Ready(r.value.0))
    ensures r.Ok? ==>
              && (r.value.1 == Some(RoundRobin) <==> policy == "round-robin")
              && (r.value.1 == Some(Random) <==> policy == "random")
              && (r.value.1 == Some(LeastLatency) <==> policy == "least-latency")
    ensures r.Ok? ==> forall i | 0 <= i < |configs| ::
              r.value.0[i].url == configs[i].url
              && r.value.0[i].weight == if 1 <= configs[i].weight < 0x8000_0000_0000_0000 then configs[i].weight else 1
  {
    var servers := [];
    for k := 0 to |configs|
      invariant |servers| == k
      invariant forall i | 0 <= i < k :: configs[i].urlParses
      invariant forall i | 0 <= i < k :: servers[i] == Server(ClampWeight(configs[i].weight), configs[i].url)
    {
      if !configs[k].urlParses {
        return Err(configs[k].url);
      }
      servers := servers + [Server(ClampWeight(configs[k].weight), configs[k].url)];
    }
    return Ok((servers, PolicyOf(policy)));
  }

  // ---------- the weight line: server i owns the slots Prefix(i) .. Prefix(i + 1) - 1 ----------

  function Prefix(ss: seq<Server>, i: nat): int
    requires i <= |ss|
  {
    if i == 0 then 0 else Prefix(ss, i - 1) + ss[i - 1].weight
  }

  lemma {:induction false} PrefixGrows(ss: seq<Server>, i: nat, j: nat)
    requires Ready(ss) && i <= j <= |ss|
    ensures Prefix(ss, j) - Prefix(ss, i) >= j - i
  {
    if i < j { PrefixGrows(ss, i, j - 1); }
  }

  function WeightSum(ss: seq<Server>): (W: int)
    ensures Ready(ss) ==> W > 0
  {
    if Ready(ss) then PrefixGrows(ss, 0, |ss|); Prefix(ss, |ss|) else Prefix(ss, |ss|)
  }

  predicate Owns(ss: seq<Server>, i: nat, slot: int) {
    i < |ss| && Prefix(ss, i) <= slot < Prefix(ss, i + 1)
  }

  function Owner(ss: seq<Server>, slot: int): (i: nat)
    requires Ready(ss) && 0 <= slot < WeightSum(ss)
    ensures Owns(ss, i, slot)
  {
    OwnerFrom(ss, slot, 0)
  }

  function OwnerFrom(ss: seq<Server>, slot: int, k: nat): (i: nat)
    requires Ready(ss) && k < |ss| && Prefix(ss, k) <= slot < WeightSum(ss)
    ensures Owns(ss, i, slot)
    decreases |ss| - k
  {
    if slot < Prefix(ss, k + 1) then k else OwnerFrom(ss, slot, k + 1)
  }

  lemma OwnerUnique(ss: seq<Server>, i: nat, j: nat, slot: int)
    requires Ready(ss) && Owns(ss, i, slot) && Owns(ss, j, slot)
    ensures i == j
  {
    if i < j { PrefixGrows(ss, i + 1, j); }
    if j < i { PrefixGrows(ss, j + 1, i); }
  }

  method SumWeights(servers: seq<Server>) returns (weightsSum: int)
    ensures weightsSum == WeightSum(servers)
  {
    weightsSum := 0;
    for i := 0 to |servers|
      invariant weightsSum == Prefix(servers, i)
    {
      weightsSum := weightsSum + servers[i].weight;
    }
  }
}
