/** LeastLatencyPolicy: the server whose last recorded latency is smallest. */
module LeastLatencyPolicies {
  import opened GoInts
  import opened Balancers

  ghost function Urls(ss: seq<Server>): set<string> {
    set i | 0 <= i < |ss| :: ss[i].url
  }

  predicate Minimal(latency: map<string, int>, url: string) {
    url in latency && forall u | u in latency :: latency[url] <= latency[u]
  }

  class LeastLatencyPolicy {
    var serversLatency: map<string, int>
    const servers: seq<Server>

    // The start time held by the callbacks that the last GetNext left on the proxy of each URL.
    var startTimes: map<string, int>

    ghost predicate Valid()
      reads this
    {
      && |servers| > 0
      && serversLatency.Keys == Urls(servers)
      && startTimes.Keys <= serversLatency.Keys
      && forall u | u in serversLatency :: IsInt64(serversLatency[u])
    }

    constructor (servers: seq<Server>)
      requires |servers| > 0
      ensures Valid() && this.servers == servers && startTimes == map[]
      ensures serversLatency == Table(Urls(servers), [])
    {
      var latency := map[];
      for i := 0 to |servers|
        invariant latency.Keys == set k | 0 <= k < i :: servers[k].url
        invariant forall u | u in latency :: latency[u] == 0
      {
        latency := latency[servers[i].url := 0];
      }
      this.servers := servers;
      serversLatency := latency;
      startTimes := map[];
    }

    // The key of least latency, whatever order the map is walked in.
    method BestUrl() returns (bestServerURL: string)
      requires Valid()
      ensures Minimal(serversLatency, bestServerURL)
    {
      bestServerURL := servers[0].url;
      var bestLatency := MAX_INT64;
      var todo := serversLatency.Keys;
      while todo != {}
        invariant todo <= serversLatency.Keys
        invariant bestServerURL in serversLatency
        invariant serversLatency[bestServerURL] <= bestLatency <= MAX_INT64
        invariant forall u | u in serversLatency.Keys - todo :: bestLatency <= serversLatency[u]
      {
        var url :| url in todo;
        if serversLatency[url] < bestLatency {
          bestServerURL := url;
          bestLatency := serversLatency[url];
        }
        todo := todo - {url};
      }
    }

    method GetNext(now: int) returns (index: nat)
      requires Valid()
      modifies `startTimes
      ensures Valid()
      ensures index < |servers| && Minimal(serversLatency, servers[index].url)
      ensures forall k | 0 <= k < index :: servers[k].url != servers[index].url
      ensures startTimes == old(startTimes)[servers[index].url := now]
    {
      var bestServerURL := BestUrl();
      index := 0;
      while servers[index].url != bestServerURL
        invariant index < |servers|
        invariant forall k | 0 <= k < index :: servers[k].url != bestServerURL
        decreases |servers| - index
      {
        assert exists k | 0 <= k < |servers| :: servers[k].url == bestServerURL;
        index := index + 1;
      }
      startTimes := startTimes[bestServerURL := now];
    }

    // ModifyResponse and ErrorHandler of a proxy that GetNext has returned.
    method Complete(url: string, now: int)
      requires Valid() && url in startTimes
      modifies `serversLatency
      ensures Valid()
      ensures serversLatency == old(serversLatency)[url := Wrap64(now - startTimes[url])]
    {
      serversLatency := serversLatency[url := Wrap64(now - startTimes[url])];
    }

    // One request that is over before the next one starts. run lists the earlier ones.
    method ServeAlone(start: int, end: int, ghost run: seq<Served>) returns (index: nat)
      requires Valid() && start < end && IsInt64(end - start)
      requires Serial(Urls(servers), run) && serversLatency == Table(Urls(servers), run)
      modifies `serversLatency, `startTimes
      ensures Valid() && index < |servers|
      ensures var more := run + [Served(servers[index].url, end - start)];
              Serial(Urls(servers), more) && serversLatency == Table(Urls(servers), more)
    {
      index := GetNext(start);
      SerialStep(Urls(servers), run, Served(servers[index].url, end - start));
      Complete(servers[index].url, end);
    }
  }

  // ---------- requests that complete one at a time ----------

  datatype Served = Served(url: string, latency: int)

  // The latency table after the requests of run.
  ghost function Table(urls: set<string>, run: seq<Served>): (table: map<string, int>)
    ensures urls <= table.Keys
  {
    if run == [] then map u | u in urls :: 0
    else Table(urls, run[..|run| - 1])[run[|run| - 1].url := run[|run| - 1].latency]
  }

  // Every request went to a server of least latency at the time, and took some time.
  ghost predicate Serial(urls: set<string>, run: seq<Served>) {
    run == [] ||
    (&& Serial(urls, run[..|run| - 1])
     && Minimal(Table(urls, run[..|run| - 1]), run[|run| - 1].url)
     && run[|run| - 1].latency > 0)
  }

  lemma SerialStep(urls: set<string>, run: seq<Served>, next: Served)
    requires Serial(urls, run) && Minimal(Table(urls, run), next.url) && next.latency > 0
    ensures Serial(urls, run + [next])
    ensures Table(urls, run + [next]) == Table(urls, run)[next.url := next.latency]
  {
    assert (run + [next])[..|run|] == run;
  }

  ghost function Visited(run: seq<Served>): set<string> {
    if run == [] then {} else Visited(run[..|run| - 1]) + {run[|run| - 1].url}
  }

  lemma {:induction false} TableShape(urls: set<string>, run: seq<Served>)
    requires Serial(urls, run)
    ensures Table(urls, run).Keys == urls && Visited(run) <= urls
    ensures forall u | u in urls ::
              Table(urls, run)[u] >= 0 && (Table(urls, run)[u] > 0 <==> u in Visited(run))
  {
    if run != [] { TableShape(urls, run[..|run| - 1]); }
  }

  lemma {:induction false} VisitedAt(run: seq<Served>, k: nat)
    requires k < |run|
    ensures run[k].url in Visited(run)
  {
    if k < |run| - 1 { VisitedAt(run[..|run| - 1], k); }
  }

  // With m distinct URLs and positive latencies, the first m requests visit m distinct URLs.
  lemma {:induction false} EveryServerTried(urls: set<string>, run: seq<Served>)
    requires Serial(urls, run) && |run| <= |urls|
    ensures |Visited(run)| == |run| && Visited(run) <= urls
    ensures forall j, k | 0 <= j < k < |run| :: run[j].url != run[k].url
    ensures |run| == |urls| ==> Visited(run) == urls
  {
    if run != [] {
      var n := |run| - 1;
      var front := run[..n];
      EveryServerTried(urls, front);
      TableShape(urls, front);
      SubsetSize(Visited(front), urls);
      assert run[n].url !in Visited(front);
      forall j | 0 <= j < n ensures run[j].url != run[n].url {
        VisitedAt(front, j);
      }
    }
    TableShape(urls, run);
    SubsetSize(Visited(run), urls);
  }

  lemma {:induction false} SubsetSize(a: set<string>, b: set<string>)
    requires a <= b
    ensures |a| <= |b|
    ensures |a| < |b| ==> exists u | u in b :: u !in a
    ensures |a| == |b| ==> a == b
    decreases |a|
  {
    if a != {} {
      var x :| x in a;
      SubsetSize(a - {x}, b - {x});
      if |a| < |b| {
        var u :| u in b - {x} && u !in a - {x};
      } else {
        assert a == a - {x} + {x} && b == b - {x} + {x};
      }
    } else if b != {} {
      var u :| u in b;
    }
  }

  // Latencies do not decay: a server whose record is worse than bound gets no further request
  // while the others, one of which is within bound, keep answering within bound.
  lemma {:induction false} SlowServerForgotten(urls: set<string>, run: seq<Served>, n: nat,
                                               slow: string, fast: string, bound: int)
    requires Serial(urls, run) && n <= |run|
    requires slow in urls && Table(urls, run[..n])[slow] > bound
    requires fast in urls && Table(urls, run[..n])[fast] <= bound
    requires forall k | n <= k < |run| :: run[k].latency <= bound
    ensures forall k | n <= k < |run| :: run[k].url != slow
    ensures Table(urls, run)[slow] > bound && Table(urls, run)[fast] <= bound
  {
    if n == |run| {
      assert run[..n] == run;
    } else {
      var front := run[..|run| - 1];
      assert front[..n] == run[..n];
      SlowServerForgotten(urls, front, n, slow, fast, bound);
    }
  }
}
