/** pkg/pathgraph: a weighted digraph of the jumps between request paths. */
module PathGraphs {
  import opened GoStrings
  import opened Sums

  // One normalised transition. The graph is the multiset of the transitions added so far.
  datatype Jump = Jump(src: string, dst: string)

  function NormalizePath(path: string): string {
    ToLower(if path == [] || path[0] != '/' then "/" + path else path)
  }

  lemma RootPath()
    ensures NormalizePath("") == "/"
  {
    assert ToLower("/") == "/";
  }

  lemma NormalizeIdempotent(path: string)
    ensures NormalizePath(NormalizePath(path)) == NormalizePath(path)
  {
    ToLowerIdempotent(if path == [] || path[0] != '/' then "/" + path else path);
  }

  // Which spellings share an entry: equal up to letter case and one missing leading slash.
  lemma NormalizeVariants(path: string, other: string)
    ensures NormalizePath(ToLower(path)) == NormalizePath(path)
    ensures path == [] || path[0] != '/' ==> NormalizePath("/" + path) == NormalizePath(path)
    ensures path != [] && path[0] == '/' && other != [] && other[0] == '/' ==>
              (NormalizePath(path) == NormalizePath(other) <==> ToLower(path) == ToLower(other))
  {
    ToLowerIdempotent(path);
    if path == [] || path[0] != '/' {
      var low := ToLower(path);
      assert low == [] || low[0] != '/';
      assert ToLower("/" + low) == ToLower("/" + path) by {
        assert forall i | 0 <= i < |path| :: LowerChar(LowerChar(path[i])) == LowerChar(path[i]);
      }
    }
  }

  function JumpBetween(source: string, dest: string): Jump {
    Jump(NormalizePath(source), NormalizePath(dest))
  }

  ghost function EdgeTerm(jumps: multiset<Jump>, g: nat -> int): Jump -> int {
    e => g(jumps[e])
  }

  // The sum of g(weight) over the edges of the graph that satisfy p. The weight of an edge is its
  // multiplicity, that is, how often the transition has been added.
  ghost function EdgeSum(jumps: multiset<Jump>, p: Jump -> bool, g: nat -> int): int {
    SumOver((set e | e in jumps && p(e)), EdgeTerm(jumps, g))
  }

  // Adding one jump changes an edge sum by the growth of that jump's own term.
  lemma EdgeSumStep(jumps: multiset<Jump>, j: Jump, p: Jump -> bool, g: nat -> int)
    requires g(0) == 0
    ensures EdgeSum(jumps + multiset{j}, p, g) == EdgeSum(jumps, p, g)
              + if p(j) then g(jumps[j] + 1) - g(jumps[j]) else 0
  {
    var before := set e | e in jumps && p(e);
    var after := set e | e in jumps + multiset{j} && p(e);
    var f, f' := EdgeTerm(jumps, g), EdgeTerm(jumps + multiset{j}, g);
    assert forall e :: e != j ==> f(e) == f'(e);
    if p(j) {
      assert after == before + {j};
      SumChange(before, f, f', j);
    } else {
      assert after == before;
      SumSame(before, f, f');
    }
  }

  class PathVertex {
    ghost const source: string // the edge this vertex ends
    const path: string
    var weight: int

    constructor (ghost source: string, path: string)
      ensures this.source == source && this.path == path && weight == 0
    {
      this.source := source;
      this.path := path;
      weight := 0;
    }
  }

  // Source path to destination path to vertex.
  type Adjacency = map<string, map<string, PathVertex>>

  predicate HasEdge(adj: Adjacency, s: string, d: string) {
    s in adj && d in adj[s]
  }

  // The edges are exactly the pairs in jumps, every vertex ends one edge, no source is left bare.
  ghost predicate Shape(adj: Adjacency, owned: set<object>, jumps: multiset<Jump>) {
    && (forall s, d | HasEdge(adj, s, d) ::
          adj[s][d] in owned && adj[s][d].source == s && adj[s][d].path == d)
    && (forall s, d :: HasEdge(adj, s, d) <==> Jump(s, d) in jumps)
    && (forall s | s in adj :: adj[s] != map[])
  }

  // The get-or-create part of AddJump.
  function PutVertex(adj: Adjacency, s: string, d: string, v: PathVertex): (adj': Adjacency)
    ensures HasEdge(adj', s, d) && adj'[s][d] == v
    ensures forall s', d' | (s', d') != (s, d) :: HasEdge(adj', s', d') <==> HasEdge(adj, s', d')
    ensures forall s', d' | (s', d') != (s, d) && HasEdge(adj, s', d') ::
              HasEdge(adj', s', d') && adj'[s'][d'] == adj[s'][d']
    ensures forall s' | s' in adj' && s' !in adj :: s' == s
    ensures forall s' | s' in adj' && s' in adj :: s' == s || adj'[s'] == adj[s']
  {
    var vertices: map<string, PathVertex> := if s in adj then adj[s] else map[];
    adj[s := vertices[d := v]]
  }

  lemma ShapeStep(adj: Adjacency, owned: set<object>, jumps: multiset<Jump>,
                  s: string, d: string, v: PathVertex)
    requires Shape(adj, owned, jumps)
    requires v.source == s && v.path == d && v in owned
    ensures Shape(PutVertex(adj, s, d, v), owned, jumps + multiset{Jump(s, d)})
  {
    var adj' := PutVertex(adj, s, d, v);
    forall s', d' ensures HasEdge(adj', s', d') <==> Jump(s', d') in jumps + multiset{Jump(s, d)} {
      if (s', d') != (s, d) { assert Jump(s', d') != Jump(s, d); }
    }
    forall s' | s' in adj' ensures adj'[s'] != map[] {
      if s' == s { assert d in adj'[s']; }
    }
  }

  class PathGraph {
    var adjacencyList: Adjacency

    // Every jump added so far.
    ghost var jumps: multiset<Jump>
    ghost var Repr: set<object>

    ghost predicate Valid()
      reads this, Repr
    {
      && this in Repr
      && Shape(adjacencyList, Repr, jumps)
      && forall s, d | HasEdge(adjacencyList, s, d) ::
           adjacencyList[s][d].weight == jumps[Jump(s, d)]
    }

    constructor ()
      ensures Valid() && fresh(Repr) && jumps == multiset{}
    {
      adjacencyList := map[];
      jumps := multiset{};
      Repr := {this};
    }

    // The vertex of an edge, or a new one of weight 0 that is not yet in the table.
    method GetOrCreate(source: string, dest: string) returns (vertex: PathVertex)
      requires Valid()
      modifies `Repr
      ensures Valid() && fresh(Repr - old(Repr)) && vertex in Repr
      ensures vertex.source == source && vertex.path == dest
      ensures vertex.weight == jumps[Jump(source, dest)]
    {
      assert HasEdge(adjacencyList, source, dest) <==> Jump(source, dest) in jumps;
      if source in adjacencyList && dest in adjacencyList[source] {
        vertex := adjacencyList[source][dest];
      } else {
        vertex := new PathVertex(source, dest);
        Repr := Repr + {vertex};
      }
    }

    method AddJump(sourcePath: string, destPath: string) returns (before: int)
      requires Valid()
      modifies Repr
      ensures Valid() && fresh(Repr - old(Repr))
      ensures jumps == old(jumps) + multiset{JumpBetween(sourcePath, destPath)}
      ensures before == old(jumps)[JumpBetween(sourcePath, destPath)]
    {
      var source := NormalizePath(sourcePath);
      var dest := NormalizePath(destPath);
      var vertex := GetOrCreate(source, dest);
      ghost var j := Jump(source, dest);
      ShapeStep(adjacencyList, Repr, jumps, source, dest, vertex);
      adjacencyList := PutVertex(adjacencyList, source, dest, vertex);
      vertex.weight := vertex.weight + 1;
      before := vertex.weight - 1;
      jumps := jumps + multiset{j};
      forall s, d | HasEdge(adjacencyList, s, d) && (s, d) != (source, dest)
        ensures adjacencyList[s][d].weight == jumps[Jump(s, d)]
      {
        assert Jump(s, d) != j && adjacencyList[s][d] != vertex;
      }
    }

    method GetDestinations(sourcePath: string) returns (result: map<string, int>)
      requires Valid()
      ensures forall d :: d in result <==> Jump(NormalizePath(sourcePath), d) in jumps
      ensures forall d | d in result :: result[d] == jumps[Jump(NormalizePath(sourcePath), d)]
    {
      var source := NormalizePath(sourcePath);
      result := map[];
      if source in adjacencyList {
        var vertices := adjacencyList[source];
        var todo := vertices.Keys;
        while todo != {}
          invariant todo <= vertices.Keys
          invariant result.Keys == vertices.Keys - todo
          invariant forall d | d in result :: result[d] == jumps[Jump(source, d)]
        {
          var path :| path in todo;
          assert HasEdge(adjacencyList, source, path);
          result := result[path := vertices[path].weight];
          todo := todo - {path};
        }
      }
    }

    // The order of the paths is that of Go's map iteration, which is left open.
    method GetAllPaths() returns (paths: seq<string>)
      requires Valid()
      ensures forall i, k | 0 <= i < k < |paths| :: paths[i] != paths[k]
      ensures forall v :: v in paths <==> Touched(jumps, v, {})
    {
      var pathSet := {};
      var sources := adjacencyList.Keys;
      forall v ensures !Touched(jumps, v, sources) {
        TouchedOutside(adjacencyList, Repr, jumps, v);
      }
      while sources != {}
        invariant sources <= adjacencyList.Keys
        invariant forall v :: v in pathSet <==> Touched(jumps, v, sources)
      {
        var source :| source in sources;
        forall v { TouchedStep(adjacencyList, Repr, jumps, sources, source, v); }
        pathSet := pathSet + {source} + adjacencyList[source].Keys;
        sources := sources - {source};
      }
      paths := Elements(pathSet);
    }
  }

  // v is an end of some jump whose source is not in except.
  ghost predicate Touched(jumps: multiset<Jump>, v: string, except: set<string>) {
    exists j | j in jumps :: j.src !in except && (v == j.src || v == j.dst)
  }

  lemma TouchedOutside(adj: Adjacency, owned: set<object>, jumps: multiset<Jump>, v: string)
    requires Shape(adj, owned, jumps)
    ensures !Touched(jumps, v, adj.Keys)
  {
    forall j | j in jumps ensures j.src in adj {
      assert j == Jump(j.src, j.dst) && HasEdge(adj, j.src, j.dst);
    }
  }

  lemma TouchedStep(adj: Adjacency, owned: set<object>, jumps: multiset<Jump>,
                    sources: set<string>, source: string, v: string)
    requires Shape(adj, owned, jumps)
    requires source in sources && source in adj
    ensures Touched(jumps, v, sources - {source}) <==>
              Touched(jumps, v, sources) || v == source || v in adj[source]
  {
    if v == source || v in adj[source] {
      var d :| d in adj[source] && (v == source || d == v);
      assert HasEdge(adj, source, d);
      assert Jump(source, d) in jumps;
    } else if Touched(jumps, v, sources - {source}) {
      var j :| j in jumps && j.src !in sources - {source} && (v == j.src || v == j.dst);
      assert j == Jump(j.src, j.dst) && HasEdge(adj, j.src, j.dst);
    }
  }

  // A set as a slice without repetitions, in an order left open.
  method Elements(s: set<string>) returns (xs: seq<string>)
    ensures forall i, k | 0 <= i < k < |xs| :: xs[i] != xs[k]
    ensures forall v :: v in xs <==> v in s
  {
    xs := [];
    var todo := s;
    while todo != {}
      invariant todo <= s
      invariant forall v :: v in xs <==> v in s - todo
      invariant forall i, k | 0 <= i < k < |xs| :: xs[i] != xs[k]
    {
      var v :| v in todo;
      assert forall i | 0 <= i < |xs| :: xs[i] in xs;
      xs := xs + [v];
      todo := todo - {v};
    }
  }
}
