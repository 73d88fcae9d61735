/** The dependency graph of a resolved package set, and the reach of one package in it. */
module Dependencies {
  import opened Options
  import opened Walks
  import opened Digraph
  import opened Sums
  import opened Finite

  /** A declared requirement with the package name it parses to, if any. */
  datatype Requirement = Requirement(text: string, names: Option<string>, optional: bool)

  datatype Package = Package(name: string, requirements: seq<Requirement>)

  datatype DependencyEdge = DependencyEdge(requirement: string, optional: bool)

  datatype DependencyGraph = DependencyGraph(graph: Graph<DependencyEdge>, byName: map<string, nat>)

  ghost predicate DistinctNames(packages: seq<Package>) {
    forall i, j :: 0 <= i < j < |packages| ==> packages[i].name != packages[j].name
  }

  /** `requirements[k]` is the first to name `name`. */
  ghost predicate FirstNaming(requirements: seq<Requirement>, name: string, k: nat) {
    && k < |requirements| && requirements[k].names == Some(name)
    && forall j :: 0 <= j < k ==> requirements[j].names != Some(name)
  }

  /** The edge comes from the first requirement of its source that names its target. */
  ghost predicate Justified(packages: seq<Package>, e: Edge<DependencyEdge>) {
    && e.from < |packages| && e.to < |packages| && e.from != e.to
    && exists k: nat :: FirstNaming(packages[e.from].requirements, packages[e.to].name, k)
         && e.weight == DependencyEdge(packages[e.from].requirements[k].text, packages[e.from].requirements[k].optional)
  }

  ghost predicate Declares(packages: seq<Package>, i: nat, j: nat) {
    && i < |packages| && j < |packages| && i != j
    && exists k :: 0 <= k < |packages[i].requirements| && packages[i].requirements[k].names == Some(packages[j].name)
  }

  ghost predicate Indexes(packages: seq<Package>, byName: map<string, nat>) {
    && (forall i: nat :: i < |packages| ==> packages[i].name in byName && byName[packages[i].name] == i)
    && (forall name :: name in byName ==> byName[name] < |packages| && packages[byName[name]].name == name)
  }

  /** `g` is the simple graph of declared requirements among `packages`. */
  ghost predicate IsGraphOf(packages: seq<Package>, g: DependencyGraph) {
    && g.graph.nodes == |packages| && Indexes(packages, g.byName)
    && g.graph.Valid() && g.graph.NoLoop() && g.graph.NoParallel()
    && (forall e :: 0 <= e < |g.graph.edges| ==> Justified(packages, g.graph.edges[e]))
    && (forall i: nat, j: nat :: (i, j) in g.graph.Relation() <==> Declares(packages, i, j))
  }

  predicate HasEdge<W>(edges: seq<Edge<W>>, from: nat, to: nat) {
    exists e :: 0 <= e < |edges| && edges[e].from == from && edges[e].to == to
  }

  /** Everything declared by packages below `i`, and by the first `k` requirements of `i`, is in. */
  ghost predicate Covered(packages: seq<Package>, edges: seq<Edge<DependencyEdge>>, i: nat, k: nat) {
    forall a: nat, b: nat, c: nat {:trigger packages[a].requirements[c], packages[b]} ::
      a < |packages| && b < |packages| && a != b && c < |packages[a].requirements|
      && packages[a].requirements[c].names == Some(packages[b].name) && (a < i || (a == i && c < k))
      ==> HasEdge(edges, a, b)
  }

  /** The edges built so far: justified, simple, and none from a later package. */
  ghost predicate Sound(packages: seq<Package>, edges: seq<Edge<DependencyEdge>>, i: nat) {
    && (forall e :: 0 <= e < |edges| ==> Justified(packages, edges[e]) && edges[e].from <= i)
    && (forall e, f :: 0 <= e < f < |edges| ==> edges[e].from != edges[f].from || edges[e].to != edges[f].to)
  }

  /** Adding the edge of requirement `k` of package `i`, which no earlier requirement added. */
  lemma AddedEdge(packages: seq<Package>, edges: seq<Edge<DependencyEdge>>, i: nat, k: nat, to: nat)
    requires i < |packages| && k < |packages[i].requirements| && to < |packages| && to != i
    requires packages[i].requirements[k].names == Some(packages[to].name)
    requires Sound(packages, edges, i) && Covered(packages, edges, i, k) && !HasEdge(edges, i, to)
    ensures var r := packages[i].requirements[k];
            Sound(packages, edges + [Edge(i, to, DependencyEdge(r.text, r.optional))], i)
  {
    var reqs := packages[i].requirements;
    forall j | 0 <= j < k ensures reqs[j].names != Some(packages[to].name) {
      assert packages[i].requirements[j].names == Some(packages[to].name) ==> HasEdge(edges, i, to);
    }
    assert FirstNaming(reqs, packages[to].name, k);
  }

  method FromRequirements(packages: seq<Package>) returns (g: DependencyGraph)
    requires DistinctNames(packages)
    ensures IsGraphOf(packages, g)
  {
    var byName: map<string, nat> := map[];
    for i := 0 to |packages|
      invariant forall j: nat :: j < i ==> packages[j].name in byName && byName[packages[j].name] == j
      invariant forall name :: name in byName ==> byName[name] < i && packages[byName[name]].name == name
    {
      byName := byName[packages[i].name := i];
    }
    var edges: seq<Edge<DependencyEdge>> := [];
    for i := 0 to |packages|
      invariant Sound(packages, edges, i) && Covered(packages, edges, i, 0)
    {
      var requirements := packages[i].requirements;
      for k := 0 to |requirements|
        invariant Sound(packages, edges, i) && Covered(packages, edges, i, k)
      {
        hide Sound;
        var r := requirements[k];
        ghost var before := edges;
        if r.names.Some? && r.names.value in byName {
          var to := byName[r.names.value];
          if to != i && !HasEdge(edges, i, to) {
            AddedEdge(packages, edges, i, k, to);
            edges := edges + [Edge(i, to, DependencyEdge(r.text, r.optional))];
            assert edges[|before|].to == to;
          }
        }
        CoveredMore(packages, before, edges, i, k);
      }
      assert forall e :: 0 <= e < |edges| ==> edges[e].from <= i + 1;
    }
    g := DependencyGraph(Graph(|packages|, edges), byName);
    DeclaredIsEdge(packages, g);
  }

  lemma CoveredMore(packages: seq<Package>, before: seq<Edge<DependencyEdge>>, edges: seq<Edge<DependencyEdge>>, i: nat, k: nat)
    requires i < |packages| && k < |packages[i].requirements| && DistinctNames(packages)
    requires Covered(packages, before, i, k) && |before| <= |edges| && edges[..|before|] == before
    requires forall b: nat :: b < |packages| && b != i && packages[i].requirements[k].names == Some(packages[b].name) ==> HasEdge(edges, i, b)
    ensures Covered(packages, edges, i, k + 1)
  {
    forall a: nat, b: nat | HasEdge(before, a, b) ensures HasEdge(edges, a, b) {
      var e :| 0 <= e < |before| && before[e].from == a && before[e].to == b;
      assert edges[e] == before[e];
    }
  }

  lemma DeclaredIsEdge(packages: seq<Package>, g: DependencyGraph)
    requires g.graph.nodes == |packages| && Sound(packages, g.graph.edges, |packages|)
    requires Covered(packages, g.graph.edges, |packages|, 0)
    ensures forall i: nat, j: nat :: (i, j) in g.graph.Relation() <==> Declares(packages, i, j)
  {
    var edges := g.graph.edges;
    forall i: nat, j: nat ensures (i, j) in g.graph.Relation() <==> Declares(packages, i, j) {
      if (i, j) in g.graph.Relation() {
        var e :| 0 <= e < |edges| && (edges[e].from, edges[e].to) == (i, j);
        assert Justified(packages, edges[e]);
        var k: nat :| FirstNaming(packages[i].requirements, packages[j].name, k);
      }
      if Declares(packages, i, j) {
        var k :| 0 <= k < |packages[i].requirements| && packages[i].requirements[k].names == Some(packages[j].name);
        assert HasEdge(edges, i, j);
      }
    }
  }

  // ---- who depends on a package ----

  /** The nodes other than `v` from which `v` can be reached. */
  ghost function Dependents(R: set<(nat, nat)>, n: nat, v: nat): set<nat> {
    set u: nat | u in UpTo(n) && u != v && Reach(R, u, v)
  }

  ghost predicate Marks(S: set<nat>, seen: seq<bool>) {
    forall x: nat :: x in S <==> x < |seen| && seen[x]
  }

  /** The marked nodes all reach `start`, contain the queue, and are closed except at `open`. */
  ghost predicate Searching(R: set<(nat, nat)>, n: nat, start: nat, S: set<nat>, queue: seq<nat>, open: set<nat>) {
    && start in S
    && (forall x: nat :: x in S ==> x < n && Reach(R, x, start))
    && (forall x: nat :: x in queue ==> x in S)
    && (forall e :: e in R && e.1 in S && e.1 !in queue && e.1 !in open ==> e.0 in S)
  }

  /** Marks and queues every unmarked node with an edge to `v`. */
  method MarkSources<W>(g: Graph<W>, ghost start: nat, v: nat, seen0: seq<bool>, queue0: seq<nat>, count0: nat,
                        ghost S0: set<nat>)
    returns (seen: seq<bool>, queue: seq<nat>, count: nat, ghost S: set<nat>)
    requires g.Valid() && |seen0| == g.nodes && Marks(S0, seen0) && v in S0
    requires Searching(g.Relation(), g.nodes, start, S0, queue0, {v})
    ensures |seen| == g.nodes && Marks(S, seen)
    ensures Searching(g.Relation(), g.nodes, start, S, queue, {})
    ensures S0 <= S && count + |S0| == count0 + |S| && |queue| + |S0| == |queue0| + |S|
  {
    ghost var R := g.Relation();
    seen, queue, count, S := seen0, queue0, count0, S0;
    var incoming := InEdges(g.edges, v);
    for i := 0 to |incoming|
      invariant |seen| == g.nodes && Marks(S, seen)
      invariant S0 <= S && count + |S0| == count0 + |S| && |queue| + |S0| == |queue0| + |S|
      invariant Searching(R, g.nodes, start, S, queue, {v})
      invariant forall k :: 0 <= k < i ==> g.edges[incoming[k]].from in S
    {
      hide InEdges, Graph.Relation, Searching;
      var d := g.edges[incoming[i]].from;
      if !seen[d] {
        EdgeInRelation(g, incoming[i]);
        QueueMore(R, g.nodes, start, S, queue, v, d);
        seen := seen[d := true];
        count := count + 1;
        queue := queue + [d];
        S := S + {d};
      }
    }
    SourcesMarked(g, v, S);
  }

  lemma SourcesMarked<W>(g: Graph<W>, v: nat, S: set<nat>)
    requires forall k :: 0 <= k < |InEdges(g.edges, v)| ==> g.edges[InEdges(g.edges, v)[k]].from in S
    ensures forall e :: e in g.Relation() && e.1 == v ==> e.0 in S
  {
    forall e | e in g.Relation() && e.1 == v ensures e.0 in S {
      var k :| 0 <= k < |g.edges| && e == (g.edges[k].from, g.edges[k].to);
      assert k in InEdges(g.edges, v);
    }
  }

  lemma QueueMore(R: set<(nat, nat)>, n: nat, start: nat, S: set<nat>, queue: seq<nat>, v: nat, d: nat)
    requires Searching(R, n, start, S, queue, {v}) && d < n && (d, v) in R && v in S
    ensures Searching(R, n, start, S + {d}, queue + [d], {v})
  {
    BackStep(R, d, v, start);
    assert (queue + [d])[|queue|] == d;
    assert forall x: nat :: x in queue ==> x in queue + [d];
  }

  lemma Dequeued(R: set<(nat, nat)>, n: nat, start: nat, S: set<nat>, queue: seq<nat>)
    requires Searching(R, n, start, S, queue, {}) && queue != []
    ensures Searching(R, n, start, S, queue[1..], {queue[0]}) && queue[0] in S
  {
    assert queue == [queue[0]] + queue[1..];
  }

  lemma SearchDone(R: set<(nat, nat)>, n: nat, start: nat, S: set<nat>)
    requires Searching(R, n, start, S, [], {})
    ensures |Dependents(R, n, start)| == |S| - 1
  {
    forall u: nat | Reach(R, u, start) ensures u in S {
      ReachStaysBackClosed(R, S, u, start);
    }
    assert S - {start} == Dependents(R, n, start);
  }

  lemma UnmarkedBound(n: nat, S: set<nat>)
    requires forall x: nat :: x in S ==> x < n
    ensures |UpTo(n)| >= |S|
  {
    assert UpTo(n) == S + (UpTo(n) - S);
  }

  /** Reverse reachability: how many packages transitively depend on `name`. */
  method TransitiveDependents(g: DependencyGraph, name: string) returns (r: Option<nat>)
    requires g.graph.Valid() && forall x :: x in g.byName ==> g.byName[x] < g.graph.nodes
    ensures r.None? <==> name !in g.byName
    ensures r.Some? ==> r.value == |Dependents(g.graph.Relation(), g.graph.nodes, g.byName[name])|
  {
    if name !in g.byName {
      return None;
    }
    var n, start := g.graph.nodes, g.byName[name];
    ghost var R := g.graph.Relation();
    var seen := seq(n, _ => false);
    seen := seen[start := true];
    var queue := [start];
    var count := 0;
    ghost var S: set<nat> := {start};
    ReachSelf(R, start);
    while queue != []
      invariant |seen| == n && Marks(S, seen) && count + 1 == |S|
      invariant Searching(R, n, start, S, queue, {})
      decreases |UpTo(n)| - |S| + |queue|
    {
      hide Searching, Graph.Relation, Graph.Valid;
      var v := queue[0];
      Dequeued(R, n, start, S, queue);
      queue := queue[1..];
      ghost var S0 := S;
      seen, queue, count, S := MarkSources(g.graph, start, v, seen, queue, count, S);
      UnmarkedBound(n, S);
    }
    SearchDone(R, n, start, S);
    return Some(count);
  }

  lemma BackStep(R: set<(nat, nat)>, a: nat, b: nat, c: nat)
    requires (a, b) in R && Reach(R, b, c)
    ensures Reach(R, a, c)
  {
    ReachEdge(R, a, b);
    ReachTrans(R, a, b, c);
  }

  // ---- the blast radius ----

  datatype BlastRadius = BlastRadius(package: string, transitive: nat, share: real, direct: nat, betweenness: Option<real>)

  ghost function DirectDependents(R: set<(nat, nat)>, n: nat, v: nat): set<nat> {
    set u: nat | u in UpTo(n) && (u, v) in R
  }

  /** Without parallel edges the incoming edges number the direct dependents. */
  lemma InDegree<W>(g: Graph<W>, v: nat)
    requires g.Valid() && g.NoParallel()
    ensures |InEdges(g.edges, v)| == |DirectDependents(g.Relation(), g.nodes, v)|
  {
    var incoming := InEdges(g.edges, v);
    var sources := seq(|incoming|, k requires 0 <= k < |incoming| => g.edges[incoming[k]].from);
    var D := DirectDependents(g.Relation(), g.nodes, v);
    hide InEdges;
    assert NoDup(sources);
    forall x: nat ensures x in D <==> x in sources {
      if x in D {
        var j := EdgeInto(g, x, v);
        assert sources[j] == x;
      }
      if x in sources {
        var j :| 0 <= j < |sources| && sources[j] == x;
        EdgeInRelation(g, incoming[j]);
      }
    }
    DistinctCard(sources, D);
  }

  /** A direct dependent's edge is among those coming in. */
  lemma EdgeInto<W>(g: Graph<W>, x: nat, v: nat) returns (j: nat)
    requires g.Valid() && (x, v) in g.Relation()
    ensures j < |InEdges(g.edges, v)| && g.edges[InEdges(g.edges, v)[j]].from == x
  {
    var k :| 0 <= k < |g.edges| && (x, v) == (g.edges[k].from, g.edges[k].to);
    assert k in InEdges(g.edges, v);
    j :| 0 <= j < |InEdges(g.edges, v)| && InEdges(g.edges, v)[j] == k;
  }

  lemma DependentsBounds(g: DependencyGraph, v: nat)
    requires g.graph.Valid() && g.graph.NoLoop() && v < g.graph.nodes
    ensures |DirectDependents(g.graph.Relation(), g.graph.nodes, v)| <= |Dependents(g.graph.Relation(), g.graph.nodes, v)|
    ensures |Dependents(g.graph.Relation(), g.graph.nodes, v)| <= g.graph.nodes - 1
  {
    var R, n := g.graph.Relation(), g.graph.nodes;
    forall u: nat | u in DirectDependents(R, n, v) ensures u in Dependents(R, n, v) {
      ReachEdge(R, u, v);
    }
    SubsetSize(DirectDependents(R, n, v), Dependents(R, n, v));
    UpToSize(n);
    SubsetSize(Dependents(R, n, v), UpTo(n) - {v});
  }

  ghost predicate IsShare(x: real, count: nat, others: int) {
    x * others as real == count as real && 0.0 <= x <= 1.0
  }

  /** A count over the number of other packages, zero when there are none. */
  function ShareOf(count: nat, others: nat): (r: real)
    requires count <= others
    ensures IsShare(r, count, others)
  {
    if others == 0 then 0.0
    else
      Ratio(count, others);
      count as real / others as real
  }

  lemma Ratio(a: nat, b: nat)
    requires a <= b && b > 0
    ensures a as real / b as real * b as real == a as real && 0.0 <= a as real / b as real <= 1.0
  {
    var x, y := a as real, b as real;
    assert x / y * y == x;
    assert x / y <= 1.0 by {
      assert (1.0 - x / y) * y == y - x;
    }
  }

  /** What the blast radius of node `v` says about the graph. */
  ghost predicate Describes(R: set<(nat, nat)>, n: nat, v: nat, betweenness: Option<seq<real>>, b: BlastRadius) {
    && b.transitive == |Dependents(R, n, v)| && b.direct == |DirectDependents(R, n, v)|
    && b.direct <= b.transitive
    && IsShare(b.share, b.transitive, n - 1)
    && b.betweenness == At(betweenness, v)
  }

  /** How much of the graph depends on `name`, with its betweenness when given. */
  method BlastRadiusOf(g: DependencyGraph, name: string, betweenness: Option<seq<real>>) returns (r: Option<BlastRadius>)
    requires g.graph.Valid() && g.graph.NoLoop() && g.graph.NoParallel()
    requires forall x :: x in g.byName ==> g.byName[x] < g.graph.nodes
    ensures r.None? <==> name !in g.byName
    ensures r.Some? ==> r.value.package == name
    ensures r.Some? ==> Describes(g.graph.Relation(), g.graph.nodes, g.byName[name], betweenness, r.value)
  {
    hide *;
    var transitive := TransitiveDependents(g, name);
    if transitive.None? {
      return None;
    }
    var v := g.byName[name];
    DependentsBounds(g, v);
    InDegree(g.graph, v);
    var share := ShareOf(transitive.value, g.graph.nodes - 1);
    var b := BlastRadius(name, transitive.value, share, |InEdges(g.graph.edges, v)|, At(betweenness, v));
    assert Describes(g.graph.Relation(), g.graph.nodes, v, betweenness, b) by {
      Assembled(g.graph.Relation(), g.graph.nodes, v, betweenness, b);
    }
    r := Some(b);
  }

  function At(betweenness: Option<seq<real>>, v: nat): Option<real> {
    if betweenness.Some? && v < |betweenness.value| then Some(betweenness.value[v]) else None
  }

  lemma Assembled(R: set<(nat, nat)>, n: nat, v: nat, betweenness: Option<seq<real>>, b: BlastRadius)
    requires b.transitive == |Dependents(R, n, v)| && b.direct == |DirectDependents(R, n, v)|
    requires b.direct <= b.transitive && IsShare(b.share, b.transitive, n - 1) && b.betweenness == At(betweenness, v)
    ensures Describes(R, n, v, betweenness, b)
  {
    hide IsShare, Dependents, DirectDependents, At;
  }
}
