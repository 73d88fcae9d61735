/** Data paths: every pair of source and sink within the bound. */
module DataPaths {
  import opened Options
  import opened Walks
  import opened Digraph
  import opened Shortest
  import opened Pruning
  import opened Evidence
  import opened Finite
  import S = Search

  datatype FlowEdgeKind =
    | Assign | Argument | Return | Container | Attribute
    | Transform(callee: string, obfuscating: bool)

  datatype FlowEdge = FlowEdge(kind: FlowEdgeKind, confidence: Confidence)

  datatype FlowNode = FlowNode(location: Location, text: string, owner: nat)

  datatype CallEdge = CallEdge(location: Location, confidence: Confidence)

  /** The data-flow graph, the call graph, and the call-graph node of each owner. */
  datatype PackageGraph = PackageGraph(
    flow: Graph<FlowEdge>, flowNodes: seq<FlowNode>, conditional: set<nat>,
    calls: Graph<CallEdge>, callNames: seq<string>, nodeOf: map<nat, nat>)
  {
    ghost predicate Valid() {
      && flow.Valid() && |flowNodes| == flow.nodes
      && calls.Valid() && |callNames| == calls.nodes
      && forall s :: s in nodeOf ==> nodeOf[s] < calls.nodes
    }
  }

  datatype TaintSourceKind =
    | Environment | SensitiveFile | SystemIdentity | UserInput
    | NetworkResponse | DecodedLiteral | SuspiciousLiteral | PhaseRoot

  datatype TaintSource = TaintSource(kind: TaintSourceKind, pattern: string, location: Location, node: nat)

  datatype TaintSink = TaintSink(pattern: string, location: Location, node: nat, definition: nat)

  datatype Limits = Limits(maxDepth: nat, maxPathsPerPair: nat)

  // ---- what a path shows ----

  /** A step enters the node its edge leads to, and says how the value got there. */
  predicate EntersBy(pg: PackageGraph, e: nat, step: PathStep)
    requires pg.Valid() && e < |pg.flow.edges|
  {
    var edge := pg.flow.edges[e];
    && step.location == pg.flowNodes[edge.to].location && step.symbol == pg.flowNodes[edge.to].text
    && (edge.weight.kind.Assign? || edge.weight.kind.Container? || edge.weight.kind.Attribute? <==> step.kind == PathStepKind.Transfer)
    && (edge.weight.kind.Argument? <==> step.kind == PathStepKind.Call)
    && (edge.weight.kind.Return? <==> step.kind == PathStepKind.Return)
    && (edge.weight.kind.Transform? <==> step.kind == PathStepKind.Transform)
    && step.detail == if edge.weight.kind.Transform? then edge.weight.kind.callee else ""
  }

  predicate Obfuscates(g: Graph<FlowEdge>, e: nat) {
    e < |g.edges| && g.edges[e].weight.kind.Transform? && g.edges[e].weight.kind.obfuscating
  }

  /** `c` is the least confidence along `es`, and full along none. */
  ghost predicate WeakestOf(g: Graph<FlowEdge>, es: seq<nat>, c: Confidence)
    requires S.InBounds(es, |g.edges|)
  {
    && (forall e :: e in es ==> c.Rank() <= g.edges[e].weight.confidence.Rank())
    && (c == Resolved || exists e :: e in es && c == g.edges[e].weight.confidence)
  }

  /** A data path from the source to the sink along `es`: the last edge enters the sink's parameter, so
      its step is the sink. */
  ghost predicate ShowsData(pg: PackageGraph, source: TaintSource, sink: TaintSink, es: seq<nat>, p: ReachabilityPath)
    requires pg.Valid() && source.node < pg.flow.nodes && S.InBounds(es, |pg.flow.edges|)
  {
    && p.kind == Data && WeakestOf(pg.flow, es, p.confidence)
    && (p.obfuscated <==> source.kind == DecodedLiteral || exists e :: e in es && Obfuscates(pg.flow, e))
    && (p.conditional <==> sink.node in pg.conditional)
    && |p.steps| == (if es == [] then 2 else |es| + 1)
    && p.steps[0] == PathStep(PathStepKind.Source, source.location, pg.flowNodes[source.node].text, source.pattern)
    && p.steps[|p.steps| - 1] == PathStep(PathStepKind.Sink, sink.location, sink.pattern, "")
    && forall k :: 0 <= k < |es| - 1 ==> EntersBy(pg, es[k], p.steps[k + 1])
  }

  /** There is one such path. */
  lemma ShownOnce(pg: PackageGraph, source: TaintSource, sink: TaintSink, es: seq<nat>, p: ReachabilityPath, q: ReachabilityPath)
    requires pg.Valid() && source.node < pg.flow.nodes && S.InBounds(es, |pg.flow.edges|)
    requires ShowsData(pg, source, sink, es, p) && ShowsData(pg, source, sink, es, q)
    ensures p == q && p.WellFormed()
  {
    forall k | 0 <= k < |p.steps| ensures p.steps[k] == q.steps[k] {
      if 0 < k < |p.steps| - 1 {
        assert EntersBy(pg, es[k - 1], p.steps[k - 1 + 1]) && EntersBy(pg, es[k - 1], q.steps[k - 1 + 1]);
        SameStep(pg, es[k - 1], p.steps[k], q.steps[k]);
      }
    }
    hide EntersBy, Obfuscates;
    assert p.steps == q.steps;
  }

  lemma SameStep(pg: PackageGraph, e: nat, a: PathStep, b: PathStep)
    requires pg.Valid() && e < |pg.flow.edges| && EntersBy(pg, e, a) && EntersBy(pg, e, b)
    ensures a == b
  {
  }

  // ---- one path ----

  /** The least confidence along `es`, starting from `Resolved`. */
  function FlowConfidence(g: Graph<FlowEdge>, es: seq<nat>): (c: Confidence)
    requires S.InBounds(es, |g.edges|)
    ensures WeakestOf(g, es, c)
  {
    if es == [] then Resolved
    else
      assert es == es[..|es| - 1] + [es[|es| - 1]];
      MinConfidence(FlowConfidence(g, es[..|es| - 1]), g.edges[es[|es| - 1]].weight.confidence)
  }

  predicate CrossesObfuscation(g: Graph<FlowEdge>, es: seq<nat>)
    requires S.InBounds(es, |g.edges|)
  {
    exists e :: e in es && Obfuscates(g, e)
  }

  function StepOf(pg: PackageGraph, e: nat): (step: PathStep)
    requires pg.Valid() && e < |pg.flow.edges|
    ensures EntersBy(pg, e, step)
  {
    var node := pg.flowNodes[pg.flow.edges[e].to];
    var (kind, detail) := match pg.flow.edges[e].weight.kind
      case Argument => (PathStepKind.Call, "")
      case Return => (PathStepKind.Return, "")
      case Transform(callee, _) => (PathStepKind.Transform, callee)
      case _ => (PathStepKind.Transfer, "");
    PathStep(kind, node.location, node.text, detail)
  }

  function StepsOf(pg: PackageGraph, es: seq<nat>): (steps: seq<PathStep>)
    requires pg.Valid() && S.InBounds(es, |pg.flow.edges|)
    ensures |steps| == |es| && forall k :: 0 <= k < |es| ==> steps[k] == StepOf(pg, es[k])
  {
    if es == [] then [] else StepsOf(pg, es[..|es| - 1]) + [StepOf(pg, es[|es| - 1])]
  }

  function SourceStep(pg: PackageGraph, source: TaintSource): PathStep
    requires pg.Valid() && source.node < pg.flow.nodes
  {
    PathStep(PathStepKind.Source, source.location, pg.flowNodes[source.node].text, source.pattern)
  }

  function SinkStep(sink: TaintSink): PathStep {
    PathStep(PathStepKind.Sink, sink.location, sink.pattern, "")
  }

  /** The step that the last edge enters is the sink's; without edges the sink gets a step of its own. */
  function StepsAlong(pg: PackageGraph, source: TaintSource, sink: TaintSink, es: seq<nat>): (steps: seq<PathStep>)
    requires pg.Valid() && source.node < pg.flow.nodes && S.InBounds(es, |pg.flow.edges|)
    ensures |steps| == (if es == [] then 2 else |es| + 1)
    ensures steps[0] == SourceStep(pg, source) && steps[|steps| - 1] == SinkStep(sink)
    ensures forall k :: 0 <= k < |es| - 1 ==> steps[k + 1] == StepOf(pg, es[k])
  {
    var steps := [SourceStep(pg, source)] + StepsOf(pg, es);
    if |steps| > 1 then steps[..|steps| - 1] + [SinkStep(sink)] else steps + [SinkStep(sink)]
  }

  /** The typed path along `es`. */
  function DataPath(pg: PackageGraph, source: TaintSource, sink: TaintSink, es: seq<nat>): (p: ReachabilityPath)
    requires pg.Valid() && source.node < pg.flow.nodes && S.InBounds(es, |pg.flow.edges|)
    ensures p.WellFormed() && ShowsData(pg, source, sink, es, p)
  {
    var steps := StepsAlong(pg, source, sink, es);
    ReachabilityPath(
      Data, steps, FlowConfidence(pg.flow, es), source.kind == DecodedLiteral || CrossesObfuscation(pg.flow, es), sink.node in pg.conditional)
  }

  // ---- every pair ----

  /** A source the data search starts from, given that it is a node of the graph. */
  predicate IsDataSource(pg: PackageGraph, source: TaintSource) {
    source.kind != PhaseRoot && source.node < pg.flow.nodes
  }

  /** The sink is within the depth bound of the source in the whole, unpruned graph. */
  ghost predicate Connected(pg: PackageGraph, source: TaintSource, sink: TaintSink, maxDepth: nat) {
    && source.kind != PhaseRoot && source.node < pg.flow.nodes && sink.node < pg.flow.nodes
    && Within(pg.flow.Relation(), source.node, sink.node, maxDepth)
  }

  /** One emitted path: which source, which sink, along which edges. */
  datatype Hit = Hit(source: nat, sink: nat, edges: seq<nat>)

  ghost predicate HitIsRight(pg: PackageGraph, sources: seq<TaintSource>, sinks: seq<TaintSink>, maxDepth: nat, h: Hit) {
    && h.source < |sources| && h.sink < |sinks|
    && Connected(pg, sources[h.source], sinks[h.sink], maxDepth)
    && LeastEdges(pg.flow, pg.flow.Relation(), sources[h.source].node, sinks[h.sink].node, h.edges)
    && S.InBounds(h.edges, |pg.flow.edges|)
  }

  predicate HitBefore(a: Hit, b: Hit) {
    a.source < b.source || (a.source == b.source && a.sink < b.sink)
  }

  /** `hits` are the connected pairs below `(i, j)`, each once, in order, with least edges. */
  ghost predicate HitsUpTo(pg: PackageGraph, sources: seq<TaintSource>, sinks: seq<TaintSink>, maxDepth: nat,
                           hits: seq<Hit>, i: nat, j: nat)
  {
    && (forall k :: 0 <= k < |hits| ==> HitIsRight(pg, sources, sinks, maxDepth, hits[k]) && HitBefore(hits[k], Hit(i, j, [])))
    && (forall k, l :: 0 <= k < l < |hits| ==> HitBefore(hits[k], hits[l]))
    && (forall a: nat, b: nat ::
          (a < |sources| && b < |sinks| && HitBefore(Hit(a, b, []), Hit(i, j, [])) && Connected(pg, sources[a], sinks[b], maxDepth))
          ==> exists k :: 0 <= k < |hits| && hits[k].source == a && hits[k].sink == b)
  }

  ghost predicate Renders(pg: PackageGraph, sources: seq<TaintSource>, sinks: seq<TaintSink>, hits: seq<Hit>,
                          out: seq<(ReachabilityPath, nat)>)
    requires pg.Valid()
  {
    |out| == |hits| && forall k :: 0 <= k < |hits| ==>
      && hits[k].source < |sources| && hits[k].sink < |sinks| && sources[hits[k].source].node < pg.flow.nodes
      && S.InBounds(hits[k].edges, |pg.flow.edges|)
      && out[k].1 == hits[k].sink && ShowsData(pg, sources[hits[k].source], sinks[hits[k].sink], hits[k].edges, out[k].0)
  }

  function NodesOf(sinks: seq<TaintSink>): (r: seq<nat>)
    ensures |r| == |sinks| && forall k :: 0 <= k < |sinks| ==> r[k] == sinks[k].node
  {
    if sinks == [] then [] else NodesOf(sinks[..|sinks| - 1]) + [sinks[|sinks| - 1].node]
  }

  lemma EdgesInBounds<W>(g: Graph<W>, R: set<(nat, nat)>, a: nat, b: nat, es: seq<nat>)
    requires LeastEdges(g, R, a, b, es)
    ensures S.InBounds(es, |g.edges|)
  {
    var p :| LeastWalk(R, a, b, p) && SpellsOut(g, es, p);
    forall k | 0 <= k < |es| ensures es[k] < |g.edges| {
      assert IsFirstEdge(g, es[k], p[k], p[k + 1]);
    }
  }

  lemma WalkEndsInside<W>(g: Graph<W>, R: set<(nat, nat)>, a: nat, b: nat, q: seq<nat>)
    requires g.Valid() && R <= g.Relation() && a < g.nodes && WalkFrom(R, a, b, q)
    ensures b < g.nodes
  {
    ValidBounds(g);
    if |q| > 1 {
      WalkInit(R, a, b, q);
    }
  }

  lemma LiveWithin<W>(g: Graph<W>, live: seq<bool>)
    ensures S.LiveRelation(g, live) <= g.Relation()
  {
  }

  lemma WithinReaches(R: set<(nat, nat)>, a: nat, b: nat, depth: nat)
    requires Within(R, a, b, depth)
    ensures Reach(R, a, b)
  {
    var q :| WalkFrom(R, a, b, q) && |q| <= depth + 1;
  }

  lemma GoalInside<W>(g: Graph<W>, goals: seq<nat>, live: seq<bool>, a: nat, b: nat, depth: nat)
    requires g.Valid() && MarksLive(g, goals, live) && b in goals && a < g.nodes && b < g.nodes
    ensures live[b] && (!live[a] ==> !Within(g.Relation(), a, b, depth))
  {
    GoalReachesItself(g.Relation(), g.nodes, goals, b);
    if Within(g.Relation(), a, b, depth) {
      WithinReaches(g.Relation(), a, b, depth);
      assert ReachesGoal(g.Relation(), g.nodes, goals, a);
    }
  }

  lemma GoalOutside<W>(g: Graph<W>, live: seq<bool>, a: nat, b: nat, depth: nat)
    requires g.Valid() && a < g.nodes && b >= g.nodes
    ensures !Within(S.LiveRelation(g, live), a, b, depth)
  {
    LiveWithin(g, live);
    forall q ensures !WalkFrom(S.LiveRelation(g, live), a, b, q) {
      if WalkFrom(S.LiveRelation(g, live), a, b, q) {
        WalkEndsInside(g, S.LiveRelation(g, live), a, b, q);
      }
    }
  }

  /** What the search over the pruned graph decides about one goal. */
  lemma DecidedInGraph<W>(g: Graph<W>, goals: seq<nat>, live: seq<bool>, a: nat, b: nat, depth: nat)
    requires g.Valid() && MarksLive(g, goals, live) && b in goals && a < g.nodes
    ensures !live[a] ==> b >= g.nodes || !Within(g.Relation(), a, b, depth)
    ensures Within(S.LiveRelation(g, live), a, b, depth) <==> b < g.nodes && Within(g.Relation(), a, b, depth)
    ensures b < g.nodes ==> forall es ::
              LeastEdges(g, S.LiveRelation(g, live), a, b, es) <==> LeastEdges(g, g.Relation(), a, b, es)
  {
    hide S.LiveRelation, Graph.Relation, Within, LeastEdges;
    if b < g.nodes {
      GoalInside(g, goals, live, a, b, depth);
      PrunedIsUnpruned(g, goals, live, a, b);
    } else {
      GoalOutside(g, live, a, b, depth);
    }
  }

  lemma SinkIsGoal(sinks: seq<TaintSink>, j: nat)
    requires j < |sinks|
    ensures sinks[j].node in NodesOf(sinks)
  {
    assert NodesOf(sinks)[j] == sinks[j].node;
  }

  lemma FlowIsValid(pg: PackageGraph)
    requires pg.Valid()
    ensures pg.flow.Valid()
  {
  }

  /** What the search over the pruned graph decides about one sink. */
  lemma Decided(pg: PackageGraph, sinks: seq<TaintSink>, live: seq<bool>, source: TaintSource, j: nat, maxDepth: nat)
    requires pg.Valid() && MarksLive(pg.flow, NodesOf(sinks), live) && j < |sinks|
    requires IsDataSource(pg, source)
    ensures !live[source.node] ==> !Connected(pg, source, sinks[j], maxDepth)
    ensures Within(S.LiveRelation(pg.flow, live), source.node, sinks[j].node, maxDepth)
       <==> Connected(pg, source, sinks[j], maxDepth)
  {
    SinkIsGoal(sinks, j);
    FlowIsValid(pg);
    hide PackageGraph.Valid, S.LiveRelation, Graph.Relation, Within, NodesOf, Graph.Valid, LeastEdges, MarksLive;
    DecidedInGraph(pg.flow, NodesOf(sinks), live, source.node, sinks[j].node, maxDepth);
  }

  lemma HitsSkip(pg: PackageGraph, sources: seq<TaintSource>, sinks: seq<TaintSink>, maxDepth: nat, hits: seq<Hit>, i: nat, j: nat)
    requires HitsUpTo(pg, sources, sinks, maxDepth, hits, i, j) && i < |sources| && j < |sinks|
    requires !Connected(pg, sources[i], sinks[j], maxDepth)
    ensures HitsUpTo(pg, sources, sinks, maxDepth, hits, i, j + 1)
  {
    hide Connected, HitIsRight;
  }

  lemma HitsAdd(pg: PackageGraph, sources: seq<TaintSource>, sinks: seq<TaintSink>, maxDepth: nat, hits: seq<Hit>, i: nat, j: nat, es: seq<nat>)
    requires HitsUpTo(pg, sources, sinks, maxDepth, hits, i, j)
    requires HitIsRight(pg, sources, sinks, maxDepth, Hit(i, j, es))
    ensures HitsUpTo(pg, sources, sinks, maxDepth, hits + [Hit(i, j, es)], i, j + 1)
  {
    hide Connected, HitIsRight;
    var hits' := hits + [Hit(i, j, es)];
    forall a: nat, b: nat | a < |sources| && b < |sinks| && HitBefore(Hit(a, b, []), Hit(i, j + 1, []))
                            && Connected(pg, sources[a], sinks[b], maxDepth)
      ensures exists k :: 0 <= k < |hits'| && hits'[k].source == a && hits'[k].sink == b
    {
      if a == i && b == j {
        assert hits'[|hits|].source == a && hits'[|hits|].sink == b;
      } else {
        assert HitBefore(Hit(a, b, []), Hit(i, j, []));
        var k :| 0 <= k < |hits| && hits[k].source == a && hits[k].sink == b;
        assert hits'[k] == hits[k];
      }
    }
  }

  lemma HitsNextSource(pg: PackageGraph, sources: seq<TaintSource>, sinks: seq<TaintSink>, maxDepth: nat, hits: seq<Hit>, i: nat)
    requires HitsUpTo(pg, sources, sinks, maxDepth, hits, i, |sinks|)
    ensures HitsUpTo(pg, sources, sinks, maxDepth, hits, i + 1, 0)
  {
    hide Connected, HitIsRight;
    forall a: nat, b: nat | a < |sources| && b < |sinks| && HitBefore(Hit(a, b, []), Hit(i + 1, 0, []))
      ensures HitBefore(Hit(a, b, []), Hit(i, |sinks|, []))
    {
    }
  }

  lemma HitsSkipSource(pg: PackageGraph, sources: seq<TaintSource>, sinks: seq<TaintSink>, maxDepth: nat, hits: seq<Hit>, i: nat)
    requires HitsUpTo(pg, sources, sinks, maxDepth, hits, i, 0) && i < |sources|
    requires forall j: nat :: j < |sinks| ==> !Connected(pg, sources[i], sinks[j], maxDepth)
    ensures HitsUpTo(pg, sources, sinks, maxDepth, hits, i + 1, 0)
  {
    hide Connected, HitIsRight;
    forall a: nat, b: nat | a < |sources| && b < |sinks| && HitBefore(Hit(a, b, []), Hit(i + 1, 0, []))
                            && Connected(pg, sources[a], sinks[b], maxDepth)
      ensures HitBefore(Hit(a, b, []), Hit(i, 0, []))
    {
    }
  }

  /** The search from one live source, tried against every sink. */
  method PathsFromSource(pg: PackageGraph, sources: seq<TaintSource>, sinks: seq<TaintSink>, maxDepth: nat, live: seq<bool>,
                         i: nat, out0: seq<(ReachabilityPath, nat)>, ghost hits0: seq<Hit>)
    returns (out: seq<(ReachabilityPath, nat)>, ghost hits: seq<Hit>)
    requires pg.Valid() && i < |sources| && MarksLive(pg.flow, NodesOf(sinks), live) && IsDataSource(pg, sources[i])
    requires HitsUpTo(pg, sources, sinks, maxDepth, hits0, i, 0) && Renders(pg, sources, sinks, hits0, out0)
    ensures HitsUpTo(pg, sources, sinks, maxDepth, hits, i + 1, 0) && Renders(pg, sources, sinks, hits, out)
  {
    hide HitsUpTo, Renders, Connected, HitIsRight;
    out, hits := out0, hits0;
    var source := sources[i];
    ghost var st;
    var parent;
    parent, st := S.Bfs(pg.flow, live, source.node, maxDepth);
    for j := 0 to |sinks|
      invariant HitsUpTo(pg, sources, sinks, maxDepth, hits, i, j) && Renders(pg, sources, sinks, hits, out)
    {
      hide MarksLive;
      var r := WalkBack(pg.flow, parent, source.node, sinks[j].node, live, maxDepth, st);
      SinkIsGoal(sinks, j);
      Decided(pg, sinks, live, source, j, maxDepth);
      DecidedInGraph(pg.flow, NodesOf(sinks), live, source.node, sinks[j].node, maxDepth);
      if r.Some? {
        HitFound(pg, sources, sinks, maxDepth, i, j, r.value);
        HitsAdd(pg, sources, sinks, maxDepth, hits, i, j, r.value);
        RendersAdd(pg, sources, sinks, hits, out, i, j, r.value);
        out := out + [(DataPath(pg, source, sinks[j], r.value), j)];
        hits := hits + [Hit(i, j, r.value)];
      } else {
        HitsSkip(pg, sources, sinks, maxDepth, hits, i, j);
      }
    }
    HitsNextSource(pg, sources, sinks, maxDepth, hits, i);
  }

  lemma HitFound(pg: PackageGraph, sources: seq<TaintSource>, sinks: seq<TaintSink>, maxDepth: nat, i: nat, j: nat, es: seq<nat>)
    requires i < |sources| && j < |sinks| && Connected(pg, sources[i], sinks[j], maxDepth)
    requires sinks[j].node < pg.flow.nodes ==> LeastEdges(pg.flow, pg.flow.Relation(), sources[i].node, sinks[j].node, es)
    ensures HitIsRight(pg, sources, sinks, maxDepth, Hit(i, j, es)) && S.InBounds(es, |pg.flow.edges|)
  {
    EdgesInBounds(pg.flow, pg.flow.Relation(), sources[i].node, sinks[j].node, es);
  }

  lemma RendersAdd(pg: PackageGraph, sources: seq<TaintSource>, sinks: seq<TaintSink>, hits: seq<Hit>,
                   out: seq<(ReachabilityPath, nat)>, i: nat, j: nat, es: seq<nat>)
    requires pg.Valid() && Renders(pg, sources, sinks, hits, out)
    requires i < |sources| && j < |sinks| && sources[i].node < pg.flow.nodes && S.InBounds(es, |pg.flow.edges|)
    ensures Renders(pg, sources, sinks, hits + [Hit(i, j, es)], out + [(DataPath(pg, sources[i], sinks[j], es), j)])
  {
    hide DataPath;
  }

  /** For every source and sink in order, the least path between them when one is short enough. */
  method DataPathsTo(pg: PackageGraph, sources: seq<TaintSource>, sinks: seq<TaintSink>, limits: Limits)
    returns (out: seq<(ReachabilityPath, nat)>, ghost hits: seq<Hit>)
    requires pg.Valid()
    ensures Renders(pg, sources, sinks, hits, out)
    ensures limits.maxPathsPerPair == 0 ==> out == []
    ensures limits.maxPathsPerPair > 0 ==> HitsUpTo(pg, sources, sinks, limits.maxDepth, hits, |sources|, 0)
  {
    out, hits := [], [];
    if limits.maxPathsPerPair == 0 || |sinks| == 0 {
      return;
    }
    var live := CanReach(pg.flow, NodesOf(sinks));
    for i := 0 to |sources|
      invariant HitsUpTo(pg, sources, sinks, limits.maxDepth, hits, i, 0)
      invariant Renders(pg, sources, sinks, hits, out)
    {
      hide HitsUpTo, Renders, DataPath;
      if IsDataSource(pg, sources[i]) && live[sources[i].node] {
        out, hits := PathsFromSource(pg, sources, sinks, limits.maxDepth, live, i, out, hits);
      } else {
        forall j: nat | j < |sinks| ensures !Connected(pg, sources[i], sinks[j], limits.maxDepth) {
          if IsDataSource(pg, sources[i]) {
            Decided(pg, sinks, live, sources[i], j, limits.maxDepth);
          }
        }
        HitsSkipSource(pg, sources, sinks, limits.maxDepth, hits, i);
      }
    }
  }
}
