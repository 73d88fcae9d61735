/** Control reachability: phase root to sink definition through calls. */
module ControlPaths {
  import opened Options
  import opened Walks
  import opened Digraph
  import opened Shortest
  import opened Pruning
  import opened Evidence
  import opened DataPaths
  import S = Search

  datatype Root = Root(symbol: nat, location: Location, detail: string)

  /** `c` is the least confidence of the calls `es`, and full for none. */
  ghost predicate WeakestCall(g: Graph<CallEdge>, es: seq<nat>, c: Confidence)
    requires S.InBounds(es, |g.edges|)
  {
    && (forall e :: e in es ==> c.Rank() <= g.edges[e].weight.confidence.Rank())
    && (c == Resolved || exists e :: e in es && c == g.edges[e].weight.confidence)
  }

  /** A control path from the root to the sink by the calls `es`: nothing flows along it, so it is never
      obfuscated or conditional. */
  ghost predicate ShowsControl(pg: PackageGraph, root: Root, start: nat, sink: TaintSink, es: seq<nat>, p: ReachabilityPath)
    requires pg.Valid() && start < pg.calls.nodes && S.InBounds(es, |pg.calls.edges|)
  {
    && p.kind == Control && !p.obfuscated && !p.conditional && WeakestCall(pg.calls, es, p.confidence)
    && |p.steps| == |es| + 2
    && p.steps[0] == PathStep(PathStepKind.Source, root.location, pg.callNames[start], root.detail)
    && p.steps[|es| + 1] == PathStep(PathStepKind.Sink, sink.location, sink.pattern, "")
    && forall k :: 0 <= k < |es| ==> IsCallStep(pg, es[k], p.steps[k + 1])
  }

  /** The step of a call stands where the call is made and names what is called. */
  predicate IsCallStep(pg: PackageGraph, e: nat, step: PathStep)
    requires pg.Valid() && e < |pg.calls.edges|
  {
    && step.kind == PathStepKind.Call && step.detail == ""
    && step.location == pg.calls.edges[e].weight.location && step.symbol == pg.callNames[pg.calls.edges[e].to]
  }

  function CallConfidence(g: Graph<CallEdge>, es: seq<nat>): (c: Confidence)
    requires S.InBounds(es, |g.edges|)
    ensures WeakestCall(g, es, c)
  {
    if es == [] then Resolved
    else
      assert es == es[..|es| - 1] + [es[|es| - 1]];
      MinConfidence(CallConfidence(g, es[..|es| - 1]), g.edges[es[|es| - 1]].weight.confidence)
  }

  function CallSteps(pg: PackageGraph, es: seq<nat>): (steps: seq<PathStep>)
    requires pg.Valid() && S.InBounds(es, |pg.calls.edges|)
    ensures |steps| == |es| && forall k :: 0 <= k < |es| ==>
      steps[k] == PathStep(PathStepKind.Call, pg.calls.edges[es[k]].weight.location, pg.callNames[pg.calls.edges[es[k]].to], "")
  {
    if es == [] then []
    else
      var e := pg.calls.edges[es[|es| - 1]];
      CallSteps(pg, es[..|es| - 1]) + [PathStep(PathStepKind.Call, e.weight.location, pg.callNames[e.to], "")]
  }

  function StepsThrough(pg: PackageGraph, root: Root, start: nat, sink: TaintSink, es: seq<nat>): (steps: seq<PathStep>)
    requires pg.Valid() && start < pg.calls.nodes && S.InBounds(es, |pg.calls.edges|)
    ensures |steps| == |es| + 2
    ensures steps[0] == PathStep(PathStepKind.Source, root.location, pg.callNames[start], root.detail)
    ensures steps[|es| + 1] == PathStep(PathStepKind.Sink, sink.location, sink.pattern, "")
    ensures forall k :: 0 <= k < |es| ==> IsCallStep(pg, es[k], steps[k + 1])
  {
    [PathStep(PathStepKind.Source, root.location, pg.callNames[start], root.detail)] + CallSteps(pg, es)
    + [PathStep(PathStepKind.Sink, sink.location, sink.pattern, "")]
  }

  /** The root, one call step per edge, the sink. */
  function ControlPath(pg: PackageGraph, root: Root, start: nat, sink: TaintSink, es: seq<nat>): (p: ReachabilityPath)
    requires pg.Valid() && start < pg.calls.nodes && S.InBounds(es, |pg.calls.edges|)
    ensures p.WellFormed() && ShowsControl(pg, root, start, sink, es, p)
  {
    ReachabilityPath(Control, StepsThrough(pg, root, start, sink, es), CallConfidence(pg.calls, es), false, false)
  }

  ghost predicate Called(pg: PackageGraph, start: nat, sink: TaintSink, maxDepth: nat) {
    Within(pg.calls.Relation(), start, sink.definition, maxDepth)
  }

  /** `out[k]` is the least control path to sink `at[k]`; `at` is every sink below `j` in reach, in order. */
  ghost predicate ControlsUpTo(pg: PackageGraph, root: Root, start: nat, sinks: seq<TaintSink>, maxDepth: nat,
                               out: seq<ReachabilityPath>, at: seq<nat>, j: nat)
    requires pg.Valid() && start < pg.calls.nodes
  {
    && |out| == |at|
    && (forall k :: 0 <= k < |at| ==> at[k] < j && at[k] < |sinks| && IsControl(pg, root, start, sinks[at[k]], maxDepth, out[k]))
    && (forall k, l :: 0 <= k < l < |at| ==> at[k] < at[l])
    && (forall i: nat :: i < j && i < |sinks| && Called(pg, start, sinks[i], maxDepth) ==> i in at)
  }

  ghost predicate IsControl(pg: PackageGraph, root: Root, start: nat, sink: TaintSink, maxDepth: nat, p: ReachabilityPath)
    requires pg.Valid() && start < pg.calls.nodes
  {
    && Called(pg, start, sink, maxDepth)
    && exists es: seq<nat> :: LeastEdges(pg.calls, pg.calls.Relation(), start, sink.definition, es)
         && S.InBounds(es, |pg.calls.edges|) && ShowsControl(pg, root, start, sink, es, p)
  }

  lemma ControlFound(pg: PackageGraph, root: Root, start: nat, sink: TaintSink, maxDepth: nat, es: seq<nat>)
    requires pg.Valid() && start < pg.calls.nodes && Called(pg, start, sink, maxDepth)
    requires LeastEdges(pg.calls, pg.calls.Relation(), start, sink.definition, es)
    ensures S.InBounds(es, |pg.calls.edges|)
    ensures IsControl(pg, root, start, sink, maxDepth, ControlPath(pg, root, start, sink, es))
  {
    EdgesInBounds(pg.calls, pg.calls.Relation(), start, sink.definition, es);
    hide ControlPath, LeastEdges, Called, ShowsControl;
  }

  lemma ControlStep(pg: PackageGraph, root: Root, start: nat, sinks: seq<TaintSink>, maxDepth: nat,
                    out: seq<ReachabilityPath>, at: seq<nat>, j: nat, p: ReachabilityPath)
    requires pg.Valid() && start < pg.calls.nodes && j < |sinks|
    requires ControlsUpTo(pg, root, start, sinks, maxDepth, out, at, j)
    requires IsControl(pg, root, start, sinks[j], maxDepth, p)
    ensures ControlsUpTo(pg, root, start, sinks, maxDepth, out + [p], at + [j], j + 1)
  {
    hide IsControl, Called;
    assert (at + [j])[|at|] == j;
    assert forall i: nat :: i in at ==> i in at + [j];
  }

  /** The least call path to one sink, if its definition is within the bound. */
  method ControlTo(pg: PackageGraph, root: Root, start: nat, sink: TaintSink, parent: seq<Option<nat>>,
                   ghost all: seq<bool>, ghost maxDepth: nat, ghost st: S.State) returns (r: Option<ReachabilityPath>)
    requires pg.Valid() && start < pg.calls.nodes && BfsResult(pg.calls, all, start, maxDepth, parent, st)
    requires S.LiveRelation(pg.calls, all) == pg.calls.Relation()
    ensures r.Some? <==> Called(pg, start, sink, maxDepth)
    ensures r.Some? ==> IsControl(pg, root, start, sink, maxDepth, r.value)
  {
    hide LeastEdges, Within, S.LiveRelation, Graph.Relation, ControlPath, ShowsControl, IsControl, BfsResult;
    var es := WalkBack(pg.calls, parent, start, sink.definition, all, maxDepth, st);
    if es.None? {
      return None;
    }
    ControlFound(pg, root, start, sink, maxDepth, es.value);
    r := Some(ControlPath(pg, root, start, sink, es.value));
  }

  /** Every sink whose definition the root reaches within the bound, by the least call path. */
  method ControlPathsOf(pg: PackageGraph, root: Root, sinks: seq<TaintSink>, limits: Limits)
    returns (out: seq<ReachabilityPath>, ghost at: seq<nat>)
    requires pg.Valid()
    ensures root.symbol !in pg.nodeOf || limits.maxPathsPerPair == 0 ==> out == []
    ensures root.symbol in pg.nodeOf && limits.maxPathsPerPair > 0 ==>
      ControlsUpTo(pg, root, pg.nodeOf[root.symbol], sinks, limits.maxDepth, out, at, |sinks|)
  {
    out, at := [], [];
    if root.symbol !in pg.nodeOf || limits.maxPathsPerPair == 0 {
      return;
    }
    var start := pg.nodeOf[root.symbol];
    var all := seq(pg.calls.nodes, _ => true);
    var parent;
    ghost var st;
    parent, st := S.Bfs(pg.calls, all, start, limits.maxDepth);
    UnprunedRelation(pg.calls, all);
    hide S.LiveRelation, Graph.Relation, IsControl, S.Found, Called;
    for j := 0 to |sinks|
      invariant ControlsUpTo(pg, root, start, sinks, limits.maxDepth, out, at, j)
    {
      hide ControlsUpTo;
      var path := ControlTo(pg, root, start, sinks[j], parent, all, limits.maxDepth, st);
      if path.Some? {
        ControlStep(pg, root, start, sinks, limits.maxDepth, out, at, j, path.value);
        out, at := out + [path.value], at + [j];
      } else {
        ControlSkip(pg, root, start, sinks, limits.maxDepth, out, at, j);
      }
    }
  }

  lemma ControlSkip(pg: PackageGraph, root: Root, start: nat, sinks: seq<TaintSink>, maxDepth: nat,
                    out: seq<ReachabilityPath>, at: seq<nat>, j: nat)
    requires pg.Valid() && start < pg.calls.nodes && j < |sinks| && !Called(pg, start, sinks[j], maxDepth)
    requires ControlsUpTo(pg, root, start, sinks, maxDepth, out, at, j)
    ensures ControlsUpTo(pg, root, start, sinks, maxDepth, out, at, j + 1)
  {
    hide IsControl, Called;
  }
}
