/** Which nodes can reach a goal, and why searching only those changes no path. */
module Pruning {
  import opened Options
  import opened Walks
  import opened Digraph
  import opened Shortlex
  import opened Search
  import opened Shortest
  import opened Finite

  // ---- the nodes that can reach a goal ----

  /** `v` reaches one of the goals that are nodes. */
  ghost predicate ReachesGoal(R: set<(nat, nat)>, n: nat, goals: seq<nat>, v: nat) {
    exists b: nat :: b in goals && b < n && Reach(R, v, b)
  }

  /** Marked nodes reach a goal; the marking is closed backwards except at the stacked nodes. */
  ghost predicate Flooding(R: set<(nat, nat)>, n: nat, goals: seq<nat>, S: set<nat>, stack: seq<nat>) {
    && (forall v: nat :: v in S ==> v < n && ReachesGoal(R, n, goals, v))
    && (forall v: nat :: v in stack ==> v in S)
    && (forall e :: e in R && e.1 in S && e.1 !in stack ==> e.0 in S)
  }

  ghost predicate Flags(S: set<nat>, live: seq<bool>) {
    forall v: nat :: v in S <==> v < |live| && live[v]
  }

  lemma GoalReachesItself(R: set<(nat, nat)>, n: nat, goals: seq<nat>, b: nat)
    requires b in goals && b < n
    ensures ReachesGoal(R, n, goals, b)
  {
    ReachSelf(R, b);
  }

  lemma SourceReaches(R: set<(nat, nat)>, n: nat, goals: seq<nat>, a: nat, v: nat)
    requires (a, v) in R && ReachesGoal(R, n, goals, v)
    ensures ReachesGoal(R, n, goals, a)
  {
    var b: nat :| b in goals && b < n && Reach(R, v, b);
    ReachEdge(R, a, v);
    ReachTrans(R, a, v, b);
  }

  lemma Pushed(stack: seq<nat>, x: nat)
    ensures x in stack + [x] && forall v: nat :: v in stack + [x] <==> v in stack || v == x
  {
    assert (stack + [x])[|stack|] == x;
  }

  /** Marks and stacks the unmarked sources of the edges into `v`, just popped. */
  method FloodSources<W>(g: Graph<W>, ghost goals: seq<nat>, v: nat, live0: seq<bool>, stack0: seq<nat>, ghost S0: set<nat>)
    returns (live: seq<bool>, stack: seq<nat>, ghost S: set<nat>)
    requires g.Valid() && |live0| == g.nodes && Flags(S0, live0) && v in S0
    requires Flooding(g.Relation(), g.nodes, goals, S0, stack0 + [v])
    ensures |live| == g.nodes && Flags(S, live) && Flooding(g.Relation(), g.nodes, goals, S, stack)
    ensures S0 <= S && |stack| + |S0| == |stack0| + |S|
  {
    live, stack, S := live0, stack0, S0;
    var incoming := InEdges(g.edges, v);
    Pushed(stack, v);
    for i := 0 to |incoming|
      invariant |live| == g.nodes && Flags(S, live)
      invariant S0 <= S && |stack| + |S0| == |stack0| + |S|
      invariant Flooding(g.Relation(), g.nodes, goals, S, stack + [v])
      invariant forall k :: 0 <= k < i ==> g.edges[incoming[k]].from in S
    {
      hide InEdges, Graph.Relation, Flooding;
      var p := g.edges[incoming[i]].from;
      if !live[p] {
        EdgeInRelation(g, incoming[i]);
        FloodMore(g.Relation(), g.nodes, goals, S, stack, v, p);
        live := live[p := true];
        stack := stack + [p];
        S := S + {p};
      }
    }
    FloodClosed(g, goals, v, S, stack);
  }

  lemma FloodMore(R: set<(nat, nat)>, n: nat, goals: seq<nat>, S: set<nat>, stack: seq<nat>, v: nat, p: nat)
    requires Flooding(R, n, goals, S, stack + [v]) && p < n && (p, v) in R && v in S
    ensures Flooding(R, n, goals, S + {p}, stack + [p] + [v])
  {
    hide ReachesGoal;
    SourceReaches(R, n, goals, p, v);
    Pushed(stack, v);
    Pushed(stack, p);
    Pushed(stack + [p], v);
  }

  lemma FloodClosed<W>(g: Graph<W>, goals: seq<nat>, v: nat, S: set<nat>, stack: seq<nat>)
    requires Flooding(g.Relation(), g.nodes, goals, S, stack + [v])
    requires forall k :: 0 <= k < |InEdges(g.edges, v)| ==> g.edges[InEdges(g.edges, v)[k]].from in S
    ensures Flooding(g.Relation(), g.nodes, goals, S, stack)
  {
    hide ReachesGoal;
    Pushed(stack, v);
    forall e | e in g.Relation() && e.1 in S && e.1 !in stack ensures e.0 in S {
      if e.1 == v {
        var k :| 0 <= k < |g.edges| && e == (g.edges[k].from, g.edges[k].to);
        assert k in InEdges(g.edges, v);
      }
    }
  }

  lemma FloodPop(R: set<(nat, nat)>, n: nat, goals: seq<nat>, S: set<nat>, stack: seq<nat>)
    requires Flooding(R, n, goals, S, stack) && stack != []
    ensures Flooding(R, n, goals, S, stack[..|stack| - 1] + [stack[|stack| - 1]]) && stack[|stack| - 1] in S
  {
    assert stack == stack[..|stack| - 1] + [stack[|stack| - 1]];
  }

  lemma FloodSize(R: set<(nat, nat)>, n: nat, goals: seq<nat>, S: set<nat>, stack: seq<nat>)
    requires Flooding(R, n, goals, S, stack)
    ensures |S| <= n
  {
    UpToSize(n);
    SubsetSize(S, UpTo(n));
  }

  lemma FloodDone(R: set<(nat, nat)>, n: nat, goals: seq<nat>, S: set<nat>, live: seq<bool>)
    requires Flooding(R, n, goals, S, []) && Flags(S, live) && |live| == n
    requires forall e :: e in R ==> e.0 < n
    requires forall b: nat :: b in goals && b < n ==> b in S
    ensures forall v: nat :: v < n ==> (live[v] <==> ReachesGoal(R, n, goals, v))
  {
    forall v: nat | v < n && ReachesGoal(R, n, goals, v) ensures live[v] {
      var b: nat :| b in goals && b < n && Reach(R, v, b);
      ReachStaysBackClosed(R, S, v, b);
    }
  }

  /** Every node from which one of `goals` is reachable, as a flag per node. */
  method CanReach<W>(g: Graph<W>, goals: seq<nat>) returns (live: seq<bool>)
    requires g.Valid()
    ensures |live| == g.nodes
    ensures forall v: nat :: v < g.nodes ==> (live[v] <==> ReachesGoal(g.Relation(), g.nodes, goals, v))
  {
    var n := g.nodes;
    live := seq(n, _ => false);
    var stack: seq<nat> := [];
    ghost var S: set<nat> := {};
    for i := 0 to |goals|
      invariant |live| == n && Flags(S, live) && |stack| == |S|
      invariant forall v: nat :: v in S <==> v in stack
      invariant Flooding(g.Relation(), n, goals, S, stack)
      invariant forall k :: 0 <= k < i && goals[k] < n ==> goals[k] in S
    {
      hide Graph.Relation, ReachesGoal;
      var b := goals[i];
      if b < n && !live[b] {
        GoalReachesItself(g.Relation(), n, goals, b);
        Pushed(stack, b);
        live := live[b := true];
        stack := stack + [b];
        S := S + {b};
      }
    }
    assert forall b: nat :: b in goals && b < n ==> b in S;
    while stack != []
      invariant |live| == n && Flags(S, live)
      invariant Flooding(g.Relation(), n, goals, S, stack)
      invariant forall b: nat :: b in goals && b < n ==> b in S
      invariant |S| <= n + |stack|
      decreases n - |S| + |stack|
    {
      hide Graph.Relation, Flooding;
      var v := stack[|stack| - 1];
      FloodPop(g.Relation(), n, goals, S, stack);
      FloodSize(g.Relation(), n, goals, S, stack);
      stack := stack[..|stack| - 1];
      live, stack, S := FloodSources(g, goals, v, live, stack, S);
      FloodSize(g.Relation(), n, goals, S, stack);
    }
    ValidBounds(g);
    FloodDone(g.Relation(), n, goals, S, live);
  }

  // ---- pruning changes no path ----

  /** `live` marks exactly the nodes that reach a goal. */
  ghost predicate MarksLive<W>(g: Graph<W>, goals: seq<nat>, live: seq<bool>) {
    |live| == g.nodes && forall v: nat :: v < g.nodes ==> (live[v] <==> ReachesGoal(g.Relation(), g.nodes, goals, v))
  }

  /** Every node of a walk to a live node is live. */
  lemma WalkIsLive<W>(g: Graph<W>, goals: seq<nat>, live: seq<bool>, a: nat, b: nat, q: seq<nat>)
    requires g.Valid() && MarksLive(g, goals, live) && b < g.nodes && live[b]
    requires WalkFrom(g.Relation(), a, b, q)
    ensures WalkFrom(LiveRelation(g, live), a, b, q)
  {
    forall i | 0 <= i < |q| - 1 ensures (q[i], q[i + 1]) in LiveRelation(g, live) {
      var e := (q[i], q[i + 1]);
      var k :| 0 <= k < |g.edges| && e == (g.edges[k].from, g.edges[k].to);
      WalkSlice(g.Relation(), q, i + 1, |q| - 1);
      var c: nat :| c in goals && c < g.nodes && Reach(g.Relation(), b, c);
      assert Reach(g.Relation(), q[i + 1], b);
      ReachTrans(g.Relation(), q[i + 1], b, c);
      assert ReachesGoal(g.Relation(), g.nodes, goals, q[i + 1]);
    }
  }

  lemma LiveWalkIsWalk<W>(g: Graph<W>, live: seq<bool>, a: nat, b: nat, q: seq<nat>)
    requires WalkFrom(LiveRelation(g, live), a, b, q)
    ensures WalkFrom(g.Relation(), a, b, q)
  {
    assert LiveRelation(g, live) <= g.Relation();
  }

  lemma SameWalks<W>(g: Graph<W>, goals: seq<nat>, live: seq<bool>, a: nat, b: nat)
    requires g.Valid() && MarksLive(g, goals, live) && b < g.nodes && live[b]
    ensures forall q :: WalkFrom(LiveRelation(g, live), a, b, q) <==> WalkFrom(g.Relation(), a, b, q)
  {
    forall q ensures WalkFrom(LiveRelation(g, live), a, b, q) <==> WalkFrom(g.Relation(), a, b, q) {
      if WalkFrom(g.Relation(), a, b, q) {
        WalkIsLive(g, goals, live, a, b, q);
      }
      if WalkFrom(LiveRelation(g, live), a, b, q) {
        LiveWalkIsWalk(g, live, a, b, q);
      }
    }
  }

  /** At a live goal, the pruned graph has the same bounded reachability and the same least
      edges as the whole graph. */
  lemma PrunedIsUnpruned<W>(g: Graph<W>, goals: seq<nat>, live: seq<bool>, a: nat, b: nat)
    requires g.Valid() && MarksLive(g, goals, live) && b < g.nodes && live[b]
    ensures forall depth: nat :: Within(LiveRelation(g, live), a, b, depth) <==> Within(g.Relation(), a, b, depth)
    ensures forall es :: LeastEdges(g, LiveRelation(g, live), a, b, es) <==> LeastEdges(g, g.Relation(), a, b, es)
  {
    SameWalks(g, goals, live, a, b);
    hide LiveRelation, Graph.Relation, IsWalk, WalkFrom, SpellsOut, MarksLive;
    assert forall p :: LeastWalk(LiveRelation(g, live), a, b, p) <==> LeastWalk(g.Relation(), a, b, p);
  }

  lemma UnprunedRelation<W>(g: Graph<W>, all: seq<bool>)
    requires g.Valid() && |all| == g.nodes && forall v: nat :: v < g.nodes ==> all[v]
    ensures LiveRelation(g, all) == g.Relation()
  {
  }

  /** The pruned and the unpruned search agree at every live node: both reach it or neither,
      with the same path, hence the same depth and the same parent edge. Dead nodes other than
      the start get no parent. */
  lemma PruningChangesNothing<W>(g: Graph<W>, goals: seq<nat>, live: seq<bool>, all: seq<bool>, start: nat, maxDepth: nat,
                                 pruned: State, full: State, v: nat)
    requires g.Valid() && MarksLive(g, goals, live) && start < g.nodes && v < g.nodes
    requires |all| == g.nodes && forall v: nat :: v < g.nodes ==> all[v]
    requires Found(g, live, start, maxDepth, pruned) && Found(g, all, start, maxDepth, full)
    ensures live[v] ==> (v in pruned.order <==> v in full.order) && pruned.parent[v] == full.parent[v]
    ensures live[v] && v in full.order ==> pruned.path[v] == full.path[v]
    ensures !live[v] && v != start ==> pruned.parent[v] == None
  {
    UnprunedRelation(g, all);
    FoundExactly(g, live, start, maxDepth, pruned, v);
    FoundExactly(g, all, start, maxDepth, full, v);
    if live[v] {
      SameWalks(g, goals, live, start, v);
      PrunedIsUnpruned(g, goals, live, start, v);
      if v in full.order {
        LeastWalkUnique(g.Relation(), start, v, pruned.path[v], full.path[v]);
        SameParent(g, live, all, start, maxDepth, pruned, full, v);
      }
    } else if v in pruned.order && v != start {
      FoundParent(g, live, start, maxDepth, pruned, v);
    }
  }

  lemma SameParent<W>(g: Graph<W>, live: seq<bool>, all: seq<bool>, start: nat, maxDepth: nat, pruned: State, full: State, v: nat)
    requires Found(g, live, start, maxDepth, pruned) && Found(g, all, start, maxDepth, full)
    requires v in pruned.order && v in full.order && v < g.nodes && pruned.path[v] == full.path[v]
    ensures pruned.parent[v] == full.parent[v]
  {
    if v != start {
      FoundParent(g, live, start, maxDepth, pruned, v);
      FoundParent(g, all, start, maxDepth, full, v);
      var e, f := pruned.parent[v].value, full.parent[v].value;
      PathIsWalk(g, live, start, maxDepth, pruned, g.edges[e].from);
      PathIsWalk(g, all, start, maxDepth, full, g.edges[f].from);
      hide Found, LiveRelation;
      var p, q, k := pruned.path[g.edges[e].from], full.path[g.edges[f].from], |pruned.path[v]| - 1;
      assert p == pruned.path[v][..k] && q == full.path[v][..k];
      assert g.edges[e].from == p[|p| - 1] == q[|q| - 1] == g.edges[f].from;
    }
  }
}
