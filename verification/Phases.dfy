/** The strongest phase of the entry points that reach each symbol. */
module Phases {
  import opened Options
  import opened Finite
  import opened Walks
  import opened Digraph

  /** Weakest to strongest. */
  datatype ExecutionPhase = Runtime | Import | Install {
    function Rank(): nat {
      match this
      case Runtime => 0
      case Import => 1
      case Install => 2
    }
  }

  function Stronger(p: ExecutionPhase, q: ExecutionPhase): ExecutionPhase {
    if p.Rank() > q.Rank() then p else q
  }

  datatype PhaseRoot = PhaseRoot(phase: ExecutionPhase, symbol: nat)

  type Phased = map<nat, ExecutionPhase>

  // ---- the nodes of the call graph ----

  /** One node per symbol: node `v` stands for `symbols[v]`. */
  class CallNodes {
    var symbols: seq<nat>
    var bySymbol: map<nat, nat>

    ghost predicate Valid()
      reads this
    {
      OneToOne(symbols, bySymbol)
    }

    constructor ()
      ensures Valid() && symbols == []
    {
      symbols, bySymbol := [], map[];
    }

    /** Idempotent per symbol: a known symbol keeps its node. */
    method AddNode(symbol: nat) returns (node: nat)
      requires Valid()
      modifies this
      ensures Valid() && node < |symbols| && symbols[node] == symbol
      ensures symbols == if symbol in old(symbols) then old(symbols) else old(symbols) + [symbol]
    {
      if symbol in bySymbol {
        return bySymbol[symbol];
      }
      node := |symbols|;
      symbols := symbols + [symbol];
      bySymbol := bySymbol[symbol := node];
    }
  }

  ghost predicate OneToOne(symbols: seq<nat>, bySymbol: map<nat, nat>) {
    && (forall v :: 0 <= v < |symbols| ==> symbols[v] in bySymbol && bySymbol[symbols[v]] == v)
    && (forall s :: s in bySymbol ==> bySymbol[s] < |symbols| && symbols[bySymbol[s]] == s)
  }

  datatype CallGraph<+W> = CallGraph(graph: Graph<W>, symbols: seq<nat>, bySymbol: map<nat, nat>) {
    ghost predicate Valid() {
      graph.Valid() && |symbols| == graph.nodes && OneToOne(symbols, bySymbol)
    }
  }

  // ---- what a phase map must be ----

  /** Symbol `s` runs when `r` does. */
  ghost predicate Reaches<W>(calls: CallGraph<W>, r: nat, s: nat) {
    r == s || (r in calls.bySymbol && s in calls.bySymbol && Reach(calls.graph.Relation(), calls.bySymbol[r], calls.bySymbol[s]))
  }

  /** Some root of phase `p` reaches `s`. */
  ghost predicate ReachedAt<W>(calls: CallGraph<W>, roots: seq<PhaseRoot>, s: nat, p: ExecutionPhase) {
    exists r :: r in roots && r.phase == p && Reaches(calls, r.symbol, s)
  }

  /** `m` holds exactly the reached symbols, each at the maximum phase over the roots reaching it. */
  ghost predicate IsPhaseMap<W>(calls: CallGraph<W>, roots: seq<PhaseRoot>, m: Phased) {
    && (forall s: nat, p :: ReachedAt(calls, roots, s, p) ==> s in m && p.Rank() <= m[s].Rank())
    && (forall s: nat :: s in m ==> ReachedAt(calls, roots, s, m[s]))
  }

  /** Every symbol of `T` raised to at least `p`. */
  function Raised(m: Phased, T: set<nat>, p: ExecutionPhase): Phased {
    map s | s in m.Keys + T :: if s !in T then m[s] else if s in m then Stronger(p, m[s]) else p
  }

  /** `T` are the symbols a root reaches. */
  ghost predicate ReachedBy<W>(calls: CallGraph<W>, symbol: nat, T: set<nat>) {
    forall s: nat :: s in T <==> Reaches(calls, symbol, s)
  }

  lemma ReachedAtSnoc<W>(calls: CallGraph<W>, roots: seq<PhaseRoot>, root: PhaseRoot, s: nat, p: ExecutionPhase)
    ensures ReachedAt(calls, roots + [root], s, p) <==>
            ReachedAt(calls, roots, s, p) || (root.phase == p && Reaches(calls, root.symbol, s))
  {
    hide Reaches;
    assert forall r :: r in roots + [root] <==> r in roots || r == root;
  }

  /** One more root: what it reaches is raised to its phase. */
  lemma NextRoot<W>(calls: CallGraph<W>, roots: seq<PhaseRoot>, root: PhaseRoot, m: Phased, T: set<nat>)
    requires IsPhaseMap(calls, roots, m) && ReachedBy(calls, root.symbol, T)
    ensures IsPhaseMap(calls, roots + [root], Raised(m, T, root.phase))
  {
    forall s: nat, p
      ensures ReachedAt(calls, roots + [root], s, p) <==>
              ReachedAt(calls, roots, s, p) || (root.phase == p && s in T)
    {
      ReachedAtSnoc(calls, roots, root, s, p);
    }
    hide ReachedAt, ReachedBy;
  }

  // ---- the map, strengthened in place ----

  class PhaseMap {
    var phaseOf: Phased

    constructor ()
      ensures phaseOf == map[]
    {
      phaseOf := map[];
    }

    method Strengthen(symbol: nat, phase: ExecutionPhase)
      modifies this
      ensures phaseOf == Raised(old(phaseOf), {symbol}, phase)
    {
      if symbol !in phaseOf {
        phaseOf := phaseOf[symbol := phase];
      }
      if phase.Rank() > phaseOf[symbol].Rank() {
        phaseOf := phaseOf[symbol := phase];
      }
    }

    /** Walks the call graph from one root, strengthening everything it reaches. */
    method Spread<W>(calls: CallGraph<W>, root: PhaseRoot) returns (ghost T: set<nat>)
      requires calls.Valid()
      modifies this
      ensures ReachedBy(calls, root.symbol, T)
      ensures phaseOf == Raised(old(phaseOf), T, root.phase)
    {
      if root.symbol !in calls.bySymbol {
        Strengthen(root.symbol, root.phase);
        T := {root.symbol};
        return;
      }
      var start := calls.bySymbol[root.symbol];
      var queue := [start];
      var seen := {root.symbol};
      Strengthen(root.symbol, root.phase);
      ghost var m0 := old(phaseOf);
      WalkStart(calls, root.symbol);
      hide *;
      while queue != []
        invariant Walking(calls, start, seen, queue, {})
        invariant phaseOf == Raised(m0, seen, root.phase)
        decreases |SymbolSet(calls)| - |seen| + |queue|
      {
        Dequeue(calls, start, seen, queue);
        var current := queue[0];
        queue := queue[1..];
        queue, seen := Visit(calls, start, current, queue, seen, root.phase, m0);
        SeenBound(calls, start, seen, queue);
      }
      T := seen;
      WalkDone(calls, root.symbol, seen);
    }

    /** Strengthens and queues the callees of `current` not seen before. */
    method Visit<W>(calls: CallGraph<W>, ghost start: nat, current: nat, queue0: seq<nat>, seen0: set<nat>, phase: ExecutionPhase,
                    ghost m0: Phased)
      returns (queue: seq<nat>, seen: set<nat>)
      requires calls.Valid() && start < calls.graph.nodes && Walking(calls, start, seen0, queue0, {current})
      requires current < calls.graph.nodes && calls.symbols[current] in seen0
      requires phaseOf == Raised(m0, seen0, phase)
      modifies this
      ensures Walking(calls, start, seen, queue, {})
      ensures phaseOf == Raised(m0, seen, phase)
      ensures |queue| + |seen0| == |queue0| + |seen|
    {
      queue, seen := queue0, seen0;
      var outgoing := OutEdges(calls.graph.edges, current);
      for i := 0 to |outgoing|
        invariant Walking(calls, start, seen, queue, {current}) && calls.symbols[current] in seen
        invariant phaseOf == Raised(m0, seen, phase)
        invariant |queue| + |seen0| == |queue0| + |seen|
        invariant AllSeen(calls, outgoing[..i], seen)
      {
        hide Walking, OutEdges, Raised, AllSeen;
        var neighbour := calls.graph.edges[outgoing[i]].to;
        AllSeenNext(calls, outgoing, i, seen);
        EdgeInRelation(calls.graph, outgoing[i]);
        queue, seen := Meet(calls, start, current, neighbour, queue, seen, phase, m0);
      }
      assert outgoing[..|outgoing|] == outgoing;
      VisitDone(calls, start, current, seen, queue);
    }

    /** Strengthens and queues one callee of `current`, unless it was seen before. */
    method Meet<W>(calls: CallGraph<W>, ghost start: nat, ghost current: nat, neighbour: nat, queue0: seq<nat>, seen0: set<nat>,
                   phase: ExecutionPhase, ghost m0: Phased)
      returns (queue: seq<nat>, seen: set<nat>)
      requires calls.Valid() && Walking(calls, start, seen0, queue0, {current})
      requires current < calls.graph.nodes && neighbour < calls.graph.nodes && (current, neighbour) in calls.graph.Relation()
      requires calls.symbols[current] in seen0 && phaseOf == Raised(m0, seen0, phase)
      modifies this
      ensures Walking(calls, start, seen, queue, {current})
      ensures seen == seen0 + {calls.symbols[neighbour]} && phaseOf == Raised(m0, seen, phase)
      ensures |queue| + |seen0| == |queue0| + |seen|
    {
      hide Walking, Raised, OneToOne;
      queue, seen := queue0, seen0;
      var symbol := calls.symbols[neighbour];
      if symbol !in seen {
        Discover(calls, start, seen, queue, current, neighbour);
        RaisedMore(m0, seen, symbol, phase);
        seen := seen + {symbol};
        Strengthen(symbol, phase);
        queue := queue + [neighbour];
      } else {
        assert seen == seen + {symbol};
      }
    }

    /** Walks from every root in turn. */
    method Build<W>(calls: CallGraph<W>, roots: seq<PhaseRoot>)
      requires calls.Valid() && phaseOf == map[]
      modifies this
      ensures IsPhaseMap(calls, roots, phaseOf)
    {
      for i := 0 to |roots|
        invariant IsPhaseMap(calls, roots[..i], phaseOf)
      {
        hide IsPhaseMap, Raised, ReachedBy;
        ghost var m := phaseOf;
        ghost var T := Spread(calls, roots[i]);
        NextRoot(calls, roots[..i], roots[i], m, T);
        assert roots[..i + 1] == roots[..i] + [roots[i]];
      }
      assert roots[..|roots|] == roots;
    }
  }

  // ---- one walk ----

  ghost function SymbolSet<W>(calls: CallGraph<W>): set<nat> {
    set s | s in calls.symbols
  }

  /** Seen symbols are reached and have nodes; queued nodes are seen; callees of seen nodes are
      seen unless queued or in `open`. */
  ghost predicate Walking<W>(calls: CallGraph<W>, start: nat, seen: set<nat>, queue: seq<nat>, open: set<nat>) {
    && |calls.symbols| == calls.graph.nodes && start < calls.graph.nodes && calls.symbols[start] in seen
    && (forall s: nat :: s in seen ==> s in calls.bySymbol && Reach(calls.graph.Relation(), start, calls.bySymbol[s]))
    && (forall v: nat :: v in queue ==> v < calls.graph.nodes && calls.symbols[v] in seen)
    && (forall e :: e in calls.graph.Relation() ==> CallerDone(calls, seen, queue, open, e))
  }

  ghost predicate CallerDone<W>(calls: CallGraph<W>, seen: set<nat>, queue: seq<nat>, open: set<nat>, e: (nat, nat)) {
    && e.0 < |calls.symbols| && e.1 < |calls.symbols|
    && (calls.symbols[e.0] in seen && e.0 !in queue && e.0 !in open ==> calls.symbols[e.1] in seen)
  }

  lemma WalkStart<W>(calls: CallGraph<W>, symbol: nat)
    requires calls.Valid() && symbol in calls.bySymbol
    ensures Walking(calls, calls.bySymbol[symbol], {symbol}, [calls.bySymbol[symbol]], {})
  {
    ReachSelf(calls.graph.Relation(), calls.bySymbol[symbol]);
  }

  lemma Dequeue<W>(calls: CallGraph<W>, start: nat, seen: set<nat>, queue: seq<nat>)
    requires calls.Valid() && Walking(calls, start, seen, queue, {}) && queue != []
    ensures Walking(calls, start, seen, queue[1..], {queue[0]})
    ensures queue[0] < calls.graph.nodes && calls.symbols[queue[0]] in seen
  {
    hide CallGraph.Valid, Graph.Relation, Reach;
    assert queue == [queue[0]] + queue[1..];
    assert queue[0] in queue;
    assert forall v: nat :: v in queue <==> v == queue[0] || v in queue[1..];
  }

  lemma Discover<W>(calls: CallGraph<W>, start: nat, seen: set<nat>, queue: seq<nat>, current: nat, neighbour: nat)
    requires calls.Valid() && Walking(calls, start, seen, queue, {current})
    requires current < calls.graph.nodes && neighbour < calls.graph.nodes && (current, neighbour) in calls.graph.Relation()
    requires calls.symbols[current] in seen
    ensures Walking(calls, start, seen + {calls.symbols[neighbour]}, queue + [neighbour], {current})
  {
    ReachStep(calls.graph.Relation(), start, current, neighbour);
    hide Graph.Relation, Reach;
    assert (queue + [neighbour])[|queue|] == neighbour;
    assert forall v: nat :: v in queue ==> v in queue + [neighbour];
    assert calls.bySymbol[calls.symbols[neighbour]] == neighbour;
  }

  ghost predicate AllSeen<W>(calls: CallGraph<W>, ids: seq<nat>, seen: set<nat>)
    requires calls.Valid() && forall k :: 0 <= k < |ids| ==> ids[k] < |calls.graph.edges|
  {
    forall k :: 0 <= k < |ids| ==> calls.symbols[calls.graph.edges[ids[k]].to] in seen
  }

  lemma AllSeenNext<W>(calls: CallGraph<W>, ids: seq<nat>, i: nat, seen: set<nat>)
    requires calls.Valid() && i < |ids| && forall k :: 0 <= k < |ids| ==> ids[k] < |calls.graph.edges|
    requires AllSeen(calls, ids[..i], seen)
    ensures AllSeen(calls, ids[..i + 1], seen + {calls.symbols[calls.graph.edges[ids[i]].to]})
  {
  }

  lemma VisitDone<W>(calls: CallGraph<W>, start: nat, current: nat, seen: set<nat>, queue: seq<nat>)
    requires calls.Valid() && Walking(calls, start, seen, queue, {current})
    requires AllSeen(calls, OutEdges(calls.graph.edges, current), seen)
    ensures Walking(calls, start, seen, queue, {})
  {
    CalleesSeen(calls, current, seen);
    hide CallGraph.Valid, OutEdges, AllSeen, Graph.Relation, Reach;
  }

  lemma CalleesSeen<W>(calls: CallGraph<W>, current: nat, seen: set<nat>)
    requires calls.Valid() && AllSeen(calls, OutEdges(calls.graph.edges, current), seen)
    ensures forall e :: e in calls.graph.Relation() && e.0 == current && e.1 < |calls.symbols| ==> calls.symbols[e.1] in seen
  {
    forall e | e in calls.graph.Relation() && e.0 == current && e.1 < |calls.symbols| ensures calls.symbols[e.1] in seen {
      var k :| 0 <= k < |calls.graph.edges| && e == (calls.graph.edges[k].from, calls.graph.edges[k].to);
      assert k in OutEdges(calls.graph.edges, current);
    }
  }

  lemma RaisedMore(m: Phased, T: set<nat>, s: nat, p: ExecutionPhase)
    requires s !in T
    ensures Raised(Raised(m, T, p), {s}, p) == Raised(m, T + {s}, p)
  {
  }

  lemma SeenBound<W>(calls: CallGraph<W>, start: nat, seen: set<nat>, queue: seq<nat>)
    requires calls.Valid() && Walking(calls, start, seen, queue, {})
    ensures |SymbolSet(calls)| >= |seen|
  {
    hide Reach, Graph.Relation;
    assert seen <= SymbolSet(calls);
    SubsetSize(seen, SymbolSet(calls));
  }

  lemma WalkDone<W>(calls: CallGraph<W>, symbol: nat, seen: set<nat>)
    requires calls.Valid() && symbol in calls.bySymbol && Walking(calls, calls.bySymbol[symbol], seen, [], {})
    ensures ReachedBy(calls, symbol, seen)
  {
    var start := calls.bySymbol[symbol];
    var S := set v: nat | v in UpTo(calls.graph.nodes) && calls.symbols[v] in seen;
    ValidBounds(calls.graph);
    assert Closed(calls.graph.Relation(), S);
    forall s: nat | Reaches(calls, symbol, s) ensures s in seen {
      if s != symbol {
        ReachStaysClosed(calls.graph.Relation(), S, start, calls.bySymbol[s]);
      }
    }
  }

  // ---- what the map means ----

  /** Holds every root at least at its phase, and passes phases on along calls. */
  ghost predicate AboveRoots<W>(calls: CallGraph<W>, roots: seq<PhaseRoot>, m: Phased) {
    && (forall r :: r in roots ==> r.symbol in m && r.phase.Rank() <= m[r.symbol].Rank())
    && (forall s: nat, t: nat :: Calls(calls, s, t) && s in m ==> t in m && m[s].Rank() <= m[t].Rank())
  }

  /** An edge of the call graph, by the symbols of its ends. */
  ghost predicate Calls<W>(calls: CallGraph<W>, s: nat, t: nat) {
    s in calls.bySymbol && t in calls.bySymbol && (calls.bySymbol[s], calls.bySymbol[t]) in calls.graph.Relation()
  }

  /** The phase map is above the roots and closed under calls, and the least such map. */
  lemma LeastAboveRoots<W>(calls: CallGraph<W>, roots: seq<PhaseRoot>, m: Phased)
    requires calls.Valid() && IsPhaseMap(calls, roots, m)
    ensures AboveRoots(calls, roots, m)
    ensures forall k: Phased, s: nat :: AboveRoots(calls, roots, k) && s in m ==> s in k && m[s].Rank() <= k[s].Rank()
  {
    forall r | r in roots ensures r.symbol in m && r.phase.Rank() <= m[r.symbol].Rank() {
      assert ReachedAt(calls, roots, r.symbol, r.phase);
    }
    forall s: nat, t: nat | Calls(calls, s, t) && s in m ensures t in m && m[s].Rank() <= m[t].Rank() {
      CalleeReached(calls, roots, s, t, m[s]);
    }
    forall k: Phased, s: nat | AboveRoots(calls, roots, k) && s in m ensures s in k && m[s].Rank() <= k[s].Rank() {
      hide AboveRoots;
      var r :| r in roots && r.phase == m[s] && Reaches(calls, r.symbol, s);
      AboveReached(calls, roots, k, r, s);
    }
  }

  lemma CalleeReached<W>(calls: CallGraph<W>, roots: seq<PhaseRoot>, s: nat, t: nat, p: ExecutionPhase)
    requires Calls(calls, s, t) && ReachedAt(calls, roots, s, p)
    ensures ReachedAt(calls, roots, t, p)
  {
    var r :| r in roots && r.phase == p && Reaches(calls, r.symbol, s);
    ReachSelf(calls.graph.Relation(), calls.bySymbol[s]);
    ReachStep(calls.graph.Relation(), calls.bySymbol[r.symbol], calls.bySymbol[s], calls.bySymbol[t]);
    assert Reaches(calls, r.symbol, t);
  }

  lemma AboveReached<W>(calls: CallGraph<W>, roots: seq<PhaseRoot>, k: Phased, r: PhaseRoot, s: nat)
    requires calls.Valid() && AboveRoots(calls, roots, k) && r in roots && Reaches(calls, r.symbol, s)
    ensures s in k && r.phase.Rank() <= k[s].Rank()
  {
    if r.symbol != s {
      var p :| WalkFrom(calls.graph.Relation(), calls.bySymbol[r.symbol], calls.bySymbol[s], p);
      AboveAlong(calls, roots, k, r, p);
    }
  }

  lemma {:induction false} AboveAlong<W>(calls: CallGraph<W>, roots: seq<PhaseRoot>, k: Phased, r: PhaseRoot, p: seq<nat>)
    requires calls.Valid() && AboveRoots(calls, roots, k) && r in roots && r.symbol in calls.bySymbol
    requires IsWalk(calls.graph.Relation(), p) && p[0] == calls.bySymbol[r.symbol]
    ensures p[|p| - 1] < |calls.symbols|
    ensures var s := calls.symbols[p[|p| - 1]]; s in k && r.phase.Rank() <= k[s].Rank()
    decreases |p|
  {
    if |p| > 1 {
      var u, v := p[|p| - 2], p[|p| - 1];
      WalkInit(calls.graph.Relation(), p[0], v, p);
      AboveAlong(calls, roots, k, r, p[..|p| - 1]);
      ValidBounds(calls.graph);
      assert Calls(calls, calls.symbols[u], calls.symbols[v]);
    }
  }

  /** Only which roots there are matters, not their order or how often they are listed. */
  lemma RootOrderIrrelevant<W>(calls: CallGraph<W>, roots: seq<PhaseRoot>, again: seq<PhaseRoot>, m: Phased, k: Phased)
    requires IsPhaseMap(calls, roots, m) && IsPhaseMap(calls, again, k)
    requires forall r :: r in roots <==> r in again
    ensures m == k
  {
    forall s: nat, p ensures ReachedAt(calls, roots, s, p) <==> ReachedAt(calls, again, s, p) {
    }
    hide ReachedAt;
    forall s: nat ensures s in m <==> s in k {
      assert s in m ==> ReachedAt(calls, roots, s, m[s]);
      assert s in k ==> ReachedAt(calls, roots, s, k[s]);
    }
    forall s: nat | s in m ensures m[s] == k[s] {
      assert ReachedAt(calls, roots, s, m[s]) && ReachedAt(calls, roots, s, k[s]);
    }
  }
}
