/** The bounded backward walk that decides whether a decoder's input is a constant. */
module ConstantWalk {
  import opened Walks
  import opened Digraph
  import opened Finite
  import S = Search

  const MAX_CONSTANT_WALK: nat := 4096

  datatype FlowNodeKind = Definition | Use | Parameter | ReturnValue | CallResult | Literal

  /** The nodes that flow into `node`, itself included. */
  ghost function Closure(R: set<(nat, nat)>, n: nat, node: nat): set<nat> {
    set v: nat | v in UpTo(n) && Reach(R, v, node)
  }

  ghost predicate IsLeaf(R: set<(nat, nat)>, v: nat) {
    forall e :: e in R ==> e.1 != v
  }

  /** A leaf that is a literal or a binding without inputs, and not the starting node. */
  predicate IsConstantLeaf(kinds: seq<FlowNodeKind>, node: nat, v: nat) {
    v != node && v < |kinds| && (kinds[v].Literal? || kinds[v].Definition?)
  }

  /** Everything that flows into `node` starts at a constant, and something does. */
  ghost predicate StartsAtConstants(R: set<(nat, nat)>, kinds: seq<FlowNodeKind>, node: nat) {
    && (forall v: nat :: v in Closure(R, |kinds|, node) && IsLeaf(R, v) ==>
          v != node && v < |kinds| && (kinds[v] == Literal || kinds[v] == Definition))
    && (exists v: nat :: v in Closure(R, |kinds|, node) && IsLeaf(R, v))
  }

  /** `seen` are nodes of the closure; those not on the stack have been looked behind. */
  ghost predicate Walking(R: set<(nat, nat)>, kinds: seq<FlowNodeKind>, node: nat, seen: set<nat>, stack: seq<nat>, leaves: nat) {
    && node in seen && seen <= Closure(R, |kinds|, node)
    && (forall v: nat :: v in stack ==> v in seen) && NoDup(stack)
    && (forall e :: e in R && e.1 in seen && e.1 !in stack ==> e.0 in seen)
    && (forall v: nat :: v in seen && v !in stack && IsLeaf(R, v) ==> IsConstantLeaf(kinds, node, v))
    && (leaves > 0 <==> exists v: nat :: v in seen && v !in stack && IsLeaf(R, v))
  }

  lemma NoInputs<W>(g: Graph<W>, v: nat)
    ensures InEdges(g.edges, v) == [] <==> IsLeaf(g.Relation(), v)
  {
    var inputs := InEdges(g.edges, v);
    if inputs != [] {
      EdgeInRelation(g, inputs[0]);
    } else {
      forall e | e in g.Relation() ensures e.1 != v {
        var k :| 0 <= k < |g.edges| && e == (g.edges[k].from, g.edges[k].to);
        assert g.edges[k].to == v ==> k in inputs;
      }
    }
  }

  lemma Unstack(stack: seq<nat>)
    requires stack != [] && NoDup(stack)
    ensures var rest, v := stack[..|stack| - 1], stack[|stack| - 1];
            v !in rest && NoDup(rest) && forall x: nat :: x in stack <==> x in rest || x == v
  {
    assert stack == stack[..|stack| - 1] + [stack[|stack| - 1]];
  }

  /** Popping a leaf that is a constant. */
  lemma PopLeaf(R: set<(nat, nat)>, kinds: seq<FlowNodeKind>, node: nat, seen: set<nat>, stack: seq<nat>, leaves: nat)
    requires Walking(R, kinds, node, seen, stack, leaves) && stack != []
    requires IsLeaf(R, stack[|stack| - 1]) && IsConstantLeaf(kinds, node, stack[|stack| - 1])
    ensures Walking(R, kinds, node, seen, stack[..|stack| - 1], leaves + 1)
  {
    hide Closure;
    Unstack(stack);
    assert stack[|stack| - 1] in stack;
  }

  /** While the inputs of `v`, popped and not a leaf, are pushed. */
  ghost predicate Pushing(R: set<(nat, nat)>, kinds: seq<FlowNodeKind>, node: nat, seen: set<nat>, stack: seq<nat>, leaves: nat, v: nat) {
    && v in seen && v !in stack && !IsLeaf(R, v)
    && node in seen && seen <= Closure(R, |kinds|, node)
    && (forall x: nat :: x in stack ==> x in seen) && NoDup(stack)
    && (forall e :: e in R && e.1 in seen && e.1 !in stack && e.1 != v ==> e.0 in seen)
    && (forall x: nat :: x in seen && x !in stack && IsLeaf(R, x) ==> IsConstantLeaf(kinds, node, x))
    && (leaves > 0 <==> exists x: nat :: x in seen && x !in stack && IsLeaf(R, x))
  }

  lemma PopInner(R: set<(nat, nat)>, kinds: seq<FlowNodeKind>, node: nat, seen: set<nat>, stack: seq<nat>, leaves: nat)
    requires Walking(R, kinds, node, seen, stack, leaves) && stack != [] && !IsLeaf(R, stack[|stack| - 1])
    ensures Pushing(R, kinds, node, seen, stack[..|stack| - 1], leaves, stack[|stack| - 1])
  {
    hide Closure, IsLeaf;
    Unstack(stack);
    assert stack[|stack| - 1] in stack;
  }

  lemma PushInput(R: set<(nat, nat)>, kinds: seq<FlowNodeKind>, node: nat, seen: set<nat>, stack: seq<nat>, leaves: nat, v: nat, i: nat)
    requires Pushing(R, kinds, node, seen, stack, leaves, v) && i !in seen && (i, v) in R && i < |kinds|
    ensures Pushing(R, kinds, node, seen + {i}, stack + [i], leaves, v)
  {
    hide IsLeaf;
    assert v in Closure(R, |kinds|, node);
    ReachEdge(R, i, v);
    ReachTrans(R, i, v, node);
    assert i in Closure(R, |kinds|, node);
    hide Closure;
    assert (stack + [i])[|stack|] == i;
    assert forall x: nat :: x in stack + [i] <==> x in stack || x == i;
    forall x: nat ensures x in seen && x !in stack <==> x in seen + {i} && x !in stack + [i] {
    }
  }

  lemma PushDone(R: set<(nat, nat)>, kinds: seq<FlowNodeKind>, node: nat, seen: set<nat>, stack: seq<nat>, leaves: nat, v: nat)
    requires Pushing(R, kinds, node, seen, stack, leaves, v)
    requires forall e :: e in R && e.1 == v ==> e.0 in seen
    ensures Walking(R, kinds, node, seen, stack, leaves)
  {
    hide Closure, IsLeaf;
  }

  lemma ClosureSize(R: set<(nat, nat)>, n: nat, node: nat, seen: set<nat>)
    requires seen <= Closure(R, n, node)
    ensures |seen| <= |Closure(R, n, node)| <= n
  {
    SubsetSize(seen, Closure(R, n, node));
    SubsetSize(Closure(R, n, node), UpTo(n));
    UpToSize(n);
  }

  lemma WalkDone(R: set<(nat, nat)>, kinds: seq<FlowNodeKind>, node: nat, seen: set<nat>, leaves: nat)
    requires Walking(R, kinds, node, seen, [], leaves)
    ensures seen == Closure(R, |kinds|, node)
    ensures leaves > 0 <==> StartsAtConstants(R, kinds, node)
  {
    forall v: nat | v in Closure(R, |kinds|, node) ensures v in seen {
      ReachStaysBackClosed(R, seen, v, node);
    }
    hide Closure, IsLeaf;
  }

  /** Pushes the inputs of `v` not seen before; stops when more than the limit have been seen. */
  method PushInputs<W>(g: Graph<W>, ghost kinds: seq<FlowNodeKind>, ghost node: nat, v: nat,
                       seen0: set<nat>, stack0: seq<nat>, ghost leaves: nat)
    returns (within: bool, seen: set<nat>, stack: seq<nat>)
    requires g.Valid() && |kinds| == g.nodes && |seen0| <= MAX_CONSTANT_WALK
    requires Pushing(g.Relation(), kinds, node, seen0, stack0, leaves, v)
    ensures seen <= Closure(g.Relation(), g.nodes, node)
    ensures within <==> |seen| <= MAX_CONSTANT_WALK
    ensures within ==> Walking(g.Relation(), kinds, node, seen, stack, leaves)
    ensures within ==> |stack| + |seen0| == |stack0| + |seen|
  {
    hide Pushing, Closure, Walking, Graph.Relation;
    seen, stack := seen0, stack0;
    var inputs := InEdges(g.edges, v);
    for k := 0 to |inputs|
      invariant Pushing(g.Relation(), kinds, node, seen, stack, leaves, v)
      invariant |stack| + |seen0| == |stack0| + |seen| && |seen| <= MAX_CONSTANT_WALK
      invariant forall j :: 0 <= j < k ==> g.edges[inputs[j]].from in seen
    {
      hide InEdges;
      var i := g.edges[inputs[k]].from;
      if i !in seen {
        EdgeInRelation(g, inputs[k]);
        PushInput(g.Relation(), kinds, node, seen, stack, leaves, v, i);
        seen := seen + {i};
        stack := stack + [i];
        if |seen| > MAX_CONSTANT_WALK {
          InClosure(g.Relation(), kinds, node, seen, stack, leaves, v);
          return false, seen, stack;
        }
      }
    }
    InClosure(g.Relation(), kinds, node, seen, stack, leaves, v);
    AllInputs(g, v, seen);
    PushDone(g.Relation(), kinds, node, seen, stack, leaves, v);
    within := true;
  }

  lemma InClosure(R: set<(nat, nat)>, kinds: seq<FlowNodeKind>, node: nat, seen: set<nat>, stack: seq<nat>, leaves: nat, v: nat)
    requires Pushing(R, kinds, node, seen, stack, leaves, v)
    ensures seen <= Closure(R, |kinds|, node)
  {
  }

  lemma AllInputs<W>(g: Graph<W>, v: nat, seen: set<nat>)
    requires forall k :: 0 <= k < |InEdges(g.edges, v)| ==> g.edges[InEdges(g.edges, v)[k]].from in seen
    ensures forall e :: e in g.Relation() && e.1 == v ==> e.0 in seen
  {
    forall e | e in g.Relation() && e.1 == v ensures e.0 in seen {
      var k :| 0 <= k < |g.edges| && e == (g.edges[k].from, g.edges[k].to);
      assert k in InEdges(g.edges, v);
    }
  }

  lemma BadLeaf(R: set<(nat, nat)>, kinds: seq<FlowNodeKind>, node: nat, seen: set<nat>, stack: seq<nat>, leaves: nat, v: nat)
    requires Walking(R, kinds, node, seen, stack, leaves) && v in stack && IsLeaf(R, v) && !IsConstantLeaf(kinds, node, v)
    ensures !StartsAtConstants(R, kinds, node)
  {
    assert v in Closure(R, |kinds|, node);
  }

  /** Whether everything that flows into `node` starts at a constant: exactly that, for
      closures up to the limit, and no for larger ones. */
  method IsDecodedConstant<W>(g: Graph<W>, kinds: seq<FlowNodeKind>, node: nat) returns (r: bool)
    requires g.Valid() && |kinds| == g.nodes && node < g.nodes
    ensures r <==> StartsAtConstants(g.Relation(), kinds, node)
                   && |Closure(g.Relation(), g.nodes, node)| <= MAX_CONSTANT_WALK
  {
    ghost var R := g.Relation();
    var seen: set<nat>, stack := {node}, [node];
    var leaves := 0;
    ReachSelf(R, node);
    while stack != []
      invariant Walking(R, kinds, node, seen, stack, leaves) && |seen| <= MAX_CONSTANT_WALK
      invariant seen <= Closure(R, g.nodes, node)
      decreases g.nodes - |seen| + |stack|
    {
      hide Walking, Graph.Relation, InEdges, StartsAtConstants, Closure, Pushing, Graph.Valid, IsLeaf;
      var n := stack[|stack| - 1];
      assert n in stack;
      NoInputs(g, n);
      ClosureSize(R, g.nodes, node, seen);
      if InEdges(g.edges, n) == [] {
        if !IsConstantLeaf(kinds, node, n) {
          BadLeaf(R, kinds, node, seen, stack, leaves, n);
          return false;
        }
        PopLeaf(R, kinds, node, seen, stack, leaves);
        stack := stack[..|stack| - 1];
        leaves := leaves + 1;
      } else {
        PopInner(R, kinds, node, seen, stack, leaves);
        var within;
        ghost var seen0 := seen;
        within, seen, stack := PushInputs(g, kinds, node, n, seen, stack[..|stack| - 1], leaves);
        ClosureSize(R, g.nodes, node, seen);
        if !within {
          return false;
        }
      }
    }
    WalkDone(R, kinds, node, seen, leaves);
    return leaves > 0;
  }
}
