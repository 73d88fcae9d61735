/** Lowering a syntax tree into an arena with an explicit stack: the arena is the pre-order of the
    tree of emitted nodes. */
module Lowering {
  import opened Options

  datatype AstKind = ModuleKind | FunctionDef | ClassDef | Lambda | Error | Other(code: nat)

  /** A parsed node; `field` of a child is the name its parent's grammar rule gives it. */
  datatype Tree = Tree(kind: AstKind, named: bool, span: nat, children: seq<Child>)

  datatype Child = Child(field: Option<string>, tree: Tree)

  datatype AstNode = AstNode(id: nat, kind: AstKind, span: nat, parent: Option<nat>, children: seq<nat>, field: Option<string>)

  /** Punctuation is left out; errors never are. */
  predicate Emitted(t: Tree) {
    t.named || t.kind == Error
  }

  // ---- the tree of emitted nodes ----

  datatype Rose = Rose(kind: AstKind, span: nat, field: Option<string>, children: seq<Rose>)

  /** What is left of a subtree when nodes not emitted give way to their children. */
  function Collapse(c: Child): seq<Rose>
    decreases c, 1
  {
    CollapseTree(c.field, c.tree)
  }

  function CollapseTree(field: Option<string>, t: Tree): seq<Rose>
    decreases t, 0
  {
    if Emitted(t) then [Rose(t.kind, t.span, field, CollapseAll(t.children))] else CollapseAll(t.children)
  }

  function CollapseAll(cs: seq<Child>): seq<Rose>
    decreases cs
  {
    if cs == [] then [] else CollapseAll(cs[..|cs| - 1]) + Collapse(cs[|cs| - 1])
  }

  function Size(r: Rose): (n: nat)
    ensures n > 0
    decreases r
  {
    1 + SizeAll(r.children)
  }

  function SizeAll(rs: seq<Rose>): nat
    decreases rs
  {
    if rs == [] then 0 else SizeAll(rs[..|rs| - 1]) + Size(rs[|rs| - 1])
  }

  /** Where each tree of a forest starts when the forest is laid out in pre-order from `lo`. */
  function Starts(rs: seq<Rose>, lo: nat): (ids: seq<nat>)
    ensures |ids| == |rs|
  {
    if rs == [] then [] else Starts(rs[..|rs| - 1], lo) + [lo + SizeAll(rs[..|rs| - 1])]
  }

  /** The arena of a tree in pre-order: itself, then its children's arenas one after the other. */
  function Arena(r: Rose, lo: nat, parent: Option<nat>): (nodes: seq<AstNode>)
    ensures |nodes| == Size(r)
    decreases r
  {
    [AstNode(lo, r.kind, r.span, parent, Starts(r.children, lo + 1), r.field)] + ArenaAll(r.children, lo + 1, Some(lo))
  }

  function ArenaAll(rs: seq<Rose>, lo: nat, parent: Option<nat>): (nodes: seq<AstNode>)
    ensures |nodes| == SizeAll(rs)
    decreases rs
  {
    if rs == [] then []
    else ArenaAll(rs[..|rs| - 1], lo, parent) + Arena(rs[|rs| - 1], lo + SizeAll(rs[..|rs| - 1]), parent)
  }

  // ---- the stack ----

  /** One entry of the traversal stack: a subtree and its nearest emitted ancestor. */
  datatype Frame = Frame(child: Child, parent: Option<nat>)

  function Adopt(nodes: seq<AstNode>, parent: Option<nat>, ids: seq<nat>): (r: seq<AstNode>)
    ensures |r| == |nodes|
  {
    if parent.Some? && parent.value < |nodes| then
      nodes[parent.value := nodes[parent.value].(children := nodes[parent.value].children + ids)]
    else nodes
  }

  /** The arena after a whole forest has been lowered under `parent`. */
  function Lowered(nodes: seq<AstNode>, parent: Option<nat>, rs: seq<Rose>): seq<AstNode> {
    Adopt(nodes, parent, Starts(rs, |nodes|)) + ArenaAll(rs, |nodes|, parent)
  }

  /** The arena once everything on the stack, top first, has been lowered. */
  function Finished(stack: seq<Frame>, nodes: seq<AstNode>): seq<AstNode>
    decreases stack
  {
    if stack == [] then nodes
    else
      var top := stack[|stack| - 1];
      Finished(stack[..|stack| - 1], Lowered(nodes, top.parent, Collapse(top.child)))
  }

  function Reversed(cs: seq<Child>, parent: Option<nat>): seq<Frame> {
    if cs == [] then [] else [Frame(cs[|cs| - 1], parent)] + Reversed(cs[..|cs| - 1], parent)
  }

  // ---- pushing children ----

  lemma {:induction false} SizeConcat(a: seq<Rose>, b: seq<Rose>)
    ensures SizeAll(a + b) == SizeAll(a) + SizeAll(b)
  {
    hide Size;
    if b == [] {
      assert a + b == a;
    } else {
      assert (a + b)[..|a + b| - 1] == a + b[..|b| - 1];
      SizeConcat(a, b[..|b| - 1]);
    }
  }

  lemma {:induction false} StartsConcat(a: seq<Rose>, b: seq<Rose>, lo: nat)
    ensures Starts(a + b, lo) == Starts(a, lo) + Starts(b, lo + SizeAll(a))
  {
    hide SizeAll;
    if b == [] {
      assert a + b == a;
    } else {
      assert (a + b)[..|a + b| - 1] == a + b[..|b| - 1];
      StartsConcat(a, b[..|b| - 1], lo);
      SizeConcat(a, b[..|b| - 1]);
    }
  }

  lemma {:induction false} ArenaConcat(a: seq<Rose>, b: seq<Rose>, lo: nat, parent: Option<nat>)
    ensures ArenaAll(a + b, lo, parent) == ArenaAll(a, lo, parent) + ArenaAll(b, lo + SizeAll(a), parent)
  {
    hide SizeAll, Arena;
    if b == [] {
      assert a + b == a;
    } else {
      assert (a + b)[..|a + b| - 1] == a + b[..|b| - 1];
      ArenaConcat(a, b[..|b| - 1], lo, parent);
      SizeConcat(a, b[..|b| - 1]);
    }
  }

  /** Lowering two forests one after the other is lowering them together. */
  lemma LoweredConcat(nodes: seq<AstNode>, parent: Option<nat>, a: seq<Rose>, b: seq<Rose>)
    requires parent.Some? ==> parent.value < |nodes|
    ensures Lowered(Lowered(nodes, parent, a), parent, b) == Lowered(nodes, parent, a + b)
  {
    var n := |nodes|;
    StartsConcat(a, b, n);
    ArenaConcat(a, b, n, parent);
    hide Starts, ArenaAll, SizeAll, Adopt;
    var first := Adopt(nodes, parent, Starts(a, n));
    var second := first + ArenaAll(a, n, parent);
    AdoptAppend(first, ArenaAll(a, n, parent), parent, Starts(b, |second|));
    AdoptTwice(nodes, parent, Starts(a, n), Starts(b, |second|));
    var both := Adopt(nodes, parent, Starts(a, n) + Starts(b, |second|));
    Regroup(both, ArenaAll(a, n, parent), ArenaAll(b, |second|, parent));
  }

  lemma Regroup(a: seq<AstNode>, b: seq<AstNode>, c: seq<AstNode>)
    ensures a + b + c == a + (b + c)
  {
  }

  lemma AdoptTwice(nodes: seq<AstNode>, parent: Option<nat>, a: seq<nat>, b: seq<nat>)
    ensures Adopt(Adopt(nodes, parent, a), parent, b) == Adopt(nodes, parent, a + b)
  {
    if parent.Some? && parent.value < |nodes| {
      assert nodes[parent.value].children + a + b == nodes[parent.value].children + (a + b);
    }
  }

  lemma AdoptAppend(nodes: seq<AstNode>, more: seq<AstNode>, parent: Option<nat>, ids: seq<nat>)
    requires parent.Some? ==> parent.value < |nodes|
    ensures Adopt(nodes + more, parent, ids) == Adopt(nodes, parent, ids) + more
  {
  }

  lemma LoweredNothing(nodes: seq<AstNode>, parent: Option<nat>)
    ensures Lowered(nodes, parent, []) == nodes
  {
    if parent.Some? && parent.value < |nodes| {
      assert nodes[parent.value].children + [] == nodes[parent.value].children;
    }
  }

  lemma FinishedPop(stack: seq<Frame>, top: Frame, nodes: seq<AstNode>)
    ensures Finished(stack + [top], nodes) == Finished(stack, Lowered(nodes, top.parent, Collapse(top.child)))
  {
    assert (stack + [top])[..|stack|] == stack;
    hide Lowered, Collapse;
  }

  /** Children pushed in reverse pop in source order. */
  lemma {:induction false} PushedChildren(stack: seq<Frame>, nodes: seq<AstNode>, cs: seq<Child>, parent: Option<nat>)
    requires parent.Some? ==> parent.value < |nodes|
    ensures Finished(stack + Reversed(cs, parent), nodes) == Finished(stack, Lowered(nodes, parent, CollapseAll(cs)))
    decreases |cs|
  {
    hide *;
    PushedNext(stack, cs, parent);
    if cs == [] {
      LoweredNothing(nodes, parent);
    } else {
      var last := |cs| - 1;
      var top := Frame(cs[last], parent);
      PushedChildren(stack + [top], nodes, cs[..last], parent);
      FinishedPop(stack, top, Lowered(nodes, parent, CollapseAll(cs[..last])));
      LoweredConcat(nodes, parent, CollapseAll(cs[..last]), Collapse(cs[last]));
    }
  }

  lemma PushedNext(stack: seq<Frame>, cs: seq<Child>, parent: Option<nat>)
    ensures cs == [] ==> stack + Reversed(cs, parent) == stack && CollapseAll(cs) == []
    ensures cs != [] ==> stack + Reversed(cs, parent) == stack + [Frame(cs[|cs| - 1], parent)] + Reversed(cs[..|cs| - 1], parent)
    ensures cs != [] ==> CollapseAll(cs) == CollapseAll(cs[..|cs| - 1]) + Collapse(cs[|cs| - 1])
  {
    hide Collapse;
  }

  /** What one turn of the loop does to the arena and the stack. */
  lemma OneTurn(stack: seq<Frame>, nodes: seq<AstNode>, top: Frame, nodes': seq<AstNode>, parent: Option<nat>)
    requires top.parent.Some? ==> top.parent.value < |nodes|
    requires Emitted(top.child.tree) ==>
      nodes' == Adopt(nodes + [AstNode(|nodes|, top.child.tree.kind, top.child.tree.span, top.parent, [], top.child.field)], top.parent, [|nodes|])
      && parent == Some(|nodes|)
    requires !Emitted(top.child.tree) ==> nodes' == nodes && parent == top.parent
    ensures Finished(stack + Reversed(top.child.tree.children, parent), nodes') == Finished(stack + [top], nodes)
  {
    var t := top.child.tree;
    PushedChildren(stack, nodes', t.children, parent);
    FinishedPop(stack, top, nodes);
    assert Collapse(top.child) == CollapseTree(top.child.field, t);
    if Emitted(t) {
      EmittedTurn(nodes, top, CollapseAll(t.children));
    }
    hide Lowered, CollapseAll, Finished, Collapse, Adopt;
  }

  lemma EmittedTurn(nodes: seq<AstNode>, top: Frame, inner: seq<Rose>)
    requires top.parent.Some? ==> top.parent.value < |nodes|
    ensures var t := top.child.tree;
            var one := Adopt(nodes + [AstNode(|nodes|, t.kind, t.span, top.parent, [], top.child.field)], top.parent, [|nodes|]);
            Lowered(one, Some(|nodes|), inner) == Lowered(nodes, top.parent, [Rose(t.kind, t.span, top.child.field, inner)])
  {
    var t, n := top.child.tree, |nodes|;
    var r := Rose(t.kind, t.span, top.child.field, inner);
    var leaf := AstNode(n, t.kind, t.span, top.parent, [], top.child.field);
    assert [r][..0] == [];
    assert Starts([r], n) == [n];
    assert ArenaAll([r], n, top.parent) == Arena(r, n, top.parent);
    hide ArenaAll, Starts, SizeAll;
    var one := Adopt(nodes + [leaf], top.parent, [n]);
    assert one == Adopt(nodes, top.parent, [n]) + [leaf];
    var filled := leaf.(children := Starts(inner, n + 1));
    assert [] + Starts(inner, n + 1) == Starts(inner, n + 1);
    assert Adopt(one, Some(n), Starts(inner, n + 1)) == Adopt(nodes, top.parent, [n]) + [filled];
  }

  // ---- counting ----

  function TreeSize(t: Tree): (n: nat)
    ensures n > 0
    decreases t, 0
  {
    1 + ChildrenSize(t.children)
  }

  function ChildSize(c: Child): nat
    decreases c, 1
  {
    TreeSize(c.tree)
  }

  function ChildrenSize(cs: seq<Child>): nat
    decreases cs
  {
    if cs == [] then 0 else ChildrenSize(cs[..|cs| - 1]) + ChildSize(cs[|cs| - 1])
  }

  /** How many error nodes the parser reported in a tree. */
  function ErrorsIn(t: Tree): nat
    decreases t, 0
  {
    (if t.kind == Error then 1 else 0) + ErrorsInAll(t.children)
  }

  function ErrorsInChild(c: Child): nat
    decreases c, 1
  {
    ErrorsIn(c.tree)
  }

  function ErrorsInAll(cs: seq<Child>): nat
    decreases cs
  {
    if cs == [] then 0 else ErrorsInAll(cs[..|cs| - 1]) + ErrorsInChild(cs[|cs| - 1])
  }

  function StackSize(stack: seq<Frame>): nat {
    if stack == [] then 0 else StackSize(stack[..|stack| - 1]) + ChildSize(stack[|stack| - 1].child)
  }

  function StackErrors(stack: seq<Frame>): nat {
    if stack == [] then 0 else StackErrors(stack[..|stack| - 1]) + ErrorsInChild(stack[|stack| - 1].child)
  }

  lemma {:induction false} CountPushed(stack: seq<Frame>, cs: seq<Child>, parent: Option<nat>)
    ensures StackSize(stack + Reversed(cs, parent)) == StackSize(stack) + ChildrenSize(cs)
    ensures StackErrors(stack + Reversed(cs, parent)) == StackErrors(stack) + ErrorsInAll(cs)
    decreases |cs|
  {
    hide Reversed, ChildSize, ErrorsInChild;
    PushedNext(stack, cs, parent);
    if cs != [] {
      var top := Frame(cs[|cs| - 1], parent);
      CountPushed(stack + [top], cs[..|cs| - 1], parent);
      assert (stack + [top])[..|stack|] == stack;
    }
  }

  // ---- the loop ----

  ghost predicate ParentsLaid(stack: seq<Frame>, n: nat) {
    forall k :: 0 <= k < |stack| ==> (stack[k].parent.Some? ==> stack[k].parent.value < n)
  }

  lemma {:induction false} ReversedParents(cs: seq<Child>, parent: Option<nat>, n: nat)
    requires parent.Some? ==> parent.value < n
    ensures ParentsLaid(Reversed(cs, parent), n)
  {
    if cs != [] {
      ReversedParents(cs[..|cs| - 1], parent, n);
    }
  }

  /** The arena so far, the stack and the count, on the way to the finished arena of `root`. */
  ghost predicate OnTheWay(root: Tree, stack: seq<Frame>, nodes: seq<AstNode>, errors: nat) {
    && ParentsLaid(stack, |nodes|)
    && Finished(stack, nodes) == ArenaAll(CollapseTree(None, root), 0, None)
    && errors + StackErrors(stack) == ErrorsIn(root)
  }

  lemma Begin(root: Tree)
    ensures OnTheWay(root, [Frame(Child(None, root), None)], [], 0)
  {
    var f := Frame(Child(None, root), None);
    FinishedPop([], f, []);
    assert [] + [f] == [f] && [f][..0] == [];
    assert Collapse(f.child) == CollapseTree(None, root);
    assert StackErrors([f]) == ErrorsIn(root);
    hide CollapseTree, ArenaAll;
  }

  lemma Turned(root: Tree, stack: seq<Frame>, nodes: seq<AstNode>, errors: nat, top: Frame, nodes': seq<AstNode>, parent: Option<nat>)
    requires OnTheWay(root, stack + [top], nodes, errors)
    requires top.parent.Some? ==> top.parent.value < |nodes|
    requires Emitted(top.child.tree) ==>
      nodes' == Adopt(nodes + [AstNode(|nodes|, top.child.tree.kind, top.child.tree.span, top.parent, [], top.child.field)], top.parent, [|nodes|])
      && parent == Some(|nodes|)
    requires !Emitted(top.child.tree) ==> nodes' == nodes && parent == top.parent
    ensures OnTheWay(root, stack + Reversed(top.child.tree.children, parent), nodes', errors + if top.child.tree.kind == Error then 1 else 0)
    ensures StackSize(stack + Reversed(top.child.tree.children, parent)) < StackSize(stack + [top])
  {
    var cs := top.child.tree.children;
    OneTurn(stack, nodes, top, nodes', parent);
    CountPushed(stack, cs, parent);
    ReversedParents(cs, parent, |nodes'|);
    assert (stack + [top])[..|stack|] == stack;
    assert StackErrors(stack + [top]) == StackErrors(stack) + ErrorsIn(top.child.tree);
    assert StackSize(stack + [top]) == StackSize(stack) + TreeSize(top.child.tree);
    forall k | 0 <= k < |stack| ensures stack[k].parent.Some? ==> stack[k].parent.value < |nodes| {
      assert (stack + [top])[k] == stack[k];
    }
    hide Finished, StackErrors, StackSize, ArenaAll, CollapseTree, Reversed;
  }

  /** Lowers a syntax tree without recursion: nesting grows the stack, not the call stack. */
  method ParsePython(root: Tree) returns (nodes: seq<AstNode>, errorCount: nat)
    ensures nodes == ArenaAll(CollapseTree(None, root), 0, None)
    ensures errorCount == ErrorsIn(root)
  {
    var stack := [Frame(Child(None, root), None)];
    nodes, errorCount := [], 0;
    Begin(root);
    while stack != []
      invariant OnTheWay(root, stack, nodes, errorCount)
      decreases StackSize(stack)
    {
      var top := stack[|stack| - 1];
      ghost var stack0, nodes0 := stack, nodes;
      assert stack == stack[..|stack| - 1] + [top];
      assert top.parent.Some? ==> top.parent.value < |nodes|;
      hide OnTheWay, StackSize;
      stack := stack[..|stack| - 1];
      var t := top.child.tree;
      var parent := top.parent;
      ghost var errors0 := errorCount;
      if Emitted(t) {
        var id := |nodes|;
        if t.kind == Error {
          errorCount := errorCount + 1;
        }
        nodes := nodes + [AstNode(id, t.kind, t.span, top.parent, [], top.child.field)];
        if top.parent.Some? {
          var p := top.parent.value;
          nodes := nodes[p := nodes[p].(children := nodes[p].children + [id])];
        }
        parent := Some(id);
      }
      Turned(root, stack, nodes0, errors0, top, nodes, parent);
      stack := PushReversed(stack, t.children, parent);
    }
  }

  method PushReversed(stack0: seq<Frame>, cs: seq<Child>, parent: Option<nat>) returns (stack: seq<Frame>)
    ensures stack == stack0 + Reversed(cs, parent)
  {
    stack := stack0;
    var i := |cs|;
    assert cs[..i] == cs;
    while i > 0
      invariant 0 <= i <= |cs|
      invariant stack + Reversed(cs[..i], parent) == stack0 + Reversed(cs, parent)
    {
      i := i - 1;
      assert cs[..i + 1][..i] == cs[..i];
      stack := stack + [Frame(cs[i], parent)];
    }
  }

  // ---- the shape of an arena ----

  /** Ids count up from `lo`; a parent is the one given or an earlier node of the arena. */
  ghost predicate Shaped(nodes: seq<AstNode>, lo: nat, parent: Option<nat>) {
    forall k :: 0 <= k < |nodes| ==> nodes[k].id == lo + k && ParentBefore(nodes[k], lo, parent)
  }

  ghost predicate ParentBefore(n: AstNode, lo: nat, parent: Option<nat>) {
    n.parent == parent || (n.parent.Some? && lo <= n.parent.value < n.id)
  }

  lemma {:induction false} ArenaShaped(rs: seq<Rose>, lo: nat, parent: Option<nat>)
    ensures Shaped(ArenaAll(rs, lo, parent), lo, parent)
    decreases rs
  {
    if rs != [] {
      var init, last := rs[..|rs| - 1], rs[|rs| - 1];
      var mid := lo + SizeAll(init);
      ArenaShaped(init, lo, parent);
      TreeShaped(last, mid, parent);
      ArenaNext(rs, lo, parent);
      hide *;
      ShapedConcat(ArenaAll(init, lo, parent), Arena(last, mid, parent), lo, parent);
    }
  }

  lemma ShapedConcat(a: seq<AstNode>, b: seq<AstNode>, lo: nat, parent: Option<nat>)
    requires Shaped(a, lo, parent) && Shaped(b, lo + |a|, parent)
    ensures Shaped(a + b, lo, parent)
  {
    forall k | 0 <= k < |a + b| ensures var n: AstNode := (a + b)[k]; n.id == lo + k && ParentBefore(n, lo, parent) {
      if k >= |a| {
        assert (a + b)[k] == b[k - |a|];
      }
    }
  }

  /** Every node but the first has its parent among those before it. */
  ghost predicate Rooted(nodes: seq<AstNode>, lo: nat) {
    forall k :: 0 < k < |nodes| ==> nodes[k].parent.Some? && lo <= nodes[k].parent.value < lo + k
  }

  lemma {:induction false} TreeShaped(r: Rose, lo: nat, parent: Option<nat>)
    ensures Shaped(Arena(r, lo, parent), lo, parent)
    ensures Rooted(Arena(r, lo, parent), lo)
    decreases r
  {
    ArenaShaped(r.children, lo + 1, Some(lo));
    hide ArenaAll, Starts, SizeAll;
    var all, inner := Arena(r, lo, parent), ArenaAll(r.children, lo + 1, Some(lo));
    assert forall k :: 0 < k < |all| ==> all[k] == inner[k - 1];
  }

  /** The parent of the node with id `j` of an arena laid out from `lo`. */
  function ParentAt(nodes: seq<AstNode>, lo: nat, j: nat): Option<nat> {
    if lo <= j < lo + |nodes| then nodes[j - lo].parent else None
  }

  /** A node's `children` are exactly the nodes naming it as parent, ascending. */
  ghost predicate Linked(nodes: seq<AstNode>, lo: nat) {
    forall k :: 0 <= k < |nodes| ==> ChildrenOf(nodes, lo, Some(lo + k), nodes[k].children)
  }

  ghost predicate ChildrenOf(nodes: seq<AstNode>, lo: nat, parent: Option<nat>, ids: seq<nat>) {
    && (forall i, j :: 0 <= i < j < |ids| ==> ids[i] < ids[j])
    && (forall c: nat :: c in ids <==> lo <= c < lo + |nodes| && ParentAt(nodes, lo, c) == parent)
  }

  /** The subtree of node `i` is the ids from `i` to `e`: every other node there has its parent
      there, and no node after it does. */
  ghost predicate Fills(nodes: seq<AstNode>, lo: nat, i: nat, e: nat) {
    && lo <= i < e <= lo + |nodes|
    && (forall j: nat :: i < j < e ==> ParentAt(nodes, lo, j).Some? && i <= ParentAt(nodes, lo, j).value < j)
    && (forall j: nat :: (e <= j && ParentAt(nodes, lo, j).Some?) ==> !(i <= ParentAt(nodes, lo, j).value < e))
  }

  /** Every subtree fills a contiguous interval of ids. */
  lemma {:induction false} SubtreeFills(rs: seq<Rose>, lo: nat, parent: Option<nat>, i: nat) returns (e: nat)
    requires (parent.Some? ==> parent.value < lo) && lo <= i < lo + SizeAll(rs)
    ensures Fills(ArenaAll(rs, lo, parent), lo, i, e)
    decreases rs
  {
    assert rs != [];
    hide *;
    ArenaNext(rs, lo, parent);
    var init, last := rs[..|rs| - 1], rs[|rs| - 1];
    var mid := lo + SizeAll(init);
    if i < mid {
      e := SubtreeFills(init, lo, parent, i);
      FillsBefore(ArenaAll(init, lo, parent), last, lo, i, e, parent);
    } else {
      e := LastFills(last, lo, mid, parent, i, ArenaAll(init, lo, parent));
    }
  }

  lemma {:induction false} LastFills(r: Rose, lo: nat, mid: nat, parent: Option<nat>, i: nat, a: seq<AstNode>) returns (e: nat)
    requires mid == lo + |a| && mid <= i < mid + Size(r)
    ensures Fills(a + Arena(r, mid, parent), lo, i, e)
    decreases r, 1
  {
    hide *;
    if i == mid {
      e := mid + Size(r);
      TreeShaped(r, mid, parent);
      FillsWhole(a, Arena(r, mid, parent), lo);
    } else {
      e := InsideTree(r, lo, mid, parent, i, a);
    }
  }

  lemma {:induction false} InsideTree(r: Rose, lo: nat, mid: nat, parent: Option<nat>, i: nat, a: seq<AstNode>) returns (e: nat)
    requires mid == lo + |a| && mid < i < mid + Size(r)
    ensures Fills(a + Arena(r, mid, parent), lo, i, e)
    decreases r, 0
  {
    TreeNext(r, mid, parent);
    hide *;
    e := SubtreeFills(r.children, mid + 1, Some(mid), i);
    var b, c := Arena(r, mid, parent), ArenaAll(r.children, mid + 1, Some(mid));
    DropFirst(a, b);
    FillsAfter(a + b, c, lo, mid + 1, i, e);
  }

  lemma TreeNext(r: Rose, lo: nat, parent: Option<nat>)
    ensures Size(r) == 1 + SizeAll(r.children) && Arena(r, lo, parent)[1..] == ArenaAll(r.children, lo + 1, Some(lo))
  {
  }

  lemma DropFirst(a: seq<AstNode>, b: seq<AstNode>)
    requires |b| > 0
    ensures (a + b)[|a| + 1..] == b[1..]
  {
  }

  lemma ArenaNext(rs: seq<Rose>, lo: nat, parent: Option<nat>)
    requires rs != []
    ensures var init, last := rs[..|rs| - 1], rs[|rs| - 1]; var mid := lo + SizeAll(init);
            && ArenaAll(rs, lo, parent) == ArenaAll(init, lo, parent) + Arena(last, mid, parent)
            && SizeAll(rs) == SizeAll(init) + Size(last) && Size(last) == 1 + SizeAll(last.children)
            && Arena(last, mid, parent)[1..] == ArenaAll(last.children, mid + 1, Some(mid))
  {
    var init, last := rs[..|rs| - 1], rs[|rs| - 1];
    var mid := lo + SizeAll(init);
    assert Arena(last, mid, parent)[1..] == ArenaAll(last.children, mid + 1, Some(mid));
  }

  lemma FillsWhole(a: seq<AstNode>, b: seq<AstNode>, lo: nat)
    requires |b| > 0 && Rooted(b, lo + |a|)
    ensures Fills(a + b, lo, lo + |a|, lo + |a| + |b|)
  {
    forall j: nat | lo + |a| < j < lo + |a| + |b| ensures ParentAt(a + b, lo, j) == b[j - lo - |a|].parent {
    }
  }

  lemma FillsBefore(a: seq<AstNode>, r: Rose, lo: nat, i: nat, e: nat, parent: Option<nat>)
    requires Fills(a, lo, i, e) && (parent.Some? ==> parent.value < lo)
    ensures Fills(a + Arena(r, lo + |a|, parent), lo, i, e)
  {
    var mid := lo + |a|;
    var b := Arena(r, mid, parent);
    TreeShaped(r, mid, parent);
    hide Arena;
    forall j: nat ensures j < mid ==> ParentAt(a + b, lo, j) == ParentAt(a, lo, j)
                  ensures mid <= j && ParentAt(a + b, lo, j).Some? ==> !(i <= ParentAt(a + b, lo, j).value < e)
    {
      ParentConcat(a, b, lo, j);
      if mid <= j < mid + |b| {
        assert ParentBefore(b[j - mid], mid, parent);
      }
    }
    hide ParentAt, Shaped, Rooted;
  }

  lemma FillsAfter(all: seq<AstNode>, c: seq<AstNode>, lo: nat, start: nat, i: nat, e: nat)
    requires lo <= start && |all| == start - lo + |c| && all[start - lo..] == c && Fills(c, start, i, e)
    ensures Fills(all, lo, i, e)
  {
    forall j: nat | start <= j ensures ParentAt(all, lo, j) == ParentAt(c, start, j) {
    }
  }

  /** The ids a forest starts at, ascending and inside its arena. */
  lemma {:induction false} StartsInside(rs: seq<Rose>, lo: nat)
    ensures forall k :: 0 <= k < |rs| ==> lo <= Starts(rs, lo)[k] < lo + SizeAll(rs)
    ensures forall j, k :: 0 <= j < k < |rs| ==> Starts(rs, lo)[j] < Starts(rs, lo)[k]
  {
    hide Size;
    if rs != [] {
      StartsInside(rs[..|rs| - 1], lo);
    }
  }

  /** The roots of a forest are the nodes of its arena with the outer parent. */
  lemma {:induction false} RootsOf(rs: seq<Rose>, lo: nat, parent: Option<nat>)
    requires parent.Some? ==> parent.value < lo
    ensures ChildrenOf(ArenaAll(rs, lo, parent), lo, parent, Starts(rs, lo))
    decreases rs
  {
    StartsInside(rs, lo);
    if rs != [] {
      var init, last := rs[..|rs| - 1], rs[|rs| - 1];
      var mid := lo + SizeAll(init);
      RootsOf(init, lo, parent);
      TreeShaped(last, mid, parent);
      var a, b := ArenaAll(init, lo, parent), Arena(last, mid, parent);
      assert b[0].parent == parent;
      hide SizeAll, Size, Arena, ArenaAll, Shaped;
      RootsConcat(a, b, lo, parent, Starts(init, lo));
      assert Starts(rs, lo) == Starts(init, lo) + [mid];
    }
  }

  lemma ParentConcat(a: seq<AstNode>, b: seq<AstNode>, lo: nat, c: nat)
    ensures ParentAt(a + b, lo, c) == if c < lo + |a| then ParentAt(a, lo, c) else ParentAt(b, lo + |a|, c)
  {
  }

  lemma RootsConcat(a: seq<AstNode>, b: seq<AstNode>, lo: nat, parent: Option<nat>, ids: seq<nat>)
    requires ChildrenOf(a, lo, parent, ids) && |b| > 0 && b[0].parent == parent && (parent.Some? ==> parent.value < lo)
    requires Rooted(b, lo + |a|)
    ensures ChildrenOf(a + b, lo, parent, ids + [lo + |a|])
  {
    var mid, all := lo + |a|, ids + [lo + |a|];
    assert forall k :: 0 <= k < |ids| ==> ids[k] in ids;
    assert forall c: nat :: c in all <==> c in ids || c == mid;
    forall c: nat ensures c in all <==> lo <= c < lo + |a + b| && ParentAt(a + b, lo, c) == parent {
      ParentConcat(a, b, lo, c);
      if mid <= c < mid + |b| {
        assert ParentAt(b, mid, c) == b[c - mid].parent;
      }
    }
  }

  lemma {:induction false} ArenaLinked(rs: seq<Rose>, lo: nat, parent: Option<nat>)
    requires parent.Some? ==> parent.value < lo
    ensures Linked(ArenaAll(rs, lo, parent), lo)
    decreases rs
  {
    if rs != [] {
      var init, last := rs[..|rs| - 1], rs[|rs| - 1];
      var mid := lo + SizeAll(init);
      ArenaLinked(init, lo, parent);
      TreeLinked(last, mid, parent);
      ArenaShaped(init, lo, parent);
      TreeShaped(last, mid, parent);
      var a, b := ArenaAll(init, lo, parent), Arena(last, mid, parent);
      hide SizeAll, Size, Arena, ArenaAll;
      LinkedConcat(a, b, lo, parent);
    }
  }

  lemma LinkedConcat(a: seq<AstNode>, b: seq<AstNode>, lo: nat, parent: Option<nat>)
    requires Linked(a, lo) && Linked(b, lo + |a|) && Shaped(a, lo, parent) && Shaped(b, lo + |a|, parent)
    requires parent.Some? ==> parent.value < lo
    ensures Linked(a + b, lo)
  {
    forall c: nat ensures ParentAt(a + b, lo, c) == if c < lo + |a| then ParentAt(a, lo, c) else ParentAt(b, lo + |a|, c) {
      ParentConcat(a, b, lo, c);
    }
    forall c: nat | c < lo + |a| ensures ParentAt(a, lo, c).Some? ==> ParentAt(a, lo, c).value < lo + |a| {
      if lo <= c {
        assert ParentBefore(a[c - lo], lo, parent);
      }
    }
    var mid := lo + |a|;
    forall c: nat ensures ParentAt(b, mid, c).Some? ==> ParentAt(b, mid, c).value < lo || mid <= ParentAt(b, mid, c).value {
      if mid <= c < mid + |b| {
        assert ParentBefore(b[c - mid], mid, parent);
      }
    }
    hide ParentAt, Shaped;
    forall k | 0 <= k < |a + b| ensures ChildrenOf(a + b, lo, Some(lo + k), (a + b)[k].children) {
      if k < |a| {
        assert ChildrenOf(a, lo, Some(lo + k), a[k].children);
      } else {
        assert ChildrenOf(b, lo + |a|, Some(lo + k), b[k - |a|].children);
      }
    }
  }

  lemma {:induction false} TreeLinked(r: Rose, lo: nat, parent: Option<nat>)
    requires parent.Some? ==> parent.value < lo
    ensures Linked(Arena(r, lo, parent), lo)
    decreases r
  {
    ArenaLinked(r.children, lo + 1, Some(lo));
    RootsOf(r.children, lo + 1, Some(lo));
    var inner := ArenaAll(r.children, lo + 1, Some(lo));
    ArenaShaped(r.children, lo + 1, Some(lo));
    var all := Arena(r, lo, parent);
    assert all == [all[0]] + inner;
    hide SizeAll, Size, Arena, ArenaAll, Starts;
    LinkedCons(all[0], inner, lo, parent);
  }

  lemma LinkedCons(head: AstNode, inner: seq<AstNode>, lo: nat, parent: Option<nat>)
    requires head.parent == parent && (parent.Some? ==> parent.value < lo)
    requires Linked(inner, lo + 1) && ChildrenOf(inner, lo + 1, Some(lo), head.children)
    ensures Linked([head] + inner, lo)
  {
    var all := [head] + inner;
    forall c: nat ensures ParentAt(all, lo, c) == if c == lo then parent else ParentAt(inner, lo + 1, c) {
      ParentConcat([head], inner, lo, c);
    }
    hide ParentAt;
    forall k | 0 <= k < |all| ensures ChildrenOf(all, lo, Some(lo + k), all[k].children) {
      if k > 0 {
        assert ChildrenOf(inner, lo + 1, Some(lo + k), inner[k - 1].children);
      }
    }
  }

  /** The lowering contract: ids are positions, parents come first, `children` are exactly the
      nodes naming the node as parent, and every subtree is an interval. */
  lemma LoweringContract(root: Tree, i: nat)
    requires i < |ArenaAll(CollapseTree(None, root), 0, None)|
    ensures var nodes := ArenaAll(CollapseTree(None, root), 0, None);
            && nodes[i].id == i && (nodes[i].parent.Some? ==> nodes[i].parent.value < i)
            && ChildrenOf(nodes, 0, Some(i), nodes[i].children)
            && exists e :: Fills(nodes, 0, i, e)
  {
    var rs := CollapseTree(None, root);
    ArenaShaped(rs, 0, None);
    ArenaLinked(rs, 0, None);
    var e := SubtreeFills(rs, 0, None, i);
    hide CollapseTree, ArenaAll, Fills, ChildrenOf;
    assert ParentBefore(ArenaAll(rs, 0, None)[i], 0, None);
  }
}
