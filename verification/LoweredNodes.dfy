/** Which nodes of a syntax tree the arena has, and where. */
module LoweredNodes {
  import opened Options
  import opened Lowering

  /** A child and everything below it, each before what is below it. */
  function Preorder(c: Child): seq<Child>
    decreases c, 1
  {
    PreorderTree(c, c.tree)
  }

  function PreorderTree(c: Child, t: Tree): seq<Child>
    decreases t, 0
  {
    [c] + PreorderAll(t.children)
  }

  function PreorderAll(cs: seq<Child>): seq<Child>
    decreases cs
  {
    if cs == [] then [] else PreorderAll(cs[..|cs| - 1]) + Preorder(cs[|cs| - 1])
  }

  /** Those that stand for something: named ones, and errors. */
  function Kept(cs: seq<Child>): seq<Child> {
    if cs == [] then []
    else
      var c := cs[|cs| - 1];
      Kept(cs[..|cs| - 1]) + if c.tree.named || c.tree.kind == Error then [c] else []
  }

  function Errors(cs: seq<Child>): seq<Child> {
    if cs == [] then []
    else
      var c := cs[|cs| - 1];
      Errors(cs[..|cs| - 1]) + if c.tree.kind == Error then [c] else []
  }

  /** The node is what is kept, and its subtree what is kept of what is below that. */
  ghost predicate StandsFor(nodes: seq<AstNode>, lo: nat, i: nat, c: Child)
    requires i < |nodes|
  {
    && nodes[i].kind == c.tree.kind && nodes[i].span == c.tree.span && nodes[i].field == c.field
    && Fills(nodes, lo, lo + i, lo + i + |Kept(Preorder(c))|)
  }

  ghost predicate Lists(nodes: seq<AstNode>, lo: nat, kept: seq<Child>) {
    |nodes| == |kept| && forall i :: 0 <= i < |nodes| ==> StandsFor(nodes, lo, i, kept[i])
  }

  lemma {:induction false} KeptConcat(a: seq<Child>, b: seq<Child>)
    ensures Kept(a + b) == Kept(a) + Kept(b) && Errors(a + b) == Errors(a) + Errors(b)
  {
    if b == [] {
      assert a + b == a;
    } else {
      assert (a + b)[..|a + b| - 1] == a + b[..|b| - 1];
      KeptConcat(a, b[..|b| - 1]);
    }
  }

  // ---- two arenas, one after the other ----

  /** No node of `b` has its parent among the nodes before `b`. */
  ghost predicate Apart(b: seq<AstNode>, lo: nat, mid: nat) {
    forall k :: 0 <= k < |b| && b[k].parent.Some? ==> b[k].parent.value < lo || mid <= b[k].parent.value
  }

  lemma FillsLeft(a: seq<AstNode>, b: seq<AstNode>, lo: nat, i: nat, e: nat)
    requires Fills(a, lo, i, e) && Apart(b, lo, lo + |a|)
    ensures Fills(a + b, lo, i, e)
  {
    forall j: nat ensures j < lo + |a| ==> ParentAt(a + b, lo, j) == ParentAt(a, lo, j)
                  ensures lo + |a| <= j && ParentAt(a + b, lo, j).Some? ==> !(i <= ParentAt(a + b, lo, j).value < e)
    {
      ParentConcat(a, b, lo, j);
    }
    hide Apart;
  }

  lemma FillsRight(a: seq<AstNode>, b: seq<AstNode>, lo: nat, i: nat, e: nat)
    requires Fills(b, lo + |a|, i, e)
    ensures Fills(a + b, lo, i, e)
  {
    assert (a + b)[|a|..] == b;
    FillsAfter(a + b, b, lo, lo + |a|, i, e);
  }

  lemma ListsConcat(a: seq<AstNode>, b: seq<AstNode>, lo: nat, x: seq<Child>, y: seq<Child>)
    requires Lists(a, lo, x) && Lists(b, lo + |a|, y) && Apart(b, lo, lo + |a|)
    ensures Lists(a + b, lo, x + y)
  {
    hide Fills, Apart, Kept, Preorder;
    forall i | 0 <= i < |a + b| ensures StandsFor(a + b, lo, i, (x + y)[i]) {
      if i < |a| {
        assert StandsFor(a, lo, i, x[i]);
        FillsLeft(a, b, lo, lo + i, lo + i + |Kept(Preorder(x[i]))|);
      } else {
        var k: nat := i - |a|;
        assert StandsFor(b, lo + |a|, k, y[k]);
        FillsRight(a, b, lo, lo + |a| + k, lo + |a| + k + |Kept(Preorder(y[k]))|);
      }
    }
  }

  lemma ArenaApart(rs: seq<Rose>, lo: nat, mid: nat, parent: Option<nat>)
    requires parent.Some? ==> parent.value < lo
    ensures Apart(ArenaAll(rs, mid, parent), lo, mid)
  {
    ArenaShaped(rs, mid, parent);
    hide ArenaAll;
  }

  // ---- the arena ----

  lemma {:induction false} ListsAll(cs: seq<Child>, lo: nat, parent: Option<nat>)
    requires parent.Some? ==> parent.value < lo
    ensures Lists(ArenaAll(CollapseAll(cs), lo, parent), lo, Kept(PreorderAll(cs)))
    decreases cs
  {
    hide Lists, ArenaAll, Collapse, Preorder, Kept, Apart;
    if cs == [] {
      NothingListed(lo, parent);
    } else {
      var init, last := cs[..|cs| - 1], cs[|cs| - 1];
      var a := ArenaAll(CollapseAll(init), lo, parent);
      ListsAll(init, lo, parent);
      ListsChild(last, lo + |a|, parent);
      ArenaConcat(CollapseAll(init), Collapse(last), lo, parent);
      ArenaApart(Collapse(last), lo, lo + |a|, parent);
      KeptConcat(PreorderAll(init), Preorder(last));
      ListsConcat(a, ArenaAll(Collapse(last), lo + |a|, parent), lo, Kept(PreorderAll(init)), Kept(Preorder(last)));
    }
  }

  lemma NothingListed(lo: nat, parent: Option<nat>)
    ensures Lists(ArenaAll([], lo, parent), lo, Kept([]))
  {
  }

  lemma {:induction false} ListsChild(c: Child, lo: nat, parent: Option<nat>)
    requires parent.Some? ==> parent.value < lo
    ensures Lists(ArenaAll(Collapse(c), lo, parent), lo, Kept(Preorder(c)))
    decreases c
  {
    ListsTree(c, c.tree, lo, parent);
    hide Lists, ArenaAll, CollapseTree, PreorderTree, Kept;
  }

  lemma {:induction false} ListsTree(c: Child, t: Tree, lo: nat, parent: Option<nat>)
    requires c.tree == t && (parent.Some? ==> parent.value < lo)
    ensures Lists(ArenaAll(CollapseTree(c.field, t), lo, parent), lo, Kept(PreorderTree(c, t)))
    decreases t
  {
    ListsAll(t.children, lo + 1, Some(lo));
    ListsAll(t.children, lo, parent);
    KeptConcat([c], PreorderAll(t.children));
    KeptOne(c);
    if Emitted(t) {
      RootListed(c, lo, parent);
    }
    hide Lists, ArenaAll, CollapseAll, PreorderAll, Kept, Emitted;
    assert [] + Kept(PreorderAll(t.children)) == Kept(PreorderAll(t.children));
  }

  lemma KeptOne(c: Child)
    ensures Kept([c]) == if Emitted(c.tree) then [c] else []
  {
    assert [c][..0] == [];
  }

  lemma RootListed(c: Child, lo: nat, parent: Option<nat>)
    requires Emitted(c.tree) && (parent.Some? ==> parent.value < lo)
    requires Lists(ArenaAll(CollapseAll(c.tree.children), lo + 1, Some(lo)), lo + 1, Kept(PreorderAll(c.tree.children)))
    ensures Lists(ArenaAll(CollapseTree(c.field, c.tree), lo, parent), lo, [c] + Kept(PreorderAll(c.tree.children)))
  {
    var inner, kept := ArenaAll(CollapseAll(c.tree.children), lo + 1, Some(lo)), Kept(PreorderAll(c.tree.children));
    var all := ArenaAll(CollapseTree(c.field, c.tree), lo, parent);
    hide *;
    RootArena(c, lo, parent);
    KeptBelow(c);
    SameLength(inner, lo + 1, kept);
    RootStands(c, all, lo);
    forall i: nat | i < |inner| ensures StandsFor(all, lo, i + 1, kept[i]) {
      BelowStands(all, inner, lo, kept, i);
    }
    ListsCons(all, lo, c, kept);
  }

  lemma SameLength(nodes: seq<AstNode>, lo: nat, kept: seq<Child>)
    requires Lists(nodes, lo, kept)
    ensures |nodes| == |kept|
  {
  }

  lemma ListsCons(all: seq<AstNode>, lo: nat, c: Child, kept: seq<Child>)
    requires |all| == 1 + |kept| && StandsFor(all, lo, 0, c) && forall i: nat :: i < |kept| ==> StandsFor(all, lo, i + 1, kept[i])
    ensures Lists(all, lo, [c] + kept)
  {
    hide StandsFor;
    forall i | 0 <= i < |all| ensures StandsFor(all, lo, i, ([c] + kept)[i]) {
      if i > 0 {
        assert StandsFor(all, lo, (i - 1) + 1, kept[i - 1]);
      }
    }
  }

  lemma KeptBelow(c: Child)
    requires Emitted(c.tree)
    ensures Kept(Preorder(c)) == [c] + Kept(PreorderAll(c.tree.children))
  {
    KeptConcat([c], PreorderAll(c.tree.children));
    KeptOne(c);
    assert Preorder(c) == [c] + PreorderAll(c.tree.children);
    hide Kept, PreorderAll;
  }

  lemma RootStands(c: Child, all: seq<AstNode>, lo: nat)
    requires |all| == |Kept(Preorder(c))| > 0 && Rooted(all, lo)
    requires all[0].kind == c.tree.kind && all[0].span == c.tree.span && all[0].field == c.field
    ensures StandsFor(all, lo, 0, c)
  {
    var none: seq<AstNode> := [];
    assert none + all == all;
    FillsWhole(none, all, lo);
    hide Kept, Preorder, Rooted, Fills;
  }

  lemma BelowStands(all: seq<AstNode>, inner: seq<AstNode>, lo: nat, kept: seq<Child>, i: nat)
    requires |all| > 0 && all[1..] == inner && Lists(inner, lo + 1, kept) && i < |inner|
    ensures |inner| == |kept| && StandsFor(all, lo, i + 1, kept[i])
  {
    hide Kept, Preorder, Fills;
    assert StandsFor(inner, lo + 1, i, kept[i]);
    assert all == [all[0]] + inner && all[i + 1] == inner[i];
    FillsRight([all[0]], inner, lo, lo + 1 + i, lo + 1 + i + |Kept(Preorder(kept[i]))|);
  }

  lemma RootArena(c: Child, lo: nat, parent: Option<nat>)
    requires Emitted(c.tree)
    ensures var all := ArenaAll(CollapseTree(c.field, c.tree), lo, parent);
            && |all| > 0 && all[0].kind == c.tree.kind && all[0].span == c.tree.span && all[0].field == c.field
            && all[1..] == ArenaAll(CollapseAll(c.tree.children), lo + 1, Some(lo)) && Rooted(all, lo)
  {
    var r := Rose(c.tree.kind, c.tree.span, c.field, CollapseAll(c.tree.children));
    TreeNext(r, lo, parent);
    TreeShaped(r, lo, parent);
    var rs := [r];
    assert CollapseTree(c.field, c.tree) == rs && rs[..0] == [] && rs[0] == r;
    hide Rooted, Shaped, CollapseAll;
    assert ArenaAll([], lo, parent) + Arena(r, lo, parent) == Arena(r, lo, parent);
  }

  lemma {:induction false} ErrorsCount(cs: seq<Child>)
    ensures ErrorsInAll(cs) == |Errors(PreorderAll(cs))|
    decreases cs
  {
    if cs != [] {
      var init, last := cs[..|cs| - 1], cs[|cs| - 1];
      ErrorsCount(init);
      ErrorsChild(last);
      hide Errors, Preorder, ErrorsInChild;
      KeptConcat(PreorderAll(init), Preorder(last));
    }
  }

  lemma {:induction false} ErrorsChild(c: Child)
    ensures ErrorsInChild(c) == |Errors(Preorder(c))|
    decreases c
  {
    ErrorsBelow(c, c.tree);
    hide Errors, PreorderTree, ErrorsIn;
  }

  lemma {:induction false} ErrorsBelow(c: Child, t: Tree)
    requires c.tree == t
    ensures ErrorsIn(t) == |Errors(PreorderTree(c, t))|
    decreases t
  {
    ErrorsCount(t.children);
    KeptConcat([c], PreorderAll(t.children));
    assert [c][..0] == [];
    hide PreorderAll, ErrorsInAll;
  }

  /** Of every tree: the arena has, in the order they stand in it, exactly the named nodes and the errors,
      each with its kind, span and field, and as many nodes below it as are kept of what is below it. */
  lemma ArenaIs(root: Tree)
    ensures Lists(ArenaAll(CollapseTree(None, root), 0, None), 0, Kept(Preorder(Child(None, root))))
    ensures ErrorsIn(root) == |Errors(Preorder(Child(None, root)))|
  {
    var c := Child(None, root);
    ListsTree(c, root, 0, None);
    ErrorsBelow(c, root);
    hide Lists, ArenaAll, CollapseTree, PreorderTree, Kept, Errors;
  }
}
