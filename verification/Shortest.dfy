/** What the search finds: the least shortest path to every node within the bound. */
module Shortest {
  import opened Options
  import opened Walks
  import opened Digraph
  import opened Shortlex
  import opened Search
  import opened Finite

  /** `p` leads from `a` to `b`, and no walk is shorter or, at its length, earlier. */
  ghost predicate LeastWalk(R: set<(nat, nat)>, a: nat, b: nat, p: seq<nat>) {
    WalkFrom(R, a, b, p) && forall q :: WalkFrom(R, a, b, q) ==> AtMost(p, q)
  }

  /** Some walk from `a` to `b` has at most `depth` edges. */
  ghost predicate Within(R: set<(nat, nat)>, a: nat, b: nat, depth: nat) {
    exists q :: WalkFrom(R, a, b, q) && |q| <= depth + 1
  }

  /** `es` are the first edges, by id, along the nodes of `p`. */
  ghost predicate SpellsOut<W>(g: Graph<W>, es: seq<nat>, p: seq<nat>) {
    |p| == |es| + 1 && forall k :: 0 <= k < |es| ==> IsFirstEdge(g, es[k], p[k], p[k + 1])
  }

  ghost predicate IsFirstEdge<W>(g: Graph<W>, e: nat, from: nat, to: nat) {
    && e < |g.edges| && g.edges[e].from == from && g.edges[e].to == to
    && forall f: nat :: f < e ==> g.edges[f].from != from || g.edges[f].to != to
  }

  /** The edges of the least walk from `a` to `b`. */
  ghost predicate LeastEdges<W>(g: Graph<W>, R: set<(nat, nat)>, a: nat, b: nat, es: seq<nat>) {
    exists p :: LeastWalk(R, a, b, p) && SpellsOut(g, es, p)
  }

  lemma LeastWalkUnique(R: set<(nat, nat)>, a: nat, b: nat, p: seq<nat>, q: seq<nat>)
    requires LeastWalk(R, a, b, p) && LeastWalk(R, a, b, q)
    ensures p == q
  {
    Antisymmetric(p, q);
  }

  /** There is one such edge sequence at most. */
  lemma LeastEdgesUnique<W>(g: Graph<W>, R: set<(nat, nat)>, a: nat, b: nat, es: seq<nat>, fs: seq<nat>)
    requires LeastEdges(g, R, a, b, es) && LeastEdges(g, R, a, b, fs)
    ensures es == fs
  {
    var p :| LeastWalk(R, a, b, p) && SpellsOut(g, es, p);
    var q :| LeastWalk(R, a, b, q) && SpellsOut(g, fs, q);
    LeastWalkUnique(R, a, b, p, q);
    forall k | 0 <= k < |es| ensures es[k] == fs[k] {
      assert IsFirstEdge(g, es[k], p[k], p[k + 1]) && IsFirstEdge(g, fs[k], p[k], p[k + 1]);
    }
  }

  // ---- a finished search ----

  lemma FoundParent<W>(g: Graph<W>, live: seq<bool>, start: nat, maxDepth: nat, st: State, v: nat)
    requires Found(g, live, start, maxDepth, st) && v in st.order && v != start
    ensures v < g.nodes && st.parent[v].Some? && IsParent(g, live, st, st.parent[v].value, v)
    ensures g.edges[st.parent[v].value].from in st.order && |st.path[g.edges[st.parent[v].value].from]| < |st.path[v]|
  {
    assert st.order[..|st.order|] == st.order;
    assert IsParent(g, live, st, st.parent[v].value, v);
  }

  lemma {:induction false} PathIsWalk<W>(g: Graph<W>, live: seq<bool>, start: nat, maxDepth: nat, st: State, v: nat)
    requires Found(g, live, start, maxDepth, st) && v in st.order
    ensures v < g.nodes && |st.path[v]| <= maxDepth + 1 && WalkFrom(LiveRelation(g, live), start, v, st.path[v])
    decreases if v < |st.path| then |st.path[v]| else 0
  {
    if v != start {
      FoundParent(g, live, start, maxDepth, st, v);
      var e := st.parent[v].value;
      var u := g.edges[e].from;
      PathIsWalk(g, live, start, maxDepth, st, u);
      assert (u, v) in LiveRelation(g, live);
      WalkSnoc(LiveRelation(g, live), start, u, v, st.path[u]);
    }
  }

  lemma {:induction false} PathIsLeast<W>(g: Graph<W>, live: seq<bool>, start: nat, maxDepth: nat, st: State, v: nat, q: seq<nat>)
    requires Found(g, live, start, maxDepth, st) && WalkFrom(LiveRelation(g, live), start, v, q) && |q| <= maxDepth + 1
    ensures v in st.order && v < g.nodes && AtMost(st.path[v], q)
    decreases |q|
  {
    if |q| == 1 {
      assert q == [start];
      assert st.order[0] in st.order;
    } else {
      var R, u, r := LiveRelation(g, live), q[|q| - 2], q[..|q| - 1];
      WalkInit(R, start, v, q);
      PathIsLeast(g, live, start, maxDepth, st, u, r);
      assert (u, v) in R && |st.path[u]| <= |r| <= maxDepth;
      hide LiveRelation, Parented, Ordered, Before;
      ExtendAtMost(st.path[u], r, v);
      AtMostTransitive(st.path[v], st.path[u] + [v], q);
    }
  }

  /** The search reaches exactly the nodes within the bound, each by its least path. */
  lemma FoundExactly<W>(g: Graph<W>, live: seq<bool>, start: nat, maxDepth: nat, st: State, v: nat)
    requires Found(g, live, start, maxDepth, st)
    ensures v in st.order <==> Within(LiveRelation(g, live), start, v, maxDepth)
    ensures v in st.order ==> v < g.nodes && LeastWalk(LiveRelation(g, live), start, v, st.path[v])
  {
    var R := LiveRelation(g, live);
    if v in st.order {
      PathIsWalk(g, live, start, maxDepth, st, v);
      forall q | WalkFrom(R, start, v, q) ensures AtMost(st.path[v], q) {
        if |q| <= maxDepth + 1 {
          PathIsLeast(g, live, start, maxDepth, st, v, q);
        }
      }
    }
    if Within(R, start, v, maxDepth) {
      var q :| WalkFrom(R, start, v, q) && |q| <= maxDepth + 1;
      PathIsLeast(g, live, start, maxDepth, st, v, q);
    }
  }

  // ---- walking back ----

  ghost predicate BfsResult<W>(g: Graph<W>, live: seq<bool>, start: nat, maxDepth: nat, parent: seq<Option<nat>>, st: State) {
    && |parent| == g.nodes
    && (start < g.nodes ==> Found(g, live, start, maxDepth, st) && st.parent == parent)
    && (start >= g.nodes ==> forall v: nat :: v < g.nodes ==> parent[v] == None)
  }

  /** `back`, reversed, spells out the path of `goal` from position `at` on. */
  ghost predicate BackTrail<W>(g: Graph<W>, st: State, goal: nat, at: nat, back: seq<nat>)
    requires at < |st.path| && goal < |st.path|
  {
    var p := st.path[goal];
    && |p| == |st.path[at]| + |back| && |st.path[at]| > 0
    && st.path[at] == p[..|st.path[at]|]
    && forall k :: 0 <= k < |back| ==> IsFirstEdge(g, back[k], p[|p| - 2 - k], p[|p| - 1 - k])
  }

  lemma BackTrailStep<W>(g: Graph<W>, live: seq<bool>, start: nat, maxDepth: nat, st: State, goal: nat, at: nat, back: seq<nat>)
    requires Found(g, live, start, maxDepth, st) && at in st.order && goal in st.order
    requires at < g.nodes && goal < g.nodes && at != start && BackTrail(g, st, goal, at, back)
    ensures st.parent[at].Some? && st.parent[at].value < |g.edges|
    ensures var e := st.parent[at].value;
            var u := g.edges[e].from;
            u in st.order && u < g.nodes && BackTrail(g, st, goal, u, back + [e]) && |st.path[u]| < |st.path[at]|
  {
    FoundParent(g, live, start, maxDepth, st, at);
    var e := st.parent[at].value;
    var u := g.edges[e].from;
    PathIsWalk(g, live, start, maxDepth, st, u);
    hide Found, LiveRelation;
    var p, n := st.path[goal], |st.path[at]|;
    assert p[..n][..n - 1] == p[..n - 1];
    assert st.path[u] == p[..n - 1];
    assert p[n - 1] == st.path[at][n - 1] == at && p[n - 2] == st.path[u][n - 2] == u;
    assert IsFirstEdge(g, e, p[n - 2], p[n - 1]);
  }

  lemma HasParent<W>(g: Graph<W>, live: seq<bool>, start: nat, maxDepth: nat, st: State, at: nat)
    requires Found(g, live, start, maxDepth, st) && at != start
    ensures at in st.order <==> at < g.nodes && st.parent[at].Some?
  {
    if at in st.order {
      FoundParent(g, live, start, maxDepth, st, at);
    }
  }

  function Reversed(s: seq<nat>): (r: seq<nat>)
    ensures |r| == |s| && forall k :: 0 <= k < |s| ==> r[k] == s[|s| - 1 - k]
  {
    if s == [] then [] else [s[|s| - 1]] + Reversed(s[..|s| - 1])
  }

  /** The edges from `start` to `goal`, in order, if the search reached `goal`. */
  method WalkBack<W>(g: Graph<W>, parent: seq<Option<nat>>, start: nat, goal: nat,
                     ghost live: seq<bool>, ghost maxDepth: nat, ghost st: State)
    returns (r: Option<seq<nat>>)
    requires BfsResult(g, live, start, maxDepth, parent, st)
    ensures start < g.nodes ==> (r.Some? <==> Within(LiveRelation(g, live), start, goal, maxDepth))
    ensures start < g.nodes && r.Some? ==> LeastEdges(g, LiveRelation(g, live), start, goal, r.value) && |r.value| <= maxDepth
    ensures start >= g.nodes ==> r == if goal == start then Some([]) else None
  {
    if start >= g.nodes {
      if goal == start {
        return Some([]);
      }
      if goal >= |parent| || parent[goal].None? {
        return None;
      }
    }
    FoundExactly(g, live, start, maxDepth, st, goal);
    var at, back := goal, [];
    while at != start
      invariant at in st.order <==> goal in st.order
      invariant goal !in st.order ==> at == goal
      invariant goal in st.order ==> at < g.nodes && goal < g.nodes && BackTrail(g, st, goal, at, back)
      decreases if at in st.order && at < |st.path| then |st.path[at]| else 0
    {
      HasParent(g, live, start, maxDepth, st, at);
      if at >= |parent| || parent[at].None? {
        return None;
      }
      BackTrailStep(g, live, start, maxDepth, st, goal, at, back);
      var e := parent[at].value;
      back := back + [e];
      at := g.edges[e].from;
    }
    var es := Reversed(back);
    TrailDone(g, live, start, maxDepth, st, goal, back);
    return Some(es);
  }

  lemma TrailDone<W>(g: Graph<W>, live: seq<bool>, start: nat, maxDepth: nat, st: State, goal: nat, back: seq<nat>)
    requires Found(g, live, start, maxDepth, st) && goal in st.order && goal < g.nodes
    requires BackTrail(g, st, goal, start, back)
    ensures LeastEdges(g, LiveRelation(g, live), start, goal, Reversed(back)) && |back| <= maxDepth
  {
    FoundExactly(g, live, start, maxDepth, st, goal);
    PathIsWalk(g, live, start, maxDepth, st, goal);
    var p, es := st.path[goal], Reversed(back);
    assert |p| == |back| + 1;
    hide Found, LeastWalk, LiveRelation, Within, WalkFrom, IsFirstEdge;
    forall k | 0 <= k < |es| ensures IsFirstEdge(g, es[k], p[k], p[k + 1]) {
      var j := |back| - 1 - k;
      assert IsFirstEdge(g, back[j], p[|p| - 2 - j], p[|p| - 1 - j]);
    }
    assert SpellsOut(g, es, p);
  }
}
