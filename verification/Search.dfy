/** The bounded breadth-first search: every node found carries its least path, parent edge last. */
module Search {
  import opened Options
  import opened Walks
  import opened Digraph
  import opened Shortlex
  import opened Finite

  // ---- sorted adjacency ----

  predicate EdgeBefore<W>(edges: seq<Edge<W>>, a: nat, b: nat)
    requires a < |edges| && b < |edges|
  {
    edges[a].to < edges[b].to || (edges[a].to == edges[b].to && a < b)
  }

  predicate InBounds(r: seq<nat>, n: nat) {
    forall k :: 0 <= k < |r| ==> r[k] < n
  }

  ghost predicate EdgesSorted<W>(edges: seq<Edge<W>>, r: seq<nat>)
    requires InBounds(r, |edges|)
  {
    forall j, k :: 0 <= j < k < |r| ==> EdgeBefore(edges, r[j], r[k])
  }

  function InsertEdge<W>(edges: seq<Edge<W>>, r: seq<nat>, e: nat): (s: seq<nat>)
    requires e < |edges| && e !in r && InBounds(r, |edges|) && EdgesSorted(edges, r)
    ensures InBounds(s, |edges|) && EdgesSorted(edges, s)
    ensures forall x: nat :: x in s <==> x == e || x in r
  {
    if r == [] || EdgeBefore(edges, e, r[0]) then [e] + r
    else
      var rest := InsertEdge(edges, r[1..], e);
      assert forall k :: 0 <= k < |rest| ==> rest[k] in rest;
      [r[0]] + rest
  }

  /** The edges out of `v` into permitted nodes below edge id `m`, by target and then by id. */
  function NextEdges<W>(edges: seq<Edge<W>>, live: seq<bool>, v: nat, m: nat): (r: seq<nat>)
    requires m <= |edges|
    ensures InBounds(r, |edges|) && EdgesSorted(edges, r)
    ensures forall e: nat :: e in r <==> e < m && edges[e].from == v && edges[e].to < |live| && live[edges[e].to]
  {
    if m == 0 then []
    else
      var rest := NextEdges(edges, live, v, m - 1);
      if edges[m - 1].from == v && edges[m - 1].to < |live| && live[edges[m - 1].to]
      then InsertEdge(edges, rest, m - 1)
      else rest
  }

  /** The relation of the edges into permitted nodes. */
  ghost function LiveRelation<W>(g: Graph<W>, live: seq<bool>): set<(nat, nat)> {
    set i | 0 <= i < |g.edges| && g.edges[i].to < |live| && live[g.edges[i].to] :: (g.edges[i].from, g.edges[i].to)
  }

  // ---- the state of a search ----

  /** Nodes in discovery order, the edge each was first reached by, and the path that spells out. */
  datatype State = State(order: seq<nat>, parent: seq<Option<nat>>, path: seq<seq<nat>>)

  /** `e` is the first edge along which the path of its source extends to the path of `v`. */
  ghost predicate IsParent<W>(g: Graph<W>, live: seq<bool>, st: State, e: nat, v: nat) {
    && e < |g.edges| && g.edges[e].to == v && v < |live| && live[v]
    && v < |st.path| && g.edges[e].from < |st.path| && st.path[v] == st.path[g.edges[e].from] + [v]
    && forall f: nat :: f < e ==> g.edges[f].from != g.edges[e].from || g.edges[f].to != v
  }

  ghost predicate Ordered(n: nat, start: nat, maxDepth: nat, st: State) {
    && |st.parent| == |st.path| == n && start < n
    && |st.order| > 0 && st.order[0] == start && st.path[start] == [start] && st.parent[start] == None
    && InBounds(st.order, n)
    && (forall i, j :: 0 <= i < j < |st.order| ==> Before(st.path[st.order[i]], st.path[st.order[j]]))
    && (forall v: nat :: v in st.order ==> 0 < |st.path[v]| <= maxDepth + 1)
    && (forall v: nat :: v < n && v !in st.order ==> st.parent[v] == None)
  }

  /** Every discovered node but the start was reached from one of the first `m` nodes. */
  ghost predicate Parented<W>(g: Graph<W>, live: seq<bool>, start: nat, st: State, m: nat)
    requires m <= |st.order| && |st.parent| == |st.path| == g.nodes
  {
    forall v: nat :: v in st.order && v != start && v < g.nodes ==>
      && st.parent[v].Some? && IsParent(g, live, st, st.parent[v].value, v)
      && g.edges[st.parent[v].value].from in st.order[..m]
  }

  /** Every explored edge leads to a node whose path is no worse than going along that edge. */
  ghost predicate Explored(n: nat, D: set<(nat, nat)>, st: State)
    requires |st.path| == n
  {
    forall e :: e in D ==> e.0 in st.order && e.1 in st.order && e.0 < n && e.1 < n
                           && AtMost(st.path[e.1], st.path[e.0] + [e.1])
  }

  ghost predicate Searched<W>(g: Graph<W>, live: seq<bool>, start: nat, maxDepth: nat, st: State, m: nat, D: set<(nat, nat)>) {
    && Ordered(g.nodes, start, maxDepth, st)
    && m <= |st.order|
    && Parented(g, live, start, st, m)
    && Explored(g.nodes, D, st)
  }

  /** While the node in position `m` is expanded: its first `i` edges have been followed, and
      its children so far are among their targets. */
  ghost predicate Expanding<W>(g: Graph<W>, start: nat, st: State, m: nat, next: seq<nat>, i: nat)
    requires i <= |next| && InBounds(next, |g.edges|) && m < |st.order| && |st.parent| == g.nodes
  {
    && (forall k :: 0 <= k < i ==> g.edges[next[k]].to in st.order)
    && (forall v: nat :: v in st.order && v != start && v < g.nodes && st.parent[v].Some?
          && st.parent[v].value < |g.edges| && g.edges[st.parent[v].value].from == st.order[m]
          ==> exists k :: 0 <= k < i && g.edges[next[k]].to == v)
  }

  /** The state after following edge `e` from the node being expanded. */
  function Follow<W>(g: Graph<W>, st: State, e: nat): State
    requires e < |g.edges| && |st.parent| == |st.path|
    requires g.edges[e].to < |st.path| && g.edges[e].from < |st.path|
  {
    var w := g.edges[e].to;
    if w in st.order then st
    else State(st.order + [w], st.parent[w := Some(e)], st.path[w := st.path[g.edges[e].from] + [w]])
  }

  lemma EarlierOrCurrent(n: nat, start: nat, maxDepth: nat, st: State, m: nat, p: nat)
    requires Ordered(n, start, maxDepth, st) && m < |st.order| && p in st.order[..m + 1]
    ensures p < n && st.order[m] < n && AtMost(st.path[p], st.path[st.order[m]])
    ensures p != st.order[m] ==> Before(st.path[p], st.path[st.order[m]])
  {
    var i :| 0 <= i < m + 1 && st.order[..m + 1][i] == p;
    assert st.order[i] == p;
  }

  /** Everything discovered so far comes before a node newly reached by edge `next[i]`. */
  lemma NewComesLast<W>(g: Graph<W>, live: seq<bool>, start: nat, maxDepth: nat, st: State, m: nat,
                        D: set<(nat, nat)>, next: seq<nat>, i: nat, x: nat)
    requires Searched(g, live, start, maxDepth, st, m + 1, D) && m + 1 <= |st.order|
    requires i < |next| && InBounds(next, |g.edges|) && EdgesSorted(g.edges, next)
    requires Expanding(g, start, st, m, next, i)
    requires x in st.order && g.edges[next[i]].to !in st.order
    ensures x < g.nodes && st.order[m] < g.nodes
    ensures Before(st.path[x], st.path[st.order[m]] + [g.edges[next[i]].to])
  {
    hide Explored;
    var u, w := st.order[m], g.edges[next[i]].to;
    assert u in st.order;
    if x != start {
      var p := g.edges[st.parent[x].value].from;
      EarlierOrCurrent(g.nodes, start, maxDepth, st, m, p);
      if p == u {
        var k :| 0 <= k < i && g.edges[next[k]].to == x;
        assert EdgeBefore(g.edges, next[k], next[i]);
        ExtendSame(st.path[u], x, w);
      } else {
        Extend(st.path[p], st.path[u], x, w);
      }
    }
  }

  /** Following an edge to a node already discovered: its path is no worse. */
  lemma SeenIsNoWorse<W>(g: Graph<W>, live: seq<bool>, start: nat, maxDepth: nat, st: State, m: nat, D: set<(nat, nat)>, w: nat)
    requires Searched(g, live, start, maxDepth, st, m + 1, D) && w in st.order
    ensures w < g.nodes && st.order[m] < g.nodes && AtMost(st.path[w], st.path[st.order[m]] + [w])
  {
    hide Explored;
    var u := st.order[m];
    assert u in st.order;
    if w != start {
      var p := g.edges[st.parent[w].value].from;
      EarlierOrCurrent(g.nodes, start, maxDepth, st, m, p);
      ExtendAtMost(st.path[p], st.path[u], w);
    }
  }

  /** The edge by which a node is discovered is the first among its parallels. */
  lemma FirstOfParallels<W>(g: Graph<W>, live: seq<bool>, start: nat, st: State, m: nat, next: seq<nat>, i: nat)
    requires m < |st.order| && |st.parent| == g.nodes && i < |next|
    requires next == NextEdges(g.edges, live, st.order[m], |g.edges|) && Expanding(g, start, st, m, next, i)
    requires g.edges[next[i]].to !in st.order
    ensures forall f: nat :: f < next[i] ==> g.edges[f].from != st.order[m] || g.edges[f].to != g.edges[next[i]].to
  {
    var w := g.edges[next[i]].to;
    assert next[i] in next;
    assert forall k :: 0 <= k < i ==> g.edges[next[k]].to != w;
    forall k | 0 <= k < |next| && g.edges[next[k]].to == w ensures next[k] >= next[i] {
      if k != i {
        assert EdgeBefore(g.edges, next[i], next[k]);
      }
    }
    forall f: nat | f < next[i] ensures g.edges[f].from != st.order[m] || g.edges[f].to != w {
      assert g.edges[f].from == st.order[m] && g.edges[f].to == w ==> f in next;
    }
  }

  lemma AppendOrdered(n: nat, start: nat, maxDepth: nat, st: State, w: nat, e: nat, p: seq<nat>)
    requires Ordered(n, start, maxDepth, st) && w < n && w !in st.order && 0 < |p| <= maxDepth + 1
    requires forall x: nat :: x in st.order ==> x < n && Before(st.path[x], p)
    ensures Ordered(n, start, maxDepth, State(st.order + [w], st.parent[w := Some(e)], st.path[w := p]))
  {
    hide Before;
    var st' := State(st.order + [w], st.parent[w := Some(e)], st.path[w := p]);
    forall a, b | 0 <= a < b < |st'.order| ensures Before(st'.path[st'.order[a]], st'.path[st'.order[b]]) {
      assert st.order[a] in st.order;
      if b < |st.order| {
        assert st.order[b] in st.order;
      }
    }
    assert st.order[0] in st.order;
    assert st'.order[|st.order|] == w;
    forall v: nat | v < n && v !in st'.order ensures st'.parent[v] == None {
      assert v in st.order ==> v in st'.order;
    }
  }

  lemma OrderedNew<W>(g: Graph<W>, live: seq<bool>, start: nat, maxDepth: nat, st: State, m: nat,
                      D: set<(nat, nat)>, next: seq<nat>, i: nat)
    requires Searched(g, live, start, maxDepth, st, m + 1, D)
    requires i < |next| && InBounds(next, |g.edges|) && EdgesSorted(g.edges, next)
    requires Expanding(g, start, st, m, next, i)
    requires st.order[m] < g.nodes && |st.path[st.order[m]]| <= maxDepth
    requires g.edges[next[i]].to !in st.order && g.edges[next[i]].from == st.order[m] && g.edges[next[i]].to < g.nodes
    ensures Ordered(g.nodes, start, maxDepth, Follow(g, st, next[i]))
  {
    var w, u := g.edges[next[i]].to, st.order[m];
    hide Explored, Parented, NextEdges, Before, Expanding, EdgesSorted;
    forall x: nat | x in st.order ensures x < g.nodes && Before(st.path[x], st.path[u] + [w]) {
      NewComesLast(g, live, start, maxDepth, st, m, D, next, i, x);
    }
    AppendOrdered(g.nodes, start, maxDepth, st, w, next[i], st.path[u] + [w]);
  }

  lemma AppendParented<W>(g: Graph<W>, live: seq<bool>, start: nat, st: State, m: nat, e: nat)
    requires |st.parent| == |st.path| == g.nodes && |live| == g.nodes && m < |st.order| && InBounds(st.order, g.nodes)
    requires Parented(g, live, start, st, m + 1)
    requires e < |g.edges| && g.edges[e].from == st.order[m] && g.edges[e].to < g.nodes && live[g.edges[e].to]
    requires g.edges[e].to !in st.order
    requires forall f: nat :: f < e ==> g.edges[f].from != st.order[m] || g.edges[f].to != g.edges[e].to
    ensures Parented(g, live, start, Follow(g, st, e), m + 1)
  {
    var st', w, u := Follow(g, st, e), g.edges[e].to, st.order[m];
    var first, first' := st.order[..m + 1], st'.order[..m + 1];
    assert first' == first && first[m] == u;
    forall x: nat | x in first ensures x in st.order {
      var k :| 0 <= k < |first| && first[k] == x;
      assert st.order[k] == x;
    }
    assert IsParent(g, live, st', e, w);
    forall v: nat | v in st'.order && v != start && v < g.nodes
      ensures st'.parent[v].Some? && IsParent(g, live, st', st'.parent[v].value, v)
      ensures g.edges[st'.parent[v].value].from in st'.order[..m + 1]
    {
      if v != w {
        assert v in st.order;
        assert IsParent(g, live, st, st.parent[v].value, v);
        assert g.edges[st.parent[v].value].from != w;
      }
    }
  }

  lemma ParentedNew<W>(g: Graph<W>, live: seq<bool>, start: nat, maxDepth: nat, st: State, m: nat,
                       D: set<(nat, nat)>, next: seq<nat>, i: nat)
    requires Searched(g, live, start, maxDepth, st, m + 1, D) && |live| == g.nodes
    requires next == NextEdges(g.edges, live, st.order[m], |g.edges|) && i < |next|
    requires Expanding(g, start, st, m, next, i)
    requires g.edges[next[i]].to !in st.order && g.edges[next[i]].from == st.order[m] && g.edges[next[i]].to < g.nodes
    requires live[g.edges[next[i]].to]
    ensures Parented(g, live, start, Follow(g, st, next[i]), m + 1)
  {
    hide Explored, NextEdges, Before, Expanding, EdgesSorted, Parented;
    FirstOfParallels(g, live, start, st, m, next, i);
    AppendParented(g, live, start, st, m, next[i]);
  }

  lemma ExploredStep<W>(g: Graph<W>, live: seq<bool>, start: nat, maxDepth: nat, st: State, m: nat, D: set<(nat, nat)>, e: nat)
    requires Searched(g, live, start, maxDepth, st, m + 1, D) && e < |g.edges| && g.edges[e].to < g.nodes
    requires st.order[m] < g.nodes && g.edges[e].from == st.order[m]
    ensures Explored(g.nodes, D + {(g.edges[e].from, g.edges[e].to)}, Follow(g, st, e))
  {
    var u, w := g.edges[e].from, g.edges[e].to;
    var st' := Follow(g, st, e);
    assert u in st.order;
    assert forall x: nat :: x in st.order ==> x in st'.order;
    if w in st.order {
      SeenIsNoWorse(g, live, start, maxDepth, st, m, D, w);
    } else {
      assert st'.order[|st.order|] == w;
    }
  }

  lemma ExpandingStep<W>(g: Graph<W>, start: nat, maxDepth: nat, live: seq<bool>, st: State, m: nat, next: seq<nat>, i: nat)
    requires i < |next| && InBounds(next, |g.edges|) && m < |st.order| && Ordered(g.nodes, start, maxDepth, st)
    requires Expanding(g, start, st, m, next, i)
    requires g.edges[next[i]].to < g.nodes && g.edges[next[i]].from < g.nodes
    ensures Expanding(g, start, Follow(g, st, next[i]), m, next, i + 1)
  {
    hide Before;
    var st', w := Follow(g, st, next[i]), g.edges[next[i]].to;
    assert forall x: nat :: x in st.order ==> x in st'.order;
    if w !in st.order {
      assert st'.order[|st.order|] == w;
    }
    forall v: nat | v in st'.order && v != start && v < g.nodes && st'.parent[v].Some?
                    && st'.parent[v].value < |g.edges| && g.edges[st'.parent[v].value].from == st'.order[m]
      ensures exists k :: 0 <= k < i + 1 && g.edges[next[k]].to == v
    {
      if v == w {
        assert g.edges[next[i]].to == v;
      } else {
        assert v in st.order;
        var k :| 0 <= k < i && g.edges[next[k]].to == v;
        assert 0 <= k < i + 1;
      }
    }
  }

  /** Following one more edge of the node being expanded keeps the search. */
  lemma FollowStep<W>(g: Graph<W>, live: seq<bool>, start: nat, maxDepth: nat, st: State, m: nat,
                      D: set<(nat, nat)>, next: seq<nat>, i: nat)
    requires Searched(g, live, start, maxDepth, st, m + 1, D) && g.Valid() && |live| == g.nodes
    requires next == NextEdges(g.edges, live, st.order[m], |g.edges|) && i < |next|
    requires Expanding(g, start, st, m, next, i)
    requires st.order[m] < g.nodes && |st.path[st.order[m]]| <= maxDepth
    ensures next[i] < |g.edges| && g.edges[next[i]].to < g.nodes && g.edges[next[i]].from == st.order[m]
    ensures var st' := Follow(g, st, next[i]);
            && Searched(g, live, start, maxDepth, st', m + 1, D + {(st.order[m], g.edges[next[i]].to)})
            && Expanding(g, start, st', m, next, i + 1)
  {
    assert next[i] in next;
    var w := g.edges[next[i]].to;
    ExpandingStep(g, start, maxDepth, live, st, m, next, i);
    ExploredStep(g, live, start, maxDepth, st, m, D, next[i]);
    if w !in st.order {
      OrderedNew(g, live, start, maxDepth, st, m, D, next, i);
      ParentedNew(g, live, start, maxDepth, st, m, D, next, i);
    }
    hide Explored, NextEdges, Before, Expanding, EdgesSorted, Ordered, Parented, Follow;
  }

  // ---- the search itself ----

  /** The concrete queue and marks say the same as the discovery order from position `m` on. */
  ghost predicate Mirrors(st: State, m: nat, seen: seq<bool>, frontier: seq<(nat, nat)>) {
    && |seen| == |st.path| && m + |frontier| == |st.order| && InBounds(st.order, |st.path|)
    && (forall v: nat :: v < |seen| ==> (seen[v] <==> v in st.order))
    && (forall j :: 0 <= j < |frontier| ==>
          frontier[j].0 == st.order[m + j] && frontier[j].1 == |st.path[st.order[m + j]]| - 1)
  }

  /** The edges of `D` include every permitted edge out of a processed node above the bound. */
  ghost predicate CoversDepth(R: set<(nat, nat)>, maxDepth: nat, st: State, m: nat, D: set<(nat, nat)>)
    requires m <= |st.order|
  {
    forall e :: e in R && e.0 in st.order[..m] && e.0 < |st.path| && |st.path[e.0]| <= maxDepth ==> e in D
  }

  lemma OrderBound(n: nat, start: nat, maxDepth: nat, st: State)
    requires Ordered(n, start, maxDepth, st)
    ensures |st.order| <= n
  {
    forall i, j | 0 <= i < j < |st.order| ensures st.order[i] != st.order[j] {
      Irreflexive(st.path[st.order[i]]);
    }
    DistinctBound(st.order, n);
  }

  lemma ParentedMore<W>(g: Graph<W>, live: seq<bool>, start: nat, st: State, m: nat)
    requires m < |st.order| && |st.parent| == |st.path| == g.nodes && Parented(g, live, start, st, m)
    ensures Parented(g, live, start, st, m + 1)
  {
    hide IsParent;
    forall x: nat | x in st.order[..m] ensures x in st.order[..m + 1] {
      var k :| 0 <= k < m && st.order[..m][k] == x;
      assert st.order[..m + 1][k] == x;
    }
  }

  /** No node has been reached from the node about to be expanded. */
  lemma StartExpanding<W>(g: Graph<W>, live: seq<bool>, start: nat, maxDepth: nat, st: State, m: nat, D: set<(nat, nat)>, next: seq<nat>)
    requires Searched(g, live, start, maxDepth, st, m, D) && m < |st.order| && InBounds(next, |g.edges|)
    ensures Expanding(g, start, st, m, next, 0)
  {
    hide Explored;
    forall v: nat | v in st.order && v != start && v < g.nodes
      ensures g.edges[st.parent[v].value].from != st.order[m]
    {
      var k :| 0 <= k < m && st.order[..m][k] == g.edges[st.parent[v].value].from;
      assert st.order[k] == g.edges[st.parent[v].value].from;
      Irreflexive(st.path[st.order[m]]);
      assert Before(st.path[st.order[k]], st.path[st.order[m]]);
    }
  }

  lemma MirrorsFollow<W>(g: Graph<W>, n: nat, start: nat, maxDepth: nat, st: State, m: nat, e: nat, depth: nat,
                         seen: seq<bool>, frontier: seq<(nat, nat)>)
    requires Mirrors(st, m + 1, seen, frontier) && Ordered(n, start, maxDepth, st)
    requires e < |g.edges| && g.edges[e].to < n && g.edges[e].from < n && |st.path[g.edges[e].from]| == depth + 1
    ensures var w := g.edges[e].to;
            if seen[w] then Follow(g, st, e) == st
            else Mirrors(Follow(g, st, e), m + 1, seen[w := true], frontier + [(w, depth + 1)])
  {
    hide Before;
    var st', w := Follow(g, st, e), g.edges[e].to;
    if !seen[w] {
      assert st'.order[|st.order|] == w;
      forall v: nat | v < n ensures seen[w := true][v] <==> v in st'.order {
        assert v in st.order ==> v in st'.order;
      }
      forall k | 0 <= k < |st.order| ensures st.order[k] != w && st'.order[k] == st.order[k] {
        assert st.order[k] in st.order;
      }
    }
  }

  /** Later states keep the order and the paths of earlier ones. */
  ghost predicate Grows(st: State, st': State) {
    && |st'.path| == |st.path| && |st.order| <= |st'.order| && st'.order[..|st.order|] == st.order
    && forall v: nat :: v in st.order && v < |st.path| ==> st'.path[v] == st.path[v]
  }

  lemma GrowsFollow<W>(g: Graph<W>, st0: State, st: State, e: nat)
    requires Grows(st0, st) && e < |g.edges| && |st.parent| == |st.path|
    requires g.edges[e].to < |st.path| && g.edges[e].from < |st.path|
    ensures Grows(st0, Follow(g, st, e))
    ensures forall v: nat :: v in st.order && v < |st.path| ==> Follow(g, st, e).path[v] == st.path[v]
  {
    var st' := Follow(g, st, e);
    assert st'.order[..|st0.order|] == st.order[..|st0.order|];
    forall v: nat | v in st0.order && v < |st.path| ensures v in st.order {
      var k :| 0 <= k < |st0.order| && st0.order[k] == v;
      assert st.order[..|st0.order|][k] == v;
    }
  }

  /** Everything known while `node`, in position `m`, is expanded and `i` edges are followed. */
  ghost predicate ExpansionInvariant<W>(g: Graph<W>, live: seq<bool>, start: nat, maxDepth: nat, node: nat, depth: nat,
                                        st0: State, D0: set<(nat, nat)>, st: State, m: nat, D: set<(nat, nat)>,
                                        next: seq<nat>, i: nat, seen: seq<bool>, frontier: seq<(nat, nat)>)
  {
    && m < |st.order| && st.order[m] == node < g.nodes && depth < maxDepth && i <= |next|
    && g.Valid() && |live| == g.nodes && next == NextEdges(g.edges, live, node, |g.edges|)
    && Searched(g, live, start, maxDepth, st, m + 1, D)
    && |st.path[node]| == depth + 1
    && Expanding(g, start, st, m, next, i)
    && Mirrors(st, m + 1, seen, frontier)
    && D0 <= D && (forall k :: 0 <= k < i ==> (node, g.edges[next[k]].to) in D)
    && Grows(st0, st)
  }

  lemma ExpansionStarts<W>(g: Graph<W>, live: seq<bool>, start: nat, maxDepth: nat, node: nat, depth: nat,
                           st: State, m: nat, D: set<(nat, nat)>, next: seq<nat>, seen: seq<bool>, frontier: seq<(nat, nat)>)
    requires g.Valid() && |live| == g.nodes && m < |st.order| && st.order[m] == node < g.nodes
    requires next == NextEdges(g.edges, live, node, |g.edges|)
    requires Searched(g, live, start, maxDepth, st, m, D) && Mirrors(st, m + 1, seen, frontier)
    requires |st.path[node]| == depth + 1 && depth < maxDepth
    ensures ExpansionInvariant(g, live, start, maxDepth, node, depth, st, D, st, m, D, next, 0, seen, frontier)
  {
    ParentedMore(g, live, start, st, m);
    StartExpanding(g, live, start, maxDepth, st, m, D, next);
    hide Ordered, Parented, Explored, Expanding, Mirrors, NextEdges;
  }

  /** The parts of the invariant, and what the searched state says of sizes. */
  lemma Unpacked<W>(g: Graph<W>, live: seq<bool>, start: nat, maxDepth: nat, node: nat, depth: nat,
                    st0: State, D0: set<(nat, nat)>, st: State, m: nat, D: set<(nat, nat)>,
                    next: seq<nat>, i: nat, seen: seq<bool>, frontier: seq<(nat, nat)>)
    requires ExpansionInvariant(g, live, start, maxDepth, node, depth, st0, D0, st, m, D, next, i, seen, frontier)
    ensures m < |st.order| && st.order[m] == node < g.nodes && depth < maxDepth && i <= |next| && node in st.order
    ensures g.Valid() && |live| == g.nodes && next == NextEdges(g.edges, live, node, |g.edges|)
    ensures Searched(g, live, start, maxDepth, st, m + 1, D) && Ordered(g.nodes, start, maxDepth, st)
    ensures |seen| == |st.parent| == |st.path| == g.nodes && |st.path[node]| == depth + 1
    ensures Expanding(g, start, st, m, next, i) && Mirrors(st, m + 1, seen, frontier) && Grows(st0, st)
    ensures D0 <= D && forall k :: 0 <= k < i ==> (node, g.edges[next[k]].to) in D
  {
    hide Parented, Explored, Grows, NextEdges, Expanding, Graph.Valid;
  }

  lemma FollowEffect<W>(g: Graph<W>, st: State, m: nat, e: nat, seen: seq<bool>, frontier: seq<(nat, nat)>)
    requires e < |g.edges| && |st.parent| == |st.path| && g.edges[e].to < |st.path| && g.edges[e].from < |st.path|
    requires Mirrors(st, m + 1, seen, frontier)
    ensures var w, st' := g.edges[e].to, Follow(g, st, e);
            && |st'.parent| == |st.parent| && |st'.path| == |st.path| && w < |seen|
            && st'.parent == (if seen[w] then st.parent else st.parent[w := Some(e)])
            && (m < |st.order| ==> m < |st'.order| && st'.order[m] == st.order[m])
  {
  }

  lemma ExpansionStep<W>(g: Graph<W>, live: seq<bool>, start: nat, maxDepth: nat, node: nat, depth: nat,
                         st0: State, D0: set<(nat, nat)>, st: State, m: nat, D: set<(nat, nat)>,
                         next: seq<nat>, i: nat, seen: seq<bool>, frontier: seq<(nat, nat)>)
    requires ExpansionInvariant(g, live, start, maxDepth, node, depth, st0, D0, st, m, D, next, i, seen, frontier)
    requires i < |next|
    ensures |seen| == |st.parent| == |st.path| == g.nodes && next[i] < |g.edges|
    ensures g.edges[next[i]].to < g.nodes && g.edges[next[i]].from < g.nodes
    ensures var to := g.edges[next[i]].to;
            && ExpansionInvariant(g, live, start, maxDepth, node, depth, st0, D0, Follow(g, st, next[i]), m, D + {(node, to)}, next, i + 1,
                 if seen[to] then seen else seen[to := true], if seen[to] then frontier else frontier + [(to, depth + 1)])
            && Follow(g, st, next[i]).parent == if seen[to] then st.parent else st.parent[to := Some(next[i])]
  {
    hide *;
    Unpacked(g, live, start, maxDepth, node, depth, st0, D0, st, m, D, next, i, seen, frontier);
    FollowStep(g, live, start, maxDepth, st, m, D, next, i);
    MirrorsFollow(g, g.nodes, start, maxDepth, st, m, next[i], depth, seen, frontier);
    GrowsFollow(g, st0, st, next[i]);
    FollowEffect(g, st, m, next[i], seen, frontier);
    var to, st' := g.edges[next[i]].to, Follow(g, st, next[i]);
    Assembled(g, live, start, maxDepth, node, depth, st0, D0, st', m, D + {(node, to)}, next, i + 1,
              if seen[to] then seen else seen[to := true], if seen[to] then frontier else frontier + [(to, depth + 1)]);
  }

  lemma Assembled<W>(g: Graph<W>, live: seq<bool>, start: nat, maxDepth: nat, node: nat, depth: nat,
                     st0: State, D0: set<(nat, nat)>, st: State, m: nat, D: set<(nat, nat)>,
                     next: seq<nat>, i: nat, seen: seq<bool>, frontier: seq<(nat, nat)>)
    requires m < |st.order| && st.order[m] == node < g.nodes && depth < maxDepth && i <= |next|
    requires g.Valid() && |live| == g.nodes && next == NextEdges(g.edges, live, node, |g.edges|)
    requires Searched(g, live, start, maxDepth, st, m + 1, D) && node < |st.path| && |st.path[node]| == depth + 1
    requires |st.parent| == g.nodes && Expanding(g, start, st, m, next, i)
    requires Mirrors(st, m + 1, seen, frontier) && D0 <= D && Grows(st0, st)
    requires forall k :: 0 <= k < i ==> (node, g.edges[next[k]].to) in D
    ensures ExpansionInvariant(g, live, start, maxDepth, node, depth, st0, D0, st, m, D, next, i, seen, frontier)
  {
    hide Searched, Expanding, Mirrors, Grows, NextEdges, Graph.Valid;
  }

  /** Follows every edge of one node: the body of the search loop. */
  method Expand<W>(g: Graph<W>, live: seq<bool>, ghost start: nat, ghost maxDepth: nat, node: nat, depth: nat,
                   seen0: seq<bool>, parent0: seq<Option<nat>>, frontier0: seq<(nat, nat)>,
                   ghost st0: State, ghost m: nat, ghost D0: set<(nat, nat)>)
    returns (seen: seq<bool>, parent: seq<Option<nat>>, frontier: seq<(nat, nat)>, ghost st: State, ghost D: set<(nat, nat)>)
    requires g.Valid() && |live| == g.nodes && m < |st0.order| && st0.order[m] == node < g.nodes
    requires Searched(g, live, start, maxDepth, st0, m, D0) && st0.parent == parent0
    requires Mirrors(st0, m + 1, seen0, frontier0)
    requires |st0.path[node]| == depth + 1 && depth < maxDepth
    ensures Searched(g, live, start, maxDepth, st, m + 1, D) && st.parent == parent
    ensures Mirrors(st, m + 1, seen, frontier)
    ensures D0 <= D && forall e :: e in LiveRelation(g, live) && e.0 == node ==> e in D
    ensures Grows(st0, st)
  {
    hide Searched, Mirrors, NextEdges;
    var next := NextEdges(g.edges, live, node, |g.edges|);
    seen, parent, frontier, st, D := seen0, parent0, frontier0, st0, D0;
    ExpansionStarts(g, live, start, maxDepth, node, depth, st, m, D, next, seen, frontier);
    for i := 0 to |next|
      invariant ExpansionInvariant(g, live, start, maxDepth, node, depth, st0, D0, st, m, D, next, i, seen, frontier)
      invariant st.parent == parent
    {
      hide ExpansionInvariant, Follow;
      ExpansionStep(g, live, start, maxDepth, node, depth, st0, D0, st, m, D, next, i, seen, frontier);
      var to := g.edges[next[i]].to;
      if !seen[to] {
        seen := seen[to := true];
        parent := parent[to := Some(next[i])];
        frontier := frontier + [(to, depth + 1)];
      }
      st, D := Follow(g, st, next[i]), D + {(node, to)};
    }
    NextCovers(g, live, node, D);
  }

  lemma NextCovers<W>(g: Graph<W>, live: seq<bool>, node: nat, D: set<(nat, nat)>)
    requires forall k :: 0 <= k < |NextEdges(g.edges, live, node, |g.edges|)| ==>
               (node, g.edges[NextEdges(g.edges, live, node, |g.edges|)[k]].to) in D
    ensures forall e :: e in LiveRelation(g, live) && e.0 == node ==> e in D
  {
    var next := NextEdges(g.edges, live, node, |g.edges|);
    forall e | e in LiveRelation(g, live) && e.0 == node ensures e in D {
      var i :| 0 <= i < |g.edges| && g.edges[i].to < |live| && live[g.edges[i].to] && e == (g.edges[i].from, g.edges[i].to);
      assert i in next;
      var k :| 0 <= k < |next| && next[k] == i;
      assert (node, g.edges[next[k]].to) in D;
    }
  }

  /** A finished search: everything above the bound has been expanded. */
  ghost predicate Found<W>(g: Graph<W>, live: seq<bool>, start: nat, maxDepth: nat, st: State) {
    && Ordered(g.nodes, start, maxDepth, st)
    && Parented(g, live, start, st, |st.order|)
    && (forall e :: e in LiveRelation(g, live) && e.0 in st.order && e.0 < g.nodes && |st.path[e.0]| <= maxDepth ==>
          e.1 in st.order && e.1 < g.nodes && AtMost(st.path[e.1], st.path[e.0] + [e.1]))
  }

  ghost predicate SearchInvariant<W>(g: Graph<W>, live: seq<bool>, start: nat, maxDepth: nat, st: State, m: nat,
                                     D: set<(nat, nat)>, seen: seq<bool>, frontier: seq<(nat, nat)>)
  {
    && Searched(g, live, start, maxDepth, st, m, D)
    && CoversDepth(LiveRelation(g, live), maxDepth, st, m, D)
    && Mirrors(st, m, seen, frontier)
  }

  lemma SearchStarts<W>(g: Graph<W>, live: seq<bool>, start: nat, maxDepth: nat, st: State, seen: seq<bool>)
    requires start < g.nodes && |seen| == g.nodes && |st.path| == |st.parent| == g.nodes
    requires st.order == [start] && st.path[start] == [start]
    requires forall v: nat :: v < g.nodes ==> st.parent[v] == None && (seen[v] <==> v == start)
    ensures SearchInvariant(g, live, start, maxDepth, st, 0, {}, seen, [(start, 0)])
  {
  }

  /** The queue's head is the node in position `m`, at its own depth. */
  lemma Head<W>(g: Graph<W>, live: seq<bool>, start: nat, maxDepth: nat, st: State, m: nat,
                D: set<(nat, nat)>, seen: seq<bool>, frontier: seq<(nat, nat)>)
    requires SearchInvariant(g, live, start, maxDepth, st, m, D, seen, frontier) && frontier != []
    ensures m < |st.order| && frontier[0].0 == st.order[m] < g.nodes == |st.path|
    ensures |st.path[frontier[0].0]| == frontier[0].1 + 1 && frontier[0].1 <= maxDepth
    ensures Mirrors(st, m + 1, seen, frontier[1..])
  {
    hide Parented, Explored, CoversDepth, LiveRelation;
    assert st.order[m] in st.order;
  }

  /** A node at the bound is passed over. */
  lemma PassOver<W>(g: Graph<W>, live: seq<bool>, start: nat, maxDepth: nat, st: State, m: nat,
                    D: set<(nat, nat)>, seen: seq<bool>, frontier: seq<(nat, nat)>)
    requires SearchInvariant(g, live, start, maxDepth, st, m, D, seen, frontier) && frontier != []
    requires frontier[0].1 == maxDepth
    ensures SearchInvariant(g, live, start, maxDepth, st, m + 1, D, seen, frontier[1..])
  {
    Head(g, live, start, maxDepth, st, m, D, seen, frontier);
    ParentedMore(g, live, start, st, m);
    hide Ordered, Parented, Explored, Mirrors, LiveRelation;
    forall x: nat | x in st.order[..m + 1] ensures x in st.order[..m] || x == st.order[m] {
      var k :| 0 <= k < m + 1 && st.order[..m + 1][k] == x;
      assert k < m ==> st.order[..m][k] == x;
    }
  }

  /** Expanding the head covers it. */
  lemma ExpandedCovers(R: set<(nat, nat)>, maxDepth: nat, st0: State, st: State, m: nat, D0: set<(nat, nat)>, D: set<(nat, nat)>)
    requires m < |st0.order| && CoversDepth(R, maxDepth, st0, m, D0) && Grows(st0, st) && D0 <= D
    requires forall e :: e in R && e.0 == st0.order[m] ==> e in D
    ensures CoversDepth(R, maxDepth, st, m + 1, D)
  {
    forall e | e in R && e.0 in st.order[..m + 1] && e.0 < |st.path| && |st.path[e.0]| <= maxDepth ensures e in D {
      var k :| 0 <= k < m + 1 && st.order[..m + 1][k] == e.0;
      assert st.order[k] == st.order[..|st0.order|][k] == st0.order[k];
      if k < m {
        assert st0.order[..m][k] == e.0;
        assert e.0 in st0.order;
      }
    }
  }

  lemma SearchEnds<W>(g: Graph<W>, live: seq<bool>, start: nat, maxDepth: nat, st: State, m: nat,
                      D: set<(nat, nat)>, seen: seq<bool>)
    requires SearchInvariant(g, live, start, maxDepth, st, m, D, seen, [])
    ensures Found(g, live, start, maxDepth, st)
  {
    hide Ordered, Parented, LiveRelation;
    assert st.order[..m] == st.order;
  }

  /** Breadth-first search from `start`, at most `maxDepth` edges deep, over the edges into
      permitted nodes in target order: the edge each node was first reached by. */
  method Bfs<W>(g: Graph<W>, live: seq<bool>, start: nat, maxDepth: nat) returns (parent: seq<Option<nat>>, ghost st: State)
    requires g.Valid() && |live| == g.nodes
    ensures |parent| == g.nodes
    ensures start < g.nodes ==> Found(g, live, start, maxDepth, st) && st.parent == parent
    ensures start >= g.nodes ==> forall v: nat :: v < g.nodes ==> parent[v] == None
  {
    parent := seq(g.nodes, _ => None);
    var seen := seq(g.nodes, _ => false);
    st := State([start], parent, seq(g.nodes, _ => [start]));
    if start >= g.nodes {
      return;
    }
    seen := seen[start := true];
    var frontier := [(start, 0)];
    ghost var m, D: set<(nat, nat)> := 0, {};
    SearchStarts(g, live, start, maxDepth, st, seen);
    while frontier != []
      invariant SearchInvariant(g, live, start, maxDepth, st, m, D, seen, frontier)
      invariant st.parent == parent && m <= g.nodes
      decreases g.nodes - m
    {
      hide CoversDepth, Mirrors, Ordered, Parented, Explored, LiveRelation, Graph.Valid;
      var (node, depth) := frontier[0];
      Head(g, live, start, maxDepth, st, m, D, seen, frontier);
      OrderBound(g.nodes, start, maxDepth, st);
      if depth == maxDepth {
        PassOver(g, live, start, maxDepth, st, m, D, seen, frontier);
        frontier := frontier[1..];
      } else {
        ghost var st0, D0 := st, D;
        frontier := frontier[1..];
        seen, parent, frontier, st, D := Expand(g, live, start, maxDepth, node, depth, seen, parent, frontier, st, m, D);
        ExpandedCovers(LiveRelation(g, live), maxDepth, st0, st, m, D0, D);
      }
      m := m + 1;
    }
    SearchEnds(g, live, start, maxDepth, st, m, D, seen);
  }
}
