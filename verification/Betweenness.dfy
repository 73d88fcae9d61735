/** Brandes' betweenness, source by source. */
module Betweenness {
  import opened Walks
  import opened Sums
  import opened Counting
  import opened Digraph
  import opened Brandes
  import opened Options
  import opened Finite

  /** What the forward pass has computed after looking along the edges `D`.
      `order` is the visited nodes followed by the queued ones. */
  ghost predicate Scan(s: nat, n: nat, D: set<(nat, nat)>, order: seq<nat>,
                       preds: seq<seq<nat>>, sigma: seq<real>, dist: seq<int>)
  {
    && |preds| == |sigma| == |dist| == n && s < n
    && Layered(s, n, order, dist)
    && Looked(n, D, dist)
    && Listed(s, n, D, preds, dist)
    && Counted(s, n, preds, sigma)
  }

  /** `order` holds the nodes with a distance, once each, in non-decreasing distance from `s`. */
  ghost predicate Layered(s: nat, n: nat, order: seq<nat>, dist: seq<int>)
    requires |dist| == n
  {
    && InRange(order, n) && NoDup(order)
    && |order| > 0 && order[0] == s
    && (forall i, j :: 0 <= i <= j < |order| ==> 0 <= dist[order[i]] <= dist[order[j]])
    && (forall v: nat :: v < n && dist[v] >= 0 ==> v in order)
    && (forall v: nat :: v < n && dist[v] < 0 ==> dist[v] == -1)
    && s < n && dist[s] == 0
    && (forall v: nat :: v < n && dist[v] == 0 ==> v == s)
  }

  ghost predicate Looked(n: nat, D: set<(nat, nat)>, dist: seq<int>)
    requires |dist| == n
  {
    forall e :: e in D ==> e.0 < n && e.1 < n && 0 <= dist[e.0] && 0 <= dist[e.1] <= dist[e.0] + 1
  }

  /** `preds[w]` lists, once each, the nodes one step nearer to the source with an edge to `w`. */
  ghost predicate Listed(s: nat, n: nat, D: set<(nat, nat)>, preds: seq<seq<nat>>, dist: seq<int>)
    requires |preds| == |dist| == n
  {
    forall w: nat :: w < n ==>
      && InRange(preds[w], n) && NoDup(preds[w])
      && (forall u: nat :: u in preds[w] <==> u < n && (u, w) in D && dist[w] == dist[u] + 1)
      && (dist[w] > 0 ==> preds[w] != [])
  }

  ghost predicate Counted(s: nat, n: nat, preds: seq<seq<nat>>, sigma: seq<real>)
    requires |preds| == |sigma| == n
  {
    forall w: nat :: w < n ==>
      InRange(preds[w], n) && sigma[w] == (if w == s then 1.0 else 0.0) + SumList(preds[w], sigma)
  }

  // ---- one edge of the forward pass ----

  /** `w` seen for the first time: it gets its distance and joins the queue. */
  function Discover(v: nat, w: nat, dist: seq<int>): seq<int>
    requires v < |dist| && w < |dist|
  {
    if dist[w] < 0 then dist[w := dist[v] + 1] else dist
  }

  lemma LayeredNew(s: nat, n: nat, order: seq<nat>, dist: seq<int>, v: nat, w: nat)
    requires |dist| == n && Layered(s, n, order, dist) && v < n && w < n && v in order
    requires forall x :: x in order ==> dist[x] <= dist[v] + 1
    requires dist[w] < 0
    ensures Layered(s, n, order + [w], dist[w := dist[v] + 1])
  {
    var order', dist' := order + [w], dist[w := dist[v] + 1];
    forall i | 0 <= i < |order| ensures order[i] != w && 0 <= dist[order[i]] <= dist[v] + 1 {
      assert order[i] in order;
      assert 0 <= dist[order[i]] <= dist[order[i]];
    }
    var k :| 0 <= k < |order| && order[k] == v;
    assert dist'[w] == dist[v] + 1 > 0;
    forall i, j | 0 <= i <= j < |order'| ensures 0 <= dist'[order'[i]] <= dist'[order'[j]] {
      if j < |order| {
        assert 0 <= dist[order[i]] <= dist[order[j]];
      }
    }
    forall x: nat | x < n && dist'[x] >= 0 ensures x in order' {
      if x == w {
        assert order'[|order|] == w;
      } else {
        assert x in order;
      }
    }
  }

  lemma LookedStep(n: nat, D: set<(nat, nat)>, dist: seq<int>, v: nat, w: nat)
    requires |dist| == n && Looked(n, D, dist) && v < n && w < n && 0 <= dist[v]
    requires dist[w] <= dist[v] + 1
    ensures Looked(n, D + {(v, w)}, Discover(v, w, dist))
  {
  }

  lemma ListedStep(s: nat, n: nat, D: set<(nat, nat)>, preds: seq<seq<nat>>, dist: seq<int>, v: nat, w: nat)
    requires |preds| == |dist| == n && Listed(s, n, D, preds, dist) && Looked(n, D, dist)
    requires v < n && w < n && 0 <= dist[v] && dist[w] <= dist[v] + 1 && (v, w) !in D
    ensures var dist' := Discover(v, w, dist);
            Listed(s, n, D + {(v, w)}, if dist'[w] == dist'[v] + 1 then preds[w := preds[w] + [v]] else preds, dist')
  {
    var dist' := Discover(v, w, dist);
    var preds' := if dist'[w] == dist'[v] + 1 then preds[w := preds[w] + [v]] else preds;
    var D' := D + {(v, w)};
    forall x: nat | x < n
      ensures InRange(preds'[x], n) && NoDup(preds'[x])
      ensures forall u: nat :: u in preds'[x] <==> u < n && (u, x) in D' && dist'[x] == dist'[u] + 1
      ensures dist'[x] > 0 ==> preds'[x] != []
    {
      if x == w {
        assert v !in preds[w];
        forall u: nat ensures u in preds'[w] <==> u < n && (u, w) in D' && dist'[w] == dist'[u] + 1 {
          if (u, w) in D {
            assert dist[w] >= 0 && dist'[u] == dist[u];
          }
        }
      } else {
        assert preds'[x] == preds[x];
        forall u: nat ensures u in preds'[x] <==> u < n && (u, x) in D' && dist'[x] == dist'[u] + 1 {
          assert (u, x) in D' <==> (u, x) in D;
          if (u, x) in D {
            assert dist[u] >= 0;
          }
        }
      }
    }
  }

  lemma CountedStep(s: nat, n: nat, preds: seq<seq<nat>>, sigma: seq<real>, v: nat, w: nat)
    requires |preds| == |sigma| == n && Counted(s, n, preds, sigma) && v < n && w < n && v != w
    requires forall x: nat :: x < n ==> w !in preds[x]
    ensures Counted(s, n, preds[w := preds[w] + [v]], sigma[w := sigma[w] + sigma[v]])
  {
    var preds', sigma' := preds[w := preds[w] + [v]], sigma[w := sigma[w] + sigma[v]];
    forall x: nat | x < n
      ensures InRange(preds'[x], n) && sigma'[x] == (if x == s then 1.0 else 0.0) + SumList(preds'[x], sigma')
    {
      SumListExt(preds[x], sigma, sigma');
      if x == w {
        SumListSnoc(preds[w], v, sigma');
      }
    }
  }

  /** Looking along one new edge `v -> w` out of the node being visited keeps the scan. */
  lemma ScanStep(s: nat, n: nat, D: set<(nat, nat)>, order: seq<nat>, preds: seq<seq<nat>>,
                 sigma: seq<real>, dist: seq<int>, v: nat, w: nat)
    requires Scan(s, n, D, order, preds, sigma, dist)
    requires v < n && w < n && (v, w) !in D
    requires Frontier(n, D, order, dist, v)
    ensures var dist' := Discover(v, w, dist);
            var near := dist'[w] == dist'[v] + 1;
            var order' := if dist[w] < 0 then order + [w] else order;
            && Scan(s, n, D + {(v, w)}, order', if near then preds[w := preds[w] + [v]] else preds,
                    if near then sigma[w := sigma[w] + sigma[v]] else sigma, dist')
            && Frontier(n, D + {(v, w)}, order', dist', v)
            && 0 <= dist'[v] == dist[v]
  {
    hide Looked, Listed, Counted;
    var dist' := Discover(v, w, dist);
    FrontierFacts(s, n, D, order, dist, v, w);
    if dist[w] < 0 {
      LayeredNew(s, n, order, dist, v, w);
    }
    hide Layered;
    LookedStep(n, D, dist, v, w);
    ListedStep(s, n, D, preds, dist, v, w);
    FrontierStep(s, n, D, order, dist, v, w);
    if dist'[w] == dist'[v] + 1 {
      SourceNotListed(s, n, D, order, preds, dist, v, w);
      CountedStep(s, n, preds, sigma, v, w);
    }
  }

  /** While `v` is visited: every ordered node is at most one layer below it, and only nodes
      no farther than `v` have been looked out of. */
  ghost predicate Frontier(n: nat, D: set<(nat, nat)>, order: seq<nat>, dist: seq<int>, v: nat)
    requires |dist| == n && v < n
  {
    && v in order
    && (forall x :: x in order ==> x < n && dist[x] <= dist[v] + 1)
    && (forall e :: e in D ==> e.0 < n && dist[e.0] <= dist[v])
  }

  lemma FrontierFacts(s: nat, n: nat, D: set<(nat, nat)>, order: seq<nat>, dist: seq<int>, v: nat, w: nat)
    requires |dist| == n && v < n && w < n && Layered(s, n, order, dist) && Frontier(n, D, order, dist, v)
    ensures 0 <= dist[v] && dist[w] <= dist[v] + 1
    ensures dist[w] < 0 ==> dist[w] == -1
  {
    var i :| 0 <= i < |order| && order[i] == v;
    assert 0 <= dist[order[i]] <= dist[order[i]];
    if dist[w] >= 0 {
      assert w in order;
    }
  }

  lemma FrontierStep(s: nat, n: nat, D: set<(nat, nat)>, order: seq<nat>, dist: seq<int>, v: nat, w: nat)
    requires |dist| == n && v < n && w < n && 0 <= dist[v] && Looked(n, D, dist)
    requires Frontier(n, D, order, dist, v)
    ensures Frontier(n, D + {(v, w)}, if dist[w] < 0 then order + [w] else order, Discover(v, w, dist), v)
  {
    var order' := if dist[w] < 0 then order + [w] else order;
    var i :| 0 <= i < |order| && order[i] == v;
    assert order'[i] == v;
  }

  lemma SourceNotListed(s: nat, n: nat, D: set<(nat, nat)>, order: seq<nat>, preds: seq<seq<nat>>,
                        dist: seq<int>, v: nat, w: nat)
    requires |preds| == |dist| == n && v < n && w < n && Looked(n, D, dist) && Listed(s, n, D, preds, dist)
    requires Frontier(n, D, order, dist, v) && Discover(v, w, dist)[w] == dist[v] + 1
    ensures forall x: nat :: x < n ==> w !in preds[x]
  {
    forall e | e in D ensures e.0 != w {
      assert 0 <= dist[e.0] <= dist[v];
    }
    forall x: nat | x < n ensures w !in preds[x] {
      assert w in preds[x] ==> (w, x) in D;
    }
  }

  /** Every edge out of a visited node. */
  ghost function EdgesFrom(R: set<(nat, nat)>, visited: seq<nat>): set<(nat, nat)> {
    set e | e in R && e.0 in visited
  }

  /** The first `k` of the edges `out`. */
  ghost function EdgesAmong<W>(g: Graph<W>, out: seq<nat>, k: nat): set<(nat, nat)>
    requires k <= |out| && InRange(out, |g.edges|)
  {
    set i | 0 <= i < k :: (g.edges[out[i]].from, g.edges[out[i]].to)
  }

  lemma NoEdgesYet<W>(g: Graph<W>, out: seq<nat>, D: set<(nat, nat)>)
    requires InRange(out, |g.edges|)
    ensures D + EdgesAmong(g, out, 0) == D
  {
  }

  lemma EdgesAmongNext<W>(g: Graph<W>, v: nat, visited: seq<nat>, k: nat)
    requires g.NoParallel() && k < |OutEdges(g.edges, v)| && v !in visited
    ensures InRange(OutEdges(g.edges, v), |g.edges|)
    ensures var out := OutEdges(g.edges, v);
            var w := g.edges[out[k]].to;
            && (v, w) !in EdgesFrom(g.Relation(), visited) + EdgesAmong(g, out, k)
            && EdgesAmong(g, out, k + 1) == EdgesAmong(g, out, k) + {(v, w)}
  {
  }

  lemma EdgesFromNext<W>(g: Graph<W>, visited: seq<nat>, v: nat)
    ensures InRange(OutEdges(g.edges, v), |g.edges|)
    ensures var out := OutEdges(g.edges, v);
            EdgesFrom(g.Relation(), visited + [v]) == EdgesFrom(g.Relation(), visited) + EdgesAmong(g, out, |out|)
  {
    var out := OutEdges(g.edges, v);
    forall e | e in EdgesFrom(g.Relation(), visited + [v])
      ensures e in EdgesFrom(g.Relation(), visited) + EdgesAmong(g, out, |out|)
    {
      if e.0 !in visited {
        var i :| 0 <= i < |g.edges| && e == (g.edges[i].from, g.edges[i].to);
        assert i in out;
      }
    }
    forall e | e in EdgesAmong(g, out, |out|) ensures e in EdgesFrom(g.Relation(), visited + [v]) {
      var i :| 0 <= i < |out| && e == (g.edges[out[i]].from, g.edges[out[i]].to);
      EdgeInRelation(g, out[i]);
      assert (visited + [v])[|visited|] == v;
    }
  }

  /** The result of the forward pass: `stack` is the visiting order. */
  ghost predicate Scanned(R: set<(nat, nat)>, n: nat, s: nat, stack: seq<nat>,
                          preds: seq<seq<nat>>, sigma: seq<real>, dist: seq<int>)
  {
    && Bounded(R, n)
    && Scan(s, n, EdgesFrom(R, stack), stack, preds, sigma, dist)
  }

  lemma InitialScan(n: nat, s: nat)
    requires s < n
    ensures Scan(s, n, {}, [s], seq(n, _ => []), seq(n, _ => 0.0)[s := 1.0], seq(n, _ => -1)[s := 0])
  {
  }

  /** Popping the queue's head keeps the scan and makes it the frontier. */
  lemma Pop(s: nat, n: nat, R: set<(nat, nat)>, stack: seq<nat>, queue: seq<nat>, dist: seq<int>)
    requires |dist| == n && Layered(s, n, stack + queue, dist) && queue != []
    requires NearHead(n, stack + queue, dist, queue[0])
    ensures stack + [queue[0]] + queue[1..] == stack + queue
    ensures queue[0] < n && queue[0] !in stack
    ensures Frontier(n, EdgesFrom(R, stack), stack + queue, dist, queue[0])
  {
    var v, order := queue[0], stack + queue;
    assert order[|stack|] == v;
    forall x | x in stack ensures x != v && x < n && dist[x] <= dist[v] {
      var i :| 0 <= i < |stack| && stack[i] == x;
      assert order[i] == x && 0 <= dist[order[i]] <= dist[order[|stack|]];
    }
  }

  ghost predicate NearHead(n: nat, order: seq<nat>, dist: seq<int>, v: nat)
    requires |dist| == n
  {
    forall x :: x in order ==> x < n && v < n && dist[x] <= dist[v] + 1
  }

  lemma NextHead(s: nat, n: nat, D: set<(nat, nat)>, stack: seq<nat>, queue: seq<nat>, dist: seq<int>, v: nat)
    requires |dist| == n && v < n && Layered(s, n, stack + queue, dist) && Frontier(n, D, stack + queue, dist, v)
    requires stack != [] && stack[|stack| - 1] == v && queue != []
    ensures NearHead(n, stack + queue, dist, queue[0])
  {
    var order := stack + queue;
    assert order[|stack| - 1] == v && order[|stack|] == queue[0];
    assert 0 <= dist[order[|stack| - 1]] <= dist[order[|stack|]];
  }

  ghost predicate IsUnseen(unseen: set<nat>, dist: seq<int>) {
    forall x: nat :: x in unseen <==> x < |dist| && dist[x] < 0
  }

  /** The visit of `v`, just popped: looks along each of its edges in turn. */
  method Visit<W>(g: Graph<W>, s: nat, v: nat, ghost visited: seq<nat>, queue0: seq<nat>, preds0: seq<seq<nat>>,
                  sigma0: seq<real>, dist0: seq<int>, ghost unseen0: set<nat>)
    returns (queue: seq<nat>, preds: seq<seq<nat>>, sigma: seq<real>, dist: seq<int>, ghost unseen: set<nat>)
    requires g.Valid() && g.NoParallel() && v < g.nodes && v !in visited
    requires Scan(s, g.nodes, EdgesFrom(g.Relation(), visited), visited + [v] + queue0, preds0, sigma0, dist0)
    requires Frontier(g.nodes, EdgesFrom(g.Relation(), visited), visited + [v] + queue0, dist0, v)
    requires IsUnseen(unseen0, dist0)
    ensures Scan(s, g.nodes, EdgesFrom(g.Relation(), visited + [v]), visited + [v] + queue, preds, sigma, dist)
    ensures Frontier(g.nodes, EdgesFrom(g.Relation(), visited + [v]), visited + [v] + queue, dist, v)
    ensures IsUnseen(unseen, dist) && |unseen| + |queue| == |unseen0| + |queue0|
  {
    hide Layered, Looked, Listed, Counted, EdgesFrom, EdgesAmong, Frontier, OutEdges, Graph.Relation, Graph.NoParallel;
    var n := g.nodes;
    queue, preds, sigma, dist, unseen := queue0, preds0, sigma0, dist0, unseen0;
    var out := OutEdges(g.edges, v);
    ghost var D, stack := EdgesFrom(g.Relation(), visited), visited + [v];
    NoEdgesYet(g, out, D);
    for i := 0 to |out|
      invariant Scan(s, n, D + EdgesAmong(g, out, i), stack + queue, preds, sigma, dist)
      invariant Frontier(n, D + EdgesAmong(g, out, i), stack + queue, dist, v)
      invariant IsUnseen(unseen, dist) && |unseen| + |queue| == |unseen0| + |queue0|
    {
      var w := g.edges[out[i]].to;
      EdgesAmongNext(g, v, visited, i);
      ScanStep(s, n, D + EdgesAmong(g, out, i), stack + queue, preds, sigma, dist, v, w);
      assert D + EdgesAmong(g, out, i) + {(v, w)} == D + EdgesAmong(g, out, i + 1);
      if dist[w] < 0 {
        assert stack + (queue + [w]) == stack + queue + [w];
        dist := dist[w := dist[v] + 1];
        queue := queue + [w];
        unseen := unseen - {w};
      }
      if dist[w] == dist[v] + 1 {
        sigma := sigma[w := sigma[w] + sigma[v]];
        preds := preds[w := preds[w] + [v]];
      }
    }
    EdgesFromNext(g, visited, v);
  }

  method CountShortestPaths<W>(g: Graph<W>, s: nat)
    returns (stack: seq<nat>, preds: seq<seq<nat>>, sigma: seq<real>, dist: seq<int>)
    requires g.Valid() && g.NoParallel() && s < g.nodes
    ensures Scanned(g.Relation(), g.nodes, s, stack, preds, sigma, dist)
  {
    var n := g.nodes;
    ghost var R := g.Relation();
    stack := [];
    preds := seq(n, _ => []);
    sigma := seq(n, _ => 0.0);
    dist := seq(n, _ => -1);
    sigma := sigma[s := 1.0];
    dist := dist[s := 0];
    var queue := [s];
    ghost var unseen := UpTo(n) - {s};
    InitialScan(n, s);
    assert EdgesFrom(R, stack) == {};
    assert stack + queue == [s];
    while queue != []
      invariant Scan(s, n, EdgesFrom(R, stack), stack + queue, preds, sigma, dist)
      invariant queue != [] ==> NearHead(n, stack + queue, dist, queue[0])
      invariant IsUnseen(unseen, dist)
      decreases |unseen| + |queue|
    {
      hide Looked, Listed, Counted, EdgesFrom, Frontier;
      var v := queue[0];
      ghost var visited := stack;
      Pop(s, n, R, stack, queue, dist);
      hide Layered;
      queue := queue[1..];
      stack := stack + [v];
      queue, preds, sigma, dist, unseen := Visit(g, s, v, visited, queue, preds, sigma, dist, unseen);
      if queue != [] {
        NextHead(s, n, EdgesFrom(R, stack), stack, queue, dist, v);
      }
    }
    assert stack + queue == stack;
    ValidBounds(g);
  }

  // ---- what the forward pass has computed ----

  lemma ScannedLevels(R: set<(nat, nat)>, n: nat, s: nat, stack: seq<nat>, preds: seq<seq<nat>>,
                      sigma: seq<real>, dist: seq<int>)
    requires Scanned(R, n, s, stack, preds, sigma, dist)
    ensures Levels(R, n, s, dist).Valid()
    ensures forall v: nat :: v in stack <==> v < n && dist[v] >= 0
    ensures forall u: nat, w: nat :: w < n ==> (u in preds[w] <==> Levels(R, n, s, dist).Near(u, w))
  {
    hide Counted;
    var f := Levels(R, n, s, dist);
    forall v: nat ensures v in stack <==> v < n && dist[v] >= 0 {
      if v in stack {
        var i :| 0 <= i < |stack| && stack[i] == v;
        assert 0 <= dist[stack[i]] <= dist[stack[i]];
      }
    }
    hide Layered;
    forall e | e in R && dist[e.0] >= 0 ensures 0 <= dist[e.1] <= dist[e.0] + 1 {
      assert e in EdgesFrom(R, stack);
    }
    hide Looked;
    forall u: nat, w: nat | w < n ensures u in preds[w] <==> f.Near(u, w) {
      assert u in preds[w] <==> u < n && (u, w) in EdgesFrom(R, stack) && dist[w] == dist[u] + 1;
    }
    forall w: nat | w < n && dist[w] > 0 ensures f.HasNearer(w) {
      var u := preds[w][0];
      assert u in preds[w];
    }
  }

  /** `sigma` counts the shortest paths from the source. */
  lemma {:induction false} SigmaCounts(R: set<(nat, nat)>, n: nat, s: nat, stack: seq<nat>, preds: seq<seq<nat>>,
                                       sigma: seq<real>, dist: seq<int>, w: nat)
    requires Scanned(R, n, s, stack, preds, sigma, dist) && w < n
    ensures sigma[w] == Levels(R, n, s, dist).Paths(w)
    decreases dist[w] + 1
  {
    var f := Levels(R, n, s, dist);
    ScannedLevels(R, n, s, stack, preds, sigma, dist);
    hide Layered, Looked;
    assert NoDup(preds[w]) && InRange(preds[w], n);
    hide Listed;
    SumListAsSum(preds[w], sigma);
    var g := u => if u in preds[w] then At(sigma, u) else 0.0;
    if dist[w] <= 0 {
      forall u: nat | u < n ensures g(u) == 0.0 {
        assert u in preds[w] <==> f.Near(u, w);
      }
      SumZero(n, g);
      if dist[w] == 0 {
        OnwardSelf(f, s);
      }
    } else {
      PathsStep(f, w);
      var h := u => if f.Near(u, w) then f.Paths(u) else 0.0;
      forall u: nat | u < n ensures g(u) == h(u) {
        assert u in preds[w] <==> f.Near(u, w);
        if f.Near(u, w) {
          SigmaCounts(R, n, s, stack, preds, sigma, dist, u);
        }
      }
      SumExt(n, g, h);
    }
  }

  // ---- the accumulation ----

  /** What the popped nodes have passed back to `v`. */
  ghost function Passed(f: Levels, popped: set<nat>, v: nat): real {
    Sum(f.n, w => if w in popped && f.Near(v, w) then f.Gain(v, w) else 0.0)
  }

  lemma PassedMore(f: Levels, popped: set<nat>, v: nat, w: nat)
    requires w < f.n && w !in popped
    ensures Passed(f, popped + {w}, v) == Passed(f, popped, v) + if f.Near(v, w) then f.Gain(v, w) else 0.0
  {
    SumUpdate(f.n, w, x => if x in popped && f.Near(v, x) then f.Gain(v, x) else 0.0,
              x => if x in popped + {w} && f.Near(v, x) then f.Gain(v, x) else 0.0);
  }

  /** Once everything below `v` is popped, all of its dependency has been passed back. */
  lemma PassedAll(f: Levels, popped: set<nat>, v: nat)
    requires f.Valid() && v < f.n && f.dist[v] >= 0
    requires forall w: nat :: w < f.n && f.Near(v, w) ==> w in popped
    ensures Passed(f, popped, v) == f.Depend(v)
  {
    Recurrence(f, v);
    SumExt(f.n, w => if w in popped && f.Near(v, w) then f.Gain(v, w) else 0.0,
           w => if f.Near(v, w) then f.Gain(v, w) else 0.0);
  }

  lemma OrderIsLevelled(f: Levels, order: seq<nat>, i: nat, j: nat)
    requires |f.dist| == f.n && Layered(f.s, f.n, order, f.dist) && i <= j < |order|
    ensures order[i] < f.n && order[j] < f.n && 0 <= f.dist[order[i]] <= f.dist[order[j]]
  {
  }

  /** When `order[k]` is popped, everything below it has been. */
  lemma BelowIsPopped(f: Levels, order: seq<nat>, popped: set<nat>, k: nat)
    requires |f.dist| == f.n && Layered(f.s, f.n, order, f.dist) && k < |order|
    requires forall x: nat :: x in popped <==> x in order[k + 1..]
    ensures order[k] !in popped && BelowPopped(f, order[k], popped)
  {
    var rest := order[k + 1..];
    forall j | 0 <= j < |rest| ensures rest[j] != order[k] {
      assert rest[j] == order[k + 1 + j];
    }
    forall x: nat | x < f.n && f.Near(order[k], x) ensures x in popped {
      assert x in order;
      var j: nat :| j < |order| && order[j] == x;
      hide Layered;
      if j <= k {
        OrderIsLevelled(f, order, j, k);
      } else {
        assert rest[j - k - 1] == x;
      }
    }
  }

  /** The state of the backward pass between two pops. */
  ghost predicate Returned(f: Levels, popped: set<nat>, delta: seq<real>, cb0: seq<real>, cb: seq<real>) {
    && |delta| == |cb0| == |cb| == f.n
    && (forall v: nat :: v < f.n ==> delta[v] == Passed(f, popped, v))
    && (forall v: nat :: v < f.n ==> cb[v] == cb0[v] + if v in popped && v != f.s then f.Depend(v) else 0.0)
  }

  /** `preds` lists, once each, the nodes `w` is one step below. */
  ghost predicate ListsNear(f: Levels, w: nat, preds: seq<nat>) {
    InRange(preds, f.n) && NoDup(preds) && forall u: nat :: u in preds <==> f.Near(u, w)
  }

  ghost predicate CountsPaths(f: Levels, sigma: seq<real>) {
    |sigma| == f.n && forall v: nat :: v < f.n ==> sigma[v] == f.Paths(v)
  }

  /** Everything one step below `w` has been popped. */
  ghost predicate BelowPopped(f: Levels, w: nat, popped: set<nat>) {
    forall x: nat :: x < f.n && f.Near(w, x) ==> x in popped
  }

  /** Passes the dependency on `w` back to its predecessors. */
  method PassBack(ghost f: Levels, ghost popped: set<nat>, w: nat, preds: seq<nat>, sigma: seq<real>, delta0: seq<real>)
    returns (delta: seq<real>)
    requires f.Valid() && w < f.n && |delta0| == f.n && w !in popped && f.dist[w] >= 0
    requires ListsNear(f, w, preds) && CountsPaths(f, sigma)
    requires forall v: nat :: v < f.n ==> delta0[v] == Passed(f, popped, v)
    requires delta0[w] == f.Depend(w)
    ensures |delta| == f.n && delta[w] == f.Depend(w)
    ensures forall v: nat :: v < f.n ==> delta[v] == Passed(f, popped + {w}, v)
  {
    delta := delta0;
    PathsPositive(f, w);
    assert w !in preds by {
      assert w in preds <==> f.Near(w, w);
    }
    hide Levels.Valid, Levels.Paths, Levels.Depend, Passed, Levels.Near;
    for i := 0 to |preds|
      invariant |delta| == f.n && delta[w] == f.Depend(w)
      invariant forall v: nat :: v < f.n ==>
        delta[v] == Passed(f, popped, v) + if v in preds[..i] then f.Gain(v, w) else 0.0
    {
      var v := preds[i];
      assert v !in preds[..i];
      assert preds[..i + 1] == preds[..i] + [v];
      assert preds[i] in preds;
      assert sigma[v] / sigma[w] * (1.0 + delta[w]) == f.Gain(v, w);
      hide Levels.Gain;
      delta := delta[v := delta[v] + sigma[v] / sigma[w] * (1.0 + delta[w])];
    }
    assert preds[..|preds|] == preds;
    forall v: nat | v < f.n ensures delta[v] == Passed(f, popped + {w}, v) {
      PassedMore(f, popped, v, w);
    }
  }

  /** What the backward pass starts from. */
  lemma ScannedFacts(R: set<(nat, nat)>, n: nat, s: nat, order: seq<nat>, preds: seq<seq<nat>>,
                     sigma: seq<real>, dist: seq<int>)
    requires Scanned(R, n, s, order, preds, sigma, dist)
    ensures Levels(R, n, s, dist).Valid() && |sigma| == |preds| == |dist| == n
    ensures Layered(s, n, order, dist)
    ensures forall v: nat :: v in order <==> v < n && dist[v] >= 0
    ensures CountsPaths(Levels(R, n, s, dist), sigma)
    ensures forall w: nat :: w < n ==> ListsNear(Levels(R, n, s, dist), w, preds[w])
  {
    ScannedLevels(R, n, s, order, preds, sigma, dist);
    hide Layered, Looked, Counted, Levels.Near, Levels.Paths, Levels.Valid, Bounded;
    forall v: nat | v < n ensures sigma[v] == Levels(R, n, s, dist).Paths(v) {
      SigmaCounts(R, n, s, order, preds, sigma, dist, v);
    }
  }

  lemma NothingReturned(f: Levels, delta: seq<real>, cb: seq<real>)
    requires |delta| == |cb| == f.n && forall v: nat :: v < f.n ==> delta[v] == 0.0
    ensures Returned(f, {}, delta, cb, cb)
  {
    var popped: set<nat> := {};
    forall v: nat ensures Passed(f, popped, v) == 0.0 {
      SumZero(f.n, w => if w in popped && f.Near(v, w) then f.Gain(v, w) else 0.0);
    }
  }

  lemma EverythingReturned(f: Levels, popped: set<nat>, delta: seq<real>, cb0: seq<real>, cb: seq<real>)
    requires f.Valid() && Returned(f, popped, delta, cb0, cb)
    requires forall v: nat :: v < f.n && f.dist[v] >= 0 ==> v in popped
    ensures |cb0| == |cb| == f.n && forall v: nat :: v < f.n ==> cb[v] == cb0[v] + if v == f.s then 0.0 else f.Depend(v)
  {
    hide Levels.Depend, Passed;
    forall v: nat | v < f.n ensures cb[v] == cb0[v] + if v == f.s then 0.0 else f.Depend(v) {
      if v !in popped {
        UnreachedDepend(f, v);
      }
    }
  }

  /** One pop of the backward pass: `w` hands its dependency back and keeps its own. */
  method PopOne(ghost f: Levels, s: nat, ghost popped: set<nat>, w: nat, preds: seq<nat>, sigma: seq<real>,
                delta0: seq<real>, ghost start: seq<real>, cb0: seq<real>)
    returns (delta: seq<real>, cb: seq<real>)
    requires f.Valid() && f.s == s && w < f.n && w !in popped && f.dist[w] >= 0
    requires ListsNear(f, w, preds) && CountsPaths(f, sigma) && BelowPopped(f, w, popped)
    requires Returned(f, popped, delta0, start, cb0)
    ensures Returned(f, popped + {w}, delta, start, cb)
  {
    PassedAll(f, popped, w);
    hide ListsNear, CountsPaths, BelowPopped, Passed, Levels.Paths, Levels.Depend, Levels.Near, Levels.Valid;
    delta := PassBack(f, popped, w, preds, sigma, delta0);
    cb := cb0;
    if w != s {
      cb := cb[w := cb[w] + delta[w]];
    }
  }

  /** The state of the backward pass: `stack` is the visiting order without what has been popped. */
  ghost predicate Popping(f: Levels, order: seq<nat>, preds: seq<seq<nat>>, sigma: seq<real>, stack: seq<nat>, popped: set<nat>) {
    && Scanned(f.R, f.n, f.s, order, preds, sigma, f.dist)
    && |stack| <= |order| && stack == order[..|stack|]
    && (forall x: nat :: x in popped <==> x in order[|stack|..])
  }

  lemma NothingPopped(f: Levels, order: seq<nat>, preds: seq<seq<nat>>, sigma: seq<real>)
    requires Scanned(f.R, f.n, f.s, order, preds, sigma, f.dist)
    ensures Popping(f, order, preds, sigma, order, {})
  {
    hide Scanned;
  }

  /** What popping the top of the stack may rely on, and what it leaves. */
  lemma PopNext(f: Levels, order: seq<nat>, preds: seq<seq<nat>>, sigma: seq<real>, stack: seq<nat>, popped: set<nat>)
    requires Popping(f, order, preds, sigma, stack, popped) && stack != []
    ensures var w := stack[|stack| - 1];
            && f.Valid() && w < f.n && |preds| == |f.dist| == f.n && w !in popped && f.dist[w] >= 0
            && ListsNear(f, w, preds[w]) && CountsPaths(f, sigma) && BelowPopped(f, w, popped)
            && Popping(f, order, preds, sigma, stack[..|stack| - 1], popped + {w})
  {
    var k := |stack| - 1;
    OnlyWPopped(f, order, preds, sigma, stack, popped);
    hide *;
    ScannedFacts(f.R, f.n, f.s, order, preds, sigma, f.dist);
    BelowIsPopped(f, order, popped, k);
  }

  lemma OnlyWPopped(f: Levels, order: seq<nat>, preds: seq<seq<nat>>, sigma: seq<real>, stack: seq<nat>, popped: set<nat>)
    requires Popping(f, order, preds, sigma, stack, popped) && stack != []
    ensures var k := |stack| - 1;
            && Scanned(f.R, f.n, f.s, order, preds, sigma, f.dist) && k < |order| && stack[k] == order[k] && order[k] in order
            && (forall x: nat :: x in popped <==> x in order[k + 1..])
            && Popping(f, order, preds, sigma, stack[..k], popped + {order[k]})
  {
    hide Scanned;
    var k := |stack| - 1;
    assert order[k..] == [order[k]] + order[k + 1..];
    assert stack[..k] == order[..k];
  }

  lemma PoppedAll(f: Levels, order: seq<nat>, preds: seq<seq<nat>>, sigma: seq<real>, popped: set<nat>)
    requires Popping(f, order, preds, sigma, [], popped)
    ensures f.Valid() && forall v: nat :: v < f.n && f.dist[v] >= 0 ==> v in popped
  {
    ScannedFacts(f.R, f.n, f.s, order, preds, sigma, f.dist);
    hide Scanned, Levels.Valid;
    assert order[0..] == order;
  }

  /** The backward pass: pops the visiting order and adds each node's dependency to `cb`. */
  method Accumulate(ghost f: Levels, s: nat, order: seq<nat>, preds: seq<seq<nat>>, sigma: seq<real>, cb0: seq<real>)
    returns (cb: seq<real>)
    requires Scanned(f.R, f.n, f.s, order, preds, sigma, f.dist) && |cb0| == f.n && s == f.s
    ensures |cb| == f.n
    ensures forall v: nat :: v < f.n ==> cb[v] == cb0[v] + if v == f.s then 0.0 else f.Depend(v)
  {
    hide *;
    ghost var popped: set<nat> := {};
    cb := cb0;
    var stack := order;
    var delta := seq(|cb0|, _ => 0.0);
    NothingReturned(f, delta, cb);
    NothingPopped(f, order, preds, sigma);
    while stack != []
      invariant Popping(f, order, preds, sigma, stack, popped)
      invariant Returned(f, popped, delta, cb0, cb)
      decreases |stack|
    {
      PopNext(f, order, preds, sigma, stack, popped);
      var w := stack[|stack| - 1];
      stack := stack[..|stack| - 1];
      delta, cb := PopOne(f, s, popped, w, preds[w], sigma, delta, cb0, cb);
      popped := popped + {w};
    }
    PoppedAll(f, order, preds, sigma, popped);
    EverythingReturned(f, popped, delta, cb0, cb);
  }

  // ---- the centrality of every node ----

  const MAX_BETWEENNESS_NODES: nat := 5_000

  /** One source: counts, accumulates, and adds its dependencies. */
  method AddSource<W>(g: Graph<W>, s: nat, cb0: seq<real>) returns (cb: seq<real>)
    requires g.Valid() && g.NoParallel() && s < g.nodes && |cb0| == g.nodes
    requires forall v: nat :: v < g.nodes ==> cb0[v] == Gathered(g.Relation(), g.nodes, s, v)
    ensures |cb| == g.nodes
    ensures forall v: nat :: v < g.nodes ==> cb[v] == Gathered(g.Relation(), g.nodes, s + 1, v)
  {
    hide Gathered, Scanned, Levels.Valid, Levels.Depend, Graph.Relation, Graph.NoParallel;
    var stack, preds, sigma, dist := CountShortestPaths(g, s);
    ghost var f := Levels(g.Relation(), g.nodes, s, dist);
    cb := Accumulate(f, s, stack, preds, sigma, cb0);
    ScannedFacts(f.R, f.n, s, stack, preds, sigma, dist);
    forall v: nat | v < g.nodes ensures cb[v] == Gathered(f.R, f.n, s + 1, v) {
      GatherOne(f, v);
    }
  }

  /** Divides by the number of ordered pairs of other nodes, when there are any. */
  method Normalise(n: nat, cb0: seq<real>) returns (cb: seq<real>)
    requires |cb0| == n
    ensures |cb| == n && forall v: nat :: v < n ==> cb[v] == cb0[v] / OtherPairs(n)
  {
    cb := cb0;
    if n > 2 {
      var scale := ((n - 1) * (n - 2)) as real;
      PairsCast(n);
      for i := 0 to n
        invariant |cb| == n
        invariant forall v: nat :: v < n ==> cb[v] == if v < i then cb0[v] / scale else cb0[v]
      {
        cb := cb[i := cb[i] / scale];
      }
    }
  }

  /** Betweenness of every node, `None` above the size limit. */
  method Betweenness<W>(g: Graph<W>) returns (r: Option<seq<real>>)
    requires g.Valid() && g.NoParallel()
    ensures r.None? <==> g.nodes > MAX_BETWEENNESS_NODES
    ensures r.Some? ==> |r.value| == g.nodes
    ensures r.Some? ==> forall v: nat :: v < g.nodes ==>
      r.value[v] == Centrality(g.Relation(), g.nodes, v) && 0.0 <= r.value[v] <= 1.0
  {
    hide Graph.Relation, Graph.NoParallel, Graph.Valid;
    var n := g.nodes;
    if n > MAX_BETWEENNESS_NODES {
      return None;
    }
    var cb := seq(n, _ => 0.0);
    for s := 0 to n
      invariant |cb| == n
      invariant forall v: nat :: v < n ==> cb[v] == Gathered(g.Relation(), n, s, v)
    {
      hide Gathered;
      cb := AddSource(g, s, cb);
    }
    hide Gathered, OtherPairs;
    cb := Normalise(n, cb);
    forall v: nat | v < n ensures cb[v] == Centrality(g.Relation(), n, v) && 0.0 <= cb[v] <= 1.0 {
      CentralityRange(g.Relation(), n, v);
    }
    return Some(cb);
  }

  lemma GatherOne(f: Levels, v: nat)
    requires f.Valid() && v < f.n
    ensures Gathered(f.R, f.n, f.s + 1, v) == Gathered(f.R, f.n, f.s, v) + if v == f.s then 0.0 else f.Depend(v)
  {
    if v != f.s {
      DependIsPairShares(f, v);
    }
  }
}
