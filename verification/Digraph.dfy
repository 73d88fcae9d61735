/** The directed multigraph both package graphs are kept in: node indices below `nodes`, and
    edges identified by their position, in insertion order. Parallel edges are allowed. */
module Digraph {
  import opened Walks

  datatype Edge<+W> = Edge(from: nat, to: nat, weight: W)

  datatype Graph<+W> = Graph(nodes: nat, edges: seq<Edge<W>>) {
    ghost predicate Valid() {
      forall i :: 0 <= i < |edges| ==> edges[i].from < nodes && edges[i].to < nodes
    }

    ghost function Relation(): set<(nat, nat)> {
      set i | 0 <= i < |edges| :: (edges[i].from, edges[i].to)
    }

    /** No two edges share both endpoints. */
    ghost predicate NoParallel() {
      forall i, j :: 0 <= i < j < |edges| ==> edges[i].from != edges[j].from || edges[i].to != edges[j].to
    }

    ghost predicate NoLoop() {
      forall i :: 0 <= i < |edges| ==> edges[i].from != edges[i].to
    }
  }

  /** The ids of the edges leaving `v`, newest first: the order the graph library walks them in. */
  function OutEdges<W>(edges: seq<Edge<W>>, v: nat): (r: seq<nat>)
    ensures forall k :: 0 <= k < |r| ==> r[k] < |edges| && edges[r[k]].from == v
    ensures forall j, k :: 0 <= j < k < |r| ==> r[j] > r[k]
    ensures forall e: nat {:trigger e in r} :: e in r <==> e < |edges| && edges[e].from == v
  {
    if edges == [] then []
    else
      var n := |edges| - 1;
      var rest := OutEdges(edges[..n], v);
      if edges[n].from == v then [n] + rest else rest
  }

  function InEdges<W>(edges: seq<Edge<W>>, v: nat): (r: seq<nat>)
    ensures forall k :: 0 <= k < |r| ==> r[k] < |edges| && edges[r[k]].to == v
    ensures forall j, k :: 0 <= j < k < |r| ==> r[j] > r[k]
    ensures forall e: nat {:trigger e in r} :: e in r <==> e < |edges| && edges[e].to == v
  {
    if edges == [] then []
    else
      var n := |edges| - 1;
      var rest := InEdges(edges[..n], v);
      if edges[n].to == v then [n] + rest else rest
  }

  lemma EdgeInRelation<W>(g: Graph<W>, e: nat)
    requires e < |g.edges|
    ensures (g.edges[e].from, g.edges[e].to) in g.Relation()
  {
  }

  lemma ValidBounds<W>(g: Graph<W>)
    requires g.Valid()
    ensures forall e :: e in g.Relation() ==> e.0 < g.nodes && e.1 < g.nodes
  {
  }
}
