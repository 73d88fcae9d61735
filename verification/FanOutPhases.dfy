/** Fan-out nodes change the phase of no other symbol. */
module FanOutPhases {
  import opened Walks
  import opened Digraph
  import opened FanOut
  import opened FanOutTheorem
  import opened Phases

  /** `direct` and `built` are the call graphs of `w` without and with fan-out nodes, over the
      same symbols below the fan-outs. */
  ghost predicate TwoGraphs(w: Wiring, direct: CallGraph<CallEdge>, built: CallGraph<CallEdge>) {
    && w.Valid() && direct.Valid() && built.Valid()
    && direct.graph == Graph(w.sy.nodes, w.Direct()) && built.graph == Graph(w.sy.nodes + |w.sets|, w.Edges())
    && (forall s :: s in direct.bySymbol ==> s in built.bySymbol && built.bySymbol[s] == direct.bySymbol[s])
    && (forall s :: s in built.bySymbol && built.bySymbol[s] < w.sy.nodes ==> s in direct.bySymbol)
  }

  lemma SameReaches(w: Wiring, direct: CallGraph<CallEdge>, built: CallGraph<CallEdge>, r: nat, s: nat)
    requires TwoGraphs(w, direct, built)
    requires r in built.bySymbol ==> r in direct.bySymbol
    requires s in built.bySymbol ==> s in direct.bySymbol
    ensures Reaches(direct, r, s) <==> Reaches(built, r, s)
  {
    if r in direct.bySymbol && s in direct.bySymbol {
      assert direct.graph.Relation() == Pairs(w.Direct());
      assert built.graph.Relation() == Pairs(w.Edges());
      SameReach(w, direct.bySymbol[r], direct.bySymbol[s]);
    }
  }

  /** With roots among the ordinary symbols, every ordinary symbol keeps its phase. */
  lemma PhasesUnchanged(w: Wiring, direct: CallGraph<CallEdge>, built: CallGraph<CallEdge>, roots: seq<PhaseRoot>,
                        m: Phased, k: Phased, s: nat)
    requires TwoGraphs(w, direct, built)
    requires forall r :: r in roots && r.symbol in built.bySymbol ==> r.symbol in direct.bySymbol
    requires IsPhaseMap(direct, roots, m) && IsPhaseMap(built, roots, k)
    requires s in built.bySymbol ==> s in direct.bySymbol
    ensures s in m <==> s in k
    ensures s in m ==> m[s] == k[s]
  {
    forall p ensures ReachedAt(direct, roots, s, p) <==> ReachedAt(built, roots, s, p) {
      forall r | r in roots ensures Reaches(direct, r.symbol, s) <==> Reaches(built, r.symbol, s) {
        SameReaches(w, direct, built, r.symbol, s);
      }
      hide TwoGraphs, Reaches;
    }
    hide ReachedAt, TwoGraphs;
    assert s in m ==> ReachedAt(direct, roots, s, m[s]);
    assert s in k ==> ReachedAt(built, roots, s, k[s]);
  }
}
