/** Which calls the built call graph has: by what each site was resolved to. */
module CallEdges {
  import opened Options
  import opened Digraph
  import opened Evidence
  import opened FanOut
  import opened FanOutTheorem

  predicate Stands(sy: Symbols, symbol: nat, node: nat) {
    symbol in sy.nodeOf && sy.nodeOf[symbol] == node
  }

  /** A call of `target` lands at `node`: that of its initialiser when it has one. */
  predicate Lands(sy: Symbols, target: nat, node: nat) {
    if target in sy.initOf then Stands(sy, sy.initOf[target], node) else Stands(sy, target, node)
  }

  /** A site's call may go to `to`, at confidence `c`. */
  ghost predicate MayCall(sy: Symbols, site: Site, to: nat, c: Confidence) {
    match site.resolution
    case Definition(t) => Lands(sy, t, to) && c == Resolved
    case Candidates(ts) => c == Ambiguous && ((exists t :: t in ts && Lands(sy, t, to)) || (site.unknown.Some? && Stands(sy, site.unknown.value, to)))
    case External(x) => Stands(sy, x, to) && c == Resolved
    case Unresolved(d) => Stands(sy, d, to) && c == Confidence.Dynamic
  }

  /** Node `from` makes the call of site `key` to `to`: by an edge, or through the fan-out node an edge
      leads to. */
  ghost predicate IsCall(edges: seq<Edge<CallEdge>>, n0: nat, from: nat, key: nat, to: nat, c: Confidence) {
    exists e :: e in edges && e.from == from && e.weight.site == key && LeadsTo(edges, n0, e, to, c)
  }

  lemma LandsIff(sy: Symbols, target: nat, node: nat)
    ensures Lands(sy, target, node) <==> Stands(sy, sy.Callable(target), node)
  {
  }

  lemma EdgeToIff(sy: Symbols, from: nat, target: nat, key: nat, c: Confidence, d: Edge<CallEdge>)
    ensures d in EdgeTo(sy, from, target, key, c) <==> Stands(sy, target, d.to) && d == Edge(from, d.to, CallEdge(key, c))
  {
  }

  lemma CandidatesIff(sy: Symbols, from: nat, targets: seq<nat>, key: nat, d: Edge<CallEdge>)
    ensures d in CandidateEdges(sy, from, targets, key)
       <==> d == Edge(from, d.to, CallEdge(key, Ambiguous)) && exists t :: t in targets && Lands(sy, t, d.to)
  {
    hide CandidateEdges, EdgeTo, Lands, Stands, Symbols.Callable;
    if d in CandidateEdges(sy, from, targets, key) {
      var k :| 0 <= k < |targets| && d in EdgeTo(sy, from, sy.Callable(targets[k]), key, Ambiguous);
      EdgeToIff(sy, from, sy.Callable(targets[k]), key, Ambiguous, d);
      LandsIff(sy, targets[k], d.to);
    }
    if d == Edge(from, d.to, CallEdge(key, Ambiguous)) && exists t :: t in targets && Lands(sy, t, d.to) {
      var t :| t in targets && Lands(sy, t, d.to);
      var k :| 0 <= k < |targets| && targets[k] == t;
      LandsIff(sy, t, d.to);
      EdgeToIff(sy, from, sy.Callable(targets[k]), key, Ambiguous, d);
    }
  }

  /** The direct edges of a site are those of the calls it may make. */
  lemma DirectIff(sy: Symbols, site: Site, d: Edge<CallEdge>)
    requires site.owner in sy.nodeOf
    ensures d in DirectEdges(sy, site)
       <==> d == Edge(sy.nodeOf[site.owner], d.to, CallEdge(site.key, d.weight.confidence)) && MayCall(sy, site, d.to, d.weight.confidence)
  {
    var from := sy.nodeOf[site.owner];
    match site.resolution
    case Definition(t) =>
      LandsIff(sy, t, d.to);
      EdgeToIff(sy, from, sy.Callable(t), site.key, Resolved, d);
      hide EdgeTo, Lands, Stands, Symbols.Callable;
    case Candidates(ts) =>
      CandidatesIff(sy, from, ts, site.key, d);
      if site.unknown.Some? {
        EdgeToIff(sy, from, site.unknown.value, site.key, Ambiguous, d);
      }
      hide CandidateEdges, EdgeTo, Lands, Stands;
    case External(x) => EdgeToIff(sy, from, x, site.key, Resolved, d);
    case Unresolved(u) => EdgeToIff(sy, from, u, site.key, Confidence.Dynamic, d);
  }

  /** Of every build: with fan-outs expanded, a node calls another at a confidence for a site exactly
      when it is the site's owner and the site may make that call. */
  lemma CallsIff(w: Wiring, from: nat, key: nat, to: nat, c: Confidence)
    requires w.Valid() && from < w.sy.nodes
    ensures IsCall(w.Edges(), w.sy.nodes, from, key, to, c) <==>
      exists k :: 0 <= k < |w.sites| && w.sites[k].key == key && Stands(w.sy, w.sites[k].owner, from) && MayCall(w.sy, w.sites[k], to, c)
  {
    if IsCall(w.Edges(), w.sy.nodes, from, key, to, c) {
      var k := CallIsMade(w, from, key, to, c);
    }
    if k :| 0 <= k < |w.sites| && w.sites[k].key == key && Stands(w.sy, w.sites[k].owner, from) && MayCall(w.sy, w.sites[k], to, c) {
      CallIsThere(w, k, to, c);
    }
  }

  lemma CallIsMade(w: Wiring, from: nat, key: nat, to: nat, c: Confidence) returns (k: int)
    requires w.Valid() && from < w.sy.nodes && IsCall(w.Edges(), w.sy.nodes, from, key, to, c)
    ensures 0 <= k < |w.sites| && w.sites[k].key == key && Stands(w.sy, w.sites[k].owner, from) && MayCall(w.sy, w.sites[k], to, c)
  {
    hide Wiring.Valid, Wiring.Edges, MayCall, DirectEdges;
    var n0 := w.sy.nodes;
    var e :| e in w.Edges() && e.from == from && e.weight.site == key && LeadsTo(w.Edges(), n0, e, to, c);
    k := EdgeKinds(w, e);
    OwnerKnown(w, k);
    if e.to < n0 {
      DirectIff(w.sy, w.sites[k], e);
    } else {
      var f :| f in w.Edges() && f.from == e.to && to == f.to && c == MinConfidence(e.weight.confidence, f.weight.confidence);
      var _ := EdgeKinds(w, f);
      HubAdds(w, w.sites[k], e, f);
      DirectIff(w.sy, w.sites[k], Edge(e.from, f.to, e.weight));
    }
  }

  lemma CallIsThere(w: Wiring, k: int, to: nat, c: Confidence)
    requires w.Valid() && 0 <= k < |w.sites| && w.sites[k].owner in w.sy.nodeOf && MayCall(w.sy, w.sites[k], to, c)
    ensures IsCall(w.Edges(), w.sy.nodes, w.sy.nodeOf[w.sites[k].owner], w.sites[k].key, to, c)
  {
    var d := Edge(w.sy.nodeOf[w.sites[k].owner], to, CallEdge(w.sites[k].key, c));
    DirectIff(w.sy, w.sites[k], d);
    assert DirectOf(w, k, d);
    DirectInside(w, k, d);
    hide *;
    DirectLeads(w, k, d);
    var e :| e in w.Edges() && e.from == d.from && e.weight == d.weight && LeadsTo(w.Edges(), w.sy.nodes, e, d.to, d.weight.confidence);
    CallBy(w, e, to, c);
  }

  lemma DirectInside(w: Wiring, k: int, d: Edge<CallEdge>)
    requires w.Valid() && DirectOf(w, k, d)
    ensures d.to < w.sy.nodes
  {
    OwnerKnown(w, k);
    DirectScoped(w.sy, w.sites[k], d);
  }

  lemma CallBy(w: Wiring, e: Edge<CallEdge>, to: nat, c: Confidence)
    requires w.Valid() && e in w.Edges() && LeadsTo(w.Edges(), w.sy.nodes, e, to, c)
    ensures IsCall(w.Edges(), w.sy.nodes, e.from, e.weight.site, to, c)
  {
    hide LeadsTo, Wiring.Edges, Wiring.Valid;
  }

  /** `x` is called by one of the candidates, which is itself or the class it initialises. */
  ghost predicate IsCallee(sy: Symbols, targets: seq<nat>, x: nat) {
    exists t :: t in targets && x == if t in sy.initOf then sy.initOf[t] else t
  }

  /** `s` has the callees of a call by name, in ascending order, and they are more than eight. */
  ghost predicate IsWideCall(sy: Symbols, site: Site, s: seq<nat>) {
    && site.resolution.Candidates? && |s| > 8
    && (forall i, j :: 0 <= i < j < |s| ==> s[i] < s[j])
    && (forall x: nat :: x in s <==> IsCallee(sy, site.resolution.targets, x))
  }

  /** An edge of fan-out `k` to the symbol `x`, placed where that is defined. */
  ghost predicate FansOutTo(w: Wiring, k: nat, e: Edge<CallEdge>, x: nat) {
    k < |w.sets| && x in w.sets[k] && Stands(w.sy, x, e.to)
    && e == Edge(w.sy.nodes + k, e.to, CallEdge(if x in w.sy.placeOf then w.sy.placeOf[x] else 0, Ambiguous))
  }

  /** The edges out of a fan-out node lead to all symbols of its set that have nodes; the sets are
      those of the wide calls by name. */
  lemma FanOutIff(w: Wiring, k: nat, e: Edge<CallEdge>)
    requires w.Valid() && k < |w.sets|
    ensures e in w.Edges() && e.from == w.sy.nodes + k <==> exists x :: FansOutTo(w, k, e, x)
    ensures exists j :: 0 <= j < |w.sites| && IsWideCall(w.sy, w.sites[j], w.sets[k])
  {
    hide Wiring.Valid, Wiring.Edges, IsWideCall, FansOutTo;
    if e in w.Edges() && e.from == w.sy.nodes + k {
      var x := FansOut(w, k, e);
    }
    if x :| FansOutTo(w, k, e, x) {
      HasFanOut(w, k, e, x);
    }
    var j := WideCallOf(w, k);
  }

  lemma HubEdgesIff(sy: Symbols, hub: nat, s: seq<nat>, e: Edge<CallEdge>) returns (x: nat)
    requires e in HubEdges(sy, hub, s)
    ensures e.from == hub && x in s && Stands(sy, x, e.to) && e == Edge(hub, e.to, CallEdge(sy.Place(x), Ambiguous))
  {
    hide HubEdges;
    var k :| 0 <= k < |s| && e in EdgeTo(sy, hub, s[k], sy.Place(s[k]), Ambiguous);
    x := s[k];
  }

  lemma FansOut(w: Wiring, k: nat, e: Edge<CallEdge>) returns (x: nat)
    requires w.Valid() && k < |w.sets| && e in w.Edges() && e.from == w.sy.nodes + k
    ensures FansOutTo(w, k, e, x)
  {
    hide *;
    FromHub(w, k, e);
    x := HubEdgesIff(w.sy, w.sy.nodes + k, w.sets[k], e);
    PlacedAt(w, k, e, x);
  }

  lemma FromHub(w: Wiring, k: nat, e: Edge<CallEdge>)
    requires w.Valid() && k < |w.sets| && e in w.Edges() && e.from == w.sy.nodes + k
    ensures e in HubEdges(w.sy, w.sy.nodes + k, w.sets[k])
  {
    hide *;
    var _ := EdgeKinds(w, e);
    InSomeHub(w.sy, w.sets, k, e);
  }

  lemma InSomeHub(sy: Symbols, keys: seq<seq<nat>>, k: nat, e: Edge<CallEdge>)
    requires e in AllHubs(sy, keys) && e.from == sy.nodes + k
    ensures k < |keys| && e in HubEdges(sy, sy.nodes + k, keys[k])
  {
    hide AllHubs, HubEdges;
    var j :| 0 <= j < |keys| && e in HubEdges(sy, sy.nodes + j, keys[j]);
    var _ := HubEdgesIff(sy, sy.nodes + j, keys[j], e);
  }

  lemma PlacedAt(w: Wiring, k: nat, e: Edge<CallEdge>, x: nat)
    requires k < |w.sets| && x in w.sets[k] && Stands(w.sy, x, e.to) && e == Edge(w.sy.nodes + k, e.to, CallEdge(w.sy.Place(x), Ambiguous))
    ensures FansOutTo(w, k, e, x)
  {
    hide Stands;
  }

  lemma HasFanOut(w: Wiring, k: nat, e: Edge<CallEdge>, x: nat)
    requires w.Valid() && k < |w.sets| && FansOutTo(w, k, e, x)
    ensures e in w.Edges() && e.from == w.sy.nodes + k
  {
    HubEdgeFor(w.sy, w.sy.nodes + k, w.sets[k], x);
    InAllHubs(w.sy, w.sets, k, e);
    hide Wiring.Valid, AllHubs, HubEdges, AllSites;
  }

  lemma WideCallOf(w: Wiring, k: nat) returns (j: int)
    requires w.Valid() && k < |w.sets|
    ensures 0 <= j < |w.sites| && IsWideCall(w.sy, w.sites[j], w.sets[k])
  {
    hide Symbols.Valid, OwnersKnown, Numbers, SetOf;
    assert w.sets[k] in w.sets;
    j :| 0 <= j < |w.sites| && Wide(w.sy, w.sites[j]) && SetOf(w.sy, w.sites[j]) == w.sets[k];
    WideIs(w.sy, w.sites[j]);
  }

  lemma WideIs(sy: Symbols, site: Site)
    requires Wide(sy, site)
    ensures IsWideCall(sy, site, SetOf(sy, site))
  {
    var ts := site.resolution.targets;
    hide CandidateSet;
    forall x: nat ensures x in Callables(sy, ts) <==> IsCallee(sy, ts, x) {
    }
  }
}
