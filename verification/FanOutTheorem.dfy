/** Fan-out nodes keep the direct targets and all reachability, and are few. */
module FanOutTheorem {
  import opened Finite
  import opened Walks
  import opened Digraph
  import opened Evidence
  import opened Mediation
  import opened FanOut

  // ---- expanding the fan-outs of a built graph ----

  /** Node `to` at confidence `c` is a target of site `key`: by an edge of the site, or through
      the fan-out node such an edge leads to. Fan-out nodes are those from `n0` on. */
  ghost predicate IsTarget(edges: seq<Edge<CallEdge>>, n0: nat, key: nat, to: nat, c: Confidence) {
    exists e :: e in edges && e.from < n0 && e.weight.site == key && LeadsTo(edges, n0, e, to, c)
  }

  ghost predicate LeadsTo(edges: seq<Edge<CallEdge>>, n0: nat, e: Edge<CallEdge>, to: nat, c: Confidence) {
    if e.to < n0 then to == e.to && c == e.weight.confidence
    else exists f :: f in edges && f.from == e.to && to == f.to && c == MinConfidence(e.weight.confidence, f.weight.confidence)
  }

  /** The candidates of a fan-out node, at the site's confidence or less. */
  function Expansion(edges: seq<Edge<CallEdge>>, hub: nat, c: Confidence): (r: seq<(nat, Confidence)>)
    ensures forall x :: x in r <==> exists f :: f in edges && f.from == hub && x == (f.to, MinConfidence(c, f.weight.confidence))
  {
    if edges == [] then []
    else
      var init, f := edges[..|edges| - 1], edges[|edges| - 1];
      assert edges == init + [f];
      Expansion(init, hub, c) + if f.from == hub then [(f.to, MinConfidence(c, f.weight.confidence))] else []
  }

  function TargetsAlong(edges: seq<Edge<CallEdge>>, n0: nat, e: Edge<CallEdge>): (r: seq<(nat, Confidence)>)
    ensures forall to: nat, c :: (to, c) in r <==> LeadsTo(edges, n0, e, to, c)
  {
    if e.to < n0 then [(e.to, e.weight.confidence)] else Expansion(edges, e.to, e.weight.confidence)
  }

  ghost predicate TargetAmong(edges: seq<Edge<CallEdge>>, some: seq<Edge<CallEdge>>, n0: nat, key: nat, to: nat, c: Confidence) {
    exists e :: e in some && e.from < n0 && e.weight.site == key && LeadsTo(edges, n0, e, to, c)
  }

  lemma TargetAmongNext(edges: seq<Edge<CallEdge>>, i: nat, n0: nat, key: nat)
    requires i < |edges|
    ensures forall to: nat, c ::
      TargetAmong(edges, edges[..i + 1], n0, key, to, c) <==>
      TargetAmong(edges, edges[..i], n0, key, to, c) || (edges[i].from < n0 && edges[i].weight.site == key && LeadsTo(edges, n0, edges[i], to, c))
  {
    hide LeadsTo;
    assert edges[..i + 1] == edges[..i] + [edges[i]];
    assert forall e :: e in edges[..i + 1] <==> e in edges[..i] || e == edges[i];
  }

  function Slot(m: map<nat, seq<(nat, Confidence)>>, key: nat): seq<(nat, Confidence)> {
    if key in m then m[key] else []
  }

  /** `m` holds the targets found along the first `i` edges. */
  ghost predicate SoFar(edges: seq<Edge<CallEdge>>, i: nat, n0: nat, m: map<nat, seq<(nat, Confidence)>>)
    requires i <= |edges|
  {
    forall key: nat, to: nat, c :: (to, c) in Slot(m, key) <==> TargetAmong(edges, edges[..i], n0, key, to, c)
  }

  lemma SoFarNext(edges: seq<Edge<CallEdge>>, i: nat, n0: nat, m: map<nat, seq<(nat, Confidence)>>)
    requires i < |edges| && SoFar(edges, i, n0, m)
    ensures var e := edges[i];
            SoFar(edges, i + 1, n0, if e.from < n0 then m[e.weight.site := Slot(m, e.weight.site) + TargetsAlong(edges, n0, e)] else m)
  {
    var e := edges[i];
    var m' := if e.from < n0 then m[e.weight.site := Slot(m, e.weight.site) + TargetsAlong(edges, n0, e)] else m;
    forall key: nat, to: nat, c ensures (to, c) in Slot(m', key) <==> TargetAmong(edges, edges[..i + 1], n0, key, to, c) {
      TargetAmongNext(edges, i, n0, key);
      hide TargetAmong, LeadsTo, TargetsAlong;
      assert (to, c) in Slot(m, key) <==> TargetAmong(edges, edges[..i], n0, key, to, c);
    }
  }

  /** The resolved targets of every call site, fan-outs expanded. */
  method TargetsOfSites(edges: seq<Edge<CallEdge>>, n0: nat) returns (m: map<nat, seq<(nat, Confidence)>>)
    ensures forall key: nat, to: nat, c :: (to, c) in Slot(m, key) <==> IsTarget(edges, n0, key, to, c)
  {
    m := map[];
    for i := 0 to |edges|
      invariant SoFar(edges, i, n0, m)
    {
      SoFarNext(edges, i, n0, m);
      hide SoFar, TargetsAlong;
      var e := edges[i];
      if e.from < n0 {
        m := m[e.weight.site := Slot(m, e.weight.site) + TargetsAlong(edges, n0, e)];
      }
    }
    assert edges[..|edges|] == edges;
  }

  // ---- a built graph ----

  datatype Wiring = Wiring(sy: Symbols, sites: seq<Site>, sets: seq<seq<nat>>, hubs: HubTable) {
    ghost predicate Valid() {
      sy.Valid() && OwnersKnown(sy, sites) && WideSets(sy, sites, sets) && Numbers(sy, sets, hubs)
    }

    ghost function Edges(): seq<Edge<CallEdge>>
      requires Valid()
    {
      AllHubs(sy, sets) + AllSites(sy, hubs, sites)
    }

    ghost function Direct(): seq<Edge<CallEdge>>
      requires Valid()
    {
      AllDirect(sy, sites)
    }
  }

  lemma DirectScoped(sy: Symbols, site: Site, e: Edge<CallEdge>)
    requires sy.Valid() && site.owner in sy.nodeOf && e in DirectEdges(sy, site)
    ensures e.from == sy.nodeOf[site.owner] && e.to < sy.nodes && e.weight.site == site.key
  {
    hide Symbols.Callable;
    if site.resolution.Candidates? && e in CandidateEdges(sy, e.from, site.resolution.targets, site.key) {
      var k :| 0 <= k < |site.resolution.targets|
               && e in EdgeTo(sy, e.from, sy.Callable(site.resolution.targets[k]), site.key, Ambiguous);
    }
  }

  /** Only sites with a wide set go through a fan-out, and theirs has a node of its own. */
  lemma WideHub(w: Wiring, s: seq<nat>)
    requires w.Valid()
    ensures s in w.hubs <==> IsWideSet(w.sy, w.sites, s)
    ensures s in w.hubs ==> w.sy.nodes <= w.hubs[s] < w.sy.nodes + |w.sets| && w.sets[w.hubs[s] - w.sy.nodes] == s
  {
    hide IsWideSet, Symbols.Valid;
  }

  lemma HubEdgeShape(sy: Symbols, hub: nat, set_: seq<nat>, e: Edge<CallEdge>)
    requires sy.Valid() && e in HubEdges(sy, hub, set_)
    ensures e.from == hub && e.to < sy.nodes && e.weight.confidence == Ambiguous
    ensures exists x: nat :: x in set_ && x in sy.nodeOf && sy.nodeOf[x] == e.to
  {
    var j :| 0 <= j < |set_| && e in EdgeTo(sy, hub, set_[j], sy.Place(set_[j]), Ambiguous);
    assert set_[j] in set_;
  }

  /** An edge out of a fan-out node leads to a candidate of its set. */
  lemma OutOfHub(w: Wiring, e: Edge<CallEdge>)
    requires w.Valid() && e in AllHubs(w.sy, w.sets)
    ensures w.sy.nodes <= e.from < w.sy.nodes + |w.sets| && e.to < w.sy.nodes && e.weight.confidence == Ambiguous
    ensures exists x: nat :: x in w.sets[e.from - w.sy.nodes] && x in w.sy.nodeOf && w.sy.nodeOf[x] == e.to
  {
    hide WideSets, Numbers, OwnersKnown, AllHubs, HubEdges, Symbols.Valid;
    var k :| 0 <= k < |w.sets| && e in HubEdges(w.sy, w.sy.nodes + k, w.sets[k]);
    HubEdgeShape(w.sy, w.sy.nodes + k, w.sets[k], e);
  }

  lemma HubEdgeFor(sy: Symbols, hub: nat, set_: seq<nat>, x: nat)
    requires x in set_ && x in sy.nodeOf
    ensures Edge(hub, sy.nodeOf[x], CallEdge(sy.Place(x), Ambiguous)) in HubEdges(sy, hub, set_)
  {
    var j :| 0 <= j < |set_| && set_[j] == x;
    assert Edge(hub, sy.nodeOf[x], CallEdge(sy.Place(x), Ambiguous)) in EdgeTo(sy, hub, set_[j], sy.Place(set_[j]), Ambiguous);
  }

  lemma InAllHubs(sy: Symbols, keys: seq<seq<nat>>, k: nat, e: Edge<CallEdge>)
    requires k < |keys| && e in HubEdges(sy, sy.nodes + k, keys[k])
    ensures e in AllHubs(sy, keys)
  {
    hide *;
  }

  lemma HubReachesCandidate(w: Wiring, s: seq<nat>, x: nat)
    requires w.Valid() && s in w.hubs && x in s && x in w.sy.nodeOf
    ensures Edge(w.hubs[s], w.sy.nodeOf[x], CallEdge(w.sy.Place(x), Ambiguous)) in AllHubs(w.sy, w.sets)
  {
    WideHub(w, s);
    HubEdgeFor(w.sy, w.hubs[s], s, x);
    hide *;
    InAllHubs(w.sy, w.sets, w.hubs[s] - w.sy.nodes, Edge(w.hubs[s], w.sy.nodeOf[x], CallEdge(w.sy.Place(x), Ambiguous)));
  }

  // ---- one site, direct and fanned out ----

  /** `e` goes from the owner of `site` to its fan-out node. */
  ghost predicate ToHub(w: Wiring, site: Site, e: Edge<CallEdge>)
    requires site.owner in w.sy.nodeOf
  {
    && site.resolution.Candidates? && SetOf(w.sy, site) in w.hubs
    && e == Edge(w.sy.nodeOf[site.owner], w.hubs[SetOf(w.sy, site)], CallEdge(site.key, Ambiguous))
  }

  /** What a site adds is a direct edge or its one edge to a fan-out node. */
  lemma SiteAdds(w: Wiring, site: Site, e: Edge<CallEdge>)
    requires w.Valid() && site.owner in w.sy.nodeOf && e in SiteEdges(w.sy, w.hubs, site)
    ensures (e in DirectEdges(w.sy, site) && e.to < w.sy.nodes) || (ToHub(w, site, e) && e.to >= w.sy.nodes)
  {
    hide OwnersKnown, WideSets, Numbers, SetOf, CandidateEdges;
    if ToHub(w, site, e) {
      WideHub(w, SetOf(w.sy, site));
    } else {
      assert e in DirectEdges(w.sy, site);
      DirectScoped(w.sy, site, e);
    }
  }

  lemma CandidateEdgeShape(sy: Symbols, from: nat, targets: seq<nat>, key: nat, e: Edge<CallEdge>)
    ensures e in CandidateEdges(sy, from, targets, key) <==>
            exists x: nat :: x in Callables(sy, targets) && x in sy.nodeOf && e == Edge(from, sy.nodeOf[x], CallEdge(key, Ambiguous))
  {
    hide CandidateEdges, Symbols.Callable;
    if e in CandidateEdges(sy, from, targets, key) {
      var k :| 0 <= k < |targets| && e in EdgeTo(sy, from, sy.Callable(targets[k]), key, Ambiguous);
      assert sy.Callable(targets[k]) in Callables(sy, targets);
    }
    if x: nat :| x in Callables(sy, targets) && x in sy.nodeOf && e == Edge(from, sy.nodeOf[x], CallEdge(key, Ambiguous)) {
      var t :| t in targets && sy.Callable(t) == x;
      var k :| 0 <= k < |targets| && targets[k] == t;
      assert e in EdgeTo(sy, from, sy.Callable(targets[k]), key, Ambiguous);
    }
  }

  /** Through its fan-out node a site reaches its direct targets only. */
  lemma HubAdds(w: Wiring, site: Site, e: Edge<CallEdge>, f: Edge<CallEdge>)
    requires w.Valid() && site.owner in w.sy.nodeOf && ToHub(w, site, e)
    requires f in AllHubs(w.sy, w.sets) && f.from == e.to
    ensures f.weight.confidence == Ambiguous && f.to < w.sy.nodes
    ensures Edge(e.from, f.to, e.weight) in DirectEdges(w.sy, site)
  {
    var s := SetOf(w.sy, site);
    WideHub(w, s);
    OutOfHub(w, f);
    hide OwnersKnown, WideSets, Numbers, AllHubs, CandidateEdges, Callables, CandidateSet, Symbols.Valid;
    CandidateEdgeShape(w.sy, e.from, site.resolution.targets, site.key, Edge(e.from, f.to, e.weight));
    assert forall x: nat :: x in s ==> x in Callables(w.sy, site.resolution.targets);
  }

  ghost predicate HasHubEdge(w: Wiring, h: nat, to: nat) {
    exists f :: f in AllHubs(w.sy, w.sets) && f.from == h && f.to == to && f.weight.confidence == Ambiguous
  }

  /** A direct edge of a site is kept, or leads through the site's fan-out node. */
  lemma SiteKeeps(w: Wiring, site: Site, d: Edge<CallEdge>)
    requires w.Valid() && site.owner in w.sy.nodeOf && d in DirectEdges(w.sy, site)
    ensures d in SiteEdges(w.sy, w.hubs, site) || ViaHub(w, site, d)
  {
    hide OwnersKnown, WideSets, Numbers, AllHubs, CandidateEdges, Callables, CandidateSet, Symbols.Valid;
    if site.resolution.Candidates? && SetOf(w.sy, site) in w.hubs {
      var s := SetOf(w.sy, site);
      if d in CandidateEdges(w.sy, w.sy.nodeOf[site.owner], site.resolution.targets, site.key) {
        CandidateEdgeShape(w.sy, w.sy.nodeOf[site.owner], site.resolution.targets, site.key, d);
        var x: nat :| x in Callables(w.sy, site.resolution.targets) && x in w.sy.nodeOf
                      && d == Edge(w.sy.nodeOf[site.owner], w.sy.nodeOf[x], CallEdge(site.key, Ambiguous));
        assert x in s;
        HubReachesCandidate(w, s, x);
        assert HasHubEdge(w, w.hubs[s], d.to);
      }
    }
  }

  ghost predicate ViaHub(w: Wiring, site: Site, d: Edge<CallEdge>)
    requires site.owner in w.sy.nodeOf
  {
    && site.resolution.Candidates? && SetOf(w.sy, site) in w.hubs
    && d.from == w.sy.nodeOf[site.owner] && d.weight == CallEdge(site.key, Ambiguous)
    && Edge(d.from, w.hubs[SetOf(w.sy, site)], d.weight) in SiteEdges(w.sy, w.hubs, site)
    && HasHubEdge(w, w.hubs[SetOf(w.sy, site)], d.to)
  }

  // ---- all sites ----

  ghost predicate DirectOf(w: Wiring, k: int, d: Edge<CallEdge>)
    requires w.Valid()
  {
    0 <= k < |w.sites| && d in DirectEdges(w.sy, w.sites[k])
  }

  lemma DirectOfSite(w: Wiring, d: Edge<CallEdge>) returns (k: int)
    requires w.Valid() && d in w.Direct()
    ensures DirectOf(w, k, d) && d.from < w.sy.nodes && d.to < w.sy.nodes
  {
    hide WideSets, Numbers, AllDirect, DirectEdges;
    k :| 0 <= k < |w.sites| && d in DirectEdges(w.sy, w.sites[k]);
    DirectScoped(w.sy, w.sites[k], d);
  }

  /** Every edge of the built graph: out of a fan-out node, direct, or to a site's fan-out node. */
  lemma EdgeKinds(w: Wiring, e: Edge<CallEdge>) returns (k: int)
    requires w.Valid() && e in w.Edges()
    ensures e.from < w.sy.nodes ==> 0 <= k < |w.sites|
    ensures e.from < w.sy.nodes ==> (DirectOf(w, k, e) && e.to < w.sy.nodes) || (ToHub(w, w.sites[k], e) && e.to >= w.sy.nodes)
    ensures e.from >= w.sy.nodes ==> e in AllHubs(w.sy, w.sets)
  {
    k := 0;
    if e in AllHubs(w.sy, w.sets) {
      OutOfHub(w, e);
    } else {
      hide WideSets, Numbers, AllHubs, AllSites, DirectEdges, SiteEdges, ToHub;
      k :| 0 <= k < |w.sites| && e in SiteEdges(w.sy, w.hubs, w.sites[k]);
      SiteAdds(w, w.sites[k], e);
      SiteFrom(w, w.sites[k], e);
    }
  }

  lemma SiteFrom(w: Wiring, site: Site, e: Edge<CallEdge>)
    requires w.Valid() && site.owner in w.sy.nodeOf && e in SiteEdges(w.sy, w.hubs, site)
    ensures e.from == w.sy.nodeOf[site.owner] && e.from < w.sy.nodes && e.weight.site == site.key
  {
    hide WideSets, Numbers, OwnersKnown, DirectEdges;
    SiteAdds(w, site, e);
    if e in DirectEdges(w.sy, site) {
      DirectScoped(w.sy, site, e);
    }
  }

  lemma InDirect(w: Wiring, k: int, d: Edge<CallEdge>)
    requires w.Valid() && DirectOf(w, k, d)
    ensures d in w.Direct()
  {
    hide WideSets, Numbers, DirectEdges;
  }

  lemma InEdges(w: Wiring, k: nat, e: Edge<CallEdge>)
    requires w.Valid() && k < |w.sites| && e in SiteEdges(w.sy, w.hubs, w.sites[k])
    ensures e in w.Edges()
  {
    hide WideSets, Numbers, SiteEdges, AllHubs;
  }

  /** Expanding the fan-outs gives back the direct targets of every site, with their confidence. */
  lemma ExpansionIsDirect(w: Wiring, key: nat, to: nat, c: Confidence)
    requires w.Valid()
    ensures IsTarget(w.Edges(), w.sy.nodes, key, to, c) <==> IsTarget(w.Direct(), w.sy.nodes, key, to, c)
  {
    if IsTarget(w.Edges(), w.sy.nodes, key, to, c) {
      ExpansionOnlyDirect(w, key, to, c);
    }
    if IsTarget(w.Direct(), w.sy.nodes, key, to, c) {
      DirectExpands(w, key, to, c);
    }
  }

  lemma ExpansionOnlyDirect(w: Wiring, key: nat, to: nat, c: Confidence)
    requires w.Valid() && IsTarget(w.Edges(), w.sy.nodes, key, to, c)
    ensures IsTarget(w.Direct(), w.sy.nodes, key, to, c)
  {
    hide Wiring.Valid;
    var n0 := w.sy.nodes;
    var e :| e in w.Edges() && e.from < n0 && e.weight.site == key && LeadsTo(w.Edges(), n0, e, to, c);
    var k := EdgeKinds(w, e);
    hide Wiring.Edges, Wiring.Direct;
    if e.to < n0 {
      InDirect(w, k, e);
      assert LeadsTo(w.Direct(), n0, e, to, c);
    } else {
      var f :| f in w.Edges() && f.from == e.to && to == f.to && c == MinConfidence(e.weight.confidence, f.weight.confidence);
      var _ := EdgeKinds(w, f);
      OwnerKnown(w, k);
      HubAdds(w, w.sites[k], e, f);
      var d := Edge(e.from, to, e.weight);
      InDirect(w, k, d);
      assert LeadsTo(w.Direct(), n0, d, to, c);
    }
  }

  lemma OwnerKnown(w: Wiring, k: int)
    requires w.Valid() && 0 <= k < |w.sites|
    ensures w.sites[k].owner in w.sy.nodeOf
  {
  }

  lemma DirectExpands(w: Wiring, key: nat, to: nat, c: Confidence)
    requires w.Valid() && IsTarget(w.Direct(), w.sy.nodes, key, to, c)
    ensures IsTarget(w.Edges(), w.sy.nodes, key, to, c)
  {
    hide Wiring.Valid;
    var n0 := w.sy.nodes;
    var d :| d in w.Direct() && d.from < n0 && d.weight.site == key && LeadsTo(w.Direct(), n0, d, to, c);
    var k := DirectOfSite(w, d);
    OwnerKnown(w, k);
    hide Wiring.Direct;
    DirectLeads(w, k, d);
    var e :| e in w.Edges() && e.from == d.from && e.weight == d.weight && LeadsTo(w.Edges(), n0, e, d.to, d.weight.confidence);
  }

  lemma DirectLeads(w: Wiring, k: int, d: Edge<CallEdge>)
    requires w.Valid() && DirectOf(w, k, d) && d.to < w.sy.nodes
    ensures exists e :: e in w.Edges() && e.from == d.from && e.weight == d.weight
                     && LeadsTo(w.Edges(), w.sy.nodes, e, d.to, d.weight.confidence)
  {
    OwnerKnown(w, k);
    SiteKeeps(w, w.sites[k], d);
    if d in SiteEdges(w.sy, w.hubs, w.sites[k]) {
      hide *;
      InEdges(w, k, d);
      DirectLeadsItself(w, d);
    } else {
      var h := w.hubs[SetOf(w.sy, w.sites[k])];
      var e := Edge(d.from, h, d.weight);
      InEdges(w, k, e);
      WideHub(w, SetOf(w.sy, w.sites[k]));
      assert HasHubEdge(w, h, d.to);
      assert LeadsTo(w.Edges(), w.sy.nodes, e, d.to, d.weight.confidence);
    }
  }

  lemma DirectLeadsItself(w: Wiring, d: Edge<CallEdge>)
    requires w.Valid() && d in w.Edges() && d.to < w.sy.nodes
    ensures LeadsTo(w.Edges(), w.sy.nodes, d, d.to, d.weight.confidence)
  {
    hide Wiring.Edges, Wiring.Valid;
  }

  // ---- reachability through the fan-outs ----

  ghost function Pairs(edges: seq<Edge<CallEdge>>): set<(nat, nat)> {
    set i | 0 <= i < |edges| :: (edges[i].from, edges[i].to)
  }

  ghost function HubIds(w: Wiring): (r: set<nat>)
    ensures forall h: nat :: h in r <==> w.sy.nodes <= h < w.sy.nodes + |w.sets|
  {
    UpTo(w.sy.nodes + |w.sets|) - UpTo(w.sy.nodes)
  }

  lemma PairEdge(edges: seq<Edge<CallEdge>>, p: (nat, nat)) returns (e: Edge<CallEdge>)
    requires p in Pairs(edges)
    ensures e in edges && e.from == p.0 && e.to == p.1
  {
    var i :| 0 <= i < |edges| && (edges[i].from, edges[i].to) == p;
    e := edges[i];
  }

  lemma EdgePair(edges: seq<Edge<CallEdge>>, e: Edge<CallEdge>)
    requires e in edges
    ensures (e.from, e.to) in Pairs(edges)
  {
    var i :| 0 <= i < |edges| && edges[i] == e;
  }

  lemma DirectIsDetoured(w: Wiring, p: (nat, nat))
    requires w.Valid() && p in Pairs(w.Direct())
    ensures p.0 < w.sy.nodes && p.1 < w.sy.nodes
    ensures p in Pairs(w.Edges()) || HasDetour(Pairs(w.Edges()), HubIds(w), p)
  {
    hide Wiring.Valid, Wiring.Edges, Wiring.Direct, Pairs;
    var d := PairEdge(w.Direct(), p);
    var k := DirectOfSite(w, d);
    DirectLeads(w, k, d);
    var e :| e in w.Edges() && e.from == d.from && e.weight == d.weight && LeadsTo(w.Edges(), w.sy.nodes, e, d.to, d.weight.confidence);
    EdgePair(w.Edges(), e);
    if e.to >= w.sy.nodes {
      var f :| f in w.Edges() && f.from == e.to && f.to == d.to;
      EdgePair(w.Edges(), f);
      var _ := EdgeKinds(w, f);
      OutOfHub(w, f);
      assert e.to in HubIds(w);
    }
  }

  lemma EdgesStayDirect(w: Wiring, p: (nat, nat))
    requires w.Valid() && p in Pairs(w.Edges())
    ensures p.0 in HubIds(w) ==> p.1 < w.sy.nodes
    ensures p.0 !in HubIds(w) && p.1 !in HubIds(w) ==> p in Pairs(w.Direct())
  {
    var e := PairEdge(w.Edges(), p);
    var k := EdgeKinds(w, e);
    if e.from >= w.sy.nodes {
      hide *;
      OutOfHub(w, e);
    } else if e.to < w.sy.nodes {
      hide *;
      InDirect(w, k, e);
      EdgePair(w.Direct(), e);
    } else {
      OwnerKnown(w, k);
      WideHub(w, SetOf(w.sy, w.sites[k]));
    }
  }

  lemma DetoursAreDirect(w: Wiring, p: (nat, nat), q: (nat, nat))
    requires w.Valid() && p in Pairs(w.Edges()) && q in Pairs(w.Edges()) && p.1 == q.0 && p.1 in HubIds(w)
    ensures (p.0, q.1) in Pairs(w.Direct())
  {
    EdgesStayDirect(w, p);
    var e := PairEdge(w.Edges(), p);
    var f := PairEdge(w.Edges(), q);
    var k := EdgeKinds(w, e);
    var _ := EdgeKinds(w, f);
    if e.from >= w.sy.nodes {
      OutOfHub(w, e);
    } else {
      OwnerKnown(w, k);
      HubAdds(w, w.sites[k], e, f);
      hide *;
      InDirect(w, k, Edge(e.from, f.to, e.weight));
      EdgePair(w.Direct(), Edge(e.from, f.to, e.weight));
    }
  }

  /** Every symbol reaches the same symbols with and without the fan-out nodes. */
  lemma SameReach(w: Wiring, a: nat, b: nat)
    requires w.Valid() && a < w.sy.nodes && b < w.sy.nodes
    ensures Reach(Pairs(w.Direct()), a, b) <==> Reach(Pairs(w.Edges()), a, b)
  {
    var D, M, hubs := Pairs(w.Direct()), Pairs(w.Edges()), HubIds(w);
    hide Wiring.Valid, Wiring.Edges, Wiring.Direct, Pairs, Reach;
    forall p | p in D
      ensures p.0 !in hubs && p.1 !in hubs && (p in M || HasDetour(M, hubs, p))
    {
      DirectIsDetoured(w, p);
    }
    forall p | p in M
      ensures (p.0 !in hubs || p.1 !in hubs) && (p.0 !in hubs && p.1 !in hubs ==> p in D)
    {
      EdgesStayDirect(w, p);
    }
    forall p, q | p in M && q in M && p.1 == q.0 && p.1 in hubs
      ensures (p.0, q.1) in D
    {
      DetoursAreDirect(w, p, q);
    }
    Mediation.SameReach(D, M, hubs, a, b);
  }

  // ---- how many edges ----

  /** The wide sites, in order. */
  function WideSites(sy: Symbols, sites: seq<Site>): (r: seq<Site>)
    ensures |r| <= |sites|
    ensures forall x :: x in r <==> x in sites && Wide(sy, x)
  {
    if sites == [] then []
    else
      var init, last := sites[..|sites| - 1], sites[|sites| - 1];
      assert sites == init + [last];
      WideSites(sy, init) + if Wide(sy, last) then [last] else []
  }

  lemma {:induction false} TwoPerSite(sy: Symbols, hubs: HubTable, sites: seq<Site>)
    requires forall k :: 0 <= k < |sites| ==> sites[k].owner in sy.nodeOf && Wide(sy, sites[k]) && SetOf(sy, sites[k]) in hubs
    ensures |AllSites(sy, hubs, sites)| <= 2 * |sites|
  {
    if sites != [] {
      TwoPerSite(sy, hubs, sites[..|sites| - 1]);
    }
  }

  /** Wide sites cost at most two edges each, and each distinct candidate set is paid for once. */
  lemma FewEdges(w: Wiring)
    requires w.Valid()
    ensures var wide := WideSites(w.sy, w.sites);
            && (forall k :: 0 <= k < |wide| ==> wide[k].owner in w.sy.nodeOf)
            && |AllHubs(w.sy, w.sets)| + |AllSites(w.sy, w.hubs, wide)| <= 2 * |wide| + TotalSize(w.sets)
  {
    var wide := WideSites(w.sy, w.sites);
    forall k | 0 <= k < |wide| ensures wide[k].owner in w.sy.nodeOf && SetOf(w.sy, wide[k]) in w.hubs && Wide(w.sy, wide[k]) {
      assert wide[k] in w.sites && Wide(w.sy, wide[k]);
      var j :| 0 <= j < |w.sites| && w.sites[j] == wide[k];
      WideHub(w, SetOf(w.sy, wide[k]));
    }
    TwoPerSite(w.sy, w.hubs, wide);
  }
}
