/** Call-graph edges: wide calls share one node per distinct candidate set. */
module FanOut {
  import opened Options
  import opened Walks
  import opened Digraph
  import opened Evidence
  import opened Mediation

  /** Above this many distinct candidates a site goes through a fan-out node. */
  const FANOUT_HUB_MIN: nat := 8

  datatype Resolution =
    | Definition(target: nat)
    | Candidates(targets: seq<nat>)
    | External(name: nat)
    | Unresolved(dynamicSymbol: nat)

  /** A call site, the symbol owning it, and the unknown-receiver symbol of an ambiguous call. */
  datatype Site = Site(key: nat, owner: nat, resolution: Resolution, unknown: Option<nat>)

  datatype CallEdge = CallEdge(site: nat, confidence: Confidence)

  /** Node per symbol, constructor per class, and where each definition stands. */
  datatype Symbols = Symbols(nodeOf: map<nat, nat>, initOf: map<nat, nat>, placeOf: map<nat, nat>, nodes: nat) {
    ghost predicate Valid() {
      && (forall s :: s in nodeOf ==> nodeOf[s] < nodes)
      && (forall s, t :: s in nodeOf && t in nodeOf && nodeOf[s] == nodeOf[t] ==> s == t)
    }

    /** A call to a class enters its constructor when it has one. */
    function Callable(target: nat): nat {
      if target in initOf then initOf[target] else target
    }

    function Place(s: nat): nat {
      if s in placeOf then placeOf[s] else 0
    }
  }

  // ---- candidate sets ----

  ghost predicate Ascending(xs: seq<nat>) {
    forall i, j :: 0 <= i < j < |xs| ==> xs[i] < xs[j]
  }

  function Insert(xs: seq<nat>, x: nat): (r: seq<nat>)
    requires Ascending(xs)
    ensures Ascending(r) && forall y: nat :: y in r <==> y in xs || y == x
  {
    if xs == [] || x < xs[0] then [x] + xs
    else if x == xs[0] then xs
    else
      var rest := Insert(xs[1..], x);
      assert xs == [xs[0]] + xs[1..];
      assert forall k :: 0 <= k < |rest| ==> rest[k] in rest;
      [xs[0]] + rest
  }

  ghost function Callables(sy: Symbols, targets: seq<nat>): set<nat> {
    set t | t in targets :: sy.Callable(t)
  }

  /** The distinct call targets of a candidate list, ascending. */
  function CandidateSet(sy: Symbols, targets: seq<nat>): (r: seq<nat>)
    ensures Ascending(r) && forall x: nat :: x in r <==> x in Callables(sy, targets)
  {
    if targets == [] then []
    else
      assert targets == targets[..|targets| - 1] + [targets[|targets| - 1]];
      Insert(CandidateSet(sy, targets[..|targets| - 1]), sy.Callable(targets[|targets| - 1]))
  }

  /** The candidate set of a site, empty unless it was resolved by name alone. */
  function SetOf(sy: Symbols, site: Site): (r: seq<nat>)
    ensures Ascending(r)
  {
    if site.resolution.Candidates? then CandidateSet(sy, site.resolution.targets) else []
  }

  predicate Wide(sy: Symbols, site: Site) {
    |SetOf(sy, site)| > FANOUT_HUB_MIN
  }

  // ---- edges ----

  function EdgeTo(sy: Symbols, from: nat, target: nat, key: nat, c: Confidence): seq<Edge<CallEdge>> {
    if target in sy.nodeOf then [Edge(from, sy.nodeOf[target], CallEdge(key, c))] else []
  }

  /** One edge per candidate, as written. */
  function CandidateEdges(sy: Symbols, from: nat, targets: seq<nat>, key: nat): (r: seq<Edge<CallEdge>>)
    ensures forall e :: e in r <==> exists k :: 0 <= k < |targets| && e in EdgeTo(sy, from, sy.Callable(targets[k]), key, Ambiguous)
  {
    if targets == [] then []
    else
      assert targets == targets[..|targets| - 1] + [targets[|targets| - 1]];
      CandidateEdges(sy, from, targets[..|targets| - 1], key) + EdgeTo(sy, from, sy.Callable(targets[|targets| - 1]), key, Ambiguous)
  }

  function UnknownEdges(sy: Symbols, from: nat, site: Site): seq<Edge<CallEdge>> {
    if site.unknown.Some? then EdgeTo(sy, from, site.unknown.value, site.key, Ambiguous) else []
  }

  /** The edges of a site with a direct edge to every candidate. */
  function DirectEdges(sy: Symbols, site: Site): seq<Edge<CallEdge>>
    requires site.owner in sy.nodeOf
  {
    var from := sy.nodeOf[site.owner];
    match site.resolution
    case Definition(t) => EdgeTo(sy, from, sy.Callable(t), site.key, Resolved)
    case Candidates(ts) => CandidateEdges(sy, from, ts, site.key) + UnknownEdges(sy, from, site)
    case External(x) => EdgeTo(sy, from, x, site.key, Resolved)
    case Unresolved(d) => EdgeTo(sy, from, d, site.key, Confidence.Dynamic)
  }

  /** The fan-out node of each wide candidate set. */
  type HubTable = map<seq<nat>, nat>

  /** The edges of a site when wide candidate sets have fan-out nodes. */
  function SiteEdges(sy: Symbols, hubs: HubTable, site: Site): seq<Edge<CallEdge>>
    requires site.owner in sy.nodeOf
  {
    if site.resolution.Candidates? && SetOf(sy, site) in hubs then
      var from := sy.nodeOf[site.owner];
      [Edge(from, hubs[SetOf(sy, site)], CallEdge(site.key, Ambiguous))] + UnknownEdges(sy, from, site)
    else DirectEdges(sy, site)
  }

  /** From a fan-out node to each candidate, placed at the candidate's own definition. */
  function HubEdges(sy: Symbols, hub: nat, set_: seq<nat>): (r: seq<Edge<CallEdge>>)
    ensures |r| <= |set_|
    ensures forall e :: e in r <==> exists k :: 0 <= k < |set_| && e in EdgeTo(sy, hub, set_[k], sy.Place(set_[k]), Ambiguous)
  {
    if set_ == [] then []
    else
      assert set_ == set_[..|set_| - 1] + [set_[|set_| - 1]];
      HubEdges(sy, hub, set_[..|set_| - 1]) + EdgeTo(sy, hub, set_[|set_| - 1], sy.Place(set_[|set_| - 1]), Ambiguous)
  }

  function AllDirect(sy: Symbols, sites: seq<Site>): (r: seq<Edge<CallEdge>>)
    requires forall k :: 0 <= k < |sites| ==> sites[k].owner in sy.nodeOf
    ensures forall e :: e in r <==> exists k :: 0 <= k < |sites| && e in DirectEdges(sy, sites[k])
  {
    if sites == [] then []
    else
      assert sites == sites[..|sites| - 1] + [sites[|sites| - 1]];
      AllDirect(sy, sites[..|sites| - 1]) + DirectEdges(sy, sites[|sites| - 1])
  }

  function AllSites(sy: Symbols, hubs: HubTable, sites: seq<Site>): (r: seq<Edge<CallEdge>>)
    requires forall k :: 0 <= k < |sites| ==> sites[k].owner in sy.nodeOf
    ensures forall e :: e in r <==> exists k :: 0 <= k < |sites| && e in SiteEdges(sy, hubs, sites[k])
  {
    if sites == [] then []
    else
      assert sites == sites[..|sites| - 1] + [sites[|sites| - 1]];
      AllSites(sy, hubs, sites[..|sites| - 1]) + SiteEdges(sy, hubs, sites[|sites| - 1])
  }

  function AllHubs(sy: Symbols, keys: seq<seq<nat>>): (r: seq<Edge<CallEdge>>)
    ensures forall e :: e in r <==> exists k :: 0 <= k < |keys| && e in HubEdges(sy, sy.nodes + k, keys[k])
    ensures |r| <= TotalSize(keys)
  {
    if keys == [] then []
    else
      assert keys == keys[..|keys| - 1] + [keys[|keys| - 1]];
      AllHubs(sy, keys[..|keys| - 1]) + HubEdges(sy, sy.nodes + |keys| - 1, keys[|keys| - 1])
  }

  function TotalSize(keys: seq<seq<nat>>): nat {
    if keys == [] then 0 else TotalSize(keys[..|keys| - 1]) + |keys[|keys| - 1]|
  }

  /** `hubs` numbers the sets of `keys` from the first free node on. */
  ghost predicate Numbers(sy: Symbols, keys: seq<seq<nat>>, hubs: HubTable) {
    && (forall k :: 0 <= k < |keys| ==> keys[k] in hubs && hubs[keys[k]] == sy.nodes + k)
    && (forall s :: s in hubs ==> exists k :: 0 <= k < |keys| && keys[k] == s)
  }

  /** `s` is the candidate set of a wide site. */
  ghost predicate IsWideSet(sy: Symbols, sites: seq<Site>, s: seq<nat>) {
    exists k :: 0 <= k < |sites| && Wide(sy, sites[k]) && SetOf(sy, sites[k]) == s
  }

  /** `keys` are the distinct candidate sets of the wide sites. */
  ghost predicate WideSets(sy: Symbols, sites: seq<Site>, keys: seq<seq<nat>>) {
    && (forall i, j :: 0 <= i < j < |keys| ==> keys[i] != keys[j])
    && (forall s: seq<nat> :: s in keys <==> IsWideSet(sy, sites, s))
  }

  lemma IsWideSetSnoc(sy: Symbols, init: seq<Site>, last: Site, s: seq<nat>)
    ensures IsWideSet(sy, init + [last], s) <==> IsWideSet(sy, init, s) || (Wide(sy, last) && SetOf(sy, last) == s)
  {
    hide Wide, SetOf;
    var all := init + [last];
    if IsWideSet(sy, init, s) {
      var k :| 0 <= k < |init| && Wide(sy, init[k]) && SetOf(sy, init[k]) == s;
      assert all[k] == init[k];
    }
    assert all[|init|] == last;
  }

  lemma WideSetsNext(sy: Symbols, sites: seq<Site>, i: nat, keys: seq<seq<nat>>)
    requires i < |sites| && WideSets(sy, sites[..i], keys)
    ensures var s := SetOf(sy, sites[i]);
            WideSets(sy, sites[..i + 1], if Wide(sy, sites[i]) && s !in keys then keys + [s] else keys)
  {
    assert sites[..i + 1] == sites[..i] + [sites[i]];
    forall s: seq<nat> ensures IsWideSet(sy, sites[..i + 1], s) <==> IsWideSet(sy, sites[..i], s) || (Wide(sy, sites[i]) && SetOf(sy, sites[i]) == s) {
      IsWideSetSnoc(sy, sites[..i], sites[i], s);
    }
    hide IsWideSet, Wide, SetOf;
    var s := SetOf(sy, sites[i]);
    assert forall x :: x in keys + [s] <==> x in keys || x == s;
  }

  datatype Result = Built(graph: Graph<CallEdge>, sets: seq<seq<nat>>) | UnknownSymbol(symbol: nat)

  ghost predicate OwnersKnown(sy: Symbols, sites: seq<Site>) {
    forall k :: 0 <= k < |sites| ==> sites[k].owner in sy.nodeOf
  }

  /** Numbers the distinct wide candidate sets from the first free node on. */
  method NumberSets(sy: Symbols, sites: seq<Site>) returns (keys: seq<seq<nat>>, hubs: HubTable)
    ensures WideSets(sy, sites, keys) && Numbers(sy, keys, hubs)
  {
    keys, hubs := [], map[];
    for i := 0 to |sites|
      invariant WideSets(sy, sites[..i], keys) && Numbers(sy, keys, hubs)
    {
      hide WideSets, Wide, SetOf;
      WideSetsNext(sy, sites, i, keys);
      NumbersNext(sy, keys, hubs, SetOf(sy, sites[i]));
      if Wide(sy, sites[i]) && SetOf(sy, sites[i]) !in hubs {
        hubs := hubs[SetOf(sy, sites[i]) := sy.nodes + |keys|];
        keys := keys + [SetOf(sy, sites[i])];
      }
    }
    assert sites[..|sites|] == sites;
  }

  lemma NumbersNext(sy: Symbols, keys: seq<seq<nat>>, hubs: HubTable, s: seq<nat>)
    requires Numbers(sy, keys, hubs)
    ensures s in hubs <==> s in keys
    ensures s !in hubs ==> Numbers(sy, keys + [s], hubs[s := sy.nodes + |keys|])
  {
    if s !in hubs {
      var keys', hubs' := keys + [s], hubs[s := sy.nodes + |keys|];
      forall x | x in hubs' ensures exists k :: 0 <= k < |keys'| && keys'[k] == x {
        if x == s {
          assert keys'[|keys|] == x;
        } else {
          var k :| 0 <= k < |keys| && keys[k] == x;
          assert keys'[k] == x;
        }
      }
    }
  }

  method CollectHubEdges(sy: Symbols, keys: seq<seq<nat>>) returns (edges: seq<Edge<CallEdge>>)
    ensures edges == AllHubs(sy, keys)
  {
    edges := [];
    for k := 0 to |keys|
      invariant edges == AllHubs(sy, keys[..k])
    {
      hide HubEdges;
      assert keys[..k + 1][..k] == keys[..k];
      edges := edges + HubEdges(sy, sy.nodes + k, keys[k]);
    }
    assert keys[..|keys|] == keys;
  }

  /** Every site's edges in order, or the first owner that has no node. */
  method CollectSiteEdges(sy: Symbols, hubs: HubTable, sites: seq<Site>) returns (edges: seq<Edge<CallEdge>>, missing: Option<nat>)
    ensures missing.None? <==> OwnersKnown(sy, sites)
    ensures OwnersKnown(sy, sites) ==> edges == AllSites(sy, hubs, sites)
  {
    edges, missing := [], None;
    for i := 0 to |sites|
      invariant OwnersKnown(sy, sites[..i]) && edges == AllSites(sy, hubs, sites[..i])
    {
      hide SiteEdges;
      if sites[i].owner !in sy.nodeOf {
        return edges, Some(sites[i].owner);
      }
      assert sites[..i + 1][..i] == sites[..i];
      edges := edges + SiteEdges(sy, hubs, sites[i]);
    }
    assert sites[..|sites|] == sites;
  }

  /** Fan-out nodes and all edges; an owner without a node is an error. */
  method BuildEdges(sy: Symbols, sites: seq<Site>) returns (r: Result, ghost hubs: HubTable)
    ensures r.UnknownSymbol? <==> !OwnersKnown(sy, sites)
    ensures r.Built? ==> WideSets(sy, sites, r.sets) && Numbers(sy, r.sets, hubs) && r.graph.nodes == sy.nodes + |r.sets|
    ensures r.Built? ==> r.graph.edges == AllHubs(sy, r.sets) + AllSites(sy, hubs, sites)
  {
    hide WideSets, Numbers, AllHubs, AllSites;
    var keys, table := NumberSets(sy, sites);
    hubs := table;
    var hubEdges := CollectHubEdges(sy, keys);
    var siteEdges, missing := CollectSiteEdges(sy, table, sites);
    r := if missing.Some? then UnknownSymbol(missing.value) else Built(Graph(sy.nodes + |keys|, hubEdges + siteEdges), keys);
  }
}
