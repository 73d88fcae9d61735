/** The second pass: reads to their definitions, then package calls. */
module FlowGraph {
  import opened Options
  import opened Evidence
  import opened Calls
  import opened Hubs
  import opened FlowSyntax
  import opened FlowWalker
  import opened Walks
  import HubWiring
  import HubTheorem

  /** An enclosing scope is numbered before the scopes inside it. */
  predicate Climbs(scopeOf: map<nat, nat>) {
    forall s :: s in scopeOf ==> scopeOf[s] < s
  }

  /** The nearest scope, outwards from `o`, with a definition of `name`. */
  function Nearest(keys: set<(nat, string)>, scopeOf: map<nat, nat>, o: nat, name: string): Option<nat>
    requires Climbs(scopeOf)
    decreases o
  {
    if (o, name) in keys then Some(o)
    else if o in scopeOf then Nearest(keys, scopeOf, scopeOf[o], name)
    else None
  }

  lemma {:induction false} NearestFound(keys: set<(nat, string)>, scopeOf: map<nat, nat>, o: nat, name: string)
    requires Climbs(scopeOf)
    ensures Nearest(keys, scopeOf, o, name).Some? ==> (Nearest(keys, scopeOf, o, name).value, name) in keys
    decreases o
  {
    if (o, name) !in keys && o in scopeOf {
      NearestFound(keys, scopeOf, scopeOf[o], name);
    }
  }

  function LinksOnto(froms: seq<nat>, to: nat): (r: seq<Link>)
    ensures forall l :: l in r <==> l.from in froms && l.to == to && l.confidence == Resolved
  {
    if froms == [] then []
    else
      assert froms == froms[..|froms| - 1] + [froms[|froms| - 1]];
      LinksOnto(froms[..|froms| - 1], to) + [Link(froms[|froms| - 1], to, Resolved)]
  }

  /** The links of one read. */
  function ReadLinks(defs: Bindings, scopeOf: map<nat, nat>, r: PendingRead): seq<Link>
    requires Climbs(scopeOf)
  {
    match Nearest(defs.Keys, scopeOf, r.owner, r.name)
    case Some(s) => LinksOnto(DefsAt(defs, s, r.name), r.node)
    case None => []
  }

  function AllReadLinks(defs: Bindings, scopeOf: map<nat, nat>, rs: seq<PendingRead>): (r: seq<Link>)
    requires Climbs(scopeOf)
    ensures forall l :: l in r <==> exists x :: x in rs && l in ReadLinks(defs, scopeOf, x)
  {
    if rs == [] then []
    else
      assert rs == rs[..|rs| - 1] + [rs[|rs| - 1]];
      AllReadLinks(defs, scopeOf, rs[..|rs| - 1]) + ReadLinks(defs, scopeOf, rs[|rs| - 1])
  }

  /** The links of one read, climbing scope by scope. */
  method ResolveRead(defs: Bindings, scopeOf: map<nat, nat>, r: PendingRead) returns (links: seq<Link>)
    requires Climbs(scopeOf)
    ensures links == ReadLinks(defs, scopeOf, r)
  {
    links := [];
    var scope := Some(r.owner);
    while scope.Some?
      invariant scope.Some? ==> Nearest(defs.Keys, scopeOf, scope.value, r.name) == Nearest(defs.Keys, scopeOf, r.owner, r.name)
      invariant scope.None? ==> Nearest(defs.Keys, scopeOf, r.owner, r.name) == None
      invariant links == []
      decreases if scope.Some? then scope.value + 1 else 0
    {
      var here := scope.value;
      if (here, r.name) in defs {
        var found := defs[(here, r.name)];
        for i := 0 to |found|
          invariant links == LinksOnto(found[..i], r.node)
        {
          assert found[..i + 1][..i] == found[..i];
          links := links + [Link(found[i], r.node, Resolved)];
        }
        assert found[..|found|] == found;
        return;
      }
      scope := if here in scopeOf then Some(scopeOf[here]) else None;
    }
  }

  method ResolveReads(defs: Bindings, scopeOf: map<nat, nat>, rs: seq<PendingRead>) returns (links: seq<Link>)
    requires Climbs(scopeOf)
    ensures links == AllReadLinks(defs, scopeOf, rs)
  {
    links := [];
    for i := 0 to |rs|
      invariant links == AllReadLinks(defs, scopeOf, rs[..i])
    {
      hide ReadLinks;
      assert rs[..i + 1][..i] == rs[..i];
      var more := ResolveRead(defs, scopeOf, rs[i]);
      links := links + more;
    }
    assert rs[..|rs|] == rs;
  }

  // ---- the graph of a program ----

  function Methods(fs: seq<Function>): (r: set<nat>)
    ensures forall s: nat :: s in r <==> exists f :: f in fs && f.symbol == s && f.isMethod
  {
    set f | f in fs && f.isMethod :: f.symbol
  }

  function Inits(fs: seq<Function>): (r: set<nat>)
    ensures forall s: nat :: s in r <==> exists f :: f in fs && f.symbol == s && f.isInit
  {
    set f | f in fs && f.isInit :: f.symbol
  }

  /** Everything the first pass records. */
  function LogOf(p: Program): seq<Event> {
    ModulesVisited(p.modules)
  }

  function DefinitionsOf(p: Program): Definitions {
    Definitions(ParamsOf(LogOf(p)), ResultsOf(LogOf(p)), Methods(FunctionsOf(p.modules)), Inits(FunctionsOf(p.modules)))
  }

  /** The links there are before package calls are wired. */
  function BaseLinks(p: Program): seq<Link>
    requires Climbs(p.scopeOf)
  {
    LinksOf(LogOf(p)) + AllReadLinks(DefsOf(LogOf(p)), p.scopeOf, ReadsOf(LogOf(p)))
  }

  /** `w` is the finished graph of `p`. */
  ghost predicate IsGraphOf(p: Program, w: HubTheorem.Wiring)
    requires Climbs(p.scopeOf)
  {
    w.Valid() && w.defs == DefinitionsOf(p) && w.base == BaseLinks(p) && w.calls == CallsOf(LogOf(p))
  }

  /** The data-flow graph of a program, and how many of its nodes are not hubs. */
  method Build(p: Program) returns (g: HubWiring.Walker, nodes: nat)
    requires Climbs(p.scopeOf)
    ensures IsGraphOf(p, HubTheorem.Wiring(DefinitionsOf(p), BaseLinks(p), CallsOf(LogOf(p)), nodes, g.nodes, g.links, g.hubs, g.plain, g.fills, g.taken))
  {
    hide *;
    var base, calls, defs;
    base, calls, defs, nodes := FirstPass(p);
    g := HubTheorem.Wire(defs, nodes, base, calls);
    MadeGraph(p, HubTheorem.Wiring(defs, base, calls, nodes, g.nodes, g.links, g.hubs, g.plain, g.fills, g.taken));
  }

  method FirstPass(p: Program) returns (base: seq<Link>, calls: seq<PendingCall>, defs: Definitions, nodes: nat)
    requires Climbs(p.scopeOf)
    ensures base == BaseLinks(p) && calls == CallsOf(LogOf(p)) && defs == DefinitionsOf(p)
    ensures HubTheorem.Scoped(defs, base, calls, nodes)
  {
    var walk := new FlowWalker.Walker();
    walk.VisitModules(p.modules);
    var more := ResolveReads(walk.defs, p.scopeOf, walk.pendingReads);
    var fs := FunctionsOf(p.modules);
    base, calls, nodes := walk.links + more, walk.packageCalls, walk.nodes;
    defs := Definitions(walk.params, walk.results, Methods(fs), Inits(fs));
    assert walk.log == LogOf(p);
    AllScoped(p, nodes);
    hide LinksOf, DefsOf, ParamsOf, ResultsOf, ReadsOf, CallsOf, Bounded, LogOf, AllReadLinks, HubTheorem.Scoped;
  }

  lemma MadeGraph(p: Program, w: HubTheorem.Wiring)
    requires Climbs(p.scopeOf) && w.Valid() && w.defs == DefinitionsOf(p) && w.base == BaseLinks(p) && w.calls == CallsOf(LogOf(p))
    ensures IsGraphOf(p, w)
  {
    hide HubTheorem.Wiring.Valid, DefinitionsOf, BaseLinks;
  }

  // ---- every node was recorded ----

  lemma {:induction false} ParamsRecorded(log: seq<Event>, f: nat, k: nat)
    requires k < |ParamsAt(ParamsOf(log), f)|
    ensures var q := ParamsAt(ParamsOf(log), f)[k]; HasParam(f, q.name, q.node) in log
  {
    var init, v := log[..|log| - 1], log[|log| - 1];
    assert log == init + [v];
    if k < |ParamsAt(ParamsOf(init), f)| {
      ParamsRecorded(init, f, k);
    }
  }

  lemma LinksScoped(p: Program, n: nat, l: Link)
    requires Climbs(p.scopeOf) && Bounded(LogOf(p), n) && l in BaseLinks(p)
    ensures l.from < n && l.to < n
  {
    var log := LogOf(p);
    hide LogOf, EventBound, ReadLinks;
    if l in LinksOf(log) {
      assert EventBound(Linked(l)) <= n;
      LinkBound(l, n);
    } else {
      var r :| r in ReadsOf(log) && l in ReadLinks(DefsOf(log), p.scopeOf, r);
      assert EventBound(Read(r)) <= n;
      ReadScoped(p, n, l, r);
    }
  }

  lemma LinkBound(l: Link, n: nat)
    requires EventBound(Linked(l)) <= n
    ensures l.from < n && l.to < n
  {
  }

  lemma ReadScoped(p: Program, n: nat, l: Link, r: PendingRead)
    requires Climbs(p.scopeOf) && Bounded(LogOf(p), n) && EventBound(Read(r)) <= n
    requires l in ReadLinks(DefsOf(LogOf(p)), p.scopeOf, r)
    ensures l.from < n && l.to < n
  {
    var log := LogOf(p);
    hide LogOf;
    var s := Nearest(DefsOf(log).Keys, p.scopeOf, r.owner, r.name).value;
    assert Defined(s, r.name, l.from) in log;
  }

  lemma CallBound(c: PendingCall, n: nat)
    requires EventBound(Called(c)) <= n
    ensures HubTheorem.CallScoped(c, n)
  {
    var all := [c.result] + c.receiver + Flat(c.positional) + FlatNamed(c.keyword) + Flat(c.splat);
    assert all[0] == c.result && c.result in all;
    assert forall a: nat :: a in c.receiver || a in Flat(c.positional) || a in FlatNamed(c.keyword) || a in Flat(c.splat) ==> a in all;
    hide Flat, FlatNamed, SlotsOf;
    forall k, a: nat | 0 <= k < |SlotsOf(c)| && a in SlotsOf(c)[k].1 ensures a < n {
      SlotActual(c, k, a);
    }
  }

  lemma SlotActual(c: PendingCall, k: nat, a: nat)
    requires k < |SlotsOf(c)| && a in SlotsOf(c)[k].1
    ensures a in c.receiver || a in Flat(c.positional) || a in FlatNamed(c.keyword) || a in Flat(c.splat)
  {
    var r := if c.receiver != [] then [(Slot.Receiver, c.receiver)] else [];
    var ps, ks, ss := PositionalSlots(c.positional), KeywordSlots(c.keyword), SplatSlots(c.splat);
    assert SlotsOf(c) == r + ps + ks + ss;
    if |r| <= k < |r| + |ps| {
      assert SlotsOf(c)[k] == ps[k - |r|];
    } else if |r| + |ps| <= k < |r| + |ps| + |ks| {
      assert SlotsOf(c)[k] == ks[k - |r| - |ps|];
    } else if |r| + |ps| + |ks| <= k {
      assert SlotsOf(c)[k] == ss[k - |r| - |ps| - |ks|];
    }
  }

  lemma AllScoped(p: Program, n: nat)
    requires Climbs(p.scopeOf) && Bounded(LogOf(p), n)
    ensures HubTheorem.Scoped(DefinitionsOf(p), BaseLinks(p), CallsOf(LogOf(p)), n)
  {
    var log, defs := LogOf(p), DefinitionsOf(p);
    forall l | l in BaseLinks(p) ensures l.from < n && l.to < n {
      LinksScoped(p, n, l);
    }
    hide LogOf, BaseLinks;
    forall callee: nat, k: nat | k < |defs.ParamsOf(callee)| ensures defs.ParamsOf(callee)[k].node < n {
      ParamsRecorded(log, callee, k);
    }
    forall callee: nat, x: nat | x in defs.ReturnsOf(callee) ensures x < n {
      assert Returned(callee, x) in log;
    }
    forall c | c in CallsOf(log) ensures HubTheorem.CallScoped(c, n) {
      assert Called(c) in log;
      CallBound(c, n);
    }
  }
}
