/** What shows that a graph has no path, and that a run has one: a set of nodes no link leads out of, and
    what calls of one argument record and do. */
module FlowNoPath {
  import opened Options
  import opened Finite
  import opened Walks
  import opened Evidence
  import opened Calls
  import opened Hubs
  import opened FlowSyntax
  import opened FlowWalker
  import opened FlowGraph
  import opened FlowRuns
  import opened FlowFits
  import opened FlowRecord
  import opened FlowActuals
  import opened FlowTheorem
  import HubTheorem
  import HubWiring

  // ---- where the graph has no path ----

  /** No link of the graph leads out of `S`, and no call is wide. */
  ghost predicate Isolated(p: Program, S: set<nat>)
    requires Climbs(p.scopeOf)
  {
    && (forall l :: Linked(l) in LogOf(p) && l.from in S ==> l.to in S)
    && (forall r :: Read(r) in LogOf(p) ==> ReadStays(p, r, S))
    && (forall c :: Called(c) in LogOf(p) ==> !c.Wide() && CallStays(p, c, S))
  }

  ghost predicate ReadStays(p: Program, r: PendingRead, S: set<nat>)
    requires Climbs(p.scopeOf)
  {
    var s := Nearest(DefsOf(LogOf(p)).Keys, p.scopeOf, r.owner, r.name);
    s.Some? ==> forall d: nat :: Defined(s.value, r.name, d) in LogOf(p) && d in S ==> r.node in S
  }

  ghost predicate CallStays(p: Program, c: PendingCall, S: set<nat>) {
    forall t, a: nat, b: nat :: t in c.targets && a in S && Binds(DefinitionsOf(p), c, t, a, b) ==> b in S
  }

  lemma LinkStays(p: Program, S: set<nat>, l: Link)
    requires Climbs(p.scopeOf) && Isolated(p, S) && l in DirectLinksOf(p) && l.from in S
    ensures l.to in S
  {
    var log := LogOf(p);
    hide LogOf, DefinitionsOf, Binds, HubWiring.AllDirect, ReadStays, CallStays;
    if l in AllReadLinks(DefsOf(log), p.scopeOf, ReadsOf(log)) {
      var r :| r in ReadsOf(log) && l in ReadLinks(DefsOf(log), p.scopeOf, r);
      assert Read(r) in log && ReadStays(p, r, S);
      ReadLinkStays(p, S, l, r);
    } else if l !in LinksOf(log) {
      var c :| c in CallsOf(log) && DirectLink(DefinitionsOf(p), c, l);
      assert Called(c) in log && CallStays(p, c, S);
      CallLinkStays(p, S, l, c);
    }
  }

  lemma ReadLinkStays(p: Program, S: set<nat>, l: Link, r: PendingRead)
    requires Climbs(p.scopeOf) && ReadStays(p, r, S) && l in ReadLinks(DefsOf(LogOf(p)), p.scopeOf, r) && l.from in S
    ensures l.to in S
  {
    hide LogOf, Nearest;
    var s := Nearest(DefsOf(LogOf(p)).Keys, p.scopeOf, r.owner, r.name);
    assert Defined(s.value, r.name, l.from) in LogOf(p);
  }

  lemma CallLinkStays(p: Program, S: set<nat>, l: Link, c: PendingCall)
    requires CallStays(p, c, S) && DirectLink(DefinitionsOf(p), c, l) && l.from in S
    ensures l.to in S
  {
    hide DefinitionsOf, Binds;
  }

  lemma NoWay(p: Program, w: HubTheorem.Wiring, S: set<nat>, a: nat, b: nat)
    requires Climbs(p.scopeOf) && IsGraphOf(p, w) && Isolated(p, S) && a in S && b !in S && a < w.n0 && b < w.n0
    ensures !Reach(HubTheorem.AtLeast(w.links, 0), a, b)
  {
    SameDirect(p, w);
    NarrowOnly(p, w, S);
    hide *;
    forall l | l in w.Direct() && l.from in S ensures l.to in S {
      LinkStays(p, S, l);
    }
    Enclosed(w, S, a, b);
    HubTheorem.HubsKeepReachability(w, 0, a, b);
  }

  lemma NarrowOnly(p: Program, w: HubTheorem.Wiring, S: set<nat>)
    requires Climbs(p.scopeOf) && IsGraphOf(p, w) && Isolated(p, S)
    ensures HubTheorem.KeywordsNameOne(w)
  {
    hide LogOf, HubTheorem.Wiring.Valid, DefinitionsOf, BaseLinks, ReadStays, CallStays, NamesOne, PendingCall.Wide, SlotsOf;
    forall c | c in w.calls ensures !c.Wide() {
      assert Called(c) in LogOf(p);
    }
  }

  lemma Enclosed(w: HubTheorem.Wiring, S: set<nat>, a: nat, b: nat)
    requires a in S && b !in S
    requires forall l :: l in w.Direct() && l.from in S ==> l.to in S
    ensures !Reach(HubTheorem.AtLeast(w.Direct(), 0), a, b)
  {
    var R := HubTheorem.AtLeast(w.Direct(), 0);
    hide HubTheorem.Wiring.Direct;
    assert Closed(R, S);
    if Reach(R, a, b) {
      ReachStaysClosed(R, S, a, b);
    }
  }

  lemma LinkInside(p: Program, w: HubTheorem.Wiring, l: Link)
    requires Climbs(p.scopeOf) && IsGraphOf(p, w) && Linked(l) in LogOf(p)
    ensures l.from < w.n0 && l.to < w.n0
  {
    GraphParts(p, w);
    hide LogOf, HubTheorem.Wiring.Valid, AllReadLinks;
    assert l in w.base;
  }

  lemma GraphParts(p: Program, w: HubTheorem.Wiring)
    requires Climbs(p.scopeOf) && IsGraphOf(p, w)
    ensures w.Valid() && w.base == BaseLinks(p) && w.calls == CallsOf(LogOf(p)) && HubTheorem.Scoped(w.defs, w.base, w.calls, w.n0)
  {
    hide Hubs.Wired, Hubs.HubsApart, HubWiring.Done, Hubs.FillsHaveHubs, HubTheorem.Scoped, DefinitionsOf, BaseLinks, LogOf;
  }

  lemma NoParamsVisited(f: Function, o: nat)
    requires f.params == []
    ensures Visited(Def(f), o) == AllVisited(f.body, f.symbol)
  {
    hide AllVisited;
    assert ParamEvents(f.symbol, []) == [];
    assert [] + AllVisited(f.body, f.symbol) == AllVisited(f.body, f.symbol);
  }

  lemma TwoVisited(s: Stmt, t: Stmt, o: nat)
    ensures AllVisited([s, t], o) == Visited(s, o) + Visited(t, o)
  {
    hide Visited;
    var ss := [s, t];
    assert ss[..1] == [s] && ss[..1][..0] == [];
    assert AllVisited([s], o) == [] + Visited(s, o);
  }

  lemma OneArgument(e: Expr, o: nat, id: nat, x: string)
    ensures var args := [ByPosition(e)];
            && ArgsEvaluated(args, o, false) == Evaluated(e, o, false)
            && Actuals(Plain(id, x), args, false) == Values(e, false) && FirstPositional(args, false) == Values(e, false)
  {
    hide Evaluated, Values;
    var args := [ByPosition(e)];
    assert args[..0] == [] && args[0] == ByPosition(e);
    assert PositionalValues(args, false) == [] + [Values(e, false)];
    var vs := [Values(e, false)];
    assert vs[..0] == [] && Flat(vs) == [] + Values(e, false);
    assert KeywordValues(args, false) == KeywordValues([], false) + [];
    assert SpreadValues(args, false) == SpreadValues([], false) + [];
    assert ArgsEvaluated(args, o, false) == [] + ArgEvaluated(ByPosition(e), o, false);
  }

  lemma OneCallee(id: nat, callee: Callee, args: seq<Arg>, t: CallTarget)
    ensures TargetsEvents(id, callee, args, [t], false) == TargetEvents(id, callee, args, t, false)
    ensures t.Foreign? ==> PackageTargets([t]) == []
  {
    hide TargetEvents;
    var ts := [t];
    assert ts[..0] == [] && ts[0] == t;
    assert TargetsEvents(id, callee, args, ts, false) == [] + TargetEvents(id, callee, args, t, false);
  }

  lemma OneLink(from: nat, to: nat)
    ensures LinksInto([from], to, Resolved) == [Linked(Link(from, to, Resolved))]
  {
    var froms := [from];
    assert froms[..0] == [] && froms[0] == from;
  }

  lemma AllOfOne(v: Trail)
    ensures AllOf([v]) == v
  {
    var vs := [v];
    assert vs[..0] == [];
  }

  // ---- a value handed to an external call ----

  /** `sink(arg)` as a statement; `formal` is the syntax node of the external callee. */
  function Handing(id: nat, arg: Expr, formal: nat): Stmt {
    Evaluate(Expr.Call(id, Plain(id, "sink"), [ByPosition(arg)], [Foreign(formal, false, Resolved)]))
  }

  lemma HandingLog(id: nat, arg: Expr, formal: nat, o: nat)
    ensures Visited(Handing(id, arg, formal), o)
         == Evaluated(arg, o, false) + (LinksInto(Values(arg, false), NodeOf(formal, ForeignRole, false), Resolved)
                                        + LinksInto(Values(arg, false), NodeOf(formal, FirstRole, false), Resolved))
  {
    var e := Handing(id, arg, formal).value;
    OneArgument(arg, o, id, "sink");
    OneCallee(id, e.callee, e.args, Foreign(formal, false, Resolved));
    hide ArgsEvaluated, TargetsEvents, Actuals, FirstPositional, LinksInto, NodeOf, Evaluated, Values;
    HandingEvaluates(e, o);
    assert [] + Evaluated(arg, o, false) == Evaluated(arg, o, false);
  }

  lemma HandingEvaluates(e: Expr, o: nat)
    requires e.Call? && e.callee.Plain?
    ensures Evaluated(e, o, false) == [] + ArgsEvaluated(e.args, o, false) + TargetsEvents(e.id, e.callee, e.args, e.targets, false)
                                      + if PackageTargets(e.targets) == [] then [] else [Called(Pending(e.id, e.callee, e.args, e.targets, false))]
  {
    hide ArgsEvaluated, TargetsEvents, PackageTargets, Pending;
  }

  /** Whatever `arg` passed through has been taken to the external callee. */
  lemma HandingRun(w: World, id: nat, arg: Expr, formal: nat, at: nat, st: State, st': State, fuel: nat, v: Trail, n: nat)
    requires w.floor == 0 && st'.choices == [] && Eval(w, arg, at, st, fuel) == Done(st', v) && n in v
    ensures (n, NodeOf(formal, ForeignRole, false)) in Exec(w, Handing(id, arg, formal), at, st, fuel).st.taken
  {
    var e := Handing(id, arg, formal).value;
    var args := e.args;
    assert args[..0] == [] && args[0] == ByPosition(arg) && [] + [v] == [v];
    assert EvalArgs(w, args, at, st, fuel) == Done(st', [v]);
    assert EvalCallee(w, e.callee, at, st, fuel) == Done(st, {});
    AllOfOne(v);
    hide Eval, NodeOf, AllOf;
    var t := Foreign(formal, false, Resolved);
    TakenAtLeast(e, t, v, st', n);
    assert Choice(st') == 0 && Chosen(st') == st' && 0 % 1 == 0;
    assert e.targets[0] == t;
    assert Dispatch(w, e, {}, [v], st', fuel) == PassOut(e, t, {}, [v], st');
    CallIs(w, e, at, st, fuel);
  }

  lemma CallIs(w: World, e: Expr, at: nat, st: State, fuel: nat)
    requires e.Call?
    ensures Eval(w, e, at, st, fuel) ==
      match EvalCallee(w, e.callee, at, st, fuel)
      case Stop(s) => Stop(s)
      case Done(s, receiver) =>
        match EvalArgs(w, e.args, at, s, fuel)
        case Stop(s') => Stop(s')
        case Done(s', vs) => if |vs| == |e.args| then Dispatch(w, e, receiver, vs, s', fuel) else Stop(s')
  {
    hide EvalCallee, EvalArgs, Dispatch;
  }

  lemma TakenAtLeast(e: Expr, t: CallTarget, v: Trail, st: State, n: nat)
    requires e.Call? && |e.args| == 1 && t.Foreign? && !t.preserving && n in v
    ensures (n, NodeOf(t.id, ForeignRole, false)) in PassOut(e, t, {}, [v], st).st.taken
  {
    AllOfOne(v);
    assert {} + AllOf([v]) == v;
    hide NodeOf, FirstTrail;
  }

  // ---- programs of one module ----

  lemma OneVisited(s: Stmt, o: nat)
    ensures AllVisited([s], o) == Visited(s, o)
  {
    hide Visited;
    assert [s][..0] == [];
    assert [] + Visited(s, o) == Visited(s, o);
  }

  lemma DefVisited(f: Function)
    ensures Visited(Def(f), 0) == ParamEvents(f.symbol, f.params) + AllVisited(f.body, f.symbol)
  {
    hide ParamEvents, AllVisited;
  }

  lemma OneModule(p: Program, body: seq<Stmt>)
    requires p.modules == [Module(0, body)]
    ensures LogOf(p) == AllVisited(body, 0) && FunctionsOf(p.modules) == AllFunctionsIn(body) && WrittenInModules(p.modules) == AllWrittenIn(body, 0)
    ensures BoundInModules(p.modules) == AllBoundIn(body, 0)
  {
    hide AllVisited, AllFunctionsIn, AllWrittenIn, AllBoundIn;
    var ms := p.modules;
    assert ms[..0] == [] && ms[0] == Module(0, body);
    assert LogOf(p) == ModulesVisited(ms[..0]) + AllVisited(body, 0);
    assert FunctionsOf(ms) == FunctionsOf(ms[..0]) + AllFunctionsIn(body);
    assert WrittenInModules(ms) == WrittenInModules(ms[..0]) + AllWrittenIn(body, 0);
    assert BoundInModules(ms) == BoundInModules(ms[..0]) + AllBoundIn(body, 0);
  }

  lemma HandingHas(id: nat, arg: Expr, formal: nat, o: nat)
    ensures var s := Handing(id, arg, formal); FunctionsIn(s) == [] && WrittenIn(s, o) == {} && BoundIn(s, o) == {}
  {
  }

  lemma OneOnly(f: Function)
    ensures DistinctSymbols([f]) && f in [f]
  {
    assert [f][0] == f;
  }

  lemma OneModuleFits(p: Program, body: seq<Stmt>, ctx: Context)
    requires p.modules == [Module(0, body)] && AllFit(body, 0, ctx)
    ensures ModulesFit(p.modules, ctx)
  {
    hide AllFit;
    assert p.modules[..0] == [];
  }

  lemma SlotInside(p: Program, w: HubTheorem.Wiring, c: PendingCall, k: nat, a: nat)
    requires Climbs(p.scopeOf) && IsGraphOf(p, w) && Called(c) in LogOf(p) && k < |SlotsOf(c)| && a in SlotsOf(c)[k].1
    ensures a < w.n0
  {
    GraphParts(p, w);
    hide LogOf, HubTheorem.Wiring.Valid, DefinitionsOf, BaseLinks, SlotsOf;
    assert c in w.calls && HubTheorem.CallScoped(c, w.n0);
  }

  lemma ActualInside(p: Program, w: HubTheorem.Wiring, c: PendingCall, a: nat)
    requires Climbs(p.scopeOf) && IsGraphOf(p, w) && Called(c) in LogOf(p) && c.positional == [[a]]
    ensures a < w.n0
  {
    PositionalFills(c, 0);
    var j :| 0 <= j < |SlotsOf(c)| && SlotsOf(c)[j] == (Slot.Positional(0), c.positional[0]);
    hide LogOf, SlotsOf, IsGraphOf;
    assert c.positional[0][0] == a && a in SlotsOf(c)[j].1;
    SlotInside(p, w, c, j, a);
  }

  lemma NoReturns(p: Program)
    requires forall s: nat, n: nat :: Returned(s, n) !in LogOf(p)
    ensures forall s: nat :: DefinitionsOf(p).ReturnsOf(s) == []
  {
    hide LogOf, FunctionsOf;
    forall s: nat ensures DefinitionsOf(p).ReturnsOf(s) == [] {
      var rs := ResultsAt(ResultsOf(LogOf(p)), s);
      FirstIn(rs);
      assert DefinitionsOf(p).ReturnsOf(s) == rs;
    }
  }
}
