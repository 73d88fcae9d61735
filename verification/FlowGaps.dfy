/** Exactly which reads find the scope a run finds, and a flow missed where one does not. */
module FlowGaps {
  import opened Options
  import opened Walks
  import opened Evidence
  import opened Calls
  import opened Hubs
  import opened FlowSyntax
  import opened FlowWalker
  import opened FlowGraph
  import opened FlowRuns
  import opened FlowFits
  import opened FlowRecord
  import opened FlowTheorem
  import opened FlowNoPath
  import HubTheorem

  // ---- which scope a read is resolved to ----

  /** The nearest scope that defines a name is the nearest that binds it exactly when it binds it. */
  lemma {:induction false} NearestIff(keys: set<(nat, string)>, binds: set<(nat, string)>, scopeOf: map<nat, nat>, o: nat, x: string)
    requires Climbs(scopeOf) && binds <= keys
    ensures Nearest(keys, scopeOf, o, x) == Nearest(binds, scopeOf, o, x)
            <==> (Nearest(keys, scopeOf, o, x).Some? ==> (Nearest(keys, scopeOf, o, x).value, x) in binds)
    ensures Nearest(binds, scopeOf, o, x).Some? ==> Nearest(keys, scopeOf, o, x).Some? && (Nearest(binds, scopeOf, o, x).value, x) in binds
    decreases o
  {
    if (o, x) !in keys && o in scopeOf {
      NearestIff(keys, binds, scopeOf, scopeOf[o], x);
    } else if (o, x) in keys && (o, x) !in binds && o in scopeOf {
      NearestIff(keys, binds, scopeOf, scopeOf[o], x);
      NearestOutwards(binds, scopeOf, scopeOf[o], x);
    }
  }

  lemma {:induction false} NearestOutwards(keys: set<(nat, string)>, scopeOf: map<nat, nat>, o: nat, x: string)
    requires Climbs(scopeOf)
    ensures Nearest(keys, scopeOf, o, x).Some? ==> Nearest(keys, scopeOf, o, x).value <= o
    decreases o
  {
    if (o, x) !in keys && o in scopeOf {
      NearestOutwards(keys, scopeOf, scopeOf[o], x);
    }
  }

  /** A read is resolved to the scope where a run finds the name exactly when the nearest scope,
      outwards, that binds the name or stores into a variable of that name also binds it. */
  lemma ReadFindsItsScopeIff(p: Program, heap: seq<Frame>, at: nat, x: string)
    requires Climbs(p.scopeOf) && NestedHeap(p.scopeOf, heap) && at < |heap|
    ensures var resolved := Nearest(DefsOf(LogOf(p)).Keys, p.scopeOf, heap[at].scope, x);
            var found := Lookup(BoundInModules(p.modules), heap, at, x);
            var nearest := Nearest(WrittenInModules(p.modules) + BoundInModules(p.modules), p.scopeOf, heap[at].scope, x);
            resolved == (if found.Some? && found.value < |heap| then Some(heap[found.value].scope) else None)
            <==> (nearest.Some? ==> (nearest.value, x) in BoundInModules(p.modules))
  {
    KeysAreBindsIff(p);
    LookupIsNearestBound(BoundInModules(p.modules), p.scopeOf, heap, at, x);
    NearestIff(DefsOf(LogOf(p)).Keys, BoundInModules(p.modules), p.scopeOf, heap[at].scope, x);
    hide LogOf, BoundInModules, WrittenInModules, NestedHeap, Nearest, Lookup;
  }

  /** Every read there could be is resolved so exactly when every store goes into a variable its own
      scope binds. */
  lemma AllReadsAgreeIff(p: Program)
    requires Climbs(p.scopeOf)
    ensures StoresStayInside(p) <==>
      forall o: nat, x: string :: Nearest(DefsOf(LogOf(p)).Keys, p.scopeOf, o, x) == Nearest(BoundInModules(p.modules), p.scopeOf, o, x)
  {
    KeysAreBindsIff(p);
    var keys, binds := DefsOf(LogOf(p)).Keys, BoundInModules(p.modules);
    hide LogOf, BoundInModules, WrittenInModules, StoresStayInside;
    if keys != binds {
      var k :| k in keys && k !in binds;
      NearestIff(keys, binds, p.scopeOf, k.0, k.1);
      assert Nearest(keys, p.scopeOf, k.0, k.1) == Some(k.0);
    }
  }

  // ---- a store outside, and one through a call ----

  // d = "s"
  // def f(): d["k"] = "v"; sink(d)        (or g(d)["k"] = "v")
  function Fill(): Stmt { Assign(Name(1, "d"), Literal(2)) }
  function Place(through: bool): Expr {
    if through then Expr.Call(9, Plain(10, "g"), [ByPosition(Name(4, "d"))], []) else Name(4, "d")
  }
  function Put(through: bool): Stmt { Assign(Subscript(3, Place(through), Number), Literal(5)) }
  function Sink(): Stmt { Handing(6, Name(7, "d"), 8) }
  function Storer(through: bool): Function { Function(1, [], [Put(through), Sink()], false, false, Undecorated) }
  function StoreOutside(through: bool): (p: Program)
    ensures Climbs(p.scopeOf)
  {
    Program([Module(0, [Fill(), Def(Storer(through))])], map[1 := 0], {})
  }

  function From(): nat { NodeOf(2, LiteralRole, false) }
  function Outlet(): nat { NodeOf(8, ForeignRole, false) }
  function FromDef(): nat { NodeOf(1, DefinitionRole, false) }
  function PutFrom(): nat { NodeOf(5, LiteralRole, false) }
  function PutDef(): nat { NodeOf(4, DefinitionRole, false) }
  function SinkUse(): nat { NodeOf(7, UseRole, false) }

  lemma NodesDiffer()
    ensures From() == 42 && FromDef() == 18 && PutFrom() == 90 && PutDef() == 66 && SinkUse() == 112 && Outlet() == 140
  {
  }

  lemma LogParts(through: bool)
    ensures LogOf(StoreOutside(through)) == Visited(Fill(), 0) + (Visited(Put(through), 1) + Visited(Sink(), 1))
  {
    hide Fill, Put, Sink, NodeOf, Visited, AllVisited, FunctionVisited;
    TwoVisited(Put(through), Sink(), 1);
    NoParamsVisited(Storer(through), 0);
    TwoVisited(Fill(), Def(Storer(through)), 0);
    OneModule(StoreOutside(through), [Fill(), Def(Storer(through))]);
  }

  lemma FillLog()
    ensures Visited(Fill(), 0) == [Linked(Link(From(), FromDef(), Resolved)), Defined(0, "d", FromDef())]
  {
    OneLink(From(), FromDef());
    hide LinksInto, NodeOf;
  }

  /** A store through a call defines the callee and the argument, and evaluates neither. */
  lemma PutLog(through: bool)
    ensures Visited(Put(through), 1)
         == (if through then [Linked(Link(PutFrom(), NodeOf(10, DefinitionRole, false), Resolved)), Defined(1, "g", NodeOf(10, DefinitionRole, false))] else [])
            + [Linked(Link(PutFrom(), PutDef(), Resolved)), Defined(1, "d", PutDef())]
  {
    OneLink(PutFrom(), PutDef());
    OneLink(PutFrom(), NodeOf(10, DefinitionRole, false));
    hide LinksInto, NodeOf;
    assert Bound(Name(4, "d"), 1, [PutFrom()], false) == [Linked(Link(PutFrom(), PutDef(), Resolved))] + [Defined(1, "d", PutDef())];
    var args := [ByPosition(Name(4, "d"))];
    assert args[..0] == [] && args[0] == ByPosition(Name(4, "d"));
    assert ArgsBound(args, 1, [PutFrom()], false) == [] + ([] + Bound(Name(4, "d"), 1, [PutFrom()], false));
  }

  lemma SinkLog()
    ensures Visited(Sink(), 1) == [Read(PendingRead(SinkUse(), 1, "d")),
      Linked(Link(SinkUse(), Outlet(), Resolved)),
      Linked(Link(SinkUse(), NodeOf(8, FirstRole, false), Resolved))]
  {
    HandingLog(6, Name(7, "d"), 8, 1);
    OneLink(SinkUse(), Outlet());
    OneLink(SinkUse(), NodeOf(8, FirstRole, false));
    hide LinksInto, Visited, NodeOf;
  }

  /** All that matters of the record. */
  ghost predicate StoreFacts(log: seq<Event>) {
    && (forall l :: Linked(l) in log && l.from in {From(), FromDef()} ==> l.to == FromDef())
    && (forall r :: Read(r) in log ==> r == PendingRead(SinkUse(), 1, "d"))
    && Defined(1, "d", PutDef()) in log
    && (forall n :: Defined(1, "d", n) in log ==> n == PutDef())
    && (forall v :: v in log ==> !v.Called?)
  }

  lemma StoreFactsHold(through: bool)
    ensures StoreFacts(LogOf(StoreOutside(through)))
  {
    LogParts(through);
    FillLog();
    PutLog(through);
    SinkLog();
    var a, b, c := Visited(Fill(), 0), Visited(Put(through), 1), Visited(Sink(), 1);
    var more := if through then [Linked(Link(PutFrom(), NodeOf(10, DefinitionRole, false), Resolved)), Defined(1, "g", NodeOf(10, DefinitionRole, false))] else [];
    NodesDiffer();
    hide LogOf, Visited, From, FromDef, PutFrom, PutDef, SinkUse, Outlet, NodeOf;
    StoreEnd(a, b, c);
    StorePieces(a, more, [Linked(Link(PutFrom(), PutDef(), Resolved)), Defined(1, "d", PutDef())], c, LogOf(StoreOutside(through)));
  }

  lemma StoreEnd(a: seq<Event>, b: seq<Event>, c: seq<Event>)
    requires |a| == 2 && |c| == 3
    ensures a[0] in a + (b + c) && c[1] in a + (b + c)
  {
    assert (a + (b + c))[0] == a[0] && (a + (b + c))[2 + |b| + 1] == c[1];
  }

  lemma StorePieces(a: seq<Event>, g: seq<Event>, b: seq<Event>, c: seq<Event>, log: seq<Event>)
    requires log == a + ((g + b) + c) && |a| == 2 && |b| == 2 && |c| == 3
    requires a[0] == Linked(Link(From(), FromDef(), Resolved)) && a[1] == Defined(0, "d", FromDef())
    requires forall v :: v in g ==> (v.Linked? && v.link.from == PutFrom()) || (v.Defined? && v.name == "g")
    requires b[0] == Linked(Link(PutFrom(), PutDef(), Resolved)) && b[1] == Defined(1, "d", PutDef())
    requires c[0] == Read(PendingRead(SinkUse(), 1, "d")) && c[1].Linked? && c[2].Linked? && c[1].link.from == SinkUse() && c[2].link.from == SinkUse()
    requires PutFrom() !in {From(), FromDef()} && SinkUse() !in {From(), FromDef()}
    ensures StoreFacts(log)
  {
    hide From, FromDef, PutFrom, PutDef, SinkUse;
    assert forall v :: v in log ==> v == a[0] || v == a[1] || v in g || v == b[0] || v == b[1] || v == c[0] || v == c[1] || v == c[2];
    assert b[1] in b;
    assert b[1] in g + b;
  }

  lemma StoreEnds(through: bool)
    ensures Linked(Link(From(), FromDef(), Resolved)) in LogOf(StoreOutside(through))
    ensures Linked(Link(SinkUse(), Outlet(), Resolved)) in LogOf(StoreOutside(through))
  {
    LogParts(through);
    FillLog();
    SinkLog();
    hide LogOf, Visited, From, FromDef, SinkUse, Outlet, NodeOf;
    StoreEnd(Visited(Fill(), 0), Visited(Put(through), 1), Visited(Sink(), 1));
  }

  lemma StoreIsolated(through: bool)
    ensures Isolated(StoreOutside(through), {From(), FromDef()})
  {
    StoreFactsHold(through);
    NodesDiffer();
    hide From, FromDef, PutDef, SinkUse, NodeOf, StoreOutside, LogOf;
    FactsIsolate(StoreOutside(through));
  }

  lemma FactsIsolate(p: Program)
    requires Climbs(p.scopeOf) && StoreFacts(LogOf(p)) && From() != PutDef() && FromDef() != PutDef()
    ensures Isolated(p, {From(), FromDef()})
  {
    hide LogOf, From, FromDef, PutDef, SinkUse, Outlet, NodeOf, CallStays, PendingCall.Wide;
    assert (1, "d") in DefsOf(LogOf(p));
    assert Nearest(DefsOf(LogOf(p)).Keys, p.scopeOf, 1, "d") == Some(1);
  }

  // ---- and the run ----

  function W(through: bool): World { WorldOf(StoreOutside(through), 0) }

  lemma WIs(through: bool)
    ensures W(through) == World([Storer(through)], map[1 := 0], {(0, "d")}, {}, 0)
  {
    WBinds(through);
    WFunctions(through);
    hide AllBoundIn, AllFunctionsIn, Storer;
    var body := [Fill(), Def(Storer(through))];
    OneModule(StoreOutside(through), body);
  }

  lemma WBinds(through: bool)
    ensures AllBoundIn([Fill(), Def(Storer(through))], 0) == {(0, "d")}
  {
    var f := Storer(through);
    var body := [Fill(), Def(f)];
    assert body[..1] == [Fill()] && body[1] == Def(f) && body[..1][..0] == [];
    assert BoundIn(Fill(), 0) == {(0, "d")} by {
      assert InScope(0, {"d"}) == {(0, "d")};
    }
    assert AllBoundIn(f.body, 1) == {} by {
      assert f.body[..1] == [Put(through)] && f.body[..1][..0] == [];
      assert InScope(1, {}) == {};
    }
    assert BoundIn(Def(f), 0) == {} by {
      assert InScope(1, ParamNames([])) == {};
    }
    assert AllBoundIn(body[..1], 0) == AllBoundIn([], 0) + {(0, "d")};
  }

  lemma WFunctions(through: bool)
    ensures AllFunctionsIn([Fill(), Def(Storer(through))]) == [Storer(through)]
  {
    var f := Storer(through);
    var body := [Fill(), Def(f)];
    assert body[..1] == [Fill()] && body[1] == Def(f) && body[..1][..0] == [];
    assert f.body[..1] == [Put(through)] && f.body[..1][..0] == [];
    assert AllFunctionsIn(f.body[..1]) == [] + [];
    assert f.body[1] == Sink() && AllFunctionsIn(f.body) == AllFunctionsIn(f.body[..1]) + FunctionsIn(Sink());
    assert FunctionsIn(Def(f)) == [f] + AllFunctionsIn(f.body) == [f];
    assert AllFunctionsIn(body[..1]) == [] + [];
    assert AllFunctionsIn(body) == AllFunctionsIn(body[..1]) + [f];
  }

  /** What `d` holds when the module is loaded. */
  function Filled(): Trail { {From()} + {FromDef()} }

  lemma LoadRun(through: bool)
    ensures RunStep(StoreOutside(through), W(through), Load(0), State([], {}, []), 0)
         == State([Frame(0, map["d" := Filled()], None, NoObject)], {}, [])
  {
    var w, f := W(through), Storer(through);
    var body := [Fill(), Def(f)];
    var st := State([Frame(0, map[], None, NoObject)], {}, []);
    hide NodeOf, W, Storer;
    var st' := SetVar(st, 0, "d", Filled());
    assert Exec(w, Fill(), 0, st, 0) == Done(st', None);
    assert body[..1] == [Fill()] && body[..1][..0] == [];
    assert ExecAll(w, body[..1], 0, st, 0) == Done(st', None);
    assert ExecAll(w, body, 0, st, 0) == Done(st', None);
    assert [] + [Frame(0, map[], None, NoObject)] == [Frame(0, map[], None, NoObject)];
  }

  /** Inside `f`, with `v` in the module's `d`. */
  function During(v: Trail): State {
    State([Frame(0, map["d" := v], None, NoObject), Frame(1, map[], Some(0), NoObject)], {}, [])
  }

  /** What `d` holds after the store; what is stored into the value of a call is in no variable. */
  function Kept(through: bool): Trail {
    if through then Filled() else Filled() + ({PutFrom()} + {PutDef()})
  }

  lemma PutRun(w: World, through: bool)
    requires w.binds == {(0, "d")}
    ensures Exec(w, Put(through), 1, During(Filled()), 0) == Done(During(Kept(through)), None)
  {
    var st := During(Filled());
    assert Lookup(w.binds, st.heap, 1, "d") == Some(0);
    hide NodeOf, Filled, Lookup;
    assert Eval(w, Literal(5), 1, st, 0) == Done(st, {PutFrom()});
    if through {
      var e := Place(true);
      var args := e.args;
      assert args[..0] == [] && args[0] == ByPosition(Name(4, "d"));
      assert EvalArgs(w, args, 1, st, 0) == Done(st, [] + [Filled() + {NodeOf(4, UseRole, false)}]);
      CallIs(w, e, 1, st, 0);
      assert Eval(w, e, 1, st, 0) == Done(st, {NodeOf(9, ResultRole, false)});
      hide Eval;
      assert StoreInto(w, e, {PutFrom()}, 1, st, 0, true) == Done(st, None);
    } else {
      var v := {PutFrom()} + {PutDef()};
      assert st.heap[0].vars["d" := Filled() + v] == map["d" := Filled() + v];
      assert PutInto(st, 0, "d", v).heap == During(Filled() + v).heap;
      assert StoreInto(w, Name(4, "d"), {PutFrom()}, 1, st, 0, true) == Done(PutInto(st, 0, "d", v), None);
    }
  }

  lemma SinkRun(w: World, v: Trail)
    requires w.binds == {(0, "d")} && w.floor == 0 && From() in v
    ensures (From(), Outlet()) in Exec(w, Sink(), 1, During(v), 0).st.taken
  {
    assert Lookup(w.binds, During(v).heap, 1, "d") == Some(0);
    assert Eval(w, Name(7, "d"), 1, During(v), 0) == Done(During(v), v + {SinkUse()});
    hide Lookup, NodeOf, Eval, Exec;
    HandingRun(w, 6, Name(7, "d"), 8, 1, During(v), During(v), 0, v + {SinkUse()}, From());
  }

  lemma CallRun(through: bool, st: State)
    requires st == State([During(Filled()).heap[0]], {}, [])
    ensures (From(), Outlet()) in RunStep(StoreOutside(through), W(through), CallIn(1), st, 0).taken
  {
    WIs(through);
    PutRun(W(through), through);
    SinkRun(W(through), Kept(through));
    var body, w, before := Storer(through).body, W(through), During(Filled());
    assert body[..1] == [Put(through)] && body[1] == Sink() && body[..1][..0] == [];
    InvokeStorer(through, w, st);
    hide W, Put, Sink, Exec, During, Storer;
    assert ExecAll(w, body[..1], 1, before, 0) == Done(During(Kept(through)), None);
    assert ExecAll(w, body, 1, before, 0) == Exec(w, Sink(), 1, During(Kept(through)), 0);
  }

  lemma InvokeStorer(through: bool, w: World, st: State)
    requires w.functions == [Storer(through)] && w.scopeOf == map[1 := 0] && st == State([During(Filled()).heap[0]], {}, [])
    ensures RunStep(StoreOutside(through), w, CallIn(1), st, 0) == ExecAll(w, Storer(through).body, 1, During(Filled()), 0).st
  {
    hide ExecAll, Put, Sink, Filled;
    assert st.heap + [Frame(1, map[], Some(0), NoObject)] == During(Filled()).heap;
    assert Find(w.functions, 1) == Some(Storer(through));
    assert FromOutside(Storer(through), 0) == map[];
  }

  lemma StoreRun(through: bool)
    ensures (From(), Outlet()) in Run(StoreOutside(through), 0, [Load(0), CallIn(1)], [], 0).taken
  {
    LoadRun(through);
    CallRun(through, State([Frame(0, map["d" := Filled()], None, NoObject)], {}, []));
    var steps := [Load(0), CallIn(1)];
    assert steps[..1] == [Load(0)] && steps[..1][..0] == [];
    hide RunStep;
    assert Run(StoreOutside(through), 0, steps[..1], [], 0) == RunStep(StoreOutside(through), W(through), Load(0), State([], {}, []), 0);
  }

  // ---- both ----

  lemma StoreOutsideUnfit(through: bool)
    ensures !InFragment(StoreOutside(through))
  {
    WIs(through);
    var f, ctx := Storer(through), ContextOf(StoreOutside(through));
    assert ctx.binds == {(0, "d")};
    hide BoundInModules, ContextOf;
    var body := f.body;
    assert body[..1] == [Put(through)];
    assert !Fits(Put(through), 1, ctx);
    assert !AllFit(body[..1], 1, ctx);
    assert !AllFit(body, 1, ctx);
    hide AllFit;
    assert !FunctionFits(f, ctx);
    hide FunctionFits;
    NoFit(f, StoreOutside(through), ctx);
  }

  lemma NoFit(f: Function, p: Program, ctx: Context)
    requires !FunctionFits(f, ctx) && p.modules == [Module(0, [Fill(), Def(f)])]
    ensures !ModulesFit(p.modules, ctx)
  {
    hide FunctionFits, Fill;
    var body := [Fill(), Def(f)];
    assert !Fits(Def(f), 0, ctx);
    assert !AllFit(body, 0, ctx);
  }

  /** A store into a variable of an enclosing scope, or into what a call with that variable gives: the
      value the variable had there reaches the sink in a run, and no path in the graph says so. */
  lemma StoreOutsideIsMissed(through: bool, w: HubTheorem.Wiring)
    requires IsGraphOf(StoreOutside(through), w)
    ensures (From(), Outlet()) in Run(StoreOutside(through), 0, [Load(0), CallIn(1)], [], 0).taken
    ensures !Reach(HubTheorem.AtLeast(w.links, 0), From(), Outlet())
    ensures !InFragment(StoreOutside(through))
  {
    StoreRun(through);
    StoreIsolated(through);
    StoreOutsideUnfit(through);
    StoreEnds(through);
    NodesDiffer();
    var p := StoreOutside(through);
    hide *;
    LinkInside(p, w, Link(From(), FromDef(), Resolved));
    LinkInside(p, w, Link(SinkUse(), Outlet(), Resolved));
    NoWay(p, w, {From(), FromDef()}, From(), Outlet());
  }
}
