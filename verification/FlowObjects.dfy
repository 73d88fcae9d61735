/** Exactly where a flow is missed because an object carries what its initialiser stores. */
module FlowObjects {
  import opened Options
  import opened Finite
  import opened Walks
  import opened Evidence
  import opened Calls
  import opened Hubs
  import opened FlowSyntax
  import opened FlowWalker
  import opened FlowGraph
  import opened FlowRuns
  import opened FlowFits
  import opened FlowRecord
  import opened FlowTheorem
  import opened FlowNoPath
  import opened FlowOffsets
  import HubTheorem

  // ---- every program ----

  /** Of every program and call: into the value of the call the wiring leads from what a callee
      returns and from nothing else, so from nothing where an initialiser makes an object. */
  lemma OnlyReturnsComeOut(p: Program, f: Function, e: Expr, again: bool, t: Target, a: nat)
    requires DistinctSymbols(FunctionsOf(p.modules)) && f in FunctionsOf(p.modules) && t.callee == f.symbol && e.Call?
    ensures var c := Pending(e.id, e.callee, e.args, e.targets, again);
            Binds(DefinitionsOf(p), c, t, a, c.result) <==> Returned(f.symbol, a) in LogOf(p)
  {
    OwnParams(p, f);
    var c, defs := Pending(e.id, e.callee, e.args, e.targets, again), DefinitionsOf(p);
    var ps := ParamList(f.params);
    assert a in ResultsAt(ResultsOf(LogOf(p)), f.symbol) <==> Returned(f.symbol, a) in LogOf(p);
    assert defs.ReturnsOf(f.symbol) == ResultsAt(ResultsOf(LogOf(p)), f.symbol);
    forall k | 0 <= k < |SlotsOf(c)| ensures c.result !in WireFormals(defs, SlotsOf(c)[k].0, f.symbol, c.receiver != []) {
      FormalsAreParams(defs, SlotsOf(c)[k].0, f.symbol, c.receiver != []);
      forall j | 0 <= j < |ps| && ps[j].node == c.result ensures false {
        NodesApart(f.params[j].id, ParameterRole, false, e.id, ResultRole, again);
      }
    }
    hide LogOf, FunctionsOf, SlotsOf, WireFormals, DefinitionsOf, Pending, NodeOf, ParamList;
  }

  lemma FormalsAreParams(defs: Definitions, slot: Slot, callee: nat, hasReceiver: bool)
    requires !slot.Return?
    ensures forall x: nat :: x in WireFormals(defs, slot, callee, hasReceiver)
              ==> exists j :: 0 <= j < |defs.ParamsOf(callee)| && defs.ParamsOf(callee)[j].node == x
  {
    var ps := defs.ParamsOf(callee);
    if slot.Keyword? {
      FirstIsNamed(ps, slot.name);
    }
  }

  // ---- every initialiser that only stores ----

  /** Nothing is called. */
  predicate CallFree(e: Expr)
    decreases e
  {
    match e
    case Attribute(_, base) => CallFree(base)
    case Subscript(_, value, index) => CallFree(value) && CallFree(index)
    case Union(parts) => AllCallFree(parts)
    case Comparison(parts) => AllCallFree(parts)
    case Call(_, _, _, _) => false
    case _ => true
  }

  predicate AllCallFree(es: seq<Expr>)
    decreases es
  {
    es != [] ==> AllCallFree(es[..|es| - 1]) && CallFree(es[|es| - 1])
  }

  /** Subscripts and attributes of a variable. */
  predicate IsPart(t: Expr)
    decreases t
  {
    match t
    case Name(_, _) => true
    case Subscript(_, base, index) => IsPart(base) && CallFree(index)
    case Attribute(_, base) => IsPart(base)
    case _ => false
  }

  /** The variable they are of. */
  function VariableOf(t: Expr): string
    requires IsPart(t)
    decreases t
  {
    match t
    case Name(_, x) => x
    case Subscript(_, base, _) => VariableOf(base)
    case Attribute(_, base) => VariableOf(base)
  }

  predicate IsStore(s: Stmt) {
    s.Assign? && !s.target.Name? && IsPart(s.target) && CallFree(s.value)
  }

  predicate OnlyStores(ss: seq<Stmt>) {
    forall k :: 0 <= k < |ss| ==> IsStore(ss[k])
  }

  /** Some store goes into variable `x`. */
  predicate StoresInto(ss: seq<Stmt>, x: string) {
    exists k :: 0 <= k < |ss| && IsStore(ss[k]) && VariableOf(ss[k].target) == x
  }

  lemma {:induction false} EvalKeepsHeap(w: World, e: Expr, at: nat, st: State, fuel: nat)
    requires CallFree(e)
    ensures Eval(w, e, at, st, fuel).st.heap == st.heap
    decreases e
  {
    match e
    case Imported(_, _, _) => ReadKeepsHeap(w, e, at, st);
    case Attribute(_, base) =>
      if IsDotted(base) {
        ReadKeepsHeap(w, base, at, st);
      } else {
        EvalKeepsHeap(w, base, at, st, fuel);
      }
    case Subscript(_, value, index) =>
      EvalKeepsHeap(w, value, at, st, fuel);
      EvalKeepsHeap(w, index, at, Eval(w, value, at, st, fuel).st, fuel);
    case Union(parts) => EvalAllKeepsHeap(w, parts, at, st, fuel);
    case Comparison(parts) => EvalAllKeepsHeap(w, parts, at, st, fuel);
    case _ =>
  }

  lemma ReadKeepsHeap(w: World, e: Expr, at: nat, st: State)
    requires IsDotted(e)
    ensures forall own: Trail :: ReadImported(w, own, e, at, st).st.heap == st.heap
  {
    hide Lookup;
  }

  lemma {:induction false} EvalAllKeepsHeap(w: World, es: seq<Expr>, at: nat, st: State, fuel: nat)
    requires AllCallFree(es)
    ensures EvalAll(w, es, at, st, fuel).st.heap == st.heap
    decreases es
  {
    if es != [] {
      var init, e := es[..|es| - 1], es[|es| - 1];
      EvalAllKeepsHeap(w, init, at, st, fuel);
      EvalKeepsHeap(w, e, at, Chosen(EvalAll(w, init, at, st, fuel).st), fuel);
    }
  }

  /** Activation `at` makes an object, bound to its variable `x`, that holds `held`. */
  ghost predicate Makes(w: World, heap: seq<Frame>, at: nat, x: string, held: Trail) {
    at < |heap| && heap[at].made == Object.Named(x, held) && (heap[at].scope, x) in w.binds
  }

  /** A store brings a value into the object exactly if it goes into the variable bound to it. */
  lemma {:induction false} StoreBringsIff(w: World, t: Expr, v: Trail, at: nat, st: State, fuel: nat, x: string, held: Trail)
    requires IsPart(t) && Makes(w, st.heap, at, x, held)
    ensures var r := StoreInto(w, t, v, at, st, fuel, true);
            r.Done? ==> r.value == None && exists held' :: Makes(w, r.st.heap, at, x, held') && (held' != {} <==> held != {} || VariableOf(t) == x)
    decreases t
  {
    match t
    case Name(id, y) =>
      hide NodeOf;
      var put := v + {NodeOf(id, DefinitionRole, false)};
      var found := Lookup(w.binds, st.heap, at, y);
      if found.Some? && found.value < |st.heap| && y in st.heap[found.value].vars {
        assert NodeOf(id, DefinitionRole, false) in held + put;
        assert Makes(w, PutInto(st, found.value, y, put).heap, at, x, if y == x then held + put else held);
      }
    case Subscript(_, base, index) =>
      EvalKeepsHeap(w, index, at, st, fuel);
      StoreBringsIff(w, base, v, at, Eval(w, index, at, st, fuel).st, fuel, x, held);
    case Attribute(_, base) => StoreBringsIff(w, base, v, at, st, fuel, x, held);
  }

  lemma {:induction false} StoresBringIff(w: World, ss: seq<Stmt>, at: nat, st: State, fuel: nat, x: string)
    requires OnlyStores(ss) && Makes(w, st.heap, at, x, {})
    ensures var r := ExecAll(w, ss, at, st, fuel);
            r.Done? ==> r.value == None && exists held :: Makes(w, r.st.heap, at, x, held) && (held != {} <==> StoresInto(ss, x))
    decreases ss
  {
    if ss != [] {
      var init, s := ss[..|ss| - 1], ss[|ss| - 1];
      StoresBringIff(w, init, at, st, fuel, x);
      var r := ExecAll(w, init, at, st, fuel);
      StoresIntoNext(ss, x);
      if r.Done? {
        var held :| Makes(w, r.st.heap, at, x, held) && (held != {} <==> StoresInto(init, x));
        EvalKeepsHeap(w, s.value, at, r.st, fuel);
        var q := Eval(w, s.value, at, r.st, fuel);
        if q.Done? {
          StoreBringsIff(w, s.target, q.value, at, q.st, fuel, x, held);
          assert IsStore(s) && Store(w, s.target, q.value, at, q.st, fuel, true) == StoreInto(w, s.target, q.value, at, q.st, fuel, true);
        }
        hide StoreInto, Store, Eval, Makes, StoresInto, VariableOf;
      }
    }
  }

  lemma StoresIntoNext(ss: seq<Stmt>, x: string)
    requires ss != [] && OnlyStores(ss)
    ensures StoresInto(ss, x) <==> StoresInto(ss[..|ss| - 1], x) || VariableOf(ss[|ss| - 1].target) == x
  {
    hide VariableOf;
    if StoresInto(ss[..|ss| - 1], x) {
      var k :| 0 <= k < |ss| - 1 && IsStore(ss[..|ss| - 1][k]) && VariableOf(ss[..|ss| - 1][k].target) == x;
      assert IsStore(ss[k]) && VariableOf(ss[k].target) == x;
    }
    if StoresInto(ss, x) {
      var k :| 0 <= k < |ss| && IsStore(ss[k]) && VariableOf(ss[k].target) == x;
      if k < |ss| - 1 {
        assert ss[..|ss| - 1][k] == ss[k];
      }
    }
  }

  /** Of every program and every initialiser whose body is stores: an object it has made holds
      something exactly when some store goes into its first parameter. */
  lemma ObjectHoldsIff(p: Program, floor: nat, f: Function, vars: map<string, Trail>, st: State, fuel: nat)
    requires f in FunctionsOf(p.modules) && f.params != [] && f.params[0].kind.Ordinary? && OnlyStores(f.body)
    ensures var r := Invoke(WorldOf(p, floor), f, vars, ObjectOf(f, NewObject), st, fuel);
            r.Done? ==> (r.value != {} <==> StoresInto(f.body, f.params[0].name))
  {
    var w, x, outer := WorldOf(p, floor), f.params[0].name, Choice(st);
    ModulesBound(p.modules);
    assert f.params[0] in f.params && x in ParamNames(f.params);
    assert (f.symbol, x) in ParamsBound(FunctionsOf(p.modules));
    hide FunctionsOf, BoundInModules, WrittenInModules, ParamsBound, StoresInto, OnlyStores;
    var parent := if f.symbol in w.scopeOf then Some(outer) else None;
    var s := Chosen(st).(heap := st.heap + [Frame(f.symbol, vars, parent, Object.Named(x, {}))]);
    assert Chosen(st).heap == st.heap;
    StoresBringIff(w, f.body, |st.heap|, s, fuel, x);
    hide ExecAll, Chosen, Choice;
  }

  // ---- an initialiser that keeps what it is passed, and one that does not ----

  // class C:
  //   def __init__(self, x): self.a = x     (or x.a = x)
  // sink(C("secret"))
  function Keeper(keeps: bool): Function {
    Function(1, [Formal(10, "self", Ordinary), Formal(11, "x", Ordinary)], [Keeping(keeps)], true, true, Undecorated)
  }

  function Keeping(keeps: bool): Stmt {
    Assign(Attribute(12, Name(13, if keeps then "self" else "x")), Name(14, "x"))
  }

  function Making(): Expr {
    Expr.Call(30, Plain(30, "C"), [ByPosition(Literal(31))], [Package(1, Resolved, [Entry.Making])])
  }

  function Made(keeps: bool): (p: Program)
    ensures Climbs(p.scopeOf)
  {
    Program([Module(0, [Def(Keeper(keeps)), Handing(40, Making(), 41)])], map[1 := 0], {})
  }

  function Value(): nat { NodeOf(30, ResultRole, false) }
  function Outlet(): nat { NodeOf(41, ForeignRole, false) }
  function XUse(): nat { NodeOf(14, UseRole, false) }
  function Stored(): nat { NodeOf(13, DefinitionRole, false) }

  lemma NodesOfMade()
    ensures Secret() == 506 && SelfNode() == 164 && XNode() == 180
    ensures Value() == 488 && Outlet() == 668 && XUse() == 224 && Stored() == 210
  {
  }

  /** Where the secret gets to. */
  function Inside(): set<nat> {
    {Secret(), XNode(), XUse(), Stored()}
  }

  // ---- what it records ----

  function MadeCall(): PendingCall {
    PendingCall(Value(), [], [[Secret()]], [], [], [Target(1, Resolved)])
  }

  lemma MakingLog()
    ensures Evaluated(Making(), 0, false) == [Called(MadeCall())] && Values(Making(), false) == [Value()]
  {
    var e := Making();
    var args, ts := e.args, e.targets;
    assert args[..0] == [] && args[0] == ByPosition(Literal(31)) && ts[..0] == [] && ts[0] == Package(1, Resolved, [Entry.Making]);
    OneArgument(Literal(31), 0, 0, "");
    assert PackageTargets(ts) == PackageTargets([]) + [Target(1, Resolved)];
    assert TargetsEvents(30, e.callee, args, ts, false) == TargetsEvents(30, e.callee, args, [], false) + [];
    assert PositionalValues(args, false) == PositionalValues([], false) + [[Secret()]];
    assert KeywordValues(args, false) == KeywordValues([], false) + [];
    assert SpreadValues(args, false) == SpreadValues([], false) + [];
    assert CalleeEvaluated(e.callee, 0, false) == [];
    assert Pending(30, e.callee, args, ts, false) == MadeCall();
  }

  lemma KeepingLog(keeps: bool)
    ensures Visited(Keeping(keeps), 1)
         == [Read(PendingRead(XUse(), 1, "x"))] + [Linked(Link(XUse(), Stored(), Resolved))] + [Defined(1, if keeps then "self" else "x", Stored())]
  {
    OneLink(XUse(), Stored());
    hide LinksInto, NodeOf;
    var name := if keeps then "self" else "x";
    var t := Attribute(12, Name(13, name));
    assert Bound(t, 1, [XUse()], false) == Bound(Name(13, name), 1, [XUse()], false);
  }

  lemma MadeLog(keeps: bool)
    ensures LogOf(Made(keeps)) == ParamEvents(1, Keeper(keeps).params) + Visited(Keeping(keeps), 1) + Visited(Handing(40, Making(), 41), 0)
  {
    var f := Keeper(keeps);
    assert f.body == [Keeping(keeps)] && f.symbol == 1;
    hide Visited, ParamEvents, Handing, Keeping, Making;
    TwoVisited(Def(f), Handing(40, Making(), 41), 0);
    OneVisited(f.body[0], 1);
    DefVisited(f);
    OneModule(Made(keeps), [Def(f), Handing(40, Making(), 41)]);
  }

  /** All that matters of the record. */
  ghost predicate MadeFacts(log: seq<Event>) {
    && (forall l :: Linked(l) in log ==> (l.from == XUse() && l.to == Stored()) || l.from == Value())
    && (forall r :: Read(r) in log ==> r == PendingRead(XUse(), 1, "x"))
    && (forall c :: Called(c) in log ==> c == MadeCall()) && Called(MadeCall()) in log
    && (forall s: nat, n: nat :: Returned(s, n) !in log)
    && Linked(Link(Value(), Outlet(), Resolved)) in log
  }

  lemma MadeFactsHold(keeps: bool)
    ensures MadeFacts(LogOf(Made(keeps)))
  {
    MadeLog(keeps);
    KeepingLog(keeps);
    MakingLog();
    HandingLog(40, Making(), 41, 0);
    var ps, call := ParamEvents(1, Keeper(keeps).params), [Called(MadeCall())];
    ParamKinds(1, Keeper(keeps).params);
    var a, b := LinksInto([Value()], Outlet(), Resolved), LinksInto([Value()], NodeOf(41, FirstRole, false), Resolved);
    var read, link := [Read(PendingRead(XUse(), 1, "x"))], [Linked(Link(XUse(), Stored(), Resolved))];
    var def := [Defined(1, if keeps then "self" else "x", Stored())];
    assert LogOf(Made(keeps)) == ps + (read + link + def) + (call + (a + b));
    assert [Value()][0] == Value() && call[0] == Called(MadeCall());
    hide ParamEvents, LinksInto, LogOf, Made, NodeOf, MadeCall, XUse, Outlet, Stored, Value;
    MadeParts(ps, read, link, def, call, a, b, LogOf(Made(keeps)));
  }

  lemma {:induction false} ParamKinds(f: nat, ps: seq<Formal>)
    ensures forall v :: v in ParamEvents(f, ps) ==> v.Defined? || v.HasParam?
  {
    hide NodeOf;
    if ps != [] {
      ParamKinds(f, ps[..|ps| - 1]);
    }
  }

  lemma MadeParts(ps: seq<Event>, read: seq<Event>, link: seq<Event>, def: seq<Event>, call: seq<Event>, a: seq<Event>, b: seq<Event>, log: seq<Event>)
    requires log == ps + (read + link + def) + (call + (a + b))
    requires forall v :: v in ps || v in def ==> v.Defined? || v.HasParam?
    requires read == [Read(PendingRead(XUse(), 1, "x"))] && link == [Linked(Link(XUse(), Stored(), Resolved))]
    requires call == [Called(MadeCall())] && Called(MadeCall()) in call
    requires forall v :: v in a || v in b ==> v.Linked? && v.link.from == Value()
    requires Linked(Link(Value(), Outlet(), Resolved)) in a
    ensures MadeFacts(log)
  {
    hide NodeOf, MadeCall, XUse, Outlet, Stored, Value;
    assert forall v :: v in log <==> v in ps || v in read || v in link || v in def || v in call || v in a || v in b;
  }

  lemma MadeHas(keeps: bool)
    ensures var p, f := Made(keeps), Keeper(keeps);
            && FunctionsOf(p.modules) == [f] && WrittenInModules(p.modules) == {(1, if keeps then "self" else "x")}
            && (1, "self") in BoundInModules(p.modules) && (1, "x") in BoundInModules(p.modules)
  {
    var p, f, s := Made(keeps), Keeper(keeps), Handing(40, Making(), 41);
    var body := [Def(f), s];
    OneModule(p, body);
    HandingHas(40, Making(), 41, 0);
    assert body[..1] == [Def(f)] && body[1] == s && body[..1][..0] == [] && f.body[..0] == [] && f.body[0] == Keeping(keeps);
    hide Handing, Making;
    var x := if keeps then "self" else "x";
    assert BasesOf(Attribute(12, Name(13, x))) == BasesOf(Name(13, x)) == {x};
    assert InScope(1, {x}) == {(1, x)};
    assert AllWrittenIn(f.body, 1) == AllWrittenIn([], 1) + {(1, x)};
    assert WrittenIn(Def(f), 0) == {(1, x)};
    assert AllWrittenIn(body[..1], 0) == AllWrittenIn([], 0) + {(1, x)};
    assert AllWrittenIn(body, 0) == {(1, x)} + {};
    assert AllFunctionsIn(f.body) == [] + [];
    assert FunctionsIn(Def(f)) == [f] + AllFunctionsIn(f.body) == [f];
    assert AllFunctionsIn(body[..1]) == AllFunctionsIn([]) + FunctionsIn(Def(f));
    assert AllFunctionsIn(body) == AllFunctionsIn(body[..1]) + FunctionsIn(s);
    MadeBinds(p, f);
  }

  lemma MadeBinds(p: Program, f: Function)
    requires FunctionsOf(p.modules) == [f] && f.symbol == 1 && f.params == [Formal(10, "self", Ordinary), Formal(11, "x", Ordinary)]
    ensures (1, "self") in BoundInModules(p.modules) && (1, "x") in BoundInModules(p.modules)
  {
    ModulesBound(p.modules);
    assert f.params[0] in f.params && f.params[1] in f.params && [f][0] == f;
    assert "self" in ParamNames(f.params) && "x" in ParamNames(f.params);
    assert (1, "x") in ParamsBound([f]) && (1, "self") in ParamsBound([f]);
    hide FunctionsOf, WrittenInModules, BoundInModules, ParamsBound;
  }

  // ---- no path, in either ----

  lemma MadeIsolated(keeps: bool)
    ensures Isolated(Made(keeps), Inside())
  {
    var p, f := Made(keeps), Keeper(keeps);
    MadeFactsHold(keeps);
    MadeHas(keeps);
    NodesOfMade();
    OneOnly(f);
    OwnParams(p, f);
    assert DefinitionsOf(p).Offset(1, false) == 1 by {
      assert f in FunctionsOf(p.modules) && f.symbol == 1 && f.isMethod && f.isInit;
      hide LogOf, FunctionsOf;
    }
    NoReturns(p);
    hide LogOf, FunctionsOf, Made, MadeCall;
    MadeCallStays(p, f.params);
    hide *;
    MadeStays(p);
  }

  lemma MadeStays(p: Program)
    requires Climbs(p.scopeOf) && MadeFacts(LogOf(p)) && CallStays(p, MadeCall(), Inside()) && !MadeCall().Wide()
    requires XUse() in Inside() && Stored() in Inside() && Value() !in Inside()
    ensures Isolated(p, Inside())
  {
    hide LogOf, CallStays, PendingCall.Wide, MadeCall, XUse, Stored, Value, Inside;
  }

  /** The secret goes to `x` and nowhere else. */
  lemma MadeCallStays(p: Program, ps: seq<Formal>)
    requires ps == [Formal(10, "self", Ordinary), Formal(11, "x", Ordinary)] && DefinitionsOf(p).ParamsOf(1) == ParamList(ps) && DefinitionsOf(p).Offset(1, false) == 1
    requires forall s: nat :: DefinitionsOf(p).ReturnsOf(s) == []
    ensures CallStays(p, MadeCall(), Inside()) && !MadeCall().Wide()
  {
    var c, defs, S := MadeCall(), DefinitionsOf(p), Inside();
    NodesOfMade();
    var pos := c.positional;
    assert pos[..0] == [];
    assert PositionalSlots(pos) == [(Slot.Positional(0), [Secret()])];
    assert SlotsOf(c) == [] + [(Slot.Positional(0), [Secret()])];
    hide DefinitionsOf, SlotsOf, Inside;
    assert WireFormals(defs, Slot.Positional(0), 1, false) == [XNode()];
    assert XNode() in S by {
      InsideHas();
    }
  }

  lemma InsideHas()
    ensures Secret() in Inside() && XNode() in Inside() && XUse() in Inside() && Stored() in Inside()
    ensures Value() !in Inside() && Outlet() !in Inside()
  {
    NodesOfMade();
  }

  // ---- and a run, in the one ----

  function W(): World { WorldOf(Made(true), 0) }

  /** Inside the initialiser, and what it has put into the object. */
  function AtStart(vars: map<string, Trail>): State {
    State([Frame(0, map[], None, NoObject), Frame(1, vars, Some(0), Named("self", {}))], {}, [])
  }

  function Held(): Trail {
    {XNode()} + {Secret()} + {XUse()} + {Stored()}
  }

  lemma KeepingRun(w: World, vars: map<string, Trail>)
    requires (1, "self") in w.binds && (1, "x") in w.binds && vars == map["self" := {}, "x" := {XNode()} + {Secret()}]
    ensures var r := Exec(w, Keeping(true), 1, AtStart(vars), 0);
            r.Done? && r.value == None && r.st.choices == [] && |r.st.heap| == 2 && r.st.heap[1].made == Named("self", Held())
  {
    var s := AtStart(vars);
    hide NodeOf;
    assert Lookup(w.binds, s.heap, 1, "x") == Some(1) && Lookup(w.binds, s.heap, 1, "self") == Some(1);
    assert Eval(w, Name(14, "x"), 1, s, 0) == Done(s, vars["x"] + {XUse()});
    var v := vars["x"] + {XUse()} + {Stored()};
    assert {} + v == Held();
    assert StoreInto(w, Name(13, "self"), vars["x"] + {XUse()}, 1, s, 0, true) == Done(PutInto(s, 1, "self", v), None);
  }

  lemma MadeVars()
    ensures var f, args, vs := Keeper(true), Making().args, [{Secret()}];
            && LeadOf(f, Entry.Making) == NewObject
            && BindParams(f, 2, NewObject, {}, args, vs) == map["self" := {}, "x" := {XNode()} + {Secret()}]
  {
    var f, args: seq<Arg>, vs := Keeper(true), Making().args, [{Secret()}];
    hide NodeOf;
    assert args[..0] == [] && vs[..0] == [] && Positionals([]) == 0;
    assert MayBind(f.params, args, 0, 1, 1);
    assert Into(f.params, args, vs, 1, 1, 1) == Into(f.params, args, vs, 1, 1, 0) + {Secret()} == {Secret()};
    assert ParamTrail(f, 1, NewObject, {}, args, vs) == {XNode()} + {} + {Secret()} == {XNode()} + {Secret()};
    assert BindParams(f, 1, NewObject, {}, args, vs) == map["self" := {}];
  }

  lemma InvokeKeeper(w: World, vars: map<string, Trail>, st: State)
    requires w.scopeOf == map[1 := 0] && st == State([Frame(0, map[], None, NoObject)], {}, [])
    requires (1, "self") in w.binds && (1, "x") in w.binds && vars == map["self" := {}, "x" := {XNode()} + {Secret()}]
    ensures var r := Invoke(w, Keeper(true), vars, Named("self", {}), st, 0); r.Done? && r.st.choices == [] && r.value == Held()
  {
    var f := Keeper(true);
    KeepingRun(w, vars);
    hide Exec, Keeping, NodeOf, Held;
    assert f.body[..0] == [] && ExecAll(w, [], 1, AtStart(vars), 0) == Done(AtStart(vars), None);
    assert ExecAll(w, f.body, 1, AtStart(vars), 0) == Exec(w, f.body[0], 1, AtStart(vars), 0);
    assert st.heap + [Frame(1, vars, Some(0), Named("self", {}))] == AtStart(vars).heap;
    assert Chosen(st) == st && Choice(st) == 0;
  }

  lemma MakingRun(w: World, st: State)
    requires w.functions == [Keeper(true)] && w.scopeOf == map[1 := 0] && w.floor == 0 && st == State([Frame(0, map[], None, NoObject)], {}, [])
    requires (1, "self") in w.binds && (1, "x") in w.binds
    ensures var r := Eval(w, Making(), 0, st, 1); r.Done? && r.st.choices == [] && r.value == Held() + {Value()}
  {
    var e, f, vs := Making(), Keeper(true), [{Secret()}];
    var args, t := e.args, Package(1, Resolved, [Entry.Making]);
    assert args[..0] == [] && args[0] == ByPosition(Literal(31)) && [] + [{Secret()}] == vs;
    assert EvalCallee(w, e.callee, 0, st, 1) == Done(st, {});
    assert EvalArgs(w, args, 0, st, 1) == Done(st, vs);
    MadeVars();
    var vars := BindParams(f, 2, NewObject, {}, args, vs);
    InvokeKeeper(w, vars, st);
    assert ObjectOf(f, NewObject) == Named("self", {}) && |f.params| == 2 && f.symbol == 1;
    hide BindParams, Invoke, ObjectOf, LeadOf, NodeOf, EvalCallee, EvalArgs, Held, Keeper;
    assert Find(w.functions, 1) == Some(f);
    assert Choice(st) == 0 && Chosen(st) == st && t.entries[0] == Entry.Making && e.targets[0] == t;
    assert Dispatch(w, e, {}, vs, st, 1) == Enter(w, e, t, {}, vs, st, 1);
    CallIs(w, e, 0, st, 1);
  }

  lemma MadeRun()
    ensures (Secret(), Outlet()) in Run(Made(true), 0, [Load(0)], [], 1).taken
  {
    var p, w := Made(true), W();
    MadeHas(true);
    var st := State([Frame(0, map[], None, NoObject)], {}, []);
    var s := Handing(40, Making(), 41);
    MakingRun(w, st);
    var r := Eval(w, Making(), 0, st, 1);
    hide Eval, NodeOf, Making, Keeper;
    HandingRun(w, 40, Making(), 41, 0, st, r.st, 1, r.value, Secret());
    var body := [Def(Keeper(true)), s];
    assert body[..1] == [Def(Keeper(true))] && body[1] == s && body[..1][..0] == [];
    hide Handing;
    assert Exec(w, Def(Keeper(true)), 0, st, 1) == Done(st, None);
    assert ExecAll(w, body[..1], 0, st, 1) == Done(st, None);
    assert ExecAll(w, body, 0, st, 1) == Exec(w, s, 0, st, 1);
    assert [] + [Frame(0, map[], None, NoObject)] == st.heap;
    hide Exec, ExecAll;
    var steps := [Load(0)];
    assert steps[..0] == [] && Run(p, 0, steps[..0], [], 1) == State([], {}, []);
    assert RunStep(p, w, Load(0), State([], {}, []), 1) == ExecAll(w, body, 0, st, 1).st;
  }

  // ---- both ----

  lemma MadeFitsIff(keeps: bool)
    ensures InFragment(Made(keeps)) <==> KeepsNothing(Keeper(keeps), Entry.Making, ContextOf(Made(keeps)))
    ensures InFragment(Made(keeps)) <==> !keeps
  {
    var p, f, s := Made(keeps), Keeper(keeps), Handing(40, Making(), 41);
    MadeHas(keeps);
    OneOnly(f);
    var ctx, body := ContextOf(p), [Def(f), s];
    assert body[..1] == [Def(f)] && body[1] == s && body[..1][..0] == [];
    assert p.modules == [Module(0, body)] && p.scopeOf == map[1 := 0];
    assert LeadOf(f, Entry.Making) == NewObject && f.params[0].name == "self" && ctx.functions == [f];
    assert KeepsNothing(f, Entry.Making, ctx) <==> !keeps;
    KeeperFits(keeps, ctx);
    HandingFitsIff(f, s, ctx);
    hide Made, ContextOf, Handing, Keeper, Making, KeepsNothing;
    assert AllFit(body[..1], 0, ctx) <==> AllFit([], 0, ctx) && Fits(Def(f), 0, ctx);
    assert AllFit(body, 0, ctx) <==> Fits(s, 0, ctx);
    assert p.modules[..0] == [];
    assert ModulesFit(p.modules, ctx) <==> AllFit(body, 0, ctx);
  }

  lemma KeeperFits(keeps: bool, ctx: Context)
    requires (1, "self") in ctx.binds && (1, "x") in ctx.binds
    ensures Fits(Def(Keeper(keeps)), 0, ctx)
  {
    var f := Keeper(keeps);
    assert f.body[..0] == [] && f.body[0] == Keeping(keeps);
    assert IsPlace(Name(13, if keeps then "self" else "x"), 1, ctx);
    assert Fits(Keeping(keeps), 1, ctx);
  }

  lemma HandingFitsIff(f: Function, s: Stmt, ctx: Context)
    requires s == Handing(40, Making(), 41) && ctx.functions == [f] && f.symbol == 1 && f.isMethod && f.isInit && f.decoration.Undecorated?
    requires forall k :: 0 <= k < |f.params| ==> f.params[k].kind.Ordinary?
    ensures Fits(s, 0, ctx) <==> KeepsNothing(f, Entry.Making, ctx)
  {
    hide KeepsNothing;
    var e, m := s.value, Making();
    assert e.args[..0] == [] && m.args[..0] == [] && e.args[0] == ByPosition(m) && m.args[0] == ByPosition(Literal(31));
    assert TargetsSee(e.callee, e.args, e.targets, ctx);
    assert NoneLeftOver(f.params, m.args, OffsetOf(LeadOf(f, Entry.Making))) by {
      assert !AfterSpread(m.args, 0);
    }
    assert m.targets[0] in m.targets && m.targets[0].entries[0] in m.targets[0].entries && [f][0] in ctx.functions;
    assert TargetsSee(m.callee, m.args, m.targets, ctx) <==> KeepsNothing(f, Entry.Making, ctx);
    assert ArgsSee(m.args, 0, ctx);
    assert Sees(m, 0, ctx) <==> TargetsSee(m.callee, m.args, m.targets, ctx);
    assert ArgsSee(e.args, 0, ctx) <==> Sees(m, 0, ctx);
  }

  /** A secret passed to an initialiser comes out with the object, and goes with it to a sink, exactly
      where the initialiser puts it into the object; and no path in the graph says so. */
  lemma MadeIsMissedIff(keeps: bool, w: HubTheorem.Wiring)
    requires IsGraphOf(Made(keeps), w)
    ensures !Reach(HubTheorem.AtLeast(w.links, 0), Secret(), Outlet())
    ensures (Secret(), Outlet()) in Run(Made(keeps), 0, [Load(0)], [], 1).taken <==> StoresInto(Keeper(keeps).body, "self")
    ensures StoresInto(Keeper(keeps).body, "self") <==> !KeepsNothing(Keeper(keeps), Entry.Making, ContextOf(Made(keeps)))
  {
    var p := Made(keeps);
    MadeIsolated(keeps);
    MadeFactsHold(keeps);
    MadeFitsIff(keeps);
    KeeperStores(keeps);
    InsideHas();
    if keeps {
      MadeRun();
    }
    MadeEnds(p);
    hide *;
    LinkInside(p, w, Link(Value(), Outlet(), Resolved));
    ActualInside(p, w, MadeCall(), Secret());
    NoWay(p, w, Inside(), Secret(), Outlet());
    if !keeps {
      TaintSound(p, w, 0, [Load(0)], [], 1);
    }
  }

  lemma KeeperStores(keeps: bool)
    ensures OnlyStores(Keeper(keeps).body) && (StoresInto(Keeper(keeps).body, "self") <==> keeps)
  {
    var ss := Keeper(keeps).body;
    assert ss == [Keeping(keeps)] && IsStore(ss[0]);
    assert VariableOf(ss[0].target) == if keeps then "self" else "x";
  }

  lemma MadeEnds(p: Program)
    requires MadeFacts(LogOf(p))
    ensures Linked(Link(Value(), Outlet(), Resolved)) in LogOf(p) && Called(MadeCall()) in LogOf(p)
    ensures MadeCall().positional == [[Secret()]]
  {
    hide LogOf, NodeOf;
  }
}
