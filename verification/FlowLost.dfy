/** Exactly which actuals are wired where a run binds them, and calls whose argument is lost. */
module FlowLost {
  import opened Options
  import opened Finite
  import opened Walks
  import opened Evidence
  import opened Calls
  import opened Hubs
  import opened FlowSyntax
  import opened FlowWalker
  import opened FlowGraph
  import opened FlowRuns
  import opened FlowFits
  import opened FlowRecord
  import opened FlowActuals
  import opened FlowTheorem
  import opened FlowNoPath
  import HubTheorem

  // ---- every program ----

  /** Of every program, function and call that lines up with it: each actual is wired to every
      parameter the language may bind it to exactly when none is left over for a starred one. */
  lemma ActualsWiredIff(p: Program, f: Function, entry: Entry, seen: bool, args: seq<Arg>)
    requires DistinctSymbols(FunctionsOf(p.modules)) && f in FunctionsOf(p.modules) && OwnNodes(f) && DistinctNames(f.params)
    requires LinesUp(f, entry, seen)
    ensures NoneLeftOver(f.params, args, OffsetOf(LeadOf(f, entry))) <==>
      forall i: nat, k: nat :: i < |args| && k < |f.params| && MayBind(f.params, args, i, k, OffsetOf(LeadOf(f, entry)))
        ==> NodeOf(f.params[k].id, ParameterRole, false) in WireFormals(DefinitionsOf(p), SlotFor(args, i), f.symbol, seen)
  {
    OwnParams(p, f);
    OffsetIff(p, f, entry, seen);
    var offset, defs := OffsetOf(LeadOf(f, entry)), DefinitionsOf(p);
    NoneLeftOverIff(f.params, args, offset);
    hide LogOf, FunctionsOf, DefinitionsOf, ParamList, OwnNodes, DistinctNames, LinesUp, NoneLeftOver, MayBind, IsWired, WireFormals, SlotFor, NodeOf, OffsetOf, LeadOf;
    forall i: nat, k: nat | i < |args| && k < |f.params|
      ensures NodeOf(f.params[k].id, ParameterRole, false) in WireFormals(defs, SlotFor(args, i), f.symbol, seen) <==> IsWired(f.params, args, i, k, offset)
    {
      SlotFormalIff(defs, f, seen, args, i, k);
    }
  }

  // ---- three calls that lose one ----

  // def f(*x): sink(x)          f("a", "s")
  // def f(**x): sink(x)         f(key="s")
  // import x; def f(x): sink(x) f("s")
  datatype Case = Beyond | ByKeyword | Hidden

  function Taken(c: Case): Formal {
    Formal(11, "x", match c case Beyond => Starred case ByKeyword => DoubleStarred case Hidden => Ordinary)
  }

  function Given(c: Case): Expr {
    if c.Hidden? then Imported(21, "x", Outside) else Name(21, "x")
  }

  function Taker(c: Case): Function {
    Function(1, [Taken(c)], [Handing(20, Given(c), 22)], false, false, Undecorated)
  }

  function Passed(c: Case): seq<Arg> {
    match c
    case Beyond => [ByPosition(Literal(32)), ByPosition(Literal(31))]
    case ByKeyword => [ByName(33, "key", Literal(31))]
    case Hidden => [ByPosition(Literal(31))]
  }

  function Passing(c: Case): Expr {
    Expr.Call(30, Plain(30, "f"), Passed(c), [Package(1, Resolved, [OnObject])])
  }

  function Losing(c: Case): (p: Program)
    ensures Climbs(p.scopeOf)
  {
    Program([Module(0, [Def(Taker(c)), Evaluate(Passing(c))])], map[1 := 0], if c.Hidden? then {(0, "x")} else {})
  }

  function Secret(): nat { NodeOf(31, LiteralRole, false) }
  function Outlet(): nat { NodeOf(22, ForeignRole, false) }
  function Used(): nat { NodeOf(21, UseRole, false) }
  function XNode(): nat { NodeOf(11, ParameterRole, false) }

  lemma NodesDiffer()
    ensures Secret() == 506 && Outlet() == 364 && Used() == 336 && XNode() == 180
    ensures NodeOf(32, LiteralRole, false) == 522 && NodeOf(30, ResultRole, false) == 488
  {
  }

  /** Where the secret gets to. */
  function Reached(c: Case): set<nat> {
    if c.Hidden? then {Secret(), XNode()} else {Secret()}
  }

  // ---- what they record ----

  function LostCall(c: Case): PendingCall {
    PendingCall(NodeOf(30, ResultRole, false), [],
                match c { case Beyond => [[NodeOf(32, LiteralRole, false)], [Secret()]] case ByKeyword => [] case Hidden => [[Secret()]] },
                if c.ByKeyword? then [("key", [Secret()])] else [], [], [Target(1, Resolved)])
  }

  lemma PassedValues(c: Case)
    ensures PositionalValues(Passed(c), false) == LostCall(c).positional && KeywordValues(Passed(c), false) == LostCall(c).keyword
    ensures SpreadValues(Passed(c), false) == [] && ArgsEvaluated(Passed(c), 0, false) == []
  {
    hide NodeOf;
    var args := Passed(c);
    if c.Beyond? {
      var one := args[..1];
      assert one == [ByPosition(Literal(32))] && one[..0] == [] && args[1] == ByPosition(Literal(31));
      assert PositionalValues(one, false) == [] + [[NodeOf(32, LiteralRole, false)]];
      assert PositionalValues(args, false) == PositionalValues(one, false) + [[Secret()]];
      assert KeywordValues(one, false) == [] + [] && SpreadValues(one, false) == [] + [] && ArgsEvaluated(one, 0, false) == [] + [];
      assert KeywordValues(args, false) == [] + [] && SpreadValues(args, false) == [] + [] && ArgsEvaluated(args, 0, false) == [] + [];
    } else {
      assert args[..0] == [];
      assert PositionalValues(args, false) == PositionalValues([], false) + if c.Hidden? then [[Secret()]] else [];
      assert KeywordValues(args, false) == KeywordValues([], false) + if c.ByKeyword? then [("key", [Secret()])] else [];
      assert SpreadValues(args, false) == [] + [] && ArgsEvaluated(args, 0, false) == [] + [];
    }
  }

  lemma PassingLog(c: Case)
    ensures Visited(Evaluate(Passing(c)), 0) == [Called(LostCall(c))]
  {
    PassedValues(c);
    var e := Passing(c);
    var ts := e.targets;
    assert ts[..0] == [] && ts[0] == Package(1, Resolved, [OnObject]);
    assert PackageTargets(ts) == PackageTargets([]) + [Target(1, Resolved)];
    assert TargetsEvents(30, e.callee, e.args, ts, false) == TargetsEvents(30, e.callee, e.args, [], false) + [];
    hide NodeOf, Passed, TargetsEvents, ArgsEvaluated, PositionalValues, KeywordValues, SpreadValues;
    HandingEvaluates(e, 0);
    assert Pending(30, e.callee, e.args, ts, false) == LostCall(c);
  }

  lemma LosingLog(c: Case)
    ensures LogOf(Losing(c)) == ParamEvents(1, [Taken(c)]) + Visited(Handing(20, Given(c), 22), 1) + Visited(Evaluate(Passing(c)), 0)
  {
    var f := Taker(c);
    assert f.body == [Handing(20, Given(c), 22)] && f.symbol == 1 && f.params == [Taken(c)];
    hide Visited, ParamEvents, Handing, Passing, Given, Taken;
    TwoVisited(Def(f), Evaluate(Passing(c)), 0);
    OneVisited(f.body[0], 1);
    DefVisited(f);
    OneModule(Losing(c), [Def(f), Evaluate(Passing(c))]);
  }

  /** All that matters of the record. */
  ghost predicate LostFacts(log: seq<Event>, c: Case) {
    && (forall l :: Linked(l) in log ==> l.from == Used())
    && (forall r :: Read(r) in log ==> r.node == Used() && !c.Hidden?)
    && (forall s: nat, y, n: nat :: Defined(s, y, n) in log ==> n == XNode())
    && (forall d :: Called(d) in log ==> d == LostCall(c))
    && (forall s: nat, n: nat :: Returned(s, n) !in log)
  }

  lemma LostFactsHold(c: Case)
    ensures LostFacts(LogOf(Losing(c)), c)
    ensures Linked(Link(Used(), Outlet(), Resolved)) in LogOf(Losing(c)) && Called(LostCall(c)) in LogOf(Losing(c))
  {
    LosingLog(c);
    PassingLog(c);
    HandingLog(20, Given(c), 22, 1);
    var ps, call := ParamEvents(1, [Taken(c)]), [Called(LostCall(c))];
    assert [Taken(c)][..0] == [];
    assert ps == [] + [Defined(1, "x", XNode()), HasParam(1, "x", XNode())];
    var read := Evaluated(Given(c), 1, false);
    var a, b := LinksInto([Used()], Outlet(), Resolved), LinksInto([Used()], NodeOf(22, FirstRole, false), Resolved);
    assert LogOf(Losing(c)) == ps + (read + (a + b)) + call;
    assert [Used()][0] == Used() && call[0] == Called(LostCall(c));
    assert Linked(Link(Used(), Outlet(), Resolved)) in a;
    hide ParamEvents, LinksInto, LogOf, Losing, NodeOf, LostCall, Used, Outlet, XNode;
    LostParts(ps, read, a, b, call, c, LogOf(Losing(c)));
  }

  lemma LostParts(ps: seq<Event>, read: seq<Event>, a: seq<Event>, b: seq<Event>, call: seq<Event>, c: Case, log: seq<Event>)
    requires log == ps + (read + (a + b)) + call
    requires ps == [Defined(1, "x", XNode()), HasParam(1, "x", XNode())]
    requires read == if c.Hidden? then [] else [Read(PendingRead(Used(), 1, "x"))]
    requires call == [Called(LostCall(c))] && Called(LostCall(c)) in call
    requires forall v :: v in a || v in b ==> v.Linked? && v.link.from == Used()
    requires Linked(Link(Used(), Outlet(), Resolved)) in a
    ensures LostFacts(log, c) && Linked(Link(Used(), Outlet(), Resolved)) in log && Called(LostCall(c)) in log
  {
    hide NodeOf, LostCall, Used, Outlet, XNode;
    assert forall v :: v in log <==> v in ps || v in read || v in a || v in b || v in call;
  }

  lemma LosingHas(c: Case)
    ensures var w := WorldOf(Losing(c), 0);
            && w.functions == [Taker(c)] && w.scopeOf == map[1 := 0] && (1, "x") in w.binds && (1, "x") !in w.imports && w.floor == 0
  {
    var p, f := Losing(c), Taker(c);
    var body := [Def(f), Evaluate(Passing(c))];
    OneModule(p, body);
    HandingHas(20, Given(c), 22, 1);
    hide Handing, Passing, Given;
    assert body[..1] == [Def(f)] && body[..1][..0] == [] && f.body[..0] == [] && f.body[0] == Handing(20, Given(c), 22);
    assert AllFunctionsIn(f.body) == [] + [];
    assert FunctionsIn(Def(f)) == [f] + AllFunctionsIn(f.body) == [f];
    assert AllFunctionsIn(body[..1]) == AllFunctionsIn([]) + FunctionsIn(Def(f));
    assert AllFunctionsIn(body) == AllFunctionsIn(body[..1]) + [];
    ModulesBound(p.modules);
    assert f.params[0] in f.params && [f][0] == f && "x" in ParamNames(f.params);
    assert (1, "x") in ParamsBound([f]);
    hide FunctionsOf, WrittenInModules, BoundInModules, ParamsBound;
  }

  // ---- no path ----

  lemma LosingIsolated(c: Case)
    ensures Isolated(Losing(c), Reached(c))
  {
    var p, f := Losing(c), Taker(c);
    LostFactsHold(c);
    LosingHas(c);
    NodesDiffer();
    OneOnly(f);
    OwnParams(p, f);
    assert DefinitionsOf(p).Offset(1, false) == 0 by {
      hide LogOf, FunctionsOf;
      assert FunctionsOf(p.modules) == [f];
    }
    NoReturns(p);
    hide LogOf, FunctionsOf, Losing, LostCall;
    LostCallStays(p, c);
    hide *;
    LostStays(p, c);
  }

  lemma LostStays(p: Program, c: Case)
    requires Climbs(p.scopeOf) && LostFacts(LogOf(p), c) && CallStays(p, LostCall(c), Reached(c)) && !LostCall(c).Wide()
    requires Used() !in Reached(c) && (!c.Hidden? ==> XNode() !in Reached(c))
    ensures Isolated(p, Reached(c))
  {
    hide LogOf, CallStays, PendingCall.Wide, LostCall, Reached, Used, XNode, Nearest;
  }

  lemma LostSlots(c: Case)
    ensures |SlotsOf(LostCall(c))| > 0 && Secret() in SlotsOf(LostCall(c))[|SlotsOf(LostCall(c))| - 1].1
    ensures forall k :: 0 <= k < |SlotsOf(LostCall(c))| ==>
      var s := SlotsOf(LostCall(c))[k];
      && XNode() !in s.1
      && (Secret() in s.1 ==> s.0 == match c case Beyond => Slot.Positional(1) case ByKeyword => Slot.Keyword("key") case Hidden => Slot.Positional(0))
  {
    NodesDiffer();
    var d := LostCall(c);
    var pos: seq<seq<nat>>, key: seq<(string, seq<nat>)> := d.positional, d.keyword;
    hide NodeOf;
    match c
    case Beyond =>
      assert pos[..1] == [[NodeOf(32, LiteralRole, false)]] && pos[..1][..0] == [];
      assert PositionalSlots(pos[..1]) == [] + [(Slot.Positional(0), [NodeOf(32, LiteralRole, false)])];
      assert PositionalSlots(pos) == PositionalSlots(pos[..1]) + [(Slot.Positional(1), [Secret()])];
      assert SlotsOf(d) == [(Slot.Positional(0), [NodeOf(32, LiteralRole, false)]), (Slot.Positional(1), [Secret()])];
    case ByKeyword =>
      assert key[..0] == [];
      assert KeywordSlots(key) == [(Slot.Keyword("key"), [Secret()])];
      assert SlotsOf(d) == [] + [] + [(Slot.Keyword("key"), [Secret()])] + [];
    case Hidden =>
      assert pos[..0] == [];
      assert PositionalSlots(pos) == [] + [(Slot.Positional(0), [Secret()])];
      assert SlotsOf(d) == [] + [(Slot.Positional(0), [Secret()])];
  }

  lemma LostCallStays(p: Program, c: Case)
    requires DefinitionsOf(p).ParamsOf(1) == ParamList([Taken(c)]) && DefinitionsOf(p).Offset(1, false) == 0
    requires forall s: nat :: DefinitionsOf(p).ReturnsOf(s) == []
    ensures CallStays(p, LostCall(c), Reached(c)) && !LostCall(c).Wide()
  {
    var d, defs, ps := LostCall(c), DefinitionsOf(p), ParamList([Taken(c)]);
    LostSlots(c);
    assert |ps| == 1 && ps[0] == Param("x", XNode());
    assert WireFormals(defs, Slot.Positional(1), 1, false) == [] && WireFormals(defs, Slot.Keyword("key"), 1, false) == FirstNamed(ps, "key");
    assert ps[1..] == [] && FirstNamed(ps, "key") == [];
    assert WireFormals(defs, Slot.Positional(0), 1, false) == [XNode()];
    hide DefinitionsOf, SlotsOf, WireFormals, NodeOf, XNode, Secret;
    assert d.targets == [Target(1, Resolved)] && d.receiver == [];
  }

  // ---- and the run ----

  lemma TakenVars(c: Case)
    ensures var f, args := Taker(c), Passed(c);
            exists vs: seq<Trail> :: |vs| == |args| && Evals(c, vs)
              && var vars := BindParams(f, 1, Nothing, {}, args, vs); "x" in vars && Secret() in vars["x"]
  {
    var f, args := Taker(c), Passed(c);
    var k := |args| - 1;
    var vs: seq<Trail> := if c.Beyond? then [{NodeOf(32, LiteralRole, false)}, {Secret()}] else [{Secret()}];
    hide NodeOf;
    assert MayBind(f.params, args, k, 0, 0) by {
      assert f.params == [Taken(c)];
      assert args[..k][..0] == [];
    }
    assert Secret() in Into(f.params, args, vs, 0, 0, k + 1);
    hide Into;
    var vars := BindParams(f, 1, Nothing, {}, args, vs);
    assert BindParams(f, 0, Nothing, {}, args, vs) == map[] && f.params[0].name == "x";
    assert vars == map[]["x" := ParamTrail(f, 0, Nothing, {}, args, vs)];
    assert Evals(c, vs);
  }

  /** What the actuals evaluate to. */
  ghost predicate Evals(c: Case, vs: seq<Trail>) {
    vs == if c.Beyond? then [{NodeOf(32, LiteralRole, false)}, {Secret()}] else [{Secret()}]
  }

  lemma PassedRun(w: World, c: Case, vs: seq<Trail>, st: State)
    requires Evals(c, vs)
    ensures EvalArgs(w, Passed(c), 0, st, 1) == Done(st, vs)
  {
    hide NodeOf;
    var args := Passed(c);
    if c.Beyond? {
      var one := args[..1];
      assert one == [ByPosition(Literal(32))] && one[..0] == [] && args[1] == ByPosition(Literal(31));
      var us: seq<Trail>, last: Trail := [{NodeOf(32, LiteralRole, false)}], {Secret()};
      assert [] + us == us && us + [last] == vs;
      assert EvalArgs(w, one, 0, st, 1) == Done(st, us);
      assert args[..|args| - 1] == one && EvalArg(w, args[1], 0, st, 1) == Done(st, last);
      assert EvalArgs(w, args, 0, st, 1) == Done(st, us + [last]);
    } else {
      var last: Trail := {Secret()};
      assert args[..0] == [] && |args| == 1 && [] + [last] == vs;
      assert EvalArg(w, args[0], 0, st, 1) == Done(st, last);
      assert EvalArgs(w, args, 0, st, 1) == Done(st, vs);
    }
  }

  lemma BodyRun(w: World, c: Case, vars: map<string, Trail>, st: State)
    requires w.scopeOf == map[1 := 0] && (1, "x") in w.binds && (1, "x") !in w.imports && w.floor == 0
    requires st == State([Frame(0, map[], None, NoObject)], {}, []) && "x" in vars && Secret() in vars["x"]
    ensures (Secret(), Outlet()) in Invoke(w, Taker(c), vars, NoObject, st, 0).st.taken
  {
    var f := Taker(c);
    var s := State([Frame(0, map[], None, NoObject), Frame(1, vars, Some(0), NoObject)], {}, []);
    assert st.heap + [Frame(1, vars, Some(0), NoObject)] == s.heap;
    var v := vars["x"] + {Used()};
    assert Lookup(w.binds, s.heap, 1, "x") == Some(1) && Lookup(w.binds + w.imports, s.heap, 1, "x") == Some(1);
    assert Eval(w, Given(c), 1, s, 0) == Done(s, v);
    hide Eval, Given;
    HandingRun(w, 20, Given(c), 22, 1, s, s, 0, v, Secret());
    hide Exec, Handing, NodeOf;
    assert f.body[..0] == [] && ExecAll(w, [], 1, s, 0) == Done(s, None);
    assert ExecAll(w, f.body, 1, s, 0) == Exec(w, f.body[0], 1, s, 0);
    assert Chosen(st) == st && Choice(st) == 0;
  }

  lemma PassingRun(w: World, c: Case, st: State)
    requires w.functions == [Taker(c)] && w.scopeOf == map[1 := 0] && (1, "x") in w.binds && (1, "x") !in w.imports && w.floor == 0
    requires st == State([Frame(0, map[], None, NoObject)], {}, [])
    ensures (Secret(), Outlet()) in Exec(w, Evaluate(Passing(c)), 0, st, 1).st.taken
  {
    var e, f := Passing(c), Taker(c);
    TakenVars(c);
    var vs: seq<Trail> :| |vs| == |Passed(c)| && Evals(c, vs)
      && var vars := BindParams(f, 1, Nothing, {}, Passed(c), vs); "x" in vars && Secret() in vars["x"];
    var vars, t := BindParams(f, 1, Nothing, {}, Passed(c), vs), Package(1, Resolved, [OnObject]);
    PassedRun(w, c, vs, st);
    BodyRun(w, c, vars, st);
    assert EvalCallee(w, e.callee, 0, st, 1) == Done(st, {});
    assert LeadOf(f, OnObject) == Nothing && ObjectOf(f, Nothing) == NoObject && |f.params| == 1 && f.symbol == 1;
    hide BindParams, Invoke, ObjectOf, LeadOf, NodeOf, EvalCallee, EvalArgs, Taker, Evals, Passed;
    assert Find(w.functions, 1) == Some(f);
    assert Choice(st) == 0 && Chosen(st) == st && t.entries[0] == OnObject && e.targets[0] == t;
    assert Dispatch(w, e, {}, vs, st, 1) == Enter(w, e, t, {}, vs, st, 1);
    CallIs(w, e, 0, st, 1);
  }

  lemma LosingRun(c: Case)
    ensures (Secret(), Outlet()) in Run(Losing(c), 0, [Load(0)], [], 1).taken
  {
    hide Exec, ExecAll, Run, Passing, Taker, WorldOf;
    var p := Losing(c);
    var w := WorldOf(p, 0);
    var st := State([Frame(0, map[], None, NoObject)], {}, []);
    var f, s := Taker(c), Evaluate(Passing(c));
    LosingHas(c);
    PassingRun(w, c, st);
    DefinedThen(w, f, s, st);
    Loaded(p, w, [Def(f), s]);
  }

  /** A definition, then a statement. */
  lemma DefinedThen(w: World, f: Function, s: Stmt, st: State)
    ensures ExecAll(w, [Def(f), s], 0, st, 1) == Exec(w, s, 0, st, 1)
  {
    var body := [Def(f), s];
    assert body[..1] == [Def(f)] && body[1] == s && body[..1][..0] == [];
    assert Exec(w, Def(f), 0, st, 1) == Done(st, None);
    assert ExecAll(w, body[..1], 0, st, 1) == Done(st, None);
    hide Exec;
  }

  lemma Loaded(p: Program, w: World, body: seq<Stmt>)
    requires w == WorldOf(p, 0) && p.modules == [Module(0, body)]
    ensures Run(p, 0, [Load(0)], [], 1) == ExecAll(w, body, 0, State([Frame(0, map[], None, NoObject)], {}, []), 1).st
  {
    var steps := [Load(0)];
    assert steps[..0] == [] && Run(p, 0, steps[..0], [], 1) == State([], {}, []);
    assert [] + [Frame(0, map[], None, NoObject)] == [Frame(0, map[], None, NoObject)];
    hide ExecAll;
  }

  /** A second actual for `*x`, a keyword for `**x`, and an actual for a parameter of a name its file
      imports: a run hands each to a sink, and no path in the graph says so. */
  lemma ActualIsLost(c: Case, w: HubTheorem.Wiring)
    requires IsGraphOf(Losing(c), w)
    ensures (Secret(), Outlet()) in Run(Losing(c), 0, [Load(0)], [], 1).taken
    ensures !Reach(HubTheorem.AtLeast(w.links, 0), Secret(), Outlet()) && !InFragment(Losing(c))
  {
    var p := Losing(c);
    LosingRun(c);
    LosingIsolated(c);
    LostFactsHold(c);
    NodesDiffer();
    LostSlots(c);
    hide *;
    LinkInside(p, w, Link(Used(), Outlet(), Resolved));
    SlotInside(p, w, LostCall(c), |SlotsOf(LostCall(c))| - 1, Secret());
    SecretInside(c);
    NoWay(p, w, Reached(c), Secret(), Outlet());
    if InFragment(p) {
      TaintSound(p, w, 0, [Load(0)], [], 1);
    }
  }

  lemma SecretInside(c: Case)
    ensures Secret() in Reached(c) && Outlet() !in Reached(c)
  {
    NodesDiffer();
  }
}
