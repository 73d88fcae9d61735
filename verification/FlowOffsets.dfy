/** Exactly which calls of methods are wired to the parameters that a run of them binds. */
module FlowOffsets {
  import opened Options
  import opened Finite
  import opened Walks
  import opened Evidence
  import opened Calls
  import opened Hubs
  import opened FlowSyntax
  import opened FlowWalker
  import opened FlowGraph
  import opened FlowRuns
  import opened FlowFits
  import opened FlowRecord
  import opened FlowActuals
  import opened FlowTheorem
  import opened FlowNoPath
  import HubTheorem

  // ---- every program ----

  function ParamNode(f: Function, i: nat): nat
    requires i < |f.params|
  {
    NodeOf(f.params[i].id, ParameterRole, false)
  }

  /** The formals a call's positional actuals and receiver are wired to include those a run binds. */
  ghost predicate ActualsLand(defs: Definitions, f: Function, lead: Lead, seen: bool) {
    && (forall j: nat :: OffsetOf(lead) + j < |f.params| && TakesPosition(f.params[OffsetOf(lead) + j]) ==>
          ParamNode(f, OffsetOf(lead) + j) in WireFormals(defs, Slot.Positional(j), f.symbol, seen))
    && (lead.TheReceiver? && |f.params| > 0 ==> ParamNode(f, 0) in WireFormals(defs, Slot.Receiver, f.symbol, seen))
  }

  lemma WiredAt(ps: seq<Param>, f: Function, i: nat, k: nat)
    requires ps == ParamList(f.params) && OwnNodes(f) && i < |f.params|
    ensures ParamNode(f, i) in At(ps, k) <==> i == k
  {
    if k < |ps| {
      assert At(ps, k)[0] == ps[k].node;
      if i != k && ps[k].node == ParamNode(f, i) {
        NodesApart(f.params[i].id, ParameterRole, false, f.params[k].id, ParameterRole, false);
      }
    }
    hide NodeOf;
  }

  lemma PositionalWired(defs: Definitions, f: Function, i: nat, j: nat, seen: bool)
    requires defs.ParamsOf(f.symbol) == ParamList(f.params) && OwnNodes(f) && i < |f.params|
    ensures ParamNode(f, i) in WireFormals(defs, Slot.Positional(j), f.symbol, seen) <==> i == defs.Offset(f.symbol, seen) + j
  {
    var k := defs.Offset(f.symbol, seen) + j;
    WiredAt(defs.ParamsOf(f.symbol), f, i, k);
    hide ParamList, ParamNode, OwnNodes, At, Definitions.ParamsOf, Definitions.Offset;
    assert WireFormals(defs, Slot.Positional(j), f.symbol, seen) == At(defs.ParamsOf(f.symbol), k);
  }

  lemma ReceiverWired(defs: Definitions, f: Function, seen: bool)
    requires defs.ParamsOf(f.symbol) == ParamList(f.params) && OwnNodes(f) && |f.params| > 0
    ensures ParamNode(f, 0) in WireFormals(defs, Slot.Receiver, f.symbol, seen) <==> defs.Offset(f.symbol, seen) == 1
  {
    WiredAt(defs.ParamsOf(f.symbol), f, 0, 0);
    hide ParamList, ParamNode, OwnNodes, At, Definitions.ParamsOf, Definitions.Offset;
  }

  lemma LandsIff(defs: Definitions, f: Function, lead: Lead, seen: bool)
    requires defs.ParamsOf(f.symbol) == ParamList(f.params) && OwnNodes(f) && |f.params| > 0 && TakesPosition(f.params[0])
    requires lead.NewObject? ==> defs.Offset(f.symbol, seen) == 1
    ensures ActualsLand(defs, f, lead, seen) <==> defs.Offset(f.symbol, seen) == OffsetOf(lead)
  {
    ReceiverWired(defs, f, seen);
    forall j: nat | OffsetOf(lead) + j < |f.params|
      ensures ParamNode(f, OffsetOf(lead) + j) in WireFormals(defs, Slot.Positional(j), f.symbol, seen)
              <==> OffsetOf(lead) == defs.Offset(f.symbol, seen)
    {
      PositionalWired(defs, f, OffsetOf(lead) + j, j, seen);
    }
    PositionalWired(defs, f, 0, 0, seen);
    hide ParamList, ParamNode, OwnNodes, WireFormals, Definitions.ParamsOf;
    if lead.Nothing? && ActualsLand(defs, f, lead, seen) {
      assert ParamNode(f, OffsetOf(lead) + 0) in WireFormals(defs, Slot.Positional(0), f.symbol, seen);
    }
  }

  /** Of every program and method with a positional parameter, called in any way: the actuals are wired to the
      parameters a run binds them to exactly when the call lines up with the method. */
  lemma ActualsLandIff(p: Program, f: Function, entry: Entry, seen: bool)
    requires DistinctSymbols(FunctionsOf(p.modules)) && f in FunctionsOf(p.modules) && OwnNodes(f) && |f.params| > 0 && TakesPosition(f.params[0])
    requires entry.Making? ==> f.isInit
    ensures ActualsLand(DefinitionsOf(p), f, LeadOf(f, entry), seen) <==> LinesUp(f, entry, seen)
  {
    OwnParams(p, f);
    OffsetIff(p, f, entry, seen);
    Leads(f, entry, seen);
    hide LogOf, FunctionsOf, DefinitionsOf, LinesUp, ParamList, OwnNodes, ActualsLand, LeadOf;
    LandsIff(DefinitionsOf(p), f, LeadOf(f, entry), seen);
  }

  /** Only an initialiser's object is new, and it is counted for a parameter always. */
  lemma Leads(f: Function, entry: Entry, seen: bool)
    requires entry.Making? ==> f.isInit
    ensures LeadOf(f, entry).NewObject? ==> LinesUp(f, entry, seen)
  {
  }

  // ---- a program for every shape of call ----

  /** A method of one parameter beside what it is passed first, which it hands to a sink. */
  function Sender(isMethod: bool, isInit: bool, decoration: Decoration, entry: Entry): Function {
    var f := Function(1, [], [], isMethod, isInit, decoration);
    f.(params := if OffsetOf(LeadOf(f, entry)) == 1 then [Formal(10, "self", Ordinary), Formal(11, "x", Ordinary)] else [Formal(11, "x", Ordinary)],
       body := [Handing(20, Name(21, "x"), 22)])
  }

  /** The call of it with a literal, on a receiver that leaves a node or not. */
  function Sending(seen: bool, entry: Entry): Stmt {
    Evaluate(Expr.Call(30, Method(if seen then Literal(32) else Number), [ByPosition(Literal(31))], [Package(1, Resolved, [entry])]))
  }

  function Sent(f: Function, seen: bool, entry: Entry): (p: Program)
    ensures Climbs(p.scopeOf)
  {
    Program([Module(0, [Def(f), Sending(seen, entry)])], map[1 := 0], {})
  }

  function Secret(): nat { NodeOf(31, LiteralRole, false) }
  function SinkFormal(): nat { NodeOf(22, ForeignRole, false) }
  function Used(): nat { NodeOf(21, UseRole, false) }
  function SelfNode(): nat { NodeOf(10, ParameterRole, false) }
  function XNode(): nat { NodeOf(11, ParameterRole, false) }

  ghost predicate IsSender(f: Function, entry: Entry) {
    f == Sender(f.isMethod, f.isInit, f.decoration, entry)
  }

  lemma SenderIs(f: Function, entry: Entry)
    requires IsSender(f, entry)
    ensures f.symbol == 1 && f.body == [Handing(20, Name(21, "x"), 22)]
    ensures f.params == if OffsetOf(LeadOf(f, entry)) == 1 then [Formal(10, "self", Ordinary), Formal(11, "x", Ordinary)] else [Formal(11, "x", Ordinary)]
  {
  }

  lemma NodesOfSender()
    ensures Secret() == 506 && SinkFormal() == 364 && Used() == 336 && SelfNode() == 164 && XNode() == 180
    ensures NodeOf(32, LiteralRole, false) == 522 && NodeOf(22, FirstRole, false) == 366 && NodeOf(30, ResultRole, false) == 488
  {
  }

  // ---- what it records ----

  lemma SentLog(f: Function, seen: bool, entry: Entry)
    requires IsSender(f, entry)
    ensures LogOf(Sent(f, seen, entry)) == ParamEvents(1, f.params) + Visited(Handing(20, Name(21, "x"), 22), 1) + Visited(Sending(seen, entry), 0)
  {
    SenderIs(f, entry);
    hide Visited, ParamEvents, Handing, Sending, IsSender;
    TwoVisited(Def(f), Sending(seen, entry), 0);
    OneVisited(f.body[0], 1);
    DefVisited(f);
    OneModule(Sent(f, seen, entry), [Def(f), Sending(seen, entry)]);
  }

  function SentCall(seen: bool): PendingCall {
    PendingCall(NodeOf(30, ResultRole, false), if seen then [NodeOf(32, LiteralRole, false)] else [], [[Secret()]], [], [], [Target(1, Resolved)])
  }

  lemma SendingLog(seen: bool, entry: Entry)
    ensures Visited(Sending(seen, entry), 0) == [Called(SentCall(seen))]
  {
    var e := Sending(seen, entry).value;
    var args, ts := e.args, e.targets;
    assert args[..0] == [] && args[0] == ByPosition(Literal(31)) && ts[..0] == [] && ts[0] == Package(1, Resolved, [entry]);
    OneArgument(Literal(31), 0, 0, "");
    assert PackageTargets(ts) == PackageTargets([]) + [Target(1, Resolved)];
    assert TargetsEvents(30, e.callee, args, ts, false) == TargetsEvents(30, e.callee, args, [], false) + [];
    assert PositionalValues(args, false) == PositionalValues([], false) + [[Secret()]];
    assert KeywordValues(args, false) == KeywordValues([], false) + [];
    assert SpreadValues(args, false) == SpreadValues([], false) + [];
    assert CalleeEvaluated(e.callee, 0, false) == [];
    assert Pending(30, e.callee, args, ts, false) == SentCall(seen);
  }

  /** All that matters of the record. */
  ghost predicate SentFacts(log: seq<Event>, seen: bool) {
    && (forall l :: Linked(l) in log ==> l.from == Used())
    && (forall r :: Read(r) in log ==> r == PendingRead(Used(), 1, "x"))
    && Defined(1, "x", XNode()) in log && (forall n: nat :: Defined(1, "x", n) in log ==> n == XNode())
    && (forall c :: Called(c) in log ==> c == SentCall(seen)) && Called(SentCall(seen)) in log
    && (forall s: nat, n: nat :: Returned(s, n) !in log)
    && Linked(Link(Used(), SinkFormal(), Resolved)) in log
  }

  lemma SentFactsHold(f: Function, seen: bool, entry: Entry)
    requires IsSender(f, entry)
    ensures SentFacts(LogOf(Sent(f, seen, entry)), seen)
  {
    SentLog(f, seen, entry);
    SendingLog(seen, entry);
    HandingLog(20, Name(21, "x"), 22, 1);
    var ps, call := ParamEvents(1, f.params), [Called(SentCall(seen))];
    ParamFacts(f, entry);
    var read := Evaluated(Name(21, "x"), 1, false);
    var a, b := LinksInto([Used()], SinkFormal(), Resolved), LinksInto([Used()], NodeOf(22, FirstRole, false), Resolved);
    assert LogOf(Sent(f, seen, entry)) == ps + (read + (a + b)) + call;
    assert read == [Read(PendingRead(Used(), 1, "x"))];
    assert [Used()][0] == Used() && call[0] == Called(SentCall(seen));
    hide ParamEvents, LinksInto, LogOf, Sent, NodeOf, SentCall, Used, SinkFormal, XNode, IsSender;
    SentParts(ps, read, a, b, call, seen, LogOf(Sent(f, seen, entry)));
  }

  lemma ParamFacts(f: Function, entry: Entry)
    requires IsSender(f, entry)
    ensures var ps := ParamEvents(1, f.params);
            && (forall v :: v in ps ==> v.Defined? || v.HasParam?)
            && Defined(1, "x", XNode()) in ps && (forall n: nat :: Defined(1, "x", n) in ps ==> n == XNode())
  {
    SenderIs(f, entry);
    var x, own := [Defined(1, "x", XNode()), HasParam(1, "x", XNode())], [Defined(1, "self", SelfNode()), HasParam(1, "self", SelfNode())];
    assert x[0] == Defined(1, "x", XNode());
    var ps := f.params;
    if |ps| == 1 {
      assert ps[..0] == [] && ParamEvents(1, ps) == [] + x;
    } else {
      assert ps[..1] == [Formal(10, "self", Ordinary)] && ps[..1][..0] == [];
      assert ParamEvents(1, ps[..1]) == [] + own;
      assert ParamEvents(1, ps) == [] + own + x;
    }
    hide NodeOf;
  }

  lemma SentParts(ps: seq<Event>, read: seq<Event>, a: seq<Event>, b: seq<Event>, call: seq<Event>, seen: bool, log: seq<Event>)
    requires log == ps + (read + (a + b)) + call
    requires (forall v :: v in ps ==> v.Defined? || v.HasParam?) && Defined(1, "x", XNode()) in ps
    requires forall n: nat :: Defined(1, "x", n) in ps ==> n == XNode()
    requires read == [Read(PendingRead(Used(), 1, "x"))] && call == [Called(SentCall(seen))] && Called(SentCall(seen)) in call
    requires forall v :: v in a || v in b ==> v.Linked? && v.link.from == Used()
    requires Linked(Link(Used(), SinkFormal(), Resolved)) in a
    ensures SentFacts(log, seen)
  {
    hide NodeOf, SentCall, Used, SinkFormal, XNode;
    assert forall v :: v in log <==> v in ps || v in read || v in a || v in b || v in call;
  }

  // ---- and no path, where it does not line up ----

  lemma SentFunctions(f: Function, seen: bool, entry: Entry)
    requires IsSender(f, entry)
    ensures FunctionsOf(Sent(f, seen, entry).modules) == [f]
  {
    SenderIs(f, entry);
    hide IsSender, Handing;
    var body := [Def(f), Sending(seen, entry)];
    OneModule(Sent(f, seen, entry), body);
    assert body[..1] == [Def(f)] && body[1] == Sending(seen, entry) && body[..1][..0] == [];
    assert f.body[..0] == [];
    assert FunctionsIn(f.body[0]) == [] by {
      HandingHas(20, Name(21, "x"), 22, 1);
    }
    assert AllFunctionsIn(f.body) == [] + [];
    assert FunctionsIn(Def(f)) == [f] + AllFunctionsIn(f.body) == [f];
    assert FunctionsIn(Sending(seen, entry)) == [];
    assert AllFunctionsIn(body[..1]) == AllFunctionsIn([]) + FunctionsIn(Def(f));
    assert AllFunctionsIn(body) == AllFunctionsIn(body[..1]) + FunctionsIn(Sending(seen, entry));
  }

  lemma SentIsolated(f: Function, seen: bool, entry: Entry)
    requires IsSender(f, entry) && !LinesUp(f, entry, seen)
    ensures Isolated(Sent(f, seen, entry), {Secret(), SelfNode()})
  {
    var p := Sent(f, seen, entry);
    SentFactsHold(f, seen, entry);
    SentFunctions(f, seen, entry);
    NodesOfSender();
    SenderIs(f, entry);
    OneOnly(f);
    OwnParams(p, f);
    OffsetIff(p, f, entry, seen);
    hide LogOf, FunctionsOf, Sent, LinesUp, LeadOf, IsSender;
    NoReturns(p);
    SentCallStays(p, f, seen, entry);
    hide *;
    SentStays(p, seen);
  }

  lemma SentStays(p: Program, seen: bool)
    requires Climbs(p.scopeOf) && SentFacts(LogOf(p), seen) && CallStays(p, SentCall(seen), {Secret(), SelfNode()}) && !SentCall(seen).Wide()
    requires Used() !in {Secret(), SelfNode()} && XNode() !in {Secret(), SelfNode()}
    ensures Isolated(p, {Secret(), SelfNode()})
  {
    hide LogOf, CallStays, PendingCall.Wide, SentCall, Secret, SelfNode, Used, XNode, SinkFormal;
    assert (1, "x") in DefsOf(LogOf(p));
    assert Nearest(DefsOf(LogOf(p)).Keys, p.scopeOf, 1, "x") == Some(1);
  }

  /** One actual, one past the parameter it is for or one before. */
  lemma SentCallStays(p: Program, f: Function, seen: bool, entry: Entry)
    requires f.symbol == 1 && f.params == if OffsetOf(LeadOf(f, entry)) == 1 then [Formal(10, "self", Ordinary), Formal(11, "x", Ordinary)] else [Formal(11, "x", Ordinary)]
    requires DefinitionsOf(p).ParamsOf(1) == ParamList(f.params) && DefinitionsOf(p).Offset(1, seen) != OffsetOf(LeadOf(f, entry))
    requires forall s: nat :: DefinitionsOf(p).ReturnsOf(s) == []
    ensures CallStays(p, SentCall(seen), {Secret(), SelfNode()}) && !SentCall(seen).Wide()
  {
    var c, defs, S := SentCall(seen), DefinitionsOf(p), {Secret(), SelfNode()};
    NodesOfSender();
    SentSlots(seen);
    hide DefinitionsOf, SlotsOf, LeadOf, Secret, SelfNode;
    var ps := defs.ParamsOf(1);
    assert WireFormals(defs, Slot.Positional(0), 1, seen) == At(ps, defs.Offset(1, seen));
    assert At(ps, defs.Offset(1, seen)) == [] || At(ps, defs.Offset(1, seen)) == [NodeOf(10, ParameterRole, false)];
    forall t, a: nat, b: nat | t in c.targets && a in S && Binds(defs, c, t, a, b) ensures b in S {
      assert t == Target(1, Resolved);
      var k :| 0 <= k < |SlotsOf(c)| && a in SlotsOf(c)[k].1 && b in WireFormals(defs, SlotsOf(c)[k].0, 1, c.receiver != []);
      assert SelfNode() == NodeOf(10, ParameterRole, false) by {
        SelfIs();
      }
    }
  }

  lemma SelfIs()
    ensures SelfNode() == NodeOf(10, ParameterRole, false)
  {
  }

  /** Where the secret sits among the slots; the method's own node is in none. */
  lemma SentSlots(seen: bool)
    ensures var slots := SlotsOf(SentCall(seen));
            && (forall k :: 0 <= k < |slots| && Secret() in slots[k].1 ==> slots[k].0 == Slot.Positional(0))
            && (forall k :: 0 <= k < |slots| ==> SelfNode() !in slots[k].1)
  {
    NodesOfSender();
    var c := SentCall(seen);
    var pos := c.positional;
    assert pos[..0] == [];
    assert PositionalSlots(pos) == [(Slot.Positional(0), [Secret()])];
    assert SlotsOf(c) == (if seen then [(Slot.Receiver, [NodeOf(32, LiteralRole, false)])] else []) + [(Slot.Positional(0), [Secret()])];
  }

  // ---- and the run that hands it over ----

  lemma SentWorld(f: Function, seen: bool, entry: Entry)
    requires IsSender(f, entry)
    ensures var w := WorldOf(Sent(f, seen, entry), 0);
            w.functions == [f] && w.scopeOf == map[1 := 0] && (1, "x") in w.binds && w.floor == 0
  {
    SentFunctions(f, seen, entry);
    SenderIs(f, entry);
    var p := Sent(f, seen, entry);
    var formal := f.params[|f.params| - 1];
    assert formal in f.params && formal.name == "x";
    assert "x" in ParamNames(f.params);
    assert [f][0] == f;
    assert (1, "x") in ParamsBound(FunctionsOf(p.modules));
    ModulesBound(p.modules);
    hide Sent, FunctionsOf, WrittenInModules, BoundInModules, ParamsBound, IsSender;
  }

  lemma SentRun(f: Function, seen: bool, entry: Entry)
    requires IsSender(f, entry)
    ensures (Secret(), SinkFormal()) in Run(Sent(f, seen, entry), 0, [Load(0)], [], 1).taken
  {
    var p := Sent(f, seen, entry);
    var w := WorldOf(p, 0);
    SentWorld(f, seen, entry);
    var st := State([Frame(0, map[], None, NoObject)], {}, []);
    SendingRun(w, f, seen, entry, st);
    var body := [Def(f), Sending(seen, entry)];
    assert body[..1] == [Def(f)] && body[1] == Sending(seen, entry) && body[..1][..0] == [];
    hide IsSender, Sending, WorldOf;
    assert ExecAll(w, body[..1], 0, st, 1) == Done(st, None);
    assert ExecAll(w, body, 0, st, 1) == Exec(w, Sending(seen, entry), 0, st, 1);
    assert [] + [Frame(0, map[], None, NoObject)] == st.heap;
    hide Exec, ExecAll;
    var steps := [Load(0)];
    assert steps[..0] == [] && Run(p, 0, steps[..0], [], 1) == State([], {}, []);
    assert RunStep(p, w, Load(0), State([], {}, []), 1) == ExecAll(w, body, 0, st, 1).st;
  }

  lemma SendingRun(w: World, f: Function, seen: bool, entry: Entry, st: State)
    requires IsSender(f, entry) && w.functions == [f] && w.scopeOf == map[1 := 0] && (1, "x") in w.binds && w.floor == 0
    requires st == State([Frame(0, map[], None, NoObject)], {}, [])
    ensures (Secret(), SinkFormal()) in Exec(w, Sending(seen, entry), 0, st, 1).st.taken
  {
    var e := Sending(seen, entry).value;
    var receiver: Trail := if seen then {NodeOf(32, LiteralRole, false)} else {};
    var args, vs := e.args, [{Secret()}];
    assert args[..0] == [] && args[0] == ByPosition(Literal(31)) && [] + [{Secret()}] == vs;
    assert EvalCallee(w, e.callee, 0, st, 1) == Done(st, receiver);
    assert EvalArgs(w, args, 0, st, 1) == Done(st, vs);
    hide NodeOf, EvalCallee, EvalArgs, IsSender, Enter, Secret;
    SentEnters(w, f, e, entry, receiver, vs, st);
    assert Choice(st) == 0 && Chosen(st) == st && e.targets[0] == Package(1, Resolved, [entry]);
    assert Dispatch(w, e, receiver, vs, st, 1) == Enter(w, e, e.targets[0], receiver, vs, st, 1);
    CallIs(w, e, 0, st, 1);
    hide Dispatch, Eval, Sending;
    assert Sending(seen, entry) == Evaluate(e) by {
      SendingIs(seen, entry);
    }
  }

  lemma SendingIs(seen: bool, entry: Entry)
    ensures Sending(seen, entry).Evaluate?
  {
  }

  lemma SentEnters(w: World, f: Function, e: Expr, entry: Entry, receiver: Trail, vs: seq<Trail>, st: State)
    requires IsSender(f, entry) && w.functions == [f] && w.scopeOf == map[1 := 0] && (1, "x") in w.binds && w.floor == 0
    requires st == State([Frame(0, map[], None, NoObject)], {}, []) && e.Call? && e.args == [ByPosition(Literal(31))] && vs == [{Secret()}]
    ensures (Secret(), SinkFormal()) in Enter(w, e, Package(1, Resolved, [entry]), receiver, vs, st, 1).st.taken
  {
    SenderIs(f, entry);
    var t, lead := Package(1, Resolved, [entry]), LeadOf(f, entry);
    var vars := BindParams(f, |f.params|, lead, receiver, e.args, vs);
    SentVars(f, entry, receiver, e.args, vs);
    hide IsSender, LeadOf, BindParams, ObjectOf, NodeOf, Secret, SinkFormal;
    BodyRun(w, f, vars, ObjectOf(f, lead), st);
    hide Invoke;
    assert Find(w.functions, 1) == Some(f);
    assert Choice(st) == 0 && Chosen(st) == st && t.entries[0] == entry;
  }

  lemma SentVars(f: Function, entry: Entry, receiver: Trail, args: seq<Arg>, vs: seq<Trail>)
    requires IsSender(f, entry) && args == [ByPosition(Literal(31))] && vs == [{Secret()}]
    ensures var vars := BindParams(f, |f.params|, LeadOf(f, entry), receiver, args, vs); "x" in vars && Secret() in vars["x"]
  {
    SenderIs(f, entry);
    var lead, k := LeadOf(f, entry), |f.params| - 1;
    assert k == OffsetOf(lead) && f.params[k].name == "x";
    assert args[..0] == [] && vs[..0] == [] && Positionals([]) == 0;
    assert MayBind(f.params, args, 0, k, OffsetOf(lead));
    assert Secret() in Into(f.params, args, vs, k, OffsetOf(lead), 1);
    assert Secret() in ParamTrail(f, k, lead, receiver, args, vs) by {
      assert !(k == 0 && lead.NewObject?);
    }
    hide IsSender, LeadOf, ParamTrail;
  }

  lemma BodyRun(w: World, f: Function, vars: map<string, Trail>, made: Object, st: State)
    requires w.scopeOf == map[1 := 0] && (1, "x") in w.binds && w.floor == 0 && f.symbol == 1 && f.body == [Handing(20, Name(21, "x"), 22)]
    requires st == State([Frame(0, map[], None, NoObject)], {}, []) && "x" in vars && Secret() in vars["x"]
    ensures (Secret(), SinkFormal()) in Invoke(w, f, vars, made, st, 0).st.taken
  {
    var s := State([Frame(0, map[], None, NoObject), Frame(1, vars, Some(0), made)], {}, []);
    assert st.heap + [Frame(1, vars, Some(0), made)] == s.heap;
    var v := vars["x"] + {Used()};
    assert Lookup(w.binds, s.heap, 1, "x") == Some(1);
    assert Eval(w, Name(21, "x"), 1, s, 0) == Done(s, v);
    hide Eval;
    HandingRun(w, 20, Name(21, "x"), 22, 1, s, s, 0, v, Secret());
    hide Exec, Handing, NodeOf;
    assert f.body[..0] == [] && ExecAll(w, [], 1, s, 0) == Done(s, None);
    assert ExecAll(w, f.body, 1, s, 0) == Exec(w, f.body[0], 1, s, 0);
    assert Chosen(st) == st && Choice(st) == 0;
  }

  // ---- both ----

  lemma SentFits(f: Function, seen: bool, entry: Entry)
    requires IsSender(f, entry) && LinesUp(f, entry, seen)
    ensures InFragment(Sent(f, seen, entry))
  {
    var p := Sent(f, seen, entry);
    SentFunctions(f, seen, entry);
    OneOnly(f);
    SenderIs(f, entry);
    var body := [Def(f), Sending(seen, entry)];
    OneModule(p, body);
    HandingHas(20, Name(21, "x"), 22, 1);
    assert body[..1] == [Def(f)] && body[1] == Sending(seen, entry) && body[..1][..0] == [];
    assert f.body[..0] == [];
    assert AllWrittenIn(f.body, 1) == {};
    assert WrittenIn(Def(f), 0) == {} && WrittenIn(Sending(seen, entry), 0) == {};
    assert AllWrittenIn(body[..1], 0) == AllWrittenIn([], 0) + WrittenIn(Def(f), 0);
    assert AllWrittenIn(body, 0) == {};
    var ctx := ContextOf(p);
    assert ctx.functions == [f] && ctx.written == {};
    hide Sent, ContextOf, LinesUp, IsSender;
    SenderFits(f, ctx);
    SendingFits(f, seen, entry, ctx);
    hide FunctionFits, Sending;
    assert AllFit(body[..1], 0, ctx);
    assert AllFit(body, 0, ctx);
    OneModuleFits(p, body, ctx);
    assert p.scopeOf == map[1 := 0] by {
      SentScopes(f, seen, entry);
    }
    assert forall m :: m in p.modules ==> m.symbol == 0 by {
      SentScopes(f, seen, entry);
    }
  }

  lemma SentScopes(f: Function, seen: bool, entry: Entry)
    ensures Sent(f, seen, entry).scopeOf == map[1 := 0] && Sent(f, seen, entry).modules == [Module(0, [Def(f), Sending(seen, entry)])]
  {
  }

  lemma SenderFits(f: Function, ctx: Context)
    requires f.body == [Handing(20, Name(21, "x"), 22)] && |f.params| <= 2
    requires |f.params| == 2 ==> f.params[0].name != f.params[1].name
    ensures FunctionFits(f, ctx)
  {
    assert f.body[..0] == [];
    var e := f.body[0].value;
    assert e.args[..0] == [];
    assert TargetsSee(e.callee, e.args, e.targets, ctx);
    assert Sees(e, 1, ctx);
  }

  lemma SendingFits(f: Function, seen: bool, entry: Entry, ctx: Context)
    requires ctx.functions == [f] && ctx.written == {} && LinesUp(f, entry, seen)
    requires forall k :: 0 <= k < |f.params| ==> f.params[k].kind.Ordinary?
    ensures Fits(Sending(seen, entry), 0, ctx)
  {
    hide LinesUp, LeadOf;
    var e := Sending(seen, entry).value;
    assert e.args[..0] == [];
    assert TargetsSee(e.callee, e.args, e.targets, ctx) by {
      assert ReceiverValues(e.callee, false) != [] <==> seen;
      assert !AfterSpread(e.args, 0);
    }
    assert Sees(e, 0, ctx);
  }

  /** For every kind of method, way of coming to it and receiver: a run hands the literal to the sink,
      and the graph has a path that says so exactly when the call lines up with the method. */
  lemma SentIsFoundIff(f: Function, seen: bool, entry: Entry, w: HubTheorem.Wiring)
    requires IsSender(f, entry) && IsGraphOf(Sent(f, seen, entry), w)
    ensures (Secret(), SinkFormal()) in Run(Sent(f, seen, entry), 0, [Load(0)], [], 1).taken
    ensures Reach(HubTheorem.AtLeast(w.links, 0), Secret(), SinkFormal()) <==> LinesUp(f, entry, seen)
  {
    SentRun(f, seen, entry);
    var p := Sent(f, seen, entry);
    if LinesUp(f, entry, seen) {
      SentFits(f, seen, entry);
      hide *;
      TaintSound(p, w, 0, [Load(0)], [], 1);
    } else {
      SentIsolated(f, seen, entry);
      SentFactsHold(f, seen, entry);
      NodesOfSender();
      SentEnds(p, seen);
      hide *;
      LinkInside(p, w, Link(Used(), SinkFormal(), Resolved));
      ActualInside(p, w, SentCall(seen), Secret());
      NoWay(p, w, {Secret(), SelfNode()}, Secret(), SinkFormal());
    }
  }

  lemma SentEnds(p: Program, seen: bool)
    requires SentFacts(LogOf(p), seen)
    ensures Linked(Link(Used(), SinkFormal(), Resolved)) in LogOf(p) && Called(SentCall(seen)) in LogOf(p)
    ensures SentCall(seen).positional == [[Secret()]]
  {
    hide LogOf, NodeOf;
  }

  /** A static method called on an object of its class: the secret is wired past its one parameter. */
  lemma StaticCallIsMissed(w: HubTheorem.Wiring)
    requires IsGraphOf(Sent(Sender(true, false, StaticMethod, OnObject), true, OnObject), w)
    ensures var f := Sender(true, false, StaticMethod, OnObject);
            && (Secret(), SinkFormal()) in Run(Sent(f, true, OnObject), 0, [Load(0)], [], 1).taken
            && !Reach(HubTheorem.AtLeast(w.links, 0), Secret(), SinkFormal())
  {
    SentIsFoundIff(Sender(true, false, StaticMethod, OnObject), true, OnObject, w);
    hide Reach, Run;
  }

  /** A method called on its class, and one called on a number: the same. */
  lemma UnboundAndNumberCallsAreMissed(w: HubTheorem.Wiring, w': HubTheorem.Wiring)
    requires IsGraphOf(Sent(Sender(true, false, Undecorated, OnClass), true, OnClass), w)
    requires IsGraphOf(Sent(Sender(true, false, Undecorated, OnObject), false, OnObject), w')
    ensures var f := Sender(true, false, Undecorated, OnClass);
            && (Secret(), SinkFormal()) in Run(Sent(f, true, OnClass), 0, [Load(0)], [], 1).taken
            && !Reach(HubTheorem.AtLeast(w.links, 0), Secret(), SinkFormal())
    ensures var f := Sender(true, false, Undecorated, OnObject);
            && (Secret(), SinkFormal()) in Run(Sent(f, false, OnObject), 0, [Load(0)], [], 1).taken
            && !Reach(HubTheorem.AtLeast(w'.links, 0), Secret(), SinkFormal())
  {
    SentIsFoundIff(Sender(true, false, Undecorated, OnClass), true, OnClass, w);
    SentIsFoundIff(Sender(true, false, Undecorated, OnObject), false, OnObject, w');
    hide Reach, Run;
  }
}
