/** What walking a program records: definitions of exactly the names it binds and stores into, each
    function's parameters in order, and every function's body. */
module FlowRecord {
  import opened Options
  import opened Calls
  import opened FlowSyntax
  import opened FlowWalker
  import opened FlowGraph
  import opened FlowRuns
  import opened FlowFits

  // ---- names ----

  /** A node a target has, not a parameter. */
  predicate OfTarget(n: nat) {
    n % 16 / 2 == DefinitionRole.Code()
  }

  lemma RolesApart(id: nat, again: bool)
    ensures OfTarget(NodeOf(id, DefinitionRole, again)) && !OfTarget(NodeOf(id, ParameterRole, again))
  {
  }

  /** The record defines the name for a target, or for a parameter. */
  ghost predicate DefinesAs(log: seq<Event>, s: nat, x: string, target: bool) {
    exists n :: Defined(s, x, n) in log && OfTarget(n) == target
  }

  predicate IsParam(fs: seq<Function>, s: nat, x: string) {
    exists f :: f in fs && f.symbol == s && x in ParamNames(f.params)
  }

  /** Targets are recorded for exactly the names `written`, parameters for exactly those of `fs`. */
  ghost predicate Matches(log: seq<Event>, written: set<(nat, string)>, fs: seq<Function>) {
    && (forall s: nat, x: string :: DefinesAs(log, s, x, true) <==> (s, x) in written)
    && (forall s: nat, x: string :: DefinesAs(log, s, x, false) <==> IsParam(fs, s, x))
  }

  lemma MatchesConcat(a: seq<Event>, b: seq<Event>, W: set<(nat, string)>, V: set<(nat, string)>, fs: seq<Function>, gs: seq<Function>)
    requires Matches(a, W, fs) && Matches(b, V, gs)
    ensures Matches(a + b, W + V, fs + gs)
  {
    forall s: nat, x: string, t: bool ensures DefinesAs(a + b, s, x, t) <==> DefinesAs(a, s, x, t) || DefinesAs(b, s, x, t) {
      DefinesEither(a, b, s, x, t);
    }
    forall s: nat, x: string ensures IsParam(fs + gs, s, x) <==> IsParam(fs, s, x) || IsParam(gs, s, x) {
      ParamOfEither(fs, gs, s, x);
    }
    hide DefinesAs, IsParam;
  }

  lemma DefinesEither(a: seq<Event>, b: seq<Event>, s: nat, x: string, t: bool)
    ensures DefinesAs(a + b, s, x, t) <==> DefinesAs(a, s, x, t) || DefinesAs(b, s, x, t)
  {
    hide OfTarget;
  }

  lemma ParamOfEither(fs: seq<Function>, gs: seq<Function>, s: nat, x: string)
    ensures IsParam(fs + gs, s, x) <==> IsParam(fs, s, x) || IsParam(gs, s, x)
  {
    hide ParamNames;
  }

  // ---- parameters ----

  function ParamList(ps: seq<Formal>): (r: seq<Param>)
    ensures |r| == |ps| && forall k :: 0 <= k < |ps| ==> r[k] == Param(ps[k].name, NodeOf(ps[k].id, ParameterRole, false))
  {
    if ps == [] then []
    else ParamList(ps[..|ps| - 1]) + [Param(ps[|ps| - 1].name, NodeOf(ps[|ps| - 1].id, ParameterRole, false))]
  }

  function ListFor(fs: seq<Function>, symbol: nat): seq<Param> {
    if fs == [] then []
    else ListFor(fs[..|fs| - 1], symbol) + if fs[|fs| - 1].symbol == symbol then ParamList(fs[|fs| - 1].params) else []
  }

  lemma {:induction false} ListForConcat(fs: seq<Function>, gs: seq<Function>, symbol: nat)
    ensures ListFor(fs + gs, symbol) == ListFor(fs, symbol) + ListFor(gs, symbol)
  {
    hide ParamList;
    if gs == [] {
      assert fs + gs == fs;
    } else {
      assert (fs + gs)[..|fs + gs| - 1] == fs + gs[..|gs| - 1];
      ListForConcat(fs, gs[..|gs| - 1], symbol);
    }
  }

  lemma {:induction false} ParamsConcat(a: seq<Event>, b: seq<Event>, f: nat)
    ensures ParamsAt(ParamsOf(a + b), f) == ParamsAt(ParamsOf(a), f) + ParamsAt(ParamsOf(b), f)
  {
    hide *;
    if b == [] {
      assert a + b == a;
      ParamsNone(f);
    } else {
      var init, v := b[..|b| - 1], b[|b| - 1];
      ParamsConcat(a, init, f);
      ParamsSnoc(a + init, v, f);
      ParamsSnoc(init, v, f);
      assert b == init + [v] && a + b == (a + init) + [v];
    }
  }

  lemma ParamsNone(f: nat)
    ensures ParamsAt(ParamsOf([]), f) == []
  {
  }

  lemma ParamsSnoc(log: seq<Event>, v: Event, f: nat)
    ensures ParamsAt(ParamsOf(log + [v]), f)
         == ParamsAt(ParamsOf(log), f) + if v.HasParam? && v.callee == f then [Param(v.name, v.node)] else []
  {
    assert (log + [v])[..|log|] == log;
  }

  /** The record lists the parameters of `fs` in order. */
  ghost predicate Lists(log: seq<Event>, fs: seq<Function>) {
    forall f: nat :: ParamsAt(ParamsOf(log), f) == ListFor(fs, f)
  }

  lemma ListsConcat(a: seq<Event>, b: seq<Event>, fs: seq<Function>, gs: seq<Function>)
    requires Lists(a, fs) && Lists(b, gs)
    ensures Lists(a + b, fs + gs)
  {
    forall f: nat ensures ParamsAt(ParamsOf(a + b), f) == ListFor(fs + gs, f) {
      ParamsConcat(a, b, f);
      ListForConcat(fs, gs, f);
    }
  }

  lemma {:induction false} NoParams(log: seq<Event>)
    requires forall v :: v in log ==> !v.HasParam?
    ensures ParamsOf(log) == map[]
  {
    if log != [] {
      assert log[|log| - 1] in log;
      NoParams(log[..|log| - 1]);
    }
  }

  // ---- bodies ----

  ghost predicate Within(a: seq<Event>, b: seq<Event>) {
    forall v :: v in a ==> v in b
  }

  /** Walking every function of `fs` is part of the record. */
  ghost predicate Covers(log: seq<Event>, fs: seq<Function>) {
    forall f :: f in fs ==> Within(FunctionVisited(f), log)
  }

  lemma CoversConcat(a: seq<Event>, b: seq<Event>, fs: seq<Function>, gs: seq<Function>)
    requires Covers(a, fs) && Covers(b, gs)
    ensures Covers(a + b, fs + gs)
  {
    hide FunctionVisited;
  }

  // ---- all three ----

  ghost predicate Agrees(log: seq<Event>, written: set<(nat, string)>, fs: seq<Function>) {
    Matches(log, written, fs) && Lists(log, fs) && Covers(log, fs)
  }

  lemma AgreesConcat(a: seq<Event>, b: seq<Event>, W: set<(nat, string)>, V: set<(nat, string)>, fs: seq<Function>, gs: seq<Function>)
    requires Agrees(a, W, fs) && Agrees(b, V, gs)
    ensures Agrees(a + b, W + V, fs + gs)
  {
    MatchesConcat(a, b, W, V, fs, gs);
    ListsConcat(a, b, fs, gs);
    CoversConcat(a, b, fs, gs);
    hide *;
    AgreesAll(a + b, W + V, fs + gs);
  }

  lemma AgreesAll(log: seq<Event>, written: set<(nat, string)>, fs: seq<Function>)
    requires Matches(log, written, fs) && Lists(log, fs) && Covers(log, fs)
    ensures Agrees(log, written, fs)
  {
    hide Matches, Lists, Covers;
  }

  lemma SilentAgrees(log: seq<Event>)
    requires Silent(log)
    ensures Agrees(log, {}, [])
  {
    NoParams(log);
  }

  const NoFunctions: seq<Function> := []

  const NoNames: set<(nat, string)> := {}

  lemma SilentBefore(a: seq<Event>, b: seq<Event>, W: set<(nat, string)>, fs: seq<Function>)
    requires Silent(a) && Agrees(b, W, fs)
    ensures Agrees(a + b, W, fs)
  {
    SilentAgrees(a);
    hide Agrees;
    AgreesConcat(a, b, NoNames, W, NoFunctions, fs);
    assert NoNames + W == W && NoFunctions + fs == fs;
  }

  // ---- targets ----

  lemma {:induction false} TargetDefines(t: Expr, o: nat, values: seq<nat>, again: bool)
    ensures Agrees(Bound(t, o, values, again), InScope(o, BasesOf(t)), [])
    decreases t
  {
    match t
    case Name(id, x) =>
      NameDefines(id, x, o, values, again);
    case Imported(id, x, _) =>
      NameDefines(id, x, o, values, again);
    case Union(parts) =>
      TargetsDefine(parts, o, values, again);
    case Comparison(parts) =>
      TargetsDefine(parts, o, values, again);
    case Call(_, callee, args, _) =>
      CalleeDefines(callee, o, values, again);
      ArgsDefine(args, o, values, again);
      hide Agrees, CalleeBound, ArgsBound, CalleeBasesOf, ArgsBasesOf;
      BothDefine(CalleeBound(callee, o, values, again), ArgsBound(args, o, values, again), o, CalleeBasesOf(callee), ArgsBasesOf(args));
    case Subscript(_, base, index) =>
      EvaluatedSilent(index, o, again);
      TargetDefines(base, o, values, again);
      hide Agrees, Evaluated;
      SilentBefore(Evaluated(index, o, again), Bound(base, o, values, again), InScope(o, BasesOf(base)), NoFunctions);
    case Attribute(_, base) =>
      TargetDefines(base, o, values, again);
    case _ =>
      SilentAgrees([]);
      hide Agrees;
      assert InScope(o, {}) == {};
  }

  lemma BothDefine(a: seq<Event>, b: seq<Event>, o: nat, xs: set<string>, ys: set<string>)
    requires Agrees(a, InScope(o, xs), []) && Agrees(b, InScope(o, ys), [])
    ensures Agrees(a + b, InScope(o, xs + ys), [])
  {
    hide Agrees;
    AgreesConcat(a, b, InScope(o, xs), InScope(o, ys), NoFunctions, NoFunctions);
    assert InScope(o, xs + ys) == InScope(o, xs) + InScope(o, ys);
    assert NoFunctions + NoFunctions == NoFunctions;
  }

  lemma {:induction false} CalleeDefines(callee: Callee, o: nat, values: seq<nat>, again: bool)
    ensures Agrees(CalleeBound(callee, o, values, again), InScope(o, CalleeBasesOf(callee)), [])
    decreases callee
  {
    match callee
    case Plain(id, x) => NameDefines(id, x, o, values, again);
    case Method(receiver) => TargetDefines(receiver, o, values, again);
    case Computed(inner) => TargetDefines(inner, o, values, again);
  }

  lemma {:induction false} ArgDefines(a: Arg, o: nat, values: seq<nat>, again: bool)
    ensures Agrees(ArgBound(a, o, values, again), InScope(o, ArgBasesOf(a)), [])
    decreases a
  {
    TargetDefines(a.value, o, values, again);
    SilentAgrees([]);
    if a.ByName? {
      NameDefines(a.id, a.name, o, values, again);
    }
    hide Agrees, NameBound, Bound, BasesOf;
    assert InScope(o, {}) == {};
    BothDefine(if a.ByName? then NameBound(a.id, a.name, o, values, again) else [], Bound(a.value, o, values, again), o,
               if a.ByName? then {a.name} else {}, BasesOf(a.value));
  }

  lemma {:induction false} ArgsDefine(args: seq<Arg>, o: nat, values: seq<nat>, again: bool)
    ensures Agrees(ArgsBound(args, o, values, again), InScope(o, ArgsBasesOf(args)), [])
    decreases args
  {
    if args == [] {
      SilentAgrees([]);
      hide Agrees;
      assert InScope(o, {}) == {};
    } else {
      var init, a := args[..|args| - 1], args[|args| - 1];
      ArgsDefine(init, o, values, again);
      ArgDefines(a, o, values, again);
      hide Agrees, ArgBound, ArgBasesOf;
      BothDefine(ArgsBound(init, o, values, again), ArgBound(a, o, values, again), o, ArgsBasesOf(init), ArgBasesOf(a));
    }
  }

  lemma NameDefines(id: nat, x: string, o: nat, values: seq<nat>, again: bool)
    ensures Agrees(NameBound(id, x, o, values, again), InScope(o, {x}), [])
  {
    var log, node := NameBound(id, x, o, values, again), NodeOf(id, DefinitionRole, again);
    RolesApart(id, again);
    NoParams(log);
    assert Lists(log, []);
    assert Covers(log, []);
    assert Defined(o, x, node) in log;
    assert forall s: nat, y: string, n: nat :: Defined(s, y, n) in log ==> s == o && y == x && n == node;
    hide Lists, Covers, NameBound, NodeOf, OfTarget, ParamNames;
  }

  lemma {:induction false} TargetsDefine(ts: seq<Expr>, o: nat, values: seq<nat>, again: bool)
    ensures Agrees(AllBound(ts, o, values, again), InScope(o, AllBasesOf(ts)), [])
    decreases ts
  {
    if ts == [] {
      SilentAgrees([]);
      hide Agrees;
      assert InScope(o, {}) == {};
    } else {
      var init, t := ts[..|ts| - 1], ts[|ts| - 1];
      TargetsDefine(init, o, values, again);
      TargetDefines(t, o, values, again);
      hide Agrees, Bound, BasesOf;
      BothDefine(AllBound(init, o, values, again), Bound(t, o, values, again), o, AllBasesOf(init), BasesOf(t));
    }
  }

  // ---- statements ----

  lemma {:induction false} VisitedAgrees(s: Stmt, o: nat)
    ensures Agrees(Visited(s, o), WrittenIn(s, o), FunctionsIn(s))
    decreases s, 1
  {
    match s
    case Evaluate(e) =>
      EvaluatedSilent(e, o, false);
      SilentAgrees(Evaluated(e, o, false));
    case Assign(t, e) =>
      EvaluatedSilent(e, o, false);
      TargetDefines(t, o, Values(e, false), false);
      hide Agrees;
      SilentBefore(Evaluated(e, o, false), Bound(t, o, Values(e, false), false), InScope(o, BasesOf(t)), NoFunctions);
    case AugAssign(t, e) =>
      EvaluatedSilent(e, o, false);
      EvaluatedSilent(t, o, false);
      TargetDefines(t, o, Values(e, false) + Values(t, false), true);
      SilentConcat(Evaluated(e, o, false), Evaluated(t, o, false));
      hide Agrees;
      SilentBefore(Evaluated(e, o, false) + Evaluated(t, o, false), Bound(t, o, Values(e, false) + Values(t, false), true),
                   InScope(o, BasesOf(t)), NoFunctions);
    case If(c, a, b) =>
      IfAgrees(s, o);
    case While(c, b) =>
      EvaluatedSilent(c, o, false);
      AllVisitedAgree(b, o);
      hide Agrees;
      SilentBefore(Evaluated(c, o, false), AllVisited(b, o), AllWrittenIn(b, o), AllFunctionsIn(b));
    case For(t, e, b) =>
      ForAgrees(t, e, b, o);
    case Give(id, e) =>
      EvaluatedSilent(e, o, false);
      SilentAgrees(Visited(s, o));
    case Def(f) =>
      FunctionAgrees(f);
  }

  lemma {:induction false} IfAgrees(s: Stmt, o: nat)
    requires s.If?
    ensures Agrees(Visited(s, o), WrittenIn(s, o), FunctionsIn(s))
    decreases s, 0
  {
    var c, a, b := s.cond, s.then_, s.else_;
    EvaluatedSilent(c, o, false);
    AllVisitedAgree(a, o);
    AllVisitedAgree(b, o);
    hide Agrees, Evaluated, AllVisited, AllWrittenIn, AllFunctionsIn;
    SilentBefore(Evaluated(c, o, false), AllVisited(a, o), AllWrittenIn(a, o), AllFunctionsIn(a));
    AgreesConcat(Evaluated(c, o, false) + AllVisited(a, o), AllVisited(b, o), AllWrittenIn(a, o), AllWrittenIn(b, o),
                 AllFunctionsIn(a), AllFunctionsIn(b));
  }

  lemma {:induction false} ForAgrees(t: Expr, e: Expr, b: seq<Stmt>, o: nat)
    ensures Agrees(Evaluated(e, o, false) + Bound(t, o, Values(e, false), false) + AllVisited(b, o),
                   InScope(o, BasesOf(t)) + AllWrittenIn(b, o), AllFunctionsIn(b))
    decreases b, 1
  {
    hide Agrees, Evaluated, Bound, Values, BasesOf, AllFunctionsIn, AllVisited, AllWrittenIn, Silent;
    EvaluatedSilent(e, o, false);
    TargetDefines(t, o, Values(e, false), false);
    AllVisitedAgree(b, o);
    SilentBefore(Evaluated(e, o, false), Bound(t, o, Values(e, false), false), InScope(o, BasesOf(t)), NoFunctions);
    AgreesConcat(Evaluated(e, o, false) + Bound(t, o, Values(e, false), false), AllVisited(b, o), InScope(o, BasesOf(t)), AllWrittenIn(b, o),
                 NoFunctions, AllFunctionsIn(b));
    NoneBefore(AllFunctionsIn(b));
  }

  lemma NoneBefore(fs: seq<Function>)
    ensures NoFunctions + fs == fs
  {
  }

  lemma {:induction false} AllVisitedAgree(ss: seq<Stmt>, o: nat)
    ensures Agrees(AllVisited(ss, o), AllWrittenIn(ss, o), AllFunctionsIn(ss))
    decreases ss, 0
  {
    if ss == [] {
      SilentAgrees([]);
    } else {
      var init, s := ss[..|ss| - 1], ss[|ss| - 1];
      AllVisitedAgree(init, o);
      VisitedAgrees(s, o);
      hide Agrees, Visited, WrittenIn, FunctionsIn;
      AgreesConcat(AllVisited(init, o), Visited(s, o), AllWrittenIn(init, o), WrittenIn(s, o), AllFunctionsIn(init), FunctionsIn(s));
    }
  }

  lemma {:induction false} ParamsDefine(symbol: nat, ps: seq<Formal>, n: nat)
    requires n <= |ps|
    ensures forall s: nat, x: string :: DefinesAs(ParamEvents(symbol, ps[..n]), s, x, false) <==> s == symbol && x in ParamNames(ps[..n])
    ensures forall s: nat, x: string :: !DefinesAs(ParamEvents(symbol, ps[..n]), s, x, true)
    ensures forall f: nat :: ParamsAt(ParamsOf(ParamEvents(symbol, ps[..n])), f) == if f == symbol then ParamList(ps[..n]) else []
  {
    if n > 0 {
      assert ps[..n][..n - 1] == ps[..n - 1];
      ParamsDefine(symbol, ps, n - 1);
      var p := ps[n - 1];
      var init, node := ParamEvents(symbol, ps[..n - 1]), NodeOf(p.id, ParameterRole, false);
      var more := [Defined(symbol, p.name, node), HasParam(symbol, p.name, node)];
      assert ParamEvents(symbol, ps[..n]) == init + more;
      assert ParamNames(ps[..n]) == ParamNames(ps[..n - 1]) + {p.name};
      assert ParamList(ps[..n]) == ParamList(ps[..n - 1]) + [Param(p.name, node)];
      RolesApart(p.id, false);
      TwoEvents(symbol, p.name, node);
      hide ParamEvents, ParamList, ParamNames, DefinesAs, NodeOf, OfTarget, ParamsOf;
      forall s: nat, x: string, t: bool ensures DefinesAs(init + more, s, x, t) <==> DefinesAs(init, s, x, t) || DefinesAs(more, s, x, t) {
        DefinesEither(init, more, s, x, t);
      }
      forall f: nat ensures ParamsAt(ParamsOf(init + more), f) == ParamsAt(ParamsOf(init), f) + ParamsAt(ParamsOf(more), f) {
        ParamsConcat(init, more, f);
      }
    } else {
      assert ps[..0] == [];
    }
  }

  lemma TwoEvents(symbol: nat, x: string, n: nat)
    requires !OfTarget(n)
    ensures var more := [Defined(symbol, x, n), HasParam(symbol, x, n)];
            && (forall s: nat, y: string :: DefinesAs(more, s, y, false) <==> s == symbol && y == x)
            && (forall s: nat, y: string :: !DefinesAs(more, s, y, true))
            && (forall f: nat :: ParamsAt(ParamsOf(more), f) == if f == symbol then [Param(x, n)] else [])
  {
    var more := [Defined(symbol, x, n), HasParam(symbol, x, n)];
    assert more[..1] == [Defined(symbol, x, n)] && more[..1][..0] == [];
    assert ParamsOf([Defined(symbol, x, n)]) == map[];
    assert ParamsOf(more) == map[symbol := [] + [Param(x, n)]];
    assert more[0] in more;
    hide OfTarget;
  }

  lemma {:induction false} FunctionAgrees(f: Function)
    ensures Agrees(FunctionVisited(f), WrittenInFunction(f), InnerFunctions(f))
    decreases f
  {
    AllVisitedAgree(f.body, f.symbol);
    ParamsDefine(f.symbol, f.params, |f.params|);
    assert f.params[..|f.params|] == f.params;
    var ps, body := ParamEvents(f.symbol, f.params), AllVisited(f.body, f.symbol);
    OneFunction(f, ps);
    hide AllVisited, ParamEvents, AllWrittenIn, AllFunctionsIn, ParamList, Matches, Lists;
    MatchesConcat(ps, body, NoNames, AllWrittenIn(f.body, f.symbol), [f], AllFunctionsIn(f.body));
    ListsConcat(ps, body, [f], AllFunctionsIn(f.body));
    assert NoNames + AllWrittenIn(f.body, f.symbol) == AllWrittenIn(f.body, f.symbol);
    assert Covers(ps + body, [f] + AllFunctionsIn(f.body));
  }

  lemma OneFunction(f: Function, ps: seq<Event>)
    requires forall g: nat :: ParamsAt(ParamsOf(ps), g) == if g == f.symbol then ParamList(f.params) else []
    requires forall s: nat, x: string :: DefinesAs(ps, s, x, false) <==> s == f.symbol && x in ParamNames(f.params)
    requires forall s: nat, x: string :: !DefinesAs(ps, s, x, true)
    ensures Lists(ps, [f]) && Matches(ps, {}, [f])
  {
    hide ParamList, ParamsOf, DefinesAs, ParamNames;
    assert [f][..0] == [];
    forall g: nat ensures ListFor([f], g) == if g == f.symbol then ParamList(f.params) else [] {
    }
    forall s: nat, x: string ensures IsParam([f], s, x) <==> s == f.symbol && x in ParamNames(f.params) {
      assert [f][0] in [f];
    }
  }

  lemma {:induction false} ModulesAgree(ms: seq<Module>)
    ensures Agrees(ModulesVisited(ms), WrittenInModules(ms), FunctionsOf(ms))
  {
    if ms == [] {
      SilentAgrees([]);
    } else {
      var init, m := ms[..|ms| - 1], ms[|ms| - 1];
      ModulesAgree(init);
      AllVisitedAgree(m.body, m.symbol);
      hide Agrees, AllVisited, AllWrittenIn, AllFunctionsIn;
      AgreesConcat(ModulesVisited(init), AllVisited(m.body, m.symbol), WrittenInModules(init), AllWrittenIn(m.body, m.symbol),
                   FunctionsOf(init), AllFunctionsIn(m.body));
    }
  }

  // ---- every function fits, if all statements do ----

  ghost predicate AllFunctionsFit(fs: seq<Function>, ctx: Context) {
    forall f :: f in fs ==> FunctionFits(f, ctx)
  }

  lemma {:induction false} InnerFit(s: Stmt, o: nat, ctx: Context)
    requires Fits(s, o, ctx)
    ensures AllFunctionsFit(FunctionsIn(s), ctx)
    decreases s, 1
  {
    match s
    case If(_, a, b) =>
      AllInnerFit(a, o, ctx);
      AllInnerFit(b, o, ctx);
    case While(_, b) => AllInnerFit(b, o, ctx);
    case For(_, _, b) => AllInnerFit(b, o, ctx);
    case Def(f) => FunctionInnerFit(f, ctx);
    case _ =>
  }

  lemma {:induction false} FunctionInnerFit(f: Function, ctx: Context)
    requires FunctionFits(f, ctx)
    ensures AllFunctionsFit(InnerFunctions(f), ctx)
    decreases f
  {
    AllInnerFit(f.body, f.symbol, ctx);
    hide FunctionFits;
  }

  lemma {:induction false} AllInnerFit(ss: seq<Stmt>, o: nat, ctx: Context)
    requires AllFit(ss, o, ctx)
    ensures AllFunctionsFit(AllFunctionsIn(ss), ctx)
    decreases ss, 0
  {
    if ss != [] {
      AllInnerFit(ss[..|ss| - 1], o, ctx);
      InnerFit(ss[|ss| - 1], o, ctx);
      hide FunctionFits, FunctionsIn;
    }
  }

  lemma {:induction false} ModulesInnerFit(ms: seq<Module>, ctx: Context)
    requires ModulesFit(ms, ctx)
    ensures AllFunctionsFit(FunctionsOf(ms), ctx)
  {
    if ms != [] {
      ModulesInnerFit(ms[..|ms| - 1], ctx);
      AllInnerFit(ms[|ms| - 1].body, ms[|ms| - 1].symbol, ctx);
      hide FunctionFits, AllFunctionsIn;
    }
  }

  // ---- what it means for a program ----

  /** The names of the functions' parameters, in the functions' scopes. */
  function ParamsBound(fs: seq<Function>): set<(nat, string)> {
    set f, x | f in fs && x in ParamNames(f.params) :: (f.symbol, x)
  }

  /** The names with definitions are those targets bind or store into, and the parameters. */
  lemma KeysAreWritten(p: Program)
    ensures DefsOf(LogOf(p)).Keys == WrittenInModules(p.modules) + ParamsBound(FunctionsOf(p.modules))
  {
    var log := LogOf(p);
    ModulesAgree(p.modules);
    hide ModulesVisited, WrittenInModules, FunctionsOf, Lists, Covers, OfTarget, ParamNames;
    forall k: (nat, string) ensures k in DefsOf(log).Keys <==> k in WrittenInModules(p.modules) + ParamsBound(FunctionsOf(p.modules)) {
      var (s, x) := k;
      assert (s, x) in DefsOf(log) <==> DefinesAs(log, s, x, true) || DefinesAs(log, s, x, false);
    }
  }

  /** A target's definition is of a name that is written. */
  lemma TargetIsWritten(p: Program, s: nat, x: string, id: nat, again: bool)
    requires Defined(s, x, NodeOf(id, DefinitionRole, again)) in LogOf(p)
    ensures (s, x) in WrittenInModules(p.modules)
  {
    ModulesAgree(p.modules);
    RolesApart(id, again);
    hide ModulesVisited, WrittenInModules, FunctionsOf, Lists, Covers, OfTarget, NodeOf;
    assert DefinesAs(LogOf(p), s, x, true);
  }

  lemma {:induction false} NamesAreBases(t: Expr)
    ensures NamesOf(t) <= BasesOf(t)
    decreases t
  {
    if t.Union? {
      AllNamesAreBases(t.parts);
    }
  }

  lemma {:induction false} AllNamesAreBases(ts: seq<Expr>)
    ensures AllNamesOf(ts) <= AllBasesOf(ts)
    decreases ts
  {
    if ts != [] {
      AllNamesAreBases(ts[..|ts| - 1]);
      NamesAreBases(ts[|ts| - 1]);
    }
  }

  /** What a scope binds, its targets write or its function's parameters are; and parameters are bound. */
  ghost predicate BoundOrWritten(bound: set<(nat, string)>, written: set<(nat, string)>, fs: seq<Function>) {
    bound <= written + ParamsBound(fs) && ParamsBound(fs) <= bound
  }

  lemma BoundBoth(b: set<(nat, string)>, w: set<(nat, string)>, fs: seq<Function>, b': set<(nat, string)>, w': set<(nat, string)>, gs: seq<Function>)
    requires BoundOrWritten(b, w, fs) && BoundOrWritten(b', w', gs)
    ensures BoundOrWritten(b + b', w + w', fs + gs)
  {
    assert ParamsBound(fs + gs) == ParamsBound(fs) + ParamsBound(gs);
    hide ParamsBound;
  }

  lemma TargetBound(t: Expr, o: nat)
    ensures BoundOrWritten(InScope(o, NamesOf(t)), InScope(o, BasesOf(t)), NoFunctions)
  {
    NamesAreBases(t);
    assert ParamsBound(NoFunctions) == {};
    hide NamesOf, BasesOf;
  }

  lemma {:induction false} StatementBound(s: Stmt, o: nat)
    ensures BoundOrWritten(BoundIn(s, o), WrittenIn(s, o), FunctionsIn(s))
    decreases s, 1
  {
    match s
    case Evaluate(_) => assert ParamsBound([]) == {};
    case Give(_, _) => assert ParamsBound([]) == {};
    case Assign(t, _) => TargetBound(t, o);
    case AugAssign(t, _) => TargetBound(t, o);
    case If(_, a, b) =>
      AllBoundOrWritten(a, o);
      AllBoundOrWritten(b, o);
      hide BoundOrWritten;
      BoundBoth(AllBoundIn(a, o), AllWrittenIn(a, o), AllFunctionsIn(a), AllBoundIn(b, o), AllWrittenIn(b, o), AllFunctionsIn(b));
    case While(_, b) => AllBoundOrWritten(b, o);
    case For(t, _, b) =>
      TargetBound(t, o);
      AllBoundOrWritten(b, o);
      hide BoundOrWritten;
      BoundBoth(InScope(o, NamesOf(t)), InScope(o, BasesOf(t)), NoFunctions, AllBoundIn(b, o), AllWrittenIn(b, o), AllFunctionsIn(b));
      NoneBefore(AllFunctionsIn(b));
    case Def(f) => FunctionBound(f);
  }

  lemma {:induction false} FunctionBound(f: Function)
    ensures BoundOrWritten(BoundInFunction(f), WrittenInFunction(f), InnerFunctions(f))
    decreases f
  {
    AllBoundOrWritten(f.body, f.symbol);
    var own := InScope(f.symbol, ParamNames(f.params));
    assert ParamsBound([f]) == own;
    assert BoundOrWritten(own, NoNames, [f]);
    hide BoundOrWritten, AllBoundIn, AllWrittenIn, ParamNames, AllFunctionsIn;
    BoundBoth(own, NoNames, [f], AllBoundIn(f.body, f.symbol), AllWrittenIn(f.body, f.symbol), AllFunctionsIn(f.body));
    assert NoNames + AllWrittenIn(f.body, f.symbol) == AllWrittenIn(f.body, f.symbol);
  }

  lemma {:induction false} AllBoundOrWritten(ss: seq<Stmt>, o: nat)
    ensures BoundOrWritten(AllBoundIn(ss, o), AllWrittenIn(ss, o), AllFunctionsIn(ss))
    decreases ss, 0
  {
    if ss == [] {
      assert ParamsBound([]) == {};
    } else {
      var init, s := ss[..|ss| - 1], ss[|ss| - 1];
      AllBoundOrWritten(init, o);
      StatementBound(s, o);
      hide BoundOrWritten, BoundIn, WrittenIn, FunctionsIn;
      BoundBoth(AllBoundIn(init, o), AllWrittenIn(init, o), AllFunctionsIn(init), BoundIn(s, o), WrittenIn(s, o), FunctionsIn(s));
    }
  }

  lemma {:induction false} ModulesBound(ms: seq<Module>)
    ensures BoundOrWritten(BoundInModules(ms), WrittenInModules(ms), FunctionsOf(ms))
  {
    if ms == [] {
      assert ParamsBound([]) == {};
    } else {
      var init, m := ms[..|ms| - 1], ms[|ms| - 1];
      ModulesBound(init);
      AllBoundOrWritten(m.body, m.symbol);
      hide BoundOrWritten, AllBoundIn, AllWrittenIn, AllFunctionsIn;
      BoundBoth(BoundInModules(init), WrittenInModules(init), FunctionsOf(init), AllBoundIn(m.body, m.symbol), AllWrittenIn(m.body, m.symbol), AllFunctionsIn(m.body));
    }
  }

  /** Every name a target binds or stores into is one its own scope binds. */
  predicate StoresStayInside(p: Program) {
    WrittenInModules(p.modules) <= BoundInModules(p.modules)
  }

  /** The names with definitions are at least the names bound, and no others exactly when every
      store goes into a variable its own scope binds. */
  lemma KeysAreBindsIff(p: Program)
    ensures BoundInModules(p.modules) <= DefsOf(LogOf(p)).Keys
    ensures DefsOf(LogOf(p)).Keys == WrittenInModules(p.modules) + BoundInModules(p.modules)
    ensures DefsOf(LogOf(p)).Keys == BoundInModules(p.modules) <==> StoresStayInside(p)
  {
    KeysAreWritten(p);
    ModulesBound(p.modules);
    hide LogOf, WrittenInModules, BoundInModules, FunctionsOf, ParamsBound;
  }

  lemma {:induction false} ListForOne(fs: seq<Function>, f: Function)
    requires DistinctSymbols(fs)
    ensures f in fs ==> ListFor(fs, f.symbol) == ParamList(f.params)
    ensures (forall g :: g in fs ==> g.symbol != f.symbol) ==> ListFor(fs, f.symbol) == []
  {
    hide ParamList;
    if fs != [] {
      var init, last := fs[..|fs| - 1], fs[|fs| - 1];
      assert fs == init + [last];
      ListForOne(init, f);
      assert forall g :: g in init ==> g.symbol != last.symbol;
    }
  }

  /** A function's recorded parameters are its own, in order. */
  lemma OwnParams(p: Program, f: Function)
    requires DistinctSymbols(FunctionsOf(p.modules)) && f in FunctionsOf(p.modules)
    ensures DefinitionsOf(p).ParamsOf(f.symbol) == ParamList(f.params)
  {
    ModulesAgree(p.modules);
    ListForOne(FunctionsOf(p.modules), f);
    hide ModulesVisited, WrittenInModules, FunctionsOf, Matches, Covers, ParamList, ListFor;
  }

  lemma FunctionRecorded(p: Program, f: Function)
    requires f in FunctionsOf(p.modules)
    ensures Within(FunctionVisited(f), LogOf(p))
    ensures ModulesFit(p.modules, ContextOf(p)) ==> FunctionFits(f, ContextOf(p))
  {
    ModulesAgree(p.modules);
    if ModulesFit(p.modules, ContextOf(p)) {
      ModulesInnerFit(p.modules, ContextOf(p));
    }
    hide ModulesVisited, WrittenInModules, FunctionsOf, Matches, Lists, FunctionFits, FunctionVisited, ModulesFit, ContextOf;
  }

  lemma {:induction false} ModuleRecorded(ms: seq<Module>, ctx: Context, k: nat)
    requires k < |ms| && ModulesFit(ms, ctx)
    ensures AllFit(ms[k].body, ms[k].symbol, ctx) && Within(AllVisited(ms[k].body, ms[k].symbol), ModulesVisited(ms))
  {
    hide AllFit, AllVisited;
    if k < |ms| - 1 {
      ModuleRecorded(ms[..|ms| - 1], ctx, k);
    }
  }

  // ---- what a fragment program's stores do ----

  lemma {:induction false} PlaceInside(t: Expr, o: nat, ctx: Context)
    requires IsPlace(t, o, ctx)
    ensures InScope(o, BasesOf(t)) <= ctx.binds
    decreases t
  {
    match t
    case Subscript(_, base, _) => PlaceInside(base, o, ctx);
    case Attribute(_, base) => PlaceInside(base, o, ctx);
    case _ =>
  }

  lemma {:induction false} TargetInside(t: Expr, o: nat, ctx: Context)
    requires IsTarget(t, o, ctx) && InScope(o, NamesOf(t)) <= ctx.binds
    ensures InScope(o, BasesOf(t)) <= ctx.binds
    decreases t
  {
    match t
    case Name(_, _) =>
    case Imported(_, _, _) =>
    case Union(parts) => TargetsInside(parts, o, ctx);
    case _ => PlaceInside(t, o, ctx);
  }

  lemma {:induction false} TargetsInside(ts: seq<Expr>, o: nat, ctx: Context)
    requires AllTargets(ts, o, ctx) && InScope(o, AllNamesOf(ts)) <= ctx.binds
    ensures InScope(o, AllBasesOf(ts)) <= ctx.binds
    decreases ts
  {
    if ts != [] {
      var init, t := ts[..|ts| - 1], ts[|ts| - 1];
      assert InScope(o, AllNamesOf(ts)) == InScope(o, AllNamesOf(init)) + InScope(o, NamesOf(t));
      TargetsInside(init, o, ctx);
      TargetInside(t, o, ctx);
      hide NamesOf, BasesOf, IsTarget;
      assert InScope(o, AllBasesOf(ts)) == InScope(o, AllBasesOf(init)) + InScope(o, BasesOf(t));
    }
  }

  lemma {:induction false} StatementInside(s: Stmt, o: nat, ctx: Context)
    requires Fits(s, o, ctx) && BoundIn(s, o) <= ctx.binds
    ensures WrittenIn(s, o) <= ctx.binds
    decreases s, 1
  {
    match s
    case Assign(t, _) => TargetInside(t, o, ctx);
    case AugAssign(t, _) => TargetInside(t, o, ctx);
    case If(_, a, b) =>
      AllInside(a, o, ctx);
      AllInside(b, o, ctx);
    case While(_, b) => AllInside(b, o, ctx);
    case For(t, _, b) =>
      TargetInside(t, o, ctx);
      AllInside(b, o, ctx);
    case Def(f) => FunctionInside(f, ctx);
    case _ =>
  }

  lemma {:induction false} FunctionInside(f: Function, ctx: Context)
    requires FunctionFits(f, ctx) && BoundInFunction(f) <= ctx.binds
    ensures WrittenInFunction(f) <= ctx.binds
    decreases f
  {
    AllInside(f.body, f.symbol, ctx);
  }

  lemma {:induction false} AllInside(ss: seq<Stmt>, o: nat, ctx: Context)
    requires AllFit(ss, o, ctx) && AllBoundIn(ss, o) <= ctx.binds
    ensures AllWrittenIn(ss, o) <= ctx.binds
    decreases ss, 0
  {
    if ss != [] {
      AllInside(ss[..|ss| - 1], o, ctx);
      StatementInside(ss[|ss| - 1], o, ctx);
    }
  }

  lemma {:induction false} ModulesInside(ms: seq<Module>, ctx: Context)
    requires ModulesFit(ms, ctx) && BoundInModules(ms) <= ctx.binds
    ensures WrittenInModules(ms) <= ctx.binds
  {
    if ms != [] {
      ModulesInside(ms[..|ms| - 1], ctx);
      AllInside(ms[|ms| - 1].body, ms[|ms| - 1].symbol, ctx);
    }
  }

  /** In the fragment, the names with definitions are the names bound. */
  lemma KeysAreBinds(p: Program)
    requires InFragment(p)
    ensures DefsOf(LogOf(p)).Keys == BoundInModules(p.modules)
  {
    ModulesInside(p.modules, ContextOf(p));
    KeysAreBindsIff(p);
    hide LogOf, WrittenInModules, BoundInModules, FunctionsOf, ModulesFit;
  }
}
