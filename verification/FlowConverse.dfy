/** The data-flow graph, both ways: its links are what programs hand on. */
module FlowConverse {
  import opened Options
  import opened Evidence
  import opened Calls
  import opened Hubs
  import opened FlowSyntax
  import opened FlowWalker
  import opened FlowGraph
  import opened FlowRuns
  import opened FlowFits
  import opened FlowRecord
  import opened FlowActuals
  import opened FlowTheorem
  import opened FlowLinks
  import opened FlowEvents
  import opened Walks
  import HubWiring
  import HubTheorem

  // ---- reads ----

  /** A statement of scope `o` has a target that names `x`, or a function of it a parameter, at node `n`. */
  ghost predicate IsDefinition(p: Program, o: nat, x: string, n: nat) {
    || (exists s, u, id :: StandsIn(s, o, p) && Stores(s) && IsStoredInto(u, s.target) && NamesAt(u, id, x) && n == NodeOf(id, DefinitionRole, s.AugAssign?))
    || (exists s, o', f, q :: StandsIn(s, o', p) && s == Def(f) && f.symbol == o && q in f.params && q.name == x && n == NodeOf(q.id, ParameterRole, false))
  }

  ghost predicate HasDefinition(p: Program, o: nat, x: string) {
    exists n :: IsDefinition(p, o, x, n)
  }

  /** Scope `s` is the first, from `o` outwards, that has a definition of `x`. */
  ghost predicate IsFirstOutwards(p: Program, o: nat, x: string, s: nat)
    requires Climbs(p.scopeOf)
    decreases o
  {
    if HasDefinition(p, o, x) then s == o else o in p.scopeOf && IsFirstOutwards(p, p.scopeOf[o], x, s)
  }

  lemma DefinedIff(p: Program, o: nat, x: string, n: nat)
    ensures Defined(o, x, n) in LogOf(p) <==> IsDefinition(p, o, x, n)
  {
    var v := Defined(o, x, n);
    RecordedIff(p, v);
    hide LogOf, StandsIn, IsStoredInto, NamesAt, NodeOf, StmtRecords;
    if v in LogOf(p) {
      var s, o' :| StandsIn(s, o', p) && StmtRecords(s, o', v);
      DefinedBy(p, s, o', o, x, n);
    }
    if IsDefinition(p, o, x, n) {
      DefinitionRecorded(p, o, x, n);
    }
  }

  lemma DefinedBy(p: Program, s: Stmt, o': nat, o: nat, x: string, n: nat)
    requires StandsIn(s, o', p) && StmtRecords(s, o', Defined(o, x, n))
    ensures IsDefinition(p, o, x, n)
  {
    StmtRecordsIff(s, o', Defined(o, x, n));
    hide StandsIn, IsStoredInto, NamesAt, NodeOf, StmtRecords, EvaluatesIn, IsValue;
  }

  lemma DefinitionRecorded(p: Program, o: nat, x: string, n: nat)
    requires IsDefinition(p, o, x, n)
    ensures exists s, o' :: StandsIn(s, o', p) && StmtRecords(s, o', Defined(o, x, n))
  {
    hide StandsIn, IsStoredInto, NamesAt, NodeOf, StmtRecords, EvaluatesIn, IsValue, ExprRecords;
    var v := Defined(o, x, n);
    if s, u, id :| StandsIn(s, o, p) && Stores(s) && IsStoredInto(u, s.target) && NamesAt(u, id, x) && n == NodeOf(id, DefinitionRole, s.AugAssign?) {
      StmtRecordsIff(s, o, v);
      assert NameHolds(s, id, x, o, v);
    } else {
      var s, o', f, q :| StandsIn(s, o', p) && s == Def(f) && f.symbol == o && q in f.params && q.name == x && n == NodeOf(q.id, ParameterRole, false);
      StmtRecordsIff(s, o', v);
      assert ParamRecords(f, v);
    }
  }

  lemma {:induction false} NearestIff(p: Program, o: nat, x: string, s: nat)
    requires Climbs(p.scopeOf)
    ensures Nearest(DefsOf(LogOf(p)).Keys, p.scopeOf, o, x) == Some(s) <==> IsFirstOutwards(p, o, x, s)
    decreases o
  {
    KeyIff(p, o, x);
    hide LogOf, HasDefinition;
    if !HasDefinition(p, o, x) && o in p.scopeOf {
      NearestIff(p, p.scopeOf[o], x, s);
    }
  }

  lemma KeyIff(p: Program, o: nat, x: string)
    ensures (o, x) in DefsOf(LogOf(p)).Keys <==> HasDefinition(p, o, x)
  {
    hide LogOf, IsDefinition;
    forall n: nat ensures Defined(o, x, n) in LogOf(p) <==> IsDefinition(p, o, x, n) {
      DefinedIff(p, o, x, n);
    }
  }

  /** A name is read where the walk finds it defined. */
  ghost predicate ReadsFrom(p: Program, o: nat, x: Expr, again: bool, l: Link)
    requires Climbs(p.scopeOf)
  {
    && x.Name? && l.to == NodeOf(x.id, UseRole, again) && l.confidence == Resolved
    && exists s :: IsFirstOutwards(p, o, x.name, s) && IsDefinition(p, s, x.name, l.from)
  }

  // ---- calls ----

  predicate Counts(f: Function, hasReceiver: bool) {
    f.isMethod && (hasReceiver || f.isInit)
  }

  ghost predicate HasReceiver(x: Expr, again: bool)
    requires x.Call?
  {
    exists n :: IsReceiver(x.callee, again, n)
  }

  /** A value passed in lands in the parameters of `f` that the actuals are wired to, past one where a
      receiver counts, and a receiver in that one. */
  ghost predicate Lands(x: Expr, again: bool, f: Function, from: nat, to: nat)
    requires x.Call?
  {
    var offset := if Counts(f, HasReceiver(x, again)) then 1 else 0;
    || (offset == 1 && f.params != [] && IsReceiver(x.callee, again, from) && to == NodeOf(f.params[0].id, ParameterRole, false))
    || (exists i, k :: 0 <= i < |x.args| && 0 <= k < |f.params| && Carries(x.args[i].value, again, from)
          && IsWired(f.params, x.args, i, k, offset) && to == NodeOf(f.params[k].id, ParameterRole, false))
  }

  ghost predicate GoesIn(p: Program, x: Expr, again: bool, symbol: nat, from: nat, to: nat)
    requires x.Call?
  {
    exists f :: f in FunctionsOf(p.modules) && f.symbol == symbol && Lands(x, again, f, from, to)
  }

  ghost predicate IsReturned(p: Program, o: nat, n: nat) {
    exists s :: StandsIn(s, o, p) && s.Give? && n == NodeOf(s.id, ReturnRole, false)
  }

  ghost predicate TargetHands(p: Program, x: Expr, again: bool, t: CallTarget, l: Link)
    requires x.Call?
  {
    && t.Package? && l.confidence == t.confidence
    && (GoesIn(p, x, again, t.symbol, l.from, l.to) || (IsReturned(p, t.symbol, l.from) && l.to == NodeOf(x.id, ResultRole, again)))
  }

  /** A call of package functions: values go in to the parameters, and what is returned comes out. */
  ghost predicate CallHands(p: Program, x: Expr, again: bool, l: Link) {
    x.Call? && exists t :: t in x.targets && TargetHands(p, x, again, t, l)
  }

  lemma ReturnedIff(p: Program, o: nat, n: nat)
    ensures Returned(o, n) in LogOf(p) <==> IsReturned(p, o, n)
  {
    var v := Returned(o, n);
    RecordedIff(p, v);
    hide LogOf, StandsIn, NodeOf, StmtRecords, ExprRecords, NameRecords;
    if v in LogOf(p) {
      var s, o' :| StandsIn(s, o', p) && StmtRecords(s, o', v);
      StmtRecordsIff(s, o', v);
      NoReturnElsewhere(s, o', v);
    }
    if s :| StandsIn(s, o, p) && s.Give? && n == NodeOf(s.id, ReturnRole, false) {
      StmtRecordsIff(s, o, v);
      assert ReturnRecords(s, o, v);
    }
  }

  lemma NoReturnElsewhere(s: Stmt, o: nat, v: Event)
    requires v.Returned?
    ensures !ExprRecords(s, o, v) && !NameRecords(s, o, v)
  {
    hide EvaluatesIn, IsStoredInto, NamesAt;
  }

  lemma {:induction false} PositionalFrom(args: seq<Arg>, again: bool, j: nat) returns (i: nat)
    requires j < |PositionalValues(args, again)|
    ensures i < |args| && args[i].ByPosition? && Positionals(args[..i]) == j && PositionalValues(args, again)[j] == Values(args[i].value, again)
  {
    hide Values;
    var init := args[..|args| - 1];
    PositionalCount(init, again);
    if j < |PositionalValues(init, again)| {
      i := PositionalFrom(init, again, j);
      assert init[..i] == args[..i];
    } else {
      i := |args| - 1;
    }
  }

  lemma {:induction false} KeywordFrom(args: seq<Arg>, again: bool, j: nat) returns (i: nat)
    requires j < |KeywordValues(args, again)|
    ensures i < |args| && args[i].ByName? && KeywordValues(args, again)[j] == (args[i].name, Values(args[i].value, again))
  {
    hide Values;
    var init := args[..|args| - 1];
    if j < |KeywordValues(init, again)| {
      i := KeywordFrom(init, again, j);
    } else {
      i := |args| - 1;
    }
  }

  lemma {:induction false} SpreadFrom(args: seq<Arg>, again: bool, j: nat) returns (i: nat)
    requires j < |SpreadValues(args, again)|
    ensures i < |args| && args[i].Spread? && SpreadValues(args, again)[j] == Values(args[i].value, again)
  {
    hide Values;
    var init := args[..|args| - 1];
    if j < |SpreadValues(init, again)| {
      i := SpreadFrom(init, again, j);
    } else {
      i := |args| - 1;
    }
  }

  /** Every slot a call fills is the receiver's or an actual's. */
  ghost predicate SlotIs(x: Expr, again: bool, slot: Slot, values: seq<nat>)
    requires x.Call?
  {
    || (slot == Slot.Receiver && values == ReceiverValues(x.callee, again) && values != [])
    || (exists i :: 0 <= i < |x.args| && slot == SlotFor(x.args, i) && values == Values(x.args[i].value, again))
  }

  lemma SlotFrom(x: Expr, again: bool, j: nat)
    requires x.Call?
    requires j < |SlotsOf(Pending(x.id, x.callee, x.args, x.targets, again))|
    ensures var s := SlotsOf(Pending(x.id, x.callee, x.args, x.targets, again))[j]; SlotIs(x, again, s.0, s.1)
  {
    var c := Pending(x.id, x.callee, x.args, x.targets, again);
    SlotKinds(c, j);
    hide SlotsOf, PositionalValues, KeywordValues, SpreadValues, ReceiverValues, Values, Positionals, PackageTargets;
    if n :| 0 <= n < |c.positional| && SlotsOf(c)[j] == (Slot.Positional(n), c.positional[n]) {
      var i := PositionalFrom(x.args, again, n);
    } else if n :| 0 <= n < |c.keyword| && SlotsOf(c)[j] == (Slot.Keyword(c.keyword[n].0), c.keyword[n].1) {
      var i := KeywordFrom(x.args, again, n);
    } else if n :| 0 <= n < |c.splat| && SlotsOf(c)[j] == (Slot.Splat, c.splat[n]) {
      var i := SpreadFrom(x.args, again, n);
    }
  }

  lemma SlotKinds(c: PendingCall, j: nat)
    requires j < |SlotsOf(c)|
    ensures || (c.receiver != [] && SlotsOf(c)[j] == (Slot.Receiver, c.receiver))
            || (exists n :: 0 <= n < |c.positional| && SlotsOf(c)[j] == (Slot.Positional(n), c.positional[n]))
            || (exists n :: 0 <= n < |c.keyword| && SlotsOf(c)[j] == (Slot.Keyword(c.keyword[n].0), c.keyword[n].1))
            || (exists n :: 0 <= n < |c.splat| && SlotsOf(c)[j] == (Slot.Splat, c.splat[n]))
  {
    var r := if c.receiver != [] then [(Slot.Receiver, c.receiver)] else [];
    var ps, ks, ss := PositionalSlots(c.positional), KeywordSlots(c.keyword), SplatSlots(c.splat);
    var all := SlotsOf(c);
    assert all == r + ps + ks + ss;
    hide *;
    if |r| <= j < |r| + |ps| {
      assert all[j] == ps[j - |r|];
    } else if |r| + |ps| <= j < |r| + |ps| + |ks| {
      assert all[j] == ks[j - |r| - |ps|];
    } else if |r| + |ps| + |ks| <= j {
      assert all[j] == ss[j - |r| - |ps| - |ks|];
    } else {
      assert all[j] == r[j];
    }
  }

  /** Which formals an actual is wired to, when names are apart. */
  lemma FormalsIff(defs: Definitions, f: Function, hasReceiver: bool, args: seq<Arg>, i: nat, b: nat)
    requires i < |args| && DistinctNames(f.params) && defs.ParamsOf(f.symbol) == ParamList(f.params)
    ensures b in WireFormals(defs, SlotFor(args, i), f.symbol, hasReceiver) <==>
      exists k :: 0 <= k < |f.params| && IsWired(f.params, args, i, k, defs.Offset(f.symbol, hasReceiver)) && b == NodeOf(f.params[k].id, ParameterRole, false)
  {
    var ps := defs.ParamsOf(f.symbol);
    var offset := defs.Offset(f.symbol, hasReceiver);
    hide NodeOf, Positionals, ParamList, Definitions.ParamsOf, Definitions.Offset;
    forall k | 0 <= k < |f.params| ensures ps[k].node == NodeOf(f.params[k].id, ParameterRole, false) && ps[k].name == f.params[k].name {
    }
    match args[i]
    case ByPosition(_) =>
    case ByName(_, x, _) => NamedOnly(ps, x, b);
    case Spread(_) => SkippedOnly(ps, offset, b);
  }

  lemma NamedOnly(ps: seq<Param>, x: string, b: nat)
    requires forall i, j :: 0 <= i < j < |ps| ==> ps[i].name != ps[j].name
    ensures b in FirstNamed(ps, x) <==> exists k :: 0 <= k < |ps| && ps[k].name == x && ps[k].node == b
  {
    FirstIsNamed(ps, x);
    if b in FirstNamed(ps, x) {
      var k :| 0 <= k < |ps| && ps[k] == Param(x, b);
    }
    if k :| 0 <= k < |ps| && ps[k].name == x && ps[k].node == b {
      FirstNamedAt(ps, k);
      assert FirstNamed(ps, x)[0] == b;
    }
    hide FirstNamed, AllNamed;
  }

  lemma SkippedOnly(ps: seq<Param>, offset: nat, b: nat)
    ensures b in Nodes(Skip(ps, offset)) <==> exists k :: offset <= k < |ps| && ps[k].node == b
  {
    if b in Nodes(Skip(ps, offset)) {
      var j :| 0 <= j < |Nodes(Skip(ps, offset))| && Nodes(Skip(ps, offset))[j] == b;
      assert Skip(ps, offset)[j] == ps[offset + j];
    }
    if k :| offset <= k < |ps| && ps[k].node == b {
      NodesHas(ps, offset, k);
    }
    hide Nodes;
  }

  /** Functions have symbols of their own, and their parameters names of their own. */
  predicate NamedApart(p: Program) {
    DistinctSymbols(FunctionsOf(p.modules)) && forall f :: f in FunctionsOf(p.modules) ==> DistinctNames(f.params)
  }

  ghost predicate BySlot(defs: Definitions, c: PendingCall, callee: nat, a: nat, b: nat) {
    exists k :: 0 <= k < |SlotsOf(c)| && a in SlotsOf(c)[k].1 && b in WireFormals(defs, SlotsOf(c)[k].0, callee, c.receiver != [])
  }

  /** What is bound by calling one target. */
  lemma BindsIff(p: Program, x: Expr, again: bool, t: Target, a: nat, b: nat)
    requires NamedApart(p) && x.Call?
    ensures Binds(DefinitionsOf(p), Pending(x.id, x.callee, x.args, x.targets, again), t, a, b) <==>
      GoesIn(p, x, again, t.callee, a, b) || (IsReturned(p, t.callee, a) && b == NodeOf(x.id, ResultRole, again))
  {
    var c := Pending(x.id, x.callee, x.args, x.targets, again);
    hide *;
    PendingIs(x, again);
    OutIff(p, t.callee, a);
    BindsIs(DefinitionsOf(p), c, t, a, b);
    if BySlot(DefinitionsOf(p), c, t.callee, a, b) {
      SlotGoesIn(p, x, again, t.callee, a, b);
    }
    if GoesIn(p, x, again, t.callee, a, b) {
      GoesInSlot(p, x, again, t.callee, a, b);
    }
  }

  lemma BindsIs(defs: Definitions, c: PendingCall, t: Target, a: nat, b: nat)
    ensures Binds(defs, c, t, a, b) <==> BySlot(defs, c, t.callee, a, b) || (a in defs.ReturnsOf(t.callee) && b == c.result)
  {
    hide SlotsOf, WireFormals;
  }

  lemma PendingIs(x: Expr, again: bool)
    requires x.Call?
    ensures var c := Pending(x.id, x.callee, x.args, x.targets, again);
            c.result == NodeOf(x.id, ResultRole, again) && c.receiver == ReceiverValues(x.callee, again)
            && (c.receiver != [] <==> HasReceiver(x, again))
  {
    forall n: nat ensures n in ReceiverValues(x.callee, again) <==> IsReceiver(x.callee, again, n) {
      ReceiverIff(x.callee, again, n);
    }
    hide IsReceiver, PositionalValues, KeywordValues, SpreadValues, PackageTargets;
    if ReceiverValues(x.callee, again) != [] {
      assert ReceiverValues(x.callee, again)[0] in ReceiverValues(x.callee, again);
    }
  }

  lemma OutIff(p: Program, symbol: nat, a: nat)
    ensures a in DefinitionsOf(p).ReturnsOf(symbol) <==> IsReturned(p, symbol, a)
  {
    ReturnedIff(p, symbol, a);
    hide LogOf, IsReturned, FunctionsOf, ParamsOf;
    assert DefinitionsOf(p).ReturnsOf(symbol) == ResultsAt(ResultsOf(LogOf(p)), symbol);
  }

  lemma OffsetIs(p: Program, f: Function, hasReceiver: bool)
    requires DistinctSymbols(FunctionsOf(p.modules)) && f in FunctionsOf(p.modules)
    ensures DefinitionsOf(p).Offset(f.symbol, hasReceiver) == if Counts(f, hasReceiver) then 1 else 0
  {
    var fs := FunctionsOf(p.modules);
    hide LogOf, FunctionsOf;
    assert forall g :: g in fs && g.symbol == f.symbol ==> g == f;
    assert f.symbol in Methods(fs) <==> f.isMethod;
    assert f.symbol in Inits(fs) <==> f.isInit;
    hide Methods, Inits;
  }

  lemma NoneCalled(p: Program, symbol: nat)
    requires DistinctSymbols(FunctionsOf(p.modules)) && forall f :: f in FunctionsOf(p.modules) ==> f.symbol != symbol
    ensures DefinitionsOf(p).ParamsOf(symbol) == []
  {
    ModulesAgree(p.modules);
    ListForOne(FunctionsOf(p.modules), Function(symbol, [], [], false, false, Undecorated));
    hide ModulesVisited, WrittenInModules, FunctionsOf, Matches, Covers, ParamList, ListFor;
  }

  lemma NoFormals(defs: Definitions, slot: Slot, symbol: nat, hasReceiver: bool)
    requires defs.ParamsOf(symbol) == []
    ensures WireFormals(defs, slot, symbol, hasReceiver) == []
  {
  }

  lemma ReceiverFormals(defs: Definitions, f: Function, hasReceiver: bool, b: nat)
    requires defs.ParamsOf(f.symbol) == ParamList(f.params)
    ensures b in WireFormals(defs, Slot.Receiver, f.symbol, hasReceiver)
       <==> defs.Offset(f.symbol, hasReceiver) == 1 && f.params != [] && b == NodeOf(f.params[0].id, ParameterRole, false)
  {
    hide NodeOf, Definitions.ParamsOf, Definitions.Offset;
  }

  lemma SlotGoesIn(p: Program, x: Expr, again: bool, symbol: nat, a: nat, b: nat)
    requires NamedApart(p) && x.Call?
    requires BySlot(DefinitionsOf(p), Pending(x.id, x.callee, x.args, x.targets, again), symbol, a, b)
    ensures GoesIn(p, x, again, symbol, a, b)
  {
    var c, defs := Pending(x.id, x.callee, x.args, x.targets, again), DefinitionsOf(p);
    hide Pending, DefinitionsOf, SlotsOf, WireFormals, SlotIs, Lands, FunctionsOf, DistinctNames, DistinctSymbols;
    var k :| 0 <= k < |SlotsOf(c)| && a in SlotsOf(c)[k].1 && b in WireFormals(defs, SlotsOf(c)[k].0, symbol, c.receiver != []);
    SlotFrom(x, again, k);
    PendingIs(x, again);
    if f :| f in FunctionsOf(p.modules) && f.symbol == symbol {
      OwnParams(p, f);
      OffsetIs(p, f, HasReceiver(x, again));
      SlotLands(defs, x, again, f, SlotsOf(c)[k].0, SlotsOf(c)[k].1, a, b);
    } else {
      NoneCalled(p, symbol);
      NoFormals(defs, SlotsOf(c)[k].0, symbol, c.receiver != []);
    }
  }

  lemma SlotLands(defs: Definitions, x: Expr, again: bool, f: Function, slot: Slot, values: seq<nat>, a: nat, b: nat)
    requires x.Call? && SlotIs(x, again, slot, values) && a in values && DistinctNames(f.params)
    requires defs.ParamsOf(f.symbol) == ParamList(f.params)
    requires defs.Offset(f.symbol, HasReceiver(x, again)) == if Counts(f, HasReceiver(x, again)) then 1 else 0
    requires b in WireFormals(defs, slot, f.symbol, HasReceiver(x, again))
    ensures Lands(x, again, f, a, b)
  {
    hide WireFormals, HasReceiver, Counts, DistinctNames, ParamList, Definitions.ParamsOf, Definitions.Offset, Values, Carries, IsWired, IsReceiver, NodeOf, SlotFor, ReceiverValues;
    if slot == Slot.Receiver && values == ReceiverValues(x.callee, again) {
      ReceiverIff(x.callee, again, a);
      ReceiverFormals(defs, f, HasReceiver(x, again), b);
    } else {
      var i :| 0 <= i < |x.args| && slot == SlotFor(x.args, i) && values == Values(x.args[i].value, again);
      CarriesIff(x.args[i].value, again, a);
      FormalsIff(defs, f, HasReceiver(x, again), x.args, i, b);
    }
  }

  lemma GoesInSlot(p: Program, x: Expr, again: bool, symbol: nat, a: nat, b: nat)
    requires NamedApart(p) && x.Call? && GoesIn(p, x, again, symbol, a, b)
    ensures BySlot(DefinitionsOf(p), Pending(x.id, x.callee, x.args, x.targets, again), symbol, a, b)
  {
    var c, defs := Pending(x.id, x.callee, x.args, x.targets, again), DefinitionsOf(p);
    hide Pending, DefinitionsOf, Lands, FunctionsOf, DistinctNames, DistinctSymbols, BySlot;
    PendingIs(x, again);
    var f :| f in FunctionsOf(p.modules) && f.symbol == symbol && Lands(x, again, f, a, b);
    OwnParams(p, f);
    OffsetIs(p, f, HasReceiver(x, again));
    LandsInSlot(defs, x, again, f, a, b);
  }

  lemma LandsInSlot(defs: Definitions, x: Expr, again: bool, f: Function, a: nat, b: nat)
    requires x.Call? && DistinctNames(f.params) && Lands(x, again, f, a, b)
    requires defs.ParamsOf(f.symbol) == ParamList(f.params)
    requires defs.Offset(f.symbol, HasReceiver(x, again)) == if Counts(f, HasReceiver(x, again)) then 1 else 0
    ensures BySlot(defs, Pending(x.id, x.callee, x.args, x.targets, again), f.symbol, a, b)
  {
    var c := Pending(x.id, x.callee, x.args, x.targets, again);
    hide Pending, WireFormals, HasReceiver, Counts, DistinctNames, ParamList, Definitions.ParamsOf, Definitions.Offset, Values, Carries, IsWired, IsReceiver, NodeOf, SlotFor, ReceiverValues, SlotsOf;
    PendingIs(x, again);
    var offset := if Counts(f, HasReceiver(x, again)) then 1 else 0;
    if offset == 1 && f.params != [] && IsReceiver(x.callee, again, a) && b == NodeOf(f.params[0].id, ParameterRole, false) {
      ReceiverIff(x.callee, again, a);
      ReceiverFormals(defs, f, HasReceiver(x, again), b);
      ReceiverFills(c);
    } else {
      var i, k :| 0 <= i < |x.args| && 0 <= k < |f.params| && Carries(x.args[i].value, again, a)
                  && IsWired(f.params, x.args, i, k, offset) && b == NodeOf(f.params[k].id, ParameterRole, false);
      CarriesIff(x.args[i].value, again, a);
      FormalsIff(defs, f, HasReceiver(x, again), x.args, i, b);
      ArgFills(x.id, x.callee, x.args, x.targets, i, again);
    }
  }

  // ---- the graph ----

  lemma CalledIff(p: Program, c: PendingCall)
    ensures Called(c) in LogOf(p) <==> exists s, o, x, again :: IsPending(p, s, o, x, again, c)
  {
    var v := Called(c);
    RecordedIff(p, v);
    hide LogOf, StandsIn, StmtRecords, Pending, EvaluatesIn;
    if v in LogOf(p) {
      var s, o :| StandsIn(s, o, p) && StmtRecords(s, o, v);
      StmtRecordsIff(s, o, v);
      NoCallElsewhere(s, o, v);
      var x, again :| EvaluatesIn(s, x, again) && Records(x, o, again, v);
      assert IsPending(p, s, o, x, again, c);
    }
    if s, o, x, again :| IsPending(p, s, o, x, again, c) {
      assert Records(x, o, again, v);
      StmtRecordsIff(s, o, v);
      assert ExprRecords(s, o, v);
    }
  }

  /** A statement evaluates the call that is pending. */
  ghost predicate IsPending(p: Program, s: Stmt, o: nat, x: Expr, again: bool, c: PendingCall) {
    && StandsIn(s, o, p) && EvaluatesIn(s, x, again) && x.Call? && (exists t :: t in x.targets && t.Package?)
    && c == Pending(x.id, x.callee, x.args, x.targets, again)
  }

  lemma NoCallElsewhere(s: Stmt, o: nat, v: Event)
    requires v.Called? || v.Read?
    ensures !NameRecords(s, o, v) && !(s.Give? && ReturnRecords(s, o, v)) && !(s.Def? && ParamRecords(s.function_, v))
  {
    hide IsStoredInto, NamesAt;
  }

  lemma ReadIff(p: Program, r: PendingRead)
    ensures Read(r) in LogOf(p) <==> exists s, o, x, again :: IsRead(p, s, o, x, again, r)
  {
    var v := Read(r);
    RecordedIff(p, v);
    hide LogOf, StandsIn, StmtRecords, EvaluatesIn, NodeOf;
    if v in LogOf(p) {
      var s, o :| StandsIn(s, o, p) && StmtRecords(s, o, v);
      StmtRecordsIff(s, o, v);
      NoCallElsewhere(s, o, v);
      var x, again :| EvaluatesIn(s, x, again) && Records(x, o, again, v);
      assert IsRead(p, s, o, x, again, r);
    }
    if s, o, x, again :| IsRead(p, s, o, x, again, r) {
      assert Records(x, o, again, v);
      StmtRecordsIff(s, o, v);
      assert ExprRecords(s, o, v);
    }
  }

  ghost predicate IsRead(p: Program, s: Stmt, o: nat, x: Expr, again: bool, r: PendingRead) {
    StandsIn(s, o, p) && EvaluatesIn(s, x, again) && x.Name? && r == PendingRead(NodeOf(x.id, UseRole, again), o, x.name)
  }

  /** A name in a target is given what the statement stores. */
  ghost predicate GivesName(s: Stmt, u: Expr, id: nat, y: string, l: Link)
    requires Stores(s)
  {
    && IsStoredInto(u, s.target) && NamesAt(u, id, y) && IsValue(s, l.from)
    && l == Link(l.from, NodeOf(id, DefinitionRole, s.AugAssign?), Resolved)
  }

  /** A statement hands a value on by itself: in an expression it evaluates, into a name of its target, or
      out of its function. */
  ghost predicate LinksItself(s: Stmt, l: Link) {
    || (exists x, again :: EvaluatesIn(s, x, again) && Hands(x, again, l))
    || (Stores(s) && exists u, id, y :: GivesName(s, u, id, y, l))
    || (s.Give? && IsValue(s, l.from) && l == Link(l.from, NodeOf(s.id, ReturnRole, false), Resolved))
  }

  /** So does a name in scope `o` that is defined elsewhere, and a call of package functions. */
  ghost predicate StmtHands(p: Program, s: Stmt, o: nat, l: Link)
    requires Climbs(p.scopeOf)
  {
    || LinksItself(s, l)
    || exists x, again :: EvaluatesIn(s, x, again) && (ReadsFrom(p, o, x, again, l) || CallHands(p, x, again, l))
  }

  lemma LinksIff(s: Stmt, o: nat, l: Link)
    ensures StmtRecords(s, o, Linked(l)) <==> LinksItself(s, l)
  {
    var v := Linked(l);
    StmtRecordsIff(s, o, v);
    hide StmtRecords, EvaluatesIn, IsStoredInto, NamesAt, IsValue, Hands, NodeOf;
    if ExprRecords(s, o, v) {
      var x, again :| EvaluatesIn(s, x, again) && Records(x, o, again, v);
    }
    if x, again :| EvaluatesIn(s, x, again) && Hands(x, again, l) {
      assert Records(x, o, again, v);
    }
    if NameRecords(s, o, v) {
      var u, id, y :| IsStoredInto(u, s.target) && NamesAt(u, id, y) && NameHolds(s, id, y, o, v);
      assert GivesName(s, u, id, y, l);
    }
    if Stores(s) {
      if u, id, y :| GivesName(s, u, id, y, l) {
        assert NameHolds(s, id, y, o, v);
      }
    }
  }

  lemma RecordedLinkIff(p: Program, l: Link)
    ensures l in LinksOf(LogOf(p)) <==> exists s, o :: StandsIn(s, o, p) && LinksItself(s, l)
  {
    RecordedIff(p, Linked(l));
    hide LogOf, StandsIn, StmtRecords, LinksItself;
    if l in LinksOf(LogOf(p)) {
      var s, o :| StandsIn(s, o, p) && StmtRecords(s, o, Linked(l));
      LinksIff(s, o, l);
    }
    if s, o :| StandsIn(s, o, p) && LinksItself(s, l) {
      LinksIff(s, o, l);
    }
  }

  lemma ReadLinkIff(p: Program, l: Link)
    requires Climbs(p.scopeOf)
    ensures l in AllReadLinks(DefsOf(LogOf(p)), p.scopeOf, ReadsOf(LogOf(p))) <==>
      exists s, o, x, again :: StandsIn(s, o, p) && EvaluatesIn(s, x, again) && ReadsFrom(p, o, x, again, l)
  {
    hide LogOf, StandsIn, EvaluatesIn, NodeOf, ReadLinks, ReadsFrom;
    var defs, rs := DefsOf(LogOf(p)), ReadsOf(LogOf(p));
    if l in AllReadLinks(defs, p.scopeOf, rs) {
      var r :| r in rs && l in ReadLinks(defs, p.scopeOf, r);
      ReadIff(p, r);
      var s, o, x, again :| IsRead(p, s, o, x, again, r);
      OneReadIff(p, o, x, again, l);
    }
    if s, o, x, again :| StandsIn(s, o, p) && EvaluatesIn(s, x, again) && ReadsFrom(p, o, x, again, l) {
      NameIsRead(p, o, x, again, l);
      var r := PendingRead(NodeOf(x.id, UseRole, again), o, x.name);
      assert IsRead(p, s, o, x, again, r);
      ReadIff(p, r);
      OneReadIff(p, o, x, again, l);
      assert r in rs;
    }
  }

  lemma NameIsRead(p: Program, o: nat, x: Expr, again: bool, l: Link)
    requires Climbs(p.scopeOf) && ReadsFrom(p, o, x, again, l)
    ensures x.Name?
  {
  }

  lemma OneReadIff(p: Program, o: nat, x: Expr, again: bool, l: Link)
    requires Climbs(p.scopeOf) && x.Name?
    ensures l in ReadLinks(DefsOf(LogOf(p)), p.scopeOf, PendingRead(NodeOf(x.id, UseRole, again), o, x.name)) <==> ReadsFrom(p, o, x, again, l)
  {
    var keys := DefsOf(LogOf(p)).Keys;
    hide LogOf, NodeOf, Nearest, IsDefinition, IsFirstOutwards;
    var found := Nearest(keys, p.scopeOf, o, x.name);
    if found.Some? {
      NearestIff(p, o, x.name, found.value);
      DefinedIff(p, found.value, x.name, l.from);
    }
    if s :| IsFirstOutwards(p, o, x.name, s) && IsDefinition(p, s, x.name, l.from) {
      NearestIff(p, o, x.name, s);
    }
  }

  lemma CallLinkIff(p: Program, l: Link)
    requires NamedApart(p)
    ensures l in HubWiring.AllDirect(DefinitionsOf(p), CallsOf(LogOf(p))) <==>
      exists s, o, x, again :: StandsIn(s, o, p) && EvaluatesIn(s, x, again) && CallHands(p, x, again, l)
  {
    hide LogOf, StandsIn, EvaluatesIn, DefinitionsOf, NamedApart, DirectLink, Pending;
    var defs, cs := DefinitionsOf(p), CallsOf(LogOf(p));
    if l in HubWiring.AllDirect(defs, cs) {
      var c :| c in cs && DirectLink(defs, c, l);
      CalledIff(p, c);
      var s, o, x, again :| IsPending(p, s, o, x, again, c);
      OneCallIff(p, x, again, l);
    }
    if s, o, x, again :| StandsIn(s, o, p) && EvaluatesIn(s, x, again) && CallHands(p, x, again, l) {
      hide TargetHands;
      var t :| t in x.targets && TargetHands(p, x, again, t, l);
      IsPackage(p, x, again, t, l);
      var c := Pending(x.id, x.callee, x.args, x.targets, again);
      assert IsPending(p, s, o, x, again, c);
      CalledIff(p, c);
      OneCallIff(p, x, again, l);
      assert c in cs;
    }
  }

  lemma IsPackage(p: Program, x: Expr, again: bool, t: CallTarget, l: Link)
    requires x.Call? && TargetHands(p, x, again, t, l)
    ensures t.Package?
  {
  }

  lemma OneCallIff(p: Program, x: Expr, again: bool, l: Link)
    requires NamedApart(p) && x.Call?
    ensures DirectLink(DefinitionsOf(p), Pending(x.id, x.callee, x.args, x.targets, again), l) <==> CallHands(p, x, again, l)
  {
    var c, defs := Pending(x.id, x.callee, x.args, x.targets, again), DefinitionsOf(p);
    assert c.targets == PackageTargets(x.targets);
    hide Pending, DefinitionsOf, NamedApart, Binds, GoesIn, IsReturned, NodeOf, PackageTargets;
    if DirectLink(defs, c, l) {
      var t :| t in c.targets && l.confidence == t.confidence && Binds(defs, c, t, l.from, l.to);
      PackageIff(x.targets, t.callee, t.confidence);
      var u :| u in x.targets && u.Package? && u.symbol == t.callee && u.confidence == t.confidence;
      BindsIff(p, x, again, t, l.from, l.to);
      assert TargetHands(p, x, again, u, l);
    }
    if CallHands(p, x, again, l) {
      var u :| u in x.targets && TargetHands(p, x, again, u, l);
      PackageIff(x.targets, u.symbol, u.confidence);
      BindsIff(p, x, again, Target(u.symbol, u.confidence), l.from, l.to);
      assert Target(u.symbol, u.confidence) in c.targets;
    }
  }

  /** Of every program: the graph, calls wired directly, has a link exactly when some statement of the
      program hands a value on along it. */
  lemma LinkedIff(p: Program, l: Link)
    requires Climbs(p.scopeOf) && NamedApart(p)
    ensures l in DirectLinksOf(p) <==> exists s, o :: StandsIn(s, o, p) && StmtHands(p, s, o, l)
  {
    hide *;
    RecordedLinkIff(p, l);
    ReadLinkIff(p, l);
    CallLinkIff(p, l);
    DirectIs(p, l);
    HandsIff(p, l);
  }

  lemma DirectIs(p: Program, l: Link)
    requires Climbs(p.scopeOf)
    ensures l in DirectLinksOf(p) <==>
      || l in LinksOf(LogOf(p)) || l in AllReadLinks(DefsOf(LogOf(p)), p.scopeOf, ReadsOf(LogOf(p)))
      || l in HubWiring.AllDirect(DefinitionsOf(p), CallsOf(LogOf(p)))
  {
    hide LogOf, AllReadLinks, HubWiring.AllDirect, LinksOf, DefinitionsOf;
  }

  lemma HandsIff(p: Program, l: Link)
    requires Climbs(p.scopeOf)
    ensures (exists s, o :: StandsIn(s, o, p) && StmtHands(p, s, o, l)) <==>
      || (exists s, o :: StandsIn(s, o, p) && LinksItself(s, l))
      || (exists s, o, x, again :: StandsIn(s, o, p) && EvaluatesIn(s, x, again) && ReadsFrom(p, o, x, again, l))
      || (exists s, o, x, again :: StandsIn(s, o, p) && EvaluatesIn(s, x, again) && CallHands(p, x, again, l))
  {
    hide StandsIn, EvaluatesIn, ReadsFrom, CallHands, LinksItself;
    if s, o :| StandsIn(s, o, p) && LinksItself(s, l) {
      assert StmtHands(p, s, o, l);
    }
    if s, o, x, again :| StandsIn(s, o, p) && EvaluatesIn(s, x, again) && ReadsFrom(p, o, x, again, l) {
      assert StmtHands(p, s, o, l);
    }
    if s, o, x, again :| StandsIn(s, o, p) && EvaluatesIn(s, x, again) && CallHands(p, x, again, l) {
      assert StmtHands(p, s, o, l);
    }
  }

  // ---- what leads nowhere ----

  /** No other expression of the program is at the syntax node of `x`. */
  ghost predicate OwnPlace(p: Program, x: Expr)
    requires x.Subscript? || x.Attribute?
  {
    forall s, o, y, again :: StandsIn(s, o, p) && EvaluatesIn(s, y, again) && (y.Subscript? || y.Attribute? || y.Name?) && y.id == x.id ==> y == x
  }

  /** Into a subscript's or an attribute's node leads what it selects from, and nothing else: no index, and
      nothing that is only compared. */
  lemma SelectedOnly(p: Program, x: Expr, again: bool, l: Link)
    requires Climbs(p.scopeOf) && NamedApart(p) && (x.Subscript? || x.Attribute?) && OwnPlace(p, x)
    requires l in DirectLinksOf(p) && l.to == NodeOf(x.id, UseRole, again)
    ensures l.confidence == Resolved && Carries(if x.Subscript? then x.value else x.base, again, l.from)
  {
    LinkedIff(p, l);
    hide DirectLinksOf, StandsIn, EvaluatesIn, NamedApart, Carries, ReadsFrom, CallHands, Hands, NodeOf, GivesName, Climbs, IsValue, OwnPlace;
    var s, o :| StandsIn(s, o, p) && StmtHands(p, s, o, l);
    forall y, w | EvaluatesIn(s, y, w) ensures !ReadsFrom(p, o, y, w, l) && !CallHands(p, y, w, l) {
      OtherNodes(p, s, o, y, w, x, again, l);
    }
    TargetNodes(s, x, again, l);
    var y, w :| EvaluatesIn(s, y, w) && Hands(y, w, l);
    OwnNode(y, w, x, again, l);
    OnlyOne(p, s, o, y, w, x);
  }

  lemma OwnNode(y: Expr, w: bool, x: Expr, again: bool, l: Link)
    requires (x.Subscript? || x.Attribute?) && Hands(y, w, l) && l.to == NodeOf(x.id, UseRole, again)
    ensures (y.Subscript? || y.Attribute?) && y.id == x.id && l.confidence == Resolved
    ensures Carries(if y.Subscript? then y.value else y.base, again, l.from)
  {
    hide Carries, NodeOf, IsActual, IsFirst;
    match y
    case Attribute(id, _) => NodesApart(id, UseRole, w, x.id, UseRole, again);
    case Subscript(id, _, _) => NodesApart(id, UseRole, w, x.id, UseRole, again);
    case Call(id, callee, args, ts) =>
      var t :| t in ts && HandsOut(id, callee, args, t, w, l.from, l.to);
      RolesDiffer(if t.preserving then id else t.id, if t.preserving then ResultRole else if l.to == NodeOf(t.id, ForeignRole, w) then ForeignRole else FirstRole, w, x.id, UseRole, again);
  }

  lemma RolesDiffer(id: nat, role: Role, w: bool, id': nat, role': Role, again: bool)
    requires role != role'
    ensures NodeOf(id, role, w) != NodeOf(id', role', again)
  {
    if NodeOf(id, role, w) == NodeOf(id', role', again) {
      NodesApart(id, role, w, id', role', again);
    }
  }

  lemma OtherNodes(p: Program, s: Stmt, o: nat, y: Expr, w: bool, x: Expr, again: bool, l: Link)
    requires Climbs(p.scopeOf) && (x.Subscript? || x.Attribute?) && OwnPlace(p, x) && StandsIn(s, o, p) && EvaluatesIn(s, y, w)
    requires l.to == NodeOf(x.id, UseRole, again)
    ensures !ReadsFrom(p, o, y, w, l) && !CallHands(p, y, w, l)
  {
    hide StandsIn, EvaluatesIn, NodeOf, IsFirstOutwards, IsDefinition, IsReturned, FunctionsOf, Carries, IsReceiver, IsWired, HasReceiver, Counts;
    if ReadsFrom(p, o, y, w, l) {
      NodesApart(y.id, UseRole, w, x.id, UseRole, again);
    }
    if y.Call? {
      RolesDiffer(y.id, ResultRole, w, x.id, UseRole, again);
      forall t | t in y.targets ensures !TargetHands(p, y, w, t, l) {
        if t.Package? && GoesIn(p, y, w, t.symbol, l.from, l.to) {
          var q := LandsAt(p, y, w, t.symbol, l.from, l.to);
          RolesDiffer(q, ParameterRole, false, x.id, UseRole, again);
        }
      }
    }
  }

  lemma LandsAt(p: Program, x: Expr, again: bool, symbol: nat, from: nat, to: nat) returns (id: nat)
    requires x.Call? && GoesIn(p, x, again, symbol, from, to)
    ensures to == NodeOf(id, ParameterRole, false)
  {
    hide NodeOf, FunctionsOf, Carries, IsReceiver, IsWired, HasReceiver, Counts;
    var f :| f in FunctionsOf(p.modules) && f.symbol == symbol && Lands(x, again, f, from, to);
    if f.params != [] && to == NodeOf(f.params[0].id, ParameterRole, false) {
      id := f.params[0].id;
    } else {
      var k :| 0 <= k < |f.params| && to == NodeOf(f.params[k].id, ParameterRole, false);
      id := f.params[k].id;
    }
  }

  lemma TargetNodes(s: Stmt, x: Expr, again: bool, l: Link)
    requires (x.Subscript? || x.Attribute?) && l.to == NodeOf(x.id, UseRole, again)
    ensures Stores(s) ==> forall u, id, y :: !GivesName(s, u, id, y, l)
    ensures s.Give? ==> l != Link(l.from, NodeOf(s.id, ReturnRole, false), Resolved)
  {
    hide NodeOf, IsStoredInto, NamesAt, IsValue;
    if Stores(s) {
      forall u, id, y ensures !GivesName(s, u, id, y, l) {
        RolesDiffer(id, DefinitionRole, s.AugAssign?, x.id, UseRole, again);
      }
    }
    if s.Give? {
      RolesDiffer(s.id, ReturnRole, false, x.id, UseRole, again);
    }
  }

  lemma OnlyOne(p: Program, s: Stmt, o: nat, y: Expr, w: bool, x: Expr)
    requires (x.Subscript? || x.Attribute?) && OwnPlace(p, x) && StandsIn(s, o, p) && EvaluatesIn(s, y, w)
    requires (y.Subscript? || y.Attribute?) && y.id == x.id
    ensures y == x
  {
    hide StandsIn, EvaluatesIn;
  }

  /** No other call of the program is at the syntax node of `x`. */
  ghost predicate OwnCall(p: Program, x: Expr)
    requires x.Call?
  {
    forall s, o, y, again :: StandsIn(s, o, p) && EvaluatesIn(s, y, again) && y.Call? && y.id == x.id ==> y == x
  }

  /** A value comes out of the call at `l.from`: through an external callee that preserves its actuals, or
      returned by a package callee. */
  ghost predicate ComesOut(p: Program, x: Expr, again: bool, t: CallTarget, n: nat)
    requires x.Call?
  {
    || (t.Foreign? && t.preserving && IsActual(x.callee, x.args, again, n))
    || (t.Package? && IsReturned(p, t.symbol, n))
  }

  /** Into a call's value leads what comes out of one of its callees, at the confidence of that callee, and
      nothing else: nothing through an external callee that is not preserving. */
  lemma ResultOnly(p: Program, x: Expr, again: bool, l: Link)
    requires Climbs(p.scopeOf) && NamedApart(p) && x.Call? && OwnCall(p, x)
    requires l in DirectLinksOf(p) && l.to == NodeOf(x.id, ResultRole, again)
    ensures exists t :: t in x.targets && l.confidence == t.confidence && ComesOut(p, x, again, t, l.from)
  {
    LinkedIff(p, l);
    hide DirectLinksOf, StandsIn, EvaluatesIn, NamedApart, ReadsFrom, CallHands, Hands, NodeOf, GivesName, Climbs, IsValue, OwnCall, ComesOut;
    var s, o :| StandsIn(s, o, p) && StmtHands(p, s, o, l);
    ResultTargets(s, x, again, l);
    if y, w :| EvaluatesIn(s, y, w) && Hands(y, w, l) {
      OutOfForeign(p, s, o, y, w, x, again, l);
    } else {
      var y, w :| EvaluatesIn(s, y, w) && (ReadsFrom(p, o, y, w, l) || CallHands(p, y, w, l));
      OutOfPackage(p, s, o, y, w, x, again, l);
    }
  }

  lemma ResultTargets(s: Stmt, x: Expr, again: bool, l: Link)
    requires x.Call? && l.to == NodeOf(x.id, ResultRole, again)
    ensures Stores(s) ==> forall u, id, y :: !GivesName(s, u, id, y, l)
    ensures s.Give? ==> l != Link(l.from, NodeOf(s.id, ReturnRole, false), Resolved)
  {
    hide NodeOf, IsStoredInto, NamesAt, IsValue;
    if Stores(s) {
      forall u, id, y ensures !GivesName(s, u, id, y, l) {
        RolesDiffer(id, DefinitionRole, s.AugAssign?, x.id, ResultRole, again);
      }
    }
    if s.Give? {
      RolesDiffer(s.id, ReturnRole, false, x.id, ResultRole, again);
    }
  }

  lemma SameCall(p: Program, s: Stmt, o: nat, y: Expr, w: bool, x: Expr, again: bool)
    requires x.Call? && OwnCall(p, x) && StandsIn(s, o, p) && EvaluatesIn(s, y, w)
    requires y.Call? && NodeOf(y.id, ResultRole, w) == NodeOf(x.id, ResultRole, again)
    ensures y == x && w == again
  {
    NodesApart(y.id, ResultRole, w, x.id, ResultRole, again);
    hide StandsIn, EvaluatesIn, NodeOf;
  }

  lemma OutOfForeign(p: Program, s: Stmt, o: nat, y: Expr, w: bool, x: Expr, again: bool, l: Link)
    requires x.Call? && OwnCall(p, x) && StandsIn(s, o, p) && EvaluatesIn(s, y, w)
    requires Hands(y, w, l) && l.to == NodeOf(x.id, ResultRole, again)
    ensures exists t :: t in x.targets && l.confidence == t.confidence && ComesOut(p, x, again, t, l.from)
  {
    hide Carries, NodeOf, IsActual, IsFirst, StandsIn, EvaluatesIn, OwnCall, IsReturned;
    match y
    case Attribute(id, _) => RolesDiffer(id, UseRole, w, x.id, ResultRole, again);
    case Subscript(id, _, _) => RolesDiffer(id, UseRole, w, x.id, ResultRole, again);
    case Call(id, callee, args, ts) =>
      var t :| t in ts && HandsOut(id, callee, args, t, w, l.from, l.to) && l.confidence == t.confidence;
      if t.preserving {
        SameCall(p, s, o, y, w, x, again);
        assert ComesOut(p, x, again, t, l.from);
      } else {
        RolesDiffer(t.id, if l.to == NodeOf(t.id, ForeignRole, w) then ForeignRole else FirstRole, w, x.id, ResultRole, again);
      }
  }

  lemma OutOfPackage(p: Program, s: Stmt, o: nat, y: Expr, w: bool, x: Expr, again: bool, l: Link)
    requires Climbs(p.scopeOf) && x.Call? && OwnCall(p, x) && StandsIn(s, o, p) && EvaluatesIn(s, y, w)
    requires (ReadsFrom(p, o, y, w, l) || CallHands(p, y, w, l)) && l.to == NodeOf(x.id, ResultRole, again)
    ensures exists t :: t in x.targets && l.confidence == t.confidence && ComesOut(p, x, again, t, l.from)
  {
    hide StandsIn, EvaluatesIn, NodeOf, IsFirstOutwards, IsDefinition, IsReturned, GoesIn, IsActual, OwnCall;
    if ReadsFrom(p, o, y, w, l) {
      RolesDiffer(y.id, UseRole, w, x.id, ResultRole, again);
    }
    var t :| t in y.targets && TargetHands(p, y, w, t, l);
    if GoesIn(p, y, w, t.symbol, l.from, l.to) {
      var q := LandsAt(p, y, w, t.symbol, l.from, l.to);
      RolesDiffer(q, ParameterRole, false, x.id, ResultRole, again);
    }
    SameCall(p, s, o, y, w, x, again);
    assert ComesOut(p, x, again, t, l.from);
  }

  // ---- paths ----

  /** Some statement hands a value on from `a` to `b`, at confidence `floor` or more. */
  ghost predicate HandsOn(p: Program, floor: nat, a: nat, b: nat)
    requires Climbs(p.scopeOf)
  {
    exists s, o, c :: StandsIn(s, o, p) && StmtHands(p, s, o, Link(a, b, c)) && c.Rank() >= floor
  }

  ghost predicate HandedAlong(p: Program, floor: nat, path: seq<nat>)
    requires Climbs(p.scopeOf)
  {
    |path| > 0 && forall k :: 0 <= k < |path| - 1 ==> HandsOn(p, floor, path[k], path[k + 1])
  }

  lemma RelatedIff(p: Program, floor: nat, a: nat, b: nat)
    requires Climbs(p.scopeOf) && NamedApart(p)
    ensures (a, b) in HubTheorem.AtLeast(DirectLinksOf(p), floor) <==> HandsOn(p, floor, a, b)
  {
    hide DirectLinksOf, StandsIn, StmtHands, NamedApart, Climbs;
    if l :| l in DirectLinksOf(p) && l.confidence.Rank() >= floor && l.from == a && l.to == b {
      LinkedIff(p, l);
      var s, o :| StandsIn(s, o, p) && StmtHands(p, s, o, l);
      assert l == Link(a, b, l.confidence);
    }
    if s, o, c :| StandsIn(s, o, p) && StmtHands(p, s, o, Link(a, b, c)) && c.Rank() >= floor {
      LinkedIff(p, Link(a, b, c));
      assert Link(a, b, c) in DirectLinksOf(p);
    }
  }

  lemma NamesAreOne(p: Program, callee: nat, name: string)
    requires NamedApart(p)
    ensures NamesOne(DefinitionsOf(p), callee, name)
  {
    var fs := FunctionsOf(p.modules);
    hide FunctionsOf, DefinitionsOf, Definitions.ParamsOf, ParamList;
    if f :| f in fs && f.symbol == callee {
      OwnParams(p, f);
      var ps := DefinitionsOf(p).ParamsOf(callee);
      assert DistinctNames(f.params) && forall k :: 0 <= k < |ps| ==> ps[k].name == f.params[k].name;
    } else {
      NoneCalled(p, callee);
    }
  }

  lemma KeywordsAreOne(p: Program, w: HubTheorem.Wiring)
    requires Climbs(p.scopeOf) && NamedApart(p) && IsGraphOf(p, w)
    ensures HubTheorem.KeywordsNameOne(w)
  {
    hide NamedApart, DefinitionsOf, BaseLinks, LogOf, HubTheorem.Wiring.Valid, NamesOne, SlotsOf, PendingCall.Wide;
    forall c, t, k | c in w.calls && t in c.targets && HubTheorem.Passes(c, k) ensures NamesOne(w.defs, t.callee, SlotsOf(c)[k].0.name) {
      NamesAreOne(p, t.callee, SlotsOf(c)[k].0.name);
    }
  }

  /** Of the graph as it is built, at every confidence: it has a path between two nodes of the program
      exactly when a value is handed on from one to the other, statement by statement. */
  lemma PathIff(p: Program, w: HubTheorem.Wiring, floor: nat, a: nat, b: nat)
    requires Climbs(p.scopeOf) && NamedApart(p) && IsGraphOf(p, w) && a < w.n0 && b < w.n0
    ensures Reach(HubTheorem.AtLeast(w.links, floor), a, b) <==>
      exists path :: HandedAlong(p, floor, path) && path[0] == a && path[|path| - 1] == b
  {
    KeywordsAreOne(p, w);
    SameDirect(p, w);
    HubTheorem.HubsKeepReachability(w, floor, a, b);
    var R := HubTheorem.AtLeast(DirectLinksOf(p), floor);
    hide HubTheorem.AtLeast, DirectLinksOf, HandsOn, NamedApart, Climbs, IsGraphOf, HubTheorem.KeywordsNameOne, HubTheorem.Wiring.Valid, HubTheorem.Wiring.Direct;
    forall u: nat, v: nat ensures (u, v) in R <==> HandsOn(p, floor, u, v) {
      RelatedIff(p, floor, u, v);
    }
    if Reach(R, a, b) {
      var path :| WalkFrom(R, a, b, path);
      assert HandedAlong(p, floor, path);
    }
    if path :| HandedAlong(p, floor, path) && path[0] == a && path[|path| - 1] == b {
      assert WalkFrom(R, a, b, path);
    }
  }
}
