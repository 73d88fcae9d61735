/** Passing actuals: what a run binds a parameter to is carried by nodes wired to that parameter. */
module FlowActuals {
  import opened Options
  import opened Walks
  import opened Evidence
  import opened Calls
  import opened Hubs
  import opened FlowSyntax
  import opened FlowWalker
  import opened FlowGraph
  import opened FlowRuns
  import opened FlowFits
  import opened FlowRecord
  import opened FlowCarried

  // ---- where each actual sits in a pending call ----

  lemma {:induction false} PositionalAt(args: seq<Arg>, i: nat, again: bool)
    requires i < |args| && args[i].ByPosition?
    ensures Positionals(args[..i]) < |PositionalValues(args, again)|
    ensures PositionalValues(args, again)[Positionals(args[..i])] == Values(args[i].value, again)
  {
    hide Values;
    PositionalCount(args[..|args| - 1], again);
    if i < |args| - 1 {
      assert args[..|args| - 1][..i] == args[..i];
      PositionalAt(args[..|args| - 1], i, again);
    }
  }

  lemma {:induction false} PositionalCount(args: seq<Arg>, again: bool)
    ensures |PositionalValues(args, again)| == Positionals(args)
  {
    hide Values;
    if args != [] {
      PositionalCount(args[..|args| - 1], again);
    }
  }

  lemma {:induction false} KeywordAt(args: seq<Arg>, i: nat, again: bool) returns (j: nat)
    requires i < |args| && args[i].ByName?
    ensures j < |KeywordValues(args, again)| && KeywordValues(args, again)[j] == (args[i].name, Values(args[i].value, again))
  {
    hide Values;
    if i < |args| - 1 {
      j := KeywordAt(args[..|args| - 1], i, again);
    } else {
      j := |KeywordValues(args[..|args| - 1], again)|;
    }
  }

  lemma {:induction false} SpreadAt(args: seq<Arg>, i: nat, again: bool) returns (j: nat)
    requires i < |args| && args[i].Spread?
    ensures j < |SpreadValues(args, again)| && SpreadValues(args, again)[j] == Values(args[i].value, again)
  {
    hide Values;
    if i < |args| - 1 {
      j := SpreadAt(args[..|args| - 1], i, again);
    } else {
      j := |SpreadValues(args[..|args| - 1], again)|;
    }
  }

  /** The slot an actual fills. */
  function SlotFor(args: seq<Arg>, i: nat): Slot
    requires i < |args|
  {
    match args[i]
    case ByPosition(_) => Slot.Positional(Positionals(args[..i]))
    case ByName(_, x, _) => Slot.Keyword(x)
    case Spread(_) => Slot.Splat
  }

  /** Some slot `slot` of the call is filled with `values`. */
  ghost predicate Fills(c: PendingCall, slot: Slot, values: seq<nat>) {
    exists j :: 0 <= j < |SlotsOf(c)| && SlotsOf(c)[j] == (slot, values)
  }

  lemma ReceiverFills(c: PendingCall)
    requires c.receiver != []
    ensures Fills(c, Slot.Receiver, c.receiver)
  {
    hide PositionalSlots, KeywordSlots, SplatSlots;
    assert SlotsOf(c)[0] == (Slot.Receiver, c.receiver);
  }

  lemma PositionalFills(c: PendingCall, j: nat)
    requires j < |c.positional|
    ensures Fills(c, Slot.Positional(j), c.positional[j])
  {
    var r := if c.receiver != [] then [(Slot.Receiver, c.receiver)] else [];
    var ps := PositionalSlots(c.positional);
    hide PositionalSlots, KeywordSlots, SplatSlots;
    assert SlotsOf(c)[|r| + j] == ps[j];
  }

  lemma KeywordFills(c: PendingCall, j: nat)
    requires j < |c.keyword|
    ensures Fills(c, Slot.Keyword(c.keyword[j].0), c.keyword[j].1)
  {
    var r := if c.receiver != [] then [(Slot.Receiver, c.receiver)] else [];
    var ps, ks := PositionalSlots(c.positional), KeywordSlots(c.keyword);
    hide PositionalSlots, KeywordSlots, SplatSlots;
    assert SlotsOf(c)[|r| + |ps| + j] == ks[j];
  }

  lemma SpreadFills(c: PendingCall, j: nat)
    requires j < |c.splat|
    ensures Fills(c, Slot.Splat, c.splat[j])
  {
    var r := if c.receiver != [] then [(Slot.Receiver, c.receiver)] else [];
    var ps, ks, ss := PositionalSlots(c.positional), KeywordSlots(c.keyword), SplatSlots(c.splat);
    hide PositionalSlots, KeywordSlots, SplatSlots;
    assert SlotsOf(c)[|r| + |ps| + |ks| + j] == ss[j];
  }

  /** Every actual fills its slot of the pending call. */
  lemma ArgFills(id: nat, callee: Callee, args: seq<Arg>, ts: seq<CallTarget>, i: nat, again: bool)
    requires i < |args|
    ensures Fills(Pending(id, callee, args, ts, again), SlotFor(args, i), Values(args[i].value, again))
  {
    var c := Pending(id, callee, args, ts, again);
    hide Values, Fills, SlotsOf;
    match args[i]
    case ByPosition(_) =>
      PositionalAt(args, i, again);
      PositionalFills(c, Positionals(args[..i]));
    case ByName(_, _, _) =>
      var j := KeywordAt(args, i, again);
      KeywordFills(c, j);
    case Spread(_) =>
      var j := SpreadAt(args, i, again);
      SpreadFills(c, j);
  }

  // ---- which parameter an actual reaches ----

  lemma {:induction false} IntoFrom(ps: seq<Formal>, args: seq<Arg>, vs: seq<Trail>, k: nat, offset: nat, m: nat, n: nat)
    requires |args| == |vs| && k < |ps| && m <= |args| && n in Into(ps, args, vs, k, offset, m)
    ensures exists i: nat :: i < m && n in vs[i] && MayBind(ps, args, i, k, offset)
  {
    hide MayBind;
    if n in Into(ps, args, vs, k, offset, m - 1) {
      IntoFrom(ps, args, vs, k, offset, m - 1, n);
    } else {
      assert n in vs[m - 1] && MayBind(ps, args, m - 1, k, offset);
    }
  }

  lemma {:induction false} FirstNamedAt(ps: seq<Param>, k: nat)
    requires k < |ps| && forall i, j :: 0 <= i < j < |ps| ==> ps[i].name != ps[j].name
    ensures FirstNamed(ps, ps[k].name) == [ps[k].node]
  {
    if k > 0 {
      FirstNamedAt(ps[1..], k - 1);
    }
  }

  lemma NodesHas(ps: seq<Param>, offset: nat, k: nat)
    requires offset <= k < |ps|
    ensures ps[k].node in Nodes(Skip(ps, offset))
  {
    assert ps[offset..][k - offset] == ps[k];
    assert Nodes(Skip(ps, offset))[k - offset] == ps[k].node;
  }

  /** Parameters of a function have nodes of their own. */
  predicate OwnNodes(f: Function) {
    forall i, j :: 0 <= i < j < |f.params| ==> f.params[i].id != f.params[j].id
  }

  predicate DistinctNames(ps: seq<Formal>) {
    forall i, j :: 0 <= i < j < |ps| ==> ps[i].name != ps[j].name
  }

  /** By the walk's rule, parameter `k` is wired to actual `i`. */
  predicate IsWired(ps: seq<Formal>, args: seq<Arg>, i: nat, k: nat, offset: nat)
    requires i < |args| && k < |ps|
  {
    match args[i]
    case ByPosition(_) => offset + Positionals(args[..i]) == k
    case ByName(_, x, _) => ps[k].name == x
    case Spread(_) => k >= offset
  }

  /** Every actual is wired to each parameter the language may bind it to exactly when none is left
      over for a starred one. */
  lemma NoneLeftOverIff(ps: seq<Formal>, args: seq<Arg>, offset: nat)
    ensures NoneLeftOver(ps, args, offset)
            <==> forall i: nat, k: nat :: i < |args| && k < |ps| && MayBind(ps, args, i, k, offset) ==> IsWired(ps, args, i, k, offset)
  {
    forall i: nat, k: nat | i < |args| && k < |ps|
      ensures NotLeftOver(ps, args, i, k, offset) <==> (MayBind(ps, args, i, k, offset) ==> IsWired(ps, args, i, k, offset))
    {
      hide Positionals, AfterSpread, IsNamed;
    }
    hide NotLeftOver, MayBind, IsWired;
  }

  /** The wired formals of an actual's slot are those the walk's rule says. */
  lemma SlotFormalIff(defs: Definitions, f: Function, hasReceiver: bool, args: seq<Arg>, i: nat, k: nat)
    requires i < |args| && k < |f.params| && DistinctNames(f.params) && OwnNodes(f) && defs.ParamsOf(f.symbol) == ParamList(f.params)
    ensures NodeOf(f.params[k].id, ParameterRole, false) in WireFormals(defs, SlotFor(args, i), f.symbol, hasReceiver)
            <==> IsWired(f.params, args, i, k, defs.Offset(f.symbol, hasReceiver))
  {
    var ps, offset := defs.ParamsOf(f.symbol), defs.Offset(f.symbol, hasReceiver);
    forall j | 0 <= j < |ps| ensures ps[j].node == NodeOf(f.params[k].id, ParameterRole, false) <==> j == k {
      if ps[j].node == NodeOf(f.params[k].id, ParameterRole, false) && j != k {
        NodesApart(f.params[j].id, ParameterRole, false, f.params[k].id, ParameterRole, false);
      }
    }
    hide NodeOf, Positionals, ParamList, Definitions.ParamsOf, Definitions.Offset;
    match args[i]
    case ByPosition(_) =>
      var at := offset + Positionals(args[..i]);
      if at < |ps| {
        assert At(ps, at)[0] == ps[at].node;
      }
    case ByName(_, x, _) => FirstNamedIff(ps, x, k);
    case Spread(_) => SkippedIff(ps, offset, k);
  }

  lemma {:induction false} FirstNamedIff(ps: seq<Param>, x: string, k: nat)
    requires k < |ps| && (forall i, j :: 0 <= i < j < |ps| ==> ps[i].name != ps[j].name)
    requires forall j :: 0 <= j < |ps| ==> (ps[j].node == ps[k].node <==> j == k)
    ensures ps[k].node in FirstNamed(ps, x) <==> ps[k].name == x
  {
    if ps[0].name == x {
      assert [ps[0].node][0] == ps[0].node;
    } else if k > 0 {
      FirstNamedIff(ps[1..], x, k - 1);
    } else {
      OthersNamed(ps[1..], x, ps[0].node);
    }
  }

  lemma {:induction false} OthersNamed(ps: seq<Param>, x: string, n: nat)
    requires forall j :: 0 <= j < |ps| ==> ps[j].node != n
    ensures n !in FirstNamed(ps, x)
  {
    if ps != [] {
      OthersNamed(ps[1..], x, n);
    }
  }

  lemma SkippedIff(ps: seq<Param>, offset: nat, k: nat)
    requires k < |ps| && forall j :: 0 <= j < |ps| ==> (ps[j].node == ps[k].node <==> j == k)
    ensures ps[k].node in Nodes(Skip(ps, offset)) <==> k >= offset
  {
    if k >= offset {
      NodesHas(ps, offset, k);
    }
  }

  /** The wired formals of the slot include a parameter the walk's rule says. */
  lemma SlotFormal(defs: Definitions, f: Function, hasReceiver: bool, args: seq<Arg>, i: nat, k: nat)
    requires i < |args| && k < |f.params| && DistinctNames(f.params) && defs.ParamsOf(f.symbol) == ParamList(f.params)
    requires IsWired(f.params, args, i, k, defs.Offset(f.symbol, hasReceiver))
    ensures NodeOf(f.params[k].id, ParameterRole, false) in WireFormals(defs, SlotFor(args, i), f.symbol, hasReceiver)
  {
    var ps := defs.ParamsOf(f.symbol);
    hide NodeOf, Positionals, ParamList;
    match args[i]
    case ByPosition(_) => assert At(ps, k)[0] == ps[k].node;
    case ByName(_, _, _) => FirstNamedAt(ps, k); assert FirstNamed(ps, ps[k].name)[0] == ps[k].node;
    case Spread(_) => NodesHas(ps, defs.Offset(f.symbol, hasReceiver), k);
  }

  // ---- a call in a sound state ----

  /** Each actual's value is carried by the nodes of its expression. */
  ghost predicate ArgsCarried(R: set<(nat, nat)>, args: seq<Arg>, vs: seq<Trail>) {
    |args| == |vs| && forall i :: 0 <= i < |args| ==> Carried(R, vs[i], Values(args[i].value, false))
  }

  /** The offset the walk wires with is the run's exactly when the call lines up with the method. */
  lemma OffsetIff(p: Program, f: Function, entry: Entry, seen: bool)
    requires DistinctSymbols(FunctionsOf(p.modules)) && f in FunctionsOf(p.modules)
    ensures DefinitionsOf(p).Offset(f.symbol, seen) == OffsetOf(LeadOf(f, entry)) <==> LinesUp(f, entry, seen)
  {
    hide LogOf, BoundInModules, ModulesFit, Values, FunctionsOf;
    var fs := FunctionsOf(p.modules);
    forall g | g in fs && g.symbol == f.symbol ensures g == f {
      var i :| 0 <= i < |fs| && fs[i] == f;
      var j :| 0 <= j < |fs| && fs[j] == g;
    }
  }

  /** `n`, filled into a slot wired to `node`, gets there. */
  lemma Landed(k: Setting, c: PendingCall, t: Target, slot: Slot, values: seq<nat>, v: Trail, node: nat)
    requires k.Valid() && k.Recorded([Called(c)]) && t in c.targets && t.confidence.Rank() >= k.floor
    requires Fills(c, slot, values) && node in WireFormals(DefinitionsOf(k.p), slot, t.callee, c.receiver != [])
    requires Carried(k.R, v, values)
    ensures Carried(k.R, v + {node}, [node])
  {
    hide *;
    forall a: nat | a in values ensures (a, node) in k.R {
      OneLands(k, c, t, slot, values, a, node);
    }
    CarriedStep(k.R, v, values, node);
  }

  lemma OneLands(k: Setting, c: PendingCall, t: Target, slot: Slot, values: seq<nat>, a: nat, node: nat)
    requires k.Valid() && k.Recorded([Called(c)]) && t in c.targets && t.confidence.Rank() >= k.floor && a in values
    requires Fills(c, slot, values) && node in WireFormals(DefinitionsOf(k.p), slot, t.callee, c.receiver != [])
    ensures (a, node) in k.R
  {
    assert [Called(c)][0] == Called(c);
    hide LogOf, DefinitionsOf, WireFormals, SlotsOf, InFragment, Setting.Links, Setting.Reads;
    var j :| 0 <= j < |SlotsOf(c)| && SlotsOf(c)[j] == (slot, values);
    assert a in SlotsOf(c)[j].1;
    assert k.Lands(c, t, a, node);
  }

  ghost predicate CallCarried(k: Setting, e: Expr, receiver: Trail, vs: seq<Trail>)
    requires e.Call?
  {
    Carried(k.R, receiver, ReceiverValues(e.callee, false)) && ArgsCarried(k.R, e.args, vs)
  }

  /** The pending call of `e`, entering `f` at a confidence the run allows, in a way that lines up. */
  ghost predicate Enters(k: Setting, e: Expr, f: Function, t: Target, entry: Entry) {
    && e.Call? && LinesUp(f, entry, ReceiverValues(e.callee, false) != []) && f in FunctionsOf(k.p.modules)
    && NoneLeftOver(f.params, e.args, OffsetOf(LeadOf(f, entry)))
    && t in PackageTargets(e.targets) && t.callee == f.symbol && t.confidence.Rank() >= k.floor
    && k.Recorded([Called(Pending(e.id, e.callee, e.args, e.targets, false))])
  }

  /** What the run binds a parameter to is carried by the parameter's node. */
  lemma ParamCarried(k: Setting, e: Expr, f: Function, t: Target, entry: Entry, i: nat, receiver: Trail, vs: seq<Trail>)
    requires k.Valid() && Enters(k, e, f, t, entry) && CallCarried(k, e, receiver, vs) && i < |f.params|
    ensures Carried(k.R, ParamTrail(f, i, LeadOf(f, entry), receiver, e.args, vs), [NodeOf(f.params[i].id, ParameterRole, false)])
  {
    var node := NodeOf(f.params[i].id, ParameterRole, false);
    var lead := LeadOf(f, entry);
    hide LogOf, BoundInModules, FunctionsOf, Setting.Links, Setting.Reads, Setting.Wires, InFragment, Carried, Into, NodeOf, Pending, LinesUp, LeadOf,
         NoneLeftOver;
    CarriedItself(k.R, node, [node]);
    CarriedNothing(k.R, [node]);
    if i == 0 && lead.TheReceiver? {
      ReceiverLands(k, e, f, t, entry, receiver, vs);
      CarriedBoth(k.R, {node}, receiver + {node}, [node]);
      assert {node} + receiver == {node} + (receiver + {node});
    }
    var into := Into(f.params, e.args, vs, i, OffsetOf(lead), |e.args|);
    IntoCarried(k, e, f, t, entry, i, receiver, vs);
    CarriedBoth(k.R, {node} + if i == 0 && lead.TheReceiver? then receiver else {}, into, [node]);
  }

  lemma CarriedNothing(R: set<(nat, nat)>, ns: seq<nat>)
    ensures Carried(R, {}, ns)
  {
  }

  lemma ReceiverLands(k: Setting, e: Expr, f: Function, t: Target, entry: Entry, receiver: Trail, vs: seq<Trail>)
    requires k.Valid() && Enters(k, e, f, t, entry) && CallCarried(k, e, receiver, vs) && |f.params| > 0 && LeadOf(f, entry).TheReceiver?
    ensures Carried(k.R, receiver + {NodeOf(f.params[0].id, ParameterRole, false)}, [NodeOf(f.params[0].id, ParameterRole, false)])
  {
    var node := NodeOf(f.params[0].id, ParameterRole, false);
    var c := Pending(e.id, e.callee, e.args, e.targets, false);
    OwnParams(k.p, f);
    OffsetIff(k.p, f, entry, c.receiver != []);
    hide LogOf, BoundInModules, FunctionsOf, Setting.Links, Setting.Reads, Setting.Wires, InFragment, ParamList, ArgsCarried, NodeOf, DefinitionsOf;
    if c.receiver != [] {
      ReceiverFills(c);
      assert At(DefinitionsOf(k.p).ParamsOf(f.symbol), 0)[0] == node;
      hide Carried;
      Landed(k, c, t, Slot.Receiver, c.receiver, receiver, node);
    } else {
      CarriedByNothing(k.R, receiver);
      CarriedItself(k.R, node, [node]);
      assert receiver + {node} == {node};
    }
  }

  lemma IntoCarried(k: Setting, e: Expr, f: Function, t: Target, entry: Entry, i: nat, receiver: Trail, vs: seq<Trail>)
    requires k.Valid() && Enters(k, e, f, t, entry) && CallCarried(k, e, receiver, vs) && i < |f.params|
    ensures Carried(k.R, Into(f.params, e.args, vs, i, OffsetOf(LeadOf(f, entry)), |e.args|), [NodeOf(f.params[i].id, ParameterRole, false)])
  {
    var node, offset := NodeOf(f.params[i].id, ParameterRole, false), OffsetOf(LeadOf(f, entry));
    hide Setting.Valid, Enters, Into, NodeOf, CallCarried, ArgsCarried, OffsetOf, LeadOf, MayBind;
    assert |vs| == |e.args| by { CallLengths(k, e, receiver, vs); }
    forall n: nat | n in Into(f.params, e.args, vs, i, offset, |e.args|) ensures Arrives(k.R, n, [node]) {
      IntoFrom(f.params, e.args, vs, i, offset, |e.args|, n);
      var j: nat :| j < |e.args| && n in vs[j] && MayBind(f.params, e.args, j, i, offset);
      ArgLands(k, e, f, t, entry, i, j, receiver, vs);
      assert n in vs[j] + {node};
    }
  }

  lemma CallLengths(k: Setting, e: Expr, receiver: Trail, vs: seq<Trail>)
    requires e.Call? && CallCarried(k, e, receiver, vs)
    ensures |vs| == |e.args|
  {
  }

  lemma ArgLands(k: Setting, e: Expr, f: Function, t: Target, entry: Entry, i: nat, j: nat, receiver: Trail, vs: seq<Trail>)
    requires k.Valid() && Enters(k, e, f, t, entry) && CallCarried(k, e, receiver, vs) && i < |f.params| && j < |e.args|
    requires MayBind(f.params, e.args, j, i, OffsetOf(LeadOf(f, entry)))
    ensures Carried(k.R, vs[j] + {NodeOf(f.params[i].id, ParameterRole, false)}, [NodeOf(f.params[i].id, ParameterRole, false)])
  {
    var node := NodeOf(f.params[i].id, ParameterRole, false);
    var c := Pending(e.id, e.callee, e.args, e.targets, false);
    OwnParams(k.p, f);
    OffsetIff(k.p, f, entry, c.receiver != []);
    FunctionRecorded(k.p, f);
    ArgFills(e.id, e.callee, e.args, e.targets, j, false);
    hide LogOf, BoundInModules, FunctionsOf, Setting.Links, Setting.Reads, Setting.Wires, InFragment, ParamList, Carried, NodeOf, DefinitionsOf,
         MayBind, IsWired, NoneLeftOver, SlotFor, Fills, WireFormals, AllFit, OffsetOf, LinesUp, LeadOf, Within, ContextOf;
    NoneLeftOverIff(f.params, e.args, OffsetOf(LeadOf(f, entry)));
    SlotFormal(DefinitionsOf(k.p), f, c.receiver != [], e.args, j, i);
    Landed(k, c, t, SlotFor(e.args, j), Values(e.args[j].value, false), vs[j], node);
  }

  /** Parameters are recorded definitions of their names. */
  lemma ParamIsDefined(k: Setting, f: Function, i: nat)
    requires k.Valid() && f in FunctionsOf(k.p.modules) && i < |f.params|
    ensures NodeOf(f.params[i].id, ParameterRole, false) in k.DefNodes(f.symbol, f.params[i].name)
  {
    FunctionRecorded(k.p, f);
    ParamEventAt(f.symbol, f.params, i);
    hide LogOf, BoundInModules, FunctionsOf, Setting.Links, Setting.Reads, Setting.Wires, InFragment, AllVisited, ParamEvents, NodeOf, FunctionFits;
    var v := Defined(f.symbol, f.params[i].name, NodeOf(f.params[i].id, ParameterRole, false));
    assert v in FunctionVisited(f);
  }

  lemma {:induction false} ParamEventAt(symbol: nat, ps: seq<Formal>, i: nat)
    requires i < |ps|
    ensures Defined(symbol, ps[i].name, NodeOf(ps[i].id, ParameterRole, false)) in ParamEvents(symbol, ps)
  {
    hide NodeOf;
    if i < |ps| - 1 {
      ParamEventAt(symbol, ps[..|ps| - 1], i);
    } else {
      var v, w := Defined(symbol, ps[i].name, NodeOf(ps[i].id, ParameterRole, false)), HasParam(symbol, ps[i].name, NodeOf(ps[i].id, ParameterRole, false));
      assert [v, w][0] == v;
    }
  }

  /** The variables of the activation a call opens are carried. */
  lemma {:induction false} BindParamsSound(k: Setting, e: Expr, f: Function, t: Target, entry: Entry, n: nat, receiver: Trail, vs: seq<Trail>)
    requires k.Valid() && Enters(k, e, f, t, entry) && e.Call? && CallCarried(k, e, receiver, vs) && |vs| == |e.args| && n <= |f.params|
    requires f in FunctionsOf(k.p.modules)
    ensures VarsSound(k, f.symbol, BindParams(f, n, LeadOf(f, entry), receiver, e.args, vs))
  {
    hide *;
    if n > 0 {
      var x, node := f.params[n - 1].name, NodeOf(f.params[n - 1].id, ParameterRole, false);
      var v := ParamTrail(f, n - 1, LeadOf(f, entry), receiver, e.args, vs);
      BindParamsSound(k, e, f, t, entry, n - 1, receiver, vs);
      ParamCarried(k, e, f, t, entry, n - 1, receiver, vs);
      ParamIsDefined(k, f, n - 1);
      CarriedMore(k.R, v, [node], k.DefNodes(f.symbol, x));
      OneMoreVar(k, f.symbol, BindParams(f, n - 1, LeadOf(f, entry), receiver, e.args, vs), x, v);
      BindParamsNext(f, n, LeadOf(f, entry), receiver, e.args, vs);
    } else {
      NoVars(k, f, LeadOf(f, entry), receiver, e.args, vs);
    }
  }

  lemma NoVars(k: Setting, f: Function, lead: Lead, receiver: Trail, args: seq<Arg>, vs: seq<Trail>)
    requires |args| == |vs|
    ensures VarsSound(k, f.symbol, BindParams(f, 0, lead, receiver, args, vs)) && VarsSound(k, f.symbol, FromOutside(f, 0))
  {
    hide Carried, Setting.DefNodes;
  }

  lemma BindParamsNext(f: Function, n: nat, lead: Lead, receiver: Trail, args: seq<Arg>, vs: seq<Trail>)
    requires 0 < n <= |f.params| && |args| == |vs|
    ensures BindParams(f, n, lead, receiver, args, vs)
         == BindParams(f, n - 1, lead, receiver, args, vs)[f.params[n - 1].name := ParamTrail(f, n - 1, lead, receiver, args, vs)]
  {
  }

  lemma OneMoreVar(k: Setting, s: nat, vars: map<string, Trail>, x: string, v: Trail)
    requires VarsSound(k, s, vars) && Carried(k.R, v, k.DefNodes(s, x))
    ensures VarsSound(k, s, vars[x := v])
  {
    hide Carried, Setting.DefNodes;
  }

  lemma {:induction false} OutsideSound(k: Setting, f: Function, n: nat)
    requires k.Valid() && f in FunctionsOf(k.p.modules) && n <= |f.params|
    ensures VarsSound(k, f.symbol, FromOutside(f, n))
  {
    hide *;
    if n > 0 {
      var x, node := f.params[n - 1].name, NodeOf(f.params[n - 1].id, ParameterRole, false);
      OutsideSound(k, f, n - 1);
      ParamIsDefined(k, f, n - 1);
      CarriedItself(k.R, node, k.DefNodes(f.symbol, x));
      OneMoreVar(k, f.symbol, FromOutside(f, n - 1), x, {node});
      FromOutsideNext(f, n);
    } else {
      NoVars(k, f, Nothing, {}, [], []);
    }
  }

  lemma FromOutsideNext(f: Function, n: nat)
    requires 0 < n <= |f.params|
    ensures FromOutside(f, n) == FromOutside(f, n - 1)[f.params[n - 1].name := {NodeOf(f.params[n - 1].id, ParameterRole, false)}]
  {
  }

  /** A callee's value gets to the call's. */
  lemma ResultCarried(k: Setting, e: Expr, f: Function, t: Target, entry: Entry, v: Trail)
    requires k.Valid() && Enters(k, e, f, t, entry) && Carried(k.R, v, k.ResultNodes(f.symbol))
    ensures Carried(k.R, v + {NodeOf(e.id, ResultRole, false)}, [NodeOf(e.id, ResultRole, false)])
  {
    var c := Pending(e.id, e.callee, e.args, e.targets, false);
    var result := NodeOf(e.id, ResultRole, false);
    hide LogOf, BoundInModules, FunctionsOf, Setting.Links, Setting.Reads, InFragment, NodeOf, Carried, SlotsOf, WireFormals, PackageTargets;
    assert [Called(c)][0] == Called(c);
    forall a: nat | a in k.ResultNodes(f.symbol) ensures (a, result) in k.R {
      assert k.Lands(c, t, a, result);
    }
    CarriedStep(k.R, v, k.ResultNodes(f.symbol), result);
  }

  // ---- external targets ----

  lemma {:induction false} PartCarried(R: set<(nat, nat)>, args: seq<Arg>, vs: seq<Trail>)
    requires ArgsCarried(R, args, vs)
    ensures Carried(R, AllOf(vs), Flat(PositionalValues(args, false)) + FlatNamed(KeywordValues(args, false)) + Flat(SpreadValues(args, false)))
  {
    var all := Flat(PositionalValues(args, false)) + FlatNamed(KeywordValues(args, false)) + Flat(SpreadValues(args, false));
    hide Values, Arrives, PositionalValues, KeywordValues, SpreadValues, Flat, FlatNamed, AllOf;
    forall n: nat | n in AllOf(vs) ensures Arrives(R, n, all) {
      var i :| 0 <= i < |vs| && n in vs[i];
      ArgAmong(args, i);
      CarriedMore(R, vs[i], Values(args[i].value, false), all);
    }
  }

  lemma ArgAmong(args: seq<Arg>, i: nat)
    requires i < |args|
    ensures forall m: nat :: m in Values(args[i].value, false) ==>
      m in Flat(PositionalValues(args, false)) + FlatNamed(KeywordValues(args, false)) + Flat(SpreadValues(args, false))
  {
    hide Values, PositionalValues, KeywordValues, SpreadValues, Flat, FlatNamed;
    match args[i]
    case ByPosition(_) => PositionalAt(args, i, false);
    case ByName(_, _, _) => var j := KeywordAt(args, i, false);
    case Spread(_) => var j := SpreadAt(args, i, false);
  }

  lemma SamePieces(a: seq<nat>, b: seq<nat>, c: seq<nat>, d: seq<nat>)
    ensures a + (b + c + d) == a + b + c + d
  {
  }

  lemma ActualsCarried(k: Setting, e: Expr, receiver: Trail, vs: seq<Trail>)
    requires e.Call? && CallCarried(k, e, receiver, vs)
    ensures Carried(k.R, receiver + AllOf(vs), Actuals(e.callee, e.args, false))
  {
    PartCarried(k.R, e.args, vs);
    var rest := Flat(PositionalValues(e.args, false)) + FlatNamed(KeywordValues(e.args, false)) + Flat(SpreadValues(e.args, false));
    hide Carried, Flat, FlatNamed, PositionalValues, KeywordValues, SpreadValues, ReceiverValues, AllOf;
    CarriedConcat(k.R, receiver, AllOf(vs), ReceiverValues(e.callee, false), rest);
    SamePieces(ReceiverValues(e.callee, false), Flat(PositionalValues(e.args, false)), FlatNamed(KeywordValues(e.args, false)), Flat(SpreadValues(e.args, false)));
  }

  lemma {:induction false} FirstIs(args: seq<Arg>, i: nat)
    requires i < |args| && args[i].ByPosition? && forall j :: 0 <= j < i ==> !args[j].ByPosition?
    ensures FirstPositional(args, false) == Values(args[i].value, false)
  {
    PositionalAt(args, i, false);
    NonePositional(args[..i]);
    hide Values, PositionalValues;
  }

  lemma {:induction false} NonePositional(args: seq<Arg>)
    requires forall j :: 0 <= j < |args| ==> !args[j].ByPosition?
    ensures Positionals(args) == 0
  {
    if args != [] {
      NonePositional(args[..|args| - 1]);
    }
  }

  lemma {:induction false} FirstTrailIs(args: seq<Arg>, vs: seq<Trail>)
    requires |args| == |vs|
    ensures FirstTrail(args, vs) == {} || exists i: nat :: i < |args| && args[i].ByPosition? && (forall j :: 0 <= j < i ==> !args[j].ByPosition?) && FirstTrail(args, vs) == vs[i]
  {
    if args != [] && !args[0].ByPosition? {
      FirstTrailIs(args[1..], vs[1..]);
      if FirstTrail(args[1..], vs[1..]) != {} {
        var i: nat :| i < |args| - 1 && args[1..][i].ByPosition? && (forall j :: 0 <= j < i ==> !args[1..][j].ByPosition?) && FirstTrail(args[1..], vs[1..]) == vs[1..][i];
        assert forall j :: 0 <= j < i + 1 ==> !args[j].ByPosition? by {
          forall j | 0 <= j < i + 1 ensures !args[j].ByPosition? {
            if j > 0 {
              assert args[1..][j - 1] == args[j];
            }
          }
        }
        assert args[i + 1].ByPosition? && FirstTrail(args, vs) == vs[i + 1];
      }
    }
  }

  lemma FirstCarried(R: set<(nat, nat)>, args: seq<Arg>, vs: seq<Trail>)
    requires ArgsCarried(R, args, vs)
    ensures Carried(R, FirstTrail(args, vs), FirstPositional(args, false))
  {
    FirstTrailIs(args, vs);
    hide Values, Arrives, FirstPositional, FirstTrail;
    if FirstTrail(args, vs) != {} {
      var i: nat :| i < |args| && args[i].ByPosition? && (forall j :: 0 <= j < i ==> !args[j].ByPosition?) && FirstTrail(args, vs) == vs[i];
      FirstIs(args, i);
    }
  }
}
