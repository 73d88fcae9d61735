/** The walk that builds the data-flow graph: a first pass records, a second resolves reads and
    package calls once everything is known. Each method appends exactly the events of its node. */
module FlowWalker {
  import opened Options
  import opened Evidence
  import opened Calls
  import opened Hubs
  import opened FlowSyntax
  import HubWiring
  import HubTheorem

  type Bindings = map<(nat, string), seq<nat>>

  // ---- what a record amounts to ----

  function LinksOf(log: seq<Event>): (r: seq<Link>)
    ensures forall l :: l in r <==> Linked(l) in log
  {
    if log == [] then []
    else
      assert log == log[..|log| - 1] + [log[|log| - 1]];
      LinksOf(log[..|log| - 1]) + match log[|log| - 1] { case Linked(l) => [l] case _ => [] }
  }

  function ReadsOf(log: seq<Event>): (r: seq<PendingRead>)
    ensures forall x :: x in r <==> Read(x) in log
  {
    if log == [] then []
    else
      assert log == log[..|log| - 1] + [log[|log| - 1]];
      ReadsOf(log[..|log| - 1]) + match log[|log| - 1] { case Read(x) => [x] case _ => [] }
  }

  function CallsOf(log: seq<Event>): (r: seq<PendingCall>)
    ensures forall x :: x in r <==> Called(x) in log
  {
    if log == [] then []
    else
      assert log == log[..|log| - 1] + [log[|log| - 1]];
      CallsOf(log[..|log| - 1]) + match log[|log| - 1] { case Called(x) => [x] case _ => [] }
  }

  function DefsAt(defs: Bindings, scope: nat, name: string): seq<nat> {
    if (scope, name) in defs then defs[(scope, name)] else []
  }

  function DefsOf(log: seq<Event>): (r: Bindings)
    ensures forall s: nat, x: string :: (s, x) in r <==> exists n :: Defined(s, x, n) in log
    ensures forall s: nat, x: string, n: nat :: n in DefsAt(r, s, x) <==> Defined(s, x, n) in log
  {
    if log == [] then map[]
    else
      assert log == log[..|log| - 1] + [log[|log| - 1]];
      var r := DefsOf(log[..|log| - 1]);
      match log[|log| - 1] {
        case Defined(s, x, n) => r[(s, x) := DefsAt(r, s, x) + [n]]
        case _ => r
      }
  }

  function ParamsAt(params: map<nat, seq<Param>>, f: nat): seq<Param> {
    if f in params then params[f] else []
  }

  function ParamsOf(log: seq<Event>): map<nat, seq<Param>> {
    if log == [] then map[]
    else
      var r := ParamsOf(log[..|log| - 1]);
      match log[|log| - 1] {
        case HasParam(f, x, n) => r[f := ParamsAt(r, f) + [Param(x, n)]]
        case _ => r
      }
  }

  function ResultsAt(results: map<nat, seq<nat>>, f: nat): seq<nat> {
    if f in results then results[f] else []
  }

  function ResultsOf(log: seq<Event>): (r: map<nat, seq<nat>>)
    ensures forall f: nat, n: nat :: n in ResultsAt(r, f) <==> Returned(f, n) in log
  {
    if log == [] then map[]
    else
      assert log == log[..|log| - 1] + [log[|log| - 1]];
      var r := ResultsOf(log[..|log| - 1]);
      match log[|log| - 1] {
        case Returned(f, n) => r[f := ResultsAt(r, f) + [n]]
        case _ => r
      }
  }

  function Max(a: nat, b: nat): nat {
    if a < b then b else a
  }

  function Above(ns: seq<nat>): (r: nat)
    ensures forall n: nat :: n in ns ==> n < r
  {
    if ns == [] then 0
    else
      assert ns == ns[..|ns| - 1] + [ns[|ns| - 1]];
      Max(Above(ns[..|ns| - 1]), ns[|ns| - 1] + 1)
  }

  function EventBound(v: Event): nat {
    match v
    case Linked(l) => Max(l.from, l.to) + 1
    case Read(r) => r.node + 1
    case Defined(_, _, n) => n + 1
    case HasParam(_, _, n) => n + 1
    case Returned(_, n) => n + 1
    case Called(c) => Above([c.result] + c.receiver + Flat(c.positional) + FlatNamed(c.keyword) + Flat(c.splat))
  }

  ghost predicate Bounded(log: seq<Event>, nodes: nat) {
    forall v :: v in log ==> EventBound(v) <= nodes
  }

  lemma BoundedNext(log: seq<Event>, nodes: nat, v: Event)
    requires Bounded(log, nodes)
    ensures Bounded(log + [v], Max(nodes, EventBound(v)))
  {
  }

  lemma EvaluatedNext(es: seq<Expr>, i: nat, o: nat, again: bool)
    requires i < |es|
    ensures AllEvaluated(es[..i + 1], o, again) == AllEvaluated(es[..i], o, again) + Evaluated(es[i], o, again)
    ensures AllValues(es[..i + 1], again) == AllValues(es[..i], again) + Values(es[i], again)
  {
    hide Evaluated, Values;
    assert es[..i + 1][..i] == es[..i];
  }

  lemma ArgsNext(args: seq<Arg>, i: nat, o: nat, again: bool)
    requires i < |args|
    ensures ArgsEvaluated(args[..i + 1], o, again) == ArgsEvaluated(args[..i], o, again) + ArgEvaluated(args[i], o, again)
  {
    hide ArgEvaluated;
    assert args[..i + 1][..i] == args[..i];
  }

  lemma ArgValuesNext(args: seq<Arg>, i: nat, again: bool)
    requires i < |args|
    ensures var a, vs := args[i], Values(args[i].value, again);
            && PositionalValues(args[..i + 1], again) == PositionalValues(args[..i], again) + (if a.ByPosition? then [vs] else [])
            && KeywordValues(args[..i + 1], again) == KeywordValues(args[..i], again) + (if a.ByName? then [(a.name, vs)] else [])
            && SpreadValues(args[..i + 1], again) == SpreadValues(args[..i], again) + (if a.Spread? then [vs] else [])
  {
    hide Values;
    assert args[..i + 1][..i] == args[..i];
  }

  lemma TargetsNext(id: nat, callee: Callee, args: seq<Arg>, ts: seq<CallTarget>, i: nat, again: bool)
    requires i < |ts|
    ensures TargetsEvents(id, callee, args, ts[..i + 1], again)
         == TargetsEvents(id, callee, args, ts[..i], again) + TargetEvents(id, callee, args, ts[i], again)
  {
    hide TargetEvents;
    assert ts[..i + 1][..i] == ts[..i];
  }

  lemma BoundNext(ts: seq<Expr>, i: nat, o: nat, values: seq<nat>, again: bool)
    requires i < |ts|
    ensures AllBound(ts[..i + 1], o, values, again) == AllBound(ts[..i], o, values, again) + Bound(ts[i], o, values, again)
  {
    hide Bound;
    assert ts[..i + 1][..i] == ts[..i];
  }

  lemma ArgBoundNext(args: seq<Arg>, i: nat, o: nat, values: seq<nat>, again: bool)
    requires i < |args|
    ensures ArgsBound(args[..i + 1], o, values, again) == ArgsBound(args[..i], o, values, again) + ArgBound(args[i], o, values, again)
  {
    hide ArgBound;
    assert args[..i + 1][..i] == args[..i];
  }

  lemma NoArgsBound(o: nat, values: seq<nat>, again: bool)
    ensures ArgsBound([], o, values, again) == []
  {
  }

  lemma VisitedNext(ss: seq<Stmt>, i: nat, o: nat)
    requires i < |ss|
    ensures AllVisited(ss[..i + 1], o) == AllVisited(ss[..i], o) + Visited(ss[i], o)
  {
    hide Visited;
    assert ss[..i + 1][..i] == ss[..i];
  }

  lemma ModulesNext(ms: seq<Module>, i: nat)
    requires i < |ms|
    ensures ModulesVisited(ms[..i + 1]) == ModulesVisited(ms[..i]) + AllVisited(ms[i].body, ms[i].symbol)
  {
    hide AllVisited;
    assert ms[..i + 1][..i] == ms[..i];
  }

  lemma CallRecorded(log: seq<Event>, e: Expr, o: nat, again: bool)
    requires e.Call?
    ensures log + CalleeEvaluated(e.callee, o, again) + ArgsEvaluated(e.args, o, again)
            + TargetsEvents(e.id, e.callee, e.args, e.targets, again) + (if PackageTargets(e.targets) == [] then [] else
              [Called(PendingCall(NodeOf(e.id, ResultRole, again), ReceiverValues(e.callee, again), PositionalValues(e.args, again),
                                  KeywordValues(e.args, again), SpreadValues(e.args, again), PackageTargets(e.targets)))])
         == log + Evaluated(e, o, again)
  {
    hide CalleeEvaluated, ArgsEvaluated, TargetsEvents, PackageTargets, ReceiverValues, PositionalValues, KeywordValues, SpreadValues;
  }

  lemma ActualsAre(callee: Callee, args: seq<Arg>, again: bool)
    ensures Actuals(callee, args, again) == ReceiverValues(callee, again) + Flat(PositionalValues(args, again))
                                            + FlatNamed(KeywordValues(args, again)) + Flat(SpreadValues(args, again))
    ensures FirstPositional(args, again) == if PositionalValues(args, again) == [] then [] else PositionalValues(args, again)[0]
  {
    hide ReceiverValues, Flat, FlatNamed, PositionalValues, KeywordValues, SpreadValues;
  }

  /** Empty lists record nothing. */
  lemma NothingRecorded(o: nat, again: bool)
    ensures AllEvaluated([], o, again) == [] && AllValues([], again) == [] && ArgsEvaluated([], o, again) == []
    ensures PositionalValues([], again) == [] && KeywordValues([], again) == [] && SpreadValues([], again) == []
    ensures AllVisited([], o) == [] && ModulesVisited([]) == []
  {
  }

  lemma NothingBound(o: nat, id: nat, callee: Callee, args: seq<Arg>, values: seq<nat>, again: bool)
    ensures AllBound([], o, values, again) == [] && TargetsEvents(id, callee, args, [], again) == []
  {
  }

  lemma DefinedNext(log: seq<Event>, s: nat, x: string, n: nat)
    ensures var more := log + [Defined(s, x, n)];
            && LinksOf(more) == LinksOf(log) && ReadsOf(more) == ReadsOf(log) && CallsOf(more) == CallsOf(log)
            && ParamsOf(more) == ParamsOf(log) && ResultsOf(more) == ResultsOf(log)
            && DefsOf(more) == DefsOf(log)[(s, x) := DefsAt(DefsOf(log), s, x) + [n]]
  {
    assert (log + [Defined(s, x, n)])[..|log|] == log;
  }

  // ---- the first pass ----

  class Walker {
    var links: seq<Link>
    var defs: Bindings
    var params: map<nat, seq<Param>>
    var results: map<nat, seq<nat>>
    var pendingReads: seq<PendingRead>
    var packageCalls: seq<PendingCall>
    /** Above every node recorded. */
    var nodes: nat
    /** Everything recorded so far, in order. */
    ghost var log: seq<Event>

    ghost predicate Valid()
      reads this
    {
      && links == LinksOf(log) && defs == DefsOf(log) && params == ParamsOf(log) && results == ResultsOf(log)
      && pendingReads == ReadsOf(log) && packageCalls == CallsOf(log) && Bounded(log, nodes)
    }

    constructor ()
      ensures Valid() && log == []
    {
      links, defs, params, results, pendingReads, packageCalls, nodes, log := [], map[], map[], map[], [], [], 0, [];
    }

    method AddLink(from: nat, to: nat, c: Confidence)
      requires Valid()
      modifies this
      ensures Valid() && log == old(log) + [Linked(Link(from, to, c))]
    {
      nodes := Max(nodes, EventBound(Linked(Link(from, to, c))));
      links := links + [Link(from, to, c)];
      log := log + [Linked(Link(from, to, c))];
      assert log[..|log| - 1] == old(log);
    }

    method AddRead(r: PendingRead)
      requires Valid()
      modifies this
      ensures Valid() && log == old(log) + [Read(r)]
    {
      nodes := Max(nodes, EventBound(Read(r)));
      pendingReads := pendingReads + [r];
      log := log + [Read(r)];
      assert log[..|log| - 1] == old(log);
    }

    method AddDefinition(scope: nat, name: string, node: nat)
      requires Valid()
      modifies this
      ensures Valid() && log == old(log) + [Defined(scope, name, node)]
    {
      nodes := Max(nodes, EventBound(Defined(scope, name, node)));
      defs := defs[(scope, name) := DefsAt(defs, scope, name) + [node]];
      DefinedNext(log, scope, name, node);
      BoundedNext(log, old(nodes), Defined(scope, name, node));
      log := log + [Defined(scope, name, node)];
      hide DefsOf, LinksOf, ReadsOf, CallsOf, ParamsOf, ResultsOf, Bounded, EventBound, Max;
    }

    method AddParam(callee: nat, name: string, node: nat)
      requires Valid()
      modifies this
      ensures Valid() && log == old(log) + [HasParam(callee, name, node)]
    {
      nodes := Max(nodes, EventBound(HasParam(callee, name, node)));
      params := params[callee := ParamsAt(params, callee) + [Param(name, node)]];
      log := log + [HasParam(callee, name, node)];
      assert log[..|log| - 1] == old(log);
    }

    method AddResult(callee: nat, node: nat)
      requires Valid()
      modifies this
      ensures Valid() && log == old(log) + [Returned(callee, node)]
    {
      nodes := Max(nodes, EventBound(Returned(callee, node)));
      results := results[callee := ResultsAt(results, callee) + [node]];
      log := log + [Returned(callee, node)];
      assert log[..|log| - 1] == old(log);
    }

    method AddCall(call: PendingCall)
      requires Valid()
      modifies this
      ensures Valid() && log == old(log) + [Called(call)]
    {
      nodes := Max(nodes, EventBound(Called(call)));
      packageCalls := packageCalls + [call];
      log := log + [Called(call)];
      assert log[..|log| - 1] == old(log);
    }

    method LinkAll(froms: seq<nat>, to: nat, c: Confidence)
      requires Valid()
      modifies this
      ensures Valid() && log == old(log) + LinksInto(froms, to, c)
    {
      hide Walker.Valid;
      for i := 0 to |froms|
        invariant Valid() && log == old(log) + LinksInto(froms[..i], to, c)
      {
        assert froms[..i + 1][..i] == froms[..i];
        AddLink(froms[i], to, c);
      }
      assert froms[..|froms|] == froms;
    }

    /** The nodes carrying an expression's value, recording everything inside it on the way. */
    method Eval(e: Expr, owner: nat, again: bool) returns (values: seq<nat>)
      requires Valid()
      modifies this
      ensures Valid() && values == Values(e, again) && log == old(log) + Evaluated(e, owner, again)
      decreases e, 1
    {
      hide Walker.Valid, AllEvaluated, AllValues, CalleeEvaluated, ArgsEvaluated, TargetsEvents, LinksInto, PackageTargets, Pending;
      match e
      case Literal(id) =>
        values := [NodeOf(id, LiteralRole, again)];
      case Number =>
        values := [];
      case Name(id, x) =>
        values := [NodeOf(id, UseRole, again)];
        AddRead(PendingRead(NodeOf(id, UseRole, again), owner, x));
      case Imported(id, _, _) =>
        values := [NodeOf(id, UseRole, again)];
      case Attribute(id, base) =>
        values := [NodeOf(id, UseRole, again)];
        if !IsDotted(base) {
          var from := Eval(base, owner, again);
          LinkAll(from, NodeOf(id, UseRole, again), Resolved);
        }
      case Subscript(id, value, index) =>
        var from := Eval(value, owner, again);
        var _ := Eval(index, owner, again);
        values := [NodeOf(id, UseRole, again)];
        LinkAll(from, NodeOf(id, UseRole, again), Resolved);
      case Union(parts) =>
        values := EvalAll(parts, owner, again);
      case Comparison(parts) =>
        var _ := EvalAll(parts, owner, again);
        values := [];
      case Call(id, callee, args, targets) =>
        EvalCall(e, owner, again);
        values := [NodeOf(id, ResultRole, again)];
    }

    method EvalAll(es: seq<Expr>, owner: nat, again: bool) returns (values: seq<nat>)
      requires Valid()
      modifies this
      ensures Valid() && values == AllValues(es, again) && log == old(log) + AllEvaluated(es, owner, again)
      decreases es
    {
      hide *;
      values := [];
      NothingRecorded(owner, again);
      for i := 0 to |es|
        invariant Valid() && values == AllValues(es[..i], again) && log == old(log) + AllEvaluated(es[..i], owner, again)
      {
        EvaluatedNext(es, i, owner, again);
        var vs := Eval(es[i], owner, again);
        values := values + vs;
      }
      assert es[..|es|] == es;
    }

    method EvalCallee(callee: Callee, owner: nat, again: bool) returns (receiver: seq<nat>)
      requires Valid()
      modifies this
      ensures Valid() && receiver == ReceiverValues(callee, again) && log == old(log) + CalleeEvaluated(callee, owner, again)
      decreases callee
    {
      hide Walker.Valid;
      receiver := [];
      match callee
      case Plain(_, _) =>
      case Method(r) =>
        if !IsDotted(r) {
          receiver := Eval(r, owner, again);
        }
      case Computed(inner) =>
        var _ := Eval(inner, owner, again);
    }

    method EvalArgument(a: Arg, owner: nat, again: bool) returns (values: seq<nat>)
      requires Valid()
      modifies this
      ensures Valid() && values == Values(a.value, again) && log == old(log) + ArgEvaluated(a, owner, again)
      decreases a
    {
      values := Eval(a.value, owner, again);
    }

    /** Positional, keyword and spread actuals of a call. */
    method EvalArguments(args: seq<Arg>, owner: nat, again: bool)
      returns (positional: seq<seq<nat>>, keyword: seq<(string, seq<nat>)>, spread: seq<seq<nat>>)
      requires Valid()
      modifies this
      ensures Valid() && log == old(log) + ArgsEvaluated(args, owner, again)
      ensures positional == PositionalValues(args, again) && keyword == KeywordValues(args, again) && spread == SpreadValues(args, again)
      decreases args
    {
      hide *;
      NothingRecorded(owner, again);
      positional, keyword, spread := [], [], [];
      for i := 0 to |args|
        invariant Valid() && log == old(log) + ArgsEvaluated(args[..i], owner, again)
        invariant positional == PositionalValues(args[..i], again)
        invariant keyword == KeywordValues(args[..i], again)
        invariant spread == SpreadValues(args[..i], again)
      {
        ArgsNext(args, i, owner, again);
        ArgValuesNext(args, i, again);
        var a := args[i];
        var vs := EvalArgument(a, owner, again);
        match a
        case ByPosition(_) => positional := positional + [vs];
        case ByName(_, name, _) => keyword := keyword + [(name, vs)];
        case Spread(_) => spread := spread + [vs];
      }
      assert args[..|args|] == args;
    }

    /** The links of one external target of a call. */
    method LinkTarget(id: nat, t: CallTarget, actuals: seq<nat>, first: seq<nat>, again: bool, ghost callee: Callee, ghost args: seq<Arg>)
      requires Valid() && actuals == Actuals(callee, args, again) && first == FirstPositional(args, again)
      modifies this
      ensures Valid() && log == old(log) + TargetEvents(id, callee, args, t, again)
    {
      hide Walker.Valid, LinksInto, Actuals, FirstPositional;
      if t.Foreign? {
        if t.preserving {
          LinkAll(actuals, NodeOf(id, ResultRole, again), t.confidence);
        } else {
          LinkAll(actuals, NodeOf(t.id, ForeignRole, again), t.confidence);
          LinkAll(first, NodeOf(t.id, FirstRole, again), t.confidence);
        }
      }
    }

    method EvalCall(e: Expr, owner: nat, again: bool)
      requires Valid() && e.Call?
      modifies this
      ensures Valid() && log == old(log) + Evaluated(e, owner, again)
      decreases e, 0
    {
      hide *;
      var id, callee, args, targets := e.id, e.callee, e.args, e.targets;
      var receiver := EvalCallee(callee, owner, again);
      var positional, keyword, spread := EvalArguments(args, owner, again);
      LinkTargets(id, targets, receiver + Flat(positional) + FlatNamed(keyword) + Flat(spread),
                  if positional == [] then [] else positional[0], again, callee, args);
      var package := PackageTargets(targets);
      if package != [] {
        AddCall(PendingCall(NodeOf(id, ResultRole, again), receiver, positional, keyword, spread, package));
      }
      CallRecorded(old(log), e, owner, again);
    }

    method LinkTargets(id: nat, targets: seq<CallTarget>, actuals: seq<nat>, first: seq<nat>, again: bool, ghost callee: Callee, ghost args: seq<Arg>)
      requires Valid()
      requires actuals == ReceiverValues(callee, again) + Flat(PositionalValues(args, again)) + FlatNamed(KeywordValues(args, again)) + Flat(SpreadValues(args, again))
      requires first == if PositionalValues(args, again) == [] then [] else PositionalValues(args, again)[0]
      modifies this
      ensures Valid() && log == old(log) + TargetsEvents(id, callee, args, targets, again)
    {
      hide *;
      ActualsAre(callee, args, again);
      NothingBound(0, id, callee, args, [], again);
      for i := 0 to |targets|
        invariant Valid() && log == old(log) + TargetsEvents(id, callee, args, targets[..i], again)
      {
        TargetsNext(id, callee, args, targets, i, again);
        LinkTarget(id, targets[i], actuals, first, again, callee, args);
      }
      assert targets[..|targets|] == targets;
    }

    /** Binds every name in an assignment target to `values`. */
    method BindTarget(t: Expr, owner: nat, values: seq<nat>, again: bool)
      requires Valid()
      modifies this
      ensures Valid() && log == old(log) + Bound(t, owner, values, again)
      decreases t
    {
      hide Walker.Valid, NameBound, Evaluated, AllBound, CalleeBound, ArgsBound, NodeOf, Values;
      match t
      case Name(id, x) =>
        BindName(id, x, owner, values, again);
      case Imported(id, x, _) =>
        BindName(id, x, owner, values, again);
      case Subscript(_, base, index) =>
        var _ := Eval(index, owner, again);
        BindTarget(base, owner, values, again);
      case Attribute(_, base) =>
        BindTarget(base, owner, values, again);
      case Union(parts) =>
        BindAll(parts, owner, values, again);
      case Comparison(parts) =>
        BindAll(parts, owner, values, again);
      case Call(_, callee, args, _) =>
        BindCallee(callee, owner, values, again);
        BindArguments(args, owner, values, again);
      case _ =>
    }

    method BindName(id: nat, x: string, owner: nat, values: seq<nat>, again: bool)
      requires Valid()
      modifies this
      ensures Valid() && log == old(log) + NameBound(id, x, owner, values, again)
    {
      hide Walker.Valid, LinksInto, NodeOf;
      LinkAll(values, NodeOf(id, DefinitionRole, again), Resolved);
      AddDefinition(owner, x, NodeOf(id, DefinitionRole, again));
    }

    method BindCallee(callee: Callee, owner: nat, values: seq<nat>, again: bool)
      requires Valid()
      modifies this
      ensures Valid() && log == old(log) + CalleeBound(callee, owner, values, again)
      decreases callee
    {
      hide Walker.Valid, NameBound, Bound;
      match callee
      case Plain(id, x) => BindName(id, x, owner, values, again);
      case Method(receiver) => BindTarget(receiver, owner, values, again);
      case Computed(inner) => BindTarget(inner, owner, values, again);
    }

    method BindArgument(a: Arg, owner: nat, values: seq<nat>, again: bool)
      requires Valid()
      modifies this
      ensures Valid() && log == old(log) + ArgBound(a, owner, values, again)
      decreases a
    {
      hide Walker.Valid, NameBound, Bound;
      if a.ByName? {
        BindName(a.id, a.name, owner, values, again);
      }
      BindTarget(a.value, owner, values, again);
    }

    method BindArguments(args: seq<Arg>, owner: nat, values: seq<nat>, again: bool)
      requires Valid()
      modifies this
      ensures Valid() && log == old(log) + ArgsBound(args, owner, values, again)
      decreases args
    {
      hide *;
      NoArgsBound(owner, values, again);
      for i := 0 to |args|
        invariant Valid() && log == old(log) + ArgsBound(args[..i], owner, values, again)
      {
        ArgBoundNext(args, i, owner, values, again);
        BindArgument(args[i], owner, values, again);
      }
      assert args[..|args|] == args;
    }

    method BindAll(ts: seq<Expr>, owner: nat, values: seq<nat>, again: bool)
      requires Valid()
      modifies this
      ensures Valid() && log == old(log) + AllBound(ts, owner, values, again)
      decreases ts
    {
      hide *;
      NothingBound(owner, 0, Plain(0, ""), [], values, again);
      for i := 0 to |ts|
        invariant Valid() && log == old(log) + AllBound(ts[..i], owner, values, again)
      {
        BoundNext(ts, i, owner, values, again);
        BindTarget(ts[i], owner, values, again);
      }
      assert ts[..|ts|] == ts;
    }

    method BindParameters(f: nat, ps: seq<Formal>)
      requires Valid()
      modifies this
      ensures Valid() && log == old(log) + ParamEvents(f, ps)
    {
      hide Walker.Valid;
      for i := 0 to |ps|
        invariant Valid() && log == old(log) + ParamEvents(f, ps[..i])
      {
        assert ps[..i + 1][..i] == ps[..i];
        var node := NodeOf(ps[i].id, ParameterRole, false);
        AddDefinition(f, ps[i].name, node);
        AddParam(f, ps[i].name, node);
      }
      assert ps[..|ps|] == ps;
    }

    method BindReturn(id: nat, owner: nat, values: seq<nat>)
      requires Valid()
      modifies this
      ensures Valid()
      ensures log == old(log) + LinksInto(values, NodeOf(id, ReturnRole, false), Resolved) + [Returned(owner, NodeOf(id, ReturnRole, false))]
    {
      LinkAll(values, NodeOf(id, ReturnRole, false), Resolved);
      AddResult(owner, NodeOf(id, ReturnRole, false));
    }

    method Visit(s: Stmt, owner: nat)
      requires Valid()
      modifies this
      ensures Valid() && log == old(log) + Visited(s, owner)
      decreases s
    {
      hide Walker.Valid, LinksInto, AllVisited, Evaluated, Bound, FunctionVisited, Values;
      match s
      case Evaluate(e) =>
        var _ := Eval(e, owner, false);
      case Assign(t, e) =>
        var values := Eval(e, owner, false);
        BindTarget(t, owner, values, false);
      case AugAssign(t, e) =>
        var values := Eval(e, owner, false);
        var more := Eval(t, owner, false);
        BindTarget(t, owner, values + more, true);
      case If(c, a, b) =>
        var _ := Eval(c, owner, false);
        VisitAll(a, owner);
        VisitAll(b, owner);
      case While(c, b) =>
        var _ := Eval(c, owner, false);
        VisitAll(b, owner);
      case For(t, e, b) =>
        var values := Eval(e, owner, false);
        BindTarget(t, owner, values, false);
        VisitAll(b, owner);
      case Give(id, e) =>
        var values := Eval(e, owner, false);
        BindReturn(id, owner, values);
      case Def(f) =>
        VisitFunction(f);
    }

    method VisitFunction(f: Function)
      requires Valid()
      modifies this
      ensures Valid() && log == old(log) + FunctionVisited(f)
      decreases f
    {
      hide Walker.Valid, ParamEvents, AllVisited;
      BindParameters(f.symbol, f.params);
      VisitAll(f.body, f.symbol);
    }

    method VisitAll(ss: seq<Stmt>, owner: nat)
      requires Valid()
      modifies this
      ensures Valid() && log == old(log) + AllVisited(ss, owner)
      decreases ss
    {
      hide *;
      NothingRecorded(owner, false);
      for i := 0 to |ss|
        invariant Valid() && log == old(log) + AllVisited(ss[..i], owner)
      {
        VisitedNext(ss, i, owner);
        Visit(ss[i], owner);
      }
      assert ss[..|ss|] == ss;
    }

    method VisitModules(ms: seq<Module>)
      requires Valid()
      modifies this
      ensures Valid() && log == old(log) + ModulesVisited(ms)
    {
      hide *;
      NothingRecorded(0, false);
      for i := 0 to |ms|
        invariant Valid() && log == old(log) + ModulesVisited(ms[..i])
      {
        ModulesNext(ms, i);
        VisitAll(ms[i].body, ms[i].symbol);
      }
      assert ms[..|ms|] == ms;
    }
  }
}
