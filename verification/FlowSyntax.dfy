/** The core language the data-flow walk is modelled on: its expressions and statements, the nodes
    they stand for, and the events walking a program records, in order. */
module FlowSyntax {
  import opened Evidence
  import opened Calls
  import opened Hubs

  /** What a name imported in its file, or the dotted name that starts with it, is imported from:
      outside of the package, or a variable of one of its modules. */
  datatype Origin = Outside | Inside(module_: nat, variable: string)

  /** An expression; `id` is its syntax node. `Imported` is a name that its file imports somewhere,
      `Name` any other. Call targets are those the call graph resolved. */
  datatype Expr =
    | Literal(id: nat)
    | Number
    | Name(id: nat, name: string)
    | Imported(id: nat, name: string, origin: Origin)
    | Attribute(id: nat, base: Expr)
    | Subscript(id: nat, value: Expr, index: Expr)
    | Union(parts: seq<Expr>)
    | Comparison(parts: seq<Expr>)
    | Call(id: nat, callee: Callee, args: seq<Arg>, targets: seq<CallTarget>)

  datatype Callee = Plain(id: nat, name: string) | Method(receiver: Expr) | Computed(inner: Expr)

  datatype Arg = ByPosition(value: Expr) | ByName(id: nat, name: string, value: Expr) | Spread(value: Expr)

  /** How a call comes to a method: from an object of its class, from the class itself, or by making
      an object of the class. */
  datatype Entry = OnObject | OnClass | Making

  /** `entries` are the ways the call may come to a target when it runs; `id` tells apart the
      external callees of one call. */
  datatype CallTarget =
    | Package(symbol: nat, confidence: Confidence, entries: seq<Entry>)
    | Foreign(id: nat, preserving: bool, confidence: Confidence)

  datatype Stmt =
    | Evaluate(value: Expr)
    | Assign(target: Expr, value: Expr)
    | AugAssign(target: Expr, value: Expr)
    | If(cond: Expr, then_: seq<Stmt>, else_: seq<Stmt>)
    | While(cond: Expr, body: seq<Stmt>)
    | For(target: Expr, iter: Expr, body: seq<Stmt>)
    | Give(id: nat, value: Expr)
    | Def(function_: Function)

  datatype Decoration = Undecorated | StaticMethod | ClassMethod

  /** `isMethod` says that it is defined in a class, `isInit` that its name is `__init__`. */
  datatype Function = Function(symbol: nat, params: seq<Formal>, body: seq<Stmt>, isMethod: bool, isInit: bool, decoration: Decoration)

  /** `*name` takes the surplus positional actuals, `**name` the surplus keywords. */
  datatype FormalKind = Ordinary | KeywordOnly | Starred | DoubleStarred

  datatype Formal = Formal(id: nat, name: string, kind: FormalKind)

  datatype Module = Module(symbol: nat, body: seq<Stmt>)

  /** The modules of a package, each scope's enclosing scope, and the names each scope imports. */
  datatype Program = Program(modules: seq<Module>, scopeOf: map<nat, nat>, imports: set<(nat, string)>)

  // ---- dotted names ----

  /** An imported name, or attributes of one: the walk makes one node of all of it. */
  predicate IsDotted(e: Expr)
    decreases e
  {
    e.Imported? || (e.Attribute? && IsDotted(e.base))
  }

  /** The imported name a dotted name starts with. */
  function Head(e: Expr): (h: Expr)
    requires IsDotted(e)
    ensures h.Imported?
    decreases e
  {
    if e.Imported? then e else Head(e.base)
  }

  // ---- nodes ----

  /** What a node stands for: a syntax node can have one of each, and a store walks the index of
      its target a second time when it also read it. */
  datatype Role = UseRole | DefinitionRole | ParameterRole | ReturnRole | ResultRole | LiteralRole | ForeignRole | FirstRole {
    function Code(): nat {
      match this
      case UseRole => 0
      case DefinitionRole => 1
      case ParameterRole => 2
      case ReturnRole => 3
      case ResultRole => 4
      case LiteralRole => 5
      case ForeignRole => 6
      case FirstRole => 7
    }
  }

  /** The index of a node of the data-flow graph. */
  function NodeOf(id: nat, role: Role, again: bool): nat {
    16 * id + 2 * role.Code() + if again then 1 else 0
  }

  /** Different things have different nodes. */
  lemma NodesApart(id: nat, role: Role, again: bool, id': nat, role': Role, again': bool)
    requires NodeOf(id, role, again) == NodeOf(id', role', again')
    ensures id == id' && role == role' && again == again'
  {
    var x, y := 2 * role.Code() + (if again then 1 else 0), 2 * role'.Code() + if again' then 1 else 0;
    assert x < 16 && y < 16 && 16 * (id - id') == y - x;
  }

  // ---- what a walk records ----

  datatype PendingRead = PendingRead(node: nat, owner: nat, name: string)

  datatype Event =
    | Linked(link: Link)
    | Read(read: PendingRead)
    | Defined(scope: nat, name: string, node: nat)
    | HasParam(callee: nat, name: string, node: nat)
    | Returned(callee: nat, node: nat)
    | Called(call: PendingCall)

  /** The nodes carrying an expression's value. */
  function Values(e: Expr, again: bool): seq<nat>
    decreases e
  {
    match e
    case Literal(id) => [NodeOf(id, LiteralRole, again)]
    case Number => []
    case Name(id, _) => [NodeOf(id, UseRole, again)]
    case Imported(id, _, _) => [NodeOf(id, UseRole, again)]
    case Attribute(id, _) => [NodeOf(id, UseRole, again)]
    case Subscript(id, _, _) => [NodeOf(id, UseRole, again)]
    case Union(parts) => AllValues(parts, again)
    case Comparison(_) => []
    case Call(id, _, _, _) => [NodeOf(id, ResultRole, again)]
  }

  function AllValues(es: seq<Expr>, again: bool): seq<nat>
    decreases es
  {
    if es == [] then [] else AllValues(es[..|es| - 1], again) + Values(es[|es| - 1], again)
  }

  function ReceiverValues(callee: Callee, again: bool): seq<nat> {
    if callee.Method? && !IsDotted(callee.receiver) then Values(callee.receiver, again) else []
  }

  function PositionalValues(args: seq<Arg>, again: bool): seq<seq<nat>> {
    if args == [] then []
    else
      var a := args[|args| - 1];
      PositionalValues(args[..|args| - 1], again) + if a.ByPosition? then [Values(a.value, again)] else []
  }

  function KeywordValues(args: seq<Arg>, again: bool): seq<(string, seq<nat>)> {
    if args == [] then []
    else
      var a := args[|args| - 1];
      KeywordValues(args[..|args| - 1], again) + if a.ByName? then [(a.name, Values(a.value, again))] else []
  }

  function SpreadValues(args: seq<Arg>, again: bool): seq<seq<nat>> {
    if args == [] then []
    else
      var a := args[|args| - 1];
      SpreadValues(args[..|args| - 1], again) + if a.Spread? then [Values(a.value, again)] else []
  }

  function Flat(vs: seq<seq<nat>>): (r: seq<nat>)
    ensures forall n: nat :: n in r <==> exists k :: 0 <= k < |vs| && n in vs[k]
  {
    if vs == [] then []
    else
      assert vs == vs[..|vs| - 1] + [vs[|vs| - 1]];
      Flat(vs[..|vs| - 1]) + vs[|vs| - 1]
  }

  function FlatNamed(vs: seq<(string, seq<nat>)>): (r: seq<nat>)
    ensures forall n: nat :: n in r <==> exists k :: 0 <= k < |vs| && n in vs[k].1
  {
    if vs == [] then []
    else
      assert vs == vs[..|vs| - 1] + [vs[|vs| - 1]];
      FlatNamed(vs[..|vs| - 1]) + vs[|vs| - 1].1
  }

  /** Every actual of a call: receiver, positional, keyword, spread. */
  function Actuals(callee: Callee, args: seq<Arg>, again: bool): seq<nat> {
    ReceiverValues(callee, again) + Flat(PositionalValues(args, again)) + FlatNamed(KeywordValues(args, again))
    + Flat(SpreadValues(args, again))
  }

  function FirstPositional(args: seq<Arg>, again: bool): seq<nat> {
    var ps := PositionalValues(args, again);
    if ps == [] then [] else ps[0]
  }

  function PackageTargets(targets: seq<CallTarget>): seq<Target> {
    if targets == [] then []
    else
      var t := targets[|targets| - 1];
      PackageTargets(targets[..|targets| - 1]) + if t.Package? then [Target(t.symbol, t.confidence)] else []
  }

  function LinksInto(froms: seq<nat>, to: nat, c: Confidence): (r: seq<Event>)
    ensures forall l :: Linked(l) in r <==> l.from in froms && l.to == to && l.confidence == c
    ensures forall v :: v in r ==> v.Linked?
  {
    if froms == [] then []
    else
      assert froms == froms[..|froms| - 1] + [froms[|froms| - 1]];
      LinksInto(froms[..|froms| - 1], to, c) + [Linked(Link(froms[|froms| - 1], to, c))]
  }

  /** A preserving callee passes its actuals to the call's value; any other external takes them in. */
  function TargetEvents(id: nat, callee: Callee, args: seq<Arg>, t: CallTarget, again: bool): seq<Event> {
    match t
    case Package(_, _, _) => []
    case Foreign(k, preserving, c) =>
      if preserving then LinksInto(Actuals(callee, args, again), NodeOf(id, ResultRole, again), c)
      else LinksInto(Actuals(callee, args, again), NodeOf(k, ForeignRole, again), c)
           + LinksInto(FirstPositional(args, again), NodeOf(k, FirstRole, again), c)
  }

  function TargetsEvents(id: nat, callee: Callee, args: seq<Arg>, ts: seq<CallTarget>, again: bool): seq<Event> {
    if ts == [] then []
    else TargetsEvents(id, callee, args, ts[..|ts| - 1], again) + TargetEvents(id, callee, args, ts[|ts| - 1], again)
  }

  function Pending(id: nat, callee: Callee, args: seq<Arg>, ts: seq<CallTarget>, again: bool): PendingCall {
    PendingCall(NodeOf(id, ResultRole, again), ReceiverValues(callee, again), PositionalValues(args, again),
                KeywordValues(args, again), SpreadValues(args, again), PackageTargets(ts))
  }

  /** What evaluating `e` in scope `o` records. */
  function Evaluated(e: Expr, o: nat, again: bool): seq<Event>
    decreases e
  {
    match e
    case Literal(_) => []
    case Number => []
    case Name(id, x) => [Read(PendingRead(NodeOf(id, UseRole, again), o, x))]
    case Imported(_, _, _) => []
    case Attribute(id, base) =>
      if IsDotted(base) then []
      else Evaluated(base, o, again) + LinksInto(Values(base, again), NodeOf(id, UseRole, again), Resolved)
    case Subscript(id, value, index) =>
      Evaluated(value, o, again) + Evaluated(index, o, again) + LinksInto(Values(value, again), NodeOf(id, UseRole, again), Resolved)
    case Union(parts) => AllEvaluated(parts, o, again)
    case Comparison(parts) => AllEvaluated(parts, o, again)
    case Call(id, callee, args, ts) =>
      CalleeEvaluated(callee, o, again) + ArgsEvaluated(args, o, again) + TargetsEvents(id, callee, args, ts, again)
      + if PackageTargets(ts) == [] then [] else [Called(Pending(id, callee, args, ts, again))]
  }

  function AllEvaluated(es: seq<Expr>, o: nat, again: bool): seq<Event>
    decreases es
  {
    if es == [] then [] else AllEvaluated(es[..|es| - 1], o, again) + Evaluated(es[|es| - 1], o, again)
  }

  function CalleeEvaluated(callee: Callee, o: nat, again: bool): seq<Event>
    decreases callee
  {
    match callee
    case Plain(_, _) => []
    case Method(receiver) => if IsDotted(receiver) then [] else Evaluated(receiver, o, again)
    case Computed(inner) => Evaluated(inner, o, again)
  }

  function ArgEvaluated(a: Arg, o: nat, again: bool): seq<Event>
    decreases a
  {
    Evaluated(a.value, o, again)
  }

  function ArgsEvaluated(args: seq<Arg>, o: nat, again: bool): seq<Event>
    decreases args
  {
    if args == [] then [] else ArgsEvaluated(args[..|args| - 1], o, again) + ArgEvaluated(args[|args| - 1], o, again)
  }

  function NameBound(id: nat, x: string, o: nat, values: seq<nat>, again: bool): seq<Event> {
    LinksInto(values, NodeOf(id, DefinitionRole, again), Resolved) + [Defined(o, x, NodeOf(id, DefinitionRole, again))]
  }

  /** What binding target `t` to `values` records. What is stored in a thing is readable through
      it, so a store into `d[k]` or `d.a` defines `d`; of any other target, every name in it is
      defined, so a store into what a call gives defines the callee and the arguments. */
  function Bound(t: Expr, o: nat, values: seq<nat>, again: bool): seq<Event>
    decreases t
  {
    match t
    case Name(id, x) => NameBound(id, x, o, values, again)
    case Imported(id, x, _) => NameBound(id, x, o, values, again)
    case Subscript(_, base, index) => Evaluated(index, o, again) + Bound(base, o, values, again)
    case Attribute(_, base) => Bound(base, o, values, again)
    case Union(parts) => AllBound(parts, o, values, again)
    case Comparison(parts) => AllBound(parts, o, values, again)
    case Call(_, callee, args, _) => CalleeBound(callee, o, values, again) + ArgsBound(args, o, values, again)
    case _ => []
  }

  function CalleeBound(callee: Callee, o: nat, values: seq<nat>, again: bool): seq<Event>
    decreases callee
  {
    match callee
    case Plain(id, x) => NameBound(id, x, o, values, again)
    case Method(receiver) => Bound(receiver, o, values, again)
    case Computed(inner) => Bound(inner, o, values, again)
  }

  function ArgBound(a: Arg, o: nat, values: seq<nat>, again: bool): seq<Event>
    decreases a
  {
    (if a.ByName? then NameBound(a.id, a.name, o, values, again) else []) + Bound(a.value, o, values, again)
  }

  function ArgsBound(args: seq<Arg>, o: nat, values: seq<nat>, again: bool): seq<Event>
    decreases args
  {
    if args == [] then [] else ArgsBound(args[..|args| - 1], o, values, again) + ArgBound(args[|args| - 1], o, values, again)
  }

  function AllBound(ts: seq<Expr>, o: nat, values: seq<nat>, again: bool): seq<Event>
    decreases ts
  {
    if ts == [] then [] else AllBound(ts[..|ts| - 1], o, values, again) + Bound(ts[|ts| - 1], o, values, again)
  }

  function ParamEvents(f: nat, ps: seq<Formal>): seq<Event> {
    if ps == [] then []
    else
      var p := ps[|ps| - 1];
      var n := NodeOf(p.id, ParameterRole, false);
      ParamEvents(f, ps[..|ps| - 1]) + [Defined(f, p.name, n), HasParam(f, p.name, n)]
  }

  /** What walking a statement of scope `o` records. */
  function Visited(s: Stmt, o: nat): seq<Event>
    decreases s
  {
    match s
    case Evaluate(e) => Evaluated(e, o, false)
    case Assign(t, e) => Evaluated(e, o, false) + Bound(t, o, Values(e, false), false)
    case AugAssign(t, e) =>
      Evaluated(e, o, false) + Evaluated(t, o, false) + Bound(t, o, Values(e, false) + Values(t, false), true)
    case If(c, a, b) => Evaluated(c, o, false) + AllVisited(a, o) + AllVisited(b, o)
    case While(c, b) => Evaluated(c, o, false) + AllVisited(b, o)
    case For(t, e, b) => Evaluated(e, o, false) + Bound(t, o, Values(e, false), false) + AllVisited(b, o)
    case Give(id, e) =>
      Evaluated(e, o, false) + LinksInto(Values(e, false), NodeOf(id, ReturnRole, false), Resolved)
      + [Returned(o, NodeOf(id, ReturnRole, false))]
    case Def(f) => FunctionVisited(f)
  }

  function FunctionVisited(f: Function): seq<Event>
    decreases f
  {
    ParamEvents(f.symbol, f.params) + AllVisited(f.body, f.symbol)
  }

  function AllVisited(ss: seq<Stmt>, o: nat): seq<Event>
    decreases ss
  {
    if ss == [] then [] else AllVisited(ss[..|ss| - 1], o) + Visited(ss[|ss| - 1], o)
  }

  function ModulesVisited(ms: seq<Module>): seq<Event> {
    if ms == [] then [] else ModulesVisited(ms[..|ms| - 1]) + AllVisited(ms[|ms| - 1].body, ms[|ms| - 1].symbol)
  }

  // ---- the functions of a program ----

  function FunctionsIn(s: Stmt): seq<Function>
    decreases s
  {
    match s
    case If(_, a, b) => AllFunctionsIn(a) + AllFunctionsIn(b)
    case While(_, b) => AllFunctionsIn(b)
    case For(_, _, b) => AllFunctionsIn(b)
    case Def(f) => InnerFunctions(f)
    case _ => []
  }

  function InnerFunctions(f: Function): seq<Function>
    decreases f
  {
    [f] + AllFunctionsIn(f.body)
  }

  function AllFunctionsIn(ss: seq<Stmt>): seq<Function>
    decreases ss
  {
    if ss == [] then [] else AllFunctionsIn(ss[..|ss| - 1]) + FunctionsIn(ss[|ss| - 1])
  }

  function FunctionsOf(ms: seq<Module>): seq<Function> {
    if ms == [] then [] else FunctionsOf(ms[..|ms| - 1]) + AllFunctionsIn(ms[|ms| - 1].body)
  }
}
