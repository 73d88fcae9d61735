/** Runs of a program, with every value carrying the nodes of the expressions it passed through.
    Which branch is taken, how often a loop turns, which resolved callee a call enters and in which
    way, and which enclosing activation a function sees are free choices; containers are values. */
module FlowRuns {
  import opened Options
  import opened Evidence
  import opened Calls
  import opened FlowSyntax

  /** The nodes a value has passed through. */
  type Trail = set<nat>

  /** What an activation that makes an object has put into it so far, and the variable that still
      stands for the object, if one does. */
  datatype Object = NoObject | Named(name: string, held: Trail) | Unnamed(held: Trail)

  /** An activation of a scope, the activation it is nested in, and the object it makes. */
  datatype Frame = Frame(scope: nat, vars: map<string, Trail>, parent: Option<nat>, made: Object)

  /** `taken` pairs each node a value passed through with the external formal it was passed to. */
  datatype State = State(heap: seq<Frame>, taken: set<(nat, nat)>, choices: seq<nat>)

  /** Finished with a value, or stopped: an uncaught exception, or out of fuel. */
  datatype Outcome<T> = Done(st: State, value: T) | Stop(st: State)

  /** `binds` are the names each scope binds, `imports` those it imports; only targets of confidence
      `floor` or more are entered. */
  datatype World = World(functions: seq<Function>, scopeOf: map<nat, nat>, binds: set<(nat, string)>,
                         imports: set<(nat, string)>, floor: nat)

  // ---- which names a scope binds ----

  function NamesOf(t: Expr): set<string>
    decreases t
  {
    match t
    case Name(_, x) => {x}
    case Imported(_, x, _) => {x}
    case Union(parts) => AllNamesOf(parts)
    case _ => {}
  }

  function AllNamesOf(ts: seq<Expr>): set<string>
    decreases ts
  {
    if ts == [] then {} else AllNamesOf(ts[..|ts| - 1]) + NamesOf(ts[|ts| - 1])
  }

  function InScope(o: nat, xs: set<string>): set<(nat, string)> {
    set x | x in xs :: (o, x)
  }

  function ParamNames(ps: seq<Formal>): set<string> {
    set p | p in ps :: p.name
  }

  function BoundIn(s: Stmt, o: nat): set<(nat, string)>
    decreases s
  {
    match s
    case Assign(t, _) => InScope(o, NamesOf(t))
    case AugAssign(t, _) => InScope(o, NamesOf(t))
    case If(_, a, b) => AllBoundIn(a, o) + AllBoundIn(b, o)
    case While(_, b) => AllBoundIn(b, o)
    case For(t, _, b) => InScope(o, NamesOf(t)) + AllBoundIn(b, o)
    case Def(f) => BoundInFunction(f)
    case _ => {}
  }

  function BoundInFunction(f: Function): set<(nat, string)>
    decreases f
  {
    InScope(f.symbol, ParamNames(f.params)) + AllBoundIn(f.body, f.symbol)
  }

  function AllBoundIn(ss: seq<Stmt>, o: nat): set<(nat, string)>
    decreases ss
  {
    if ss == [] then {} else AllBoundIn(ss[..|ss| - 1], o) + BoundIn(ss[|ss| - 1], o)
  }

  function BoundInModules(ms: seq<Module>): set<(nat, string)> {
    if ms == [] then {} else BoundInModules(ms[..|ms| - 1]) + AllBoundIn(ms[|ms| - 1].body, ms[|ms| - 1].symbol)
  }

  // ---- which names a scope binds or stores into ----

  /** The names a target binds, those of the variables it stores into, and those in a call it stores
      into the value of. */
  function BasesOf(t: Expr): set<string>
    decreases t
  {
    match t
    case Name(_, x) => {x}
    case Imported(_, x, _) => {x}
    case Subscript(_, base, _) => BasesOf(base)
    case Attribute(_, base) => BasesOf(base)
    case Union(parts) => AllBasesOf(parts)
    case Comparison(parts) => AllBasesOf(parts)
    case Call(_, callee, args, _) => CalleeBasesOf(callee) + ArgsBasesOf(args)
    case _ => {}
  }

  function CalleeBasesOf(callee: Callee): set<string>
    decreases callee
  {
    match callee
    case Plain(_, x) => {x}
    case Method(receiver) => BasesOf(receiver)
    case Computed(inner) => BasesOf(inner)
  }

  function ArgBasesOf(a: Arg): set<string>
    decreases a
  {
    (if a.ByName? then {a.name} else {}) + BasesOf(a.value)
  }

  function ArgsBasesOf(args: seq<Arg>): set<string>
    decreases args
  {
    if args == [] then {} else ArgsBasesOf(args[..|args| - 1]) + ArgBasesOf(args[|args| - 1])
  }

  function AllBasesOf(ts: seq<Expr>): set<string>
    decreases ts
  {
    if ts == [] then {} else AllBasesOf(ts[..|ts| - 1]) + BasesOf(ts[|ts| - 1])
  }

  function WrittenIn(s: Stmt, o: nat): set<(nat, string)>
    decreases s
  {
    match s
    case Assign(t, _) => InScope(o, BasesOf(t))
    case AugAssign(t, _) => InScope(o, BasesOf(t))
    case If(_, a, b) => AllWrittenIn(a, o) + AllWrittenIn(b, o)
    case While(_, b) => AllWrittenIn(b, o)
    case For(t, _, b) => InScope(o, BasesOf(t)) + AllWrittenIn(b, o)
    case Def(f) => WrittenInFunction(f)
    case _ => {}
  }

  function WrittenInFunction(f: Function): set<(nat, string)>
    decreases f
  {
    AllWrittenIn(f.body, f.symbol)
  }

  function AllWrittenIn(ss: seq<Stmt>, o: nat): set<(nat, string)>
    decreases ss
  {
    if ss == [] then {} else AllWrittenIn(ss[..|ss| - 1], o) + WrittenIn(ss[|ss| - 1], o)
  }

  function WrittenInModules(ms: seq<Module>): set<(nat, string)> {
    if ms == [] then {} else WrittenInModules(ms[..|ms| - 1]) + AllWrittenIn(ms[|ms| - 1].body, ms[|ms| - 1].symbol)
  }

  function WorldOf(p: Program, floor: nat): World {
    World(FunctionsOf(p.modules), p.scopeOf, BoundInModules(p.modules), p.imports, floor)
  }

  // ---- state ----

  function Choice(st: State): nat {
    if st.choices == [] then 0 else st.choices[0]
  }

  function Chosen(st: State): State {
    if st.choices == [] then st else st.(choices := st.choices[1..])
  }

  /** The activation a name belongs to: the nearest one, outwards, whose scope binds it. */
  function Lookup(binds: set<(nat, string)>, heap: seq<Frame>, i: nat, x: string): Option<nat> {
    if i >= |heap| then None
    else if (heap[i].scope, x) in binds then Some(i)
    else if heap[i].parent.Some? && heap[i].parent.value < i then Lookup(binds, heap, heap[i].parent.value, x)
    else None
  }

  /** Binds a variable anew: an object it stood for it stands for no longer. */
  function SetVar(st: State, i: nat, x: string, v: Trail): State {
    if i >= |st.heap| then st
    else
      var f := st.heap[i];
      st.(heap := st.heap[i := f.(vars := f.vars[x := v], made := if f.made.Named? && f.made.name == x then Unnamed(f.made.held) else f.made)])
  }

  /** Puts a value into what a variable holds, and into the object it stands for. */
  function PutInto(st: State, i: nat, x: string, v: Trail): State
    requires i < |st.heap| && x in st.heap[i].vars
  {
    var f := st.heap[i];
    st.(heap := st.heap[i := f.(vars := f.vars[x := f.vars[x] + v],
                                made := if f.made.Named? && f.made.name == x then Named(x, f.made.held + v) else f.made)])
  }

  function Take(st: State, v: Trail, formal: nat): State {
    st.(taken := st.taken + (set n | n in v :: (n, formal)))
  }

  function AllOf(vs: seq<Trail>): (r: Trail)
    ensures forall n: nat :: n in r <==> exists k :: 0 <= k < |vs| && n in vs[k]
  {
    if vs == [] then {}
    else
      assert vs == vs[..|vs| - 1] + [vs[|vs| - 1]];
      AllOf(vs[..|vs| - 1]) + vs[|vs| - 1]
  }

  // ---- actuals to formals ----

  function Positionals(args: seq<Arg>): nat {
    if args == [] then 0 else Positionals(args[..|args| - 1]) + if args[|args| - 1].ByPosition? then 1 else 0
  }

  predicate TakesPosition(p: Formal) {
    p.kind.Ordinary? || p.kind.Starred?
  }

  predicate TakesName(p: Formal) {
    p.kind.Ordinary? || p.kind.KeywordOnly?
  }

  /** A keyword that some parameter is meant by. */
  predicate IsNamed(ps: seq<Formal>, x: string) {
    exists k :: 0 <= k < |ps| && TakesName(ps[k]) && ps[k].name == x
  }

  predicate AfterSpread(args: seq<Arg>, i: nat)
    requires i <= |args|
  {
    exists j :: 0 <= j < i && args[j].Spread?
  }

  /** As the language has it, parameter `k` may be bound to actual `i`, past `offset` leading
      parameters. A spread before a positional actual moves it on by any number of places; what a
      spread holds itself may go anywhere. */
  predicate MayBind(ps: seq<Formal>, args: seq<Arg>, i: nat, k: nat, offset: nat)
    requires i < |args| && k < |ps|
  {
    match args[i]
    case ByPosition(_) =>
      var at := offset + Positionals(args[..i]);
      (match ps[k].kind
       case Ordinary => k == at || (k > at && AfterSpread(args, i))
       case Starred => k <= at || AfterSpread(args, i)
       case _ => false)
    case ByName(_, x, _) =>
      (match ps[k].kind
       case Ordinary => ps[k].name == x
       case KeywordOnly => ps[k].name == x
       case Starred => false
       case DoubleStarred => !IsNamed(ps, x))
    case Spread(_) => k >= offset
  }

  /** What the first `n` actuals bring to parameter `k`. */
  function Into(ps: seq<Formal>, args: seq<Arg>, vs: seq<Trail>, k: nat, offset: nat, n: nat): Trail
    requires |args| == |vs| && k < |ps| && n <= |args|
  {
    if n == 0 then {}
    else Into(ps, args, vs, k, offset, n - 1) + if MayBind(ps, args, n - 1, k, offset) then vs[n - 1] else {}
  }

  function FirstTrail(args: seq<Arg>, vs: seq<Trail>): Trail
    requires |args| == |vs|
  {
    if args == [] then {}
    else if args[0].ByPosition? then vs[0]
    else FirstTrail(args[1..], vs[1..])
  }

  /** What the first parameter is bound to before any actual: nothing, the receiver, or the object
      being made. */
  datatype Lead = Nothing | TheReceiver | NewObject

  /** As the language has it: a static method takes its actuals only, a class method is passed the
      class, and any other method what it is called on, unless it is called on its class. */
  function LeadOf(f: Function, entry: Entry): Lead {
    if !f.isMethod || f.decoration.StaticMethod? then Nothing
    else if f.decoration.ClassMethod? then TheReceiver
    else
      match entry
      case OnObject => TheReceiver
      case OnClass => Nothing
      case Making => if f.isInit then NewObject else TheReceiver
  }

  /** How many leading parameters the actuals skip. */
  function OffsetOf(lead: Lead): nat {
    if lead.Nothing? then 0 else 1
  }

  /** A parameter's value; an object being made has been nowhere. */
  function ParamTrail(f: Function, k: nat, lead: Lead, receiver: Trail, args: seq<Arg>, vs: seq<Trail>): Trail
    requires k < |f.params| && |args| == |vs|
  {
    if k == 0 && lead.NewObject? && f.params[0].kind.Ordinary? then {}
    else
      {NodeOf(f.params[k].id, ParameterRole, false)}
      + (if k == 0 && lead.TheReceiver? then receiver else {})
      + Into(f.params, args, vs, k, OffsetOf(lead), |args|)
  }

  /** The variables of a fresh activation after its first `n` parameters are bound. */
  function BindParams(f: Function, n: nat, lead: Lead, receiver: Trail, args: seq<Arg>, vs: seq<Trail>): map<string, Trail>
    requires n <= |f.params| && |args| == |vs|
  {
    if n == 0 then map[]
    else BindParams(f, n - 1, lead, receiver, args, vs)[f.params[n - 1].name := ParamTrail(f, n - 1, lead, receiver, args, vs)]
  }

  function ObjectOf(f: Function, lead: Lead): Object {
    if lead.NewObject? && f.params != [] && f.params[0].kind.Ordinary? then Named(f.params[0].name, {}) else NoObject
  }

  function Find(fs: seq<Function>, symbol: nat): Option<Function> {
    if fs == [] then None else if fs[0].symbol == symbol then Some(fs[0]) else Find(fs[1..], symbol)
  }

  // ---- expressions ----

  function Eval(w: World, e: Expr, at: nat, st: State, fuel: nat): Outcome<Trail>
    decreases fuel, e, 2
  {
    match e
    case Literal(id) => Done(st, {NodeOf(id, LiteralRole, false)})
    case Number => Done(st, {})
    case Name(id, x) => ReadName(w, id, x, at, st)
    case Imported(id, _, _) => ReadImported(w, {NodeOf(id, UseRole, false)}, e, at, st)
    case Attribute(id, base) =>
      if IsDotted(base) then ReadImported(w, {NodeOf(id, UseRole, false)}, base, at, st)
      else
        (match Eval(w, base, at, st, fuel)
         case Done(s, v) => Done(s, v + {NodeOf(id, UseRole, false)})
         case Stop(s) => Stop(s))
    case Subscript(id, value, index) =>
      (match Eval(w, value, at, st, fuel)
       case Stop(s) => Stop(s)
       case Done(s, v) =>
         match Eval(w, index, at, s, fuel)
         case Stop(s') => Stop(s')
         case Done(s', _) => Done(s', v + {NodeOf(id, UseRole, false)}))
    case Union(parts) =>
      (match EvalAll(w, parts, at, st, fuel)
       case Stop(s) => Stop(s)
       case Done(s, vs) => Done(s, AllOf(vs)))
    case Comparison(parts) =>
      (match EvalAll(w, parts, at, st, fuel)
       case Stop(s) => Stop(s)
       case Done(s, _) => Done(s, {}))
    case Call(_, callee, args, _) =>
      match EvalCallee(w, callee, at, st, fuel)
      case Stop(s) => Stop(s)
      case Done(s, receiver) =>
        match EvalArgs(w, args, at, s, fuel)
        case Stop(s') => Stop(s')
        case Done(s', vs) => if |vs| == |args| then Dispatch(w, e, receiver, vs, s', fuel) else Stop(s')
  }

  function ReadName(w: World, id: nat, x: string, at: nat, st: State): Outcome<Trail> {
    match Lookup(w.binds, st.heap, at, x)
    case None => Done(st, {NodeOf(id, UseRole, false)})
    case Some(i) =>
      if i < |st.heap| && x in st.heap[i].vars then Done(st, st.heap[i].vars[x] + {NodeOf(id, UseRole, false)})
      else Stop(st)
  }

  /** A dotted name: the variable of the nearest scope that binds the name it starts with, unless
      that scope only imports it; of one that does both, either. `own` is the node it has. */
  function ReadImported(w: World, own: Trail, e: Expr, at: nat, st: State): Outcome<Trail>
    requires IsDotted(e)
  {
    var x := Head(e).name;
    match Lookup(w.binds + w.imports, st.heap, at, x)
    case None => Done(st, own)
    case Some(i) =>
      if i >= |st.heap| then Stop(st)
      else if (st.heap[i].scope, x) !in w.imports then ReadVariable(st, i, x, own)
      else if (st.heap[i].scope, x) in w.binds && Choice(st) == 0 then ReadVariable(Chosen(st), i, x, own)
      else ReadOrigin(w, Head(e).origin, Chosen(st), own)
  }

  function ReadVariable(st: State, i: nat, x: string, own: Trail): Outcome<Trail> {
    if i < |st.heap| && x in st.heap[i].vars then Done(st, st.heap[i].vars[x] + own) else Stop(st)
  }

  /** What a name is imported from: of a module of the package, the variable in some activation. */
  function ReadOrigin(w: World, origin: Origin, st: State, own: Trail): Outcome<Trail> {
    match origin
    case Outside => Done(st, own)
    case Inside(m, y) =>
      var j := Choice(st);
      if (m, y) in w.binds && j < |st.heap| && st.heap[j].scope == m then ReadVariable(Chosen(st), j, y, own) else Stop(Chosen(st))
  }

  /** The parts of an operator, each of which may be skipped, as `and` and `or` do. */
  function EvalAll(w: World, es: seq<Expr>, at: nat, st: State, fuel: nat): Outcome<seq<Trail>>
    decreases fuel, es, 0
  {
    if es == [] then Done(st, [])
    else
      match EvalAll(w, es[..|es| - 1], at, st, fuel)
      case Stop(s) => Stop(s)
      case Done(s, vs) =>
        if Choice(s) == 0 then Done(Chosen(s), vs + [{}])
        else
          match Eval(w, es[|es| - 1], at, Chosen(s), fuel)
          case Stop(s') => Stop(s')
          case Done(s', v) => Done(s', vs + [v])
  }

  /** The receiver's value, if there is one. */
  function EvalCallee(w: World, callee: Callee, at: nat, st: State, fuel: nat): Outcome<Trail>
    decreases fuel, callee, 0
  {
    match callee
    case Plain(_, _) => Done(st, {})
    case Method(receiver) => if IsDotted(receiver) then ReadImported(w, {}, receiver, at, st) else Eval(w, receiver, at, st, fuel)
    case Computed(inner) =>
      match Eval(w, inner, at, st, fuel)
      case Stop(s) => Stop(s)
      case Done(s, _) => Done(s, {})
  }

  function EvalArg(w: World, a: Arg, at: nat, st: State, fuel: nat): Outcome<Trail>
    decreases fuel, a, 0
  {
    Eval(w, a.value, at, st, fuel)
  }

  function EvalArgs(w: World, args: seq<Arg>, at: nat, st: State, fuel: nat): Outcome<seq<Trail>>
    decreases fuel, args, 0
  {
    if args == [] then Done(st, [])
    else
      match EvalArgs(w, args[..|args| - 1], at, st, fuel)
      case Stop(s) => Stop(s)
      case Done(s, vs) =>
        match EvalArg(w, args[|args| - 1], at, s, fuel)
        case Stop(s') => Stop(s')
        case Done(s', v) => Done(s', vs + [v])
  }

  /** Goes to one of the call's resolved targets. */
  function Dispatch(w: World, e: Expr, receiver: Trail, vs: seq<Trail>, st: State, fuel: nat): Outcome<Trail>
    requires e.Call? && |vs| == |e.args|
    decreases fuel, e, 1
  {
    if e.targets == [] then Done(st, {NodeOf(e.id, ResultRole, false)})
    else
      var t := e.targets[Choice(st) % |e.targets|];
      if t.confidence.Rank() < w.floor then Stop(Chosen(st))
      else if t.Foreign? then PassOut(e, t, receiver, vs, Chosen(st))
      else Enter(w, e, t, receiver, vs, Chosen(st), fuel)
  }

  /** An external callee: a preserving one hands its actuals on, any other takes them. */
  function PassOut(e: Expr, t: CallTarget, receiver: Trail, vs: seq<Trail>, st: State): Outcome<Trail>
    requires e.Call? && |vs| == |e.args| && t.Foreign?
  {
    var result := NodeOf(e.id, ResultRole, false);
    if t.preserving then Done(st, receiver + AllOf(vs) + {result})
    else
      var s := Take(st, receiver + AllOf(vs), NodeOf(t.id, ForeignRole, false));
      Done(Take(s, FirstTrail(e.args, vs), NodeOf(t.id, FirstRole, false)), {result})
  }

  /** A callee of the package, come to in one of the ways the call may. */
  function Enter(w: World, e: Expr, t: CallTarget, receiver: Trail, vs: seq<Trail>, st: State, fuel: nat): Outcome<Trail>
    requires e.Call? && |vs| == |e.args| && t.Package?
    decreases fuel, e, 0
  {
    var found := Find(w.functions, t.symbol);
    if fuel == 0 || found.None? || t.entries == [] then Stop(st)
    else
      var f, lead := found.value, LeadOf(found.value, t.entries[Choice(st) % |t.entries|]);
      match Invoke(w, f, BindParams(f, |f.params|, lead, receiver, e.args, vs), ObjectOf(f, lead), Chosen(st), fuel - 1)
      case Stop(s) => Stop(s)
      case Done(s, v) => Done(s, v + {NodeOf(e.id, ResultRole, false)})
  }

  /** Runs a function's body in a fresh activation, nested in one of its enclosing scope; the value
      is the object made, if one is, and what is returned otherwise. */
  function Invoke(w: World, f: Function, vars: map<string, Trail>, made: Object, st: State, fuel: nat): Outcome<Trail>
    decreases fuel, f, 3
  {
    var outer := Choice(st);
    if f.symbol in w.scopeOf && !(outer < |st.heap| && st.heap[outer].scope == w.scopeOf[f.symbol]) then Stop(st)
    else
      var parent := if f.symbol in w.scopeOf then Some(outer) else None;
      var s := Chosen(st).(heap := st.heap + [Frame(f.symbol, vars, parent, made)]);
      match ExecAll(w, f.body, |st.heap|, s, fuel)
      case Stop(s') => Stop(s')
      case Done(s', r) => Done(s', if made.NoObject? then (if r.Some? then r.value else {}) else HeldBy(s', |st.heap|))
  }

  function HeldBy(st: State, i: nat): Trail {
    if i >= |st.heap| || st.heap[i].made.NoObject? then {} else st.heap[i].made.held
  }

  // ---- statements: a value is what was returned, if anything was ----

  function Exec(w: World, s: Stmt, at: nat, st: State, fuel: nat): Outcome<Option<Trail>>
    decreases fuel, s, 3
  {
    match s
    case Evaluate(e) =>
      (match Eval(w, e, at, st, fuel)
       case Stop(s1) => Stop(s1)
       case Done(s1, _) => Done(s1, None))
    case Assign(t, e) =>
      (match Eval(w, e, at, st, fuel)
       case Stop(s1) => Stop(s1)
       case Done(s1, v) => Store(w, t, v, at, s1, fuel, true))
    case AugAssign(t, e) =>
      (match Eval(w, t, at, st, fuel)
       case Stop(s1) => Stop(s1)
       case Done(s1, u) =>
         match Eval(w, e, at, s1, fuel)
         case Stop(s2) => Stop(s2)
         case Done(s2, v) => Store(w, t, u + v, at, s2, fuel, false))
    case If(c, a, b) =>
      (match Eval(w, c, at, st, fuel)
       case Stop(s1) => Stop(s1)
       case Done(s1, _) => if Choice(s1) == 0 then ExecAll(w, b, at, Chosen(s1), fuel) else ExecAll(w, a, at, Chosen(s1), fuel))
    case While(_, _) => Loop(w, s, {}, at, st, fuel)
    case For(_, e, _) =>
      (match Eval(w, e, at, st, fuel)
       case Stop(s1) => Stop(s1)
       case Done(s1, v) => Loop(w, s, v, at, s1, fuel))
    case Give(id, e) =>
      (match Eval(w, e, at, st, fuel)
       case Stop(s1) => Stop(s1)
       case Done(s1, v) => Done(s1, Some(v + {NodeOf(id, ReturnRole, false)})))
    case Def(_) => Done(st, None)
  }

  function ExecAll(w: World, ss: seq<Stmt>, at: nat, st: State, fuel: nat): Outcome<Option<Trail>>
    decreases fuel, ss, 0
  {
    if ss == [] then Done(st, None)
    else
      match ExecAll(w, ss[..|ss| - 1], at, st, fuel)
      case Stop(s) => Stop(s)
      case Done(s, r) => if r.Some? then Done(s, r) else Exec(w, ss[|ss| - 1], at, s, fuel)
  }

  /** Turns of a loop; each turn of a `for` binds its target from the iterated value. */
  function Loop(w: World, s: Stmt, v: Trail, at: nat, st: State, fuel: nat): Outcome<Option<Trail>>
    requires s.While? || s.For?
    decreases fuel, s, 2
  {
    if fuel == 0 then Stop(st)
    else
      match if s.While? then Ignored(Eval(w, s.cond, at, st, fuel - 1)) else Done(st, None)
      case Stop(s1) => Stop(s1)
      case Done(s1, _) => Turn(w, s, v, at, s1, fuel)
  }

  /** The rest of a turn, once the condition is evaluated. */
  function Turn(w: World, s: Stmt, v: Trail, at: nat, st: State, fuel: nat): Outcome<Option<Trail>>
    requires (s.While? || s.For?) && fuel > 0
    decreases fuel, s, 1
  {
    if Choice(st) == 0 then Done(Chosen(st), None)
    else
      match if s.For? then Store(w, s.target, v, at, Chosen(st), fuel - 1, true) else Done(Chosen(st), None)
      case Stop(s2) => Stop(s2)
      case Done(s2, _) => Body(w, s, v, at, s2, fuel)
  }

  /** The body of a turn, then the next turn. */
  function Body(w: World, s: Stmt, v: Trail, at: nat, st: State, fuel: nat): Outcome<Option<Trail>>
    requires (s.While? || s.For?) && fuel > 0
    decreases fuel, s, 0
  {
    match ExecAll(w, s.body, at, st, fuel - 1)
    case Stop(s1) => Stop(s1)
    case Done(s1, r) => if r.Some? then Done(s1, r) else Loop(w, s, v, at, s1, fuel - 1)
  }

  function Ignored(r: Outcome<Trail>): Outcome<Option<Trail>> {
    match r
    case Stop(s) => Stop(s)
    case Done(s, _) => Done(s, None)
  }

  // ---- stores ----

  /** Assigns to a target; `indexes` says whether its indexes are still to be evaluated. */
  function Store(w: World, t: Expr, v: Trail, at: nat, st: State, fuel: nat, indexes: bool): Outcome<Option<Trail>>
    decreases fuel, t, 4
  {
    match t
    case Name(id, x) => Done(SetVar(st, at, x, v + {NodeOf(id, DefinitionRole, !indexes)}), None)
    case Imported(id, x, _) => Done(SetVar(st, at, x, v + {NodeOf(id, DefinitionRole, !indexes)}), None)
    case Subscript(_, _, _) => StoreInto(w, t, v, at, st, fuel, indexes)
    case Attribute(_, _) => StoreInto(w, t, v, at, st, fuel, indexes)
    case Call(_, _, _, _) => StoreInto(w, t, v, at, st, fuel, indexes)
    case Union(parts) => StoreAll(w, parts, v, at, st, fuel, indexes)
    case _ => Stop(st)
  }

  function StoreAll(w: World, ts: seq<Expr>, v: Trail, at: nat, st: State, fuel: nat, indexes: bool): Outcome<Option<Trail>>
    decreases fuel, ts, 0
  {
    if ts == [] then Done(st, None)
    else
      match StoreAll(w, ts[..|ts| - 1], v, at, st, fuel, indexes)
      case Stop(s) => Stop(s)
      case Done(s, _) => Store(w, ts[|ts| - 1], v, at, s, fuel, indexes)
  }

  /** Puts a value into the container a place stands for: what was there stays. What any other
      expression gives is evaluated and holds the value no longer than the store. */
  function StoreInto(w: World, t: Expr, v: Trail, at: nat, st: State, fuel: nat, indexes: bool): Outcome<Option<Trail>>
    decreases fuel, t, 3
  {
    match t
    case Name(id, x) =>
      (match Lookup(w.binds, st.heap, at, x)
       case None => Stop(st)
       case Some(i) => PutAt(st, i, x, v + {NodeOf(id, DefinitionRole, !indexes)}))
    case Imported(id, x, origin) => PutImported(w, x, origin, at, st, v + {NodeOf(id, DefinitionRole, !indexes)})
    case Subscript(_, base, index) =>
      (match if indexes then Ignored(Eval(w, index, at, st, fuel)) else Done(st, None)
       case Stop(s) => Stop(s)
       case Done(s, _) => StoreInto(w, base, v, at, s, fuel, indexes))
    case Attribute(_, base) => StoreInto(w, base, v, at, st, fuel, indexes)
    case _ => if indexes then Ignored(Eval(w, t, at, st, fuel)) else Done(st, None)
  }

  function PutAt(st: State, i: nat, x: string, v: Trail): Outcome<Option<Trail>> {
    if i < |st.heap| && x in st.heap[i].vars then Done(PutInto(st, i, x, v), None) else Stop(st)
  }

  /** A store into what an imported name stands for. */
  function PutImported(w: World, x: string, origin: Origin, at: nat, st: State, v: Trail): Outcome<Option<Trail>> {
    match Lookup(w.binds + w.imports, st.heap, at, x)
    case None => Stop(st)
    case Some(i) =>
      if i < |st.heap| && (st.heap[i].scope, x) in w.binds then PutAt(st, i, x, v)
      else
        match origin
        case Outside => Done(st, None)
        case Inside(m, y) =>
          var j := Choice(st);
          if j < |st.heap| && st.heap[j].scope == m then PutAt(Chosen(st), j, y, v) else Stop(Chosen(st))
  }

  // ---- whole runs ----

  /** A module is imported, or a function is called from outside the package. */
  datatype Step = Load(module_: nat) | CallIn(symbol: nat)

  function FromOutside(f: Function, n: nat): map<string, Trail>
    requires n <= |f.params|
  {
    if n == 0 then map[]
    else FromOutside(f, n - 1)[f.params[n - 1].name := {NodeOf(f.params[n - 1].id, ParameterRole, false)}]
  }

  function RunStep(p: Program, w: World, step: Step, st: State, fuel: nat): State {
    match step
    case Load(k) =>
      if k < |p.modules| then
        ExecAll(w, p.modules[k].body, |st.heap|, st.(heap := st.heap + [Frame(p.modules[k].symbol, map[], None, NoObject)]), fuel).st
      else st
    case CallIn(symbol) =>
      match Find(w.functions, symbol)
      case None => st
      case Some(f) => Invoke(w, f, FromOutside(f, |f.params|), NoObject, st, fuel).st
  }

  /** The state a run leaves behind; an exception ends its step, not the run. */
  function Run(p: Program, floor: nat, steps: seq<Step>, choices: seq<nat>, fuel: nat): State {
    if steps == [] then State([], {}, choices)
    else RunStep(p, WorldOf(p, floor), steps[|steps| - 1], Run(p, floor, steps[..|steps| - 1], choices, fuel), fuel)
  }
}
