/** The programs the soundness theorem speaks of: where stores stay inside, imports come from elsewhere,
    and calls line up with the methods they may come to and leave nothing over. */
module FlowFits {
  import opened Options
  import opened Evidence
  import opened Calls
  import opened FlowSyntax
  import opened FlowWalker
  import opened FlowGraph
  import opened FlowRuns

  // ---- the fragment ----

  /** The names the scopes of a program bind and import, those its targets bind or store into, its
      functions, and how its scopes nest. */
  datatype Context = Context(binds: set<(nat, string)>, imports: set<(nat, string)>, written: set<(nat, string)>,
                             functions: seq<Function>, scopeOf: map<nat, nat>)

  function ContextOf(p: Program): Context {
    Context(BoundInModules(p.modules), p.imports, WrittenInModules(p.modules), FunctionsOf(p.modules), p.scopeOf)
  }

  /** Where the walk counts a first parameter for a receiver exactly if a run binds one: by the
      decoration, the way the method is come to, and whether the receiver leaves a node. */
  predicate LinesUp(f: Function, entry: Entry, seen: bool) {
    f.isMethod ==>
      match f.decoration
      case StaticMethod => !seen && !f.isInit
      case ClassMethod => seen || f.isInit
      case Undecorated => if entry.OnClass? then !seen && !f.isInit else seen || f.isInit
  }

  /** Actual `i` is not left over for parameter `k`: a positional one does not stand beyond a starred
      one and is not moved on by a spread, and a keyword is not for a doubly starred one under
      another name. */
  predicate NotLeftOver(ps: seq<Formal>, args: seq<Arg>, i: nat, k: nat, offset: nat)
    requires i < |args| && k < |ps|
  {
    match args[i]
    case ByPosition(_) =>
      && (ps[k].kind.Starred? ==> offset + Positionals(args[..i]) <= k)
      && (TakesPosition(ps[k]) && AfterSpread(args, i) ==> k <= offset + Positionals(args[..i]))
    case ByName(_, x, _) => ps[k].kind.DoubleStarred? && !IsNamed(ps, x) ==> ps[k].name == x
    case Spread(_) => true
  }

  predicate NoneLeftOver(ps: seq<Formal>, args: seq<Arg>, offset: nat) {
    forall i: nat, k: nat :: i < |args| && k < |ps| ==> NotLeftOver(ps, args, i, k, offset)
  }

  /** An initialiser that makes an object puts nothing into it. */
  predicate KeepsNothing(f: Function, entry: Entry, ctx: Context) {
    LeadOf(f, entry).NewObject? && f.params != [] ==> (f.symbol, f.params[0].name) !in ctx.written
  }

  predicate TargetsSee(callee: Callee, args: seq<Arg>, ts: seq<CallTarget>, ctx: Context) {
    forall t, f, entry :: t in ts && t.Package? && f in ctx.functions && f.symbol == t.symbol && entry in t.entries
      ==> LinesUp(f, entry, ReceiverValues(callee, false) != []) && NoneLeftOver(f.params, args, OffsetOf(LeadOf(f, entry)))
          && KeepsNothing(f, entry, ctx)
  }

  /** What a name imported in its file stands for, read in scope `o`, is from outside: no scope that
      binds it comes first, and no module of the package binds what it is imported from. */
  predicate FromElsewhere(o: nat, x: string, origin: Origin, ctx: Context) {
    && Climbs(ctx.scopeOf)
    && var s := Nearest(ctx.binds + ctx.imports, ctx.scopeOf, o, x);
       s.Some? ==> (s.value, x) !in ctx.binds && (origin.Inside? ==> (origin.module_, origin.variable) !in ctx.binds)
  }

  /** Every call in `e` lines up with the methods it may come to, and no import is of the package's
      own variables or hidden. */
  predicate Sees(e: Expr, o: nat, ctx: Context)
    decreases e
  {
    match e
    case Imported(_, x, origin) => FromElsewhere(o, x, origin, ctx)
    case Attribute(_, base) => Sees(base, o, ctx)
    case Subscript(_, value, index) => Sees(value, o, ctx) && Sees(index, o, ctx)
    case Union(parts) => AllSee(parts, o, ctx)
    case Comparison(parts) => AllSee(parts, o, ctx)
    case Call(_, callee, args, ts) => CalleeSees(callee, o, ctx) && ArgsSee(args, o, ctx) && TargetsSee(callee, args, ts, ctx)
    case _ => true
  }

  predicate AllSee(es: seq<Expr>, o: nat, ctx: Context)
    decreases es
  {
    es != [] ==> AllSee(es[..|es| - 1], o, ctx) && Sees(es[|es| - 1], o, ctx)
  }

  predicate CalleeSees(callee: Callee, o: nat, ctx: Context)
    decreases callee
  {
    match callee
    case Plain(_, _) => true
    case Method(receiver) => Sees(receiver, o, ctx)
    case Computed(inner) => Sees(inner, o, ctx)
  }

  predicate ArgSees(a: Arg, o: nat, ctx: Context)
    decreases a
  {
    Sees(a.value, o, ctx)
  }

  predicate ArgsSee(args: seq<Arg>, o: nat, ctx: Context)
    decreases args
  {
    args != [] ==> ArgsSee(args[..|args| - 1], o, ctx) && ArgSees(args[|args| - 1], o, ctx)
  }

  /** What a store goes into is a variable its own scope binds. */
  predicate IsPlace(t: Expr, o: nat, ctx: Context)
    decreases t
  {
    match t
    case Name(_, x) => (o, x) in ctx.binds
    case Subscript(_, base, index) => IsPlace(base, o, ctx) && Sees(index, o, ctx)
    case Attribute(_, base) => IsPlace(base, o, ctx)
    case _ => false
  }

  predicate IsTarget(t: Expr, o: nat, ctx: Context)
    decreases t
  {
    match t
    case Name(_, _) => true
    case Imported(_, _, _) => true
    case Union(parts) => AllTargets(parts, o, ctx)
    case _ => IsPlace(t, o, ctx)
  }

  predicate AllTargets(ts: seq<Expr>, o: nat, ctx: Context)
    decreases ts
  {
    ts != [] ==> AllTargets(ts[..|ts| - 1], o, ctx) && IsTarget(ts[|ts| - 1], o, ctx)
  }

  predicate Fits(s: Stmt, o: nat, ctx: Context)
    decreases s
  {
    match s
    case Evaluate(e) => Sees(e, o, ctx)
    case Assign(t, e) => Sees(e, o, ctx) && IsTarget(t, o, ctx)
    case AugAssign(t, e) => Sees(e, o, ctx) && Sees(t, o, ctx) && IsTarget(t, o, ctx)
    case If(c, a, b) => Sees(c, o, ctx) && AllFit(a, o, ctx) && AllFit(b, o, ctx)
    case While(c, b) => Sees(c, o, ctx) && AllFit(b, o, ctx)
    case For(t, e, b) => Sees(e, o, ctx) && IsTarget(t, o, ctx) && AllFit(b, o, ctx)
    case Give(_, e) => Sees(e, o, ctx)
    case Def(f) => FunctionFits(f, ctx)
  }

  predicate FunctionFits(f: Function, ctx: Context)
    decreases f
  {
    && (forall i, j :: 0 <= i < j < |f.params| ==> f.params[i].name != f.params[j].name)
    && AllFit(f.body, f.symbol, ctx)
  }

  predicate AllFit(ss: seq<Stmt>, o: nat, ctx: Context)
    decreases ss
  {
    ss != [] ==> AllFit(ss[..|ss| - 1], o, ctx) && Fits(ss[|ss| - 1], o, ctx)
  }

  predicate ModulesFit(ms: seq<Module>, ctx: Context) {
    ms != [] ==> ModulesFit(ms[..|ms| - 1], ctx) && AllFit(ms[|ms| - 1].body, ms[|ms| - 1].symbol, ctx)
  }

  predicate DistinctSymbols(fs: seq<Function>) {
    forall i, j :: 0 <= i < j < |fs| ==> fs[i].symbol != fs[j].symbol
  }

  /** Scopes nest, definitions have their own symbols, stores are local, imports are from elsewhere,
      calls line up, and makers of objects put nothing into them. */
  predicate InFragment(p: Program) {
    && Climbs(p.scopeOf)
    && DistinctSymbols(FunctionsOf(p.modules))
    && (forall m :: m in p.modules ==> m.symbol !in p.scopeOf)
    && ModulesFit(p.modules, ContextOf(p))
  }

  // ---- where a run finds a name ----

  /** An activation's parent is an earlier one of the enclosing scope. */
  ghost predicate Nested(scopeOf: map<nat, nat>, heap: seq<Frame>, i: nat)
    requires i < |heap|
  {
    match heap[i].parent
    case None => heap[i].scope !in scopeOf
    case Some(j) => j < i && heap[i].scope in scopeOf && heap[j].scope == scopeOf[heap[i].scope]
  }

  /** Activations are nested as scopes are. */
  ghost predicate NestedHeap(scopeOf: map<nat, nat>, heap: seq<Frame>) {
    forall i :: 0 <= i < |heap| ==> Nested(scopeOf, heap, i)
  }

  lemma {:induction false} LookupIsNearestBound(binds: set<(nat, string)>, scopeOf: map<nat, nat>, heap: seq<Frame>, at: nat, x: string)
    requires Climbs(scopeOf) && NestedHeap(scopeOf, heap) && at < |heap|
    ensures match Lookup(binds, heap, at, x)
            case None => Nearest(binds, scopeOf, heap[at].scope, x) == None
            case Some(i) => i < |heap| && Nearest(binds, scopeOf, heap[at].scope, x) == Some(heap[i].scope)
    decreases at
  {
    assert Nested(scopeOf, heap, at);
    if (heap[at].scope, x) !in binds && heap[at].parent.Some? {
      LookupIsNearestBound(binds, scopeOf, heap, heap[at].parent.value, x);
    }
  }

  // ---- expressions define nothing ----

  ghost predicate Silent(log: seq<Event>) {
    forall v :: v in log ==> !v.Defined? && !v.HasParam?
  }

  lemma SilentConcat(a: seq<Event>, b: seq<Event>)
    requires Silent(a) && Silent(b)
    ensures Silent(a + b)
  {
  }

  lemma {:induction false} TargetsSilent(id: nat, callee: Callee, args: seq<Arg>, ts: seq<CallTarget>, again: bool)
    ensures Silent(TargetsEvents(id, callee, args, ts, again))
  {
    hide LinksInto, Actuals, FirstPositional;
    if ts != [] {
      TargetsSilent(id, callee, args, ts[..|ts| - 1], again);
      assert Silent(TargetEvents(id, callee, args, ts[|ts| - 1], again));
    }
  }

  /** Evaluating an expression defines nothing. */
  lemma {:induction false} EvaluatedSilent(e: Expr, o: nat, again: bool)
    ensures Silent(Evaluated(e, o, again))
    decreases e, 1
  {
    hide LinksInto, Values;
    match e
    case Attribute(_, base) =>
      if !IsDotted(base) {
        EvaluatedSilent(base, o, again);
      }
    case Subscript(_, value, index) =>
      EvaluatedSilent(value, o, again);
      EvaluatedSilent(index, o, again);
    case Union(parts) => AllSilent(parts, o, again);
    case Comparison(parts) => AllSilent(parts, o, again);
    case Call(_, callee, args, ts) =>
      hide TargetsEvents, PackageTargets;
      CalleeSilent(callee, o, again);
      ArgsSilent(args, o, again);
      TargetsSilent(e.id, callee, args, ts, again);
    case _ =>
  }

  lemma {:induction false} AllSilent(es: seq<Expr>, o: nat, again: bool)
    ensures Silent(AllEvaluated(es, o, again))
    decreases es
  {
    if es != [] {
      hide Evaluated;
      AllSilent(es[..|es| - 1], o, again);
      EvaluatedSilent(es[|es| - 1], o, again);
    }
  }

  lemma {:induction false} CalleeSilent(callee: Callee, o: nat, again: bool)
    ensures Silent(CalleeEvaluated(callee, o, again))
    decreases callee
  {
    match callee
    case Plain(_, _) =>
    case Method(receiver) =>
      if !IsDotted(receiver) {
        EvaluatedSilent(receiver, o, again);
      }
    case Computed(inner) => EvaluatedSilent(inner, o, again);
  }

  lemma {:induction false} ArgSilent(a: Arg, o: nat, again: bool)
    ensures Silent(ArgEvaluated(a, o, again))
    decreases a
  {
    EvaluatedSilent(a.value, o, again);
  }

  lemma {:induction false} ArgsSilent(args: seq<Arg>, o: nat, again: bool)
    ensures Silent(ArgsEvaluated(args, o, again))
    decreases args
  {
    if args != [] {
      hide ArgEvaluated;
      ArgsSilent(args[..|args| - 1], o, again);
      ArgSilent(args[|args| - 1], o, again);
    }
  }
}
