/** Taint soundness: whatever node a value passed through on its way to an external argument, the
    graph has a path from there. */
module FlowSoundness {
  import opened Options
  import opened Walks
  import opened Evidence
  import opened Calls
  import opened Hubs
  import opened FlowSyntax
  import opened FlowWalker
  import opened FlowGraph
  import opened FlowRuns
  import opened FlowFits
  import opened FlowRecord
  import opened FlowCarried
  import opened FlowActuals
  import HubWiring
  import HubTheorem

  // ---- outcomes ----

  /** The state stays sound and a value, if any, is carried by `ns`. */
  ghost predicate Good(k: Setting, st: State, r: Outcome<Trail>, ns: seq<nat>) {
    Kept(k, st, r.st) && (r.Done? ==> Carried(k.R, r.value, ns))
  }

  ghost predicate AllGood(k: Setting, st: State, r: Outcome<seq<Trail>>, ns: seq<nat>) {
    Kept(k, st, r.st) && (r.Done? ==> Carried(k.R, AllOf(r.value), ns))
  }

  ghost predicate ArgsGood(k: Setting, st: State, r: Outcome<seq<Trail>>, args: seq<Arg>) {
    Kept(k, st, r.st) && (r.Done? ==> ArgsCarried(k.R, args, r.value))
  }

  /** The state stays sound and what is returned, if anything, is carried by the returns of `o`. */
  ghost predicate Flows(k: Setting, st: State, r: Outcome<Option<Trail>>, o: nat) {
    Kept(k, st, r.st) && (r.Done? && r.value.Some? ==> Carried(k.R, r.value.value, k.ResultNodes(o)))
  }

  /** Where evaluation starts: scope `o` running in a sound state. */
  ghost predicate Ready(k: Setting, st: State, at: nat, o: nat) {
    k.Valid() && Sound(k, st) && Runs(st, at, o)
  }

  lemma ReadyAfter(k: Setting, st: State, st': State, at: nat, o: nat)
    requires Ready(k, st, at, o) && Kept(k, st, st')
    ensures Ready(k, st', at, o)
  {
    StillRuns(k, st, st', at, o);
    hide Setting.Valid, Sound, Runs, Grows;
  }

  lemma RecordedParts(k: Setting, a: seq<Event>, b: seq<Event>)
    requires k.Recorded(a + b)
    ensures k.Recorded(a) && k.Recorded(b)
  {
    hide LogOf;
  }

  // ---- expressions ----

  lemma LeafGood(k: Setting, st: State, n: nat)
    requires k.Valid() && Sound(k, st)
    ensures Good(k, st, Done(st, {n}), [n])
  {
    hide Setting.Valid, Sound;
    KeptSelf(k, st);
    CarriedItself(k.R, n, [n]);
  }

  lemma {:induction false} EvalSound(k: Setting, e: Expr, at: nat, st: State, fuel: nat, o: nat)
    requires Ready(k, st, at, o) && k.Recorded(Evaluated(e, o, false)) && Sees(e, o, k.Fragment())
    ensures Good(k, st, Eval(k.World(), e, at, st, fuel), Values(e, false))
    decreases fuel, e, 3
  {
    match e
    case Literal(id) => LeafGood(k, st, NodeOf(id, LiteralRole, false));
    case Number => KeptSelf(k, st);
    case Name(id, x) =>
      KeptSelf(k, st);
      ReadCarried(k, st, at, o, id, x);
    case Imported(id, _, _) => DottedGood(k, e, NodeOf(id, UseRole, false), at, st, o);
    case Attribute(_, _) => AttributeSound(k, e, at, st, fuel, o);
    case Subscript(_, _, _) => SubscriptSound(k, e, at, st, fuel, o);
    case Union(parts) => EvalAllSound(k, parts, at, st, fuel, o);
    case Comparison(parts) => EvalAllSound(k, parts, at, st, fuel, o);
    case Call(_, _, _, _) => CallSound(k, e, at, st, fuel, o);
  }

  lemma {:induction false} HeadSees(e: Expr, o: nat, ctx: Context)
    requires IsDotted(e) && Sees(e, o, ctx)
    ensures FromElsewhere(o, Head(e).name, Head(e).origin, ctx)
    decreases e
  {
    if e.Attribute? {
      HeadSees(e.base, o, ctx);
    }
  }

  lemma DottedGood(k: Setting, e: Expr, node: nat, at: nat, st: State, o: nat)
    requires IsDotted(e) && Ready(k, st, at, o) && Sees(e, o, k.Fragment())
    ensures Good(k, st, ReadImported(k.World(), {node}, e, at, st), [node])
  {
    HeadSees(e, o, k.Fragment());
    CarriedItself(k.R, node, [node]);
    hide Setting.Valid, Sound, Carried, Kept, FromElsewhere, Sees;
    ImportedCarried(k, st, {node}, e, at, o, [node]);
  }

  lemma DottedReceiverGood(k: Setting, e: Expr, at: nat, st: State, o: nat)
    requires IsDotted(e) && Ready(k, st, at, o) && Sees(e, o, k.Fragment())
    ensures Good(k, st, ReadImported(k.World(), {}, e, at, st), [])
  {
    HeadSees(e, o, k.Fragment());
    NothingCarried(k.R, []);
    hide Setting.Valid, Sound, Carried, Kept, FromElsewhere, Sees;
    ImportedCarried(k, st, {}, e, at, o, []);
  }

  lemma {:induction false} AttributeSound(k: Setting, e: Expr, at: nat, st: State, fuel: nat, o: nat)
    requires e.Attribute? && Ready(k, st, at, o) && k.Recorded(Evaluated(e, o, false)) && Sees(e, o, k.Fragment())
    ensures Good(k, st, Eval(k.World(), e, at, st, fuel), Values(e, false))
    decreases fuel, e, 2
  {
    var node := NodeOf(e.id, UseRole, false);
    if IsDotted(e.base) {
      DottedGood(k, e.base, node, at, st, o);
      return;
    }
    var links := LinksInto(Values(e.base, false), node, Resolved);
    RecordedParts(k, Evaluated(e.base, o, false), links);
    EvalSound(k, e.base, at, st, fuel, o);
    hide Setting.Valid, Sound, Runs, Kept, Carried, Evaluated, LinksInto, NodeOf, Setting.Recorded, Setting.World;
    var r := Eval(k.World(), e.base, at, st, fuel);
    if r.Done? {
      FullConfidence(k);
      LinkCarried(k, r.value, Values(e.base, false), node, Resolved);
    }
  }

  lemma FullConfidence(k: Setting)
    requires k.Valid()
    ensures Resolved.Rank() >= k.floor
  {
    hide InFragment, Setting.Links, Setting.Reads, Setting.Wires;
  }

  lemma {:induction false} SubscriptSound(k: Setting, e: Expr, at: nat, st: State, fuel: nat, o: nat)
    requires e.Subscript? && Ready(k, st, at, o) && k.Recorded(Evaluated(e, o, false)) && Sees(e, o, k.Fragment())
    ensures Good(k, st, Eval(k.World(), e, at, st, fuel), Values(e, false))
    decreases fuel, e, 2
  {
    var node := NodeOf(e.id, UseRole, false);
    var links := LinksInto(Values(e.value, false), node, Resolved);
    RecordedParts(k, Evaluated(e.value, o, false) + Evaluated(e.index, o, false), links);
    RecordedParts(k, Evaluated(e.value, o, false), Evaluated(e.index, o, false));
    EvalSound(k, e.value, at, st, fuel, o);
    var r := Eval(k.World(), e.value, at, st, fuel);
    if r.Done? {
      ReadyAfter(k, st, r.st, at, o);
      EvalSound(k, e.index, at, r.st, fuel, o);
      var q := Eval(k.World(), e.index, at, r.st, fuel);
      hide Setting.Valid, Sound, Runs, Kept, Carried, Evaluated, LinksInto, NodeOf, Setting.Recorded, Setting.World;
      KeptTrans(k, st, r.st, q.st);
      FullConfidence(k);
      LinkCarried(k, r.value, Values(e.value, false), node, Resolved);
    } else {
      hide Setting.Valid, Sound, Runs, Kept, Carried, Evaluated, LinksInto, NodeOf, Setting.Recorded, Setting.World;
    }
  }

  lemma AllOfSnoc(vs: seq<Trail>, v: Trail)
    ensures AllOf(vs + [v]) == AllOf(vs) + v
  {
    assert (vs + [v])[..|vs|] == vs;
  }

  lemma {:induction false} EvalAllSound(k: Setting, es: seq<Expr>, at: nat, st: State, fuel: nat, o: nat)
    requires Ready(k, st, at, o) && k.Recorded(AllEvaluated(es, o, false)) && AllSee(es, o, k.Fragment())
    ensures AllGood(k, st, EvalAll(k.World(), es, at, st, fuel), AllValues(es, false))
    decreases fuel, es, 0
  {
    if es == [] {
      KeptSelf(k, st);
    } else {
      var init, e := es[..|es| - 1], es[|es| - 1];
      RecordedParts(k, AllEvaluated(init, o, false), Evaluated(e, o, false));
      EvalAllSound(k, init, at, st, fuel, o);
      var r := EvalAll(k.World(), init, at, st, fuel);
      if r.Done? {
        ReadyAfter(k, st, r.st, at, o);
        KeptSelf(k, r.st);
        ReadyAfter(k, r.st, Chosen(r.st), at, o);
        EvalSound(k, e, at, Chosen(r.st), fuel, o);
        var q := Eval(k.World(), e, at, Chosen(r.st), fuel);
        hide Setting.Valid, Sound, Runs, Kept, Carried, Evaluated, Setting.Recorded, Setting.World, Values, AllOf, Eval, Chosen, Choice;
        KeptTrans(k, st, r.st, Chosen(r.st));
        KeptTrans(k, st, Chosen(r.st), q.st);
        AllOfSnoc(r.value, {});
        NothingCarried(k.R, Values(e, false));
        CarriedConcat(k.R, AllOf(r.value), {}, AllValues(init, false), Values(e, false));
        if q.Done? {
          AllOfSnoc(r.value, q.value);
          CarriedConcat(k.R, AllOf(r.value), q.value, AllValues(init, false), Values(e, false));
        }
      } else {
        hide Setting.Valid, Sound, Runs, Kept, Carried, Evaluated, Setting.Recorded, Setting.World, Values, AllOf, Eval;
      }
    }
  }

  lemma NothingCarried(R: set<(nat, nat)>, ns: seq<nat>)
    ensures Carried(R, {}, ns)
  {
  }

  lemma {:induction false} CalleeSound(k: Setting, callee: Callee, at: nat, st: State, fuel: nat, o: nat)
    requires Ready(k, st, at, o) && k.Recorded(CalleeEvaluated(callee, o, false)) && CalleeSees(callee, o, k.Fragment())
    ensures Good(k, st, EvalCallee(k.World(), callee, at, st, fuel), ReceiverValues(callee, false))
    decreases fuel, callee, 0
  {
    match callee
    case Plain(_, _) => KeptSelf(k, st);
    case Method(receiver) =>
      if IsDotted(receiver) {
        DottedReceiverGood(k, receiver, at, st, o);
      } else {
        EvalSound(k, receiver, at, st, fuel, o);
      }
    case Computed(inner) => EvalSound(k, inner, at, st, fuel, o);
  }

  lemma {:induction false} ArgSound(k: Setting, a: Arg, at: nat, st: State, fuel: nat, o: nat)
    requires Ready(k, st, at, o) && k.Recorded(ArgEvaluated(a, o, false)) && ArgSees(a, o, k.Fragment())
    ensures Good(k, st, EvalArg(k.World(), a, at, st, fuel), Values(a.value, false))
    decreases fuel, a, 0
  {
    EvalSound(k, a.value, at, st, fuel, o);
  }

  lemma {:induction false} ArgsSound(k: Setting, args: seq<Arg>, at: nat, st: State, fuel: nat, o: nat)
    requires Ready(k, st, at, o) && k.Recorded(ArgsEvaluated(args, o, false)) && ArgsSee(args, o, k.Fragment())
    ensures ArgsGood(k, st, EvalArgs(k.World(), args, at, st, fuel), args)
    decreases fuel, args, 0
  {
    if args == [] {
      KeptSelf(k, st);
    } else {
      var init, a := args[..|args| - 1], args[|args| - 1];
      RecordedParts(k, ArgsEvaluated(init, o, false), ArgEvaluated(a, o, false));
      ArgsSound(k, init, at, st, fuel, o);
      var r := EvalArgs(k.World(), init, at, st, fuel);
      if r.Done? {
        ReadyAfter(k, st, r.st, at, o);
        ArgSound(k, a, at, r.st, fuel, o);
        var q := EvalArg(k.World(), a, at, r.st, fuel);
        hide Setting.Valid, Sound, Runs, Kept, Carried, ArgEvaluated, Setting.Recorded, Setting.World, Values, EvalArg;
        KeptTrans(k, st, r.st, q.st);
      } else {
        hide Setting.Valid, Sound, Runs, Kept, Carried, ArgEvaluated, Setting.Recorded, Setting.World, Values, EvalArg;
      }
    }
  }

  /** What a call of the fragment has on record. */
  ghost predicate CallRecorded(k: Setting, e: Expr)
    requires e.Call?
  {
    && k.Recorded(TargetsEvents(e.id, e.callee, e.args, e.targets, false))
    && (PackageTargets(e.targets) != [] ==> k.Recorded([Called(Pending(e.id, e.callee, e.args, e.targets, false))]))
  }

  lemma CallParts(k: Setting, e: Expr, o: nat)
    requires e.Call? && k.Recorded(Evaluated(e, o, false))
    ensures k.Recorded(CalleeEvaluated(e.callee, o, false)) && k.Recorded(ArgsEvaluated(e.args, o, false)) && CallRecorded(k, e)
  {
    hide Setting.Recorded, CalleeEvaluated, ArgsEvaluated, TargetsEvents, Pending, PackageTargets;
    var c, a, t := CalleeEvaluated(e.callee, o, false), ArgsEvaluated(e.args, o, false), TargetsEvents(e.id, e.callee, e.args, e.targets, false);
    var p := if PackageTargets(e.targets) == [] then [] else [Called(Pending(e.id, e.callee, e.args, e.targets, false))];
    RecordedParts(k, c + a + t, p);
    RecordedParts(k, c + a, t);
    RecordedParts(k, c, a);
  }

  lemma {:induction false} CallSound(k: Setting, e: Expr, at: nat, st: State, fuel: nat, o: nat)
    requires e.Call? && Ready(k, st, at, o) && k.Recorded(Evaluated(e, o, false)) && Sees(e, o, k.Fragment())
    ensures Good(k, st, Eval(k.World(), e, at, st, fuel), Values(e, false))
    decreases fuel, e, 2
  {
    CallParts(k, e, o);
    CalleeSound(k, e.callee, at, st, fuel, o);
    var r := EvalCallee(k.World(), e.callee, at, st, fuel);
    if r.Done? {
      ReadyAfter(k, st, r.st, at, o);
      ArgsSound(k, e.args, at, r.st, fuel, o);
      var q := EvalArgs(k.World(), e.args, at, r.st, fuel);
      if q.Done? {
        KeptTrans(k, st, r.st, q.st);
        DispatchSound(k, e, r.value, q.value, q.st, fuel);
        var d := Dispatch(k.World(), e, r.value, q.value, q.st, fuel);
        hide Setting.Valid, Sound, Runs, Kept, Carried, Setting.Recorded, Setting.World, EvalCallee, EvalArgs, Dispatch;
        KeptTrans(k, st, q.st, d.st);
      } else {
        hide Setting.Valid, Sound, Runs, Kept, Carried, Setting.Recorded, Setting.World, EvalCallee, EvalArgs, Dispatch;
        KeptTrans(k, st, r.st, q.st);
      }
    } else {
      hide Setting.Valid, Sound, Runs, Kept, Carried, Setting.Recorded, Setting.World, EvalCallee, EvalArgs, Dispatch;
    }
  }

  // ---- entering a target ----

  lemma {:induction false} DispatchSound(k: Setting, e: Expr, receiver: Trail, vs: seq<Trail>, st: State, fuel: nat)
    requires e.Call? && k.Valid() && Sound(k, st) && CallRecorded(k, e) && TargetsSee(e.callee, e.args, e.targets, k.Fragment())
    requires |vs| == |e.args| && CallCarried(k, e, receiver, vs)
    ensures Good(k, st, Dispatch(k.World(), e, receiver, vs, st, fuel), [NodeOf(e.id, ResultRole, false)])
    decreases fuel, e, 1
  {
    KeptSelf(k, st);
    var result := NodeOf(e.id, ResultRole, false);
    CarriedItself(k.R, result, [result]);
    assert Sound(k, Chosen(st));
    hide Setting.Valid, Sound, CallRecorded, TargetsSee, CallCarried, Carried, Grows, Chosen, Choice, NodeOf, PassOut, Enter;
    if e.targets != [] {
      var i := Choice(st) % |e.targets|;
      var t := e.targets[i];
      if t.confidence.Rank() >= k.floor {
        if t.Foreign? {
          PassOutSound(k, e, receiver, vs, Chosen(st), i);
          KeptTrans(k, st, Chosen(st), PassOut(e, t, receiver, vs, Chosen(st)).st);
        } else {
          EnterSound(k, e, receiver, vs, Chosen(st), fuel, i);
          KeptTrans(k, st, Chosen(st), Enter(k.World(), e, t, receiver, vs, Chosen(st), fuel).st);
        }
      }
    }
  }

  lemma {:induction false} TargetRecorded(k: Setting, id: nat, callee: Callee, args: seq<Arg>, ts: seq<CallTarget>, i: nat)
    requires i < |ts| && k.Recorded(TargetsEvents(id, callee, args, ts, false))
    ensures k.Recorded(TargetEvents(id, callee, args, ts[i], false))
  {
    hide Setting.Recorded, TargetEvents;
    RecordedParts(k, TargetsEvents(id, callee, args, ts[..|ts| - 1], false), TargetEvents(id, callee, args, ts[|ts| - 1], false));
    if i < |ts| - 1 {
      TargetRecorded(k, id, callee, args, ts[..|ts| - 1], i);
    }
  }

  lemma PassOutSound(k: Setting, e: Expr, receiver: Trail, vs: seq<Trail>, st: State, i: nat)
    requires e.Call? && k.Valid() && Sound(k, st) && CallRecorded(k, e) && |vs| == |e.args| && CallCarried(k, e, receiver, vs)
    requires i < |e.targets| && e.targets[i].Foreign? && e.targets[i].confidence.Rank() >= k.floor
    ensures Good(k, st, PassOut(e, e.targets[i], receiver, vs, st), [NodeOf(e.id, ResultRole, false)])
  {
    var t, result := e.targets[i], NodeOf(e.id, ResultRole, false);
    TargetRecorded(k, e.id, e.callee, e.args, e.targets, i);
    ActualsCarried(k, e, receiver, vs);
    FirstCarried(k.R, e.args, vs);
    CarriedItself(k.R, result, [result]);
    KeptSelf(k, st);
    hide Setting.Valid, Sound, CallRecorded, CallCarried, Carried, Grows, NodeOf, Actuals, FirstPositional, LinksInto, Setting.Recorded,
         AllOf, FirstTrail, Take;
    var all := receiver + AllOf(vs);
    if t.preserving {
      LinkCarried(k, all, Actuals(e.callee, e.args, false), result, t.confidence);
    } else {
      var formal, first := NodeOf(t.id, ForeignRole, false), NodeOf(t.id, FirstRole, false);
      RecordedParts(k, LinksInto(Actuals(e.callee, e.args, false), formal, t.confidence), LinksInto(FirstPositional(e.args, false), first, t.confidence));
      LinkCarried(k, all, Actuals(e.callee, e.args, false), formal, t.confidence);
      LinkCarried(k, FirstTrail(e.args, vs), FirstPositional(e.args, false), first, t.confidence);
      LessCarried(k.R, all, formal, [formal]);
      LessCarried(k.R, FirstTrail(e.args, vs), first, [first]);
      var s := Take(st, all, formal);
      TakeSound(k, st, all, formal);
      TakeSound(k, s, FirstTrail(e.args, vs), first);
      KeptTrans(k, st, s, Take(s, FirstTrail(e.args, vs), first));
    }
  }

  lemma LessCarried(R: set<(nat, nat)>, v: Trail, n: nat, ns: seq<nat>)
    requires Carried(R, v + {n}, ns)
    ensures Carried(R, v, ns)
  {
    hide Arrives;
  }

  lemma {:induction false} FindIs(fs: seq<Function>, symbol: nat)
    ensures var f := Find(fs, symbol); f.Some? ==> f.value in fs && f.value.symbol == symbol
  {
    if fs != [] && fs[0].symbol != symbol {
      FindIs(fs[1..], symbol);
    }
  }

  lemma {:induction false} PackageTargetAt(ts: seq<CallTarget>, i: nat)
    requires i < |ts| && ts[i].Package?
    ensures Target(ts[i].symbol, ts[i].confidence) in PackageTargets(ts) && PackageTargets(ts) != []
  {
    if i < |ts| - 1 {
      PackageTargetAt(ts[..|ts| - 1], i);
    }
  }

  lemma {:induction false} EnterSound(k: Setting, e: Expr, receiver: Trail, vs: seq<Trail>, st: State, fuel: nat, i: nat)
    requires e.Call? && k.Valid() && Sound(k, st) && CallRecorded(k, e) && TargetsSee(e.callee, e.args, e.targets, k.Fragment()) && |vs| == |e.args|
    requires CallCarried(k, e, receiver, vs)
    requires i < |e.targets| && e.targets[i].Package? && e.targets[i].confidence.Rank() >= k.floor
    ensures Good(k, st, Enter(k.World(), e, e.targets[i], receiver, vs, st, fuel), [NodeOf(e.id, ResultRole, false)])
    decreases fuel, e, 0
  {
    var target := e.targets[i];
    var found := Find(k.World().functions, target.symbol);
    FindIs(k.World().functions, target.symbol);
    KeptSelf(k, st);
    if fuel > 0 && found.Some? && target.entries != [] {
      var f, t, entry := found.value, Target(target.symbol, target.confidence), target.entries[Choice(st) % |target.entries|];
      PackageTargetAt(e.targets, i);
      assert target in e.targets && entry in target.entries;
      assert Enters(k, e, f, t, entry);
      BindParamsSound(k, e, f, t, entry, |f.params|, receiver, vs);
      var vars := BindParams(f, |f.params|, LeadOf(f, entry), receiver, e.args, vs);
      var made := ObjectOf(f, LeadOf(f, entry));
      assert ObjectSound(k, f.symbol, made);
      assert Sound(k, Chosen(st));
      InvokeSound(k, f, vars, made, Chosen(st), fuel - 1);
      var r := Invoke(k.World(), f, vars, made, Chosen(st), fuel - 1);
      KeptTrans(k, st, Chosen(st), r.st);
      if r.Done? {
        if made.NoObject? {
          ResultCarried(k, e, f, t, entry, r.value);
        } else {
          CarriedItself(k.R, NodeOf(e.id, ResultRole, false), [NodeOf(e.id, ResultRole, false)]);
        }
      }
    }
    hide Setting.Valid, Sound, CallRecorded, CallCarried, Carried, Grows, NodeOf, Setting.World, Find, Invoke, BindParams, TargetsSee, LeadOf, ObjectOf, Choice, Chosen;
  }

  /** A callee's value is carried by its returns; an object made has had nothing put into it. */
  lemma {:induction false} InvokeSound(k: Setting, f: Function, vars: map<string, Trail>, made: Object, st: State, fuel: nat)
    requires k.Valid() && Sound(k, st) && f in FunctionsOf(k.p.modules) && VarsSound(k, f.symbol, vars) && ObjectSound(k, f.symbol, made)
    ensures var r := Invoke(k.World(), f, vars, made, st, fuel);
            && (made.NoObject? ==> Good(k, st, r, k.ResultNodes(f.symbol)))
            && (!made.NoObject? ==> Kept(k, st, r.st) && (r.Done? ==> r.value == {}))
    decreases fuel, f, 3
  {
    var outer := Choice(st);
    KeptSelf(k, st);
    if !(f.symbol in k.p.scopeOf && !(outer < |st.heap| && st.heap[outer].scope == k.p.scopeOf[f.symbol])) {
      var frame := Frame(f.symbol, vars, if f.symbol in k.p.scopeOf then Some(outer) else None, made);
      var s := Chosen(st).(heap := st.heap + [frame]);
      PushSound(k, Chosen(st), frame);
      BodyRecorded(k, f);
      ExecAllSound(k, f.body, |st.heap|, s, fuel, f.symbol);
      var r := ExecAll(k.World(), f.body, |st.heap|, s, fuel);
      KeptTrans(k, st, Chosen(st), s);
      KeptTrans(k, st, s, r.st);
      NothingCarried(k.R, k.ResultNodes(f.symbol));
      if r.Done? {
        HeldNothing(k, r.st, |st.heap|);
      }
    }
    hide Setting.Valid, Sound, VarsSound, Carried, Grows, ExecAll, Chosen, Choice, FunctionsOf, HeldBy;
  }

  lemma BodyRecorded(k: Setting, f: Function)
    requires k.Valid() && f in FunctionsOf(k.p.modules)
    ensures k.Recorded(AllVisited(f.body, f.symbol)) && AllFit(f.body, f.symbol, k.Fragment())
  {
    FunctionRecorded(k.p, f);
    RecordedParts(k, ParamEvents(f.symbol, f.params), AllVisited(f.body, f.symbol));
    hide LogOf, InFragment, Setting.Links, Setting.Reads, Setting.Wires, ParamEvents, AllVisited, AllFit, BoundInModules, FunctionsOf, ContextOf;
  }

  // ---- stores ----

  lemma DefinedCarried(k: Setting, v: Trail, values: seq<nat>, o: nat, x: string, id: nat, again: bool)
    requires k.Valid() && k.Recorded(NameBound(id, x, o, values, again)) && Carried(k.R, v, values)
    ensures Carried(k.R, v + {NodeOf(id, DefinitionRole, again)}, k.DefNodes(o, x))
  {
    var node := NodeOf(id, DefinitionRole, again);
    var links, def := LinksInto(values, node, Resolved), [Defined(o, x, node)];
    RecordedParts(k, links, def);
    assert def[0] == Defined(o, x, node);
    FullConfidence(k);
    hide LogOf, InFragment, Setting.Links, Setting.Reads, Setting.Wires, LinksInto, Carried, NodeOf;
    LinkCarried(k, v, values, node, Resolved);
    CarriedMore(k.R, v + {node}, [node], k.DefNodes(o, x));
  }

  lemma {:induction false} StoreSound(k: Setting, t: Expr, v: Trail, at: nat, st: State, fuel: nat, indexes: bool, o: nat, values: seq<nat>)
    requires Ready(k, st, at, o) && k.Recorded(Bound(t, o, values, !indexes)) && IsTarget(t, o, k.Fragment()) && Carried(k.R, v, values)
    ensures Flows(k, st, Store(k.World(), t, v, at, st, fuel, indexes), o)
    decreases fuel, t, 4
  {
    match t
    case Name(id, x) =>
      DefinedCarried(k, v, values, o, x, id, !indexes);
      SetVarSound(k, st, at, x, v + {NodeOf(id, DefinitionRole, !indexes)});
    case Imported(id, x, _) =>
      DefinedCarried(k, v, values, o, x, id, !indexes);
      SetVarSound(k, st, at, x, v + {NodeOf(id, DefinitionRole, !indexes)});
    case Subscript(_, _, _) => StoreIntoSound(k, t, v, at, st, fuel, indexes, o, values);
    case Attribute(_, _) => StoreIntoSound(k, t, v, at, st, fuel, indexes, o, values);
    case Union(parts) => StoreAllSound(k, parts, v, at, st, fuel, indexes, o, values);
    case _ => KeptSelf(k, st);
  }

  lemma {:induction false} StoreAllSound(k: Setting, ts: seq<Expr>, v: Trail, at: nat, st: State, fuel: nat, indexes: bool, o: nat, values: seq<nat>)
    requires Ready(k, st, at, o) && k.Recorded(AllBound(ts, o, values, !indexes)) && AllTargets(ts, o, k.Fragment()) && Carried(k.R, v, values)
    ensures Flows(k, st, StoreAll(k.World(), ts, v, at, st, fuel, indexes), o)
    decreases fuel, ts, 0
  {
    if ts == [] {
      KeptSelf(k, st);
    } else {
      var init, t := ts[..|ts| - 1], ts[|ts| - 1];
      RecordedParts(k, AllBound(init, o, values, !indexes), Bound(t, o, values, !indexes));
      StoreAllSound(k, init, v, at, st, fuel, indexes, o, values);
      var r := StoreAll(k.World(), init, v, at, st, fuel, indexes);
      if r.Done? {
        ReadyAfter(k, st, r.st, at, o);
        StoreSound(k, t, v, at, r.st, fuel, indexes, o, values);
        KeptTrans(k, st, r.st, Store(k.World(), t, v, at, r.st, fuel, indexes).st);
      }
      hide Setting.Valid, Sound, Runs, Kept, Carried, Bound, Setting.Recorded, Setting.World, Store;
    }
  }

  lemma {:induction false} StoreIntoSound(k: Setting, t: Expr, v: Trail, at: nat, st: State, fuel: nat, indexes: bool, o: nat, values: seq<nat>)
    requires Ready(k, st, at, o) && k.Recorded(Bound(t, o, values, !indexes)) && IsPlace(t, o, k.Fragment()) && Carried(k.R, v, values)
    ensures Flows(k, st, StoreInto(k.World(), t, v, at, st, fuel, indexes), o)
    decreases fuel, t, 3
  {
    match t
    case Name(id, x) =>
      KeptSelf(k, st);
      if x in st.heap[at].vars {
        DefinedCarried(k, v, values, o, x, id, !indexes);
        DefinedWritten(k, values, o, x, id, !indexes);
        hide Carried, NodeOf, Setting.Valid, Sound, LogOf, Setting.DefNodes, Setting.Fragment;
        PutIntoSound(k, st, at, x, v + {NodeOf(id, DefinitionRole, !indexes)});
      }
    case Subscript(_, base, index) =>
      StoreIndexSound(k, t, v, at, st, fuel, indexes, o, values);
    case Attribute(_, base) =>
      StoreIntoSound(k, base, v, at, st, fuel, indexes, o, values);
    case _ => KeptSelf(k, st);
  }

  /** What a target of the program stores into is among the names written. */
  lemma DefinedWritten(k: Setting, values: seq<nat>, o: nat, x: string, id: nat, again: bool)
    requires k.Recorded(NameBound(id, x, o, values, again))
    ensures (o, x) in k.Fragment().written
  {
    var node := NodeOf(id, DefinitionRole, again);
    var links, def := LinksInto(values, node, Resolved), [Defined(o, x, node)];
    RecordedParts(k, links, def);
    assert def[0] == Defined(o, x, node);
    hide LogOf, LinksInto, NodeOf, WrittenInModules;
    TargetIsWritten(k.p, o, x, id, again);
  }

  lemma {:induction false} StoreIndexSound(k: Setting, t: Expr, v: Trail, at: nat, st: State, fuel: nat, indexes: bool, o: nat, values: seq<nat>)
    requires t.Subscript? && Ready(k, st, at, o) && k.Recorded(Bound(t, o, values, !indexes)) && IsPlace(t, o, k.Fragment()) && Carried(k.R, v, values)
    ensures Flows(k, st, StoreInto(k.World(), t, v, at, st, fuel, indexes), o)
    decreases fuel, t, 1
  {
    RecordedParts(k, Evaluated(t.index, o, !indexes), Bound(t.value, o, values, !indexes));
    KeptSelf(k, st);
    if indexes {
      EvalSound(k, t.index, at, st, fuel, o);
      var r := Eval(k.World(), t.index, at, st, fuel);
      if r.Done? {
        ReadyAfter(k, st, r.st, at, o);
        StoreIntoSound(k, t.value, v, at, r.st, fuel, indexes, o, values);
        KeptTrans(k, st, r.st, StoreInto(k.World(), t.value, v, at, r.st, fuel, indexes).st);
      }
    } else {
      StoreIntoSound(k, t.value, v, at, st, fuel, indexes, o, values);
    }
    hide Setting.Valid, Sound, Runs, Kept, Carried, Bound, Setting.Recorded, Setting.World, Eval, Lookup, SetVar;
  }

  // ---- statements ----

  lemma {:induction false} ExecAllSound(k: Setting, ss: seq<Stmt>, at: nat, st: State, fuel: nat, o: nat)
    requires Ready(k, st, at, o) && k.Recorded(AllVisited(ss, o)) && AllFit(ss, o, k.Fragment())
    ensures Flows(k, st, ExecAll(k.World(), ss, at, st, fuel), o)
    decreases fuel, ss, 0
  {
    if ss == [] {
      KeptSelf(k, st);
    } else {
      var init, s := ss[..|ss| - 1], ss[|ss| - 1];
      RecordedParts(k, AllVisited(init, o), Visited(s, o));
      ExecAllSound(k, init, at, st, fuel, o);
      var r := ExecAll(k.World(), init, at, st, fuel);
      if r.Done? {
        ReadyAfter(k, st, r.st, at, o);
        ExecSound(k, s, at, r.st, fuel, o);
        KeptTrans(k, st, r.st, Exec(k.World(), s, at, r.st, fuel).st);
      }
      hide Setting.Valid, Sound, Runs, Kept, Carried, Visited, Setting.Recorded, Setting.World, Exec;
    }
  }

  lemma {:induction false} ExecSound(k: Setting, s: Stmt, at: nat, st: State, fuel: nat, o: nat)
    requires Ready(k, st, at, o) && k.Recorded(Visited(s, o)) && Fits(s, o, k.Fragment())
    ensures Flows(k, st, Exec(k.World(), s, at, st, fuel), o)
    decreases fuel, s, 4
  {
    match s
    case Evaluate(e) => EvalSound(k, e, at, st, fuel, o);
    case Assign(_, _) => AssignSound(k, s, at, st, fuel, o);
    case AugAssign(_, _) => AugAssignSound(k, s, at, st, fuel, o);
    case If(_, _, _) => IfSound(k, s, at, st, fuel, o);
    case While(_, _) => LoopSound(k, s, {}, at, st, fuel, o);
    case For(_, _, _) => ForSound(k, s, at, st, fuel, o);
    case Give(_, _) => GiveSound(k, s, at, st, fuel, o);
    case Def(_) => KeptSelf(k, st);
  }

  lemma {:induction false} AssignSound(k: Setting, s: Stmt, at: nat, st: State, fuel: nat, o: nat)
    requires s.Assign? && Ready(k, st, at, o) && k.Recorded(Visited(s, o)) && Fits(s, o, k.Fragment())
    ensures Flows(k, st, Exec(k.World(), s, at, st, fuel), o)
    decreases fuel, s, 3
  {
    var values := Values(s.value, false);
    RecordedParts(k, Evaluated(s.value, o, false), Bound(s.target, o, values, false));
    EvalSound(k, s.value, at, st, fuel, o);
    var r := Eval(k.World(), s.value, at, st, fuel);
    if r.Done? {
      ReadyAfter(k, st, r.st, at, o);
      StoreSound(k, s.target, r.value, at, r.st, fuel, true, o, values);
      KeptTrans(k, st, r.st, Store(k.World(), s.target, r.value, at, r.st, fuel, true).st);
    }
    hide Setting.Valid, Sound, Runs, Kept, Carried, Setting.Recorded, Setting.World, Eval, Store;
  }

  lemma {:induction false} AugAssignSound(k: Setting, s: Stmt, at: nat, st: State, fuel: nat, o: nat)
    requires s.AugAssign? && Ready(k, st, at, o) && k.Recorded(Visited(s, o)) && Fits(s, o, k.Fragment())
    ensures Flows(k, st, Exec(k.World(), s, at, st, fuel), o)
    decreases fuel, s, 3
  {
    var right, left := Values(s.value, false), Values(s.target, false);
    RecordedParts(k, Evaluated(s.value, o, false) + Evaluated(s.target, o, false), Bound(s.target, o, right + left, true));
    RecordedParts(k, Evaluated(s.value, o, false), Evaluated(s.target, o, false));
    EvalSound(k, s.target, at, st, fuel, o);
    var r := Eval(k.World(), s.target, at, st, fuel);
    if r.Done? {
      ReadyAfter(k, st, r.st, at, o);
      EvalSound(k, s.value, at, r.st, fuel, o);
      var q := Eval(k.World(), s.value, at, r.st, fuel);
      KeptTrans(k, st, r.st, q.st);
      if q.Done? {
        ReadyAfter(k, r.st, q.st, at, o);
        CarriedConcat(k.R, q.value, r.value, right, left);
        assert q.value + r.value == r.value + q.value;
        StoreSound(k, s.target, r.value + q.value, at, q.st, fuel, false, o, right + left);
        KeptTrans(k, st, q.st, Store(k.World(), s.target, r.value + q.value, at, q.st, fuel, false).st);
      }
    }
    hide Setting.Valid, Sound, Runs, Kept, Carried, Setting.Recorded, Setting.World, Eval, Store;
  }

  lemma {:induction false} IfSound(k: Setting, s: Stmt, at: nat, st: State, fuel: nat, o: nat)
    requires s.If? && Ready(k, st, at, o) && k.Recorded(Visited(s, o)) && Fits(s, o, k.Fragment())
    ensures Flows(k, st, Exec(k.World(), s, at, st, fuel), o)
    decreases fuel, s, 3
  {
    RecordedParts(k, Evaluated(s.cond, o, false) + AllVisited(s.then_, o), AllVisited(s.else_, o));
    RecordedParts(k, Evaluated(s.cond, o, false), AllVisited(s.then_, o));
    EvalSound(k, s.cond, at, st, fuel, o);
    var r := Eval(k.World(), s.cond, at, st, fuel);
    if r.Done? {
      var c := Chosen(r.st);
      ReadyAfter(k, st, r.st, at, o);
      KeptSelf(k, r.st);
      KeptTrans(k, st, r.st, c);
      ReadyAfter(k, st, c, at, o);
      ExecAllSound(k, s.then_, at, c, fuel, o);
      ExecAllSound(k, s.else_, at, c, fuel, o);
      KeptTrans(k, st, c, ExecAll(k.World(), s.then_, at, c, fuel).st);
      KeptTrans(k, st, c, ExecAll(k.World(), s.else_, at, c, fuel).st);
    }
    hide Setting.Valid, Sound, Runs, Kept, Carried, Setting.Recorded, Setting.World, Eval, ExecAll, Choice, Chosen;
  }

  lemma {:induction false} ForSound(k: Setting, s: Stmt, at: nat, st: State, fuel: nat, o: nat)
    requires s.For? && Ready(k, st, at, o) && k.Recorded(Visited(s, o)) && Fits(s, o, k.Fragment())
    ensures Flows(k, st, Exec(k.World(), s, at, st, fuel), o)
    decreases fuel, s, 3
  {
    RecordedParts(k, Evaluated(s.iter, o, false) + Bound(s.target, o, Values(s.iter, false), false), AllVisited(s.body, o));
    RecordedParts(k, Evaluated(s.iter, o, false), Bound(s.target, o, Values(s.iter, false), false));
    EvalSound(k, s.iter, at, st, fuel, o);
    var r := Eval(k.World(), s.iter, at, st, fuel);
    if r.Done? {
      ReadyAfter(k, st, r.st, at, o);
      LoopSound(k, s, r.value, at, r.st, fuel, o);
      KeptTrans(k, st, r.st, Loop(k.World(), s, r.value, at, r.st, fuel).st);
    }
    hide Setting.Valid, Sound, Runs, Kept, Carried, Setting.Recorded, Setting.World, Eval, Loop;
  }

  lemma {:induction false} GiveSound(k: Setting, s: Stmt, at: nat, st: State, fuel: nat, o: nat)
    requires s.Give? && Ready(k, st, at, o) && k.Recorded(Visited(s, o)) && Fits(s, o, k.Fragment())
    ensures Flows(k, st, Exec(k.World(), s, at, st, fuel), o)
    decreases fuel, s, 3
  {
    var node := NodeOf(s.id, ReturnRole, false);
    var values := Values(s.value, false);
    RecordedParts(k, Evaluated(s.value, o, false) + LinksInto(values, node, Resolved), [Returned(o, node)]);
    RecordedParts(k, Evaluated(s.value, o, false), LinksInto(values, node, Resolved));
    EvalSound(k, s.value, at, st, fuel, o);
    var r := Eval(k.World(), s.value, at, st, fuel);
    ReturnIsResult(k, o, node);
    if r.Done? {
      FullConfidence(k);
      LinkCarried(k, r.value, values, node, Resolved);
      CarriedMore(k.R, r.value + {node}, [node], k.ResultNodes(o));
    }
    hide Setting.Valid, Sound, Runs, Kept, Carried, Setting.Recorded, Setting.World, Eval, NodeOf, Setting.ResultNodes;
  }

  lemma ReturnIsResult(k: Setting, o: nat, node: nat)
    requires k.Recorded([Returned(o, node)])
    ensures node in k.ResultNodes(o)
  {
    assert [Returned(o, node)][0] == Returned(o, node);
    hide LogOf;
  }

  /** What a loop has on record, and how its iterated value is carried. */
  ghost predicate LoopReady(k: Setting, s: Stmt, v: Trail, o: nat)
    requires s.While? || s.For?
  {
    && k.Recorded(AllVisited(s.body, o)) && AllFit(s.body, o, k.Fragment())
    && (s.While? ==> k.Recorded(Evaluated(s.cond, o, false)) && Sees(s.cond, o, k.Fragment()))
    && (s.For? ==> k.Recorded(Bound(s.target, o, Values(s.iter, false), false)) && IsTarget(s.target, o, k.Fragment())
                   && Carried(k.R, v, Values(s.iter, false)))
  }

  lemma LoopParts(k: Setting, s: Stmt, v: Trail, o: nat)
    requires s.While? || s.For?
    requires k.Recorded(Visited(s, o)) && Fits(s, o, k.Fragment())
    requires s.For? ==> Carried(k.R, v, Values(s.iter, false))
    ensures LoopReady(k, s, v, o)
  {
    if s.While? {
      RecordedParts(k, Evaluated(s.cond, o, false), AllVisited(s.body, o));
    } else {
      RecordedParts(k, Evaluated(s.iter, o, false) + Bound(s.target, o, Values(s.iter, false), false), AllVisited(s.body, o));
      RecordedParts(k, Evaluated(s.iter, o, false), Bound(s.target, o, Values(s.iter, false), false));
    }
    hide Setting.Recorded, Setting.World, Carried, Values, Evaluated, Bound, AllVisited;
  }

  lemma {:induction false} LoopSound(k: Setting, s: Stmt, v: Trail, at: nat, st: State, fuel: nat, o: nat)
    requires s.While? || s.For?
    requires Ready(k, st, at, o) && k.Recorded(Visited(s, o)) && Fits(s, o, k.Fragment())
    requires s.For? ==> Carried(k.R, v, Values(s.iter, false))
    ensures Flows(k, st, Loop(k.World(), s, v, at, st, fuel), o)
    decreases fuel, s, 2
  {
    LoopParts(k, s, v, o);
    hide Setting.Valid, Sound, Runs, Kept, Carried, Setting.Recorded, Setting.World, Eval, Visited, Fits, Values, Evaluated, Turn;
    KeptSelf(k, st);
    if fuel > 0 {
      var w := k.World();
      var r1 := if s.While? then Ignored(Eval(w, s.cond, at, st, fuel - 1)) else Done(st, None);
      if s.While? {
        EvalSound(k, s.cond, at, st, fuel - 1, o);
      }
      assert Kept(k, st, r1.st);
      if r1.Done? {
        TurnSound(k, s, v, at, st, r1.st, fuel, o);
      }
    }
  }

  lemma {:induction false} TurnSound(k: Setting, s: Stmt, v: Trail, at: nat, st0: State, st: State, fuel: nat, o: nat)
    requires (s.While? || s.For?) && fuel > 0 && Ready(k, st0, at, o) && Kept(k, st0, st)
    requires k.Recorded(Visited(s, o)) && Fits(s, o, k.Fragment())
    requires s.For? ==> Carried(k.R, v, Values(s.iter, false))
    ensures Flows(k, st0, Turn(k.World(), s, v, at, st, fuel), o)
    decreases fuel, s, 1
  {
    var w := k.World();
    LoopParts(k, s, v, o);
    ReadyAfter(k, st0, st, at, o);
    KeptSelf(k, st);
    KeptTrans(k, st0, st, Chosen(st));
    ReadyAfter(k, st0, Chosen(st), at, o);
    if s.For? {
      StoreSound(k, s.target, v, at, Chosen(st), fuel - 1, true, o, Values(s.iter, false));
      var r := Store(w, s.target, v, at, Chosen(st), fuel - 1, true);
      KeptTrans(k, st0, Chosen(st), r.st);
      if r.Done? {
        BodySound(k, s, v, at, st0, r.st, fuel, o);
      }
    } else {
      BodySound(k, s, v, at, st0, Chosen(st), fuel, o);
    }
    hide Setting.Valid, Sound, Runs, Kept, Carried, Setting.Recorded, Setting.World, Visited, Fits, Values, Choice, Chosen, Store, Body;
  }

  lemma {:induction false} BodySound(k: Setting, s: Stmt, v: Trail, at: nat, st0: State, st: State, fuel: nat, o: nat)
    requires (s.While? || s.For?) && fuel > 0 && Ready(k, st0, at, o) && Kept(k, st0, st)
    requires k.Recorded(Visited(s, o)) && Fits(s, o, k.Fragment())
    requires s.For? ==> Carried(k.R, v, Values(s.iter, false))
    ensures Flows(k, st0, Body(k.World(), s, v, at, st, fuel), o)
    decreases fuel, s, 0
  {
    var w := k.World();
    LoopParts(k, s, v, o);
    ReadyAfter(k, st0, st, at, o);
    ExecAllSound(k, s.body, at, st, fuel - 1, o);
    var r := ExecAll(w, s.body, at, st, fuel - 1);
    KeptTrans(k, st0, st, r.st);
    if r.Done? && r.value.None? {
      ReadyAfter(k, st0, r.st, at, o);
      LoopSound(k, s, v, at, r.st, fuel - 1, o);
      KeptTrans(k, st0, r.st, Loop(w, s, v, at, r.st, fuel - 1).st);
    }
    hide Setting.Valid, Sound, Runs, Kept, Carried, Setting.Recorded, Setting.World, Visited, Fits, Values, ExecAll, Loop;
  }
}
