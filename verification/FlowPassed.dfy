/** What an expression hands on, against runs: some run of some program passes it on, from the one
    node to the other. */
module FlowPassed {
  import opened Options
  import opened Evidence
  import opened Calls
  import opened Hubs
  import opened FlowSyntax
  import opened FlowRuns
  import opened FlowLinks
  import opened FlowEvents

  // ---- calls a run can get past ----

  predicate LetsIn(t: CallTarget) {
    t.Foreign? || t.entries != []
  }

  ghost predicate CanPass(x: Expr) {
    x.Call? && x.targets != [] ==> exists t :: t in x.targets && LetsIn(t)
  }

  /** No call in `e` has only package callees that it can come to in no way. */
  ghost predicate Passable(e: Expr) {
    forall x :: IsPartOf(x, e) ==> CanPass(x)
  }

  ghost predicate KnownTo(n: nat, x: Expr) {
    x.Call? ==> forall t :: t in x.targets && t.Package? ==> t.symbol < n
  }

  /** The package callees of the calls in `e` are numbered below `n`. */
  ghost predicate Known(e: Expr, n: nat) {
    forall x :: IsPartOf(x, e) ==> KnownTo(n, x)
  }

  ghost predicate Ready(e: Expr, n: nat) {
    Passable(e) && Known(e, n)
  }

  lemma PartIsReady(e: Expr, n: nat, k: nat)
    requires Ready(e, n) && k < |Parts(e)|
    ensures Ready(Parts(e)[k], n)
  {
    hide CanPass, KnownTo, Parts;
    forall x | IsPartOf(x, Parts(e)[k]) ensures IsPartOf(x, e) {
    }
  }

  lemma {:induction false} HighEnough(e: Expr) returns (n: nat)
    ensures Known(e, n)
    decreases e, |Parts(e)| + 1
  {
    var m := HighEnoughBelow(e, |Parts(e)|);
    n := m + if e.Call? then Highest(e.targets) else 0;
    if e.Call? {
      HighestIs(e.targets);
    }
    hide Highest, Parts;
    forall x | IsPartOf(x, e) ensures KnownTo(n, x) {
      if x != e {
        var k :| 0 <= k < |Parts(e)| && IsPartOf(x, Parts(e)[k]);
        assert KnownTo(m, x);
      }
    }
  }

  lemma {:induction false} HighEnoughBelow(e: Expr, k: nat) returns (n: nat)
    requires k <= |Parts(e)|
    ensures forall j, x :: 0 <= j < k && IsPartOf(x, Parts(e)[j]) ==> KnownTo(n, x)
    decreases e, k
  {
    n := 0;
    if k > 0 {
      var m := HighEnoughBelow(e, k - 1);
      var last := HighEnough(Parts(e)[k - 1]);
      n := m + last;
      hide IsPartOf, Parts;
      forall j, x | 0 <= j < k && IsPartOf(x, Parts(e)[j]) ensures KnownTo(n, x) {
        assert KnownTo(m, x) || KnownTo(last, x);
      }
    }
  }

  function Highest(ts: seq<CallTarget>): nat {
    if ts == [] then 0
    else Highest(ts[1..]) + if ts[0].Package? then ts[0].symbol + 1 else 0
  }

  lemma {:induction false} HighestIs(ts: seq<CallTarget>)
    ensures forall t :: t in ts && t.Package? ==> t.symbol < Highest(ts)
  {
    if ts != [] {
      HighestIs(ts[1..]);
      assert ts == [ts[0]] + ts[1..];
    }
  }

  // ---- a program around an expression ----

  /** A function that does nothing. */
  function Stub(i: nat): Function {
    Function(i, [], [], false, false, Undecorated)
  }

  function Stubs(n: nat): (r: seq<Function>)
    ensures |r| == n && forall i :: 0 <= i < n ==> r[i] == Stub(i)
  {
    if n == 0 then [] else Stubs(n - 1) + [Stub(n - 1)]
  }

  function Defs(n: nat): seq<Stmt> {
    if n == 0 then [] else Defs(n - 1) + [Def(Stub(n - 1))]
  }

  /** A module that defines `n` functions that do nothing, and then evaluates `x`. */
  function Around(x: Expr, n: nat): Program {
    Program([Module(n, Defs(n) + [Evaluate(x)])], map[], {})
  }

  function Bare(n: nat): World {
    World(Stubs(n), map[], {}, {}, 0)
  }

  lemma {:induction false} DefsAre(n: nat, o: nat)
    ensures AllFunctionsIn(Defs(n)) == Stubs(n) && AllBoundIn(Defs(n), o) == {}
  {
    if n > 0 {
      DefsAre(n - 1, o);
      assert Defs(n)[..|Defs(n)| - 1] == Defs(n - 1);
      assert AllFunctionsIn(Stub(n - 1).body) == [];
      assert FunctionsIn(Def(Stub(n - 1))) == [Stub(n - 1)];
      assert ParamNames(Stub(n - 1).params) == {} && AllBoundIn(Stub(n - 1).body, n - 1) == {};
      assert BoundIn(Def(Stub(n - 1)), o) == {};
    }
  }

  lemma BareIs(x: Expr, n: nat)
    ensures WorldOf(Around(x, n), 0) == Bare(n)
  {
    var body := Defs(n) + [Evaluate(x)];
    DefsAre(n, n);
    assert body[..|body| - 1] == Defs(n);
    assert AllFunctionsIn(body) == Stubs(n) + [];
    assert AllBoundIn(body, n) == {} + {};
    var ms := [Module(n, body)];
    assert ms[..0] == [];
    hide Defs, AllFunctionsIn, AllBoundIn, Stubs;
    assert FunctionsOf(ms) == [] + Stubs(n);
    assert BoundInModules(ms) == {};
  }

  lemma FindStub(n: nat, symbol: nat)
    requires symbol < n
    ensures Find(Stubs(n), symbol) == Some(Stub(symbol))
  {
    FoundIn(Stubs(n), symbol);
    hide Find;
  }

  lemma {:induction false} FoundIn(fs: seq<Function>, k: nat)
    requires k < |fs|
    ensures var f := Find(fs, fs[k].symbol); f.Some? && f.value in fs && f.value.symbol == fs[k].symbol
  {
    if fs[0].symbol != fs[k].symbol {
      FoundIn(fs[1..], k - 1);
    }
  }

  // ---- the choices that get through ----

  function FirstIn(ts: seq<CallTarget>): (i: nat)
    ensures (exists t :: t in ts && LetsIn(t)) ==> i < |ts| && LetsIn(ts[i])
  {
    if ts == [] then 0
    else if LetsIn(ts[0]) then 0
    else
      assert ts == [ts[0]] + ts[1..];
      FirstIn(ts[1..]) + 1
  }

  /** Goes to target `i`; into a package function in the first way, and where it is. */
  function TargetPicks(ts: seq<CallTarget>, i: nat): seq<nat>
    requires i < |ts|
  {
    if ts[i].Foreign? then [i] else [i, 0, 0]
  }

  function CallPicks(ts: seq<CallTarget>): seq<nat> {
    if FirstIn(ts) < |ts| then TargetPicks(ts, FirstIn(ts)) else []
  }

  /** Evaluates every operand, and goes to a callee that lets the run through. */
  function Picks(e: Expr): seq<nat>
    decreases e
  {
    match e
    case Attribute(_, base) => if IsDotted(base) then [] else Picks(base)
    case Subscript(_, value, index) => Picks(value) + Picks(index)
    case Union(parts) => AllPicks(parts)
    case Comparison(parts) => AllPicks(parts)
    case Call(_, callee, args, ts) => CalleePicks(callee) + ArgsPicks(args) + CallPicks(ts)
    case _ => []
  }

  function AllPicks(es: seq<Expr>): seq<nat>
    decreases es
  {
    if es == [] then [] else AllPicks(es[..|es| - 1]) + [1] + Picks(es[|es| - 1])
  }

  function CalleePicks(callee: Callee): seq<nat>
    decreases callee
  {
    match callee
    case Plain(_, _) => []
    case Method(receiver) => if IsDotted(receiver) then [] else Picks(receiver)
    case Computed(inner) => Picks(inner)
  }

  function ArgPicks(a: Arg): seq<nat>
    decreases a
  {
    Picks(a.value)
  }

  function ArgsPicks(args: seq<Arg>): seq<nat>
    decreases args
  {
    if args == [] then [] else ArgsPicks(args[..|args| - 1]) + ArgPicks(args[|args| - 1])
  }

  function With(st: State, choices: seq<nat>): State {
    st.(choices := choices)
  }

  // ---- evaluating in a bare world ----

  /** Finished, with the choices `rest` left. */
  predicate Leaves<T>(r: Outcome<T>, rest: seq<nat>) {
    r.Done? && r.st.choices == rest
  }

  /** The value has been where `e` gets it from. */
  ghost predicate Has(e: Expr, v: Trail) {
    forall n: nat :: Carries(e, false, n) ==> n in v
  }

  ghost predicate HasAll(es: seq<Expr>, vs: seq<Trail>) {
    |vs| == |es| && forall k :: 0 <= k < |es| ==> Has(es[k], vs[k])
  }

  lemma {:induction false} EvalGets(n: nat, e: Expr, at: nat, st: State, rest: seq<nat>, fuel: nat)
    requires fuel > 0 && Ready(e, n)
    ensures var r := Eval(Bare(n), e, at, With(st, Picks(e) + rest), fuel); Leaves(r, rest) && Has(e, r.value)
    decreases e, 3
  {
    hide *;
    match e
    case Attribute(_, _) => AttributeGets(n, e, at, st, rest, fuel);
    case Subscript(_, _, _) => SubscriptGets(n, e, at, st, rest, fuel);
    case Union(parts) =>
      PartsReady(n, e);
      AllGets(n, parts, at, st, rest, fuel);
      UnionGets(n, e, at, st, rest, fuel);
    case Comparison(parts) =>
      PartsReady(n, e);
      AllGets(n, parts, at, st, rest, fuel);
      ComparisonGets(n, e, at, st, rest, fuel);
    case Call(_, callee, args, ts) =>
      CallReady(n, e);
      CallGets(n, e, at, st, rest, fuel);
    case _ => LeafGets(n, e, at, st, rest, fuel);
  }

  lemma LeafGets(n: nat, e: Expr, at: nat, st: State, rest: seq<nat>, fuel: nat)
    requires e.Literal? || e.Number? || e.Name? || e.Imported?
    ensures var r := Eval(Bare(n), e, at, With(st, Picks(e) + rest), fuel); Leaves(r, rest) && Has(e, r.value)
  {
    hide NodeOf;
    assert Picks(e) + rest == rest;
    if e.Name? {
      NoneFound(st.heap, at, e.name);
    }
    if e.Imported? {
      DottedGets(n, {NodeOf(e.id, UseRole, false)}, e, at, With(st, rest));
    }
  }

  lemma {:induction false} NoneFound(heap: seq<Frame>, i: nat, x: string)
    ensures Lookup({}, heap, i, x) == None
    decreases i
  {
    if i < |heap| && heap[i].parent.Some? && heap[i].parent.value < i {
      NoneFound(heap, heap[i].parent.value, x);
    }
  }

  lemma DottedGets(n: nat, own: Trail, e: Expr, at: nat, st: State)
    requires IsDotted(e)
    ensures ReadImported(Bare(n), own, e, at, st) == Done(st, own)
  {
    NoneFound(st.heap, at, Head(e).name);
    var none: set<(nat, string)> := {};
    assert none + none == none;
  }

  lemma AttributeGets(n: nat, e: Expr, at: nat, st: State, rest: seq<nat>, fuel: nat)
    requires fuel > 0 && Ready(e, n) && e.Attribute?
    ensures var r := Eval(Bare(n), e, at, With(st, Picks(e) + rest), fuel);
            Leaves(r, rest) && Has(e, r.value) && (!IsDotted(e.base) ==> Has(e.base, r.value))
    decreases e, 2
  {
    if IsDotted(e.base) {
      assert Picks(e) + rest == rest;
      DottedGets(n, {NodeOf(e.id, UseRole, false)}, e.base, at, With(st, rest));
    } else {
      assert Parts(e)[0] == e.base;
      PartIsReady(e, n, 0);
      EvalGets(n, e.base, at, st, rest, fuel);
    }
    hide NodeOf, Bare, ReadImported, Ready;
  }

  lemma SubscriptGets(n: nat, e: Expr, at: nat, st: State, rest: seq<nat>, fuel: nat)
    requires fuel > 0 && Ready(e, n) && e.Subscript?
    ensures var r := Eval(Bare(n), e, at, With(st, Picks(e) + rest), fuel); Leaves(r, rest) && Has(e, r.value) && Has(e.value, r.value)
    decreases e, 2
  {
    assert Parts(e)[0] == e.value && Parts(e)[1] == e.index;
    PartIsReady(e, n, 0);
    PartIsReady(e, n, 1);
    EvalGets(n, e.value, at, st, Picks(e.index) + rest, fuel);
    assert Picks(e) + rest == Picks(e.value) + (Picks(e.index) + rest);
    var s := Eval(Bare(n), e.value, at, With(st, Picks(e) + rest), fuel).st;
    EvalGets(n, e.index, at, s, rest, fuel);
    assert With(s, Picks(e.index) + rest) == s;
    hide NodeOf, Bare, Ready, Picks;
  }

  lemma PartsReady(n: nat, e: Expr)
    requires Ready(e, n) && (e.Union? || e.Comparison?)
    ensures forall k :: 0 <= k < |e.parts| ==> Ready(e.parts[k], n)
  {
    hide Ready;
    assert Parts(e) == e.parts;
    forall k | 0 <= k < |e.parts| ensures Ready(e.parts[k], n) {
      PartIsReady(e, n, k);
    }
  }

  lemma {:induction false} AllGets(n: nat, es: seq<Expr>, at: nat, st: State, rest: seq<nat>, fuel: nat)
    requires fuel > 0 && forall k :: 0 <= k < |es| ==> Ready(es[k], n)
    ensures var r := EvalAll(Bare(n), es, at, With(st, AllPicks(es) + rest), fuel); Leaves(r, rest) && HasAll(es, r.value)
    decreases es, 3
  {
    hide Ready, Bare, Eval, Has, Picks;
    if es == [] {
      assert AllPicks(es) + rest == rest;
    } else {
      var init, last := es[..|es| - 1], es[|es| - 1];
      var next := [1] + Picks(last) + rest;
      assert AllPicks(es) + rest == AllPicks(init) + next;
      AllGets(n, init, at, st, next, fuel);
      var s := EvalAll(Bare(n), init, at, With(st, AllPicks(es) + rest), fuel).st;
      assert s.choices[0] == 1 && Chosen(s) == With(s, Picks(last) + rest) by {
        assert next[1..] == Picks(last) + rest;
      }
      EvalGets(n, last, at, s, rest, fuel);
    }
  }

  lemma UnionGets(n: nat, e: Expr, at: nat, st: State, rest: seq<nat>, fuel: nat)
    requires e.Union?
    requires var r := EvalAll(Bare(n), e.parts, at, With(st, AllPicks(e.parts) + rest), fuel); Leaves(r, rest) && HasAll(e.parts, r.value)
    ensures var r := Eval(Bare(n), e, at, With(st, Picks(e) + rest), fuel); Leaves(r, rest) && Has(e, r.value)
  {
    hide EvalAll, Bare, AllPicks;
    var vs := EvalAll(Bare(n), e.parts, at, With(st, AllPicks(e.parts) + rest), fuel).value;
    forall m: nat | Carries(e, false, m) ensures m in AllOf(vs) {
      var k :| 0 <= k < |e.parts| && Carries(e.parts[k], false, m);
      assert Has(e.parts[k], vs[k]);
    }
    hide AllOf;
  }

  lemma ComparisonGets(n: nat, e: Expr, at: nat, st: State, rest: seq<nat>, fuel: nat)
    requires e.Comparison?
    requires Leaves(EvalAll(Bare(n), e.parts, at, With(st, AllPicks(e.parts) + rest), fuel), rest)
    ensures var r := Eval(Bare(n), e, at, With(st, Picks(e) + rest), fuel); Leaves(r, rest) && Has(e, r.value)
  {
    hide EvalAll, Bare, AllPicks;
  }

  // ---- calls ----

  /** What a call evaluates is ready. */
  ghost predicate ArgsReady(n: nat, callee: Callee, args: seq<Arg>) {
    && (callee.Method? && !IsDotted(callee.receiver) ==> Ready(callee.receiver, n))
    && (callee.Computed? ==> Ready(callee.inner, n))
    && forall k :: 0 <= k < |args| ==> Ready(args[k].value, n)
  }

  lemma CallReady(n: nat, e: Expr)
    requires Ready(e, n) && e.Call?
    ensures ArgsReady(n, e.callee, e.args) && CanPass(e) && KnownTo(n, e)
  {
    assert IsPartOf(e, e);
    var c := |CalleeParts(e.callee)|;
    if c > 0 {
      assert Parts(e)[0] == CalleeParts(e.callee)[0];
      PartIsReady(e, n, 0);
    }
    forall k | 0 <= k < |e.args| ensures Ready(e.args[k].value, n) {
      assert Parts(e)[c + k] == ArgValues(e.args)[k];
      PartIsReady(e, n, c + k);
    }
    hide CanPass, KnownTo, IsPartOf;
  }

  ghost predicate HasReceiverOf(callee: Callee, v: Trail) {
    forall m: nat :: IsReceiver(callee, false, m) ==> m in v
  }

  lemma {:induction false} CalleeGets(n: nat, callee: Callee, args: seq<Arg>, at: nat, st: State, rest: seq<nat>, fuel: nat)
    requires fuel > 0 && ArgsReady(n, callee, args)
    ensures var r := EvalCallee(Bare(n), callee, at, With(st, CalleePicks(callee) + rest), fuel); Leaves(r, rest) && HasReceiverOf(callee, r.value)
    decreases callee, 3
  {
    hide Ready, Bare, Eval, Carries, Picks, ReadImported;
    match callee
    case Plain(_, _) => assert CalleePicks(callee) + rest == rest;
    case Method(receiver) =>
      if IsDotted(receiver) {
        assert CalleePicks(callee) + rest == rest;
        DottedGets(n, {}, receiver, at, With(st, rest));
      } else {
        EvalGets(n, receiver, at, st, rest, fuel);
      }
    case Computed(inner) => EvalGets(n, inner, at, st, rest, fuel);
  }

  lemma {:induction false} ArgsGet(n: nat, args: seq<Arg>, at: nat, st: State, rest: seq<nat>, fuel: nat)
    requires fuel > 0 && forall k :: 0 <= k < |args| ==> Ready(args[k].value, n)
    ensures var r := EvalArgs(Bare(n), args, at, With(st, ArgsPicks(args) + rest), fuel); Leaves(r, rest) && HasAll(ArgValues(args), r.value)
    decreases args, 3
  {
    hide Ready, Bare, EvalArg, Has, ArgPicks;
    if args == [] {
      assert ArgsPicks(args) + rest == rest;
    } else {
      var init, last := args[..|args| - 1], args[|args| - 1];
      var next := ArgPicks(last) + rest;
      assert ArgsPicks(args) + rest == ArgsPicks(init) + next;
      ArgsGet(n, init, at, st, next, fuel);
      var s := EvalArgs(Bare(n), init, at, With(st, ArgsPicks(args) + rest), fuel).st;
      assert s == With(s, next);
      ArgGets(n, last, at, s, rest, fuel);
    }
  }

  lemma ArgGets(n: nat, a: Arg, at: nat, st: State, rest: seq<nat>, fuel: nat)
    requires fuel > 0 && Ready(a.value, n)
    ensures var r := EvalArg(Bare(n), a, at, With(st, ArgPicks(a) + rest), fuel); Leaves(r, rest) && Has(a.value, r.value)
    decreases a, 3
  {
    EvalGets(n, a.value, at, st, rest, fuel);
    hide Ready, Bare, Eval, Has, Picks;
  }

  /** The actuals of a call, evaluated. */
  ghost predicate Gathered(callee: Callee, args: seq<Arg>, receiver: Trail, vs: seq<Trail>) {
    HasReceiverOf(callee, receiver) && HasAll(ArgValues(args), vs)
  }

  /** What going to target `i` does with them. */
  ghost predicate WentTo(x: Expr, i: nat, receiver: Trail, vs: seq<Trail>, r: Outcome<Trail>)
    requires x.Call? && i < |x.targets|
  {
    var t := x.targets[i];
    && r.Done? && NodeOf(x.id, ResultRole, false) in r.value
    && (t.Foreign? && t.preserving ==> receiver + AllOf(vs) <= r.value)
    && (t.Foreign? && !t.preserving && |vs| == |x.args| ==> TakenBy(t, receiver + AllOf(vs), FirstTrail(x.args, vs), r.st))
  }

  ghost predicate TakenBy(t: CallTarget, v: Trail, first: Trail, st: State)
    requires t.Foreign?
  {
    && (forall m :: m in v ==> (m, NodeOf(t.id, ForeignRole, false)) in st.taken)
    && (forall m :: m in first ==> (m, NodeOf(t.id, FirstRole, false)) in st.taken)
  }

  lemma DispatchGets(n: nat, x: Expr, i: nat, receiver: Trail, vs: seq<Trail>, st: State, rest: seq<nat>, fuel: nat)
    requires fuel > 0 && x.Call? && |vs| == |x.args| && i < |x.targets| && LetsIn(x.targets[i]) && KnownTo(n, x)
    ensures var r := Dispatch(Bare(n), x, receiver, vs, With(st, TargetPicks(x.targets, i) + rest), fuel);
            Leaves(r, rest) && WentTo(x, i, receiver, vs, r)
  {
    var t, picks := x.targets[i], TargetPicks(x.targets, i) + rest;
    DispatchIs(n, x, i, receiver, vs, st, picks, fuel);
    if t.Foreign? {
      assert picks[1..] == rest;
      OutGets(x, i, receiver, vs, With(st, rest));
    } else {
      assert t in x.targets;
      EnterGets(n, x, t, receiver, vs, st, rest, fuel);
      assert picks[1..] == [0, 0] + rest;
    }
    hide NodeOf, AllOf, FirstTrail, Enter, PassOut, Dispatch, Bare, KnownTo;
  }

  lemma DispatchIs(n: nat, x: Expr, i: nat, receiver: Trail, vs: seq<Trail>, st: State, picks: seq<nat>, fuel: nat)
    requires x.Call? && |vs| == |x.args| && i < |x.targets| && picks != [] && picks[0] == i
    ensures Dispatch(Bare(n), x, receiver, vs, With(st, picks), fuel)
         == if x.targets[i].Foreign? then PassOut(x, x.targets[i], receiver, vs, With(st, picks[1..]))
            else Enter(Bare(n), x, x.targets[i], receiver, vs, With(st, picks[1..]), fuel)
  {
    hide PassOut, Enter, Stubs;
    SmallRemainder(i, |x.targets|);
  }

  lemma SmallRemainder(i: nat, n: nat)
    requires i < n
    ensures i % n == i
  {
  }

  lemma OutGets(x: Expr, i: nat, receiver: Trail, vs: seq<Trail>, st: State)
    requires x.Call? && |vs| == |x.args| && i < |x.targets| && x.targets[i].Foreign?
    ensures var r := PassOut(x, x.targets[i], receiver, vs, st); Leaves(r, st.choices) && WentTo(x, i, receiver, vs, r)
  {
    hide NodeOf, AllOf, FirstTrail;
  }

  lemma EnterGets(n: nat, x: Expr, t: CallTarget, receiver: Trail, vs: seq<Trail>, st: State, rest: seq<nat>, fuel: nat)
    requires fuel > 0 && x.Call? && |vs| == |x.args| && t.Package? && t.entries != [] && t.symbol < n
    ensures var r := Enter(Bare(n), x, t, receiver, vs, With(st, [0, 0] + rest), fuel); Leaves(r, rest) && NodeOf(x.id, ResultRole, false) in r.value
  {
    FindStub(n, t.symbol);
    var f, picks := Stub(t.symbol), [0, 0] + rest;
    assert picks[1..] == [0] + rest;
    SmallRemainder(0, |t.entries|);
    assert LeadOf(f, t.entries[0]) == Nothing && BindParams(f, 0, Nothing, receiver, x.args, vs) == map[] && ObjectOf(f, Nothing) == NoObject;
    InvokeGets(n, t.symbol, st, rest, fuel - 1);
    hide NodeOf, Find, Stubs, Invoke, BindParams, ObjectOf, LeadOf;
  }

  lemma InvokeGets(n: nat, symbol: nat, st: State, rest: seq<nat>, fuel: nat)
    ensures Leaves(Invoke(Bare(n), Stub(symbol), map[], NoObject, With(st, [0] + rest), fuel), rest)
  {
    assert ([0] + rest)[1..] == rest;
    hide Stubs;
  }

  /** Going to target `i` of a call, once its receiver and its actuals are evaluated. */
  lemma CalledGets(n: nat, x: Expr, i: nat, at: nat, st: State, rest: seq<nat>, fuel: nat) returns (receiver: Trail, vs: seq<Trail>)
    requires fuel > 0 && x.Call? && ArgsReady(n, x.callee, x.args) && KnownTo(n, x) && i < |x.targets| && LetsIn(x.targets[i])
    ensures Gathered(x.callee, x.args, receiver, vs) && |vs| == |x.args|
    ensures var r := Eval(Bare(n), x, at, With(st, PicksTo(x, i) + rest), fuel); Leaves(r, rest) && WentTo(x, i, receiver, vs, r)
    decreases x, 1
  {
    hide Bare, Eval, Dispatch, ComesTo, Gathered, CalleePicks, ArgsPicks, TargetPicks, ArgsReady, KnownTo, LetsIn, WentTo;
    var picks := TargetPicks(x.targets, i) + rest;
    var s;
    s, receiver, vs := ActualsGet(n, x, at, st, picks, fuel);
    DispatchGets(n, x, i, receiver, vs, s, rest, fuel);
    assert s == With(s, picks) && PicksTo(x, i) + rest == CalleePicks(x.callee) + ArgsPicks(x.args) + picks;
    DispatchedIs(n, x, at, With(st, PicksTo(x, i) + rest), s, receiver, vs, fuel);
  }

  function PicksTo(x: Expr, i: nat): seq<nat>
    requires x.Call? && i < |x.targets|
  {
    CalleePicks(x.callee) + ArgsPicks(x.args) + TargetPicks(x.targets, i)
  }

  /** The callee and the actuals of a call are evaluated, and `s` is where it goes on from. */
  ghost predicate ComesTo(n: nat, x: Expr, at: nat, st: State, s: State, receiver: Trail, vs: seq<Trail>, fuel: nat)
    requires x.Call?
  {
    exists s1 :: EvalCallee(Bare(n), x.callee, at, st, fuel) == Done(s1, receiver) && EvalArgs(Bare(n), x.args, at, s1, fuel) == Done(s, vs)
  }

  lemma ActualsGet(n: nat, x: Expr, at: nat, st: State, rest: seq<nat>, fuel: nat) returns (s: State, receiver: Trail, vs: seq<Trail>)
    requires fuel > 0 && x.Call? && ArgsReady(n, x.callee, x.args)
    ensures Gathered(x.callee, x.args, receiver, vs) && |vs| == |x.args| && s.choices == rest
    ensures ComesTo(n, x, at, With(st, CalleePicks(x.callee) + ArgsPicks(x.args) + rest), s, receiver, vs, fuel)
    decreases x, 0
  {
    var next := ArgsPicks(x.args) + rest;
    assert CalleePicks(x.callee) + ArgsPicks(x.args) + rest == CalleePicks(x.callee) + next;
    CalleeGets(n, x.callee, x.args, at, st, next, fuel);
    hide Ready, Bare, EvalCallee, EvalArgs, HasReceiverOf, Has, CalleePicks, ArgsPicks;
    var r := EvalCallee(Bare(n), x.callee, at, With(st, CalleePicks(x.callee) + next), fuel);
    receiver := r.value;
    assert r.st == With(r.st, next);
    ArgsGet(n, x.args, at, r.st, rest, fuel);
    var r' := EvalArgs(Bare(n), x.args, at, r.st, fuel);
    s, vs := r'.st, r'.value;
  }

  lemma DispatchedIs(n: nat, x: Expr, at: nat, st: State, s: State, receiver: Trail, vs: seq<Trail>, fuel: nat)
    requires x.Call? && |vs| == |x.args| && ComesTo(n, x, at, st, s, receiver, vs, fuel)
    ensures Eval(Bare(n), x, at, st, fuel) == Dispatch(Bare(n), x, receiver, vs, s, fuel)
  {
    hide Bare, EvalCallee, EvalArgs, Dispatch;
  }

  lemma CallGets(n: nat, x: Expr, at: nat, st: State, rest: seq<nat>, fuel: nat)
    requires fuel > 0 && x.Call? && ArgsReady(n, x.callee, x.args) && CanPass(x) && KnownTo(n, x)
    ensures var r := Eval(Bare(n), x, at, With(st, Picks(x) + rest), fuel); Leaves(r, rest) && Has(x, r.value)
    decreases x, 2
  {
    hide *;
    if x.targets == [] {
      UncalledGets(n, x, at, st, rest, fuel);
    } else {
      var i := FirstOf(x);
      var receiver, vs := CalledGets(n, x, i, at, st, rest, fuel);
      HasResult(x, i, receiver, vs, Eval(Bare(n), x, at, With(st, Picks(x) + rest), fuel));
    }
  }

  lemma UncalledGets(n: nat, x: Expr, at: nat, st: State, rest: seq<nat>, fuel: nat)
    requires fuel > 0 && x.Call? && ArgsReady(n, x.callee, x.args) && x.targets == []
    ensures var r := Eval(Bare(n), x, at, With(st, Picks(x) + rest), fuel); Leaves(r, rest) && Has(x, r.value)
    decreases x, 1
  {
    var s, receiver, vs := ActualsGet(n, x, at, st, rest, fuel);
    assert Picks(x) + rest == CalleePicks(x.callee) + ArgsPicks(x.args) + rest;
    DispatchedIs(n, x, at, With(st, Picks(x) + rest), s, receiver, vs, fuel);
    hide NodeOf, Bare, Eval, ComesTo, Gathered, CalleePicks, ArgsPicks, ArgsReady;
  }

  lemma FirstOf(x: Expr) returns (i: nat)
    requires x.Call? && x.targets != [] && CanPass(x)
    ensures i < |x.targets| && LetsIn(x.targets[i]) && Picks(x) == PicksTo(x, i)
  {
    i := FirstIn(x.targets);
    hide LetsIn, CalleePicks, ArgsPicks;
  }

  lemma HasResult(x: Expr, i: nat, receiver: Trail, vs: seq<Trail>, r: Outcome<Trail>)
    requires x.Call? && i < |x.targets| && WentTo(x, i, receiver, vs, r)
    ensures Has(x, r.value)
  {
    hide NodeOf, AllOf;
  }

  // ---- what is handed on is passed ----

  lemma ActualGathered(callee: Callee, args: seq<Arg>, receiver: Trail, vs: seq<Trail>, m: nat)
    requires Gathered(callee, args, receiver, vs) && IsActual(callee, args, false, m)
    ensures m in receiver + AllOf(vs)
  {
    hide Carries, IsReceiver;
    if !IsReceiver(callee, false, m) {
      var a :| a in args && Carries(a.value, false, m);
      var k :| 0 <= k < |args| && args[k] == a;
      assert Has(ArgValues(args)[k], vs[k]);
    }
  }

  lemma {:induction false} FirstGathered(args: seq<Arg>, vs: seq<Trail>, m: nat)
    requires |vs| == |args| && (forall k :: 0 <= k < |args| ==> Has(args[k].value, vs[k])) && IsFirst(args, false, m)
    ensures m in FirstTrail(args, vs)
  {
    hide Carries;
    var i :| 0 <= i < |args| && args[i].ByPosition? && Carries(args[i].value, false, m) && forall j :: 0 <= j < i ==> !args[j].ByPosition?;
    assert Has(args[i].value, vs[i]);
    if i > 0 {
      assert args[1..][i - 1] == args[i] && forall j :: 0 <= j < i - 1 ==> args[1..][j] == args[j + 1];
      FirstGathered(args[1..], vs[1..], m);
    }
  }

  /** One value has been at both ends of the link, or one that has been at its start is taken at its end. */
  ghost predicate Along(r: Outcome<Trail>, l: Link) {
    r.Done? && ((l.from in r.value && l.to in r.value) || (l.from, l.to) in r.st.taken)
  }

  lemma OutIsPassed(x: Expr, i: nat, receiver: Trail, vs: seq<Trail>, r: Outcome<Trail>, l: Link)
    requires x.Call? && i < |x.targets| && |vs| == |x.args| && Gathered(x.callee, x.args, receiver, vs) && WentTo(x, i, receiver, vs, r)
    requires HandsOut(x.id, x.callee, x.args, x.targets[i], false, l.from, l.to)
    ensures Along(r, l)
  {
    hide NodeOf, AllOf, FirstTrail, IsActual, IsFirst, Gathered;
    if IsActual(x.callee, x.args, false, l.from) {
      ActualGathered(x.callee, x.args, receiver, vs, l.from);
    }
    if IsFirst(x.args, false, l.from) {
      ActualsHas(x.callee, x.args, receiver, vs);
      FirstGathered(x.args, vs, l.from);
    }
  }

  lemma ActualsHas(callee: Callee, args: seq<Arg>, receiver: Trail, vs: seq<Trail>)
    requires Gathered(callee, args, receiver, vs)
    ensures |vs| == |args| && forall k :: 0 <= k < |args| ==> Has(args[k].value, vs[k])
  {
    hide Has, HasReceiverOf;
    forall k | 0 <= k < |args| && |vs| == |args| ensures Has(args[k].value, vs[k]) {
      assert ArgValues(args)[k] == args[k].value;
    }
  }

  /** Where evaluating starts: nothing in the module is bound. */
  function Fresh(n: nat, choices: seq<nat>): State {
    State([Frame(n, map[], None, NoObject)], {}, choices)
  }

  /** A program has `x` as a statement, and evaluating it there can pass one value along `l`. */
  ghost predicate Passes(p: Program, o: nat, x: Expr, choices: seq<nat>, l: Link) {
    StandsIn(Evaluate(x), o, p) && Along(Eval(WorldOf(p, 0), x, 0, Fresh(o, choices), 1), l)
  }

  lemma StandsThere(x: Expr, n: nat)
    ensures StandsIn(Evaluate(x), n, Around(x, n))
  {
    var m := Around(x, n).modules[0];
    var k := |Defs(n)|;
    hide Defs;
    assert m.body[k] == Evaluate(x) && Stands(Evaluate(x), n, m.body[k], m.symbol);
    assert m in Around(x, n).modules;
  }

  /** Both nodes are in the value of an attribute or a subscript. */
  lemma SelectedIsPassed(x: Expr, r: Outcome<Trail>, l: Link)
    requires (x.Attribute? || x.Subscript?) && Hands(x, false, l) && r.Done?
    requires Has(x, r.value) && Has(if x.Attribute? then x.base else x.value, r.value)
    ensures Along(r, l)
  {
    hide NodeOf;
    assert Carries(x, false, l.to);
  }

  lemma HandGets(n: nat, x: Expr, l: Link) returns (choices: seq<nat>)
    requires Hands(x, false, l) && Ready(x, n)
    ensures Along(Eval(Bare(n), x, 0, Fresh(n, choices), 1), l)
  {
    var st := Fresh(n, []);
    choices := Picks(x);
    assert With(st, choices + []) == Fresh(n, choices);
    hide Ready, Bare, Eval, Picks, Has, Along, Carries, NodeOf, HandsOut, Gathered, WentTo, PicksTo;
    match x
    case Attribute(_, base) =>
      AttributeGets(n, x, 0, st, [], 1);
      SelectedIsPassed(x, Eval(Bare(n), x, 0, Fresh(n, choices), 1), l);
    case Subscript(_, _, _) =>
      SubscriptGets(n, x, 0, st, [], 1);
      SelectedIsPassed(x, Eval(Bare(n), x, 0, Fresh(n, choices), 1), l);
    case Call(id, callee, args, ts) =>
      var t :| t in ts && HandsOut(id, callee, args, t, false, l.from, l.to) && l.confidence == t.confidence;
      var i: nat :| i < |ts| && ts[i] == t;
      IsForeign(x, i, l);
      CallReady(n, x);
      choices := PicksTo(x, i);
      assert With(st, choices + []) == Fresh(n, choices);
      var receiver, vs := CalledGets(n, x, i, 0, st, [], 1);
      OutIsPassed(x, i, receiver, vs, Eval(Bare(n), x, 0, Fresh(n, choices), 1), l);
  }

  lemma IsForeign(x: Expr, i: nat, l: Link)
    requires x.Call? && i < |x.targets| && HandsOut(x.id, x.callee, x.args, x.targets[i], false, l.from, l.to)
    ensures LetsIn(x.targets[i])
  {
  }

  /** Of every expression, and every link it hands a value on along: evaluated in some program, it passes
      one value along the link, unless a call inside it can be come back from in no way. */
  lemma HandedIsPassed(x: Expr, l: Link)
    requires Hands(x, false, l) && Passable(x)
    ensures exists p, o, choices :: Passes(p, o, x, choices, l)
  {
    hide Hands, Passable, Known, Eval, WorldOf, Around, Bare, StandsIn, Along, Fresh;
    var n := HighEnough(x);
    var choices := HandGets(n, x, l);
    BareIs(x, n);
    StandsThere(x, n);
    assert Passes(Around(x, n), n, x, choices, l);
  }

  // ---- the index of a target, walked a second time ----

  /** Each syntax node has a second node of every role, one further. */
  predicate Second(n: nat, m: nat) {
    n == m + 1
  }

  lemma NodeAgain(id: nat, role: Role)
    ensures Second(NodeOf(id, role, true), NodeOf(id, role, false))
  {
  }

  lemma {:induction false} CarriesAgain(e: Expr, n: nat, m: nat)
    requires Second(n, m)
    ensures Carries(e, true, n) <==> Carries(e, false, m)
    decreases e
  {
    match e
    case Literal(id) => NodeAgain(id, LiteralRole);
    case Name(id, _) => NodeAgain(id, UseRole);
    case Imported(id, _, _) => NodeAgain(id, UseRole);
    case Attribute(id, _) => NodeAgain(id, UseRole);
    case Subscript(id, _, _) => NodeAgain(id, UseRole);
    case Union(parts) =>
      forall k | 0 <= k < |parts| ensures Carries(parts[k], true, n) <==> Carries(parts[k], false, m) {
        CarriesAgain(parts[k], n, m);
      }
    case Call(id, _, _, _) => NodeAgain(id, ResultRole);
    case _ =>
    hide NodeOf;
  }

  lemma ActualAgain(callee: Callee, args: seq<Arg>, n: nat, m: nat)
    requires Second(n, m)
    ensures IsActual(callee, args, true, n) <==> IsActual(callee, args, false, m)
    ensures IsFirst(args, true, n) <==> IsFirst(args, false, m)
  {
    if callee.Method? {
      CarriesAgain(callee.receiver, n, m);
    }
    forall a: Arg ensures Carries(a.value, true, n) <==> Carries(a.value, false, m) {
      CarriesAgain(a.value, n, m);
    }
    hide Carries, Second;
    if IsFirst(args, true, n) {
      var i :| 0 <= i < |args| && args[i].ByPosition? && Carries(args[i].value, true, n) && forall j :: 0 <= j < i ==> !args[j].ByPosition?;
    }
    if IsFirst(args, false, m) {
      var i :| 0 <= i < |args| && args[i].ByPosition? && Carries(args[i].value, false, m) && forall j :: 0 <= j < i ==> !args[j].ByPosition?;
    }
  }

  /** Walked again, an expression hands on the same values, between the second nodes. */
  lemma HandsAgain(x: Expr, l: Link, l': Link)
    requires Second(l.from, l'.from) && Second(l.to, l'.to) && l.confidence == l'.confidence
    ensures Hands(x, true, l) <==> Hands(x, false, l')
  {
    hide NodeOf, Carries, IsActual, IsFirst;
    match x
    case Attribute(id, base) =>
      NodeAgain(id, UseRole);
      CarriesAgain(base, l.from, l'.from);
    case Subscript(id, value, _) =>
      NodeAgain(id, UseRole);
      CarriesAgain(value, l.from, l'.from);
    case Call(id, callee, args, ts) =>
      ActualAgain(callee, args, l.from, l'.from);
      forall t | t in ts ensures HandsOut(id, callee, args, t, true, l.from, l.to) <==> HandsOut(id, callee, args, t, false, l'.from, l'.to) {
        NodeAgain(id, ResultRole);
        if t.Foreign? {
          NodeAgain(t.id, ForeignRole);
          NodeAgain(t.id, FirstRole);
        }
      }
      hide HandsOut;
    case _ =>
  }
}
