/** Everything a walk records, by what stands where in the program: exactly which expressions, targets
    and statements hand values on, and to what. */
module FlowLinks {
  import opened Options
  import opened Evidence
  import opened Calls
  import opened Hubs
  import opened FlowSyntax
  import opened FlowGraph

  // ---- where a value stands ----

  /** `n` is a node of an expression that gives `e` its value: its own, or that of an operand of a union;
      a comparison gives a truth value of its own, which no node has. */
  ghost predicate Carries(e: Expr, again: bool, n: nat)
    decreases e
  {
    match e
    case Literal(id) => n == NodeOf(id, LiteralRole, again)
    case Number => false
    case Name(id, _) => n == NodeOf(id, UseRole, again)
    case Imported(id, _, _) => n == NodeOf(id, UseRole, again)
    case Attribute(id, _) => n == NodeOf(id, UseRole, again)
    case Subscript(id, _, _) => n == NodeOf(id, UseRole, again)
    case Union(parts) => exists k :: 0 <= k < |parts| && Carries(parts[k], again, n)
    case Comparison(_) => false
    case Call(id, _, _, _) => n == NodeOf(id, ResultRole, again)
  }

  ghost predicate IsReceiver(callee: Callee, again: bool, n: nat) {
    callee.Method? && !IsDotted(callee.receiver) && Carries(callee.receiver, again, n)
  }

  ghost predicate IsActual(callee: Callee, args: seq<Arg>, again: bool, n: nat) {
    IsReceiver(callee, again, n) || exists a :: a in args && Carries(a.value, again, n)
  }

  /** The first positional actual. */
  ghost predicate IsFirst(args: seq<Arg>, again: bool, n: nat) {
    exists i :: 0 <= i < |args| && args[i].ByPosition? && Carries(args[i].value, again, n) && forall j :: 0 <= j < i ==> !args[j].ByPosition?
  }

  // ---- what one expression hands on ----

  /** An external callee hands every actual to the call's value when it preserves them, and otherwise to
      its own formal, the first positional one to another as well. */
  ghost predicate HandsOut(id: nat, callee: Callee, args: seq<Arg>, t: CallTarget, again: bool, from: nat, to: nat) {
    t.Foreign? &&
    if t.preserving then IsActual(callee, args, again, from) && to == NodeOf(id, ResultRole, again)
    else (IsActual(callee, args, again, from) && to == NodeOf(t.id, ForeignRole, again))
         || (IsFirst(args, again, from) && to == NodeOf(t.id, FirstRole, again))
  }

  /** An attribute or a subscript hands on what it selects from, an index nothing; a call what its external
      callees let through, each at its own confidence. */
  ghost predicate Hands(x: Expr, again: bool, l: Link) {
    match x
    case Attribute(id, base) =>
      !IsDotted(base) && Carries(base, again, l.from) && l.to == NodeOf(id, UseRole, again) && l.confidence == Resolved
    case Subscript(id, value, _) =>
      Carries(value, again, l.from) && l.to == NodeOf(id, UseRole, again) && l.confidence == Resolved
    case Call(id, callee, args, ts) =>
      exists t :: t in ts && HandsOut(id, callee, args, t, again, l.from, l.to) && l.confidence == t.confidence
    case _ => false
  }

  /** What an expression records by itself. */
  ghost predicate Records(x: Expr, o: nat, again: bool, v: Event) {
    match v
    case Linked(l) => Hands(x, again, l)
    case Read(r) => x.Name? && r == PendingRead(NodeOf(x.id, UseRole, again), o, x.name)
    case Called(c) => x.Call? && (exists t :: t in x.targets && t.Package?) && c == Pending(x.id, x.callee, x.args, x.targets, again)
    case _ => false
  }

  // ---- expressions inside others ----

  function ArgValues(args: seq<Arg>): (r: seq<Expr>)
    ensures |r| == |args| && forall k :: 0 <= k < |args| ==> r[k] == args[k].value
  {
    if args == [] then [] else ArgValues(args[..|args| - 1]) + [args[|args| - 1].value]
  }

  function CalleeParts(callee: Callee): seq<Expr> {
    match callee
    case Plain(_, _) => []
    case Method(receiver) => if IsDotted(receiver) then [] else [receiver]
    case Computed(inner) => [inner]
  }

  /** The expressions evaluated when `e` is: of a dotted name none. */
  function Parts(e: Expr): (r: seq<Expr>)
    ensures forall k :: 0 <= k < |r| ==> r[k] < e
  {
    match e
    case Attribute(_, base) => if IsDotted(base) then [] else [base]
    case Subscript(_, value, index) => [value, index]
    case Union(parts) => parts
    case Comparison(parts) => parts
    case Call(_, callee, args, _) =>
      var vs := ArgValues(args);
      assert forall k :: 0 <= k < |vs| ==> vs[k] == args[k].value;
      CalleeParts(callee) + vs
    case _ => []
  }

  /** `x` is evaluated when `e` is. */
  ghost predicate IsPartOf(x: Expr, e: Expr)
    decreases e
  {
    x == e || exists k :: 0 <= k < |Parts(e)| && IsPartOf(x, Parts(e)[k])
  }

  ghost predicate Recorded(e: Expr, o: nat, again: bool, v: Event) {
    exists x :: IsPartOf(x, e) && Records(x, o, again, v)
  }

  // ---- targets ----

  /** `t` itself names `x`, at syntax node `id`. */
  ghost predicate NamesAt(t: Expr, id: nat, x: string) {
    || t == Name(id, x)
    || (t.Imported? && t.id == id && t.name == x)
    || (t.Call? && (t.callee == Plain(id, x) || exists a :: a in t.args && a.ByName? && a.id == id && a.name == x))
  }

  /** What the callee of a call is stored into through. */
  function CalleePlaces(callee: Callee): seq<Expr> {
    match callee
    case Plain(_, _) => []
    case Method(receiver) => [receiver]
    case Computed(inner) => [inner]
  }

  /** What is stored into when `t` is. */
  function Places(t: Expr): (r: seq<Expr>)
    ensures forall k :: 0 <= k < |r| ==> r[k] < t
  {
    match t
    case Subscript(_, base, _) => [base]
    case Attribute(_, base) => [base]
    case Union(parts) => parts
    case Comparison(parts) => parts
    case Call(_, callee, args, _) =>
      var vs := ArgValues(args);
      assert forall k :: 0 <= k < |vs| ==> vs[k] == args[k].value;
      CalleePlaces(callee) + vs
    case _ => []
  }

  ghost predicate IsStoredInto(u: Expr, t: Expr)
    decreases t
  {
    u == t || exists k :: 0 <= k < |Places(t)| && IsStoredInto(u, Places(t)[k])
  }

  /** A place defines the names it has, by the values stored, and evaluates its index. */
  ghost predicate PlaceRecords(u: Expr, o: nat, values: seq<nat>, again: bool, v: Event) {
    || (exists id, x :: NamesAt(u, id, x) && Defines(id, x, o, values, again, v))
    || (u.Subscript? && Recorded(u.index, o, again, v))
  }

  ghost predicate Defines(id: nat, x: string, o: nat, values: seq<nat>, again: bool, v: Event) {
    || v == Defined(o, x, NodeOf(id, DefinitionRole, again))
    || (v.Linked? && v.link.from in values && v.link.to == NodeOf(id, DefinitionRole, again) && v.link.confidence == Resolved)
  }

  ghost predicate Stored(t: Expr, o: nat, values: seq<nat>, again: bool, v: Event) {
    exists u :: IsStoredInto(u, t) && PlaceRecords(u, o, values, again, v)
  }

  // ---- evaluating ----

  lemma {:induction false} CarriesIff(e: Expr, again: bool, n: nat)
    ensures n in Values(e, again) <==> Carries(e, again, n)
    decreases e
  {
    if e.Union? {
      AllCarry(e.parts, again, n);
    }
  }

  lemma {:induction false} AllCarry(es: seq<Expr>, again: bool, n: nat)
    ensures n in AllValues(es, again) <==> exists k :: 0 <= k < |es| && Carries(es[k], again, n)
    decreases es
  {
    if es != [] {
      var init, last := es[..|es| - 1], es[|es| - 1];
      AllCarry(init, again, n);
      CarriesIff(last, again, n);
      hide Values, Carries;
      assert forall k :: 0 <= k < |init| ==> es[k] == init[k];
      assert es[|es| - 1] == last;
    }
  }

  lemma {:induction false} AllEvaluatedIff(es: seq<Expr>, o: nat, again: bool, v: Event)
    ensures v in AllEvaluated(es, o, again) <==> exists k :: 0 <= k < |es| && v in Evaluated(es[k], o, again)
  {
    hide Evaluated;
    if es != [] {
      var init, last := es[..|es| - 1], es[|es| - 1];
      AllEvaluatedIff(init, o, again, v);
      assert forall k :: 0 <= k < |init| ==> es[k] == init[k];
      assert es[|es| - 1] == last;
    }
  }

  lemma {:induction false} ArgsAreAll(args: seq<Arg>, o: nat, again: bool)
    ensures ArgsEvaluated(args, o, again) == AllEvaluated(ArgValues(args), o, again)
  {
    hide Evaluated;
    if args != [] {
      ArgsAreAll(args[..|args| - 1], o, again);
      assert ArgValues(args)[..|args| - 1] == ArgValues(args[..|args| - 1]);
    }
  }

  lemma {:induction false} ActualIff(callee: Callee, args: seq<Arg>, again: bool, n: nat)
    ensures n in Actuals(callee, args, again) <==> IsActual(callee, args, again, n)
  {
    ReceiverIff(callee, again, n);
    PositionalIff(args, again, n);
    KeywordIff(args, again, n);
    SpreadIff(args, again, n);
    hide Carries, Flat, FlatNamed, PositionalValues, KeywordValues, SpreadValues, ReceiverValues, IsReceiver;
    if a :| a in args && Carries(a.value, again, n) {
      assert a.ByPosition? || a.ByName? || a.Spread?;
    }
  }

  lemma ReceiverIff(callee: Callee, again: bool, n: nat)
    ensures n in ReceiverValues(callee, again) <==> IsReceiver(callee, again, n)
  {
    if callee.Method? && !IsDotted(callee.receiver) {
      CarriesIff(callee.receiver, again, n);
    }
  }

  lemma {:induction false} PositionalIff(args: seq<Arg>, again: bool, n: nat)
    ensures n in Flat(PositionalValues(args, again)) <==> exists a :: a in args && a.ByPosition? && Carries(a.value, again, n)
  {
    if args != [] {
      var init, last := args[..|args| - 1], args[|args| - 1];
      assert args == init + [last];
      PositionalIff(init, again, n);
      CarriesIff(last.value, again, n);
      hide Values, Carries;
      FlatSnoc(PositionalValues(init, again), Values(last.value, again));
      hide Flat;
      assert PositionalValues(init, again) + [] == PositionalValues(init, again);
    }
  }

  lemma FlatSnoc(vs: seq<seq<nat>>, ns: seq<nat>)
    ensures Flat(vs + [ns]) == Flat(vs) + ns
  {
    assert (vs + [ns])[..|vs|] == vs;
  }

  lemma {:induction false} KeywordIff(args: seq<Arg>, again: bool, n: nat)
    ensures n in FlatNamed(KeywordValues(args, again)) <==> exists a :: a in args && a.ByName? && Carries(a.value, again, n)
  {
    if args != [] {
      var init, last := args[..|args| - 1], args[|args| - 1];
      assert args == init + [last];
      KeywordIff(init, again, n);
      CarriesIff(last.value, again, n);
      hide Values, Carries;
      if last.ByName? {
        var kvs := KeywordValues(init, again);
        assert (kvs + [(last.name, Values(last.value, again))])[..|kvs|] == kvs;
        assert FlatNamed(kvs + [(last.name, Values(last.value, again))]) == FlatNamed(kvs) + Values(last.value, again);
      } else {
        assert KeywordValues(init, again) + [] == KeywordValues(init, again);
      }
      hide FlatNamed;
    }
  }

  lemma {:induction false} SpreadIff(args: seq<Arg>, again: bool, n: nat)
    ensures n in Flat(SpreadValues(args, again)) <==> exists a :: a in args && a.Spread? && Carries(a.value, again, n)
  {
    if args != [] {
      var init, last := args[..|args| - 1], args[|args| - 1];
      assert args == init + [last];
      SpreadIff(init, again, n);
      CarriesIff(last.value, again, n);
      hide Values, Carries;
      FlatSnoc(SpreadValues(init, again), Values(last.value, again));
      hide Flat;
      assert SpreadValues(init, again) + [] == SpreadValues(init, again);
    }
  }

  lemma {:induction false} FirstIff(args: seq<Arg>, again: bool, n: nat)
    ensures PositionalValues(args, again) == [] <==> forall a :: a in args ==> !a.ByPosition?
    ensures n in FirstPositional(args, again) <==> IsFirst(args, again, n)
  {
    if args != [] {
      var init, last := args[..|args| - 1], args[|args| - 1];
      assert args == init + [last];
      FirstIff(init, again, n);
      CarriesIff(last.value, again, n);
      hide *;
      FirstNext(init, last, again);
      if PositionalValues(init, again) == [] && last.ByPosition? {
        FirstIsLast(init, last, again, n);
      } else {
        if a :| a in init && a.ByPosition? {
          var j :| 0 <= j < |init| && init[j] == a;
        }
        FirstStays(init, last, again, n);
      }
    }
  }

  lemma FirstNext(init: seq<Arg>, last: Arg, again: bool)
    ensures PositionalValues(init + [last], again) == [] <==> PositionalValues(init, again) == [] && !last.ByPosition?
    ensures FirstPositional(init + [last], again)
         == if PositionalValues(init, again) == [] && last.ByPosition? then Values(last.value, again) else FirstPositional(init, again)
  {
    hide Values;
    assert (init + [last])[..|init|] == init;
  }

  lemma FirstIsLast(init: seq<Arg>, last: Arg, again: bool, n: nat)
    requires last.ByPosition? && forall a :: a in init ==> !a.ByPosition?
    ensures IsFirst(init + [last], again, n) <==> Carries(last.value, again, n)
  {
    hide Carries;
    var args := init + [last];
    assert args[|init|] == last && forall j :: 0 <= j < |init| ==> args[j] == init[j] && init[j] in init;
  }

  lemma FirstStays(init: seq<Arg>, last: Arg, again: bool, n: nat)
    requires (exists j :: 0 <= j < |init| && init[j].ByPosition?) || !last.ByPosition?
    ensures IsFirst(init + [last], again, n) <==> IsFirst(init, again, n)
  {
    hide Carries;
    var args := init + [last];
    assert forall j :: 0 <= j < |init| ==> args[j] == init[j];
    if IsFirst(args, again, n) {
      var i :| 0 <= i < |args| && args[i].ByPosition? && Carries(args[i].value, again, n) && forall j :: 0 <= j < i ==> !args[j].ByPosition?;
      assert i < |init|;
    }
    if IsFirst(init, again, n) {
      var i :| 0 <= i < |init| && init[i].ByPosition? && Carries(init[i].value, again, n) && forall j :: 0 <= j < i ==> !init[j].ByPosition?;
      assert args[i] == init[i];
    }
  }

  lemma {:induction false} TargetsIff(id: nat, callee: Callee, args: seq<Arg>, ts: seq<CallTarget>, again: bool, v: Event)
    ensures v in TargetsEvents(id, callee, args, ts, again) <==>
      v.Linked? && exists t :: t in ts && HandsOut(id, callee, args, t, again, v.link.from, v.link.to) && v.link.confidence == t.confidence
  {
    if ts != [] {
      var init, last := ts[..|ts| - 1], ts[|ts| - 1];
      assert ts == init + [last];
      TargetsIff(id, callee, args, init, again, v);
      TargetIff(id, callee, args, last, again, v);
      hide TargetEvents, HandsOut;
    }
  }

  lemma TargetIff(id: nat, callee: Callee, args: seq<Arg>, t: CallTarget, again: bool, v: Event)
    ensures v in TargetEvents(id, callee, args, t, again) <==>
      v.Linked? && HandsOut(id, callee, args, t, again, v.link.from, v.link.to) && v.link.confidence == t.confidence
  {
    if v.Linked? {
      ActualIff(callee, args, again, v.link.from);
      FirstIff(args, again, v.link.from);
    }
    hide Actuals, FirstPositional, IsActual, IsFirst, NodeOf;
  }

  lemma {:induction false} PackageIff(ts: seq<CallTarget>, s: nat, c: Confidence)
    ensures PackageTargets(ts) == [] <==> forall t :: t in ts ==> !t.Package?
    ensures Target(s, c) in PackageTargets(ts) <==> exists t :: t in ts && t.Package? && t.symbol == s && t.confidence == c
  {
    if ts != [] {
      var init, last := ts[..|ts| - 1], ts[|ts| - 1];
      assert ts == init + [last];
      PackageIff(init, s, c);
    }
  }

  /** One level: an expression records by itself or through what it evaluates. */
  lemma EvaluatedStep(e: Expr, o: nat, again: bool, v: Event)
    ensures v in Evaluated(e, o, again) <==> Records(e, o, again, v) || exists k :: 0 <= k < |Parts(e)| && v in Evaluated(Parts(e)[k], o, again)
  {
    hide Evaluated, Records, Parts;
    match e
    case Attribute(_, _) => AttributeStep(e, o, again, v);
    case Subscript(_, _, _) => SubscriptStep(e, o, again, v);
    case Union(_) => OperandsStep(e, o, again, v);
    case Comparison(_) => OperandsStep(e, o, again, v);
    case Call(_, _, _, _) => CallStep(e, o, again, v);
    case _ => LeafStep(e, o, again, v);
  }

  lemma LeafStep(e: Expr, o: nat, again: bool, v: Event)
    requires e.Literal? || e.Number? || e.Name? || e.Imported?
    ensures v in Evaluated(e, o, again) <==> Records(e, o, again, v) || exists k :: 0 <= k < |Parts(e)| && v in Evaluated(Parts(e)[k], o, again)
  {
  }

  lemma OperandsStep(e: Expr, o: nat, again: bool, v: Event)
    requires e.Union? || e.Comparison?
    ensures v in Evaluated(e, o, again) <==> Records(e, o, again, v) || exists k :: 0 <= k < |Parts(e)| && v in Evaluated(Parts(e)[k], o, again)
  {
    AllEvaluatedIff(e.parts, o, again, v);
    OperandsEvaluated(e, o, again, v);
    hide *;
  }

  lemma OperandsEvaluated(e: Expr, o: nat, again: bool, v: Event)
    requires e.Union? || e.Comparison?
    ensures Evaluated(e, o, again) == AllEvaluated(e.parts, o, again) && Parts(e) == e.parts && !Records(e, o, again, v)
  {
    hide AllEvaluated;
  }

  lemma AttributeStep(e: Expr, o: nat, again: bool, v: Event)
    requires e.Attribute?
    ensures v in Evaluated(e, o, again) <==> Records(e, o, again, v) || exists k :: 0 <= k < |Parts(e)| && v in Evaluated(Parts(e)[k], o, again)
  {
    if v.Linked? {
      CarriesIff(e.base, again, v.link.from);
    }
    hide Values, Carries, NodeOf;
    if !IsDotted(e.base) {
      assert Parts(e)[0] == e.base;
    }
  }

  lemma SubscriptStep(e: Expr, o: nat, again: bool, v: Event)
    requires e.Subscript?
    ensures v in Evaluated(e, o, again) <==> Records(e, o, again, v) || exists k :: 0 <= k < |Parts(e)| && v in Evaluated(Parts(e)[k], o, again)
  {
    if v.Linked? {
      CarriesIff(e.value, again, v.link.from);
    }
    hide Values, Carries, NodeOf;
    assert Parts(e)[0] == e.value && Parts(e)[1] == e.index;
  }

  lemma CallStep(e: Expr, o: nat, again: bool, v: Event)
    requires e.Call?
    ensures v in Evaluated(e, o, again) <==> Records(e, o, again, v) || exists k :: 0 <= k < |Parts(e)| && v in Evaluated(Parts(e)[k], o, again)
  {
    var cs, vs := CalleeParts(e.callee), ArgValues(e.args);
    PartsAre(e);
    hide *;
    ArgsAreAll(e.args, o, again);
    AllEvaluatedIff(vs, o, again, v);
    CalleeStep(e.callee, o, again, v);
    CallRecords(e, o, again, v);
    PartsEither(cs, vs, o, again, v);
  }

  lemma PartsAre(e: Expr)
    requires e.Call?
    ensures Parts(e) == CalleeParts(e.callee) + ArgValues(e.args)
  {
    hide CalleeParts, ArgValues;
  }

  lemma CallRecords(e: Expr, o: nat, again: bool, v: Event)
    requires e.Call?
    ensures v in Evaluated(e, o, again) <==> v in CalleeEvaluated(e.callee, o, again) || v in ArgsEvaluated(e.args, o, again) || Records(e, o, again, v)
  {
    TargetsIff(e.id, e.callee, e.args, e.targets, again, v);
    PackageIff(e.targets, 0, Resolved);
    hide CalleeEvaluated, ArgsEvaluated, TargetsEvents, PackageTargets, Pending, HandsOut;
  }

  lemma CalleeStep(callee: Callee, o: nat, again: bool, v: Event)
    ensures v in CalleeEvaluated(callee, o, again) <==> exists k :: 0 <= k < |CalleeParts(callee)| && v in Evaluated(CalleeParts(callee)[k], o, again)
  {
    hide Evaluated;
    match callee
    case Plain(_, _) =>
    case Method(receiver) =>
      if !IsDotted(receiver) {
        assert CalleeParts(callee)[0] == receiver;
      }
    case Computed(inner) => assert CalleeParts(callee)[0] == inner;
  }

  lemma PartsEither(a: seq<Expr>, b: seq<Expr>, o: nat, again: bool, v: Event)
    ensures (exists k :: 0 <= k < |a + b| && v in Evaluated((a + b)[k], o, again))
       <==> (exists k :: 0 <= k < |a| && v in Evaluated(a[k], o, again)) || (exists k :: 0 <= k < |b| && v in Evaluated(b[k], o, again))
  {
    hide Evaluated;
    assert forall k :: 0 <= k < |a| ==> (a + b)[k] == a[k];
    assert forall k :: 0 <= k < |b| ==> (a + b)[|a| + k] == b[k];
  }

  /** What evaluating records is what the expressions inside record by themselves. */
  lemma {:induction false} EvaluatedIff(e: Expr, o: nat, again: bool, v: Event)
    ensures v in Evaluated(e, o, again) <==> Recorded(e, o, again, v)
    decreases e
  {
    EvaluatedStep(e, o, again, v);
    hide Evaluated, Records, Parts;
    if v in Evaluated(e, o, again) {
      if Records(e, o, again, v) {
        assert IsPartOf(e, e);
      } else {
        var k :| 0 <= k < |Parts(e)| && v in Evaluated(Parts(e)[k], o, again);
        EvaluatedIff(Parts(e)[k], o, again, v);
        var x :| IsPartOf(x, Parts(e)[k]) && Records(x, o, again, v);
        assert IsPartOf(x, e);
      }
    }
    if x :| IsPartOf(x, e) && Records(x, o, again, v) {
      if x != e {
        var k :| 0 <= k < |Parts(e)| && IsPartOf(x, Parts(e)[k]);
        assert Recorded(Parts(e)[k], o, again, v);
        EvaluatedIff(Parts(e)[k], o, again, v);
      }
    }
  }

  // ---- binding ----

  lemma {:induction false} AllBoundIff(ts: seq<Expr>, o: nat, values: seq<nat>, again: bool, v: Event)
    ensures v in AllBound(ts, o, values, again) <==> exists k :: 0 <= k < |ts| && v in Bound(ts[k], o, values, again)
  {
    hide Bound;
    if ts != [] {
      var init, last := ts[..|ts| - 1], ts[|ts| - 1];
      AllBoundIff(init, o, values, again, v);
      assert forall k :: 0 <= k < |init| ==> ts[k] == init[k];
      assert ts[|ts| - 1] == last;
    }
  }

  lemma NameBoundIff(id: nat, x: string, o: nat, values: seq<nat>, again: bool, v: Event)
    ensures v in NameBound(id, x, o, values, again) <==> Defines(id, x, o, values, again, v)
  {
    hide NodeOf;
  }

  lemma {:induction false} ArgsBoundIff(args: seq<Arg>, o: nat, values: seq<nat>, again: bool, v: Event)
    ensures v in ArgsBound(args, o, values, again) <==>
      exists k :: 0 <= k < |args| && ((args[k].ByName? && Defines(args[k].id, args[k].name, o, values, again, v)) || v in Bound(args[k].value, o, values, again))
  {
    hide Bound, NameBound, Defines;
    if args != [] {
      var init, last := args[..|args| - 1], args[|args| - 1];
      ArgsBoundIff(init, o, values, again, v);
      if last.ByName? {
        NameBoundIff(last.id, last.name, o, values, again, v);
      }
      assert forall k :: 0 <= k < |init| ==> args[k] == init[k];
      assert args[|args| - 1] == last;
    }
  }

  ghost predicate BoundBelow(t: Expr, o: nat, values: seq<nat>, again: bool, v: Event) {
    exists k :: 0 <= k < |Places(t)| && v in Bound(Places(t)[k], o, values, again)
  }

  /** One level: a place records by itself or through the places it has. */
  lemma BoundStep(t: Expr, o: nat, values: seq<nat>, again: bool, v: Event)
    ensures v in Bound(t, o, values, again) <==> PlaceRecords(t, o, values, again, v) || BoundBelow(t, o, values, again, v)
  {
    hide Bound, PlaceRecords, BoundBelow;
    match t
    case Name(_, _) => NameStep(t, o, values, again, v);
    case Imported(_, _, _) => NameStep(t, o, values, again, v);
    case Subscript(_, _, _) => IntoStep(t, o, values, again, v);
    case Attribute(_, _) => IntoStep(t, o, values, again, v);
    case Union(_) => PartsStep(t, o, values, again, v);
    case Comparison(_) => PartsStep(t, o, values, again, v);
    case Call(_, _, _, _) => CallBoundStep(t, o, values, again, v);
    case _ => NothingStep(t, o, values, again, v);
  }

  lemma NothingStep(t: Expr, o: nat, values: seq<nat>, again: bool, v: Event)
    requires t.Literal? || t.Number?
    ensures v in Bound(t, o, values, again) <==> PlaceRecords(t, o, values, again, v) || BoundBelow(t, o, values, again, v)
  {
  }

  lemma NameStep(t: Expr, o: nat, values: seq<nat>, again: bool, v: Event)
    requires t.Name? || t.Imported?
    ensures v in Bound(t, o, values, again) <==> PlaceRecords(t, o, values, again, v) || BoundBelow(t, o, values, again, v)
  {
    NameBoundIff(t.id, t.name, o, values, again, v);
    hide NameBound, Defines;
    assert NamesAt(t, t.id, t.name);
  }

  lemma IntoStep(t: Expr, o: nat, values: seq<nat>, again: bool, v: Event)
    requires t.Subscript? || t.Attribute?
    ensures v in Bound(t, o, values, again) <==> PlaceRecords(t, o, values, again, v) || BoundBelow(t, o, values, again, v)
  {
    if t.Subscript? {
      EvaluatedIff(t.index, o, again, v);
      assert Places(t)[0] == t.value;
    } else {
      assert Places(t)[0] == t.base;
    }
    hide Evaluated, Recorded, Defines;
  }

  lemma PartsStep(t: Expr, o: nat, values: seq<nat>, again: bool, v: Event)
    requires t.Union? || t.Comparison?
    ensures v in Bound(t, o, values, again) <==> PlaceRecords(t, o, values, again, v) || BoundBelow(t, o, values, again, v)
  {
    AllBoundIff(t.parts, o, values, again, v);
    PartsBound(t, o, values, again, v);
    hide Bound, AllBound, PlaceRecords;
  }

  lemma PartsBound(t: Expr, o: nat, values: seq<nat>, again: bool, v: Event)
    requires t.Union? || t.Comparison?
    ensures Bound(t, o, values, again) == AllBound(t.parts, o, values, again) && Places(t) == t.parts && !PlaceRecords(t, o, values, again, v)
  {
    hide AllBound, Defines;
  }

  lemma CalleeBoundIff(callee: Callee, o: nat, values: seq<nat>, again: bool, v: Event)
    ensures v in CalleeBound(callee, o, values, again) <==>
      || (callee.Plain? && Defines(callee.id, callee.name, o, values, again, v))
      || exists k :: 0 <= k < |CalleePlaces(callee)| && v in Bound(CalleePlaces(callee)[k], o, values, again)
  {
    hide Bound, Defines, NameBound;
    match callee
    case Plain(id, x) => NameBoundIff(id, x, o, values, again, v);
    case Method(receiver) => assert CalleePlaces(callee)[0] == receiver;
    case Computed(inner) => assert CalleePlaces(callee)[0] == inner;
  }

  lemma CallNames(t: Expr, o: nat, values: seq<nat>, again: bool, v: Event)
    requires t.Call?
    ensures PlaceRecords(t, o, values, again, v) <==>
      || (t.callee.Plain? && Defines(t.callee.id, t.callee.name, o, values, again, v))
      || exists k :: 0 <= k < |t.args| && t.args[k].ByName? && Defines(t.args[k].id, t.args[k].name, o, values, again, v)
  {
    hide Defines;
    if t.callee.Plain? {
      assert NamesAt(t, t.callee.id, t.callee.name);
    }
    if k :| 0 <= k < |t.args| && t.args[k].ByName? && Defines(t.args[k].id, t.args[k].name, o, values, again, v) {
      assert t.args[k] in t.args;
      assert NamesAt(t, t.args[k].id, t.args[k].name);
    }
  }

  lemma CallBoundStep(t: Expr, o: nat, values: seq<nat>, again: bool, v: Event)
    requires t.Call?
    ensures v in Bound(t, o, values, again) <==> PlaceRecords(t, o, values, again, v) || BoundBelow(t, o, values, again, v)
  {
    CalleeBoundIff(t.callee, o, values, again, v);
    ArgsBoundIff(t.args, o, values, again, v);
    CallNames(t, o, values, again, v);
    CallPlaces(t, o, values, again, v);
    CallIsBound(t, o, values, again);
    hide *;
  }

  lemma CallIsBound(t: Expr, o: nat, values: seq<nat>, again: bool)
    requires t.Call?
    ensures Bound(t, o, values, again) == CalleeBound(t.callee, o, values, again) + ArgsBound(t.args, o, values, again)
  {
    hide CalleeBound, ArgsBound;
  }

  lemma CallPlaces(t: Expr, o: nat, values: seq<nat>, again: bool, v: Event)
    requires t.Call?
    ensures BoundBelow(t, o, values, again, v) <==>
      || (exists k :: 0 <= k < |CalleePlaces(t.callee)| && v in Bound(CalleePlaces(t.callee)[k], o, values, again))
      || (exists k :: 0 <= k < |t.args| && v in Bound(t.args[k].value, o, values, again))
  {
    hide Bound;
    var cs, vs := CalleePlaces(t.callee), ArgValues(t.args);
    assert Places(t) == cs + vs;
    if k :| 0 <= k < |cs| && v in Bound(cs[k], o, values, again) {
      assert (cs + vs)[k] == cs[k];
    }
    if k :| 0 <= k < |t.args| && v in Bound(t.args[k].value, o, values, again) {
      assert (cs + vs)[|cs| + k] == t.args[k].value;
    }
  }

  /** What binding a target records is what the places in it record. */
  lemma {:induction false} BoundIff(t: Expr, o: nat, values: seq<nat>, again: bool, v: Event)
    ensures v in Bound(t, o, values, again) <==> Stored(t, o, values, again, v)
    decreases t
  {
    BoundStep(t, o, values, again, v);
    hide Bound, PlaceRecords, Places;
    if v in Bound(t, o, values, again) {
      if PlaceRecords(t, o, values, again, v) {
        assert IsStoredInto(t, t);
      } else {
        var k :| 0 <= k < |Places(t)| && v in Bound(Places(t)[k], o, values, again);
        BoundIff(Places(t)[k], o, values, again, v);
        var u :| IsStoredInto(u, Places(t)[k]) && PlaceRecords(u, o, values, again, v);
        assert IsStoredInto(u, t);
      }
    }
    if u :| IsStoredInto(u, t) && PlaceRecords(u, o, values, again, v) {
      if u != t {
        var k :| 0 <= k < |Places(t)| && IsStoredInto(u, Places(t)[k]);
        assert Stored(Places(t)[k], o, values, again, v);
        BoundIff(Places(t)[k], o, values, again, v);
      }
    }
  }
}
