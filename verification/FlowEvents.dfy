/** Everything a walk of a program records, by the statements it has: exactly the links, reads and
    definitions that some statement stands for. */
module FlowEvents {
  import opened Options
  import opened Evidence
  import opened Calls
  import opened Hubs
  import opened FlowSyntax
  import opened FlowGraph
  import opened FlowLinks

  // ---- one statement ----

  /** What a statement evaluates before it does anything else. */
  function Evaluates(s: Stmt): seq<Expr> {
    match s
    case Evaluate(e) => [e]
    case Assign(_, e) => [e]
    case AugAssign(t, e) => [e, t]
    case If(c, _, _) => [c]
    case While(c, _) => [c]
    case For(_, e, _) => [e]
    case Give(_, e) => [e]
    case Def(_) => []
  }

  predicate Stores(s: Stmt) {
    s.Assign? || s.AugAssign? || s.For?
  }

  /** `n` carries what the statement stores or returns. */
  ghost predicate IsValue(s: Stmt, n: nat) {
    exists k :: 0 <= k < |Evaluates(s)| && Carries(Evaluates(s)[k], false, n)
  }

  /** Names in a target are defined by the values stored; a target read before is walked again. */
  ghost predicate TargetRecords(s: Stmt, u: Expr, o: nat, v: Event)
    requires Stores(s)
  {
    || (exists id, x :: NamesAt(u, id, x) && NameHolds(s, id, x, o, v))
    || (u.Subscript? && Recorded(u.index, o, s.AugAssign?, v))
  }

  ghost predicate NameHolds(s: Stmt, id: nat, x: string, o: nat, v: Event) {
    || v == Defined(o, x, NodeOf(id, DefinitionRole, s.AugAssign?))
    || (v.Linked? && IsValue(s, v.link.from) && v.link.to == NodeOf(id, DefinitionRole, s.AugAssign?) && v.link.confidence == Resolved)
  }

  ghost predicate ReturnRecords(s: Stmt, o: nat, v: Event)
    requires s.Give?
  {
    || v == Returned(o, NodeOf(s.id, ReturnRole, false))
    || (v.Linked? && IsValue(s, v.link.from) && v.link.to == NodeOf(s.id, ReturnRole, false) && v.link.confidence == Resolved)
  }

  ghost predicate ParamRecords(f: Function, v: Event) {
    exists p :: p in f.params && (v == Defined(f.symbol, p.name, NodeOf(p.id, ParameterRole, false))
                                  || v == HasParam(f.symbol, p.name, NodeOf(p.id, ParameterRole, false)))
  }

  ghost predicate FirstRecords(s: Stmt, o: nat, v: Event) {
    exists k :: 0 <= k < |Evaluates(s)| && Recorded(Evaluates(s)[k], o, false, v)
  }

  ghost predicate StoreRecords(s: Stmt, o: nat, v: Event)
    requires Stores(s)
  {
    exists u :: IsStoredInto(u, s.target) && TargetRecords(s, u, o, v)
  }

  /** What a statement of scope `o` records by itself. */
  ghost predicate StmtRecords(s: Stmt, o: nat, v: Event) {
    || FirstRecords(s, o, v)
    || (Stores(s) && StoreRecords(s, o, v))
    || (s.Give? && ReturnRecords(s, o, v))
    || (s.Def? && ParamRecords(s.function_, v))
  }

  // ---- statements inside others ----

  /** The statements inside a statement, each once: loop bodies too, and both branches. */
  function Nested(s: Stmt): (r: seq<Stmt>)
    ensures forall k :: 0 <= k < |r| ==> r[k] < s
  {
    match s
    case If(_, a, b) => a + b
    case While(_, b) => b
    case For(_, _, b) => b
    case Def(f) => f.body
    case _ => []
  }

  function ScopeInside(s: Stmt, o: nat): nat {
    if s.Def? then s.function_.symbol else o
  }

  /** `x` stands in scope `ox` when `s` stands in scope `o`. */
  ghost predicate Stands(x: Stmt, ox: nat, s: Stmt, o: nat)
    decreases s
  {
    (x == s && ox == o) || exists k :: 0 <= k < |Nested(s)| && Stands(x, ox, Nested(s)[k], ScopeInside(s, o))
  }

  ghost predicate StandsIn(x: Stmt, ox: nat, p: Program) {
    exists m, k: nat :: m in p.modules && k < |m.body| && Stands(x, ox, m.body[k], m.symbol)
  }

  // ---- walking ----

  lemma {:induction false} AllVisitedIff(ss: seq<Stmt>, o: nat, v: Event)
    ensures v in AllVisited(ss, o) <==> exists k :: 0 <= k < |ss| && v in Visited(ss[k], o)
  {
    hide Visited;
    if ss != [] {
      var init, last := ss[..|ss| - 1], ss[|ss| - 1];
      AllVisitedIff(init, o, v);
      assert forall k :: 0 <= k < |init| ==> ss[k] == init[k];
      assert ss[|ss| - 1] == last;
    }
  }

  lemma {:induction false} ParamsIff(f: nat, ps: seq<Formal>, v: Event)
    ensures v in ParamEvents(f, ps) <==>
      exists p :: p in ps && (v == Defined(f, p.name, NodeOf(p.id, ParameterRole, false)) || v == HasParam(f, p.name, NodeOf(p.id, ParameterRole, false)))
  {
    hide NodeOf;
    if ps != [] {
      var init, last := ps[..|ps| - 1], ps[|ps| - 1];
      assert ps == init + [last];
      ParamsIff(f, init, v);
    }
  }

  ghost predicate VisitedBelow(s: Stmt, o: nat, v: Event) {
    exists k :: 0 <= k < |Nested(s)| && v in Visited(Nested(s)[k], ScopeInside(s, o))
  }

  lemma BelowIff(s: Stmt, o: nat, v: Event)
    ensures VisitedBelow(s, o, v) <==> v in AllVisited(Nested(s), ScopeInside(s, o))
  {
    AllVisitedIff(Nested(s), ScopeInside(s, o), v);
    hide Nested, ScopeInside, Visited, AllVisited;
  }

  lemma {:induction false} AllVisitedConcat(a: seq<Stmt>, b: seq<Stmt>, o: nat)
    ensures AllVisited(a + b, o) == AllVisited(a, o) + AllVisited(b, o)
  {
    hide Visited;
    if b == [] {
      assert a + b == a;
    } else {
      assert (a + b)[..|a + b| - 1] == a + b[..|b| - 1];
      AllVisitedConcat(a, b[..|b| - 1], o);
    }
  }

  /** A statement stores the values it has evaluated. */
  lemma StoredIff(s: Stmt, o: nat, values: seq<nat>, v: Event)
    requires Stores(s) && forall n: nat :: n in values <==> IsValue(s, n)
    ensures v in Bound(s.target, o, values, s.AugAssign?) <==> StoreRecords(s, o, v)
  {
    BoundIff(s.target, o, values, s.AugAssign?, v);
    hide Bound, IsStoredInto, NamesAt, Recorded, IsValue, NodeOf;
    forall u ensures PlaceRecords(u, o, values, s.AugAssign?, v) <==> TargetRecords(s, u, o, v) {
      SamePlace(s, u, o, values, v);
    }
    hide PlaceRecords, TargetRecords;
  }

  lemma SamePlace(s: Stmt, u: Expr, o: nat, values: seq<nat>, v: Event)
    requires Stores(s) && forall n: nat :: n in values <==> IsValue(s, n)
    ensures PlaceRecords(u, o, values, s.AugAssign?, v) <==> TargetRecords(s, u, o, v)
  {
    hide NamesAt, Recorded, IsValue, NodeOf;
    if id, x :| NamesAt(u, id, x) && Defines(id, x, o, values, s.AugAssign?, v) {
      assert NameHolds(s, id, x, o, v);
    }
    if id, x :| NamesAt(u, id, x) && NameHolds(s, id, x, o, v) {
      assert Defines(id, x, o, values, s.AugAssign?, v);
    }
  }

  lemma OneValue(s: Stmt, e: Expr, n: nat)
    requires Evaluates(s) == [e]
    ensures n in Values(e, false) <==> IsValue(s, n)
  {
    CarriesIff(e, false, n);
    hide Values, Carries;
    assert Evaluates(s)[0] == e;
  }

  lemma TwoValues(s: Stmt, e: Expr, t: Expr, n: nat)
    requires Evaluates(s) == [e, t]
    ensures n in Values(e, false) + Values(t, false) <==> IsValue(s, n)
  {
    CarriesIff(e, false, n);
    CarriesIff(t, false, n);
    hide Values, Carries;
    assert Evaluates(s)[0] == e && Evaluates(s)[1] == t;
  }

  lemma OneFirst(s: Stmt, e: Expr, o: nat, v: Event)
    requires Evaluates(s) == [e]
    ensures v in Evaluated(e, o, false) <==> FirstRecords(s, o, v)
  {
    EvaluatedIff(e, o, false, v);
    hide Evaluated, Recorded;
    assert Evaluates(s)[0] == e;
  }

  lemma TwoFirst(s: Stmt, e: Expr, t: Expr, o: nat, v: Event)
    requires Evaluates(s) == [e, t]
    ensures v in Evaluated(e, o, false) + Evaluated(t, o, false) <==> FirstRecords(s, o, v)
  {
    EvaluatedIff(e, o, false, v);
    EvaluatedIff(t, o, false, v);
    hide Evaluated, Recorded;
    assert Evaluates(s)[0] == e && Evaluates(s)[1] == t;
  }

  /** One level: a statement records by itself or through those inside it. */
  lemma VisitedStep(s: Stmt, o: nat, v: Event)
    ensures v in Visited(s, o) <==> StmtRecords(s, o, v) || VisitedBelow(s, o, v)
  {
    hide *;
    match s
    case Evaluate(e) => EvaluateStep(s, o, v);
    case Assign(_, _) => AssignStep(s, o, v);
    case AugAssign(_, _) => AugStep(s, o, v);
    case If(_, _, _) => IfStep(s, o, v);
    case While(_, _) => WhileStep(s, o, v);
    case For(_, _, _) => ForStep(s, o, v);
    case Give(_, _) => GiveStep(s, o, v);
    case Def(_) => DefStep(s, o, v);
  }

  lemma EvaluateStep(s: Stmt, o: nat, v: Event)
    requires s.Evaluate?
    ensures v in Visited(s, o) <==> StmtRecords(s, o, v) || VisitedBelow(s, o, v)
  {
    OneFirst(s, s.value, o, v);
    hide Evaluated, FirstRecords;
  }

  lemma AssignStep(s: Stmt, o: nat, v: Event)
    requires s.Assign?
    ensures v in Visited(s, o) <==> StmtRecords(s, o, v) || VisitedBelow(s, o, v)
  {
    OneFirst(s, s.value, o, v);
    forall n: nat ensures n in Values(s.value, false) <==> IsValue(s, n) {
      OneValue(s, s.value, n);
    }
    StoredIff(s, o, Values(s.value, false), v);
    hide Evaluated, FirstRecords, Bound, Values, StoreRecords;
  }

  lemma AugStep(s: Stmt, o: nat, v: Event)
    requires s.AugAssign?
    ensures v in Visited(s, o) <==> StmtRecords(s, o, v) || VisitedBelow(s, o, v)
  {
    TwoFirst(s, s.value, s.target, o, v);
    forall n: nat ensures n in Values(s.value, false) + Values(s.target, false) <==> IsValue(s, n) {
      TwoValues(s, s.value, s.target, n);
    }
    StoredIff(s, o, Values(s.value, false) + Values(s.target, false), v);
    hide Evaluated, FirstRecords, Bound, Values, StoreRecords;
  }

  lemma IfStep(s: Stmt, o: nat, v: Event)
    requires s.If?
    ensures v in Visited(s, o) <==> StmtRecords(s, o, v) || VisitedBelow(s, o, v)
  {
    OneFirst(s, s.cond, o, v);
    BelowIff(s, o, v);
    AllVisitedConcat(s.then_, s.else_, o);
    IfVisits(s, o);
    hide Evaluated, FirstRecords, Visited, AllVisited, VisitedBelow;
  }

  lemma IfVisits(s: Stmt, o: nat)
    requires s.If?
    ensures Visited(s, o) == Evaluated(s.cond, o, false) + AllVisited(s.then_, o) + AllVisited(s.else_, o)
  {
    hide Evaluated, AllVisited;
  }

  lemma WhileStep(s: Stmt, o: nat, v: Event)
    requires s.While?
    ensures v in Visited(s, o) <==> StmtRecords(s, o, v) || VisitedBelow(s, o, v)
  {
    OneFirst(s, s.cond, o, v);
    BelowIff(s, o, v);
    WhileVisits(s, o);
    hide Evaluated, FirstRecords, Visited, AllVisited, VisitedBelow;
  }

  lemma WhileVisits(s: Stmt, o: nat)
    requires s.While?
    ensures Visited(s, o) == Evaluated(s.cond, o, false) + AllVisited(s.body, o)
  {
    hide Evaluated, AllVisited;
  }

  lemma ForStep(s: Stmt, o: nat, v: Event)
    requires s.For?
    ensures v in Visited(s, o) <==> StmtRecords(s, o, v) || VisitedBelow(s, o, v)
  {
    OneFirst(s, s.iter, o, v);
    forall n: nat ensures n in Values(s.iter, false) <==> IsValue(s, n) {
      OneValue(s, s.iter, n);
    }
    StoredIff(s, o, Values(s.iter, false), v);
    BelowIff(s, o, v);
    ForVisits(s, o);
    hide Evaluated, FirstRecords, Bound, Values, StoreRecords, Visited, AllVisited, VisitedBelow;
  }

  lemma ForVisits(s: Stmt, o: nat)
    requires s.For?
    ensures Visited(s, o) == Evaluated(s.iter, o, false) + Bound(s.target, o, Values(s.iter, false), false) + AllVisited(s.body, o)
  {
    hide Evaluated, AllVisited, Bound, Values;
  }

  lemma GiveStep(s: Stmt, o: nat, v: Event)
    requires s.Give?
    ensures v in Visited(s, o) <==> StmtRecords(s, o, v) || VisitedBelow(s, o, v)
  {
    OneFirst(s, s.value, o, v);
    if v.Linked? {
      OneValue(s, s.value, v.link.from);
    }
    hide Evaluated, FirstRecords, Values, NodeOf, IsValue;
  }

  lemma DefStep(s: Stmt, o: nat, v: Event)
    requires s.Def?
    ensures v in Visited(s, o) <==> StmtRecords(s, o, v) || VisitedBelow(s, o, v)
  {
    var f := s.function_;
    ParamsIff(f.symbol, f.params, v);
    BelowIff(s, o, v);
    DefVisits(s, o);
    hide ParamEvents, Visited, AllVisited, NodeOf, VisitedBelow;
  }

  lemma DefVisits(s: Stmt, o: nat)
    requires s.Def?
    ensures Visited(s, o) == ParamEvents(s.function_.symbol, s.function_.params) + AllVisited(s.function_.body, s.function_.symbol)
  {
    hide ParamEvents, AllVisited;
  }

  ghost predicate SomeRecords(s: Stmt, o: nat, v: Event) {
    exists x, ox :: Stands(x, ox, s, o) && StmtRecords(x, ox, v)
  }

  lemma {:induction false} VisitedIff(s: Stmt, o: nat, v: Event)
    ensures v in Visited(s, o) <==> SomeRecords(s, o, v)
    decreases s
  {
    VisitedStep(s, o, v);
    hide Visited, StmtRecords, Nested, ScopeInside;
    if v in Visited(s, o) {
      if StmtRecords(s, o, v) {
        assert Stands(s, o, s, o);
      } else {
        var k :| 0 <= k < |Nested(s)| && v in Visited(Nested(s)[k], ScopeInside(s, o));
        VisitedIff(Nested(s)[k], ScopeInside(s, o), v);
        var x, ox :| Stands(x, ox, Nested(s)[k], ScopeInside(s, o)) && StmtRecords(x, ox, v);
        assert Stands(x, ox, s, o);
      }
    }
    if x, ox :| Stands(x, ox, s, o) && StmtRecords(x, ox, v) {
      if !(x == s && ox == o) {
        var k :| 0 <= k < |Nested(s)| && Stands(x, ox, Nested(s)[k], ScopeInside(s, o));
        assert SomeRecords(Nested(s)[k], ScopeInside(s, o), v);
        VisitedIff(Nested(s)[k], ScopeInside(s, o), v);
      }
    }
  }

  lemma {:induction false} ModulesIff(ms: seq<Module>, v: Event)
    ensures v in ModulesVisited(ms) <==> exists m :: m in ms && v in AllVisited(m.body, m.symbol)
  {
    hide AllVisited;
    if ms != [] {
      var init, last := ms[..|ms| - 1], ms[|ms| - 1];
      assert ms == init + [last];
      ModulesIff(init, v);
    }
  }

  /** Of every program: whatever the walk records, some statement of the program records by itself, and
      whatever a statement does is recorded. */
  lemma RecordedIff(p: Program, v: Event)
    ensures v in LogOf(p) <==> exists s, o :: StandsIn(s, o, p) && StmtRecords(s, o, v)
  {
    ModulesIff(p.modules, v);
    hide AllVisited, ModulesVisited, StmtRecords, Stands;
    if m :| m in p.modules && v in AllVisited(m.body, m.symbol) {
      AllVisitedIff(m.body, m.symbol, v);
      var k :| 0 <= k < |m.body| && v in Visited(m.body[k], m.symbol);
      VisitedIff(m.body[k], m.symbol, v);
      var s, o :| Stands(s, o, m.body[k], m.symbol) && StmtRecords(s, o, v);
      assert StandsIn(s, o, p);
    }
    if s, o :| StandsIn(s, o, p) && StmtRecords(s, o, v) {
      var m, k: nat :| m in p.modules && k < |m.body| && Stands(s, o, m.body[k], m.symbol);
      assert SomeRecords(m.body[k], m.symbol, v);
      VisitedIff(m.body[k], m.symbol, v);
      AllVisitedIff(m.body, m.symbol, v);
    }
  }

  // ---- each kind of record ----

  /** Statement `s` evaluates `x`; what a target is read for is walked again when it is stored into. */
  ghost predicate EvaluatesIn(s: Stmt, x: Expr, again: bool) {
    || (!again && exists k :: 0 <= k < |Evaluates(s)| && IsPartOf(x, Evaluates(s)[k]))
    || (Stores(s) && again == s.AugAssign? && exists u :: IsStoredInto(u, s.target) && u.Subscript? && IsPartOf(x, u.index))
  }

  ghost predicate ExprRecords(s: Stmt, o: nat, v: Event) {
    exists x, again :: EvaluatesIn(s, x, again) && Records(x, o, again, v)
  }

  ghost predicate NameRecords(s: Stmt, o: nat, v: Event) {
    Stores(s) && exists u, id, x :: IsStoredInto(u, s.target) && NamesAt(u, id, x) && NameHolds(s, id, x, o, v)
  }

  lemma FirstIsExpr(s: Stmt, o: nat, v: Event)
    requires FirstRecords(s, o, v)
    ensures ExprRecords(s, o, v)
  {
    hide IsPartOf, Records, IsStoredInto;
    var k :| 0 <= k < |Evaluates(s)| && Recorded(Evaluates(s)[k], o, false, v);
    var x :| IsPartOf(x, Evaluates(s)[k]) && Records(x, o, false, v);
    assert EvaluatesIn(s, x, false);
  }

  lemma StoreIsExprOrName(s: Stmt, o: nat, v: Event)
    requires Stores(s) && StoreRecords(s, o, v)
    ensures ExprRecords(s, o, v) || NameRecords(s, o, v)
  {
    hide IsPartOf, Records, IsStoredInto, NamesAt, NameHolds;
    var u :| IsStoredInto(u, s.target) && TargetRecords(s, u, o, v);
    if u.Subscript? && Recorded(u.index, o, s.AugAssign?, v) {
      var x :| IsPartOf(x, u.index) && Records(x, o, s.AugAssign?, v);
      assert EvaluatesIn(s, x, s.AugAssign?);
    }
  }

  lemma ExprIsRecorded(s: Stmt, o: nat, v: Event)
    requires ExprRecords(s, o, v)
    ensures StmtRecords(s, o, v)
  {
    hide IsPartOf, Records, IsStoredInto, NamesAt, NameHolds, ReturnRecords, ParamRecords;
    var x, again :| EvaluatesIn(s, x, again) && Records(x, o, again, v);
    if !again && exists k :: 0 <= k < |Evaluates(s)| && IsPartOf(x, Evaluates(s)[k]) {
      var k :| 0 <= k < |Evaluates(s)| && IsPartOf(x, Evaluates(s)[k]);
      assert Recorded(Evaluates(s)[k], o, false, v);
    } else {
      var u :| IsStoredInto(u, s.target) && u.Subscript? && IsPartOf(x, u.index);
      assert Recorded(u.index, o, again, v);
      assert TargetRecords(s, u, o, v);
    }
  }

  lemma NameIsRecorded(s: Stmt, o: nat, v: Event)
    requires NameRecords(s, o, v)
    ensures StmtRecords(s, o, v)
  {
    hide IsPartOf, Records, IsStoredInto, NamesAt, NameHolds, FirstRecords, ReturnRecords, ParamRecords, Recorded;
    var u, id, x :| IsStoredInto(u, s.target) && NamesAt(u, id, x) && NameHolds(s, id, x, o, v);
    assert TargetRecords(s, u, o, v);
  }

  /** A statement records what the expressions it evaluates do, what its targets name, what it returns, and
      its parameters. */
  lemma StmtRecordsIff(s: Stmt, o: nat, v: Event)
    ensures StmtRecords(s, o, v) <==>
      ExprRecords(s, o, v) || NameRecords(s, o, v) || (s.Give? && ReturnRecords(s, o, v)) || (s.Def? && ParamRecords(s.function_, v))
  {
    hide FirstRecords, StoreRecords, ExprRecords, NameRecords, ReturnRecords, ParamRecords;
    if FirstRecords(s, o, v) {
      FirstIsExpr(s, o, v);
    }
    if Stores(s) && StoreRecords(s, o, v) {
      StoreIsExprOrName(s, o, v);
    }
    if ExprRecords(s, o, v) {
      ExprIsRecorded(s, o, v);
    }
    if NameRecords(s, o, v) {
      NameIsRecorded(s, o, v);
    }
  }
}
