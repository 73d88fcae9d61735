/** Exactly which reads of imported names are of nothing the package binds, and a flow missed. */
module FlowImports {
  import opened Options
  import opened Walks
  import opened Evidence
  import opened Calls
  import opened Hubs
  import opened FlowSyntax
  import opened FlowWalker
  import opened FlowGraph
  import opened FlowRuns
  import opened FlowFits
  import opened FlowRecord
  import opened FlowTheorem
  import opened FlowNoPath
  import HubTheorem

  // ---- every program ----

  /** Activation `at` may read variable `y` of scope `s` for a dotted name. */
  ghost predicate MayRead(p: Program, heap: seq<Frame>, at: nat, e: Expr, s: nat, y: string)
    requires IsDotted(e)
  {
    var binds, x := BoundInModules(p.modules), Head(e).name;
    match Lookup(binds + p.imports, heap, at, x)
    case None => false
    case Some(i) =>
      && i < |heap| && (s, y) in binds
      && ((s, y) == (heap[i].scope, x) || ((heap[i].scope, x) in p.imports && Head(e).origin == Inside(s, y)))
  }

  /** What a run reads for a dotted name is what it is outside, or what such a variable holds. */
  lemma ImportedReads(p: Program, floor: nat, own: Trail, e: Expr, at: nat, st: State)
    requires IsDotted(e) && Climbs(p.scopeOf) && NestedHeap(p.scopeOf, st.heap) && at < |st.heap|
    ensures var r := ReadImported(WorldOf(p, floor), own, e, at, st);
            r.Done? && r.value != own ==>
              exists s: nat, y, i :: MayRead(p, st.heap, at, e, s, y) && 0 <= i < |st.heap| && st.heap[i].scope == s && y in st.heap[i].vars
                && r.value == st.heap[i].vars[y] + own
  {
    var w, x := WorldOf(p, floor), Head(e).name;
    var r, found := ReadImported(w, own, e, at, st), Lookup(w.binds + w.imports, st.heap, at, x);
    LookupIsNearestBound(w.binds + w.imports, p.scopeOf, st.heap, at, x);
    NearestFound(w.binds + w.imports, p.scopeOf, st.heap[at].scope, x);
    assert Chosen(st).heap == st.heap && Chosen(Chosen(st)).heap == st.heap;
    hide Lookup, Nearest, Climbs, NestedHeap, BoundInModules, FunctionsOf;
    if r.Done? && r.value != own {
      var here := (st.heap[found.value].scope, x);
      if here !in w.imports || (here in w.binds && Choice(st) == 0) {
        assert MayRead(p, st.heap, at, e, here.0, x);
      } else {
        var origin, j := Head(e).origin, Choice(Chosen(st));
        assert MayRead(p, st.heap, at, e, origin.module_, origin.variable);
        assert st.heap[j].scope == origin.module_ && r.value == st.heap[j].vars[origin.variable] + own;
      }
    }
  }

  /** Of every program, activation and dotted name: the walk records no read and so links no definition
      to it, and there is no variable a run may read for it exactly when it is from elsewhere. */
  lemma ImportedReadIff(p: Program, heap: seq<Frame>, at: nat, e: Expr, again: bool)
    requires IsDotted(e) && Climbs(p.scopeOf) && NestedHeap(p.scopeOf, heap) && at < |heap|
    ensures Evaluated(e, heap[at].scope, again) == []
    ensures (forall s: nat, y :: !MayRead(p, heap, at, e, s, y)) <==> FromElsewhere(heap[at].scope, Head(e).name, Head(e).origin, ContextOf(p))
  {
    var binds, x, o, origin := BoundInModules(p.modules), Head(e).name, heap[at].scope, Head(e).origin;
    LookupIsNearestBound(binds + p.imports, p.scopeOf, heap, at, x);
    NearestFound(binds + p.imports, p.scopeOf, o, x);
    var found := Lookup(binds + p.imports, heap, at, x);
    assert Evaluated(e, o, again) == [];
    hide Lookup, Nearest, NestedHeap, BoundInModules, FunctionsOf, WrittenInModules, Evaluated;
    if found.Some? {
      var here := (heap[found.value].scope, x);
      if here in binds {
        assert MayRead(p, heap, at, e, here.0, x);
      } else if origin.Inside? && (origin.module_, origin.variable) in binds {
        assert MayRead(p, heap, at, e, origin.module_, origin.variable);
      }
    }
  }

  // ---- a variable of another module ----

  // cfg: TOKEN = "s"
  // use: from .cfg import TOKEN; sink(TOKEN)
  function Token(): Stmt { Assign(Name(1, "TOKEN"), Literal(2)) }
  function Use(): Stmt { Handing(6, Imported(7, "TOKEN", Inside(0, "TOKEN")), 8) }
  function Across(): (p: Program)
    ensures Climbs(p.scopeOf)
  {
    Program([Module(0, [Token()]), Module(1, [Use()])], map[], {(1, "TOKEN")})
  }

  function From(): nat { NodeOf(2, LiteralRole, false) }
  function FromDef(): nat { NodeOf(1, DefinitionRole, false) }
  function UseNode(): nat { NodeOf(7, UseRole, false) }
  function Outlet(): nat { NodeOf(8, ForeignRole, false) }

  lemma NodesDiffer()
    ensures From() == 42 && FromDef() == 18 && UseNode() == 112 && Outlet() == 140
  {
  }

  lemma AcrossLog()
    ensures LogOf(Across()) == [Linked(Link(From(), FromDef(), Resolved)), Defined(0, "TOKEN", FromDef()),
      Linked(Link(UseNode(), Outlet(), Resolved)), Linked(Link(UseNode(), NodeOf(8, FirstRole, false), Resolved))]
  {
    OneVisited(Token(), 0);
    OneVisited(Use(), 1);
    HandingLog(6, Imported(7, "TOKEN", Inside(0, "TOKEN")), 8, 1);
    OneLink(From(), FromDef());
    OneLink(UseNode(), Outlet());
    OneLink(UseNode(), NodeOf(8, FirstRole, false));
    hide LinksInto, NodeOf, Handing;
    assert Visited(Token(), 0) == [Linked(Link(From(), FromDef(), Resolved)), Defined(0, "TOKEN", FromDef())];
    assert Visited(Use(), 1) == [Linked(Link(UseNode(), Outlet(), Resolved)), Linked(Link(UseNode(), NodeOf(8, FirstRole, false), Resolved))];
    hide Visited, AllVisited;
    var ms := Across().modules;
    assert ms[..1][..0] == [] && ms[..1][0] == Module(0, [Token()]) && ms[1] == Module(1, [Use()]);
    assert ModulesVisited(ms[..1]) == [] + AllVisited([Token()], 0);
  }

  lemma AcrossIsolated()
    ensures Isolated(Across(), {From(), FromDef()})
    ensures Linked(Link(From(), FromDef(), Resolved)) in LogOf(Across()) && Linked(Link(UseNode(), Outlet(), Resolved)) in LogOf(Across())
  {
    AcrossLog();
    NodesDiffer();
    var log := LogOf(Across());
    assert log[0] in log && log[2] in log;
    hide LogOf, From, FromDef, UseNode, Outlet, NodeOf, Across, ReadStays, CallStays;
  }

  lemma AcrossWorld()
    ensures var w := WorldOf(Across(), 0);
            w.binds == {(0, "TOKEN")} && w.imports == {(1, "TOKEN")} && w.floor == 0
  {
    HandingHas(6, Imported(7, "TOKEN", Inside(0, "TOKEN")), 8, 1);
    var ms := Across().modules;
    assert ms[..1][..0] == [] && ms[..1][0] == Module(0, [Token()]) && ms[1] == Module(1, [Use()]);
    hide Handing;
    assert [Token()][..0] == [] && [Use()][..0] == [];
    assert BoundIn(Token(), 0) == {(0, "TOKEN")} by {
      assert InScope(0, {"TOKEN"}) == {(0, "TOKEN")};
    }
    assert AllBoundIn([Token()], 0) == AllBoundIn([], 0) + {(0, "TOKEN")};
    assert AllBoundIn([Use()], 1) == AllBoundIn([], 1) + {};
    assert BoundInModules(ms[..1]) == BoundInModules([]) + {(0, "TOKEN")};
  }

  /** After both modules have started. */
  function Both(): State {
    State([Frame(0, map["TOKEN" := {From()} + {FromDef()}], None, NoObject), Frame(1, map[], None, NoObject)], {}, [])
  }

  lemma AcrossRun()
    ensures (From(), Outlet()) in Run(Across(), 0, [Load(0), Load(1)], [], 0).taken
  {
    var w := WorldOf(Across(), 0);
    AcrossWorld();
    var st0, st1 := State([], {}, []), State([Both().heap[0]], {}, []);
    var empty := State([Frame(0, map[], None, NoObject)], {}, []);
    var steps := [Load(0), Load(1)];
    assert steps[..1] == [Load(0)] && steps[..1][..0] == [];
    var e := Imported(7, "TOKEN", Inside(0, "TOKEN"));
    hide NodeOf, WorldOf, Handing;
    assert [Token()][..0] == [] && ExecAll(w, [], 0, empty, 0) == Done(empty, None);
    assert Exec(w, Token(), 0, empty, 0) == Done(st1, None) by {
      assert SetVar(empty, 0, "TOKEN", {From()} + {FromDef()}).heap == st1.heap;
    }
    assert ExecAll(w, [Token()], 0, empty, 0) == Done(st1, None);
    assert [] + [Frame(0, map[], None, NoObject)] == empty.heap;
    assert RunStep(Across(), w, Load(0), st0, 0) == st1;
    assert Lookup(w.binds + w.imports, Both().heap, 1, "TOKEN") == Some(1);
    assert Eval(w, e, 1, Both(), 0) == Done(Both(), {From()} + {FromDef()} + {UseNode()});
    hide Eval, Exec;
    HandingRun(w, 6, e, 8, 1, Both(), Both(), 0, {From()} + {FromDef()} + {UseNode()}, From());
    assert [Use()][..0] == [] && ExecAll(w, [], 1, Both(), 0) == Done(Both(), None);
    assert ExecAll(w, [Use()], 1, Both(), 0) == Exec(w, Use(), 1, Both(), 0);
    assert st1.heap + [Frame(1, map[], None, NoObject)] == Both().heap;
    hide ExecAll, Both;
    assert RunStep(Across(), w, Load(1), st1, 0) == ExecAll(w, [Use()], 1, Both(), 0).st;
    hide RunStep;
    assert Run(Across(), 0, steps[..1], [], 0) == st1;
  }

  /** What a module's variable holds is imported by another and handed to a sink; no path says so. */
  lemma ImportIsMissed(w: HubTheorem.Wiring)
    requires IsGraphOf(Across(), w)
    ensures (From(), Outlet()) in Run(Across(), 0, [Load(0), Load(1)], [], 0).taken
    ensures !Reach(HubTheorem.AtLeast(w.links, 0), From(), Outlet()) && !InFragment(Across())
  {
    AcrossRun();
    AcrossIsolated();
    NodesDiffer();
    var p := Across();
    hide *;
    LinkInside(p, w, Link(From(), FromDef(), Resolved));
    LinkInside(p, w, Link(UseNode(), Outlet(), Resolved));
    NoWay(p, w, {From(), FromDef()}, From(), Outlet());
    if InFragment(p) {
      TaintSound(p, w, 0, [Load(0), Load(1)], [], 0);
    }
  }
}
