/** Taint soundness of the built graph, over whole runs and at every confidence level. */
module FlowTheorem {
  import opened Options
  import opened Walks
  import opened Evidence
  import opened Calls
  import opened Hubs
  import opened FlowSyntax
  import opened FlowWalker
  import opened FlowGraph
  import opened FlowRuns
  import opened FlowFits
  import opened FlowRecord
  import opened FlowCarried
  import opened FlowActuals
  import opened FlowSoundness
  import HubWiring
  import HubTheorem

  // ---- direct wiring gives everything a run needs ----

  ghost function DirectLinksOf(p: Program): seq<Link>
    requires Climbs(p.scopeOf)
  {
    BaseLinks(p) + HubWiring.AllDirect(DefinitionsOf(p), CallsOf(LogOf(p)))
  }

  ghost function SettingOf(p: Program, floor: nat): Setting
    requires Climbs(p.scopeOf)
  {
    Setting(p, floor, HubTheorem.AtLeast(DirectLinksOf(p), floor))
  }

  lemma InRelation(links: seq<Link>, floor: nat, l: Link)
    requires l in links && l.confidence.Rank() >= floor
    ensures (l.from, l.to) in HubTheorem.AtLeast(links, floor)
  {
  }

  lemma LinkedIsDirect(p: Program, l: Link)
    requires Climbs(p.scopeOf) && Linked(l) in LogOf(p)
    ensures l in DirectLinksOf(p)
  {
    hide LogOf, AllReadLinks, HubWiring.AllDirect;
  }

  lemma ReadIsDirect(p: Program, r: PendingRead, d: nat)
    requires Climbs(p.scopeOf) && Read(r) in LogOf(p)
    ensures var s := Nearest(DefsOf(LogOf(p)).Keys, p.scopeOf, r.owner, r.name);
            s.Some? && d in DefsAt(DefsOf(LogOf(p)), s.value, r.name) ==> Link(d, r.node, Resolved) in DirectLinksOf(p)
  {
    var s := Nearest(DefsOf(LogOf(p)).Keys, p.scopeOf, r.owner, r.name);
    hide LogOf, HubWiring.AllDirect, Nearest, DefsAt;
    if s.Some? && d in DefsAt(DefsOf(LogOf(p)), s.value, r.name) {
      assert Link(d, r.node, Resolved) in ReadLinks(DefsOf(LogOf(p)), p.scopeOf, r);
      hide ReadLinks;
      assert r in ReadsOf(LogOf(p));
    }
  }

  lemma CallIsDirect(p: Program, c: PendingCall, t: Target, a: nat, b: nat)
    requires Climbs(p.scopeOf) && Called(c) in LogOf(p) && t in c.targets && Binds(DefinitionsOf(p), c, t, a, b)
    ensures Link(a, b, t.confidence) in DirectLinksOf(p)
  {
    hide LogOf, DefinitionsOf, BaseLinks, Binds, HubWiring.AllDirect;
    var l := Link(a, b, t.confidence);
    assert DirectLink(DefinitionsOf(p), c, l);
    hide DirectLink;
    assert c in CallsOf(LogOf(p));
  }

  lemma SettingValid(p: Program, floor: nat)
    requires InFragment(p) && floor <= 2
    ensures SettingOf(p, floor).Valid()
  {
    SettingLinks(p, floor);
    SettingReads(p, floor);
    SettingWires(p, floor);
    hide InFragment, DirectLinksOf, HubTheorem.AtLeast, Setting.Links, Setting.Reads, Setting.Wires;
  }

  lemma SettingLinks(p: Program, floor: nat)
    requires Climbs(p.scopeOf)
    ensures SettingOf(p, floor).Links()
  {
    var k := SettingOf(p, floor);
    hide DirectLinksOf, LogOf, HubTheorem.AtLeast;
    forall l | Linked(l) in LogOf(p) && l.confidence.Rank() >= floor ensures (l.from, l.to) in k.R {
      LinkedIsDirect(p, l);
      InRelation(DirectLinksOf(p), floor, l);
    }
  }

  lemma SettingReads(p: Program, floor: nat)
    requires Climbs(p.scopeOf) && floor <= 2
    ensures SettingOf(p, floor).Reads()
  {
    var k := SettingOf(p, floor);
    hide DirectLinksOf, LogOf, HubTheorem.AtLeast;
    forall r | Read(r) in LogOf(p) ensures k.ReadWired(r) {
      var s := Nearest(DefsOf(LogOf(p)).Keys, p.scopeOf, r.owner, r.name);
      hide Nearest;
      if s.Some? {
        forall d: nat | d in k.DefNodes(s.value, r.name) ensures (d, r.node) in k.R {
          ReadIsDirect(p, r, d);
          InRelation(DirectLinksOf(p), floor, Link(d, r.node, Resolved));
        }
      }
    }
  }

  lemma SettingWires(p: Program, floor: nat)
    requires Climbs(p.scopeOf)
    ensures SettingOf(p, floor).Wires()
  {
    var k := SettingOf(p, floor);
    hide DirectLinksOf, LogOf, HubTheorem.AtLeast, DefinitionsOf, Binds;
    forall c, t, a: nat, b: nat | Called(c) in LogOf(p) && k.Lands(c, t, a, b) ensures (a, b) in k.R {
      CallIsDirect(p, c, t, a, b);
      InRelation(DirectLinksOf(p), floor, Link(a, b, t.confidence));
    }
  }

  // ---- runs ----

  lemma LoadSound(k: Setting, i: nat, st: State, fuel: nat)
    requires k.Valid() && Sound(k, st) && i < |k.p.modules|
    ensures Sound(k, RunStep(k.p, k.World(), Load(i), st, fuel))
  {
    var m := k.p.modules[i];
    var frame := Frame(m.symbol, map[], None, NoObject);
    var s := st.(heap := st.heap + [frame]);
    ModuleRecorded(k.p.modules, k.Fragment(), i);
    assert m in k.p.modules;
    PushSound(k, st, frame);
    ExecAllSound(k, m.body, |st.heap|, s, fuel, m.symbol);
    hide Setting.Valid, FrameSound, TakenSound, ExecAll, Grows;
  }

  lemma StepSound(k: Setting, step: Step, st: State, fuel: nat)
    requires k.Valid() && Sound(k, st)
    ensures Sound(k, RunStep(k.p, k.World(), step, st, fuel))
  {
    match step
    case Load(i) =>
      if i < |k.p.modules| {
        LoadSound(k, i, st, fuel);
      }
    case CallIn(symbol) =>
      FindIs(k.World().functions, symbol);
      var f := Find(k.World().functions, symbol);
      if f.Some? {
        OutsideSound(k, f.value, |f.value.params|);
        InvokeSound(k, f.value, FromOutside(f.value, |f.value.params|), NoObject, st, fuel);
      }
      hide Setting.Valid, FrameSound, TakenSound, Invoke, Grows, Find;
  }

  lemma {:induction false} RunSound(k: Setting, steps: seq<Step>, choices: seq<nat>, fuel: nat)
    requires k.Valid()
    ensures Sound(k, Run(k.p, k.floor, steps, choices, fuel))
  {
    if steps != [] {
      RunSound(k, steps[..|steps| - 1], choices, fuel);
      StepSound(k, steps[|steps| - 1], Run(k.p, k.floor, steps[..|steps| - 1], choices, fuel), fuel);
      hide Setting.Valid, Sound, RunStep;
    } else {
      hide Setting.Valid;
    }
  }

  /** In every run of every program of the fragment: whatever node a value passed through before
      an external call took it, the built graph has a path from that node to the call's formal,
      no less confident than the least confident call the run entered. */
  lemma TaintSound(p: Program, w: HubTheorem.Wiring, floor: nat, steps: seq<Step>, choices: seq<nat>, fuel: nat)
    requires InFragment(p) && IsGraphOf(p, w) && floor <= 2
    ensures forall e :: e in Run(p, floor, steps, choices, fuel).taken ==> Reach(HubTheorem.AtLeast(w.links, floor), e.0, e.1)
  {
    var k := SettingOf(p, floor);
    SettingValid(p, floor);
    RunSound(k, steps, choices, fuel);
    var taken := Run(p, floor, steps, choices, fuel).taken;
    assert TakenSound(k, taken);
    SameDirect(p, w);
    hide InFragment, IsGraphOf, Run, HubTheorem.Wiring.Valid, DirectLinksOf, HubTheorem.AtLeast, Setting.Valid, FrameSound;
    forall e | e in taken ensures Reach(HubTheorem.AtLeast(w.links, floor), e.0, e.1) {
      HubTheorem.HubsLoseNothing(w, floor, e.0, e.1);
    }
  }

  lemma SameDirect(p: Program, w: HubTheorem.Wiring)
    requires Climbs(p.scopeOf) && IsGraphOf(p, w)
    ensures w.Valid() && w.Direct() == DirectLinksOf(p)
  {
    hide HubTheorem.Wiring.Valid, DefinitionsOf, BaseLinks, LogOf, HubWiring.AllDirect;
  }
}
