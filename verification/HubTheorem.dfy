/** Hub wiring keeps reachability at every confidence level. */
module HubTheorem {
  import opened Walks
  import opened Mediation
  import opened Evidence
  import opened Calls
  import opened Hubs
  import opened HubWiring

  /** The links of confidence at least `c`, as a relation. */
  ghost function AtLeast(links: seq<Link>, c: nat): set<(nat, nat)> {
    set l | l in links && l.confidence.Rank() >= c :: (l.from, l.to)
  }

  /** Every node the calls and definitions mention existed before any hub. */
  ghost predicate Scoped(defs: Definitions, base: seq<Link>, calls: seq<PendingCall>, n0: nat) {
    && (forall l :: l in base ==> l.from < n0 && l.to < n0)
    && (forall callee: nat, k: nat :: k < |defs.ParamsOf(callee)| ==> defs.ParamsOf(callee)[k].node < n0)
    && (forall callee: nat, x: nat :: x in defs.ReturnsOf(callee) ==> x < n0)
    && (forall c :: c in calls ==> CallScoped(c, n0))
  }

  ghost predicate CallScoped(c: PendingCall, n0: nat) {
    c.result < n0 && forall k, a: nat :: 0 <= k < |SlotsOf(c)| && a in SlotsOf(c)[k].1 ==> a < n0
  }

  ghost predicate IsHub(n0: nat, nodes: nat, x: nat) {
    n0 <= x < nodes
  }

  /** The hub nodes. */
  ghost function HubNodes(n0: nat, nodes: nat): (r: set<nat>)
    ensures forall x: nat :: x in r <==> IsHub(n0, nodes, x)
    decreases nodes
  {
    if nodes <= n0 then {} else HubNodes(n0, nodes - 1) + {nodes - 1}
  }

  /** A finished wiring: what the walker's second pass leaves behind. */
  datatype Wiring = Wiring(defs: Definitions, base: seq<Link>, calls: seq<PendingCall>, n0: nat,
                           nodes: nat, links: seq<Link>, hubs: HubTable, plain: set<Link>, fills: set<Fill>, taken: set<Taken>)
  {
    ghost predicate Valid() {
      && n0 <= nodes && HubsApart(n0, nodes, hubs) && FillsHaveHubs(hubs, fills, taken)
      && Wired(defs, links, hubs, plain, fills, taken)
      && Done(defs, LinkSet(base), calls, plain, fills, taken)
      && Scoped(defs, base, calls, n0)
    }

    /** The same calls wired directly. */
    ghost function Direct(): seq<Link> {
      base + AllDirect(defs, calls)
    }
  }

  // ---- from direct links to detours ----

  /** `l` is routed through hub `h`, at no lower confidence on either side. */
  ghost predicate Detours(w: Wiring, l: Link, h: nat, c1: Confidence, c2: Confidence) {
    && IsHub(w.n0, w.nodes, h) && Link(l.from, h, c1) in w.links && Link(h, l.to, c2) in w.links
    && c1.Rank() >= l.confidence.Rank() && c2.Rank() >= l.confidence.Rank()
  }

  lemma WireIsHubFormal(defs: Definitions, slot: Slot, callee: nat, hasReceiver: bool, x: nat)
    requires x in WireFormals(defs, slot, callee, hasReceiver)
    ensures x in HubFormals(defs, slot, callee, hasReceiver)
  {
    if slot.Keyword? {
      FirstIsNamed(defs.ParamsOf(callee), slot.name);
    }
  }

  lemma FillIsLinked(w: Wiring, f: Fill)
    requires w.Valid() && f in w.fills
    ensures HasHub(w.hubs, f.key, f.slot) && IsHub(w.n0, w.nodes, w.hubs[f.key][f.slot])
    ensures Link(f.actual, w.hubs[f.key][f.slot], Resolved) in w.links
  {
    hide Done, Scoped, SomeHubLink, TakenLink;
    assert FillLink(w.hubs, w.fills, Link(f.actual, w.hubs[f.key][f.slot], Resolved));
  }

  lemma TakenIsLinked(w: Wiring, r: Taken)
    requires w.Valid() && r in w.taken
    ensures HasHub(w.hubs, r.key, Slot.Return) && IsHub(w.n0, w.nodes, w.hubs[r.key][Slot.Return])
    ensures Link(w.hubs[r.key][Slot.Return], r.result, Resolved) in w.links
  {
    hide Done, Scoped, SomeHubLink, FillLink;
    assert TakenLink(w.hubs, w.taken, Link(w.hubs[r.key][Slot.Return], r.result, Resolved));
  }

  lemma HubIsLinked(w: Wiring, key: HubKey, slot: Slot, t: Target, l: Link)
    requires w.Valid() && HasHub(w.hubs, key, slot) && t in key.targets
    requires CalleeLink(w.defs, key.hasReceiver, slot, w.hubs[key][slot], t, l)
    ensures l in w.links
  {
    hide Done, Scoped, TakenLink, FillLink, CalleeLink, HubsApart, FillsHaveHubs;
    assert HubLink(w.defs, key, slot, w.hubs[key][slot], l);
    assert SomeHubLink(w.defs, w.hubs, l);
  }

  lemma ActualIsFilled(w: Wiring, c: PendingCall, k: nat, a: nat)
    requires w.Valid() && c in w.calls && c.Wide() && k < |SlotsOf(c)| && a in SlotsOf(c)[k].1
    ensures Fill(KeyOf(c), SlotsOf(c)[k].0, a) in w.fills
  {
    hide Scoped, HubsApart, Wired, SlotsOf, PendingCall.Wide;
    assert FillOf(c, Fill(KeyOf(c), SlotsOf(c)[k].0, a));
  }

  lemma ArgumentDetours(w: Wiring, l: Link, c: PendingCall, t: Target, k: nat)
    requires w.Valid() && c in w.calls && c.Wide() && t in c.targets && l.confidence == t.confidence
    requires k < |SlotsOf(c)| && l.from in SlotsOf(c)[k].1
    requires l.to in WireFormals(w.defs, SlotsOf(c)[k].0, t.callee, c.receiver != [])
    ensures exists h: nat, c1, c2 :: Detours(w, l, h, c1, c2)
  {
    var key, slot := KeyOf(c), SlotsOf(c)[k].0;
    var f := Fill(key, slot, l.from);
    assert f in w.fills by {
      ActualIsFilled(w, c, k, l.from);
    }
    WireIsHubFormal(w.defs, slot, t.callee, c.receiver != [], l.to);
    hide Wiring.Valid, SlotsOf, WireFormals, HubFormals, PendingCall.Wide;
    FillIsLinked(w, f);
    var h := w.hubs[key][slot];
    assert t in key.targets;
    assert CalleeLink(w.defs, key.hasReceiver, slot, h, t, Link(h, l.to, t.confidence));
    HubIsLinked(w, key, slot, t, Link(h, l.to, t.confidence));
    assert Detours(w, l, h, Resolved, t.confidence);
  }

  lemma ReturnDetours(w: Wiring, l: Link, c: PendingCall, t: Target)
    requires w.Valid() && c in w.calls && c.Wide() && t in c.targets && l.confidence == t.confidence
    requires l.from in w.defs.ReturnsOf(t.callee) && l.to == c.result
    ensures exists h: nat, c1, c2 :: Detours(w, l, h, c1, c2)
  {
    var key := KeyOf(c);
    var r := Taken(key, l.to);
    assert r in w.taken by {
      hide Scoped, HubsApart, Wired;
    }
    hide Wiring.Valid;
    TakenIsLinked(w, r);
    var h := w.hubs[key][Slot.Return];
    assert t in key.targets;
    HubIsLinked(w, key, Slot.Return, t, Link(l.from, h, t.confidence));
    assert Detours(w, l, h, t.confidence, Resolved);
  }

  /** A direct link is in the wiring or detours through a hub. */
  lemma DirectDetours(w: Wiring, l: Link)
    requires w.Valid() && l in w.Direct()
    ensures l in w.links || exists h: nat, c1, c2 :: Detours(w, l, h, c1, c2)
  {
    hide Scoped, HubsApart, FillsHaveHubs, FillLink, TakenLink, SomeHubLink, SlotsOf, DirectLinks, PendingCall.Wide;
    if l !in w.links {
      assert l !in w.plain && l !in LinkSet(w.base);
      var c :| c in w.calls && DirectLink(w.defs, c, l);
      var t :| t in c.targets && l.confidence == t.confidence && Binds(w.defs, c, t, l.from, l.to);
      hide Wired, Done;
      if l.from in w.defs.ReturnsOf(t.callee) && l.to == c.result {
        ReturnDetours(w, l, c, t);
      } else {
        var k: nat :| k < |SlotsOf(c)| && l.from in SlotsOf(c)[k].1
                      && l.to in WireFormals(w.defs, SlotsOf(c)[k].0, t.callee, c.receiver != []);
        ArgumentDetours(w, l, c, t, k);
      }
    }
  }

  // ---- from detours to direct links ----

  lemma FormalScoped(w: Wiring, slot: Slot, callee: nat, hasReceiver: bool, x: nat)
    requires w.Valid() && x in HubFormals(w.defs, slot, callee, hasReceiver)
    ensures x < w.n0
  {
    hide Done, Wired, HubsApart, FillsHaveHubs;
    var ps := w.defs.ParamsOf(callee);
    assert forall k: nat :: k < |ps| ==> ps[k].node < w.n0;
    match slot
    case Splat =>
      var rest := Skip(ps, w.defs.Offset(callee, hasReceiver));
      var k :| 0 <= k < |Nodes(rest)| && Nodes(rest)[k] == x;
      assert rest[k] == ps[w.defs.Offset(callee, hasReceiver) + k];
    case Keyword(name) =>
      var k :| 0 <= k < |ps| && ps[k] == Param(name, x);
    case _ =>
  }

  lemma FillCall(w: Wiring, f: Fill) returns (c: PendingCall, k: nat)
    requires w.Valid() && f in w.fills
    ensures c in w.calls && c.Wide() && f.key == KeyOf(c) && k < |SlotsOf(c)| && f.slot == SlotsOf(c)[k].0 && f.actual in SlotsOf(c)[k].1
    ensures f.actual < w.n0 && !f.slot.Return?
  {
    hide Wired, HubsApart, FillsHaveHubs;
    c :| c in w.calls && c.Wide() && FillOf(c, f);
    k :| k < |SlotsOf(c)| && f.slot == SlotsOf(c)[k].0 && f.actual in SlotsOf(c)[k].1;
    assert CallScoped(c, w.n0);
  }

  lemma TakenCall(w: Wiring, r: Taken) returns (c: PendingCall)
    requires w.Valid() && r in w.taken
    ensures c in w.calls && r.key == KeyOf(c) && r.result == c.result < w.n0
  {
    hide Wired, HubsApart, FillsHaveHubs, KeyOf, DirectLink;
    c :| c in w.calls && c.Wide() && r == Taken(KeyOf(c), c.result);
    assert CallScoped(c, w.n0);
  }

  /** A direct link joins original nodes. */
  lemma DirectScoped(w: Wiring, l: Link)
    requires w.Valid() && l in w.Direct()
    ensures l.from < w.n0 && l.to < w.n0
  {
    hide Wired, HubsApart, FillsHaveHubs, Done, SlotsOf, HubFormals, DirectLinks;
    if l !in w.base {
      var c :| c in w.calls && DirectLink(w.defs, c, l);
      var t :| t in c.targets && l.confidence == t.confidence && Binds(w.defs, c, t, l.from, l.to);
      assert CallScoped(c, w.n0);
      if !(l.from in w.defs.ReturnsOf(t.callee) && l.to == c.result) {
        var k: nat :| k < |SlotsOf(c)| && l.from in SlotsOf(c)[k].1
                      && l.to in WireFormals(w.defs, SlotsOf(c)[k].0, t.callee, c.receiver != []);
        WireIsHubFormal(w.defs, SlotsOf(c)[k].0, t.callee, c.receiver != [], l.to);
        FormalScoped(w, SlotsOf(c)[k].0, t.callee, c.receiver != [], l.to);
      }
    }
  }

  lemma PlainIsDirect(w: Wiring, l: Link)
    requires w.Valid() && l in w.plain
    ensures l in w.Direct()
  {
    hide Wired, HubsApart, FillsHaveHubs, Scoped, DirectLink, DirectLinks, FillOf, KeyOf, PendingCall.Wide;
  }

  /** The kinds of link in a wiring, by their ends. */
  lemma LinkKinds(w: Wiring, l: Link)
    requires w.Valid() && l in w.links
    ensures l.from < w.n0 && l.to < w.n0 ==> l in w.plain
    ensures l.from < w.n0 || l.to < w.n0
    ensures l.to >= w.n0 ==> FillLink(w.hubs, w.fills, l) || exists key :: HasHub(w.hubs, key, Slot.Return) && HubLink(w.defs, key, Slot.Return, w.hubs[key][Slot.Return], l)
    ensures l.from >= w.n0 ==> TakenLink(w.hubs, w.taken, l) || exists key, slot: Slot :: !slot.Return? && HasHub(w.hubs, key, slot) && HubLink(w.defs, key, slot, w.hubs[key][slot], l)
  {
    if l in w.plain {
      PlainIsDirect(w, l);
      DirectScoped(w, l);
    } else if FillLink(w.hubs, w.fills, l) {
      var f :| f in w.fills && HasHub(w.hubs, f.key, f.slot) && l == Link(f.actual, w.hubs[f.key][f.slot], Resolved);
      var c, k := FillCall(w, f);
      FillIsLinked(w, f);
    } else if TakenLink(w.hubs, w.taken, l) {
      var r :| r in w.taken && HasHub(w.hubs, r.key, Slot.Return) && l == Link(w.hubs[r.key][Slot.Return], r.result, Resolved);
      var c := TakenCall(w, r);
      TakenIsLinked(w, r);
    } else {
      assert SomeHubLink(w.defs, w.hubs, l) by {
        hide Done, Scoped, HubsApart, FillsHaveHubs;
      }
      var key, slot :| HasHub(w.hubs, key, slot) && HubLink(w.defs, key, slot, w.hubs[key][slot], l);
      HubLinkEnds(w, key, slot, l);
    }
  }

  lemma HubLinkEnds(w: Wiring, key: HubKey, slot: Slot, l: Link)
    requires w.Valid() && HasHub(w.hubs, key, slot) && HubLink(w.defs, key, slot, w.hubs[key][slot], l)
    ensures if slot.Return? then l.from < w.n0 <= l.to && l.to == w.hubs[key][slot] else l.to < w.n0 <= l.from && l.from == w.hubs[key][slot]
  {
    hide Done, Wired, FillsHaveHubs, HubFormals;
    var t :| t in key.targets && CalleeLink(w.defs, key.hasReceiver, slot, w.hubs[key][slot], t, l);
    if !slot.Return? {
      FormalScoped(w, slot, t.callee, key.hasReceiver, l.to);
    }
  }

  lemma SameHub(w: Wiring, k1: HubKey, s1: Slot, k2: HubKey, s2: Slot)
    requires w.Valid() && HasHub(w.hubs, k1, s1) && HasHub(w.hubs, k2, s2) && w.hubs[k1][s1] == w.hubs[k2][s2]
    ensures k1 == k2 && s1 == s2
  {
    hide Done, Wired, FillsHaveHubs, Scoped;
  }

  /** Every keyword a wide call passes a value by names one parameter at most in each target. */
  ghost predicate KeywordsNameOne(w: Wiring) {
    forall c, t, k :: (c in w.calls && t in c.targets && Passes(c, k)) ==> NamesOne(w.defs, t.callee, SlotsOf(c)[k].0.name)
  }

  /** The wide call passes a value by keyword in its slot `k`. */
  ghost predicate Passes(c: PendingCall, k: int) {
    c.Wide() && 0 <= k < |SlotsOf(c)| && SlotsOf(c)[k].0.Keyword? && SlotsOf(c)[k].1 != []
  }

  /** The formals of each target a wide call's values land in are the same through hubs as directly
      exactly when its keywords each name one parameter at most. */
  lemma FilledFormalsAgreeIff(w: Wiring)
    ensures KeywordsNameOne(w) <==>
      forall c, t, k :: (c in w.calls && t in c.targets && c.Wide() && 0 <= k < |SlotsOf(c)| && SlotsOf(c)[k].1 != [])
        ==> SameFormals(w.defs, SlotsOf(c)[k].0, t.callee, c.receiver != [])
  {
    hide SameFormals, NamesOne, SlotsOf, PendingCall.Wide;
    forall c, t, k | c in w.calls && t in c.targets && c.Wide() && 0 <= k < |SlotsOf(c)| && SlotsOf(c)[k].1 != []
      ensures SameFormals(w.defs, SlotsOf(c)[k].0, t.callee, c.receiver != [])
              <==> (Passes(c, k) ==> NamesOne(w.defs, t.callee, SlotsOf(c)[k].0.name))
    {
      FormalsAgreeIff(w.defs, SlotsOf(c)[k].0, t.callee, c.receiver != []);
    }
  }

  /** An actual going in and a formal coming out of one hub are bound by some call directly. */
  lemma ArgumentThrough(w: Wiring, f: Fill, t: Target, l: Link)
    requires w.Valid() && KeywordsNameOne(w) && f in w.fills && t in f.key.targets
    requires l.from == f.actual && l.to in HubFormals(w.defs, f.slot, t.callee, f.key.hasReceiver) && l.confidence == t.confidence
    ensures l in w.Direct()
  {
    var c, k := FillCall(w, f);
    assert t in c.targets;
    assert f.slot.Keyword? ==> Passes(c, k);
    FormalsAgreeIff(w.defs, f.slot, t.callee, f.key.hasReceiver);
    hide Wiring.Valid, HubFormals, WireFormals, SlotsOf, DirectLinks, NamesOne;
    assert Binds(w.defs, c, t, l.from, l.to);
    assert DirectLink(w.defs, c, l);
  }

  lemma ReturnThrough(w: Wiring, r: Taken, t: Target, l: Link)
    requires w.Valid() && r in w.taken && t in r.key.targets
    requires l.from in w.defs.ReturnsOf(t.callee) && l.to == r.result && l.confidence == t.confidence
    ensures l in w.Direct()
  {
    var c := TakenCall(w, r);
    assert t in c.targets;
    hide Wiring.Valid, SlotsOf, DirectLinks;
    assert Binds(w.defs, c, t, l.from, l.to);
    assert DirectLink(w.defs, c, l);
  }

  /** A result is taken from return hubs only. */
  lemma NotBoth(w: Wiring, key: HubKey, slot: Slot, l: Link)
    requires w.Valid() && TakenLink(w.hubs, w.taken, l) && HasHub(w.hubs, key, slot) && l.from == w.hubs[key][slot]
    ensures slot.Return?
  {
    var r :| r in w.taken && HasHub(w.hubs, r.key, Slot.Return) && l == Link(w.hubs[r.key][Slot.Return], r.result, Resolved);
    SameHub(w, key, slot, r.key, Slot.Return);
  }

  lemma ArgumentHubApart(w: Wiring, k2: HubKey, s2: Slot, key: HubKey, l: Link)
    requires w.Valid() && !s2.Return? && HasHub(w.hubs, k2, s2) && HubLink(w.defs, k2, s2, w.hubs[k2][s2], l)
    requires HasHub(w.hubs, key, Slot.Return)
    ensures l.from != w.hubs[key][Slot.Return]
  {
    HubLinkEnds(w, k2, s2, l);
    hide Wiring.Valid, HubLink;
    if w.hubs[k2][s2] == w.hubs[key][Slot.Return] {
      SameHub(w, key, Slot.Return, k2, s2);
    }
  }

  /** Nothing but results leaves a return hub. */
  lemma LeavesByArgument(w: Wiring, key: HubKey, l: Link)
    requires w.Valid() && l in w.links && HasHub(w.hubs, key, Slot.Return) && l.from >= w.n0
    ensures l.from == w.hubs[key][Slot.Return] ==> TakenLink(w.hubs, w.taken, l)
  {
    LinkKinds(w, l);
    if !TakenLink(w.hubs, w.taken, l) {
      var k2, s2: Slot :| !s2.Return? && HasHub(w.hubs, k2, s2) && HubLink(w.defs, k2, s2, w.hubs[k2][s2], l);
      ArgumentHubApart(w, k2, s2, key, l);
    }
  }

  /** Two links meeting in a hub stand for a direct link at the confidence of one of them. */
  lemma ThroughHub(w: Wiring, l1: Link, l2: Link)
    requires w.Valid() && KeywordsNameOne(w) && l1 in w.links && l2 in w.links && l1.to == l2.from >= w.n0
    ensures Link(l1.from, l2.to, l1.confidence) in w.Direct() || Link(l1.from, l2.to, l2.confidence) in w.Direct()
  {
    LinkKinds(w, l1);
    LinkKinds(w, l2);
    hide Wiring.Valid, Wiring.Direct, HubFormals, KeywordsNameOne;
    if FillLink(w.hubs, w.fills, l1) {
      var f :| f in w.fills && HasHub(w.hubs, f.key, f.slot) && l1 == Link(f.actual, w.hubs[f.key][f.slot], Resolved);
      var c, k := FillCall(w, f);
      if TakenLink(w.hubs, w.taken, l2) {
        NotBoth(w, f.key, f.slot, l2);
      } else {
        var key, slot: Slot :| !slot.Return? && HasHub(w.hubs, key, slot) && HubLink(w.defs, key, slot, w.hubs[key][slot], l2);
        HubLinkEnds(w, key, slot, l2);
        SameHub(w, f.key, f.slot, key, slot);
        var t :| t in key.targets && CalleeLink(w.defs, key.hasReceiver, slot, w.hubs[key][slot], t, l2);
        ArgumentThrough(w, f, t, Link(l1.from, l2.to, l2.confidence));
      }
    } else {
      var key :| HasHub(w.hubs, key, Slot.Return) && HubLink(w.defs, key, Slot.Return, w.hubs[key][Slot.Return], l1);
      HubLinkEnds(w, key, Slot.Return, l1);
      if TakenLink(w.hubs, w.taken, l2) {
        var r :| r in w.taken && HasHub(w.hubs, r.key, Slot.Return) && l2 == Link(w.hubs[r.key][Slot.Return], r.result, Resolved);
        SameHub(w, key, Slot.Return, r.key, Slot.Return);
        var t :| t in key.targets && CalleeLink(w.defs, key.hasReceiver, Slot.Return, w.hubs[key][Slot.Return], t, l1);
        ReturnThrough(w, r, t, Link(l1.from, l2.to, l1.confidence));
      } else {
        LeavesByArgument(w, key, l2);
      }
    }
  }

  // ---- the theorem ----

  lemma EveryLinkDetours(w: Wiring, c: nat)
    requires w.Valid()
    ensures Detoured(AtLeast(w.Direct(), c), AtLeast(w.links, c), HubNodes(w.n0, w.nodes))
  {
    hide Wiring.Valid, Wiring.Direct;
    var D, M, hubs := AtLeast(w.Direct(), c), AtLeast(w.links, c), HubNodes(w.n0, w.nodes);
    forall e | e in D ensures e in M || HasDetour(M, hubs, e) {
      var l :| l in w.Direct() && l.confidence.Rank() >= c && e == (l.from, l.to);
      DirectDetours(w, l);
      if l !in w.links {
        var h: nat, c1, c2 :| Detours(w, l, h, c1, c2);
        assert (l.from, h) == (Link(l.from, h, c1).from, Link(l.from, h, c1).to) && (h, l.to) == (Link(h, l.to, c2).from, Link(h, l.to, c2).to);
        assert h in hubs && (e.0, h) in M && (h, e.1) in M;
      }
    }
  }

  lemma WiringMediates(w: Wiring, c: nat)
    requires w.Valid() && KeywordsNameOne(w)
    ensures Mediates(AtLeast(w.Direct(), c), AtLeast(w.links, c), HubNodes(w.n0, w.nodes))
  {
    EveryLinkDetours(w, c);
    hide Wiring.Valid, Wiring.Direct, Detoured;
    var D, M, hubs := AtLeast(w.Direct(), c), AtLeast(w.links, c), HubNodes(w.n0, w.nodes);
    forall e | e in D ensures e.0 !in hubs && e.1 !in hubs {
      var l :| l in w.Direct() && l.confidence.Rank() >= c && e == (l.from, l.to);
      DirectScoped(w, l);
    }
    forall e | e in M
      ensures e.0 !in hubs || e.1 !in hubs
      ensures e.0 !in hubs && e.1 !in hubs ==> e in D
    {
      var l :| l in w.links && l.confidence.Rank() >= c && e == (l.from, l.to);
      LinkKinds(w, l);
      LinkEndsInside(w, l);
      if l in w.plain {
        PlainIsDirect(w, l);
      }
    }
    forall e, f | e in M && f in M && e.1 == f.0 && e.1 in hubs ensures (e.0, f.1) in D {
      var l1 :| l1 in w.links && l1.confidence.Rank() >= c && e == (l1.from, l1.to);
      var l2 :| l2 in w.links && l2.confidence.Rank() >= c && f == (l2.from, l2.to);
      ThroughHub(w, l1, l2);
      var m := if Link(l1.from, l2.to, l1.confidence) in w.Direct() then Link(l1.from, l2.to, l1.confidence) else Link(l1.from, l2.to, l2.confidence);
      assert m in w.Direct() && (e.0, f.1) == (m.from, m.to);
    }
  }

  lemma LinkEndsInside(w: Wiring, l: Link)
    requires w.Valid() && l in w.links
    ensures l.from < w.nodes && l.to < w.nodes
  {
    LinkKinds(w, l);
    if l !in w.plain {
      if l.to >= w.n0 {
        if FillLink(w.hubs, w.fills, l) {
          var f :| f in w.fills && HasHub(w.hubs, f.key, f.slot) && l == Link(f.actual, w.hubs[f.key][f.slot], Resolved);
          FillIsLinked(w, f);
        } else {
          var key :| HasHub(w.hubs, key, Slot.Return) && HubLink(w.defs, key, Slot.Return, w.hubs[key][Slot.Return], l);
          HubLinkEnds(w, key, Slot.Return, l);
        }
      } else if l.from >= w.n0 {
        if TakenLink(w.hubs, w.taken, l) {
          var r :| r in w.taken && HasHub(w.hubs, r.key, Slot.Return) && l == Link(w.hubs[r.key][Slot.Return], r.result, Resolved);
          TakenIsLinked(w, r);
        } else {
          var key, slot: Slot :| !slot.Return? && HasHub(w.hubs, key, slot) && HubLink(w.defs, key, slot, w.hubs[key][slot], l);
          HubLinkEnds(w, key, slot, l);
        }
      }
    } else {
      PlainIsDirect(w, l);
      DirectScoped(w, l);
    }
  }

  /** At every confidence level, original nodes reach each other in the wired graph exactly when they
      do under direct wiring, unless a wide call's keyword names two parameters of one target. */
  lemma HubsKeepReachability(w: Wiring, c: nat, a: nat, b: nat)
    requires w.Valid() && KeywordsNameOne(w) && a < w.n0 && b < w.n0
    ensures Reach(AtLeast(w.Direct(), c), a, b) <==> Reach(AtLeast(w.links, c), a, b)
  {
    WiringMediates(w, c);
    SameReach(AtLeast(w.Direct(), c), AtLeast(w.links, c), HubNodes(w.n0, w.nodes), a, b);
  }

  /** Whatever the parameter names, hubs lose no reachability. */
  lemma HubsLoseNothing(w: Wiring, c: nat, a: nat, b: nat)
    requires w.Valid() && Reach(AtLeast(w.Direct(), c), a, b)
    ensures Reach(AtLeast(w.links, c), a, b)
  {
    EveryLinkDetours(w, c);
    var p :| WalkFrom(AtLeast(w.Direct(), c), a, b, p);
    DirectThenMediated(AtLeast(w.Direct(), c), AtLeast(w.links, c), HubNodes(w.n0, w.nodes), a, b, p);
  }

  // ---- where hubs reach more ----

  /** Nine targets, the first of which has two parameters named `x`, are called with `x=0`. */
  function TwiceNamed(): Definitions {
    Definitions(map[0 := [Param("x", 1), Param("x", 2)]], map[], {}, {})
  }

  function TwiceNamedCall(): PendingCall {
    PendingCall(3, [], [], [("x", [0])], [], [Target(0, Resolved), Target(1, Resolved), Target(2, Resolved), Target(3, Resolved),
      Target(4, Resolved), Target(5, Resolved), Target(6, Resolved), Target(7, Resolved), Target(8, Resolved)])
  }

  lemma TwiceNamedSlots()
    ensures SlotsOf(TwiceNamedCall()) == [(Slot.Keyword("x"), [0])] && TwiceNamedCall().Wide()
    ensures HubFormals(TwiceNamed(), Slot.Keyword("x"), 0, false) == [1, 2]
    ensures forall callee: nat :: 2 !in WireFormals(TwiceNamed(), Slot.Keyword("x"), callee, false)
  {
    assert [("x", [0])][1..] == [];
    var ps := TwiceNamed().ParamsOf(0);
    assert ps[1..] == [Param("x", 2)] && ps[1..][1..] == [];
  }

  /** The value reaches the second parameter through the hub, and directly it does not. */
  lemma HubsReachMore(w: Wiring)
    requires w.Valid() && w.defs == TwiceNamed() && w.base == [] && w.calls == [TwiceNamedCall()]
    ensures Reach(AtLeast(w.links, 2), 0, 2) && !Reach(AtLeast(w.Direct(), 0), 0, 2)
    ensures !KeywordsNameOne(w)
  {
    TwiceNamedSlots();
    var c := TwiceNamedCall();
    var t, slot := c.targets[0], Slot.Keyword("x");
    assert c in w.calls && t in c.targets;
    HubReaches(w, c, t, slot);
    NotDirectly(w, c);
    assert Passes(c, 0);
    var ps := w.defs.ParamsOf(0);
    assert ps[0].name == ps[1].name && ps[0].node != ps[1].node;
    hide Wiring.Valid, Wiring.Direct, Reach, AtLeast, SlotsOf;
  }

  lemma HubReaches(w: Wiring, c: PendingCall, t: Target, slot: Slot)
    requires w.Valid() && c in w.calls && c.Wide() && SlotsOf(c) == [(slot, [0])] && c.receiver == []
    requires t in c.targets && t.confidence == Resolved && HubFormals(w.defs, slot, t.callee, false) == [1, 2]
    ensures Reach(AtLeast(w.links, 2), 0, 2)
  {
    var key := KeyOf(c);
    var f := Fill(key, slot, 0);
    assert [0][0] == 0 && SlotsOf(c)[0] == (slot, [0]);
    assert FillOf(c, f);
    assert f in w.fills by {
      hide Scoped, HubsApart, Wired;
    }
    var c', k := FillCall(w, f);
    FillIsLinked(w, f);
    hide Wiring.Valid, SlotsOf, HubFormals;
    var h := w.hubs[key][slot];
    assert t in key.targets && [1, 2][1] == 2;
    assert CalleeLink(w.defs, key.hasReceiver, slot, h, t, Link(h, 2, Resolved));
    HubIsLinked(w, key, slot, t, Link(h, 2, Resolved));
    var R := AtLeast(w.links, 2);
    assert (0, h) == (Link(0, h, Resolved).from, Link(0, h, Resolved).to) && (h, 2) == (Link(h, 2, Resolved).from, Link(h, 2, Resolved).to);
    ReachEdge(R, 0, h);
    ReachStep(R, 0, h, 2);
  }

  lemma NotDirectly(w: Wiring, c: PendingCall)
    requires w.calls == [c] && w.base == [] && c == TwiceNamedCall() && w.defs == TwiceNamed()
    ensures !Reach(AtLeast(w.Direct(), 0), 0, 2)
  {
    var D := AtLeast(w.Direct(), 0);
    hide Reach, Binds, DirectLinks, SlotsOf;
    forall l | l in w.Direct() ensures l.to != 2 {
      assert DirectLink(w.defs, c, l);
      NotIntoSecond(l);
    }
    NoneInto(w.Direct(), 0, 2);
  }

  lemma NoneInto(links: seq<Link>, a: nat, b: nat)
    requires a != b && forall l :: l in links ==> l.to != b
    ensures !Reach(AtLeast(links, 0), a, b)
  {
    var D := AtLeast(links, 0);
    assert BackClosed(D, {b});
    hide AtLeast;
    if Reach(D, a, b) {
      ReachStaysBackClosed(D, {b}, a, b);
    }
  }

  lemma NotIntoSecond(l: Link)
    requires DirectLink(TwiceNamed(), TwiceNamedCall(), l)
    ensures l.to != 2
  {
    TwiceNamedSlots();
    var c := TwiceNamedCall();
    hide SlotsOf, WireFormals;
    var t :| t in c.targets && l.confidence == t.confidence && Binds(TwiceNamed(), c, t, l.from, l.to);
  }

  /** Wiring a list of calls onto a base graph. */
  method Wire(defs: Definitions, nodes: nat, base: seq<Link>, calls: seq<PendingCall>) returns (w: Walker)
    requires Scoped(defs, base, calls, nodes)
    ensures Wiring(defs, base, calls, nodes, w.nodes, w.links, w.hubs, w.plain, w.fills, w.taken).Valid()
  {
    w := new Walker(defs, nodes, base);
    w.ResolvePackageCalls(calls);
  }
}
