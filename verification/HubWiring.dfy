/** Resolving the pending package calls of a walk: which calls are wired directly, which through
    hubs shared with others, and what has been linked when all are done. */
module HubWiring {
  import opened Walks
  import opened Mediation
  import opened Evidence
  import opened Calls
  import opened Hubs
  import opened Finite

  // ---- the links direct wiring makes ----

  function Cross(froms: seq<nat>, tos: seq<nat>, c: Confidence): (r: seq<Link>)
    ensures forall l :: l in r <==> l.from in froms && l.to in tos && l.confidence == c
  {
    if froms == [] then []
    else
      assert froms == froms[..|froms| - 1] + [froms[|froms| - 1]];
      Cross(froms[..|froms| - 1], tos, c) + LinksTo(froms[|froms| - 1], tos, c)
  }

  /** Actual `a` in one of the slots lands in formal `b` of `t`. */
  ghost predicate SlotBinds(defs: Definitions, slots: seq<(Slot, seq<nat>)>, hasReceiver: bool, t: Target, a: nat, b: nat) {
    exists k :: 0 <= k < |slots| && a in slots[k].1 && b in WireFormals(defs, slots[k].0, t.callee, hasReceiver)
  }

  function SlotLinks(defs: Definitions, slots: seq<(Slot, seq<nat>)>, hasReceiver: bool, t: Target): (r: seq<Link>)
    ensures forall l :: l in r <==> l.confidence == t.confidence && SlotBinds(defs, slots, hasReceiver, t, l.from, l.to)
  {
    if slots == [] then []
    else
      var init, last := slots[..|slots| - 1], slots[|slots| - 1];
      SlotBindsSnoc(defs, init, last, hasReceiver, t);
      assert slots == init + [last];
      SlotLinks(defs, init, hasReceiver, t) + Cross(last.1, WireFormals(defs, last.0, t.callee, hasReceiver), t.confidence)
  }

  lemma SlotBindsSnoc(defs: Definitions, init: seq<(Slot, seq<nat>)>, last: (Slot, seq<nat>), hasReceiver: bool, t: Target)
    ensures forall a: nat, b: nat ::
      SlotBinds(defs, init + [last], hasReceiver, t, a, b) <==>
      SlotBinds(defs, init, hasReceiver, t, a, b) || (a in last.1 && b in WireFormals(defs, last.0, t.callee, hasReceiver))
  {
    var all := init + [last];
    forall a: nat, b: nat
      ensures SlotBinds(defs, all, hasReceiver, t, a, b) <==>
              SlotBinds(defs, init, hasReceiver, t, a, b) || (a in last.1 && b in WireFormals(defs, last.0, t.callee, hasReceiver))
    {
      hide WireFormals;
      if SlotBinds(defs, init, hasReceiver, t, a, b) {
        var k :| 0 <= k < |init| && a in init[k].1 && b in WireFormals(defs, init[k].0, t.callee, hasReceiver);
        assert all[k] == init[k];
      }
      assert all[|init|] == last;
    }
  }

  /** Everything wiring `call` to `t` directly adds. */
  function DirectLinks(defs: Definitions, call: PendingCall, t: Target): (r: seq<Link>)
    ensures forall l :: l in r <==> l.confidence == t.confidence && Binds(defs, call, t, l.from, l.to)
  {
    SlotLinks(defs, SlotsOf(call), call.receiver != [], t) + LinksFrom(defs.ReturnsOf(t.callee), call.result, t.confidence)
  }

  function TargetsLinks(defs: Definitions, call: PendingCall, targets: seq<Target>): (r: seq<Link>)
    ensures forall l :: l in r <==> exists t :: t in targets && l in DirectLinks(defs, call, t)
  {
    if targets == [] then []
    else
      var init, last := targets[..|targets| - 1], targets[|targets| - 1];
      assert targets == init + [last];
      assert forall t :: t in targets <==> t in init || t == last;
      TargetsLinks(defs, call, init) + DirectLinks(defs, call, last)
  }

  /** The links of wiring every call directly to every target. */
  function AllDirect(defs: Definitions, calls: seq<PendingCall>): (r: seq<Link>)
    ensures forall l :: l in r <==> exists c :: c in calls && DirectLink(defs, c, l)
  {
    if calls == [] then []
    else
      var init, c := calls[..|calls| - 1], calls[|calls| - 1];
      assert calls == init + [c];
      DirectLinkIff(defs, c);
      AllDirect(defs, init) + TargetsLinks(defs, c, c.targets)
  }

  lemma DirectLinkIff(defs: Definitions, c: PendingCall)
    ensures forall l :: l in TargetsLinks(defs, c, c.targets) <==> DirectLink(defs, c, l)
  {
    forall l ensures l in TargetsLinks(defs, c, c.targets) <==> DirectLink(defs, c, l) {
      hide Binds, DirectLinks, TargetsLinks;
    }
  }

  // ---- what the hubs have been given ----

  ghost predicate FillOf(call: PendingCall, f: Fill) {
    f.key == KeyOf(call) && exists k :: 0 <= k < |SlotsOf(call)| && f.slot == SlotsOf(call)[k].0 && f.actual in SlotsOf(call)[k].1
  }

  /** The fills, results and plain links are those of the calls wired so far. */
  ghost predicate Done(defs: Definitions, base: set<Link>, calls: seq<PendingCall>, plain: set<Link>, fills: set<Fill>, taken: set<Taken>) {
    && (forall l :: l in plain <==> l in base || exists c :: c in calls && !c.Wide() && DirectLink(defs, c, l))
    && (forall f :: f in fills <==> exists c :: c in calls && c.Wide() && FillOf(c, f))
    && (forall r :: r in taken <==> exists c :: c in calls && c.Wide() && r == Taken(KeyOf(c), c.result))
  }

  ghost function LinkSet(links: seq<Link>): set<Link> {
    set l | l in links
  }

  lemma AddPlains(defs: Definitions, links: seq<Link>, hubs: HubTable, plain: set<Link>, fills: set<Fill>, taken: set<Taken>, more: seq<Link>)
    requires Wired(defs, links, hubs, plain, fills, taken)
    ensures Wired(defs, links + more, hubs, plain + LinkSet(more), fills, taken)
  {
    hide SomeHubLink, FillLink, TakenLink;
  }

  // ---- the walker's second pass ----

  class Walker {
    const defs: Definitions
    ghost const n0: nat
    var nodes: nat
    var links: seq<Link>
    var hubs: HubTable
    ghost var plain: set<Link>
    ghost var fills: set<Fill>
    ghost var taken: set<Taken>

    ghost predicate Valid()
      reads this
    {
      && n0 <= nodes && HubsApart(n0, nodes, hubs) && FillsHaveHubs(hubs, fills, taken)
      && Wired(defs, links, hubs, plain, fills, taken)
    }

    constructor (defs: Definitions, nodes: nat, links: seq<Link>)
      ensures Valid() && this.defs == defs && n0 == this.nodes == nodes && this.links == links && hubs == map[]
      ensures plain == LinkSet(links) && fills == {} && taken == {}
    {
      this.defs := defs;
      this.n0 := nodes;
      this.nodes := nodes;
      this.links := links;
      hubs := map[];
      plain := LinkSet(links);
      fills := {};
      taken := {};
    }

    /** The hub of one slot of one target set, created on first use with its callee side. */
    method HubFor(call: PendingCall, slot: Slot) returns (hub: nat)
      requires Valid()
      modifies this`nodes, this`links, this`hubs
      ensures Valid() && HasHub(hubs, KeyOf(call), slot) && hubs[KeyOf(call)][slot] == hub
      ensures forall k, s :: HasHub(old(hubs), k, s) ==> HasHub(hubs, k, s) && hubs[k][s] == old(hubs)[k][s]
      ensures HasHub(old(hubs), KeyOf(call), slot) ==> hubs == old(hubs) && nodes == old(nodes) && links == old(links)
    {
      hide HubsApart, FillsHaveHubs, Wired, KeyOf, HubLinks, WithHub;
      var key := KeyOf(call);
      if HasHub(hubs, key, slot) {
        return hubs[key][slot];
      }
      hub := nodes;
      NewHubApart(n0, nodes, hubs, key, slot);
      var more := CalleeSide(defs, call, slot, hub);
      NewHubWired(defs, links, hubs, plain, fills, taken, key, slot, hub, more);
      WithHubLookup(hubs, key, slot, hub, key, slot);
      forall k, s | HasHub(hubs, k, s) ensures HasHub(WithHub(hubs, key, slot, hub), k, s) && WithHub(hubs, key, slot, hub)[k][s] == hubs[k][s] {
        WithHubLookup(hubs, key, slot, hub, k, s);
      }
      nodes := nodes + 1;
      links := links + more;
      hubs := WithHub(hubs, key, slot, hub);
    }

    /** The actuals of one slot into its hub, each at full confidence. */
    method Fill(call: PendingCall, slot: Slot, values: seq<nat>)
      requires Valid()
      modifies this`nodes, this`links, this`hubs, this`fills
      ensures Valid() && forall f :: f in fills <==> f in old(fills) || (f.key == KeyOf(call) && f.slot == slot && f.actual in values)
    {
      hide HubsApart, Wired, KeyOf;
      var hub := HubFor(call, slot);
      for i := 0 to |values|
        invariant Valid() && HasHub(hubs, KeyOf(call), slot) && hubs[KeyOf(call)][slot] == hub
        invariant forall f :: f in fills <==> f in old(fills) || (f.key == KeyOf(call) && f.slot == slot && f.actual in values[..i])
      {
        AddFill(defs, links, hubs, plain, fills, taken, KeyOf(call), slot, values[i]);
        links := links + [Link(values[i], hub, Resolved)];
        fills := fills + {Hubs.Fill(KeyOf(call), slot, values[i])};
        assert values[..i + 1] == values[..i] + [values[i]];
      }
      assert values[..|values|] == values;
    }

    /** A wide call: every slot into its hub, and the return hub into the result. */
    method WireWide(call: PendingCall)
      requires Valid()
      modifies this`nodes, this`links, this`hubs, this`fills, this`taken
      ensures Valid() && taken == old(taken) + {Taken(KeyOf(call), call.result)}
      ensures forall f :: f in fills <==> f in old(fills) || FillOf(call, f)
    {
      hide Wired, HubsApart, FillsHaveHubs, KeyOf;
      var slots := SlotsOf(call);
      for i := 0 to |slots|
        invariant Valid() && taken == old(taken)
        invariant forall f :: f in fills <==> f in old(fills) || FillAmong(call, slots, i, f)
      {
        FillAmongNext(call, slots, i);
        Fill(call, slots[i].0, slots[i].1);
      }
      FillAmongAll(call);
      var hub := HubFor(call, Slot.Return);
      AddTaken(defs, links, hubs, plain, fills, taken, KeyOf(call), call.result);
      links := links + [Link(hub, call.result, Resolved)];
      taken := taken + {Taken(KeyOf(call), call.result)};
      TakenHasHub(hubs, fills, old(taken), KeyOf(call), call.result);
    }

    /** A narrow call: directly to every target. */
    method WireNarrow(call: PendingCall)
      requires Valid()
      modifies this`links, this`plain
      ensures Valid() && forall l :: l in plain <==> l in old(plain) || DirectLink(defs, call, l)
    {
      hide Wired, HubsApart, FillsHaveHubs, DirectLinks, TargetsLinks;
      var more := DirectSide(defs, call);
      AddPlains(defs, links, hubs, plain, fills, taken, more);
      DirectLinkIff(defs, call);
      links := links + more;
      plain := plain + LinkSet(more);
    }

    /** Actual to formal and return to result, for every pending call. */
    method ResolvePackageCalls(calls: seq<PendingCall>)
      requires Valid() && fills == {} && taken == {}
      modifies this
      ensures Valid() && Done(defs, old(plain), calls, plain, fills, taken)
    {
      hide HubsApart, FillsHaveHubs, Wired;
      for i := 0 to |calls|
        invariant Valid() && Done(defs, old(plain), calls[..i], plain, fills, taken)
      {
        ghost var plain0, fills0, taken0 := plain, fills, taken;
        if calls[i].Wide() {
          WireWide(calls[i]);
        } else {
          WireNarrow(calls[i]);
        }
        DoneNext(defs, old(plain), calls, i, plain0, fills0, taken0, plain, fills, taken);
      }
      assert calls[..|calls|] == calls;
    }
  }

  /** `f` fills one of the first `i` slots. */
  ghost predicate FillAmong(call: PendingCall, slots: seq<(Slot, seq<nat>)>, i: nat, f: Fill) {
    f.key == KeyOf(call) && exists k :: 0 <= k < i && k < |slots| && f.slot == slots[k].0 && f.actual in slots[k].1
  }

  lemma FillAmongNext(call: PendingCall, slots: seq<(Slot, seq<nat>)>, i: nat)
    requires i < |slots|
    ensures forall f :: FillAmong(call, slots, i + 1, f) <==>
      FillAmong(call, slots, i, f) || (f.key == KeyOf(call) && f.slot == slots[i].0 && f.actual in slots[i].1)
  {
    hide KeyOf;
  }

  lemma FillAmongAll(call: PendingCall)
    ensures forall f :: FillAmong(call, SlotsOf(call), |SlotsOf(call)|, f) <==> FillOf(call, f)
  {
    hide KeyOf, SlotsOf;
  }

  lemma TakenHasHub(hubs: HubTable, fills: set<Fill>, taken: set<Taken>, key: HubKey, result: nat)
    requires FillsHaveHubs(hubs, fills, taken) && HasHub(hubs, key, Slot.Return)
    ensures FillsHaveHubs(hubs, fills, taken + {Taken(key, result)})
  {
  }

  lemma TargetsNext(defs: Definitions, call: PendingCall, i: nat)
    requires i < |call.targets|
    ensures TargetsLinks(defs, call, call.targets[..i + 1])
         == TargetsLinks(defs, call, call.targets[..i]) + DirectLinks(defs, call, call.targets[i])
  {
    hide DirectLinks;
    assert call.targets[..i + 1][..i] == call.targets[..i];
  }

  lemma DoneNext(defs: Definitions, base: set<Link>, calls: seq<PendingCall>, i: nat, plain: set<Link>, fills: set<Fill>, taken: set<Taken>,
                 plain': set<Link>, fills': set<Fill>, taken': set<Taken>)
    requires i < |calls| && Done(defs, base, calls[..i], plain, fills, taken)
    requires forall l :: l in plain' <==> l in plain || (!calls[i].Wide() && DirectLink(defs, calls[i], l))
    requires forall f :: f in fills' <==> f in fills || (calls[i].Wide() && FillOf(calls[i], f))
    requires forall r :: r in taken' <==> r in taken || (calls[i].Wide() && r == Taken(KeyOf(calls[i]), calls[i].result))
    ensures Done(defs, base, calls[..i + 1], plain', fills', taken')
  {
    hide KeyOf, DirectLink, FillOf, PendingCall.Wide;
    assert calls[..i + 1] == calls[..i] + [calls[i]];
    assert forall c :: c in calls[..i + 1] <==> c in calls[..i] || c == calls[i];
  }

  /** Direct links to every target, in order. */
  method DirectSide(defs: Definitions, call: PendingCall) returns (more: seq<Link>)
    ensures more == TargetsLinks(defs, call, call.targets)
  {
    more := [];
    for i := 0 to |call.targets|
      invariant more == TargetsLinks(defs, call, call.targets[..i])
    {
      hide DirectLinks, TargetsLinks;
      TargetsNext(defs, call, i);
      more := more + DirectLinks(defs, call, call.targets[i]);
    }
    assert call.targets[..|call.targets|] == call.targets;
  }

  /** The callee side of a new hub. */
  method CalleeSide(defs: Definitions, call: PendingCall, slot: Slot, hub: nat) returns (links: seq<Link>)
    ensures forall l :: l in links <==> HubLink(defs, KeyOf(call), slot, hub, l)
  {
    links := [];
    for i := 0 to |call.targets|
      invariant links == HubLinks(defs, slot, call.receiver != [], hub, call.targets[..i])
    {
      hide *;
      HubLinksNext(defs, slot, call.receiver != [], hub, call.targets, i);
      links := links + TargetLinks(defs, slot, call.receiver != [], hub, call.targets[i]);
    }
    assert call.targets[..|call.targets|] == call.targets;
    hide *;
    KeyTargets(defs, call, slot, hub);
  }

  lemma HubLinksNext(defs: Definitions, slot: Slot, hasReceiver: bool, hub: nat, targets: seq<Target>, i: nat)
    requires i < |targets|
    ensures HubLinks(defs, slot, hasReceiver, hub, targets[..i + 1])
         == HubLinks(defs, slot, hasReceiver, hub, targets[..i]) + TargetLinks(defs, slot, hasReceiver, hub, targets[i])
  {
    hide TargetLinks;
    assert targets[..i + 1][..i] == targets[..i];
  }

  lemma KeyTargets(defs: Definitions, call: PendingCall, slot: Slot, hub: nat)
    ensures forall l :: l in HubLinks(defs, slot, KeyOf(call).hasReceiver, hub, call.targets) <==> HubLink(defs, KeyOf(call), slot, hub, l)
  {
    hide CalleeLink, HubLinks;
    assert forall t :: t in call.targets <==> t in multiset(call.targets);
  }
}
