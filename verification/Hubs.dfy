/** Wiring calls to their candidate callees: narrow calls directly, wide ones through one hub
    node per target set and argument slot, made on first use and shared from then on. */
module Hubs {
  import opened Walks
  import opened Mediation
  import opened Evidence
  import opened Calls

  datatype Link = Link(from: nat, to: nat, confidence: Confidence)

  /** A wide call's targets, order apart, and whether it has a receiver. */
  datatype HubKey = HubKey(targets: multiset<Target>, hasReceiver: bool)

  type HubTable = map<HubKey, map<Slot, nat>>

  function KeyOf(call: PendingCall): HubKey {
    HubKey(multiset(call.targets), call.receiver != [])
  }

  predicate HasHub(hubs: HubTable, key: HubKey, slot: Slot) {
    key in hubs && slot in hubs[key]
  }

  // ---- direct wiring ----

  /** Actual `a` of `call` lands in formal `b` of `t`, or result `a` of `t` is the call's value `b`. */
  ghost predicate Binds(defs: Definitions, call: PendingCall, t: Target, a: nat, b: nat) {
    || (exists k :: 0 <= k < |SlotsOf(call)| && a in SlotsOf(call)[k].1
          && b in WireFormals(defs, SlotsOf(call)[k].0, t.callee, call.receiver != []))
    || (a in defs.ReturnsOf(t.callee) && b == call.result)
  }

  ghost predicate DirectLink(defs: Definitions, call: PendingCall, l: Link) {
    exists t :: t in call.targets && l.confidence == t.confidence && Binds(defs, call, t, l.from, l.to)
  }

  // ---- wiring through hubs ----

  /** An actual put into the hub of a slot. */
  datatype Fill = Fill(key: HubKey, slot: Slot, actual: nat)

  /** A call result taken from the return hub of a target set. */
  datatype Taken = Taken(key: HubKey, result: nat)

  ghost predicate FillLink(hubs: HubTable, fills: set<Fill>, l: Link) {
    exists f :: f in fills && HasHub(hubs, f.key, f.slot) && l == Link(f.actual, hubs[f.key][f.slot], Resolved)
  }

  ghost predicate TakenLink(hubs: HubTable, taken: set<Taken>, l: Link) {
    exists r :: r in taken && HasHub(hubs, r.key, Slot.Return) && l == Link(hubs[r.key][Slot.Return], r.result, Resolved)
  }

  /** What the hub of `slot` is linked to on the callee side, at the target's confidence. */
  ghost predicate CalleeLink(defs: Definitions, hasReceiver: bool, slot: Slot, hub: nat, t: Target, l: Link) {
    && l.confidence == t.confidence
    && if slot.Return? then l.to == hub && l.from in defs.ReturnsOf(t.callee)
       else l.from == hub && l.to in HubFormals(defs, slot, t.callee, hasReceiver)
  }

  ghost predicate HubLink(defs: Definitions, key: HubKey, slot: Slot, hub: nat, l: Link) {
    exists t :: t in key.targets && CalleeLink(defs, key.hasReceiver, slot, hub, t, l)
  }

  ghost predicate SomeHubLink(defs: Definitions, hubs: HubTable, l: Link) {
    exists key, slot :: HasHub(hubs, key, slot) && HubLink(defs, key, slot, hubs[key][slot], l)
  }

  /** Hub nodes are new and belong to one key and slot each. */
  ghost predicate HubsApart(n0: nat, nodes: nat, hubs: HubTable) {
    && (forall key, slot :: HasHub(hubs, key, slot) ==> n0 <= hubs[key][slot] < nodes)
    && (forall k1, s1, k2, s2 :: HasHub(hubs, k1, s1) && HasHub(hubs, k2, s2) && hubs[k1][s1] == hubs[k2][s2] ==> k1 == k2 && s1 == s2)
  }

  /** `links` are exactly the plain links, the hub links, and the fills and results of the hubs. */
  ghost predicate Wired(defs: Definitions, links: seq<Link>, hubs: HubTable, plain: set<Link>, fills: set<Fill>, taken: set<Taken>) {
    forall l :: l in links <==> l in plain || FillLink(hubs, fills, l) || TakenLink(hubs, taken, l) || SomeHubLink(defs, hubs, l)
  }

  function LinksTo(from: nat, tos: seq<nat>, c: Confidence): (r: seq<Link>)
    ensures forall l :: l in r <==> l.from == from && l.confidence == c && l.to in tos
  {
    if tos == [] then [] else LinksTo(from, tos[..|tos| - 1], c) + [Link(from, tos[|tos| - 1], c)]
  }

  function LinksFrom(froms: seq<nat>, to: nat, c: Confidence): (r: seq<Link>)
    ensures forall l :: l in r <==> l.to == to && l.confidence == c && l.from in froms
  {
    if froms == [] then [] else LinksFrom(froms[..|froms| - 1], to, c) + [Link(froms[|froms| - 1], to, c)]
  }

  ghost predicate AnyCalleeLink(defs: Definitions, targets: seq<Target>, hasReceiver: bool, slot: Slot, hub: nat, l: Link) {
    exists t :: t in targets && CalleeLink(defs, hasReceiver, slot, hub, t, l)
  }

  lemma AnyCalleeLinkSnoc(defs: Definitions, init: seq<Target>, t: Target, hasReceiver: bool, slot: Slot, hub: nat)
    ensures forall l ::
      AnyCalleeLink(defs, init + [t], hasReceiver, slot, hub, l) <==>
      AnyCalleeLink(defs, init, hasReceiver, slot, hub, l) || CalleeLink(defs, hasReceiver, slot, hub, t, l)
  {
    hide CalleeLink;
    assert (init + [t])[|init|] == t;
    assert forall x :: x in init + [t] <==> x in init || x == t;
  }

  function TargetLinks(defs: Definitions, slot: Slot, hasReceiver: bool, hub: nat, t: Target): (r: seq<Link>)
    ensures forall l :: l in r <==> CalleeLink(defs, hasReceiver, slot, hub, t, l)
  {
    if slot.Return? then LinksFrom(defs.ReturnsOf(t.callee), hub, t.confidence)
    else LinksTo(hub, HubFormals(defs, slot, t.callee, hasReceiver), t.confidence)
  }

  /** A new hub's links on the callee side, for a list of targets. */
  function HubLinks(defs: Definitions, slot: Slot, hasReceiver: bool, hub: nat, targets: seq<Target>): (r: seq<Link>)
    ensures forall l :: l in r <==> AnyCalleeLink(defs, targets, hasReceiver, slot, hub, l)
  {
    if targets == [] then []
    else
      var init, t := targets[..|targets| - 1], targets[|targets| - 1];
      assert targets == init + [t];
      AnyCalleeLinkSnoc(defs, init, t, hasReceiver, slot, hub);
      HubLinks(defs, slot, hasReceiver, hub, init) + TargetLinks(defs, slot, hasReceiver, hub, t)
  }

  lemma AddFill(defs: Definitions, links: seq<Link>, hubs: HubTable, plain: set<Link>, fills: set<Fill>, taken: set<Taken>,
                key: HubKey, slot: Slot, a: nat)
    requires Wired(defs, links, hubs, plain, fills, taken) && HasHub(hubs, key, slot)
    ensures Wired(defs, links + [Link(a, hubs[key][slot], Resolved)], hubs, plain, fills + {Fill(key, slot, a)}, taken)
  {
    hide SomeHubLink, TakenLink;
    var l0, fills' := Link(a, hubs[key][slot], Resolved), fills + {Fill(key, slot, a)};
    assert FillLink(hubs, fills', l0) by {
      assert Fill(key, slot, a) in fills';
    }
    forall l ensures FillLink(hubs, fills', l) <==> FillLink(hubs, fills, l) || l == l0 {
      if FillLink(hubs, fills, l) {
        var f :| f in fills && HasHub(hubs, f.key, f.slot) && l == Link(f.actual, hubs[f.key][f.slot], Resolved);
        assert f in fills';
      }
    }
    hide FillLink;
  }

  lemma AddTaken(defs: Definitions, links: seq<Link>, hubs: HubTable, plain: set<Link>, fills: set<Fill>, taken: set<Taken>,
                 key: HubKey, result: nat)
    requires Wired(defs, links, hubs, plain, fills, taken) && HasHub(hubs, key, Slot.Return)
    ensures Wired(defs, links + [Link(hubs[key][Slot.Return], result, Resolved)], hubs, plain, fills, taken + {Taken(key, result)})
  {
    hide SomeHubLink, FillLink;
    var l0, taken' := Link(hubs[key][Slot.Return], result, Resolved), taken + {Taken(key, result)};
    assert TakenLink(hubs, taken', l0) by {
      assert Taken(key, result) in taken';
    }
    forall l ensures TakenLink(hubs, taken', l) <==> TakenLink(hubs, taken, l) || l == l0 {
      if TakenLink(hubs, taken, l) {
        var r :| r in taken && HasHub(hubs, r.key, Slot.Return) && l == Link(hubs[r.key][Slot.Return], r.result, Resolved);
        assert r in taken';
      }
    }
    hide TakenLink;
  }

  ghost predicate FillsHaveHubs(hubs: HubTable, fills: set<Fill>, taken: set<Taken>) {
    && (forall f :: f in fills ==> HasHub(hubs, f.key, f.slot))
    && (forall r :: r in taken ==> HasHub(hubs, r.key, Slot.Return))
  }

  function WithHub(hubs: HubTable, key: HubKey, slot: Slot, hub: nat): HubTable {
    hubs[key := (if key in hubs then hubs[key] else map[])[slot := hub]]
  }

  lemma WithHubLookup(hubs: HubTable, key: HubKey, slot: Slot, hub: nat, k: HubKey, s: Slot)
    ensures HasHub(WithHub(hubs, key, slot, hub), k, s) <==> HasHub(hubs, k, s) || (k == key && s == slot)
    ensures HasHub(hubs, k, s) && !(k == key && s == slot) ==> WithHub(hubs, key, slot, hub)[k][s] == hubs[k][s]
    ensures WithHub(hubs, key, slot, hub)[key][slot] == hub
  {
  }

  lemma NewHubApart(n0: nat, nodes: nat, hubs: HubTable, key: HubKey, slot: Slot)
    requires HubsApart(n0, nodes, hubs) && !HasHub(hubs, key, slot) && n0 <= nodes
    ensures HubsApart(n0, nodes + 1, WithHub(hubs, key, slot, nodes))
  {
    var hubs' := WithHub(hubs, key, slot, nodes);
    forall k, s ensures HasHub(hubs', k, s) <==> HasHub(hubs, k, s) || (k == key && s == slot) {
      WithHubLookup(hubs, key, slot, nodes, k, s);
    }
    forall k, s | HasHub(hubs, k, s) ensures hubs'[k][s] == hubs[k][s] {
      WithHubLookup(hubs, key, slot, nodes, k, s);
    }
    hide WithHub;
  }

  lemma NewHubWired(defs: Definitions, links: seq<Link>, hubs: HubTable, plain: set<Link>, fills: set<Fill>, taken: set<Taken>,
                    key: HubKey, slot: Slot, hub: nat, more: seq<Link>)
    requires Wired(defs, links, hubs, plain, fills, taken) && !HasHub(hubs, key, slot) && FillsHaveHubs(hubs, fills, taken)
    requires forall l :: l in more <==> HubLink(defs, key, slot, hub, l)
    ensures Wired(defs, links + more, WithHub(hubs, key, slot, hub), plain, fills, taken)
    ensures FillsHaveHubs(WithHub(hubs, key, slot, hub), fills, taken)
  {
    var hubs' := WithHub(hubs, key, slot, hub);
    forall k, s ensures HasHub(hubs', k, s) <==> HasHub(hubs, k, s) || (k == key && s == slot) {
      WithHubLookup(hubs, key, slot, hub, k, s);
    }
    forall k, s | HasHub(hubs, k, s) ensures hubs'[k][s] == hubs[k][s] {
      WithHubLookup(hubs, key, slot, hub, k, s);
    }
    WithHubLookup(hubs, key, slot, hub, key, slot);
    hide WithHub, HasHub, HubLink;
    forall l ensures SomeHubLink(defs, hubs', l) <==> SomeHubLink(defs, hubs, l) || l in more {
      SomeHubLinkNew(defs, hubs, hubs', key, slot, hub, l);
    }
    assert forall l :: FillLink(hubs', fills, l) <==> FillLink(hubs, fills, l);
    assert forall l :: TakenLink(hubs', taken, l) <==> TakenLink(hubs, taken, l);
    hide FillLink, TakenLink, SomeHubLink;
  }

  lemma SomeHubLinkNew(defs: Definitions, hubs: HubTable, hubs': HubTable, key: HubKey, slot: Slot, hub: nat, l: Link)
    requires forall k, s :: HasHub(hubs', k, s) <==> HasHub(hubs, k, s) || (k == key && s == slot)
    requires forall k, s :: HasHub(hubs, k, s) && HasHub(hubs', k, s) ==> hubs'[k][s] == hubs[k][s]
    requires HasHub(hubs', key, slot) && hubs'[key][slot] == hub
    ensures SomeHubLink(defs, hubs', l) <==> SomeHubLink(defs, hubs, l) || HubLink(defs, key, slot, hub, l)
  {
    hide HubLink;
    if SomeHubLink(defs, hubs, l) {
      var k, s :| HasHub(hubs, k, s) && HubLink(defs, k, s, hubs[k][s], l);
      assert HasHub(hubs', k, s) && HubLink(defs, k, s, hubs'[k][s], l);
    }
  }
}
