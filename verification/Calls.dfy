/** Pending calls into package definitions: which actuals land in which formals. */
module Calls {
  import opened Evidence

  /** Above this many candidate targets a call is wired through hubs. */
  const FANOUT_HUB_MIN: nat := 8

  datatype Target = Target(callee: nat, confidence: Confidence)

  /** A call's actuals, as the data-flow nodes carrying each one's value. */
  datatype PendingCall = PendingCall(
    result: nat, receiver: seq<nat>, positional: seq<seq<nat>>, keyword: seq<(string, seq<nat>)>,
    splat: seq<seq<nat>>, targets: seq<Target>)
  {
    predicate Wide() {
      |targets| > FANOUT_HUB_MIN
    }
  }

  datatype Param = Param(name: string, node: nat)

  datatype Definitions = Definitions(
    params: map<nat, seq<Param>>, results: map<nat, seq<nat>>, methods: set<nat>, inits: set<nat>)
  {
    function ParamsOf(callee: nat): seq<Param> {
      if callee in params then params[callee] else []
    }

    function ReturnsOf(callee: nat): seq<nat> {
      if callee in results then results[callee] else []
    }

    /** How many leading parameters the actuals skip. */
    function Offset(callee: nat, hasReceiver: bool): nat {
      if callee in methods && (hasReceiver || callee in inits) then 1 else 0
    }
  }

  /** Where an actual lands in a callee or, for `Return`, where the callee's value leaves. */
  datatype Slot = Receiver | Positional(i: nat) | Keyword(name: string) | Splat | Return

  function Nodes(ps: seq<Param>): (r: seq<nat>)
    ensures |r| == |ps| && forall k :: 0 <= k < |ps| ==> r[k] == ps[k].node
  {
    if ps == [] then [] else [ps[0].node] + Nodes(ps[1..])
  }

  /** Every parameter named `name`. */
  function AllNamed(ps: seq<Param>, name: string): (r: seq<nat>)
    ensures forall x: nat :: x in r <==> exists k :: 0 <= k < |ps| && ps[k] == Param(name, x)
  {
    if ps == [] then []
    else
      var rest := AllNamed(ps[1..], name);
      assert forall k :: 0 <= k < |ps[1..]| ==> ps[1..][k] == ps[k + 1];
      assert ps == [ps[0]] + ps[1..];
      if ps[0].name == name then [ps[0].node] + rest else rest
  }

  /** The first parameter named `name`, if any. */
  function FirstNamed(ps: seq<Param>, name: string): seq<nat> {
    if ps == [] then [] else if ps[0].name == name then [ps[0].node] else FirstNamed(ps[1..], name)
  }

  function At(ps: seq<Param>, i: nat): seq<nat> {
    if i < |ps| then [ps[i].node] else []
  }

  function Skip(ps: seq<Param>, n: nat): seq<Param> {
    if n <= |ps| then ps[n..] else []
  }

  /** The formals a slot's hub leads to in one callee: every parameter a keyword matches. */
  function HubFormals(defs: Definitions, slot: Slot, callee: nat, hasReceiver: bool): seq<nat> {
    var ps, offset := defs.ParamsOf(callee), defs.Offset(callee, hasReceiver);
    match slot
    case Receiver => if offset == 1 then At(ps, 0) else []
    case Positional(i) => At(ps, offset + i)
    case Keyword(name) => AllNamed(ps, name)
    case Splat => Nodes(Skip(ps, offset))
    case Return => []
  }

  /** The formals direct wiring leads to: the first parameter a keyword matches. */
  function WireFormals(defs: Definitions, slot: Slot, callee: nat, hasReceiver: bool): seq<nat> {
    match slot
    case Keyword(name) => FirstNamed(defs.ParamsOf(callee), name)
    case _ => HubFormals(defs, slot, callee, hasReceiver)
  }

  /** The callee's parameters of this name are one and the same. */
  ghost predicate NamesOne(defs: Definitions, callee: nat, name: string) {
    var ps := defs.ParamsOf(callee);
    forall i, j :: 0 <= i < |ps| && 0 <= j < |ps| && ps[i].name == ps[j].name == name ==> ps[i].node == ps[j].node
  }

  lemma {:induction false} FirstIsNamed(ps: seq<Param>, name: string)
    ensures |FirstNamed(ps, name)| <= 1
    ensures forall x: nat :: x in FirstNamed(ps, name) ==> x in AllNamed(ps, name)
    ensures FirstNamed(ps, name) == [] ==> AllNamed(ps, name) == []
  {
    if ps != [] {
      FirstIsNamed(ps[1..], name);
    }
  }

  ghost predicate SameFormals(defs: Definitions, slot: Slot, callee: nat, hasReceiver: bool) {
    forall x: nat :: x in WireFormals(defs, slot, callee, hasReceiver) <==> x in HubFormals(defs, slot, callee, hasReceiver)
  }

  /** Hub wiring and direct wiring pick the same formals for a slot exactly unless it is a keyword
      that names two different parameters of the callee. */
  lemma FormalsAgreeIff(defs: Definitions, slot: Slot, callee: nat, hasReceiver: bool)
    ensures SameFormals(defs, slot, callee, hasReceiver) <==> (slot.Keyword? ==> NamesOne(defs, callee, slot.name))
  {
    if slot.Keyword? {
      var ps, name := defs.ParamsOf(callee), slot.name;
      FirstIsAllIff(ps, name);
      assert WireFormals(defs, slot, callee, hasReceiver) == FirstNamed(ps, name);
      assert HubFormals(defs, slot, callee, hasReceiver) == AllNamed(ps, name);
      hide FirstNamed, AllNamed, WireFormals, HubFormals, Definitions.ParamsOf;
    }
  }

  lemma FirstIsAllIff(ps: seq<Param>, name: string)
    ensures (forall x: nat :: x in FirstNamed(ps, name) <==> x in AllNamed(ps, name))
            <==> (forall i, j :: 0 <= i < |ps| && 0 <= j < |ps| && ps[i].name == ps[j].name == name ==> ps[i].node == ps[j].node)
  {
    FirstIsNamed(ps, name);
    var first, all := FirstNamed(ps, name), AllNamed(ps, name);
    hide FirstNamed, AllNamed;
    if forall x: nat :: x in first <==> x in all {
      forall i, j | 0 <= i < |ps| && 0 <= j < |ps| && ps[i].name == ps[j].name == name ensures ps[i].node == ps[j].node {
        assert ps[i] == Param(name, ps[i].node) && ps[j] == Param(name, ps[j].node);
        assert ps[i].node in first && ps[j].node in first;
      }
    }
    if forall i, j :: 0 <= i < |ps| && 0 <= j < |ps| && ps[i].name == ps[j].name == name ==> ps[i].node == ps[j].node {
      forall x: nat | x in all ensures x in first {
        var y := first[0];
        assert y in first;
        var i :| 0 <= i < |ps| && ps[i] == Param(name, x);
        var j :| 0 <= j < |ps| && ps[j] == Param(name, y);
      }
    }
  }

  function PositionalSlots(values: seq<seq<nat>>): (r: seq<(Slot, seq<nat>)>)
    ensures |r| == |values| && forall k :: 0 <= k < |values| ==> r[k] == (Positional(k), values[k])
  {
    if values == [] then [] else PositionalSlots(values[..|values| - 1]) + [(Positional(|values| - 1), values[|values| - 1])]
  }

  function KeywordSlots(values: seq<(string, seq<nat>)>): (r: seq<(Slot, seq<nat>)>)
    ensures |r| == |values| && forall k :: 0 <= k < |values| ==> r[k] == (Keyword(values[k].0), values[k].1)
  {
    if values == [] then [] else [(Keyword(values[0].0), values[0].1)] + KeywordSlots(values[1..])
  }

  function SplatSlots(values: seq<seq<nat>>): (r: seq<(Slot, seq<nat>)>)
    ensures |r| == |values| && forall k :: 0 <= k < |values| ==> r[k] == (Splat, values[k])
  {
    if values == [] then [] else [(Splat, values[0])] + SplatSlots(values[1..])
  }

  /** The slots a call fills, with their values. */
  function SlotsOf(call: PendingCall): (r: seq<(Slot, seq<nat>)>)
    ensures forall k :: 0 <= k < |r| ==> !r[k].0.Return?
  {
    (if call.receiver != [] then [(Receiver, call.receiver)] else [])
    + PositionalSlots(call.positional) + KeywordSlots(call.keyword) + SplatSlots(call.splat)
  }
}
