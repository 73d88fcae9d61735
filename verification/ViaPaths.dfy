/** Data paths that must pass through a write, joined at the write node. */
module ViaPaths {
  import opened Options
  import opened Walks
  import opened Digraph
  import opened Shortest
  import opened Evidence
  import opened DataPaths
  import S = Search

  const WRITE_PATTERN := "<file-write>"

  /** A write node can be a stop when it is in the graph and its owner is in the call graph. */
  predicate IsStop(pg: PackageGraph, w: nat)
    requires pg.Valid()
  {
    w < pg.flow.nodes && pg.flowNodes[w].owner in pg.nodeOf
  }

  function StopFor(pg: PackageGraph, w: nat): TaintSink
    requires pg.Valid() && IsStop(pg, w)
  {
    TaintSink(WRITE_PATTERN, pg.flowNodes[w].location, w, pg.nodeOf[pg.flowNodes[w].owner])
  }

  /** A stop is where its write is, in the definition of the write's owner. */
  predicate StandsAtWrite(pg: PackageGraph, stop: TaintSink)
    requires pg.Valid()
  {
    && stop.node < pg.flow.nodes && stop.location == pg.flowNodes[stop.node].location
    && pg.flowNodes[stop.node].owner in pg.nodeOf && stop.definition == pg.nodeOf[pg.flowNodes[stop.node].owner]
  }

  /** The stops of the write nodes, in order. */
  function StopsOf(pg: PackageGraph, via: seq<nat>): (stops: seq<TaintSink>)
    requires pg.Valid()
    ensures forall s :: 0 <= s < |stops| ==> IsStop(pg, stops[s].node) && stops[s].node in via && stops[s] == StopFor(pg, stops[s].node)
    ensures forall s :: 0 <= s < |stops| ==> StandsAtWrite(pg, stops[s])
    ensures forall w: nat :: w in via && IsStop(pg, w) ==> exists s :: 0 <= s < |stops| && stops[s].node == w
  {
    if via == [] then []
    else
      var init, w := StopsOf(pg, via[..|via| - 1]), via[|via| - 1];
      assert via == via[..|via| - 1] + [w];
      if IsStop(pg, w) then
        var all := init + [StopFor(pg, w)];
        assert all[|init|].node == w && forall s :: 0 <= s < |init| ==> all[s] == init[s];
        all
      else init
  }

  /** The source the second leg starts from. */
  function FromStop(stop: TaintSink): TaintSource {
    TaintSource(NetworkResponse, WRITE_PATTERN, stop.location, stop.node)
  }

  /** `h` is the hit of the first source that reaches stop `s`. */
  ghost predicate LeadOf(pg: PackageGraph, sources: seq<TaintSource>, stops: seq<TaintSink>, maxDepth: nat, s: nat, h: Hit) {
    && HitIsRight(pg, sources, stops, maxDepth, h) && h.sink == s
    && forall a: nat :: a < h.source && a < |sources| && s < |stops| ==> !Connected(pg, sources[a], stops[s], maxDepth)
  }

  ghost predicate StopReached(pg: PackageGraph, sources: seq<TaintSource>, stops: seq<TaintSink>, maxDepth: nat, s: nat) {
    s < |stops| && exists a: nat :: a < |sources| && Connected(pg, sources[a], stops[s], maxDepth)
  }

  /** The first legs: per reached stop, the path from the first source that reaches it. */
  ghost predicate LegsAre(pg: PackageGraph, sources: seq<TaintSource>, stops: seq<TaintSink>, maxDepth: nat,
                          legs: map<nat, ReachabilityPath>, leads: map<nat, Hit>)
    requires pg.Valid()
  {
    && LegsRendered(pg, sources, stops, legs, leads)
    && (forall s: nat :: s in leads <==> StopReached(pg, sources, stops, maxDepth, s))
    && (forall s: nat :: s in leads ==> LeadOf(pg, sources, stops, maxDepth, s, leads[s]))
  }

  /** `h` is the first of the first `i` hits to end at stop `s`. */
  ghost predicate IsFirstHit(hits: seq<Hit>, i: nat, s: nat, h: Hit) {
    h.sink == s && exists k :: 0 <= k < i && k < |hits| && hits[k] == h && NoneBefore(hits, k, s)
  }

  ghost predicate NoneBefore(hits: seq<Hit>, k: nat, s: nat) {
    forall l :: 0 <= l < k && l < |hits| ==> hits[l].sink != s
  }

  /** The first hit of each stop, among the first `i` hits. */
  ghost predicate FirstHits(hits: seq<Hit>, i: nat, leads: map<nat, Hit>) {
    && (forall s: nat :: s in leads ==> IsFirstHit(hits, i, s, leads[s]))
    && (forall k :: 0 <= k < i && k < |hits| ==> hits[k].sink in leads)
  }

  lemma FirstHitsStep(hits: seq<Hit>, i: nat, leads: map<nat, Hit>)
    requires FirstHits(hits, i, leads) && i < |hits|
    ensures FirstHits(hits, i + 1, if hits[i].sink in leads then leads else leads[hits[i].sink := hits[i]])
  {
    var h := hits[i];
    if h.sink !in leads {
      assert NoneBefore(hits, i, h.sink);
    }
    var leads' := if h.sink in leads then leads else leads[h.sink := h];
    forall s: nat | s in leads' ensures IsFirstHit(hits, i + 1, s, leads'[s]) {
      if s in leads {
        assert IsFirstHit(hits, i, s, leads[s]);
        var k :| 0 <= k < i && k < |hits| && hits[k] == leads[s] && NoneBefore(hits, k, s);
        assert leads'[s] == leads[s] && k < i + 1;
      } else {
        assert hits[i] == leads'[s];
      }
    }
  }

  /** The first hit of a stop comes from the first source connected to it. */
  lemma FirstHitIsLead(pg: PackageGraph, sources: seq<TaintSource>, stops: seq<TaintSink>, maxDepth: nat,
                       hits: seq<Hit>, leads: map<nat, Hit>, s: nat)
    requires HitsUpTo(pg, sources, stops, maxDepth, hits, |sources|, 0) && FirstHits(hits, |hits|, leads)
    ensures s in leads <==> StopReached(pg, sources, stops, maxDepth, s)
    ensures s in leads ==> LeadOf(pg, sources, stops, maxDepth, s, leads[s])
  {
    hide Connected;
    if StopReached(pg, sources, stops, maxDepth, s) {
      var a: nat :| a < |sources| && Connected(pg, sources[a], stops[s], maxDepth);
      assert HitBefore(Hit(a, s, []), Hit(|sources|, 0, []));
      var k :| 0 <= k < |hits| && hits[k].source == a && hits[k].sink == s;
    }
    if s in leads {
      assert IsFirstHit(hits, |hits|, s, leads[s]);
      var k :| 0 <= k < |hits| && hits[k] == leads[s] && NoneBefore(hits, k, s);
      assert HitIsRight(pg, sources, stops, maxDepth, hits[k]);
      forall a: nat | a < |sources| && s < |stops| && Connected(pg, sources[a], stops[s], maxDepth)
        ensures a >= hits[k].source
      {
        assert HitBefore(Hit(a, s, []), Hit(|sources|, 0, []));
        var l :| 0 <= l < |hits| && hits[l].source == a && hits[l].sink == s;
        if l != k {
          assert HitBefore(hits[k], hits[l]);
        }
      }
    }
  }

  /** Each leg is the rendering of its lead. */
  ghost predicate LegsRendered(pg: PackageGraph, sources: seq<TaintSource>, stops: seq<TaintSink>,
                               legs: map<nat, ReachabilityPath>, leads: map<nat, Hit>)
    requires pg.Valid()
  {
    legs.Keys == leads.Keys && forall s: nat :: s in leads ==> LegRendered(pg, sources, stops, s, legs[s], leads[s])
  }

  ghost predicate LegRendered(pg: PackageGraph, sources: seq<TaintSource>, stops: seq<TaintSink>, s: nat, leg: ReachabilityPath, h: Hit)
    requires pg.Valid()
  {
    && s < |stops| && h.source < |sources| && sources[h.source].node < pg.flow.nodes
    && S.InBounds(h.edges, |pg.flow.edges|) && ShowsData(pg, sources[h.source], stops[s], h.edges, leg)
  }

  lemma RenderedAt(pg: PackageGraph, sources: seq<TaintSource>, stops: seq<TaintSink>, hits: seq<Hit>,
                   found: seq<(ReachabilityPath, nat)>, i: nat)
    requires pg.Valid() && Renders(pg, sources, stops, hits, found) && i < |found|
    ensures |hits| == |found| && found[i].1 == hits[i].sink
    ensures LegRendered(pg, sources, stops, hits[i].sink, found[i].0, hits[i])
  {
    hide ShowsData;
  }

  lemma LegsStep(pg: PackageGraph, sources: seq<TaintSource>, stops: seq<TaintSink>, s: nat, leg: ReachabilityPath, h: Hit,
                 legs: map<nat, ReachabilityPath>, leads: map<nat, Hit>)
    requires pg.Valid() && LegsRendered(pg, sources, stops, legs, leads) && LegRendered(pg, sources, stops, s, leg, h)
    ensures LegsRendered(pg, sources, stops, legs[s := leg], leads[s := h])
    ensures s in legs <==> s in leads
  {
    hide LegRendered;
  }

  /** Keeps the first path found for each stop. */
  method CollectFirst(pg: PackageGraph, sources: seq<TaintSource>, stops: seq<TaintSink>,
                      found: seq<(ReachabilityPath, nat)>, ghost hits: seq<Hit>)
    returns (legs: map<nat, ReachabilityPath>, ghost leads: map<nat, Hit>)
    requires pg.Valid() && Renders(pg, sources, stops, hits, found) && |hits| == |found|
    ensures FirstHits(hits, |hits|, leads) && LegsRendered(pg, sources, stops, legs, leads)
  {
    legs, leads := map[], map[];
    for i := 0 to |found|
      invariant FirstHits(hits, i, leads)
      invariant LegsRendered(pg, sources, stops, legs, leads)
    {
      hide *;
      var (path, s) := found[i];
      RenderedAt(pg, sources, stops, hits, found, i);
      FirstHitsStep(hits, i, leads);
      LegsStep(pg, sources, stops, s, path, hits[i], legs, leads);
      if s !in legs {
        legs := legs[s := path];
        leads := leads[s := hits[i]];
      }
    }
  }

  method FirstLegs(pg: PackageGraph, sources: seq<TaintSource>, stops: seq<TaintSink>, limits: Limits)
    returns (legs: map<nat, ReachabilityPath>, ghost leads: map<nat, Hit>)
    requires pg.Valid() && limits.maxPathsPerPair > 0
    ensures LegsAre(pg, sources, stops, limits.maxDepth, legs, leads)
  {
    hide HitsUpTo, Renders, LegsRendered, StopReached, LeadOf, FirstHits;
    var found;
    ghost var hits;
    found, hits := DataPathsTo(pg, sources, stops, limits);
    SameCount(pg, sources, stops, hits, found);
    legs, leads := CollectFirst(pg, sources, stops, found, hits);
    forall s: nat
      ensures s in leads <==> StopReached(pg, sources, stops, limits.maxDepth, s)
      ensures s in leads ==> LeadOf(pg, sources, stops, limits.maxDepth, s, leads[s])
    {
      FirstHitIsLead(pg, sources, stops, limits.maxDepth, hits, leads, s);
    }
  }

  lemma SameCount(pg: PackageGraph, sources: seq<TaintSource>, stops: seq<TaintSink>, hits: seq<Hit>,
                  found: seq<(ReachabilityPath, nat)>)
    requires pg.Valid() && Renders(pg, sources, stops, hits, found)
    ensures |hits| == |found|
  {
  }

  // ---- joining the legs ----

  const WRITTEN := "written to a file"

  /** A path from the source through the stop to the sink: along `lead` to the write, out of the file, and
      along `tail` from there. */
  ghost predicate ShowsVia(pg: PackageGraph, source: TaintSource, stop: TaintSink, sink: TaintSink, lead: seq<nat>, tail: seq<nat>, p: ReachabilityPath)
    requires pg.Valid() && source.node < pg.flow.nodes && stop.node < pg.flow.nodes
    requires S.InBounds(lead, |pg.flow.edges|) && S.InBounds(tail, |pg.flow.edges|)
  {
    var seam := if lead == [] then 1 else |lead|;
    && p.kind == Data && WeakestOf(pg.flow, lead + tail, p.confidence)
    && (p.obfuscated <==> source.kind == DecodedLiteral || exists e :: e in lead + tail && Obfuscates(pg.flow, e))
    && (p.conditional <==> stop.node in pg.conditional || sink.node in pg.conditional)
    && |p.steps| == seam + (if tail == [] then 2 else |tail| + 1)
    && p.steps[0] == PathStep(PathStepKind.Source, source.location, pg.flowNodes[source.node].text, source.pattern)
    && p.steps[|p.steps| - 1] == PathStep(PathStepKind.Sink, sink.location, sink.pattern, "")
    && p.steps[seam] == PathStep(PathStepKind.Transfer, stop.location, pg.flowNodes[stop.node].text, "written to a file")
    && (forall k :: 0 <= k < |lead| - 1 ==> EntersBy(pg, lead[k], p.steps[k + 1]))
    && forall k :: 0 <= k < |tail| - 1 ==> EntersBy(pg, tail[k], p.steps[seam + 1 + k])
  }

  /** Both legs as one path: the first leg's sink step becomes the transfer through the file. */
  function Join(lead: ReachabilityPath, tail: ReachabilityPath): (p: ReachabilityPath)
    requires lead.WellFormed() && tail.WellFormed() && |lead.steps| >= 2 && |tail.steps| >= 2
    ensures p.WellFormed() && |p.steps| == |lead.steps| + |tail.steps| - 1
    ensures p.steps[|lead.steps| - 1] == PathStep(PathStepKind.Transfer, tail.steps[0].location, tail.steps[0].symbol, WRITTEN)
    ensures forall k :: 0 <= k < |lead.steps| - 1 ==> p.steps[k] == lead.steps[k]
    ensures forall k :: 1 <= k < |tail.steps| ==> p.steps[|lead.steps| - 1 + k] == tail.steps[k]
    ensures p.confidence.Rank() <= lead.confidence.Rank() && p.confidence.Rank() <= tail.confidence.Rank()
    ensures p.confidence == lead.confidence || p.confidence == tail.confidence
  {
    var joint := PathStep(PathStepKind.Transfer, tail.steps[0].location, tail.steps[0].symbol, WRITTEN);
    ReachabilityPath(
      Data,
      lead.steps[..|lead.steps| - 1] + [joint] + tail.steps[1..],
      MinConfidence(lead.confidence, tail.confidence),
      lead.obfuscated || tail.obfuscated,
      lead.conditional || tail.conditional)
  }

  lemma JoinShows(pg: PackageGraph, source: TaintSource, stop: TaintSink, sink: TaintSink, es: seq<nat>, ts: seq<nat>,
                  lead: ReachabilityPath, tail: ReachabilityPath)
    requires pg.Valid() && source.node < pg.flow.nodes && stop.node < pg.flow.nodes
    requires S.InBounds(es, |pg.flow.edges|) && S.InBounds(ts, |pg.flow.edges|)
    requires ShowsData(pg, source, stop, es, lead) && ShowsData(pg, FromStop(stop), sink, ts, tail)
    ensures lead.WellFormed() && tail.WellFormed() && |lead.steps| >= 2 && |tail.steps| >= 2
    ensures ShowsVia(pg, source, stop, sink, es, ts, Join(lead, tail))
  {
    hide PackageGraph.Valid, EntersBy, Obfuscates;
    assert forall e :: e in es + ts <==> e in es || e in ts;
    var p := Join(lead, tail);
    forall k | 0 <= k < |ts| - 1 ensures EntersBy(pg, ts[k], p.steps[|lead.steps| - 1 + 1 + k]) {
      assert EntersBy(pg, ts[k], tail.steps[k + 1]);
    }
  }

  /** Which stop a sink is reached through, the first leg to it, and the edges of the second. */
  datatype Via = Via(stop: nat, lead: Hit, tail: seq<nat>)

  /** Stop `s` carries a path to `sink`: some source reaches it and it reaches the sink. */
  ghost predicate Carries(pg: PackageGraph, sources: seq<TaintSource>, stops: seq<TaintSink>, maxDepth: nat, s: nat, sink: TaintSink) {
    StopReached(pg, sources, stops, maxDepth, s) && Connected(pg, FromStop(stops[s]), sink, maxDepth)
  }

  /** `v` is the least choice for `sink`: first stop that carries, first source, least edges. */
  ghost predicate ViaIsRight(pg: PackageGraph, sources: seq<TaintSource>, stops: seq<TaintSink>, maxDepth: nat, sink: TaintSink, v: Via) {
    && Carries(pg, sources, stops, maxDepth, v.stop, sink)
    && (forall s: nat :: s < v.stop ==> !Carries(pg, sources, stops, maxDepth, s, sink))
    && LeadOf(pg, sources, stops, maxDepth, v.stop, v.lead)
    && LeastEdges(pg.flow, pg.flow.Relation(), stops[v.stop].node, sink.node, v.tail)
  }

  ghost predicate ViaRendered(pg: PackageGraph, sources: seq<TaintSource>, stops: seq<TaintSink>, sink: TaintSink, v: Via, p: ReachabilityPath)
    requires pg.Valid()
  {
    && v.stop < |stops| && v.lead.source < |sources| && sources[v.lead.source].node < pg.flow.nodes
    && stops[v.stop].node < pg.flow.nodes
    && S.InBounds(v.lead.edges, |pg.flow.edges|) && S.InBounds(v.tail, |pg.flow.edges|)
    && ShowsVia(pg, sources[v.lead.source], stops[v.stop], sink, v.lead.edges, v.tail, p)
  }

  /** The paths kept after the first `i` stops: exactly the sinks one of them carries to. */
  ghost predicate KeptAre(pg: PackageGraph, sources: seq<TaintSource>, stops: seq<TaintSink>, sinks: seq<TaintSink>, maxDepth: nat,
                          i: nat, out: map<nat, ReachabilityPath>, vias: map<nat, Via>)
    requires pg.Valid()
  {
    && out.Keys == vias.Keys
    && (forall j: nat :: j in vias ==> KeptIsRight(pg, sources, stops, sinks, maxDepth, i, j, vias[j], out[j]))
    && (forall j: nat, s: nat :: j < |sinks| && s < i && Carries(pg, sources, stops, maxDepth, s, sinks[j]) ==> j in vias)
  }

  ghost predicate KeptIsRight(pg: PackageGraph, sources: seq<TaintSource>, stops: seq<TaintSink>, sinks: seq<TaintSink>, maxDepth: nat,
                              i: nat, j: nat, v: Via, p: ReachabilityPath)
    requires pg.Valid()
  {
    && j < |sinks| && v.stop < i
    && ViaIsRight(pg, sources, stops, maxDepth, sinks[j], v)
    && ViaRendered(pg, sources, stops, sinks[j], v, p)
  }

  /** While the second legs from stop `s` are collected: `k` of its hits have been looked at. */
  ghost predicate Keeping(pg: PackageGraph, sources: seq<TaintSource>, stops: seq<TaintSink>, sinks: seq<TaintSink>, maxDepth: nat,
                          s: nat, hits: seq<Hit>, k: nat, out: map<nat, ReachabilityPath>, vias: map<nat, Via>)
    requires pg.Valid()
  {
    && out.Keys == vias.Keys
    && (forall j: nat :: j in vias ==> KeptIsRight(pg, sources, stops, sinks, maxDepth, s + 1, j, vias[j], out[j]))
    && (forall j: nat, t: nat :: j < |sinks| && t < s && Carries(pg, sources, stops, maxDepth, t, sinks[j]) ==> j in vias)
    && (forall l :: 0 <= l < k && l < |hits| ==> hits[l].sink in vias)
  }

  lemma KeepStart(pg: PackageGraph, sources: seq<TaintSource>, stops: seq<TaintSink>, sinks: seq<TaintSink>, maxDepth: nat,
                  s: nat, hits: seq<Hit>, out: map<nat, ReachabilityPath>, vias: map<nat, Via>)
    requires pg.Valid() && KeptAre(pg, sources, stops, sinks, maxDepth, s, out, vias)
    ensures Keeping(pg, sources, stops, sinks, maxDepth, s, hits, 0, out, vias)
  {
    hide ViaIsRight, ViaRendered, Carries;
  }

  /** What one more hit from stop `s` adds, unless its sink is already served. */
  lemma KeepStep(pg: PackageGraph, sources: seq<TaintSource>, stops: seq<TaintSink>, sinks: seq<TaintSink>, maxDepth: nat,
                 s: nat, hits: seq<Hit>, k: nat, out: map<nat, ReachabilityPath>, vias: map<nat, Via>, v: Via, p: ReachabilityPath)
    requires pg.Valid() && Keeping(pg, sources, stops, sinks, maxDepth, s, hits, k, out, vias) && k < |hits|
    requires v.stop == s && hits[k].sink < |sinks|
    requires Carries(pg, sources, stops, maxDepth, s, sinks[hits[k].sink])
    requires LeadOf(pg, sources, stops, maxDepth, s, v.lead)
    requires LeastEdges(pg.flow, pg.flow.Relation(), stops[s].node, sinks[hits[k].sink].node, v.tail)
    requires ViaRendered(pg, sources, stops, sinks[hits[k].sink], v, p)
    ensures hits[k].sink in out <==> hits[k].sink in vias
    ensures var j := hits[k].sink;
            if j in out then Keeping(pg, sources, stops, sinks, maxDepth, s, hits, k + 1, out, vias)
            else Keeping(pg, sources, stops, sinks, maxDepth, s, hits, k + 1, out[j := p], vias[j := v])
  {
    hide ViaRendered, Carries, LeadOf, LeastEdges;
    var j := hits[k].sink;
    if j !in out {
      assert KeptIsRight(pg, sources, stops, sinks, maxDepth, s + 1, j, v, p);
      hide ViaIsRight;
    }
  }

  lemma KeepDone(pg: PackageGraph, sources: seq<TaintSource>, stops: seq<TaintSink>, sinks: seq<TaintSink>, maxDepth: nat,
                 s: nat, hits: seq<Hit>, out: map<nat, ReachabilityPath>, vias: map<nat, Via>)
    requires pg.Valid() && Keeping(pg, sources, stops, sinks, maxDepth, s, hits, |hits|, out, vias) && s < |stops|
    requires HitsUpTo(pg, [FromStop(stops[s])], sinks, maxDepth, hits, 1, 0)
    ensures KeptAre(pg, sources, stops, sinks, maxDepth, s + 1, out, vias)
  {
    hide ViaIsRight, ViaRendered, Connected, StopReached, KeptIsRight;
    var from := [FromStop(stops[s])];
    forall j: nat, t: nat | j < |sinks| && t < s + 1 && Carries(pg, sources, stops, maxDepth, t, sinks[j]) ensures j in vias {
      if t == s {
        assert Connected(pg, from[0], sinks[j], maxDepth) && HitBefore(Hit(0, j, []), Hit(1, 0, []));
        var k :| 0 <= k < |hits| && hits[k].source == 0 && hits[k].sink == j;
      }
    }
  }

  lemma KeepSkip(pg: PackageGraph, sources: seq<TaintSource>, stops: seq<TaintSink>, sinks: seq<TaintSink>, maxDepth: nat,
                 s: nat, out: map<nat, ReachabilityPath>, vias: map<nat, Via>)
    requires pg.Valid() && KeptAre(pg, sources, stops, sinks, maxDepth, s, out, vias)
    requires !StopReached(pg, sources, stops, maxDepth, s)
    ensures KeptAre(pg, sources, stops, sinks, maxDepth, s + 1, out, vias)
  {
    hide ViaIsRight, ViaRendered, Connected, StopReached;
  }

  /** What a hit of the second search says about the stop. */
  lemma SecondLeg(pg: PackageGraph, sources: seq<TaintSource>, stops: seq<TaintSink>, sinks: seq<TaintSink>, maxDepth: nat,
                  s: nat, h: Hit, lead: Hit, leg: ReachabilityPath, tail: ReachabilityPath)
    requires pg.Valid() && s < |stops| && StopReached(pg, sources, stops, maxDepth, s)
    requires LeadOf(pg, sources, stops, maxDepth, s, lead) && LegRendered(pg, sources, stops, s, leg, lead)
    requires HitIsRight(pg, [FromStop(stops[s])], sinks, maxDepth, h)
    requires LegRendered(pg, [FromStop(stops[s])], sinks, h.sink, tail, h)
    ensures h.sink < |sinks| && Carries(pg, sources, stops, maxDepth, s, sinks[h.sink])
    ensures LeastEdges(pg.flow, pg.flow.Relation(), stops[s].node, sinks[h.sink].node, h.edges)
    ensures leg.WellFormed() && tail.WellFormed() && |leg.steps| >= 2 && |tail.steps| >= 2
    ensures ViaRendered(pg, sources, stops, sinks[h.sink], Via(s, lead, h.edges), Join(leg, tail))
  {
    hide LeastEdges, Join, StopReached, LeadOf, ShowsData, ShowsVia;
    assert h.source == 0;
    JoinShows(pg, sources[lead.source], stops[s], sinks[h.sink], lead.edges, h.edges, leg, tail);
  }

  /** Adds the second legs out of one reached stop. */
  method AddStop(pg: PackageGraph, ghost sources: seq<TaintSource>, stops: seq<TaintSink>, sinks: seq<TaintSink>, limits: Limits,
                 s: nat, leg: ReachabilityPath, ghost lead: Hit, out0: map<nat, ReachabilityPath>, ghost vias0: map<nat, Via>)
    returns (out: map<nat, ReachabilityPath>, ghost vias: map<nat, Via>)
    requires pg.Valid() && limits.maxPathsPerPair > 0 && s < |stops| && StopReached(pg, sources, stops, limits.maxDepth, s)
    requires LeadOf(pg, sources, stops, limits.maxDepth, s, lead) && LegRendered(pg, sources, stops, s, leg, lead)
    requires KeptAre(pg, sources, stops, sinks, limits.maxDepth, s, out0, vias0)
    ensures KeptAre(pg, sources, stops, sinks, limits.maxDepth, s + 1, out, vias)
  {
    hide KeptAre, Keeping, StopReached, LeadOf, LegRendered, HitIsRight, Renders, HitsUpTo, Join, ViaRendered, LeastEdges, Carries;
    out, vias := out0, vias0;
    var tails;
    ghost var hits;
    tails, hits := DataPathsTo(pg, [FromStop(stops[s])], sinks, limits);
    SameCount(pg, [FromStop(stops[s])], sinks, hits, tails);
    KeepStart(pg, sources, stops, sinks, limits.maxDepth, s, hits, out, vias);
    for k := 0 to |tails|
      invariant Keeping(pg, sources, stops, sinks, limits.maxDepth, s, hits, k, out, vias)
    {
      var (tail, j) := tails[k];
      HitAt(pg, [FromStop(stops[s])], sinks, limits.maxDepth, hits, k);
      RenderedAt(pg, [FromStop(stops[s])], sinks, hits, tails, k);
      SecondLeg(pg, sources, stops, sinks, limits.maxDepth, s, hits[k], lead, leg, tail);
      KeepStep(pg, sources, stops, sinks, limits.maxDepth, s, hits, k, out, vias, Via(s, lead, hits[k].edges), Join(leg, tail));
      if j !in out {
        out := out[j := Join(leg, tail)];
        vias := vias[j := Via(s, lead, hits[k].edges)];
      }
    }
    KeepDone(pg, sources, stops, sinks, limits.maxDepth, s, hits, out, vias);
  }

  lemma HitAt(pg: PackageGraph, sources: seq<TaintSource>, sinks: seq<TaintSink>, maxDepth: nat, hits: seq<Hit>, k: nat)
    requires HitsUpTo(pg, sources, sinks, maxDepth, hits, |sources|, 0) && k < |hits|
    ensures HitIsRight(pg, sources, sinks, maxDepth, hits[k])
  {
    hide HitIsRight, Connected;
  }

  // ---- the query ----

  /** Some write node with a call-graph owner is within the bound of a source, and the sink is
      within the bound of it. */
  ghost predicate ViaConnected(pg: PackageGraph, sources: seq<TaintSource>, via: seq<nat>, sink: TaintSink, maxDepth: nat)
    requires pg.Valid()
  {
    exists w: nat :: w in via && w < pg.flow.nodes && pg.flowNodes[w].owner in pg.nodeOf && ServedBy(pg, sources, w, sink, maxDepth)
  }

  ghost predicate ServedBy(pg: PackageGraph, sources: seq<TaintSource>, w: nat, sink: TaintSink, maxDepth: nat) {
    && (exists a: nat :: a < |sources| && sources[a].kind != PhaseRoot && sources[a].node < pg.flow.nodes
                         && Within(pg.flow.Relation(), sources[a].node, w, maxDepth))
    && sink.node < pg.flow.nodes && Within(pg.flow.Relation(), w, sink.node, maxDepth)
  }

  lemma CarriedIsServed(pg: PackageGraph, sources: seq<TaintSource>, via: seq<nat>, sink: TaintSink, maxDepth: nat, s: nat)
    requires pg.Valid() && Carries(pg, sources, StopsOf(pg, via), maxDepth, s, sink)
    ensures ViaConnected(pg, sources, via, sink, maxDepth)
  {
    hide Within, Graph.Relation;
    var stops := StopsOf(pg, via);
    var w := stops[s].node;
    var a: nat :| a < |sources| && Connected(pg, sources[a], stops[s], maxDepth);
    assert Within(pg.flow.Relation(), sources[a].node, w, maxDepth);
    assert ServedBy(pg, sources, w, sink, maxDepth);
  }

  lemma ServedIsCarried(pg: PackageGraph, sources: seq<TaintSource>, via: seq<nat>, sink: TaintSink, maxDepth: nat) returns (s: nat)
    requires pg.Valid() && ViaConnected(pg, sources, via, sink, maxDepth)
    ensures Carries(pg, sources, StopsOf(pg, via), maxDepth, s, sink)
  {
    hide Within, Graph.Relation, Graph.Valid, StopsOf;
    var stops := StopsOf(pg, via);
    var w: nat :| w in via && w < pg.flow.nodes && pg.flowNodes[w].owner in pg.nodeOf && ServedBy(pg, sources, w, sink, maxDepth);
    var a: nat :| a < |sources| && sources[a].kind != PhaseRoot && sources[a].node < pg.flow.nodes
                  && Within(pg.flow.Relation(), sources[a].node, w, maxDepth);
    assert IsStop(pg, w);
    s :| s < |stops| && stops[s].node == w;
    CarriedAt(pg, sources, stops, sink, maxDepth, s, a);
  }

  lemma CarriedAt(pg: PackageGraph, sources: seq<TaintSource>, stops: seq<TaintSink>, sink: TaintSink, maxDepth: nat, s: nat, a: nat)
    requires s < |stops| && a < |sources| && sources[a].kind != PhaseRoot && sources[a].node < pg.flow.nodes && stops[s].node < pg.flow.nodes
    requires Within(pg.flow.Relation(), sources[a].node, stops[s].node, maxDepth)
    requires sink.node < pg.flow.nodes && Within(pg.flow.Relation(), stops[s].node, sink.node, maxDepth)
    ensures Carries(pg, sources, stops, maxDepth, s, sink)
  {
    hide Within, Graph.Relation;
    assert Connected(pg, sources[a], stops[s], maxDepth);
  }

  lemma CarriedIsConnected(pg: PackageGraph, sources: seq<TaintSource>, via: seq<nat>, sink: TaintSink, maxDepth: nat)
    requires pg.Valid()
    ensures (exists s: nat :: Carries(pg, sources, StopsOf(pg, via), maxDepth, s, sink)) <==> ViaConnected(pg, sources, via, sink, maxDepth)
  {
    hide *;
    if s: nat :| Carries(pg, sources, StopsOf(pg, via), maxDepth, s, sink) {
      CarriedIsServed(pg, sources, via, sink, maxDepth, s);
    }
    if ViaConnected(pg, sources, via, sink, maxDepth) {
      var s := ServedIsCarried(pg, sources, via, sink, maxDepth);
    }
  }

  /** The answers in sink order, below sink `i`. */
  ghost predicate Listed(out: map<nat, ReachabilityPath>, r: seq<(ReachabilityPath, nat)>, i: nat) {
    && (forall k :: 0 <= k < |r| ==> r[k].1 < i && r[k].1 in out && r[k].0 == out[r[k].1])
    && (forall k, l :: 0 <= k < l < |r| ==> r[k].1 < r[l].1)
    && (forall j: nat :: j in out && j < i ==> exists k :: 0 <= k < |r| && r[k].1 == j)
  }

  lemma ListedStep(out: map<nat, ReachabilityPath>, r: seq<(ReachabilityPath, nat)>, i: nat)
    requires Listed(out, r, i)
    ensures Listed(out, if i in out then r + [(out[i], i)] else r, i + 1)
  {
    var r' := if i in out then r + [(out[i], i)] else r;
    forall j: nat | j in out && j < i + 1 ensures exists k :: 0 <= k < |r'| && r'[k].1 == j {
      if j == i {
        assert r'[|r|].1 == i;
      } else {
        var k :| 0 <= k < |r| && r[k].1 == j;
        assert r'[k] == r[k];
      }
    }
  }

  /** The whole answer: sinks in order, exactly the connected ones, each with its least path. */
  ghost predicate Answers(pg: PackageGraph, sources: seq<TaintSource>, via: seq<nat>, sinks: seq<TaintSink>, maxDepth: nat,
                          r: seq<(ReachabilityPath, nat)>, vias: map<nat, Via>)
    requires pg.Valid()
  {
    && (forall k, l :: 0 <= k < l < |r| ==> r[k].1 < r[l].1)
    && (forall k :: 0 <= k < |r| ==> Answer(pg, sources, via, sinks, maxDepth, r[k], vias))
    && (forall j: nat :: j < |sinks| ==>
          ((exists k :: 0 <= k < |r| && r[k].1 == j) <==> ViaConnected(pg, sources, via, sinks[j], maxDepth)))
  }

  ghost predicate Answer(pg: PackageGraph, sources: seq<TaintSource>, via: seq<nat>, sinks: seq<TaintSink>, maxDepth: nat,
                         a: (ReachabilityPath, nat), vias: map<nat, Via>)
    requires pg.Valid()
  {
    && a.1 < |sinks| && a.1 in vias && a.0.WellFormed()
    && ViaIsRight(pg, sources, StopsOf(pg, via), maxDepth, sinks[a.1], vias[a.1])
    && ViaRendered(pg, sources, StopsOf(pg, via), sinks[a.1], vias[a.1], a.0)
  }

  /** One path per sink, in sink order, through the first write node that serves it. */
  method DataPathsVia(pg: PackageGraph, sources: seq<TaintSource>, via: seq<nat>, sinks: seq<TaintSink>, limits: Limits)
    returns (r: seq<(ReachabilityPath, nat)>, ghost vias: map<nat, Via>)
    requires pg.Valid()
    ensures limits.maxPathsPerPair == 0 ==> r == []
    ensures limits.maxPathsPerPair > 0 ==> Answers(pg, sources, via, sinks, limits.maxDepth, r, vias)
  {
    hide *;
    r, vias := [], map[];
    if limits.maxPathsPerPair == 0 {
      return;
    }
    var stops := StopsOf(pg, via);
    var legs;
    ghost var leads;
    legs, leads := FirstLegs(pg, sources, stops, limits);
    var out: map<nat, ReachabilityPath> := map[];
    NoneKept(pg, sources, stops, sinks, limits.maxDepth);
    for s := 0 to |stops|
      invariant KeptAre(pg, sources, stops, sinks, limits.maxDepth, s, out, vias)
    {
      LegAt(pg, sources, stops, limits.maxDepth, legs, leads, s);
      if s in legs {
        out, vias := AddStop(pg, sources, stops, sinks, limits, s, legs[s], leads[s], out, vias);
      } else {
        KeepSkip(pg, sources, stops, sinks, limits.maxDepth, s, out, vias);
      }
    }
    NoneListed(out);
    for i := 0 to |sinks|
      invariant Listed(out, r, i)
    {
      ListedStep(out, r, i);
      if i in out {
        r := r + [(out[i], i)];
      }
    }
    Assemble(pg, sources, via, sinks, limits.maxDepth, out, vias, r);
  }

  lemma NoneListed(out: map<nat, ReachabilityPath>)
    ensures Listed(out, [], 0)
  {
  }

  lemma NoneKept(pg: PackageGraph, sources: seq<TaintSource>, stops: seq<TaintSink>, sinks: seq<TaintSink>, maxDepth: nat)
    requires pg.Valid()
    ensures KeptAre(pg, sources, stops, sinks, maxDepth, 0, map[], map[])
  {
  }

  lemma LegAt(pg: PackageGraph, sources: seq<TaintSource>, stops: seq<TaintSink>, maxDepth: nat,
              legs: map<nat, ReachabilityPath>, leads: map<nat, Hit>, s: nat)
    requires pg.Valid() && LegsAre(pg, sources, stops, maxDepth, legs, leads)
    ensures (s in legs <==> s in leads) && (s in legs <==> StopReached(pg, sources, stops, maxDepth, s))
    ensures s in legs ==> LeadOf(pg, sources, stops, maxDepth, s, leads[s]) && LegRendered(pg, sources, stops, s, legs[s], leads[s])
  {
    hide StopReached, LeadOf, LegRendered;
  }

  lemma AnswerIsRight(pg: PackageGraph, sources: seq<TaintSource>, via: seq<nat>, sinks: seq<TaintSink>, maxDepth: nat,
                      i: nat, j: nat, v: Via, p: ReachabilityPath, vias: map<nat, Via>)
    requires pg.Valid() && j in vias && vias[j] == v
    requires KeptIsRight(pg, sources, StopsOf(pg, via), sinks, maxDepth, i, j, v, p)
    ensures Answer(pg, sources, via, sinks, maxDepth, (p, j), vias)
  {
    hide ViaIsRight, StopsOf;
  }

  lemma AnswersComplete(pg: PackageGraph, sources: seq<TaintSource>, via: seq<nat>, sinks: seq<TaintSink>, maxDepth: nat,
                        out: map<nat, ReachabilityPath>, vias: map<nat, Via>, j: nat)
    requires pg.Valid() && j < |sinks|
    requires KeptAre(pg, sources, StopsOf(pg, via), sinks, maxDepth, |StopsOf(pg, via)|, out, vias)
    ensures j in out <==> ViaConnected(pg, sources, via, sinks[j], maxDepth)
  {
    hide Carries, LeadOf, LeastEdges, StopsOf, ViaConnected, ViaRendered;
    var stops := StopsOf(pg, via);
    CarriedIsConnected(pg, sources, via, sinks[j], maxDepth);
    if s: nat :| Carries(pg, sources, stops, maxDepth, s, sinks[j]) {
      CarrierInRange(pg, sources, stops, maxDepth, s, sinks[j]);
    }
    if j in vias {
      assert KeptIsRight(pg, sources, stops, sinks, maxDepth, |stops|, j, vias[j], out[j]);
    }
  }

  lemma Assemble(pg: PackageGraph, sources: seq<TaintSource>, via: seq<nat>, sinks: seq<TaintSink>, maxDepth: nat,
                 out: map<nat, ReachabilityPath>, vias: map<nat, Via>, r: seq<(ReachabilityPath, nat)>)
    requires pg.Valid() && Listed(out, r, |sinks|)
    requires KeptAre(pg, sources, StopsOf(pg, via), sinks, maxDepth, |StopsOf(pg, via)|, out, vias)
    ensures Answers(pg, sources, via, sinks, maxDepth, r, vias)
  {
    hide Carries, LeastEdges, StopsOf, ViaConnected, Answer, KeptIsRight;
    forall k | 0 <= k < |r| ensures Answer(pg, sources, via, sinks, maxDepth, r[k], vias) {
      AnswerIsRight(pg, sources, via, sinks, maxDepth, |StopsOf(pg, via)|, r[k].1, vias[r[k].1], out[r[k].1], vias);
    }
    forall j: nat | j < |sinks|
      ensures (exists k :: 0 <= k < |r| && r[k].1 == j) <==> ViaConnected(pg, sources, via, sinks[j], maxDepth)
    {
      AnswersComplete(pg, sources, via, sinks, maxDepth, out, vias, j);
    }
  }

  lemma CarrierInRange(pg: PackageGraph, sources: seq<TaintSource>, stops: seq<TaintSink>, maxDepth: nat, s: nat, sink: TaintSink)
    requires Carries(pg, sources, stops, maxDepth, s, sink)
    ensures s < |stops|
  {
  }
}
