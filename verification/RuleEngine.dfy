/** Evaluating one rule: what is reported is what the rule asks for. */
module RuleEngine {
  import opened Options
  import opened Digraph
  import opened Shortest
  import opened Evidence
  import opened Phases
  import opened Findings
  import opened DataPaths
  import ViaPaths
  import ControlPaths

  datatype PhasedRoot = PhasedRoot(phase: ExecutionPhase, root: ControlPaths.Root)

  /** The package graph with what the engine reads beside it: each call node's symbol and phase. */
  datatype Package = Package(pg: PackageGraph, symbolOf: map<nat, nat>, phaseOf: map<nat, ExecutionPhase>, roots: seq<PhasedRoot>, writes: seq<nat>) {
    /** The phase of a sink's definition; unknown definitions only run when called. */
    function PhaseAt(definition: nat): ExecutionPhase {
      if definition in phaseOf then phaseOf[definition] else Runtime
    }
  }

  datatype Rule = Rule(id: string, reachability: ReachabilityKind, technique: Technique, severity: Severity)

  datatype Mode = Reachability(weighted: bool) | FileCooccurrence | DefinitionCooccurrence {
    function PhaseWeighting(): bool {
      if this.Reachability? then weighted else true
    }
  }

  const VIA_FILE_WRITE_RULE: string := "PHX-DRP-002"
  const INSTALL_EXEC_RULE: string := "PHX-INS-002"
  const EVAL_LIKE: seq<string> := ["exec", "eval", "compile"]

  function SeverityOf(rule: Rule, sink: TaintSink): Severity {
    if rule.id == INSTALL_EXEC_RULE && sink.pattern in EVAL_LIKE then High else rule.severity
  }

  /** A path, and the index of the target it ends at. */
  type Found = (ReachabilityPath, nat)

  ghost predicate AllWellFormed(found: seq<Found>, targets: seq<TaintSink>) {
    forall k :: 0 <= k < |found| ==> found[k].0.WellFormed() && found[k].1 < |targets|
  }

  // ---- control rules ----

  /** Root `r` is of the rule's phase and reaches target `j`. */
  ghost predicate RootReaches(p: Package, phase: ExecutionPhase, r: nat, target: TaintSink, limits: Limits)
    requires p.pg.Valid()
  {
    && r < |p.roots| && p.roots[r].phase == phase && limits.maxPathsPerPair > 0
    && p.roots[r].root.symbol in p.pg.nodeOf
    && ControlPaths.Called(p.pg, p.pg.nodeOf[p.roots[r].root.symbol], target, limits.maxDepth)
  }

  /** `path` is the least control path to `target` from root `r`. */
  ghost predicate FromRoot(p: Package, phase: ExecutionPhase, r: nat, target: TaintSink, limits: Limits, path: ReachabilityPath)
    requires p.pg.Valid()
  {
    && RootReaches(p, phase, r, target, limits)
    && ControlPaths.IsControl(p.pg, p.roots[r].root, p.pg.nodeOf[p.roots[r].root.symbol], target, limits.maxDepth, path)
  }

  /** Root `r` and target `j` have been looked at. */
  predicate Past(r: nat, j: nat, toRoot: nat, toTarget: nat) {
    r < toRoot || (r == toRoot && j < toTarget)
  }

  /** One finding per target node: from the first root that reaches it. */
  ghost predicate FirstRoots(p: Package, phase: ExecutionPhase, targets: seq<TaintSink>, limits: Limits, toRoot: nat, toTarget: nat,
                             found: seq<Found>, from: seq<nat>, reached: set<nat>)
    requires p.pg.Valid()
  {
    && |from| == |found|
    && (forall k :: 0 <= k < |found| ==> found[k].1 < |targets| && Past(from[k], found[k].1, toRoot, toTarget)
                                         && FromRoot(p, phase, from[k], targets[found[k].1], limits, found[k].0))
    && (forall n: nat :: n in reached <==> HasTarget(found, targets, n))
    && OnePerNode(found, targets)
    && (forall r: nat, j: nat :: (j < |targets| && Past(r, j, toRoot, toTarget) && RootReaches(p, phase, r, targets[j], limits)) ==> targets[j].node in reached)
    && EarliestRoot(p, phase, targets, limits, found, from)
  }

  ghost predicate HasTarget(found: seq<Found>, targets: seq<TaintSink>, n: nat) {
    exists k :: 0 <= k < |found| && found[k].1 < |targets| && targets[found[k].1].node == n
  }

  ghost predicate OnePerNode(found: seq<Found>, targets: seq<TaintSink>) {
    forall k, l :: 0 <= k < l < |found| && found[k].1 < |targets| && found[l].1 < |targets| ==> targets[found[k].1].node != targets[found[l].1].node
  }

  /** No root before the one reported reaches any target of the same node. */
  ghost predicate EarliestRoot(p: Package, phase: ExecutionPhase, targets: seq<TaintSink>, limits: Limits, found: seq<Found>, from: seq<nat>)
    requires p.pg.Valid()
  {
    |from| == |found| && forall k, r: nat, j: nat ::
      (0 <= k < |found| && found[k].1 < |targets| && j < |targets| && targets[j].node == targets[found[k].1].node && r < from[k])
      ==> !RootReaches(p, phase, r, targets[j], limits)
  }

  /** The first control path of a root to one target, if there is one. */
  method FirstControl(p: Package, phase: ExecutionPhase, r: nat, target: TaintSink, limits: Limits) returns (path: Option<ReachabilityPath>)
    requires p.pg.Valid() && r < |p.roots| && p.roots[r].phase == phase
    ensures path.Some? <==> RootReaches(p, phase, r, target, limits)
    ensures path.Some? ==> FromRoot(p, phase, r, target, limits, path.value) && path.value.WellFormed()
  {
    var root := p.roots[r].root;
    var out;
    ghost var at;
    out, at := ControlPaths.ControlPathsOf(p.pg, root, [target], limits);
    if root.symbol in p.pg.nodeOf && limits.maxPathsPerPair > 0 {
      OneTarget(p.pg, root, p.pg.nodeOf[root.symbol], target, limits.maxDepth, out, at);
    }
    hide ControlPaths.Called, ControlPaths.IsControl, ControlPaths.ControlsUpTo;
    path := if out == [] then None else Some(out[0]);
  }

  lemma OneTarget(pg: PackageGraph, root: ControlPaths.Root, start: nat, target: TaintSink, maxDepth: nat, out: seq<ReachabilityPath>, at: seq<nat>)
    requires pg.Valid() && start < pg.calls.nodes && ControlPaths.ControlsUpTo(pg, root, start, [target], maxDepth, out, at, 1)
    ensures out != [] <==> ControlPaths.Called(pg, start, target, maxDepth)
    ensures out != [] ==> ControlPaths.IsControl(pg, root, start, target, maxDepth, out[0]) && out[0].WellFormed()
  {
    if out != [] {
      assert at[0] == 0 && [target][0] == target;
      IsControlWellFormed(pg, root, start, target, maxDepth, out[0]);
    }
    hide ControlPaths.Called, ControlPaths.IsControl;
    if out == [] {
      assert at == [] && [target][0] == target;
    }
  }

  lemma IsControlWellFormed(pg: PackageGraph, root: ControlPaths.Root, start: nat, target: TaintSink, maxDepth: nat, path: ReachabilityPath)
    requires pg.Valid() && start < pg.calls.nodes && ControlPaths.IsControl(pg, root, start, target, maxDepth, path)
    ensures path.WellFormed() && ControlPaths.Called(pg, start, target, maxDepth)
  {
  }

  /** Every target in order, for every root of the rule's phase in order; targets of a node reached
      already are passed over. */
  method ControlFindings(p: Package, phase: ExecutionPhase, targets: seq<TaintSink>, limits: Limits) returns (found: seq<Found>, ghost from: seq<nat>, ghost reached: set<nat>)
    requires p.pg.Valid()
    ensures AllWellFormed(found, targets)
    ensures FirstRoots(p, phase, targets, limits, |p.roots|, 0, found, from, reached)
  {
    hide FirstRoots, FromRoot, RootReaches, AllWellFormed;
    var seen: set<nat> := {};
    found, from := [], [];
    NothingFound(p, phase, targets, limits);
    for r := 0 to |p.roots|
      invariant FirstRoots(p, phase, targets, limits, r, 0, found, from, seen) && AllWellFormed(found, targets)
    {
      if p.roots[r].phase == phase {
        for j := 0 to |targets|
          invariant FirstRoots(p, phase, targets, limits, r, j, found, from, seen) && AllWellFormed(found, targets)
        {
          if targets[j].node in seen {
            PassOver(p, phase, targets, limits, r, j, found, from, seen);
          } else {
            var path := FirstControl(p, phase, r, targets[j], limits);
            if path.Some? {
              Report(p, phase, targets, limits, r, j, found, from, seen, path.value);
              MoreWellFormed(found, targets, path.value, j);
              seen := seen + {targets[j].node};
              found := found + [(path.value, j)];
              from := from + [r];
            } else {
              PassOver(p, phase, targets, limits, r, j, found, from, seen);
            }
          }
        }
      }
      RootDone(p, phase, targets, limits, r, found, from, seen);
    }
    reached := seen;
  }

  lemma NothingFound(p: Package, phase: ExecutionPhase, targets: seq<TaintSink>, limits: Limits)
    requires p.pg.Valid()
    ensures FirstRoots(p, phase, targets, limits, 0, 0, [], [], {}) && AllWellFormed([], targets)
  {
    hide FromRoot, RootReaches;
  }

  lemma MoreWellFormed(found: seq<Found>, targets: seq<TaintSink>, path: ReachabilityPath, j: nat)
    requires AllWellFormed(found, targets) && path.WellFormed() && j < |targets|
    ensures AllWellFormed(found + [(path, j)], targets)
  {
  }

  lemma PassOver(p: Package, phase: ExecutionPhase, targets: seq<TaintSink>, limits: Limits, r: nat, j: nat, found: seq<Found>, from: seq<nat>, seen: set<nat>)
    requires p.pg.Valid() && j < |targets| && FirstRoots(p, phase, targets, limits, r, j, found, from, seen)
    requires targets[j].node in seen || !RootReaches(p, phase, r, targets[j], limits)
    ensures FirstRoots(p, phase, targets, limits, r, j + 1, found, from, seen)
  {
    hide FromRoot, RootReaches;
  }

  lemma RootDone(p: Package, phase: ExecutionPhase, targets: seq<TaintSink>, limits: Limits, r: nat, found: seq<Found>, from: seq<nat>, seen: set<nat>)
    requires p.pg.Valid() && r < |p.roots|
    requires FirstRoots(p, phase, targets, limits, r, if p.roots[r].phase == phase then |targets| else 0, found, from, seen)
    ensures FirstRoots(p, phase, targets, limits, r + 1, 0, found, from, seen)
  {
    hide FromRoot;
  }

  lemma Report(p: Package, phase: ExecutionPhase, targets: seq<TaintSink>, limits: Limits, r: nat, j: nat, found: seq<Found>, from: seq<nat>, seen: set<nat>, path: ReachabilityPath)
    requires p.pg.Valid() && j < |targets| && targets[j].node !in seen && FirstRoots(p, phase, targets, limits, r, j, found, from, seen)
    requires FromRoot(p, phase, r, targets[j], limits, path)
    ensures FirstRoots(p, phase, targets, limits, r, j + 1, found + [(path, j)], from + [r], seen + {targets[j].node})
  {
    var more, froms := found + [(path, j)], from + [r];
    hide FromRoot, RootReaches;
    forall n: nat ensures HasTarget(more, targets, n) <==> HasTarget(found, targets, n) || n == targets[j].node {
      if HasTarget(found, targets, n) {
        var k :| 0 <= k < |found| && found[k].1 < |targets| && targets[found[k].1].node == n;
        assert more[k] == found[k];
      }
      assert more[|found|].1 == j;
    }
    assert forall k :: 0 <= k < |found| && found[k].1 < |targets| ==> HasTarget(found, targets, targets[found[k].1].node);
    assert OnePerNode(more, targets);
    assert EarliestRoot(p, phase, targets, limits, more, froms);
  }

  // ---- co-occurrence ----

  function SymbolAt(p: Package, node: nat): Option<nat> {
    if node in p.symbolOf then Some(p.symbolOf[node]) else None
  }

  /** A phase root's node is a call-graph node, any other source's a data-flow node. */
  function SourceOwner(p: Package, s: TaintSource): Option<nat> {
    if s.kind.PhaseRoot? then SymbolAt(p, s.node)
    else if s.node < |p.pg.flowNodes| then Some(p.pg.flowNodes[s.node].owner)
    else None
  }

  /** A phase root only stands for the rule's phase. */
  predicate Counts(p: Package, phase: ExecutionPhase, s: TaintSource) {
    s.kind.PhaseRoot? ==>
      exists r :: r in p.roots && r.phase == phase && r.root.symbol in p.pg.nodeOf && p.pg.nodeOf[r.root.symbol] == s.node
  }

  /** The symbol that the source stands in. */
  ghost predicate StandsIn(p: Package, s: TaintSource, x: nat) {
    if s.kind.PhaseRoot? then s.node in p.symbolOf && p.symbolOf[s.node] == x
    else s.node < |p.pg.flowNodes| && p.pg.flowNodes[s.node].owner == x
  }

  /** A source and a sink together: in one file, or in one definition, no definition counting as one. */
  ghost predicate Together(p: Package, mode: Mode, phase: ExecutionPhase, s: TaintSource, t: TaintSink) {
    && (s.kind.PhaseRoot? ==>
          exists r :: r in p.roots && r.phase == phase && r.root.symbol in p.pg.nodeOf && p.pg.nodeOf[r.root.symbol] == s.node)
    && (mode == FileCooccurrence ==> s.location.file == t.location.file)
    && (mode != FileCooccurrence ==>
          forall x: nat :: StandsIn(p, s, x) <==> t.definition in p.symbolOf && p.symbolOf[t.definition] == x)
  }

  predicate Beside(p: Package, mode: Mode, s: TaintSource, t: TaintSink) {
    if mode.FileCooccurrence? then s.location.file == t.location.file else SourceOwner(p, s) == SymbolAt(p, t.definition)
  }

  lemma TogetherIff(p: Package, mode: Mode, phase: ExecutionPhase, s: TaintSource, t: TaintSink)
    ensures Counts(p, phase, s) && Beside(p, mode, s, t) <==> Together(p, mode, phase, s, t)
  {
    var a, b := SourceOwner(p, s), SymbolAt(p, t.definition);
    assert forall x: nat :: StandsIn(p, s, x) <==> a == Some(x);
    assert forall x: nat :: (t.definition in p.symbolOf && p.symbolOf[t.definition] == x) <==> b == Some(x);
    if !mode.FileCooccurrence? && Together(p, mode, phase, s, t) {
      if a.Some? {
        assert StandsIn(p, s, a.value);
      }
      if b.Some? {
        assert StandsIn(p, s, b.value);
      }
    }
  }

  /** A source and a sink side by side, of the rule's own kind and at full confidence: no path is looked for. */
  predicate ShowsPair(rule: Rule, s: TaintSource, t: TaintSink, path: ReachabilityPath) {
    && path.kind == rule.reachability && path.confidence == Resolved && !path.conditional && (path.obfuscated <==> s.kind == DecodedLiteral)
    && |path.steps| == 2 && path.steps[0] == PathStep(PathStepKind.Source, s.location, s.pattern, "")
    && path.steps[1] == PathStep(PathStepKind.Sink, t.location, t.pattern, "")
  }

  function PairPath(rule: Rule, s: TaintSource, t: TaintSink): (path: ReachabilityPath)
    ensures path.WellFormed() && ShowsPair(rule, s, t, path)
  {
    ReachabilityPath(rule.reachability,
                     [PathStep(PathStepKind.Source, s.location, s.pattern, ""), PathStep(PathStepKind.Sink, t.location, t.pattern, "")],
                     Resolved, s.kind.DecodedLiteral?, false)
  }

  /** Source `i` is the first that co-occurs with the target. */
  ghost predicate FirstTogether(p: Package, mode: Mode, phase: ExecutionPhase, sources: seq<TaintSource>, t: TaintSink, i: nat) {
    i < |sources| && Together(p, mode, phase, sources[i], t) && forall h :: 0 <= h < i ==> !Together(p, mode, phase, sources[h], t)
  }

  /** Each of the first `n` targets that has a partner has one pair, with its first partner, in order. */
  ghost predicate Pairs(p: Package, rule: Rule, mode: Mode, sources: seq<TaintSource>, targets: seq<TaintSink>, n: nat, found: seq<Found>) {
    && (forall k, l :: 0 <= k < l < |found| ==> found[k].1 < found[l].1)
    && (forall k :: 0 <= k < |found| ==> found[k].1 < n && found[k].1 < |targets| && IsPair(p, rule, mode, sources, targets[found[k].1], found[k].0))
    && (forall j: nat, i: nat :: (j < n && j < |targets| && FirstTogether(p, mode, rule.technique.typicalPhase, sources, targets[j], i)) ==>
                                 exists k :: 0 <= k < |found| && found[k].1 == j)
  }

  ghost predicate IsPair(p: Package, rule: Rule, mode: Mode, sources: seq<TaintSource>, t: TaintSink, path: ReachabilityPath) {
    exists i: nat :: FirstTogether(p, mode, rule.technique.typicalPhase, sources, t, i) && ShowsPair(rule, sources[i], t, path)
  }

  method FindPartner(p: Package, mode: Mode, phase: ExecutionPhase, sources: seq<TaintSource>, t: TaintSink) returns (i: nat)
    ensures i < |sources| ==> FirstTogether(p, mode, phase, sources, t, i)
    ensures i >= |sources| ==> forall h: nat :: !FirstTogether(p, mode, phase, sources, t, h)
  {
    i := 0;
    while i < |sources| && !(Counts(p, phase, sources[i]) && Beside(p, mode, sources[i], t))
      invariant i <= |sources| && forall h :: 0 <= h < i ==> !Together(p, mode, phase, sources[h], t)
    {
      TogetherIff(p, mode, phase, sources[i], t);
      i := i + 1;
    }
    if i < |sources| {
      TogetherIff(p, mode, phase, sources[i], t);
    }
  }

  /** One pair per target, with the first source found beside it. */
  method Cooccurrence(p: Package, rule: Rule, mode: Mode, sources: seq<TaintSource>, targets: seq<TaintSink>) returns (found: seq<Found>)
    ensures Pairs(p, rule, mode, sources, targets, |targets|, found) && AllWellFormed(found, targets)
  {
    hide *;
    found := [];
    NoPairs(p, rule, mode, sources, targets);
    for j := 0 to |targets|
      invariant Pairs(p, rule, mode, sources, targets, j, found) && AllWellFormed(found, targets)
    {
      var i := FindPartner(p, mode, rule.technique.typicalPhase, sources, targets[j]);
      PairNext(p, rule, mode, sources, targets, j, found, i);
      if i < |sources| {
        MoreWellFormed(found, targets, PairPath(rule, sources[i], targets[j]), j);
        found := found + [(PairPath(rule, sources[i], targets[j]), j)];
      }
    }
  }

  lemma NoPairs(p: Package, rule: Rule, mode: Mode, sources: seq<TaintSource>, targets: seq<TaintSink>)
    ensures Pairs(p, rule, mode, sources, targets, 0, []) && AllWellFormed([], targets)
  {
  }

  lemma PairNext(p: Package, rule: Rule, mode: Mode, sources: seq<TaintSource>, targets: seq<TaintSink>, j: nat, found: seq<Found>, i: nat)
    requires j < |targets| && Pairs(p, rule, mode, sources, targets, j, found)
    requires i < |sources| ==> FirstTogether(p, mode, rule.technique.typicalPhase, sources, targets[j], i)
    requires i >= |sources| ==> forall h: nat :: !FirstTogether(p, mode, rule.technique.typicalPhase, sources, targets[j], h)
    ensures Pairs(p, rule, mode, sources, targets, j + 1, if i < |sources| then found + [(PairPath(rule, sources[i], targets[j]), j)] else found)
  {
    hide FirstTogether, PairPath, ShowsPair, IsPair;
    if i < |sources| {
      var path := PairPath(rule, sources[i], targets[j]);
      var more := found + [(path, j)];
      PairIs(p, rule, mode, sources, targets[j], i);
      forall h: nat, g: nat | h < j + 1 && h < |targets| && FirstTogether(p, mode, rule.technique.typicalPhase, sources, targets[h], g)
        ensures exists k :: 0 <= k < |more| && more[k].1 == h
      {
        if h == j {
          assert more[|found|].1 == j;
        } else {
          var k :| 0 <= k < |found| && found[k].1 == h;
          assert more[k].1 == h;
        }
      }
    }
  }

  lemma PairIs(p: Package, rule: Rule, mode: Mode, sources: seq<TaintSource>, t: TaintSink, i: nat)
    requires i < |sources| && FirstTogether(p, mode, rule.technique.typicalPhase, sources, t, i)
    ensures IsPair(p, rule, mode, sources, t, PairPath(rule, sources[i], t))
  {
    hide FirstTogether, PairPath, ShowsPair;
  }

  // ---- findings ----

  /** Finding `k` is about path `k`. */
  ghost predicate About(p: Package, rule: Rule, mode: Mode, targets: seq<TaintSink>, found: seq<Found>, fs: seq<Finding>) {
    |fs| == |found| && forall k :: 0 <= k < |found| ==> found[k].1 < |targets| && Tells(p, rule, mode, targets[found[k].1], found[k].0, fs[k])
  }

  /** Of the rule's technique and severity, but high for code evaluated at install time; of the phase of
      the definition its target is in, known or else run time; scored with phases unless the mode leaves
      them out. */
  ghost predicate Tells(p: Package, rule: Rule, mode: Mode, t: TaintSink, path: ReachabilityPath, f: Finding) {
    && f.rule == rule.id && f.technique == rule.technique && f.path == path
    && f.severity == (if rule.id == "PHX-INS-002" && t.pattern in ["exec", "eval", "compile"] then High else rule.severity)
    && (if t.definition in p.phaseOf then f.phase == p.phaseOf[t.definition] else f.phase == Runtime)
    && NewFinding(f.rule, f.technique, f.severity, f.path, f.phase, mode != Reachability(false)) == Ok(f)
  }

  method MakeFindings(p: Package, rule: Rule, mode: Mode, targets: seq<TaintSink>, found: seq<Found>) returns (r: Result<seq<Finding>>)
    requires forall k :: 0 <= k < |found| ==> found[k].1 < |targets|
    ensures r.Ok? <==> forall k :: 0 <= k < |found| ==> found[k].0.WellFormed()
    ensures r.Ok? ==> About(p, rule, mode, targets, found, r.value)
  {
    var fs: seq<Finding> := [];
    for k := 0 to |found|
      invariant |fs| == k && forall h :: 0 <= h < k ==> found[h].0.WellFormed() && Tells(p, rule, mode, targets[found[h].1], found[h].0, fs[h])
    {
      var t := targets[found[k].1];
      var made := NewFinding(rule.id, rule.technique, SeverityOf(rule, t), found[k].0, p.PhaseAt(t.definition), mode.PhaseWeighting());
      match made
      case EmptyPath => return EmptyPath;
      case MalformedPath => return MalformedPath;
      case Ok(f) =>
        assert Tells(p, rule, mode, t, found[k].0, f);
        fs := fs + [f];
    }
    r := Ok(fs);
  }

  // ---- a whole rule ----

  /** What a data rule found: through the package's file writes when the rule asks for it. */
  ghost predicate DataAnswered(p: Package, rule: Rule, sources: seq<TaintSource>, targets: seq<TaintSink>, limits: Limits, found: seq<Found>)
    requires p.pg.Valid()
  {
    if limits.maxPathsPerPair == 0 then found == []
    else if rule.id == VIA_FILE_WRITE_RULE then
      exists vias :: ViaPaths.Answers(p.pg, sources, p.writes, targets, limits.maxDepth, found, vias)
    else
      exists hits :: Renders(p.pg, sources, targets, hits, found) && HitsUpTo(p.pg, sources, targets, limits.maxDepth, hits, |sources|, 0)
  }

  ghost predicate ControlAnswered(p: Package, rule: Rule, targets: seq<TaintSink>, limits: Limits, found: seq<Found>)
    requires p.pg.Valid()
  {
    exists from, reached :: FirstRoots(p, rule.technique.typicalPhase, targets, limits, |p.roots|, 0, found, from, reached)
  }

  ghost predicate Answered(p: Package, rule: Rule, mode: Mode, sources: seq<TaintSource>, targets: seq<TaintSink>, limits: Limits, found: seq<Found>)
    requires p.pg.Valid()
  {
    if !mode.Reachability? then Pairs(p, rule, mode, sources, targets, |targets|, found)
    else if rule.reachability.Data? then DataAnswered(p, rule, sources, targets, limits, found)
    else ControlAnswered(p, rule, targets, limits, found)
  }

  /** What the rule asks of a target, without saying how it is looked for. */
  ghost predicate Shown(p: Package, rule: Rule, mode: Mode, sources: seq<TaintSource>, limits: Limits, t: TaintSink)
    requires p.pg.Valid()
  {
    if !mode.Reachability? then exists i: nat :: i < |sources| && Together(p, mode, rule.technique.typicalPhase, sources[i], t)
    else if rule.reachability.Data? then
      limits.maxPathsPerPair > 0 &&
      if rule.id == VIA_FILE_WRITE_RULE then ViaPaths.ViaConnected(p.pg, sources, p.writes, t, limits.maxDepth)
      else exists i: nat :: i < |sources| && Connected(p.pg, sources[i], t, limits.maxDepth)
    else exists r: nat :: RootReaches(p, rule.technique.typicalPhase, r, t, limits)
  }

  ghost predicate SomeShown(p: Package, rule: Rule, mode: Mode, sources: seq<TaintSource>, targets: seq<TaintSink>, limits: Limits, n: nat)
    requires p.pg.Valid()
  {
    exists j: nat :: j < |targets| && targets[j].node == n && Shown(p, rule, mode, sources, limits, targets[j])
  }

  ghost predicate Names(found: seq<Found>, j: nat) {
    exists k :: 0 <= k < |found| && found[k].1 == j
  }

  lemma {:induction false} FirstPartner(p: Package, mode: Mode, phase: ExecutionPhase, sources: seq<TaintSource>, t: TaintSink, i: nat) returns (h: nat)
    requires i < |sources| && Together(p, mode, phase, sources[i], t)
    ensures FirstTogether(p, mode, phase, sources, t, h)
    decreases i
  {
    hide Together;
    if h' :| 0 <= h' < i && Together(p, mode, phase, sources[h'], t) {
      h := FirstPartner(p, mode, phase, sources, t, h');
    } else {
      h := i;
    }
  }

  lemma PairsShown(p: Package, rule: Rule, mode: Mode, sources: seq<TaintSource>, targets: seq<TaintSink>, limits: Limits, found: seq<Found>, j: nat)
    requires p.pg.Valid() && !mode.Reachability? && j < |targets| && Pairs(p, rule, mode, sources, targets, |targets|, found)
    ensures Names(found, j) <==> Shown(p, rule, mode, sources, limits, targets[j])
  {
    hide Together, ShowsPair;
    if i: nat :| i < |sources| && Together(p, mode, rule.technique.typicalPhase, sources[i], targets[j]) {
      var h := FirstPartner(p, mode, rule.technique.typicalPhase, sources, targets[j], i);
    }
    if k :| 0 <= k < |found| && found[k].1 == j {
      assert IsPair(p, rule, mode, sources, targets[j], found[k].0);
    }
  }

  lemma DataShown(p: Package, rule: Rule, mode: Mode, sources: seq<TaintSource>, targets: seq<TaintSink>, limits: Limits, found: seq<Found>, j: nat)
    requires p.pg.Valid() && mode.Reachability? && rule.reachability.Data? && j < |targets| && DataAnswered(p, rule, sources, targets, limits, found)
    ensures Names(found, j) <==> Shown(p, rule, mode, sources, limits, targets[j])
  {
    hide Connected, ViaPaths.ViaConnected, ViaPaths.Answer, ShowsData, LeastEdges;
    if limits.maxPathsPerPair > 0 && rule.id != VIA_FILE_WRITE_RULE {
      var hits :| Renders(p.pg, sources, targets, hits, found) && HitsUpTo(p.pg, sources, targets, limits.maxDepth, hits, |sources|, 0);
      HitsShown(p, sources, targets, limits.maxDepth, hits, found, j);
    }
  }

  lemma HitsShown(p: Package, sources: seq<TaintSource>, targets: seq<TaintSink>, maxDepth: nat, hits: seq<Hit>, found: seq<Found>, j: nat)
    requires p.pg.Valid() && j < |targets| && Renders(p.pg, sources, targets, hits, found) && HitsUpTo(p.pg, sources, targets, maxDepth, hits, |sources|, 0)
    ensures Names(found, j) <==> exists i: nat :: i < |sources| && Connected(p.pg, sources[i], targets[j], maxDepth)
  {
    hide Connected, ShowsData, LeastEdges, HitIsRight, HitBefore;
    if i: nat :| i < |sources| && Connected(p.pg, sources[i], targets[j], maxDepth) {
      PairIsHit(p, sources, targets, maxDepth, hits, i, j);
      var k :| 0 <= k < |hits| && hits[k].source == i && hits[k].sink == j;
      assert found[k].1 == j;
    }
    if k :| 0 <= k < |found| && found[k].1 == j {
      HitIsPair(p, sources, targets, maxDepth, hits[k]);
    }
  }

  lemma PairIsHit(p: Package, sources: seq<TaintSource>, targets: seq<TaintSink>, maxDepth: nat, hits: seq<Hit>, i: nat, j: nat)
    requires HitsUpTo(p.pg, sources, targets, maxDepth, hits, |sources|, 0) && i < |sources| && j < |targets|
    requires Connected(p.pg, sources[i], targets[j], maxDepth)
    ensures exists k :: 0 <= k < |hits| && hits[k].source == i && hits[k].sink == j
  {
    hide Connected, HitIsRight;
  }

  lemma HitIsPair(p: Package, sources: seq<TaintSource>, targets: seq<TaintSink>, maxDepth: nat, h: Hit)
    requires HitIsRight(p.pg, sources, targets, maxDepth, h)
    ensures h.source < |sources| && h.sink < |targets| && Connected(p.pg, sources[h.source], targets[h.sink], maxDepth)
  {
    hide Connected, LeastEdges;
  }

  /** Pairing and data rules answer target by target, control rules node by node; of every rule it
      holds that a node is reported exactly when some target there is what the rule asks for. */
  lemma FoundIffShown(p: Package, rule: Rule, mode: Mode, sources: seq<TaintSource>, targets: seq<TaintSink>, limits: Limits, found: seq<Found>, n: nat)
    requires p.pg.Valid() && Answered(p, rule, mode, sources, targets, limits, found) && AllWellFormed(found, targets)
    ensures HasTarget(found, targets, n) <==> SomeShown(p, rule, mode, sources, targets, limits, n)
  {
    if mode.Reachability? && rule.reachability.Control? {
      ControlShown(p, rule, mode, sources, targets, limits, found, n);
    } else {
      forall j: nat | j < |targets| ensures Names(found, j) <==> Shown(p, rule, mode, sources, limits, targets[j]) {
        if mode.Reachability? {
          DataShown(p, rule, mode, sources, targets, limits, found, j);
        } else {
          PairsShown(p, rule, mode, sources, targets, limits, found, j);
        }
      }
      hide *;
      NamesShown(p, rule, mode, sources, targets, limits, found, n);
    }
  }

  lemma NamesShown(p: Package, rule: Rule, mode: Mode, sources: seq<TaintSource>, targets: seq<TaintSink>, limits: Limits, found: seq<Found>, n: nat)
    requires p.pg.Valid() && AllWellFormed(found, targets)
    requires forall j: nat :: j < |targets| ==> (Names(found, j) <==> Shown(p, rule, mode, sources, limits, targets[j]))
    ensures HasTarget(found, targets, n) <==> SomeShown(p, rule, mode, sources, targets, limits, n)
  {
    hide Shown;
    if k :| 0 <= k < |found| && found[k].1 < |targets| && targets[found[k].1].node == n {
      assert Names(found, found[k].1);
    }
    if j: nat :| j < |targets| && targets[j].node == n && Shown(p, rule, mode, sources, limits, targets[j]) {
      assert Names(found, j);
    }
  }

  lemma ControlShown(p: Package, rule: Rule, mode: Mode, sources: seq<TaintSource>, targets: seq<TaintSink>, limits: Limits, found: seq<Found>, n: nat)
    requires p.pg.Valid() && mode.Reachability? && rule.reachability.Control? && ControlAnswered(p, rule, targets, limits, found)
    ensures HasTarget(found, targets, n) <==> SomeShown(p, rule, mode, sources, targets, limits, n)
  {
    var phase := rule.technique.typicalPhase;
    var from, reached :| FirstRoots(p, phase, targets, limits, |p.roots|, 0, found, from, reached);
    hide *;
    if HasTarget(found, targets, n) {
      var j, r := FoundRoot(p, phase, targets, limits, found, from, reached, n);
      RootShows(p, rule, mode, sources, targets, limits, j, r);
    }
    if SomeShown(p, rule, mode, sources, targets, limits, n) {
      var j, r := ShownRoot(p, rule, mode, sources, targets, limits, n);
      RootFound(p, phase, targets, limits, found, from, reached, j, r);
    }
  }

  lemma FoundRoot(p: Package, phase: ExecutionPhase, targets: seq<TaintSink>, limits: Limits, found: seq<Found>, from: seq<nat>, reached: set<nat>, n: nat)
    returns (j: nat, r: nat)
    requires p.pg.Valid() && FirstRoots(p, phase, targets, limits, |p.roots|, 0, found, from, reached) && HasTarget(found, targets, n)
    ensures j < |targets| && targets[j].node == n && RootReaches(p, phase, r, targets[j], limits)
  {
    hide RootReaches, ControlPaths.IsControl, OnePerNode, EarliestRoot;
    var k :| 0 <= k < |found| && found[k].1 < |targets| && targets[found[k].1].node == n;
    j, r := found[k].1, from[k];
    assert FromRoot(p, phase, r, targets[j], limits, found[k].0);
  }

  lemma RootFound(p: Package, phase: ExecutionPhase, targets: seq<TaintSink>, limits: Limits, found: seq<Found>, from: seq<nat>, reached: set<nat>, j: nat, r: nat)
    requires p.pg.Valid() && FirstRoots(p, phase, targets, limits, |p.roots|, 0, found, from, reached)
    requires j < |targets| && RootReaches(p, phase, r, targets[j], limits)
    ensures HasTarget(found, targets, targets[j].node)
  {
    RootInRange(p, phase, r, targets[j], limits);
    hide RootReaches, FromRoot, OnePerNode, EarliestRoot, HasTarget;
  }

  lemma RootShows(p: Package, rule: Rule, mode: Mode, sources: seq<TaintSource>, targets: seq<TaintSink>, limits: Limits, j: nat, r: nat)
    requires p.pg.Valid() && mode.Reachability? && rule.reachability.Control? && j < |targets|
    requires RootReaches(p, rule.technique.typicalPhase, r, targets[j], limits)
    ensures SomeShown(p, rule, mode, sources, targets, limits, targets[j].node)
  {
    hide RootReaches;
    assert Shown(p, rule, mode, sources, limits, targets[j]);
  }

  lemma ShownRoot(p: Package, rule: Rule, mode: Mode, sources: seq<TaintSource>, targets: seq<TaintSink>, limits: Limits, n: nat) returns (j: nat, r: nat)
    requires p.pg.Valid() && mode.Reachability? && rule.reachability.Control? && SomeShown(p, rule, mode, sources, targets, limits, n)
    ensures j < |targets| && targets[j].node == n && RootReaches(p, rule.technique.typicalPhase, r, targets[j], limits)
  {
    hide RootReaches;
    j :| j < |targets| && targets[j].node == n && Shown(p, rule, mode, sources, limits, targets[j]);
    r :| RootReaches(p, rule.technique.typicalPhase, r, targets[j], limits);
  }

  lemma RootInRange(p: Package, phase: ExecutionPhase, r: nat, target: TaintSink, limits: Limits)
    requires p.pg.Valid() && RootReaches(p, phase, r, target, limits)
    ensures r < |p.roots|
  {
  }

  /** Data rules, through a file write when the rule asks for one. */
  method DataFindings(p: Package, rule: Rule, sources: seq<TaintSource>, targets: seq<TaintSink>, limits: Limits) returns (found: seq<Found>)
    requires p.pg.Valid()
    ensures AllWellFormed(found, targets) && DataAnswered(p, rule, sources, targets, limits, found)
  {
    hide ViaPaths.Answers, Renders, HitsUpTo;
    if rule.id == VIA_FILE_WRITE_RULE {
      ghost var vias;
      found, vias := ViaPaths.DataPathsVia(p.pg, sources, p.writes, targets, limits);
      if limits.maxPathsPerPair > 0 {
        AnswersWellFormed(p, sources, targets, limits, found, vias);
      }
    } else {
      ghost var hits;
      found, hits := DataPathsTo(p.pg, sources, targets, limits);
      HitsWellFormed(p, sources, targets, found, hits);
    }
  }

  lemma AnswersWellFormed(p: Package, sources: seq<TaintSource>, targets: seq<TaintSink>, limits: Limits, found: seq<Found>, vias: map<nat, ViaPaths.Via>)
    requires p.pg.Valid() && ViaPaths.Answers(p.pg, sources, p.writes, targets, limits.maxDepth, found, vias)
    ensures AllWellFormed(found, targets)
  {
    hide ViaPaths.ViaConnected, ViaPaths.ViaIsRight, ViaPaths.ViaRendered;
  }

  lemma HitsWellFormed(p: Package, sources: seq<TaintSource>, targets: seq<TaintSink>, found: seq<Found>, hits: seq<Hit>)
    requires p.pg.Valid() && Renders(p.pg, sources, targets, hits, found)
    ensures AllWellFormed(found, targets)
  {
    hide DataPath;
  }

  /** One rule, in any mode: what its search found becomes one finding each, none is ever refused,
      and a node is reported exactly when some target there is what the rule asks for. */
  method EvaluateRule(p: Package, rule: Rule, mode: Mode, sources: seq<TaintSource>, targets: seq<TaintSink>, limits: Limits)
    returns (r: Result<seq<Finding>>, ghost found: seq<Found>)
    requires p.pg.Valid()
    ensures r.Ok? && About(p, rule, mode, targets, found, r.value)
    ensures Answered(p, rule, mode, sources, targets, limits, found) && AllWellFormed(found, targets)
    ensures forall n: nat :: HasTarget(found, targets, n) <==> SomeShown(p, rule, mode, sources, targets, limits, n)
  {
    var paths: seq<Found>;
    hide About, HasTarget, SomeShown, FirstRoots, DataAnswered, Pairs;
    if !mode.Reachability? {
      paths := Cooccurrence(p, rule, mode, sources, targets);
    } else if rule.reachability.Data? {
      paths := DataFindings(p, rule, sources, targets, limits);
    } else {
      ghost var from, reached;
      paths, from, reached := ControlFindings(p, rule.technique.typicalPhase, targets, limits);
    }
    found := paths;
    forall n: nat ensures HasTarget(found, targets, n) <==> SomeShown(p, rule, mode, sources, targets, limits, n) {
      FoundIffShown(p, rule, mode, sources, targets, limits, found, n);
    }
    hide Answered;
    r := MakeFindings(p, rule, mode, targets, paths);
  }
}
