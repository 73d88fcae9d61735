/** Scoring: one finding, and a package of them. */
module Findings {
  import opened Options
  import opened Evidence
  import opened Finite
  import opened Phases

  datatype Severity = Low | Medium | High | Critical {
    function Weight(): real {
      match this
      case Critical => 1.0
      case High => 0.8
      case Medium => 0.6
      case Low => 0.4
    }
  }

  function PhaseWeight(p: ExecutionPhase): real {
    match p
    case Install => 1.0
    case Import => 0.8
    case Runtime => 0.5
  }

  function ConfidenceWeight(c: Confidence): real {
    match c
    case Resolved => 1.0
    case Ambiguous => 0.6
    case Dynamic => 0.4
  }

  const SUSPICIOUS_THRESHOLD: real := 0.40
  const MALICIOUS_THRESHOLD: real := 0.70
  const OBFUSCATION_BONUS: real := 1.15
  const TECHNIQUE_BONUS: real := 0.05
  const CONTROL_ONLY_CEILING: real := MALICIOUS_THRESHOLD - TECHNIQUE_BONUS

  datatype Technique = Technique(objective: nat, typicalPhase: ExecutionPhase)

  datatype Finding = Finding(rule: string, technique: Technique, severity: Severity, phase: ExecutionPhase, score: real, path: ReachabilityPath)

  datatype Result<+T> = Ok(value: T) | EmptyPath | MalformedPath

  datatype Verdict = Clean | Suspicious | Malicious

  function Clamp(v: real): (r: real)
    ensures 0.0 <= r <= 1.0 && (0.0 <= v <= 1.0 ==> r == v)
  {
    if v < 0.0 then 0.0 else if v > 1.0 then 1.0 else v
  }

  function ScoreOf(severity: Severity, phase: ExecutionPhase, confidence: Confidence, obfuscated: bool, phaseWeighting: bool): (r: real)
    ensures 0.0 <= r <= 1.0
  {
    Clamp(Weighed(severity.Weight(), if phaseWeighting then PhaseWeight(phase) else 1.0, ConfidenceWeight(confidence),
                  if obfuscated then OBFUSCATION_BONUS else 1.0))
  }

  function Weighed(severity: real, phase: real, confidence: real, bonus: real): real {
    severity * phase * confidence * bonus
  }

  /** Refuses evidence that does not start at a source and end at a sink. */
  function NewFinding(rule: string, technique: Technique, severity: Severity, path: ReachabilityPath, phase: ExecutionPhase, phaseWeighting: bool): (r: Result<Finding>)
    ensures r.Ok? <==> path.WellFormed()
    ensures r.EmptyPath? <==> path.steps == []
    ensures r.Ok? ==> r.value.path == path && r.value.severity == severity && r.value.phase == phase && 0.0 <= r.value.score <= 1.0
    ensures r.Ok? ==> r.value.rule == rule && r.value.technique == technique
  {
    if path.steps == [] then EmptyPath
    else if !path.WellFormed() then MalformedPath
    else Ok(Finding(rule, technique, severity, phase, ScoreOf(severity, phase, path.confidence, path.obfuscated, phaseWeighting), path))
  }

  /** The lesser of two numbers. */
  function Lesser(a: real, b: real): real {
    if a <= b then a else b
  }

  /** Every score, in numbers. */
  lemma ScoreIs(rule: string, technique: Technique, severity: Severity, path: ReachabilityPath, phase: ExecutionPhase, phaseWeighting: bool)
    requires path.WellFormed()
    ensures var r := NewFinding(rule, technique, severity, path, phase, phaseWeighting);
            r.Ok? && r.value.score ==
              Lesser(1.0, (if severity == Critical then 1.0 else if severity == High then 0.8 else if severity == Medium then 0.6 else 0.4)
                          * (if !phaseWeighting || phase == Install then 1.0 else if phase == Import then 0.8 else 0.5)
                          * (if path.confidence == Resolved then 1.0 else if path.confidence == Ambiguous then 0.6 else 0.4)
                          * (if path.obfuscated then 1.15 else 1.0))
  {
    var s, p := severity.Weight(), if phaseWeighting then PhaseWeight(phase) else 1.0;
    var c, o := ConfidenceWeight(path.confidence), if path.obfuscated then OBFUSCATION_BONUS else 1.0;
    Product(0.0, s, 0.0, p);
    Product(0.0, s * p, 0.0, c);
    Product(0.0, s * p * c, 0.0, o);
    assert Weighed(s, p, c, o) == s * p * c * o >= 0.0;
  }

  /** A stronger severity, a stronger phase, a surer path or an obfuscated one never scores less. */
  lemma ScoreMonotone(s: Severity, t: Severity, p: ExecutionPhase, q: ExecutionPhase, c: Confidence, d: Confidence, o: bool, w: bool)
    requires s.Weight() <= t.Weight() && p.Rank() <= q.Rank() && c.Rank() <= d.Rank()
    ensures ScoreOf(s, p, c, o, w) <= ScoreOf(t, q, d, o, w) <= ScoreOf(t, q, d, true, w)
  {
    hide Weighed;
    var x, y := if w then PhaseWeight(p) else 1.0, if w then PhaseWeight(q) else 1.0;
    var k := if o then OBFUSCATION_BONUS else 1.0;
    WeighedMore(s.Weight(), t.Weight(), x, y, ConfidenceWeight(c), ConfidenceWeight(d), k, k);
    WeighedMore(t.Weight(), t.Weight(), y, y, ConfidenceWeight(d), ConfidenceWeight(d), k, OBFUSCATION_BONUS);
  }

  lemma WeighedMore(a: real, b: real, x: real, y: real, u: real, v: real, k: real, l: real)
    requires 0.0 <= a <= b && 0.0 <= x <= y && 0.0 <= u <= v && 0.0 <= k <= l
    ensures Weighed(a, x, u, k) <= Weighed(b, y, v, l)
  {
    Product(a, b, x, y);
    Product(a * x, b * y, u, v);
    Product(a * x * u, b * y * v, k, l);
  }

  lemma Product(a: real, b: real, u: real, v: real)
    requires 0.0 <= a <= b && 0.0 <= u <= v
    ensures 0.0 <= a * u <= b * v
  {
    assert (b - a) * u >= 0.0 && b * (v - u) >= 0.0;
  }

  // ---- the package ----

  function MaxScore(fs: seq<Finding>): (r: real)
    requires fs != []
  {
    var last := fs[|fs| - 1].score;
    if |fs| == 1 then last
    else
      var before := MaxScore(fs[..|fs| - 1]);
      if before >= last then before else last
  }

  function Objectives(fs: seq<Finding>): set<nat> {
    set f | f in fs :: f.technique.objective
  }

  predicate HasDataPath(fs: seq<Finding>) {
    exists f :: f in fs && f.path.kind == Data
  }

  /** The worst finding, a bonus for each further technique, and a ceiling without a data path. */
  function Aggregate(fs: seq<Finding>): real {
    if fs == [] then 0.0
    else
      var extra := (|Objectives(fs)| - 1) as real;
      var risk := MaxScore(fs) + TECHNIQUE_BONUS * (if extra < 0.0 then 0.0 else extra);
      if HasDataPath(fs) then Clamp(risk) else Clamp(if risk < CONTROL_ONLY_CEILING then risk else CONTROL_ONLY_CEILING)
  }

  function VerdictOf(score: real): Verdict {
    if score >= MALICIOUS_THRESHOLD then Malicious
    else if score >= SUSPICIOUS_THRESHOLD then Suspicious
    else Clean
  }

  lemma {:induction false} MaxIsMax(fs: seq<Finding>)
    requires fs != []
    ensures forall f :: f in fs ==> f.score <= MaxScore(fs)
    ensures exists f :: f in fs && f.score == MaxScore(fs)
  {
    var init, last := fs[..|fs| - 1], fs[|fs| - 1];
    assert fs == init + [last];
    if init == [] {
      assert fs[0] in fs;
    } else {
      MaxIsMax(init);
      assert fs[|fs| - 1] in fs;
    }
  }

  lemma {:induction false} SomeObjective(fs: seq<Finding>)
    requires fs != []
    ensures |Objectives(fs)| >= 1
  {
    assert fs[0] in fs;
    assert fs[0].technique.objective in Objectives(fs);
    assert |{fs[0].technique.objective}| <= |Objectives(fs)| by {
      SubsetSize({fs[0].technique.objective}, Objectives(fs));
    }
  }

  lemma SameParts(fs: seq<Finding>, gs: seq<Finding>)
    requires fs != [] && gs != [] && forall f :: f in fs <==> f in gs
    ensures MaxScore(fs) == MaxScore(gs) && Objectives(fs) == Objectives(gs) && (HasDataPath(fs) <==> HasDataPath(gs))
  {
    MaxIsMax(fs);
    MaxIsMax(gs);
    hide MaxScore;
  }

  /** Only which findings there are matters: not their order, nor how often one is listed. */
  lemma AggregateIgnoresOrder(fs: seq<Finding>, gs: seq<Finding>)
    requires forall f :: f in fs <==> f in gs
    ensures Aggregate(fs) == Aggregate(gs)
  {
    if fs == [] {
      FirstIn(gs);
    } else {
      assert fs[0] in fs && gs != [];
      SameParts(fs, gs);
      hide MaxScore, Objectives, HasDataPath;
    }
  }

  /** The risk is never less than a finding's score, up to the ceiling there is without a data path. */
  lemma AggregateRange(fs: seq<Finding>)
    ensures 0.0 <= Aggregate(fs) <= 1.0
    ensures (forall f :: f in fs ==> f.path.kind == Control) ==> Aggregate(fs) <= 0.65
    ensures forall f :: f in fs && 0.0 <= f.score <= 1.0 ==>
      Lesser(f.score, if exists g :: g in fs && g.path.kind == Data then 1.0 else 0.65) <= Aggregate(fs)
  {
    if fs != [] {
      MaxIsMax(fs);
      SomeObjective(fs);
      hide MaxScore, Objectives;
    }
  }

  lemma MoreParts(fs: seq<Finding>, f: Finding)
    requires fs != []
    ensures MaxScore(fs) <= MaxScore(fs + [f]) && |Objectives(fs)| <= |Objectives(fs + [f])| && (HasDataPath(fs) ==> HasDataPath(fs + [f]))
  {
    var gs := fs + [f];
    assert gs[..|gs| - 1] == fs;
    assert forall x :: x in fs ==> x in gs;
    SubsetSize(Objectives(fs), Objectives(gs));
  }

  /** Another finding never lowers the risk. */
  lemma AggregateMonotone(fs: seq<Finding>, f: Finding)
    ensures Aggregate(fs) <= Aggregate(fs + [f])
  {
    if fs != [] {
      MoreParts(fs, f);
      SomeObjective(fs);
      hide MaxScore, Objectives, HasDataPath;
    }
  }

  /** Malicious exactly when something is shown to flow and it weighs enough. */
  lemma MaliciousIff(fs: seq<Finding>)
    ensures VerdictOf(Aggregate(fs)) == Malicious <==>
            fs != [] && HasDataPath(fs) && MaxScore(fs) + TECHNIQUE_BONUS * (|Objectives(fs)| - 1) as real >= MALICIOUS_THRESHOLD
  {
    if fs != [] {
      SomeObjective(fs);
    }
  }

  /** `worst` is the greatest score of a list, and `techniques` the number of its objectives. */
  ghost predicate Sums(fs: seq<Finding>, worst: real, techniques: nat) {
    && (exists f :: f in fs && f.score == worst) && (forall f :: f in fs ==> 0.0 <= f.score <= worst)
    && techniques == |set f | f in fs :: f.technique.objective|
  }

  lemma PartsAre(fs: seq<Finding>, worst: real, techniques: nat)
    requires Sums(fs, worst, techniques)
    ensures fs != [] && MaxScore(fs) == worst >= 0.0 && |Objectives(fs)| == techniques >= 1
  {
    MaxIsMax(fs);
    SomeObjective(fs);
    assert Objectives(fs) == set f | f in fs :: f.technique.objective;
    hide MaxScore;
  }

  /** The risk of a package, in numbers: the greatest score and a twentieth for each further objective,
      at most 1, and at most 0.65 unless some finding is a data path; none at all is no risk. */
  lemma AggregateIs(fs: seq<Finding>, worst: real, techniques: nat)
    requires fs != [] ==> Sums(fs, worst, techniques)
    ensures fs == [] ==> Aggregate(fs) == 0.0
    ensures fs != [] ==> Aggregate(fs) == Lesser(worst + 0.05 * (techniques - 1) as real, if exists f :: f in fs && f.path.kind == Data then 1.0 else 0.65)
  {
    if fs != [] {
      PartsAre(fs, worst, techniques);
      hide MaxScore, Objectives;
    }
  }

  /** The verdict, in numbers. */
  lemma VerdictIff(fs: seq<Finding>, worst: real, techniques: nat)
    requires fs != [] ==> Sums(fs, worst, techniques)
    ensures var weight := worst + 0.05 * (techniques - 1) as real;
            var verdict := VerdictOf(Aggregate(fs));
            && (verdict == Clean <==> fs == [] || weight < 0.40)
            && (verdict == Suspicious <==> fs != [] && 0.40 <= weight && ((forall f :: f in fs ==> f.path.kind == Control) || weight < 0.70))
            && (verdict == Malicious <==> fs != [] && 0.70 <= weight && exists f :: f in fs && f.path.kind == Data)
  {
    AggregateIs(fs, worst, techniques);
    hide Aggregate;
  }
}
