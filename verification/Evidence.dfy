/** Confidence, typed steps and paths: what a finding is made of. */
module Evidence {

  datatype Confidence = Dynamic | Ambiguous | Resolved {
    function Rank(): nat {
      match this
      case Dynamic => 0
      case Ambiguous => 1
      case Resolved => 2
    }
  }

  function MinConfidence(a: Confidence, b: Confidence): Confidence {
    if a.Rank() <= b.Rank() then a else b
  }

  datatype ReachabilityKind = Data | Control

  datatype PathStepKind = Source | Transfer | Transform | Call | Return | Sink

  datatype Location = Location(file: nat, path: string, start: nat, end: nat)

  datatype PathStep = PathStep(kind: PathStepKind, location: Location, symbol: string, detail: string)

  datatype ReachabilityPath = ReachabilityPath(
    kind: ReachabilityKind, steps: seq<PathStep>, confidence: Confidence, obfuscated: bool, conditional: bool)
  {
    /** Starts at a source, ends at a sink. */
    predicate WellFormed() {
      && |steps| > 0 && steps[0].kind == PathStepKind.Source
      && steps[|steps| - 1].kind == PathStepKind.Sink
    }
  }
}
