/** Chains of decoders: the list a fold gives is a recipe that can be followed again. */
module FoldChains {
  import opened Octets
  import opened Options
  import opened Decoders
  import opened Literals
  import opened Fold

  /** One decoder call around another, and so on down to a literal; a rotation names its codec with one. */
  predicate IsChain(e: Expr)
    decreases e
  {
    match e
    case Text(_) => true
    case Wrapper(es) => |es| == 1 && IsChain(es[0])
    case CallOf(Decode(d), _, args) => args != [] && IsChain(args[0]) && (d.CodecsDecode? ==> |args| > 1 && args[1].Text?)
    case _ => false
  }

  /** The bytes of the literal inside. */
  function Innermost(e: Expr): Option<Bytes>
    requires IsChain(e)
    decreases e
  {
    match e
    case Text(source) => LiteralBytes(source)
    case Wrapper(es) => Innermost(es[0])
    case CallOf(_, _, args) => Innermost(args[0])
  }

  /** What one decoder makes of bytes. */
  function Step(d: Decoder, b: Bytes): Option<Bytes> {
    match d
    case B64Decode => AnyBase64(b, false)
    case A2bBase64 => AnyBase64(b, false)
    case UrlsafeB64Decode => AnyBase64(b, true)
    case B16Decode => HexDecode(b)
    case Unhexlify => HexDecode(b)
    case FromHex => HexDecode(b)
    case CodecsDecode => Some(Rot13(b))
  }

  /** Follows a list of decoders, from the first to the last. */
  function Followed(ds: seq<Decoder>, b: Option<Bytes>): Option<Bytes>
    decreases |ds|
  {
    if ds == [] || b.None? then b else Followed(ds[1..], Step(ds[0], b.value))
  }

  lemma {:induction false} FollowedThen(ds: seq<Decoder>, d: Decoder, b: Option<Bytes>)
    ensures Followed(ds + [d], b) == if Followed(ds, b).Some? then Step(d, Followed(ds, b).value) else None
    decreases |ds|
  {
    hide Step;
    if ds == [] {
      assert ([] + [d])[1..] == [] && ([] + [d])[0] == d;
    } else if b.Some? {
      assert (ds + [d])[1..] == ds[1..] + [d] && (ds + [d])[0] == ds[0];
      FollowedThen(ds[1..], d, Step(ds[0], b.value));
    }
  }

  /** A folded chain's list has as many decoders as it is deep, and following it from the bytes of the
      literal inside gives what the chain folds to. */
  lemma {:induction false} ChainReplays(e: Expr)
    requires IsChain(e) && Value(e).Some?
    ensures Followed(Transforms(e), Innermost(e)) == Value(e) && |Transforms(e)| == Nesting(e)
    decreases e
  {
    match e
    case Text(_) =>
    case Wrapper(es) => ChainReplays(es[0]);
    case CallOf(Decode(d), _, args) =>
      DecoderListed(e, d);
      DecoderValue(e, d);
      hide *;
      ChainReplays(args[0]);
      FollowedThen(Transforms(args[0]), d, Innermost(e));
  }

  /** A decoder is listed after those inside it. */
  lemma DecoderListed(e: Expr, d: Decoder)
    requires IsChain(e) && e.CallOf? && e.callee == Callee.Decode(d)
    ensures e.args != [] && IsChain(e.args[0]) && Innermost(e) == Innermost(e.args[0])
    ensures Transforms(e) == Transforms(e.args[0]) + [d] && Nesting(e) == Nesting(e.args[0]) + 1
  {
    if d.CodecsDecode? {
      assert Transforms(e.args[1]) == [] && Nesting(e.args[1]) == 0;
    }
    assert Transforms(e.args[0]) + [] == Transforms(e.args[0]);
  }

  lemma DecoderValue(e: Expr, d: Decoder)
    requires IsChain(e) && e.CallOf? && e.callee == Callee.Decode(d) && Value(e).Some?
    ensures e.args != [] && Value(e.args[0]).Some? && Value(e) == Step(d, Value(e.args[0]).value)
  {
    CallUnfolds(e, 0, 0);
    hide Value, Fits, AnyBase64, HexDecode, Rot13;
  }
}
