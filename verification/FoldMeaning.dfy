/** What foldable expressions mean, and where the folder reads them otherwise. */
module FoldMeaning {
  import opened Octets
  import opened Options
  import opened Decoders
  import opened Literals
  import opened Fold
  import opened Texts
  import PythonDecoders
  import PythonLiterals

  /** A text or a bytes object. */
  datatype Val = Str(points: seq<Scalar>) | Raw(bytes: Bytes)

  /** The bytes evidence shows for a value: a text is shown in UTF-8. */
  function Encoded(v: Val): Bytes {
    match v
    case Str(ps) => Utf8All(ps)
    case Raw(b) => b
  }

  // ---- integers ----

  /** The integer an operand is; `not` of one is a truth value, which counts as 0 or 1. */
  function TrueInt(e: Expr): Option<int>
    decreases e
  {
    match e
    case Int(v) => v
    case Unary(op, operands) =>
      if operands == [] then None
      else
        (match (op, TrueInt(operands[0]))
         case (_, None) => None
         case (Minus, Some(n)) => Some(-n)
         case (Plus, Some(n)) => Some(n)
         case (Invert, Some(n)) => Some(-n - 1)
         case (Not, Some(n)) => Some(if n == 0 then 1 else 0))
    case _ => None
  }

  /** How an operand's operators move it away from what it is read as: where `n` is read, it is
      `n + amount`, or `amount - n`, or `value` whatever `n`. */
  datatype Drift = Along(amount: int) | Against(amount: int) | Fixed(value: int)

  function DriftOf(e: Expr): Drift
    decreases e
  {
    match e
    case Unary(op, operands) =>
      if operands == [] then Along(0)
      else
        (match (op, DriftOf(operands[0]))
         case (Plus, d) => d
         case (Minus, Along(c)) => Along(-c)
         case (Minus, Against(c)) => Against(-c)
         case (Minus, Fixed(v)) => Fixed(-v)
         case (Invert, Along(c)) => Against(-c - 1)
         case (Invert, Against(c)) => Along(-c - 1)
         case (Invert, Fixed(v)) => Fixed(-v - 1)
         case (Not, _) => Fixed(if TrueInt(operands[0]) == Some(0) then 1 else 0))
    case _ => Along(0)
  }

  /** The operators cancel out: so they do when all are signs. */
  predicate ReadRight(e: Expr) {
    IntOf(e).Some? ==>
      match DriftOf(e)
      case Along(c) => c == 0
      case Against(c) => 2 * IntOf(e).value == c
      case Fixed(v) => IntOf(e).value == v
  }

  lemma {:induction false} Drifts(e: Expr)
    ensures IntOf(e).Some? <==> TrueInt(e).Some?
    ensures IntOf(e).Some? ==> TrueInt(e).value == match DriftOf(e)
                                                   case Along(c) => IntOf(e).value + c
                                                   case Against(c) => c - IntOf(e).value
                                                   case Fixed(v) => v
    decreases e
  {
    if e.Unary? && e.operands != [] {
      Drifts(e.operands[0]);
    }
  }

  /** An integer operand is read rightly exactly when its operators cancel out. */
  lemma OperandReadIff(e: Expr)
    requires IntOf(e).Some?
    ensures TrueInt(e).Some? && (IntOf(e) == TrueInt(e) <==> ReadRight(e))
  {
    Drifts(e);
    hide IntOf, TrueInt, DriftOf;
  }

  // ---- values ----

  function Empty(v: Val): Val {
    match v
    case Str(_) => Str([])
    case Raw(_) => Raw([])
  }

  function Appended(a: Val, b: Val): Option<Val> {
    match (a, b)
    case (Str(p), Str(q)) => Some(Str(p + q))
    case (Raw(p), Raw(q)) => Some(Raw(p + q))
    case _ => None
  }

  function Times(v: Val, n: nat): (r: Val)
    ensures v.Str? <==> r.Str?
  {
    if n == 0 then Empty(v) else Appended(v, Times(v, n - 1)).value
  }

  function LiteralMeaning(source: seq<Scalar>): Option<Val> {
    match PythonLiterals.Meaning(source)
    case None => None
    case Some(l) => Some(if l.isBytes then Raw(PythonLiterals.Shown(l.points, true)) else Str(l.points))
  }

  function AsRaw(b: Option<Bytes>): Option<Val> {
    if b.Some? then Some(Raw(b.value)) else None
  }

  /** A text must be ASCII to be decoded from Base64. */
  function FromBase64(v: Val, urlSafe: bool): Option<Val> {
    if v.Str? && !IsAscii(v.points) then None else AsRaw(PythonDecoders.PythonBase64(Encoded(v), urlSafe))
  }

  /** What Python's decoders make of a value; `None` where they raise. Only texts are read by
      `bytes.fromhex` and rotated. */
  function Decodes(d: Decoder, v: Val, encoding: Option<Val>): Option<Val> {
    match d
    case B64Decode => FromBase64(v, false)
    case A2bBase64 => FromBase64(v, false)
    case UrlsafeB64Decode => FromBase64(v, true)
    case B16Decode => AsRaw(PythonDecoders.FromBase16(Encoded(v)))
    case Unhexlify => AsRaw(PythonDecoders.Unhexlified(Encoded(v)))
    case FromHex => if v.Str? then AsRaw(PythonDecoders.FromHexText(Encoded(v))) else None
    case CodecsDecode =>
      if v.Str? && encoding.Some? && encoding.value.Str? && (Encoded(encoding.value) == ROT13 || Encoded(encoding.value) == ROT_13)
      then Some(Str(RotatedAll(v.points))) else None
  }

  /** Where the folder's decoders agree: Base64 is padded rightly; hexadecimal digits stand together,
      upper-case ones for `b16decode`, and whitespace at most between pairs for `bytes.fromhex`; what
      is rotated is a text, and so is the codec's name. */
  predicate DecoderSuits(d: Decoder, v: Val, encoding: Option<Val>) {
    match d
    case B64Decode => PythonDecoders.PaddedRight(Encoded(v), 0, 0)
    case A2bBase64 => PythonDecoders.PaddedRight(Encoded(v), 0, 0)
    case UrlsafeB64Decode => PythonDecoders.PaddedRight(Encoded(v), 0, 0)
    case B16Decode => !PythonDecoders.HasSpace(Encoded(v)) && PythonDecoders.IsUpper(Encoded(v))
    case Unhexlify => !PythonDecoders.HasSpace(Encoded(v))
    case FromHex => v.Str? && PythonDecoders.PairsWhole(Encoded(v))
    case CodecsDecode => v.Str? && encoding.Some? && encoding.value.Str?
  }

  /** The text a codec has these bytes for. */
  ghost function TextOf(codec: Codec, b: Bytes): Option<Val> {
    if exists ps :: CodecBytes(codec, ps) == Some(b) then (var ps :| CodecBytes(codec, ps) == Some(b); Some(Str(ps))) else None
  }

  /** What an expression is in Python, in characters; `None` where it is no text or bytes object. */
  ghost function Meaning(e: Expr): Option<Val>
    decreases e, 1
  {
    match e
    case Text(source) => LiteralMeaning(source)
    case Int(_) => None
    case Unary(_, _) => None
    case Display(_) => None
    case Wrapper(es) => if |es| == 1 then Meaning(es[0]) else None
    case Binary(op, l, r) =>
      (match op
       case Add =>
         (match (Meaning(l), Meaning(r))
          case (Some(a), Some(b)) => Appended(a, b)
          case _ => None)
       case Repeat =>
         var count := if TrueInt(r).Some? then TrueInt(r) else TrueInt(l);
         var v := if TrueInt(r).Some? then Meaning(l) else Meaning(r);
         if count.None? || v.None? then None else Some(Times(v.value, Positive(count.value)))
       case OtherOp => None)
    case Subscript(reversal, base) =>
      var v := Meaning(base);
      if !reversal || v.None? then None else Some(Turned(v.value))
    case CallOf(_, _, _) => CallMeaning(e)
  }

  function Positive(n: int): nat {
    if n < 0 then 0 else n
  }

  function Turned(v: Val): Val {
    match v
    case Str(ps) => Str(Flipped(ps))
    case Raw(b) => Raw(Backwards(b))
  }

  ghost function CallMeaning(e: Expr): Option<Val>
    requires e.CallOf?
    decreases e, 0
  {
    match e.callee
    case Chr =>
      if e.args == [] then None
      else
        var code := TrueInt(e.args[0]);
        if code.Some? && Utf8(code.value).Some? then Some(Str([code.value])) else None
    case Reversed => None
    case Join =>
      if e.receiver.None? || e.args == [] then None
      else
        var sep, sequence := Meaning(e.receiver.value), e.args[0];
        if sep.Some? && sequence.Display? then JoinMeaning(sep.value, sequence.items) else None
    case BytesDecode(codec) =>
      if e.receiver.None? then None
      else
        var v := Meaning(e.receiver.value);
        if v.Some? && v.value.Raw? then TextOf(codec, v.value.bytes) else None
    case StrEncode(codec) =>
      if e.receiver.None? then None
      else
        var v := Meaning(e.receiver.value);
        if v.Some? && v.value.Str? && CodecBytes(codec, v.value.points).Some? then Some(Raw(CodecBytes(codec, v.value.points).value)) else None
    case Decode(d) =>
      if e.args == [] then None
      else
        var v := Meaning(e.args[0]);
        if v.Some? then Decodes(d, v.value, EncodingOf(d, e.args)) else None
    case Unfolded(_) => None
  }

  ghost function EncodingOf(d: Decoder, args: seq<Expr>): Option<Val>
    decreases args, 0
  {
    if d.CodecsDecode? && |args| > 1 then Meaning(args[1]) else None
  }

  ghost function JoinMeaning(sep: Val, items: seq<Expr>): (r: Option<Val>)
    decreases items, 0
  {
    if items == [] then Some(Empty(sep))
    else
      match (JoinMeaning(sep, items[..|items| - 1]), Meaning(items[|items| - 1]))
      case (Some(before), Some(item)) =>
        var head := if |items| == 1 then Some(before) else Appended(before, sep);
        if head.Some? then Appended(head.value, item) else None
      case _ => None
  }

  // ---- what the folder reads as it is ----

  /** Nothing in the expression is read otherwise than it is: literals as Python reads them, integer
      operands' operators cancel out, decoders meet values that suit them, only ASCII texts are
      reversed, and codecs other than UTF-8 meet ASCII texts only. */
  ghost predicate AsWritten(e: Expr)
    decreases e
  {
    match e
    case Text(source) => PythonLiterals.ReadAsMeant(source)
    case Int(_) => true
    case Unary(_, _) => true
    case Display(es) => AllAsWritten(es)
    case Wrapper(es) => AllAsWritten(es)
    case Binary(op, l, r) => AsWritten(l) && AsWritten(r) && (op.Repeat? ==> ReadRight(l) && ReadRight(r))
    case Subscript(_, base) => AsWritten(base) && (Meaning(base).Some? && Meaning(base).value.Str? ==> IsAscii(Meaning(base).value.points))
    case CallOf(callee, receiver, args) =>
      && (receiver.Some? ==> AsWritten(receiver.value)) && AllAsWritten(args)
      && match callee
         case Chr => args != [] ==> ReadRight(args[0])
         case BytesDecode(codec) => CodecSuits(codec, Meaning(e))
         case StrEncode(codec) => receiver.Some? ==> CodecSuits(codec, Meaning(receiver.value))
         case Decode(d) => args != [] && Meaning(args[0]).Some? ==> DecoderSuits(d, Meaning(args[0]).value, EncodingOf(d, args))
         case _ => true
  }

  ghost predicate AllAsWritten(es: seq<Expr>)
    decreases es
  {
    es != [] ==> AllAsWritten(es[..|es| - 1]) && AsWritten(es[|es| - 1])
  }

  predicate CodecSuits(codec: Codec, text: Option<Val>) {
    text.Some? && text.value.Str? ==> codec.Utf8Codec? || codec.AsciiCodec? || (codec.Latin1Codec? && IsAscii(text.value.points))
  }

  lemma {:induction false} WrittenAt(es: seq<Expr>, i: nat)
    requires AllAsWritten(es) && i < |es|
    ensures AsWritten(es[i])
  {
    if i < |es| - 1 {
      WrittenAt(es[..|es| - 1], i);
    }
  }

  // ---- one node ----

  lemma AppendedBytes(a: Val, b: Val)
    requires Appended(a, b).Some?
    ensures Encoded(Appended(a, b).value) == Encoded(a) + Encoded(b)
  {
    if a.Str? && b.Str? {
      Utf8Concat(a.points, b.points);
    }
    hide Utf8All;
  }

  lemma {:induction false} TimesBytes(v: Val, n: nat)
    ensures Encoded(Times(v, n)) == Repeated(Encoded(v), n)
  {
    if n > 0 {
      TimesBytes(v, n - 1);
      AppendedBytes(v, Times(v, n - 1));
      hide Utf8All, Encoded;
    }
  }

  /** Reversing the bytes of a value is right exactly unless it is a text with a character of several. */
  lemma TurnedIff(v: Val)
    ensures Backwards(Encoded(v)) == Encoded(Turned(v)) <==> (v.Str? ==> IsAscii(v.points))
  {
    if v.Str? {
      FlipIff(v.points);
    }
    hide Utf8All, Backwards, Flipped, IsAscii;
  }

  lemma {:induction false} RepeatedNotSame(b: Bytes, m: nat, n: nat)
    ensures Repeated(b, m) == Repeated(b, n) <==> b == [] || m == n
  {
    RepeatedNone(m);
    RepeatedNone(n);
    assert |Repeated(b, m)| == |b| * m && |Repeated(b, n)| == |b| * n;
    hide Repeated;
    if b != [] && m != n {
      TimesApart(|b|, m, n);
    }
  }

  lemma TimesApart(k: nat, m: nat, n: nat)
    requires k > 0 && m != n
    ensures k * m != k * n
  {
    assert k * m - k * n == k * (m - n);
  }

  lemma {:induction false} RepeatedNone(n: nat)
    ensures Repeated([], n) == []
  {
    if n > 0 {
      RepeatedNone(n - 1);
    }
  }

  /** The count of a repetition, and what is repeated. */
  function CountOf(e: Expr): Expr
    requires e.Binary?
  {
    if IntOf(e.right).Some? then e.right else e.left
  }

  function RepeatedOf(e: Expr): Expr
    requires e.Binary?
  {
    if IntOf(e.right).Some? then e.left else e.right
  }

  /** A repetition of something folded rightly is folded rightly exactly when the count's operators
      cancel out, or nothing is repeated, or nothing is left of it either way. */
  lemma RepeatRightIff(e: Expr)
    requires e.Binary? && e.operator.Repeat? && Value(e).Some? && Meaning(e).Some? && Meaning(RepeatedOf(e)).Some?
    requires Value(RepeatedOf(e)) == Some(Encoded(Meaning(RepeatedOf(e)).value))
    ensures Value(e).value == Encoded(Meaning(e).value) <==>
            ReadRight(CountOf(e)) || Value(RepeatedOf(e)) == Some([]) || (IntOf(CountOf(e)) == Some(0) && TrueInt(CountOf(e)).Some? && TrueInt(CountOf(e)).value < 0)
  {
    Drifts(e.left);
    Drifts(e.right);
    var count, base := CountOf(e), RepeatedOf(e);
    OperandReadIff(count);
    var v, n, t := Meaning(base).value, IntOf(count).value, TrueInt(count).value;
    assert Value(e).value == Repeated(Encoded(v), n) && Meaning(e).value == Times(v, Positive(t));
    TimesBytes(v, Positive(t));
    RepeatedNotSame(Encoded(v), n, Positive(t));
    hide *;
    assert Positive(t) == if t < 0 then 0 else t by {
      PositiveIs(t);
    }
  }

  lemma PositiveIs(n: int)
    ensures Positive(n) == if n < 0 then 0 else n
  {
  }

  lemma Utf8Apart(m: int, n: int)
    requires Utf8(m).Some? && Utf8(n).Some? && m != n
    ensures Utf8(m) != Utf8(n)
  {
    var a, b := Utf8(m).value, Utf8(n).value;
    if |a| == |b| {
      if |a| == 2 {
        assert m / 0x40 * 0x40 + m % 0x40 == m && n / 0x40 * 0x40 + n % 0x40 == n;
      } else if |a| == 3 {
        ThreeParts(m);
        ThreeParts(n);
      } else if |a| == 4 {
        FourParts(m);
        FourParts(n);
      }
    }
  }

  lemma ThreeParts(m: int)
    ensures m == m / 0x1000 * 0x1000 + m / 0x40 % 0x40 * 0x40 + m % 0x40
  {
    assert m / 0x40 == m / 0x1000 * 0x40 + m / 0x40 % 0x40;
  }

  lemma FourParts(m: int)
    ensures m == m / 0x4_0000 * 0x4_0000 + m / 0x1000 % 0x40 * 0x1000 + m / 0x40 % 0x40 * 0x40 + m % 0x40
  {
    assert m / 0x1000 == m / 0x4_0000 * 0x40 + m / 0x1000 % 0x40;
    ThreeParts(m);
  }

  /** A character by number is folded rightly exactly when the number's operators cancel out. */
  lemma ChrRightIff(e: Expr)
    requires e.CallOf? && e.callee.Chr? && e.args != [] && Value(e).Some? && Meaning(e).Some?
    ensures Value(e).value == Encoded(Meaning(e).value) <==> ReadRight(e.args[0])
  {
    var operand := e.args[0];
    OperandReadIff(operand);
    var n, t := IntOf(operand).value, TrueInt(operand).value;
    assert Value(e) == Utf8(n) && Meaning(e) == Some(Str([t]));
    OnePoint(t);
    if n != t {
      Utf8Apart(n, t);
    }
    hide *;
  }

  lemma OnePoint(c: Scalar)
    ensures Encoded(Str([c])) == Utf8Of(c) && Utf8(c) == Some(Utf8Of(c))
  {
    var ps: seq<Scalar> := [c];
    assert ps[..0] == [] && ps[0] == c;
    assert Utf8All(ps) == Utf8All(ps[..0]) + Utf8Of(c);
    hide Utf8Of;
  }

  /** A literal is folded rightly exactly when it is one literal without a carriage return that, unless
      raw, has no `\0` before an octal digit and in a text no escaped byte above 0x7F. */
  lemma LiteralRightIff(source: seq<Scalar>)
    requires LiteralBytes(source).Some? && LiteralMeaning(source).Some?
    ensures LiteralBytes(source).value == Encoded(LiteralMeaning(source).value) <==> PythonLiterals.ReadAsMeant(source)
  {
    PythonLiterals.LiteralReadIff(source);
    var l := PythonLiterals.Meaning(source).value;
    if !l.isBytes {
      PythonLiterals.ShownText(l.points);
    }
    hide *;
    MeantIs(source);
  }

  lemma MeantIs(source: seq<Scalar>)
    requires PythonLiterals.Meaning(source).Some?
    ensures var l := PythonLiterals.Meaning(source).value;
            LiteralMeaning(source) == Some(if l.isBytes then Raw(PythonLiterals.Shown(l.points, true)) else Str(l.points))
            && Encoded(LiteralMeaning(source).value) == if l.isBytes then PythonLiterals.Shown(l.points, true) else Utf8All(l.points)
  {
  }

  /** A literal's bytes, taken for the text they are in a codec, are folded rightly exactly when the
      codec suits the text. */
  lemma TextOfIff(codec: Codec, b: Bytes)
    requires TextOf(codec, b).Some?
    ensures b == Encoded(TextOf(codec, b).value) <==> CodecSuits(codec, TextOf(codec, b))
  {
    var v := TextOf(codec, b).value;
    assert CodecBytes(codec, v.points) == Some(b);
    CodecIff(codec, v.points);
    hide CodecBytes, Utf8All, IsAscii;
  }

  function ShownEncoding(encoding: Option<Val>): Option<Bytes> {
    if encoding.Some? then Some(Encoded(encoding.value)) else None
  }

  /** A value that the folder decodes is decoded rightly exactly where it suits the decoder. */
  lemma DecodeRightIff(d: Decoder, v: Val, encoding: Option<Val>)
    requires Decoded(d, Encoded(v), ShownEncoding(encoding)).Some?
    ensures var folded, meant := Decoded(d, Encoded(v), ShownEncoding(encoding)).value, Decodes(d, v, encoding);
            meant.Some? && folded == Encoded(meant.value) <==> DecoderSuits(d, v, encoding)
  {
    hide AnyBase64, HexDecode, Utf8All, FromBase64, PythonDecoders.Unhexlified, PythonDecoders.FromBase16, PythonDecoders.FromHexText,
         PythonDecoders.HasSpace, PythonDecoders.IsUpper, PythonDecoders.PairsWhole, PythonDecoders.PaddedRight;
    match d
    case B64Decode => Base64RightIff(v, false);
    case A2bBase64 => Base64RightIff(v, false);
    case UrlsafeB64Decode => Base64RightIff(v, true);
    case B16Decode => HexRightIff(d, v);
    case Unhexlify => HexRightIff(d, v);
    case FromHex => HexRightIff(d, v);
    case CodecsDecode =>
      if v.Str? {
        Rot13Texts(v.points);
      }
      hide Rot13, RotatedAll;
  }

  lemma HexRightIff(d: Decoder, v: Val)
    requires (d.B16Decode? || d.Unhexlify? || d.FromHex?) && HexDecode(Encoded(v)).Some?
    ensures var folded, meant := HexDecode(Encoded(v)).value, Decodes(d, v, None);
            meant.Some? && folded == Encoded(meant.value) <==> DecoderSuits(d, v, None)
  {
    PythonDecoders.Base16Iff(Encoded(v));
    PythonDecoders.UnhexlifyIff(Encoded(v));
    PythonDecoders.FromHexIff(Encoded(v));
    hide HexDecode, PythonDecoders.Unhexlified, PythonDecoders.FromBase16, PythonDecoders.FromHexText, PythonDecoders.HasSpace,
         PythonDecoders.IsUpper, PythonDecoders.PairsWhole, Utf8All;
  }

  lemma Base64RightIff(v: Val, urlSafe: bool)
    requires AnyBase64(Encoded(v), urlSafe).Some?
    ensures FromBase64(v, urlSafe).Some? && AnyBase64(Encoded(v), urlSafe).value == Encoded(FromBase64(v, urlSafe).value)
            <==> PythonDecoders.PaddedRight(Encoded(v), 0, 0)
  {
    PythonDecoders.Base64Iff(Encoded(v), urlSafe);
    if v.Str? {
      PythonDecoders.DecodedIsAscii(Encoded(v), urlSafe);
      AsciiBytes(v.points);
    }
    hide AnyBase64, IsAscii, Utf8All;
  }

  lemma {:induction false} AsciiBytes(ps: seq<Scalar>)
    requires forall k :: 0 <= k < |Utf8All(ps)| ==> Utf8All(ps)[k] < 0x80
    ensures IsAscii(ps)
  {
    if ps != [] {
      var init, c := ps[..|ps| - 1], ps[|ps| - 1];
      assert Utf8All(ps) == Utf8All(init) + Utf8Of(c);
      hide Utf8All;
      assert forall k :: 0 <= k < |Utf8All(init)| ==> Utf8All(ps)[k] == Utf8All(init)[k];
      AsciiBytes(init);
      assert Utf8All(ps)[|Utf8All(init)|] == Utf8Of(c)[0];
      assert c < 0x80;
    }
  }

  // ---- the theorem ----

  /** Where every node is read as it is written, what an expression is folded to is what it means. */
  lemma {:induction false} FoldMeans(e: Expr)
    requires AsWritten(e) && Meaning(e).Some? && Value(e).Some?
    ensures Value(e).value == Encoded(Meaning(e).value)
    decreases e, 2
  {
    hide LiteralMeaning, LiteralBytes, Encoded, ReadRight, Appended, Times, Turned, IntOf, TrueInt, Repeated, Backwards, IsAscii, CallMeaning, CallValue;
    match e
    case Text(source) => LiteralRightIff(source);
    case Int(_) =>
    case Unary(_, _) =>
    case Display(_) =>
    case Wrapper(es) =>
      WrittenAt(es, 0);
      FoldMeans(es[0]);
    case Binary(op, l, r) =>
      if op.Add? {
        FoldMeans(l);
        FoldMeans(r);
        AppendedBytes(Meaning(l).value, Meaning(r).value);
      } else {
        RepeatMeans(e);
      }
    case Subscript(_, base) =>
      FoldMeans(base);
      TurnedIff(Meaning(base).value);
    case CallOf(_, _, _) => CallMeans(e);
  }

  lemma {:induction false} RepeatMeans(e: Expr)
    requires e.Binary? && e.operator.Repeat? && AsWritten(e) && Meaning(e).Some? && Value(e).Some?
    ensures Value(e).value == Encoded(Meaning(e).value)
    decreases e, 1
  {
    Drifts(e.left);
    Drifts(e.right);
    hide IntOf, TrueInt, ReadRight, Repeated, Times, Encoded;
    if IntOf(e.right).Some? {
      FoldMeans(e.left);
    } else {
      FoldMeans(e.right);
    }
    RepeatRightIff(e);
  }

  lemma {:induction false} CallMeans(e: Expr)
    requires e.CallOf? && AsWritten(e) && Meaning(e).Some? && Value(e).Some?
    ensures Value(e).value == Encoded(Meaning(e).value)
    decreases e, 1
  {
    CallUnfolds(e, 0, 0);
    assert Meaning(e) == CallMeaning(e);
    match e.callee
    case Chr => ChrRightIff(e);
    case Reversed =>
    case Join => JoinNodeMeans(e);
    case BytesDecode(codec) =>
      FoldMeans(e.receiver.value);
      TextOfIff(codec, Meaning(e.receiver.value).value.bytes);
    case StrEncode(codec) =>
      FoldMeans(e.receiver.value);
      CodecIff(codec, Meaning(e.receiver.value).value.points);
    case Decode(d) => DecodeMeans(e);
    case Unfolded(_) =>
  }

  lemma {:induction false} JoinNodeMeans(e: Expr)
    requires e.CallOf? && e.callee.Join? && AsWritten(e) && CallMeaning(e).Some? && CallValue(e).Some?
    ensures CallValue(e).value == Encoded(CallMeaning(e).value)
    decreases e, 0
  {
    hide JoinMeaning, JoinValue, Encoded, Meaning, Value;
    FoldMeans(e.receiver.value);
    WrittenAt(e.args, 0);
    var sequence := e.args[0];
    JoinMeans(Meaning(e.receiver.value).value, sequence);
  }

  lemma {:induction false} JoinMeans(sep: Val, sequence: Expr)
    requires sequence.Display? && AsWritten(sequence)
    requires JoinMeaning(sep, sequence.items).Some? && JoinValue(Encoded(sep), sequence.items).Some?
    ensures JoinValue(Encoded(sep), sequence.items).value == Encoded(JoinMeaning(sep, sequence.items).value)
    decreases sequence, 0
  {
    ItemsMean(sep, sequence.items);
  }

  lemma {:induction false} ItemsMean(sep: Val, items: seq<Expr>)
    requires AllAsWritten(items) && JoinMeaning(sep, items).Some? && JoinValue(Encoded(sep), items).Some?
    ensures JoinValue(Encoded(sep), items).value == Encoded(JoinMeaning(sep, items).value)
    decreases items, 0
  {
    if items == [] {
      hide Utf8All;
      EmptyBytes(sep);
    } else {
      hide Value, Meaning, Encoded, Appended, AsWritten;
      var init, last := items[..|items| - 1], items[|items| - 1];
      ItemsMean(sep, init);
      FoldMeans(last);
      var before, item := JoinMeaning(sep, init).value, Meaning(last).value;
      if |items| > 1 {
        AppendedBytes(before, sep);
        AppendedBytes(Appended(before, sep).value, item);
      } else {
        AppendedBytes(before, item);
      }
    }
  }

  lemma EmptyBytes(v: Val)
    ensures Encoded(Empty(v)) == []
  {
  }

  lemma {:induction false} DecodeMeans(e: Expr)
    requires e.CallOf? && e.callee.Decode? && AsWritten(e) && CallMeaning(e).Some? && CallValue(e).Some?
    ensures CallValue(e).value == Encoded(CallMeaning(e).value)
    decreases e, 0
  {
    hide Decodes, Decoded, DecoderSuits, Encoded, Meaning, Value;
    var d := e.callee.decoder;
    WrittenAt(e.args, 0);
    FoldMeans(e.args[0]);
    var v, encoding := Meaning(e.args[0]).value, EncodingOf(d, e.args);
    NeedsEncoding(d, v, encoding);
    if encoding.Some? {
      WrittenAt(e.args, 1);
      FoldEncoding(e);
    }
    DecodeRightIff(d, v, encoding);
  }

  lemma NeedsEncoding(d: Decoder, v: Val, encoding: Option<Val>)
    requires Decodes(d, v, encoding).Some?
    ensures d.CodecsDecode? ==> encoding.Some?
  {
  }

  lemma {:induction false} FoldEncoding(e: Expr)
    requires e.CallOf? && e.callee == Callee.Decode(CodecsDecode) && |e.args| > 1 && AsWritten(e.args[1]) && Meaning(e.args[1]).Some?
    requires CallValue(e).Some?
    ensures Value(e.args[1]) == Some(Encoded(Meaning(e.args[1]).value))
    decreases e.args[1], 3
  {
    hide Encoded;
    FoldMeans(e.args[1]);
  }
}
