/** Bounded folding of literal-only expressions, against an evaluator without bounds. */
module Fold {
  import opened Octets
  import opened Options
  import opened Decoders
  import opened Literals

  const MAX_FOLD_DEPTH: nat := 8

  const MAX_EXPR_DEPTH: nat := 256

  datatype Decoder = B64Decode | A2bBase64 | UrlsafeB64Decode | B16Decode | Unhexlify | FromHex | CodecsDecode

  /** The codec a literal's `encode` or `decode` was given: UTF-8 when none was. */
  datatype Codec = Utf8Codec | AsciiCodec | Latin1Codec | Utf16Codec

  datatype Callee = Chr | Reversed | Join | BytesDecode(codec: Codec) | StrEncode(codec: Codec) | Decode(decoder: Decoder) | Unfolded(name: string)

  datatype UnaryOp = Minus | Plus | Invert | Not

  datatype BinaryOp = Add | Repeat | OtherOp

  /** `Text` holds a string literal as it stands in the source; `Int` the value of an integer literal,
      if it parses; `receiver` the value a method is called on. */
  datatype Expr =
    | Text(source: seq<Scalar>)
    | Int(value: Option<int>)
    | Unary(op: UnaryOp, operands: seq<Expr>)
    | Binary(operator: BinaryOp, left: Expr, right: Expr)
    | Subscript(reversal: bool, base: Expr)
    | CallOf(callee: Callee, receiver: Option<Expr>, args: seq<Expr>)
    | Display(items: seq<Expr>)
    | Wrapper(children: seq<Expr>)

  /** What a literal-only expression folded to, the decoders applied innermost first, and how deep. */
  datatype FoldedLiteral = FoldedLiteral(bytes: Bytes, transforms: seq<Decoder>, depth: nat)

  // ---- integers ----

  /** The integer a node is read as: any sign but a minus is passed over. */
  function IntOf(e: Expr): Option<int>
    decreases e
  {
    match e
    case Int(v) => v
    case Unary(op, operands) =>
      if operands == [] then None
      else
        var v := IntOf(operands[0]);
        if v.None? then None else if op.Minus? then Some(-v.value) else v
    case _ => None
  }

  // ---- values without bounds ----

  function Backwards(b: Bytes): (r: Bytes)
    ensures |r| == |b|
  {
    if b == [] then [] else Backwards(b[1..]) + [b[0]]
  }

  function Repeated(b: Bytes, n: nat): (r: Bytes)
    ensures |r| == |b| * n
  {
    if n == 0 then [] else b + Repeated(b, n - 1)
  }

  const ROT13: Bytes := [114, 111, 116, 49, 51]

  const ROT_13: Bytes := [114, 111, 116, 95, 49, 51]

  function Decoded(d: Decoder, input: Bytes, encoding: Option<Bytes>): Option<Bytes> {
    match d
    case B64Decode => AnyBase64(input, false)
    case A2bBase64 => AnyBase64(input, false)
    case UrlsafeB64Decode => AnyBase64(input, true)
    case B16Decode => HexDecode(input)
    case Unhexlify => HexDecode(input)
    case FromHex => HexDecode(input)
    case CodecsDecode => if encoding == Some(ROT13) || encoding == Some(ROT_13) then Some(Rot13(input)) else None
  }

  function Joined(sep: Bytes, before: Bytes, first: bool, item: Bytes): Bytes {
    if first then before + item else before + sep + item
  }

  /** The bytes an expression stands for, whatever its size and depth. */
  function Value(e: Expr): Option<Bytes>
    decreases e, 1
  {
    match e
    case Text(source) => LiteralBytes(source)
    case Int(_) => None
    case Unary(_, es) => if |es| == 1 then Value(es[0]) else None
    case Display(es) => if |es| == 1 then Value(es[0]) else None
    case Wrapper(es) => if |es| == 1 then Value(es[0]) else None
    case Binary(op, l, r) =>
      (match op
       case Add =>
         (match (Value(l), Value(r))
          case (Some(a), Some(b)) => Some(a + b)
          case _ => None)
       case Repeat =>
         var count := if IntOf(r).Some? then IntOf(r) else IntOf(l);
         var bytes := if IntOf(r).Some? then Value(l) else Value(r);
         if count.None? || bytes.None? then None
         else if count.value >= 0 then Some(Repeated(bytes.value, count.value))
         else None
       case OtherOp => None)
    case Subscript(reversal, base) =>
      if !reversal then None
      else
        var b := Value(base);
        if b.Some? then Some(Backwards(b.value)) else None
    case CallOf(_, _, _) => CallValue(e)
  }

  function CallValue(e: Expr): Option<Bytes>
    requires e.CallOf?
    decreases e, 0
  {
    match e.callee
    case Chr =>
      if e.args == [] then None
      else
        var code := IntOf(e.args[0]);
        if code.Some? then Utf8(code.value) else None
    case Reversed =>
      if e.args == [] then None
      else
        var b := Value(e.args[0]);
        if b.Some? then Some(Backwards(b.value)) else None
    case Join =>
      if e.receiver.None? || e.args == [] then None
      else
        var sep, sequence := Value(e.receiver.value), e.args[0];
        if sep.Some? && sequence.Display? then JoinValue(sep.value, sequence.items) else None
    case BytesDecode(_) => if e.receiver.Some? then Value(e.receiver.value) else None
    case StrEncode(_) => if e.receiver.Some? then Value(e.receiver.value) else None
    case Decode(d) =>
      if e.args == [] then None
      else
        var input := Value(e.args[0]);
        var encoding := if d.CodecsDecode? && |e.args| > 1 then Value(e.args[1]) else None;
        if input.Some? then Decoded(d, input.value, encoding) else None
    case Unfolded(_) => None
  }

  function JoinValue(sep: Bytes, items: seq<Expr>): Option<Bytes>
    decreases items, 0
  {
    if items == [] then Some([])
    else
      match (JoinValue(sep, items[..|items| - 1]), Value(items[|items| - 1]))
      case (Some(before), Some(item)) => Some(Joined(sep, before, |items| == 1, item))
      case _ => None
  }

  // ---- the bounds ----

  predicate Small(b: Option<Bytes>) {
    b.Some? ==> |b.value| <= MAX_FOLD_BYTES
  }

  /** Nothing in the expression is nested, decoded or sized beyond the bounds. */
  predicate Fits(e: Expr, exprDepth: nat, decodeDepth: nat)
    decreases e, 1
  {
    && exprDepth <= MAX_EXPR_DEPTH && decodeDepth <= MAX_FOLD_DEPTH
    && match e
       case Text(_) => true
       case Int(_) => true
       case Unary(_, es) => |es| == 1 ==> Fits(es[0], exprDepth + 1, decodeDepth)
       case Display(es) => |es| == 1 ==> Fits(es[0], exprDepth + 1, decodeDepth)
       case Wrapper(es) => |es| == 1 ==> Fits(es[0], exprDepth + 1, decodeDepth)
       case Binary(op, l, r) =>
         (match op
          case Add => Fits(l, exprDepth + 1, decodeDepth) && Fits(r, exprDepth + 1, decodeDepth) && Small(Value(e))
          case Repeat =>
            (if IntOf(r).Some? then Fits(l, exprDepth + 1, decodeDepth) else Fits(r, exprDepth + 1, decodeDepth)) && Small(Value(e))
          case OtherOp => true)
       case Subscript(reversal, base) => reversal ==> Fits(base, exprDepth + 1, decodeDepth)
       case CallOf(_, _, _) => CallFits(e, exprDepth, decodeDepth)
  }

  predicate CallFits(e: Expr, exprDepth: nat, decodeDepth: nat)
    requires e.CallOf?
    decreases e, 0
  {
    match e.callee
    case Chr => true
    case Reversed => e.args != [] ==> Fits(e.args[0], exprDepth + 1, decodeDepth)
    case Join =>
      && (e.receiver.Some? ==> Fits(e.receiver.value, exprDepth + 1, decodeDepth))
      && (e.args != [] && e.args[0].Display? ==> AllFit(e.args[0].items, exprDepth + 1, decodeDepth))
      && (e.args != [] && e.args[0].Display? && e.args[0].items != [] ==> Small(Value(e)))
    case BytesDecode(_) => e.receiver.Some? ==> Fits(e.receiver.value, exprDepth + 1, decodeDepth)
    case StrEncode(_) => e.receiver.Some? ==> Fits(e.receiver.value, exprDepth + 1, decodeDepth)
    case Decode(d) =>
      && decodeDepth < MAX_FOLD_DEPTH
      && (e.args != [] ==> Fits(e.args[0], exprDepth + 1, decodeDepth + 1) && Guarded(d, Value(e.args[0])))
      && (d.CodecsDecode? && |e.args| > 1 ==> Fits(e.args[1], exprDepth + 1, decodeDepth + 1))
      && Small(Value(e))
    case Unfolded(_) => true
  }

  predicate AllFit(es: seq<Expr>, exprDepth: nat, decodeDepth: nat)
    decreases es
  {
    es != [] ==> AllFit(es[..|es| - 1], exprDepth, decodeDepth) && Fits(es[|es| - 1], exprDepth, decodeDepth)
  }

  /** Base64 is refused before decoding when its text is too long. */
  predicate Guarded(d: Decoder, input: Option<Bytes>) {
    (d.B64Decode? || d.A2bBase64? || d.UrlsafeB64Decode?) && input.Some? ==> |Symbols(input.value)| / 4 * 3 <= MAX_FOLD_BYTES
  }

  /** What the folder gives. */
  function Result(e: Expr, exprDepth: nat, decodeDepth: nat): Option<Bytes> {
    if Fits(e, exprDepth, decodeDepth) then Value(e) else None
  }

  // ---- the decoders met ----

  /** In the order they are applied: a decoder after everything its arguments need. */
  function Transforms(e: Expr): seq<Decoder>
    decreases e, 0
  {
    match e
    case Text(_) => []
    case Int(_) => []
    case Unary(_, es) => if |es| == 1 then Transforms(es[0]) else []
    case Display(es) => if |es| == 1 then Transforms(es[0]) else []
    case Wrapper(es) => if |es| == 1 then Transforms(es[0]) else []
    case Binary(op, l, r) =>
      (match op
       case Add => Transforms(l) + Transforms(r)
       case Repeat => if IntOf(r).Some? then Transforms(l) else Transforms(r)
       case OtherOp => [])
    case Subscript(_, base) => Transforms(base)
    case CallOf(callee, receiver, args) =>
      var first := if args == [] then [] else Transforms(args[0]);
      match callee
      case Chr => []
      case Reversed => first
      case Join =>
        (if receiver.Some? then Transforms(receiver.value) else [])
        + (if args != [] && args[0].Display? then DisplayTransforms(args[0]) else [])
      case BytesDecode(_) => if receiver.Some? then Transforms(receiver.value) else []
      case StrEncode(_) => if receiver.Some? then Transforms(receiver.value) else []
      case Decode(d) => first + (if d.CodecsDecode? && |args| > 1 then Transforms(args[1]) else []) + [d]
      case Unfolded(_) => []
  }

  function DisplayTransforms(e: Expr): seq<Decoder>
    requires e.Display?
    decreases e, 1
  {
    AllTransforms(e.items)
  }

  function AllTransforms(es: seq<Expr>): seq<Decoder>
    decreases es, 0
  {
    if es == [] then [] else AllTransforms(es[..|es| - 1]) + Transforms(es[|es| - 1])
  }

  function Max(a: nat, b: nat): nat {
    if a < b then b else a
  }

  /** The deepest nesting of decoder calls. */
  function Nesting(e: Expr): nat
    decreases e, 0
  {
    match e
    case Text(_) => 0
    case Int(_) => 0
    case Unary(_, es) => if |es| == 1 then Nesting(es[0]) else 0
    case Display(es) => if |es| == 1 then Nesting(es[0]) else 0
    case Wrapper(es) => if |es| == 1 then Nesting(es[0]) else 0
    case Binary(op, l, r) =>
      (match op
       case Add => Max(Nesting(l), Nesting(r))
       case Repeat => if IntOf(r).Some? then Nesting(l) else Nesting(r)
       case OtherOp => 0)
    case Subscript(_, base) => Nesting(base)
    case CallOf(callee, receiver, args) =>
      var first := if args == [] then 0 else Nesting(args[0]);
      match callee
      case Chr => 0
      case Reversed => first
      case Join =>
        Max(if receiver.Some? then Nesting(receiver.value) else 0, if args != [] && args[0].Display? then DisplayNesting(args[0]) else 0)
      case BytesDecode(_) => if receiver.Some? then Nesting(receiver.value) else 0
      case StrEncode(_) => if receiver.Some? then Nesting(receiver.value) else 0
      case Decode(d) => 1 + Max(first, if d.CodecsDecode? && |args| > 1 then Nesting(args[1]) else 0)
      case Unfolded(_) => 0
  }

  function DisplayNesting(e: Expr): nat
    requires e.Display?
    decreases e, 1
  {
    AllNesting(e.items)
  }

  function AllNesting(es: seq<Expr>): nat
    decreases es, 0
  {
    if es == [] then 0 else Max(AllNesting(es[..|es| - 1]), Nesting(es[|es| - 1]))
  }

  // ---- the folder ----

  /** Depth is charged where decoders are nested: `deepest` grows to where the last decoder stood. */
  function Deeper(deepest: nat, decodeDepth: nat, nesting: nat): nat {
    if nesting == 0 then deepest else Max(deepest, decodeDepth + nesting)
  }

  class Folder {
    var transforms: seq<Decoder>
    var maxDecodeDepth: nat

    constructor ()
      ensures transforms == [] && maxDecodeDepth == 0
    {
      transforms, maxDecodeDepth := [], 0;
    }

    method Eval(e: Expr, exprDepth: nat, decodeDepth: nat) returns (r: Option<Bytes>)
      modifies this
      ensures r == Result(e, exprDepth, decodeDepth)
      ensures r.Some? ==> transforms == old(transforms) + Transforms(e)
      ensures r.Some? ==> maxDecodeDepth == Deeper(old(maxDecodeDepth), decodeDepth, Nesting(e))
      decreases e, 3
    {
      hide Deeper, CallFits, CallValue, JoinValue, AllTransforms, Small;
      if exprDepth > MAX_EXPR_DEPTH || decodeDepth > MAX_FOLD_DEPTH {
        return None;
      }
      match e
      case Text(source) =>
        NotDeeper(maxDecodeDepth, decodeDepth);
        r := ReadLiteral(source);
      case Int(_) => return None;
      case Unary(_, es) => if |es| != 1 { return None; } r := Eval(es[0], exprDepth + 1, decodeDepth);
      case Display(es) => if |es| != 1 { return None; } r := Eval(es[0], exprDepth + 1, decodeDepth);
      case Wrapper(es) => if |es| != 1 { return None; } r := Eval(es[0], exprDepth + 1, decodeDepth);
      case Binary(_, _, _) => r := EvalBinary(e, exprDepth, decodeDepth);
      case Subscript(reversal, base) =>
        if !reversal {
          return None;
        }
        var b := Eval(base, exprDepth + 1, decodeDepth);
        r := if b.Some? then Some(Backwards(b.value)) else None;
      case CallOf(_, _, _) => r := EvalCall(e, exprDepth, decodeDepth);
    }

    /** `'a' + 'b'` and `'x' * 3`; sizes are checked before anything is built. */
    method EvalBinary(e: Expr, exprDepth: nat, decodeDepth: nat) returns (r: Option<Bytes>)
      requires e.Binary? && exprDepth <= MAX_EXPR_DEPTH && decodeDepth <= MAX_FOLD_DEPTH
      modifies this
      ensures r == Result(e, exprDepth, decodeDepth)
      ensures r.Some? ==> transforms == old(transforms) + Transforms(e)
      ensures r.Some? ==> maxDecodeDepth == Deeper(old(maxDecodeDepth), decodeDepth, Nesting(e))
      decreases e, 2
    {
      match e.operator
      case Add => r := EvalAdd(e, exprDepth, decodeDepth);
      case Repeat => r := EvalRepeat(e, exprDepth, decodeDepth);
      case OtherOp => r := None;
    }

    method EvalAdd(e: Expr, exprDepth: nat, decodeDepth: nat) returns (r: Option<Bytes>)
      requires e.Binary? && e.operator.Add? && exprDepth <= MAX_EXPR_DEPTH && decodeDepth <= MAX_FOLD_DEPTH
      modifies this
      ensures r == Result(e, exprDepth, decodeDepth)
      ensures r.Some? ==> transforms == old(transforms) + Transforms(e)
      ensures r.Some? ==> maxDecodeDepth == Deeper(old(maxDecodeDepth), decodeDepth, Nesting(e))
      decreases e, 1
    {
      AddUnfolds(e, exprDepth, decodeDepth);
      hide *;
      var a := Eval(e.left, exprDepth + 1, decodeDepth);
      if a.None? {
        return None;
      }
      var b := Eval(e.right, exprDepth + 1, decodeDepth);
      if b.None? || |a.value| + |b.value| > MAX_FOLD_BYTES {
        return None;
      }
      DeeperTwice(old(maxDecodeDepth), decodeDepth, Nesting(e.left), Nesting(e.right));
      Associates(old(transforms), Transforms(e.left), Transforms(e.right));
      r := Some(a.value + b.value);
    }

    method EvalRepeat(e: Expr, exprDepth: nat, decodeDepth: nat) returns (r: Option<Bytes>)
      requires e.Binary? && e.operator.Repeat? && exprDepth <= MAX_EXPR_DEPTH && decodeDepth <= MAX_FOLD_DEPTH
      modifies this
      ensures r == Result(e, exprDepth, decodeDepth)
      ensures r.Some? ==> transforms == old(transforms) + Transforms(e)
      ensures r.Some? ==> maxDecodeDepth == Deeper(old(maxDecodeDepth), decodeDepth, Nesting(e))
      decreases e, 1
    {
      hide Deeper, CallFits, CallValue, JoinValue, AllTransforms, Repeated, IntOf;
      var onRight := IntOf(e.right);
      var count := if onRight.Some? then onRight else IntOf(e.left);
      if count.None? || count.value < 0 {
        return None;
      }
      var bytes;
      if onRight.Some? {
        bytes := Eval(e.left, exprDepth + 1, decodeDepth);
      } else {
        bytes := Eval(e.right, exprDepth + 1, decodeDepth);
      }
      if bytes.None? || |bytes.value| * count.value > MAX_FOLD_BYTES {
        return None;
      }
      r := Some(Repeated(bytes.value, count.value));
    }

    method EvalCall(e: Expr, exprDepth: nat, decodeDepth: nat) returns (r: Option<Bytes>)
      requires e.CallOf? && exprDepth <= MAX_EXPR_DEPTH && decodeDepth <= MAX_FOLD_DEPTH
      modifies this
      ensures r == Result(e, exprDepth, decodeDepth)
      ensures r.Some? ==> transforms == old(transforms) + Transforms(e)
      ensures r.Some? ==> maxDecodeDepth == Deeper(old(maxDecodeDepth), decodeDepth, Nesting(e))
      decreases e, 2
    {
      CallUnfolds(e, exprDepth, decodeDepth);
      hide Deeper, JoinValue, AllTransforms, Repeated, IntOf, Decoded, Utf8, Small;
      match e.callee
      case Chr =>
        if e.args == [] {
          return None;
        }
        var code := IntOf(e.args[0]);
        NotDeeper(maxDecodeDepth, decodeDepth);
        r := if code.Some? then Utf8(code.value) else None;
      case Reversed =>
        if e.args == [] {
          return None;
        }
        var input := e.args[0];
        var b := Eval(input, exprDepth + 1, decodeDepth);
        r := if b.Some? then Some(Backwards(b.value)) else None;
      case Join => r := EvalJoin(e, exprDepth, decodeDepth);
      case BytesDecode(_) =>
        if e.receiver.None? {
          return None;
        }
        r := Eval(e.receiver.value, exprDepth + 1, decodeDepth);
      case StrEncode(_) =>
        if e.receiver.None? {
          return None;
        }
        r := Eval(e.receiver.value, exprDepth + 1, decodeDepth);
      case Decode(_) => r := EvalDecoder(e, exprDepth, decodeDepth);
      case Unfolded(_) => r := None;
    }

    /** A call to a decoder: depth is charged here and only here. */
    method EvalDecoder(e: Expr, exprDepth: nat, decodeDepth: nat) returns (r: Option<Bytes>)
      requires e.CallOf? && e.callee.Decode? && exprDepth <= MAX_EXPR_DEPTH && decodeDepth <= MAX_FOLD_DEPTH
      modifies this
      ensures r == Result(e, exprDepth, decodeDepth)
      ensures r.Some? ==> transforms == old(transforms) + Transforms(e)
      ensures r.Some? ==> maxDecodeDepth == Deeper(old(maxDecodeDepth), decodeDepth, Nesting(e))
      decreases e, 1
    {
      CallUnfolds(e, exprDepth, decodeDepth);
      hide Deeper, JoinValue, AllTransforms, Repeated, IntOf, Utf8, Symbols;
      var d, nextDepth := e.callee.decoder, decodeDepth + 1;
      if nextDepth > MAX_FOLD_DEPTH || e.args == [] {
        return None;
      }
      var first := e.args[0];
      var input := Eval(first, exprDepth + 1, nextDepth);
      if input.None? {
        return None;
      }
      var decoded: Option<Bytes> := None;
      ghost var inner := 0;
      match d {
      case B64Decode => decoded := Base64Decode(input.value, false);
      case A2bBase64 => decoded := Base64Decode(input.value, false);
      case UrlsafeB64Decode => decoded := Base64Decode(input.value, true);
      case B16Decode => decoded := HexDecode(input.value);
      case Unhexlify => decoded := HexDecode(input.value);
      case FromHex => decoded := HexDecode(input.value);
      case CodecsDecode =>
        if |e.args| < 2 {
          return None;
        }
        var second := e.args[1];
        var encoding := Eval(second, exprDepth + 1, nextDepth);
        if encoding.None? || (encoding.value != ROT13 && encoding.value != ROT_13) {
          return None;
        }
        inner := Nesting(second);
        Associates(old(transforms), Transforms(first), Transforms(second));
        decoded := Some(Rot13(input.value));
      }
      hide DecodeSymbols, HexDecode, Rot13, Backwards;
      if decoded.None? || |decoded.value| > MAX_FOLD_BYTES {
        return None;
      }
      DecoderDeeper(old(maxDecodeDepth), decodeDepth, Nesting(first), inner);
      maxDecodeDepth := Max(maxDecodeDepth, nextDepth);
      transforms := transforms + [d];
      r := decoded;
    }

    /** The separator, then the items one by one; the size is checked after each. */
    method EvalJoin(e: Expr, exprDepth: nat, decodeDepth: nat) returns (r: Option<Bytes>)
      requires e.CallOf? && e.callee.Join? && exprDepth <= MAX_EXPR_DEPTH && decodeDepth <= MAX_FOLD_DEPTH
      modifies this
      ensures r == Result(e, exprDepth, decodeDepth)
      ensures r.Some? ==> transforms == old(transforms) + Transforms(e)
      ensures r.Some? ==> maxDecodeDepth == Deeper(old(maxDecodeDepth), decodeDepth, Nesting(e))
      decreases e, 1
    {
      JoinUnfolds(e, exprDepth, decodeDepth);
      hide Value, Fits, JoinValue, JoinFits, AllTransforms, AllNesting, Deeper, Transforms, Nesting, Result;
      if e.receiver.None? {
        return None;
      }
      var sep := Eval(e.receiver.value, exprDepth + 1, decodeDepth);
      if sep.None? || e.args == [] || !e.args[0].Display? {
        return None;
      }
      var sequence := e.args[0];
      r := EvalItems(sep.value, sequence, exprDepth, decodeDepth);
      Associates(old(transforms), Transforms(e.receiver.value), AllTransforms(sequence.items));
      DeeperTwice(old(maxDecodeDepth), decodeDepth, Nesting(e.receiver.value), AllNesting(sequence.items));
    }

    method EvalItems(sep: Bytes, sequence: Expr, exprDepth: nat, decodeDepth: nat) returns (r: Option<Bytes>)
      requires sequence.Display?
      modifies this
      ensures r == if JoinFits(sep, sequence.items, exprDepth, decodeDepth) then JoinValue(sep, sequence.items) else None
      ensures r.Some? ==> transforms == old(transforms) + AllTransforms(sequence.items)
      ensures r.Some? ==> maxDecodeDepth == Deeper(old(maxDecodeDepth), decodeDepth, AllNesting(sequence.items))
      decreases sequence, 0
    {
      hide Value, Fits, JoinValue, JoinFits, AllTransforms, AllNesting, Deeper, Transforms, Nesting;
      var items := sequence.items;
      var out: Bytes := [];
      JoinNothing(sep, maxDecodeDepth, exprDepth, decodeDepth);
      for i := 0 to |items|
        invariant JoinFits(sep, items[..i], exprDepth, decodeDepth) && JoinValue(sep, items[..i]) == Some(out)
        invariant transforms == old(transforms) + AllTransforms(items[..i])
        invariant maxDecodeDepth == Deeper(old(maxDecodeDepth), decodeDepth, AllNesting(items[..i]))
      {
        JoinNext(sep, items, i, exprDepth, decodeDepth, out);
        if i > 0 {
          out := out + sep;
        }
        var item := Eval(items[i], exprDepth + 1, decodeDepth);
        if item.None? {
          JoinFails(sep, items, i + 1, exprDepth, decodeDepth);
          return None;
        }
        out := out + item.value;
        DeeperTwice(old(maxDecodeDepth), decodeDepth, AllNesting(items[..i]), Nesting(items[i]));
        if |out| > MAX_FOLD_BYTES {
          JoinFails(sep, items, i + 1, exprDepth, decodeDepth);
          return None;
        }
      }
      assert items[..|items|] == items;
      r := Some(out);
    }
  }

  lemma CallUnfolds(e: Expr, exprDepth: nat, decodeDepth: nat)
    requires e.CallOf?
    ensures Value(e) == CallValue(e)
    ensures Fits(e, exprDepth, decodeDepth) <==> exprDepth <= MAX_EXPR_DEPTH && decodeDepth <= MAX_FOLD_DEPTH && CallFits(e, exprDepth, decodeDepth)
  {
    hide CallValue, CallFits;
  }

  lemma Associates<T>(a: seq<T>, b: seq<T>, c: seq<T>)
    ensures a + b + c == a + (b + c)
  {
  }

  lemma AddUnfolds(e: Expr, exprDepth: nat, decodeDepth: nat)
    requires e.Binary? && e.operator.Add? && exprDepth <= MAX_EXPR_DEPTH && decodeDepth <= MAX_FOLD_DEPTH
    ensures var a, b := Result(e.left, exprDepth + 1, decodeDepth), Result(e.right, exprDepth + 1, decodeDepth);
            Result(e, exprDepth, decodeDepth)
            == if a.Some? && b.Some? && |a.value| + |b.value| <= MAX_FOLD_BYTES then Some(a.value + b.value) else None
    ensures Transforms(e) == Transforms(e.left) + Transforms(e.right) && Nesting(e) == Max(Nesting(e.left), Nesting(e.right))
  {
    hide CallFits, CallValue;
  }

  lemma NotDeeper(deepest: nat, decodeDepth: nat)
    ensures Deeper(deepest, decodeDepth, 0) == deepest
  {
  }

  lemma DeeperTwice(deepest: nat, decodeDepth: nat, a: nat, b: nat)
    ensures Deeper(Deeper(deepest, decodeDepth, a), decodeDepth, b) == Deeper(deepest, decodeDepth, Max(a, b))
  {
  }

  lemma DecoderDeeper(deepest: nat, decodeDepth: nat, a: nat, b: nat)
    ensures Max(Deeper(Deeper(deepest, decodeDepth + 1, a), decodeDepth + 1, b), decodeDepth + 1) == Deeper(deepest, decodeDepth, 1 + Max(a, b))
    ensures Deeper(Deeper(deepest, decodeDepth + 1, a), decodeDepth + 1, 0) == Deeper(deepest, decodeDepth + 1, a)
  {
  }

  // ---- joining ----

  ghost predicate JoinFits(sep: Bytes, items: seq<Expr>, exprDepth: nat, decodeDepth: nat) {
    AllFit(items, exprDepth + 1, decodeDepth) && (items != [] ==> Small(JoinValue(sep, items)))
  }

  lemma JoinUnfolds(e: Expr, exprDepth: nat, decodeDepth: nat)
    requires e.CallOf? && e.callee.Join? && exprDepth <= MAX_EXPR_DEPTH && decodeDepth <= MAX_FOLD_DEPTH
    ensures e.receiver.None? || e.args == [] || !e.args[0].Display? ==> Result(e, exprDepth, decodeDepth) == None
    ensures e.receiver.Some? && Result(e.receiver.value, exprDepth + 1, decodeDepth).None? ==> Result(e, exprDepth, decodeDepth) == None
    ensures e.receiver.Some? && e.args != [] && e.args[0].Display? ==>
      var sep, items := Result(e.receiver.value, exprDepth + 1, decodeDepth), e.args[0].items;
      && (sep.Some? ==> Result(e, exprDepth, decodeDepth) == if JoinFits(sep.value, items, exprDepth, decodeDepth) then JoinValue(sep.value, items) else None)
      && Transforms(e) == Transforms(e.receiver.value) + AllTransforms(items)
      && Nesting(e) == Max(Nesting(e.receiver.value), AllNesting(items))
  {
    CallUnfolds(e, exprDepth, decodeDepth);
    hide JoinValue, AllTransforms, AllNesting, AllFit, Value, Fits;
  }

  lemma JoinNothing(sep: Bytes, deepest: nat, exprDepth: nat, decodeDepth: nat)
    ensures JoinFits(sep, [], exprDepth, decodeDepth) && JoinValue(sep, []) == Some([])
    ensures AllTransforms([]) == [] && Deeper(deepest, decodeDepth, AllNesting([])) == deepest
  {
  }

  lemma JoinNext(sep: Bytes, items: seq<Expr>, i: nat, exprDepth: nat, decodeDepth: nat, out: Bytes)
    requires i < |items| && JoinFits(sep, items[..i], exprDepth, decodeDepth) && JoinValue(sep, items[..i]) == Some(out)
    ensures var next := JoinValue(sep, items[..i + 1]);
            next == if Value(items[i]).Some? then Some((if i > 0 then out + sep else out) + Value(items[i]).value) else None
    ensures JoinFits(sep, items[..i + 1], exprDepth, decodeDepth) <==>
            Fits(items[i], exprDepth + 1, decodeDepth) && Small(JoinValue(sep, items[..i + 1]))
    ensures AllTransforms(items[..i + 1]) == AllTransforms(items[..i]) + Transforms(items[i])
    ensures AllNesting(items[..i + 1]) == Max(AllNesting(items[..i]), Nesting(items[i]))
  {
    assert items[..i + 1][..i] == items[..i];
    hide Value, Fits, Transforms, Nesting;
  }

  lemma {:induction false} JoinGrows(sep: Bytes, items: seq<Expr>, i: nat)
    requires i <= |items| && JoinValue(sep, items).Some?
    ensures JoinValue(sep, items[..i]).Some? && |JoinValue(sep, items[..i]).value| <= |JoinValue(sep, items).value|
    decreases |items|
  {
    hide Value;
    if i < |items| {
      assert items[..|items| - 1][..i] == items[..i];
      JoinGrows(sep, items[..|items| - 1], i);
    } else {
      assert items[..i] == items;
    }
  }

  lemma {:induction false} AllFitPrefix(items: seq<Expr>, i: nat, exprDepth: nat, decodeDepth: nat)
    requires i <= |items| && AllFit(items, exprDepth, decodeDepth)
    ensures AllFit(items[..i], exprDepth, decodeDepth)
    decreases |items|
  {
    hide Fits;
    if i < |items| {
      assert items[..|items| - 1][..i] == items[..i];
      AllFitPrefix(items[..|items| - 1], i, exprDepth, decodeDepth);
    } else {
      assert items[..i] == items;
    }
  }

  /** A prefix that does not fold, or not within the bounds, is the end of it. */
  lemma JoinFails(sep: Bytes, items: seq<Expr>, i: nat, exprDepth: nat, decodeDepth: nat)
    requires 0 < i <= |items|
    requires JoinFits(sep, items[..i], exprDepth, decodeDepth) ==> JoinValue(sep, items[..i]).None?
    ensures (if JoinFits(sep, items, exprDepth, decodeDepth) then JoinValue(sep, items) else None) == None
  {
    if JoinFits(sep, items, exprDepth, decodeDepth) && JoinValue(sep, items).Some? {
      JoinGrows(sep, items, i);
      AllFitPrefix(items, i, exprDepth + 1, decodeDepth);
      hide AllFit, JoinValue;
      assert false;
    }
  }

  // ---- what a fold tells ----

  function Longer(a: nat, b: nat): nat {
    if a < b then b else a
  }

  /** The longest string literal in an expression. */
  function LongestText(e: Expr): nat
    decreases e
  {
    match e
    case Text(source) => if LiteralBytes(source).Some? then |LiteralBytes(source).value| else 0
    case Int(_) => 0
    case Unary(_, es) => LongestOf(es)
    case Display(es) => LongestOf(es)
    case Wrapper(es) => LongestOf(es)
    case Binary(_, l, r) => Longer(LongestText(l), LongestText(r))
    case Subscript(_, base) => LongestText(base)
    case CallOf(_, receiver, args) => Longer(if receiver.Some? then LongestText(receiver.value) else 0, LongestOf(args))
  }

  function LongestOf(es: seq<Expr>): nat
    decreases es
  {
    if es == [] then 0 else Longer(LongestOf(es[..|es| - 1]), LongestText(es[|es| - 1]))
  }

  lemma {:induction false} LongestAt(es: seq<Expr>, i: nat)
    requires i < |es|
    ensures LongestText(es[i]) <= LongestOf(es)
  {
    if i < |es| - 1 {
      LongestAt(es[..|es| - 1], i);
    }
  }

  /** Only a literal written out can exceed the size limit: whatever is computed stays within it. */
  lemma {:induction false} SizeBound(e: Expr, exprDepth: nat, decodeDepth: nat)
    requires Result(e, exprDepth, decodeDepth).Some?
    ensures |Result(e, exprDepth, decodeDepth).value| <= Longer(MAX_FOLD_BYTES, LongestText(e))
    decreases e
  {
    hide Repeated, Decoded, JoinValue, AllFit, IntOf;
    match e
    case Text(_) =>
    case Int(_) =>
    case Unary(_, es) => LongestAt(es, 0); SizeBound(es[0], exprDepth + 1, decodeDepth);
    case Display(es) => LongestAt(es, 0); SizeBound(es[0], exprDepth + 1, decodeDepth);
    case Wrapper(es) => LongestAt(es, 0); SizeBound(es[0], exprDepth + 1, decodeDepth);
    case Binary(_, _, _) =>
    case Subscript(_, base) => SizeBound(base, exprDepth + 1, decodeDepth);
    case CallOf(callee, receiver, args) =>
      CallUnfolds(e, exprDepth, decodeDepth);
      match callee
      case Chr =>
      case Reversed =>
        LongestAt(args, 0);
        SizeBound(args[0], exprDepth + 1, decodeDepth);
      case Join =>
        if args[0].items == [] {
          assert Value(e) == Some([]) by {
            EmptyJoin(Value(receiver.value).value);
          }
        }
      case BytesDecode(_) => SizeBound(receiver.value, exprDepth + 1, decodeDepth);
      case StrEncode(_) => SizeBound(receiver.value, exprDepth + 1, decodeDepth);
      case Decode(_) =>
      case Unfolded(_) =>
  }

  lemma EmptyJoin(sep: Bytes)
    ensures JoinValue(sep, []) == Some([])
  {
  }

  /** Decoders nest no deeper than allowed, and a fold has a depth exactly when it has a decoder. */
  lemma {:induction false} DepthBound(e: Expr, exprDepth: nat, decodeDepth: nat)
    requires Result(e, exprDepth, decodeDepth).Some?
    ensures decodeDepth + Nesting(e) <= MAX_FOLD_DEPTH && (Nesting(e) == 0 <==> Transforms(e) == [])
    decreases e, 1
  {
    hide Repeated, Decoded, JoinValue, AllFit, IntOf, Small, Guarded, Backwards;
    match e
    case Text(_) =>
    case Int(_) =>
    case Unary(_, es) => DepthBound(es[0], exprDepth + 1, decodeDepth);
    case Display(es) => DepthBound(es[0], exprDepth + 1, decodeDepth);
    case Wrapper(es) => DepthBound(es[0], exprDepth + 1, decodeDepth);
    case Binary(op, l, r) =>
      if op.Add? || IntOf(r).Some? {
        DepthBound(l, exprDepth + 1, decodeDepth);
      }
      if op.Add? || IntOf(r).None? {
        DepthBound(r, exprDepth + 1, decodeDepth);
      }
    case Subscript(_, base) => DepthBound(base, exprDepth + 1, decodeDepth);
    case CallOf(callee, receiver, args) =>
      CallUnfolds(e, exprDepth, decodeDepth);
      match callee
      case Chr =>
      case Reversed => DepthBound(args[0], exprDepth + 1, decodeDepth);
      case Join =>
        DepthBound(receiver.value, exprDepth + 1, decodeDepth);
        DisplayDepth(Value(receiver.value).value, args[0], exprDepth + 1, decodeDepth);
      case BytesDecode(_) => DepthBound(receiver.value, exprDepth + 1, decodeDepth);
      case StrEncode(_) => DepthBound(receiver.value, exprDepth + 1, decodeDepth);
      case Decode(d) => DecoderDepth(e, exprDepth, decodeDepth);
      case Unfolded(_) =>
  }

  lemma {:induction false} DecoderDepth(e: Expr, exprDepth: nat, decodeDepth: nat)
    requires e.CallOf? && e.callee.Decode? && Result(e, exprDepth, decodeDepth).Some?
    ensures decodeDepth + Nesting(e) <= MAX_FOLD_DEPTH && Nesting(e) > 0 && Transforms(e) != []
    decreases e, 0
  {
    CallUnfolds(e, exprDepth, decodeDepth);
    var first := e.args[0];
    DepthBound(first, exprDepth + 1, decodeDepth + 1);
    if e.callee.decoder.CodecsDecode? && |e.args| > 1 {
      var second := e.args[1];
      DepthBound(second, exprDepth + 1, decodeDepth + 1);
    }
  }

  lemma {:induction false} DisplayDepth(sep: Bytes, sequence: Expr, exprDepth: nat, decodeDepth: nat)
    requires sequence.Display? && AllFit(sequence.items, exprDepth, decodeDepth) && JoinValue(sep, sequence.items).Some?
    requires decodeDepth <= MAX_FOLD_DEPTH
    ensures decodeDepth + AllNesting(sequence.items) <= MAX_FOLD_DEPTH && (AllNesting(sequence.items) == 0 <==> AllTransforms(sequence.items) == [])
    decreases sequence, 0
  {
    ItemsDepth(sep, sequence.items, exprDepth, decodeDepth);
  }

  lemma {:induction false} ItemsDepth(sep: Bytes, items: seq<Expr>, exprDepth: nat, decodeDepth: nat)
    requires AllFit(items, exprDepth, decodeDepth) && JoinValue(sep, items).Some? && decodeDepth <= MAX_FOLD_DEPTH
    ensures decodeDepth + AllNesting(items) <= MAX_FOLD_DEPTH && (AllNesting(items) == 0 <==> AllTransforms(items) == [])
    decreases items, 0
  {
    if items != [] {
      ItemsDepth(sep, items[..|items| - 1], exprDepth, decodeDepth);
      DepthBound(items[|items| - 1], exprDepth, decodeDepth);
      hide Value, Fits, Nesting, Transforms;
    }
  }

  /** Folds an expression: when it gives bytes they are those of the evaluator without bounds, and it
      gives them exactly when that has any and no bound is exceeded on the way. */
  method FoldLiteral(e: Expr) returns (r: Option<FoldedLiteral>)
    ensures r.Some? <==> Fits(e, 0, 0) && Value(e).Some?
    ensures r.Some? ==> Value(e) == Some(r.value.bytes) && |r.value.bytes| <= Longer(MAX_FOLD_BYTES, LongestText(e))
    ensures r.Some? ==> r.value.transforms == Transforms(e) && r.value.depth == Nesting(e) <= MAX_FOLD_DEPTH
    ensures r.Some? ==> (r.value.depth == 0 <==> r.value.transforms == [])
  {
    var folder := new Folder();
    var bytes := folder.Eval(e, 0, 0);
    if bytes.None? {
      return None;
    }
    SizeBound(e, 0, 0);
    DepthBound(e, 0, 0);
    hide Value, Fits, Transforms, Nesting, LongestText;
    r := Some(FoldedLiteral(bytes.value, folder.transforms, folder.maxDecodeDepth));
  }
}
