/** Which expressions are folded, of those that mean something, and the bounds. */
module FoldExtent {
  import opened Octets
  import opened Options
  import opened Decoders
  import opened Literals
  import opened Fold
  import opened Texts
  import opened FoldMeaning
  import PythonLiterals

  // ---- what a decoder takes ----

  lemma {:induction false} FilterHas(input: Bytes, keep: byte -> bool, c: byte)
    ensures c in Filter(input, keep) <==> c in input && keep(c)
  {
    if input != [] {
      var init, last := input[..|input| - 1], input[|input| - 1];
      assert input == init + [last];
      FilterHas(init, keep, c);
    }
  }

  /** Symbols of the alphabet, padding and whitespace, and never one symbol alone at the end. */
  ghost predicate TakesBase64(b: Bytes, urlSafe: bool) {
    (forall c :: c in b ==> IsSpace(c) || c == PAD || ValueOf(c, urlSafe).Some?) && |Symbols(b)| % 4 != 1
  }

  /** Pairs of digits, and whitespace. */
  ghost predicate TakesHex(b: Bytes) {
    (forall c :: c in b ==> IsSpace(c) || DigitValue(c).Some?) && |NoSpaces(b)| % 2 == 0
  }

  lemma {:induction false} ChunkIff(chunk: Bytes, urlSafe: bool)
    requires |chunk| <= 4
    ensures ChunkValue(chunk, urlSafe).Some? <==> forall c :: c in chunk ==> ValueOf(c, urlSafe).Some?
  {
    hide ValueOf, Weight;
    if chunk != [] {
      var init, last := chunk[..|chunk| - 1], chunk[|chunk| - 1];
      assert chunk == init + [last];
      ChunkIff(init, urlSafe);
    }
  }

  lemma {:induction false} SymbolsIff(symbols: Bytes, urlSafe: bool)
    ensures DecodeSymbols(symbols, urlSafe).Some? <==> forall c :: c in symbols ==> ValueOf(c, urlSafe).Some?
    decreases |symbols|
  {
    hide ValueOf, ChunkValue, FirstBytes;
    if symbols != [] {
      var n := if |symbols| < 4 then |symbols| else 4;
      assert symbols == symbols[..n] + symbols[n..];
      ChunkIff(symbols[..n], urlSafe);
      SymbolsIff(symbols[n..], urlSafe);
    }
  }

  lemma Base64TakenIff(b: Bytes, urlSafe: bool)
    ensures AnyBase64(b, urlSafe).Some? <==> TakesBase64(b, urlSafe)
  {
    SymbolsIff(Symbols(b), urlSafe);
    forall c ensures c in Symbols(b) <==> c in b && !IsSpace(c) && c != PAD {
      FilterHas(b, c => !IsSpace(c) && c != PAD, c);
    }
    hide Symbols, ValueOf, DecodeSymbols, IsSpace;
  }

  lemma {:induction false} PairsIff(digits: Bytes)
    requires |digits| % 2 == 0
    ensures HexPairs(digits).Some? <==> forall c :: c in digits ==> DigitValue(c).Some?
    decreases |digits|
  {
    hide DigitValue;
    if |digits| >= 2 {
      assert digits == [digits[0], digits[1]] + digits[2..];
      PairsIff(digits[2..]);
    }
  }

  lemma HexTakenIff(b: Bytes)
    ensures HexDecode(b).Some? <==> TakesHex(b)
  {
    if |NoSpaces(b)| % 2 == 0 {
      PairsIff(NoSpaces(b));
    }
    forall c ensures c in NoSpaces(b) <==> c in b && !IsSpace(c) {
      FilterHas(b, c => !IsSpace(c), c);
    }
    hide NoSpaces, DigitValue, HexPairs, IsSpace;
  }

  // ---- literals ----

  /** `\n`, `\r`, `\t`, `\0`, a backslash or a quote after a backslash, or `\x` and two hexadecimal digits: how
      long the escape is that `s` starts with, 0 for any other. */
  function EscapeWidth(s: seq<Scalar>): (w: nat)
    ensures w <= |s|
  {
    if |s| >= 2 && s[1] in [110, 114, 116, 48, 92, 39, 34] then 2
    else if |s| >= 4 && s[1] == 120 && IsHex(s[2]) && IsHex(s[3]) then 4
    else 0
  }

  predicate IsHex(c: Scalar) {
    48 <= c <= 57 || 65 <= c <= 70 || 97 <= c <= 102
  }

  /** Every escape is one of these. */
  predicate KnownEscapes(s: seq<Scalar>)
    decreases |s|
  {
    if s == [] then true
    else if s[0] != BACKSLASH then KnownEscapes(s[1..])
    else EscapeWidth(s) > 0 && KnownEscapes(s[EscapeWidth(s)..])
  }

  /** What stands between the quotes is understood exactly when all its escapes are known. */
  lemma {:induction false} UnescapedIff(s: seq<Scalar>)
    ensures Unescaped(s).Some? <==> KnownEscapes(s)
    decreases |s|
  {
    hide Utf8Of;
    if s != [] {
      if s[0] != BACKSLASH {
        UnescapedIff(s[1..]);
      } else {
        EscapeKnown(s);
        if EscapeWidth(s) > 0 {
          UnescapedIff(s[EscapeWidth(s)..]);
        }
      }
    }
    hide EscapeOf, EscapeWidth;
  }

  lemma EscapeKnown(s: seq<Scalar>)
    requires s != [] && s[0] == BACKSLASH
    ensures EscapeOf(s).Some? <==> EscapeWidth(s) > 0
    ensures EscapeOf(s).Some? ==> EscapeOf(s).value.width == EscapeWidth(s)
  {
  }

  lemma {:induction false} MeantIsRead(t: seq<Scalar>, q: seq<Scalar>, isBytes: bool)
    requires PythonLiterals.AreQuotes(q) && PythonLiterals.Alone(t + q, q) && PythonLiterals.AsMeant(t, false, isBytes)
    ensures Unescaped(t).Some?
    decreases |t|
  {
    hide Utf8Of;
    if t != [] {
      NotYetClosed(t, q);
      var n := if t[0] == BACKSLASH then EscapeOf(t).value.width else 1;
      MeantIsRead(t[n..], q, isBytes);
    }
    hide EscapeOf, PythonLiterals.Alone;
  }

  /** Before the closing quotes an escape is a whole one. */
  lemma NotYetClosed(t: seq<Scalar>, q: seq<Scalar>)
    requires PythonLiterals.AreQuotes(q) && PythonLiterals.Alone(t + q, q) && t != []
    ensures t[0] == BACKSLASH ==> |t| >= 2
    ensures t[0] != BACKSLASH ==> PythonLiterals.Alone(t[1..] + q, q)
    ensures t[0] == BACKSLASH && EscapeOf(t).Some? ==> PythonLiterals.Alone(t[EscapeOf(t).value.width..] + q, q)
  {
    var s := t + q;
    assert |s| > |q|;
    if t[0] != BACKSLASH {
      assert s[1..] == t[1..] + q;
    } else if |t| == 1 {
      assert s[2..] == q[1..];
      PartNotAlone(q);
    } else {
      assert s[2..] == t[2..] + q;
      if EscapeOf(t).Some? {
        hide EscapeOf, PythonLiterals.Alone;
        AfterEscape(t, q);
      }
    }
  }

  lemma AfterEscape(t: seq<Scalar>, q: seq<Scalar>)
    requires PythonLiterals.AreQuotes(q) && |t| >= 2 && t[0] == BACKSLASH && EscapeOf(t).Some? && PythonLiterals.Alone(t[2..] + q, q)
    ensures PythonLiterals.Alone(t[EscapeOf(t).value.width..] + q, q)
  {
    hide PythonLiterals.Alone, PythonLiterals.AreQuotes;
    if EscapeOf(t).value.width == 4 {
      PlainSkipped(t[2..], q);
      assert t[2..][1..] == t[3..];
      PlainSkipped(t[3..], q);
      assert t[3..][1..] == t[4..];
    }
  }

  lemma PartNotAlone(q: seq<Scalar>)
    requires PythonLiterals.AreQuotes(q)
    ensures !PythonLiterals.Alone(q[1..], q)
  {
    var r := q[1..];
    if |q| == 3 {
      assert r[0] != BACKSLASH && r[1..][0] != BACKSLASH && r[1..][1..] == [];
      assert !PythonLiterals.Alone(r[1..][1..], q);
      assert !PythonLiterals.Alone(r[1..], q);
    }
  }

  lemma PlainSkipped(t: seq<Scalar>, q: seq<Scalar>)
    requires PythonLiterals.AreQuotes(q) && t != [] && t[0] != BACKSLASH && t[0] != SINGLE && t[0] != DOUBLE && PythonLiterals.Alone(t + q, q)
    ensures PythonLiterals.Alone(t[1..] + q, q)
  {
    assert (t + q)[1..] == t[1..] + q && (t + q)[0] == t[0] != q[0];
  }

  /** Of every literal that Python reads: the folder gives its bytes exactly when it reads it as meant. */
  lemma LiteralIs(source: seq<Scalar>)
    requires PythonLiterals.Meaning(source).Some?
    ensures var l := PythonLiterals.Meaning(source).value;
            LiteralBytes(source) == Some(PythonLiterals.Shown(l.points, l.isBytes)) <==> PythonLiterals.ReadAsMeant(source)
  {
    if LiteralBytes(source).Some? {
      PythonLiterals.LiteralReadIff(source);
    }
    if PythonLiterals.ReadAsMeant(source) {
      MeantIsTaken(source);
    }
    hide PythonLiterals.Meaning, PythonLiterals.ReadAsMeant, LiteralBytes, PythonLiterals.Shown;
  }

  lemma MeantIsTaken(source: seq<Scalar>)
    requires PythonLiterals.Meaning(source).Some? && PythonLiterals.ReadAsMeant(source)
    ensures LiteralBytes(source).Some?
  {
    var o := PythonLiterals.OpeningOf(source).value;
    var s := source[o.prefix + |o.quotes|..];
    QuotesStripped(source);
    PythonLiterals.PrefixAgrees(source);
    PrefixTaken(source);
    var t := Inner(source[o.prefix..]).value;
    assert s[..|s| - |o.quotes|] == t;
    if !o.isRaw {
      IsAlone(source);
      MeantIsRead(t, o.quotes, o.isBytes);
    }
    hide PythonLiterals.OpeningOf, PythonLiterals.Meaning, Inner, Unescaped, FirstQuote, IsPrefix, IsRaw, Utf8All;
  }

  lemma PrefixTaken(source: seq<Scalar>)
    requires PythonLiterals.OpeningOf(source).Some?
    ensures IsPrefix(source[..PythonLiterals.OpeningOf(source).value.prefix])
  {
  }

  /** One literal is its prefix, its quotes, what is inside, and the quotes again. */
  lemma QuotesStripped(source: seq<Scalar>)
    requires PythonLiterals.Meaning(source).Some? && PythonLiterals.ReadAsMeant(source)
    ensures PythonLiterals.OpeningOf(source).Some?
    ensures var o := PythonLiterals.OpeningOf(source).value;
            var s := source[o.prefix + |o.quotes|..];
            Inner(source[o.prefix..]).Some? && |s| >= |o.quotes| && s == Inner(source[o.prefix..]).value + o.quotes
  {
    var o := PythonLiterals.OpeningOf(source).value;
    var body, s, q := source[o.prefix..], source[o.prefix + |o.quotes|..], o.quotes;
    IsAlone(source);
    PythonLiterals.OpenQuotes(source);
    InnerThere(body, s, q);
    var q' := PythonLiterals.StrippedQuotes(source);
    PythonLiterals.AloneSource(q', Inner(body).value, q, s);
    hide *;
  }

  lemma IsAlone(source: seq<Scalar>)
    requires PythonLiterals.Meaning(source).Some? && PythonLiterals.ReadAsMeant(source)
    ensures PythonLiterals.OpeningOf(source).Some?
    ensures var o := PythonLiterals.OpeningOf(source).value;
            PythonLiterals.AreQuotes(o.quotes) && PythonLiterals.Alone(source[o.prefix + |o.quotes|..], o.quotes)
  {
    PythonLiterals.OpenQuotes(source);
    hide PythonLiterals.Inside, PythonLiterals.AsMeant, PythonLiterals.Alone, PythonLiterals.OpeningOf;
  }

  lemma InnerThere(body: seq<Scalar>, s: seq<Scalar>, q: seq<Scalar>)
    requires body != [] && (body[0] == SINGLE || body[0] == DOUBLE) && (q == [body[0]] || q == Thrice(body[0]))
    requires |body| >= |q| && body[..|q|] == q && s == body[|q|..]
    requires PythonLiterals.AreQuotes(q) && PythonLiterals.Alone(s, q)
    ensures Inner(body).Some?
  {
    PythonLiterals.AloneEnds(s, q);
    hide PythonLiterals.Alone;
    assert body[|body| - |q|..] == s[|s| - |q|..];
    assert Strip(body, q).Some?;
    PythonLiterals.InnerIs(body, body[0]);
  }

  // ---- operands ----

  /** The operands whose values make an expression's own; of a repetition, what is repeated. */
  function Operands(e: Expr): (r: seq<Expr>)
    ensures forall k :: 0 <= k < |r| ==> r[k] < e
  {
    match e
    case Wrapper(es) => if |es| == 1 then [es[0]] else []
    case Binary(Add, l, r) => [l, r]
    case Binary(Repeat, l, r) => if IntOf(r).Some? then [l] else [r]
    case Subscript(_, base) => [base]
    case CallOf(callee, receiver, args) =>
      (match callee
       case Join => if receiver.Some? && args != [] && args[0].Display? then Inside(receiver.value, args[0], e) else []
       case BytesDecode(_) => if receiver.Some? then [receiver.value] else []
       case StrEncode(_) => if receiver.Some? then [receiver.value] else []
       case Decode(d) => if args == [] then [] else if d.CodecsDecode? && |args| > 1 then [args[0], args[1]] else [args[0]]
       case _ => [])
    case _ => []
  }

  /** The separator, and what is joined. */
  function Inside(sep: Expr, display: Expr, ghost e: Expr): (r: seq<Expr>)
    requires display.Display? && sep < e && display < e
    ensures r == [sep] + display.items && forall k :: 0 <= k < |r| ==> r[k] < e
  {
    var items := display.items;
    assert forall k :: 0 <= k < |items| ==> items[k] < display;
    [sep] + items
  }

  ghost predicate IsWithin(x: Expr, e: Expr)
    decreases e
  {
    x == e || exists k :: 0 <= k < |Operands(e)| && IsWithin(x, Operands(e)[k])
  }

  /** The folder takes it: a count that is not negative, and what a decoder takes. */
  ghost predicate Takes(x: Expr) {
    match x
    case Binary(Repeat, _, _) => IntOf(CountOf(x)).Some? ==> IntOf(CountOf(x)).value >= 0
    case CallOf(Decode(d), _, args) => args != [] && Meaning(args[0]).Some? ==> DecoderTakes(d, Encoded(Meaning(args[0]).value))
    case _ => true
  }

  ghost predicate DecoderTakes(d: Decoder, b: Bytes) {
    match d
    case B64Decode => TakesBase64(b, false)
    case A2bBase64 => TakesBase64(b, false)
    case UrlsafeB64Decode => TakesBase64(b, true)
    case B16Decode => TakesHex(b)
    case Unhexlify => TakesHex(b)
    case FromHex => TakesHex(b)
    case CodecsDecode => true
  }

  ghost predicate TakesAll(e: Expr) {
    forall x :: IsWithin(x, e) ==> Takes(x)
  }

  lemma TakesAllIff(e: Expr)
    ensures TakesAll(e) <==> Takes(e) && forall k :: 0 <= k < |Operands(e)| ==> TakesAll(Operands(e)[k])
  {
    hide Takes, Operands;
    if TakesAll(e) {
      assert IsWithin(e, e);
    }
  }

  // ---- one node ----

  /** The operands of a meaningful expression mean something, and it has a value when they have, and the
      folder takes it. */
  ghost predicate Settles(e: Expr) {
    && (forall k :: 0 <= k < |Operands(e)| ==> AsWritten(Operands(e)[k]) && Meaning(Operands(e)[k]).Some?)
    && (Value(e).Some? <==> Takes(e) && forall k :: 0 <= k < |Operands(e)| ==> Value(Operands(e)[k]).Some?)
  }

  lemma NodeSettles(e: Expr)
    requires AsWritten(e) && Meaning(e).Some?
    ensures Settles(e)
  {
    hide *;
    match e
    case Text(_) => LeafSettles(e);
    case Int(_) => LeafSettles(e);
    case Unary(_, _) => LeafSettles(e);
    case Display(_) => LeafSettles(e);
    case Wrapper(_) => LeafSettles(e);
    case Binary(_, _, _) => BinarySettles(e);
    case Subscript(_, _) => LeafSettles(e);
    case CallOf(callee, _, _) =>
      match callee
      case Join => JoinSettles(e);
      case Decode(_) => DecodeSettles(e);
      case _ => CallSettles(e);
  }

  lemma SettlesNone(e: Expr)
    requires Operands(e) == [] && (Value(e).Some? <==> Takes(e))
    ensures Settles(e)
  {
    hide Operands, Value, Meaning, AsWritten, Takes;
  }

  lemma SettlesOne(e: Expr, x: Expr)
    requires Operands(e) == [x] && AsWritten(x) && Meaning(x).Some? && (Value(e).Some? <==> Takes(e) && Value(x).Some?)
    ensures Settles(e)
  {
    hide Operands, Value, Meaning, AsWritten, Takes;
    assert Operands(e)[0] == x;
  }

  lemma SettlesTwo(e: Expr, x: Expr, y: Expr)
    requires Operands(e) == [x, y] && AsWritten(x) && AsWritten(y) && Meaning(x).Some? && Meaning(y).Some?
    requires Value(e).Some? <==> Takes(e) && Value(x).Some? && Value(y).Some?
    ensures Settles(e)
  {
    hide Operands, Value, Meaning, AsWritten, Takes;
    assert Operands(e)[0] == x && Operands(e)[1] == y;
  }

  lemma LeafSettles(e: Expr)
    requires AsWritten(e) && Meaning(e).Some?
    requires e.Text? || e.Int? || e.Unary? || e.Display? || e.Wrapper? || e.Subscript?
    ensures Settles(e)
  {
    hide LiteralBytes, IsAscii, Turned, Backwards, Settles;
    if e.Wrapper? {
      WrittenAt(e.children, 0);
      SettlesOne(e, e.children[0]);
    } else if e.Subscript? {
      SettlesOne(e, e.base);
    } else if e.Text? {
      MeantIsTaken(e.source);
      SettlesNone(e);
    } else {
      SettlesNone(e);
    }
  }

  lemma BinarySettles(e: Expr)
    requires AsWritten(e) && Meaning(e).Some? && e.Binary?
    ensures Settles(e)
  {
    Drifts(e.left);
    Drifts(e.right);
    hide IntOf, TrueInt, ReadRight, Repeated, Times, Appended, Positive, Settles;
    if e.operator.Add? {
      SettlesTwo(e, e.left, e.right);
    } else if IntOf(e.right).Some? {
      SettlesOne(e, e.left);
    } else {
      SettlesOne(e, e.right);
    }
  }

  lemma CallSettles(e: Expr)
    requires AsWritten(e) && Meaning(e).Some? && e.CallOf? && !e.callee.Join? && !e.callee.Decode?
    ensures Settles(e)
  {
    CallUnfolds(e, 0, 0);
    assert Meaning(e) == CallMeaning(e);
    hide IntOf, TrueInt, ReadRight, Utf8, TextOf, CodecBytes, CodecSuits, Settles;
    if e.callee.Chr? {
      ChrSettles(e);
      SettlesNone(e);
    } else {
      SettlesOne(e, e.receiver.value);
    }
  }

  lemma ChrSettles(e: Expr)
    requires AsWritten(e) && Meaning(e).Some? && e.CallOf? && e.callee.Chr?
    ensures Value(e).Some?
  {
    CallUnfolds(e, 0, 0);
    assert Meaning(e) == CallMeaning(e);
    Drifts(e.args[0]);
    OperandReadIff(e.args[0]);
    hide IntOf, TrueInt, ReadRight, Utf8;
  }

  lemma {:induction false} ItemsSettle(sep: Val, items: seq<Expr>)
    requires AllAsWritten(items) && JoinMeaning(sep, items).Some?
    ensures forall k :: 0 <= k < |items| ==> AsWritten(items[k]) && Meaning(items[k]).Some?
    ensures JoinValue(Encoded(sep), items).Some? <==> forall k :: 0 <= k < |items| ==> Value(items[k]).Some?
  {
    hide Value, Meaning, AsWritten, Encoded, Appended;
    if items != [] {
      var init, last := items[..|items| - 1], items[|items| - 1];
      ItemsSettle(sep, init);
      assert forall k :: 0 <= k < |init| ==> items[k] == init[k];
      assert items[|items| - 1] == last;
    }
  }

  lemma JoinSettles(e: Expr)
    requires AsWritten(e) && Meaning(e).Some? && e.CallOf? && e.callee.Join?
    ensures Settles(e)
  {
    JoinParts(e);
    var sep, items := e.receiver.value, e.args[0].items;
    if Value(sep).Some? {
      FoldMeans(sep);
    }
    hide *;
    ItemsSettle(Meaning(sep).value, items);
    AllSettle(e, sep, items);
  }

  lemma AllSettle(e: Expr, sep: Expr, items: seq<Expr>)
    requires Operands(e) == [sep] + items && AsWritten(sep) && Meaning(sep).Some? && Takes(e)
    requires forall k :: 0 <= k < |items| ==> AsWritten(items[k]) && Meaning(items[k]).Some?
    requires Value(e).Some? <==> Value(sep).Some? && forall k :: 0 <= k < |items| ==> Value(items[k]).Some?
    ensures Settles(e)
  {
    hide Operands, Value, Meaning, AsWritten, Takes;
    var all := [sep] + items;
    assert all[0] == sep && forall k :: 0 <= k < |items| ==> all[k + 1] == items[k];
  }

  lemma JoinParts(e: Expr)
    requires AsWritten(e) && Meaning(e).Some? && e.CallOf? && e.callee.Join?
    ensures e.receiver.Some? && e.args != [] && e.args[0].Display? && Takes(e)
    ensures var sep, items := e.receiver.value, e.args[0].items;
            && AsWritten(sep) && AllAsWritten(items) && Meaning(sep).Some? && JoinMeaning(Meaning(sep).value, items).Some?
            && Operands(e) == [sep] + items
            && (Value(e).Some? <==> Value(sep).Some? && JoinValue(Value(sep).value, items).Some?)
  {
    CallUnfolds(e, 0, 0);
    assert Meaning(e) == CallMeaning(e);
    WrittenAt(e.args, 0);
    hide JoinMeaning, JoinValue;
  }

  lemma DecodeSettles(e: Expr)
    requires AsWritten(e) && Meaning(e).Some? && e.CallOf? && e.callee.Decode?
    ensures Settles(e)
  {
    DecodeParts(e);
    var d, x := e.callee.decoder, e.args[0];
    var v, encoding := Meaning(x).value, EncodingOf(d, e.args);
    NeedsEncoding(d, v, encoding);
    hide *;
    if encoding.Some? {
      RotationSettles(e);
    } else {
      if Value(x).Some? {
        FoldMeans(x);
      }
      DecodedIff(d, v, None);
      NoEncoding();
      SettlesOne(e, x);
    }
  }

  lemma NoEncoding()
    ensures ShownEncoding(None) == None
  {
  }

  lemma RotationSettles(e: Expr)
    requires AsWritten(e) && Meaning(e).Some? && e.CallOf? && e.callee.Decode? && EncodingOf(e.callee.decoder, e.args).Some?
    ensures Settles(e)
  {
    DecodeParts(e);
    var d, x, y := e.callee.decoder, e.args[0], e.args[1];
    var v, encoding := Meaning(x).value, EncodingOf(d, e.args);
    hide *;
    if Value(x).Some? {
      FoldMeans(x);
    }
    if Value(y).Some? {
      FoldMeans(y);
      ShownIs(encoding.value);
    } else {
      NotRotated(Encoded(v));
    }
    DecodedIff(d, v, encoding);
    SettlesTwo(e, x, y);
  }

  lemma ShownIs(v: Val)
    ensures ShownEncoding(Some(v)) == Some(Encoded(v))
  {
  }

  lemma NotRotated(b: Bytes)
    ensures Decoded(CodecsDecode, b, None) == None
  {
  }

  /** What decoding a call's argument needs, and what it gives. */
  lemma DecodeParts(e: Expr)
    requires AsWritten(e) && Meaning(e).Some? && e.CallOf? && e.callee.Decode?
    ensures e.args != [] && AsWritten(e.args[0]) && Meaning(e.args[0]).Some?
    ensures var d, v, encoding := e.callee.decoder, Meaning(e.args[0]).value, EncodingOf(e.callee.decoder, e.args);
            && Decodes(d, v, encoding).Some? && (Takes(e) <==> DecoderTakes(d, Encoded(v)))
            && (encoding.Some? ==> d.CodecsDecode? && |e.args| > 1 && AsWritten(e.args[1]) && Meaning(e.args[1]) == encoding)
            && (if d.CodecsDecode? && |e.args| > 1
                then Operands(e) == [e.args[0], e.args[1]]
                     && (Value(e).Some? <==> Value(e.args[0]).Some? && Decoded(d, Value(e.args[0]).value, Value(e.args[1])).Some?)
                else Operands(e) == [e.args[0]]
                     && (Value(e).Some? <==> Value(e.args[0]).Some? && Decoded(d, Value(e.args[0]).value, None).Some?))
  {
    CallUnfolds(e, 0, 0);
    assert Meaning(e) == CallMeaning(e);
    WrittenAt(e.args, 0);
    if |e.args| > 1 {
      WrittenAt(e.args, 1);
    }
    hide Decodes, Decoded, DecoderSuits, DecoderTakes, Encoded;
  }

  lemma DecodedIff(d: Decoder, v: Val, encoding: Option<Val>)
    requires Decodes(d, v, encoding).Some?
    ensures Decoded(d, Encoded(v), ShownEncoding(encoding)).Some? <==> DecoderTakes(d, Encoded(v))
  {
    Base64TakenIff(Encoded(v), false);
    Base64TakenIff(Encoded(v), true);
    HexTakenIff(Encoded(v));
    hide AnyBase64, HexDecode, TakesBase64, TakesHex, Encoded, Rot13;
  }

  // ---- the theorem ----

  /** Of every expression that means something and is read as it is written: it has a value exactly when
      the folder takes everything in it. */
  lemma {:induction false} FoldedIff(e: Expr)
    requires AsWritten(e) && Meaning(e).Some?
    ensures Value(e).Some? <==> TakesAll(e)
    decreases e
  {
    hide *;
    NodeSettles(e);
    TakesAllIff(e);
    SettlesParts(e);
    forall k | 0 <= k < |Operands(e)| ensures Value(Operands(e)[k]).Some? <==> TakesAll(Operands(e)[k]) {
      FoldedIff(Operands(e)[k]);
    }
  }

  lemma SettlesParts(e: Expr)
    requires Settles(e)
    ensures forall k :: 0 <= k < |Operands(e)| ==> AsWritten(Operands(e)[k]) && Meaning(Operands(e)[k]).Some?
    ensures Value(e).Some? <==> Takes(e) && forall k :: 0 <= k < |Operands(e)| ==> Value(Operands(e)[k]).Some?
  {
    hide Operands, Value, Meaning, AsWritten, Takes;
  }

  // ---- the bounds ----

  predicate IsDecode(e: Expr) {
    e.CallOf? && e.callee.Decode?
  }

  function Greater(a: nat, b: nat): nat {
    if a < b then b else a
  }

  /** How deep the expression is nested. */
  function Height(e: Expr): nat
    decreases e, |Operands(e)| + 1
  {
    Below(e, |Operands(e)|)
  }

  function Below(e: Expr, n: nat): nat
    requires n <= |Operands(e)|
    decreases e, n
  {
    if n == 0 then 0 else Greater(Below(e, n - 1), 1 + Height(Operands(e)[n - 1]))
  }

  /** How many decoders are one inside the other. */
  function Layers(e: Expr): nat
    decreases e, |Operands(e)| + 1
  {
    LayersBelow(e, |Operands(e)|) + if IsDecode(e) then 1 else 0
  }

  function LayersBelow(e: Expr, n: nat): nat
    requires n <= |Operands(e)|
    decreases e, n
  {
    if n == 0 then 0 else Greater(LayersBelow(e, n - 1), Layers(Operands(e)[n - 1]))
  }

  lemma {:induction false} MostBelow(e: Expr, n: nat, h: int, d: int)
    requires n <= |Operands(e)| && h >= 0 && d >= 0
    ensures Below(e, n) <= h <==> forall k :: 0 <= k < n ==> 1 + Height(Operands(e)[k]) <= h
    ensures LayersBelow(e, n) <= d <==> forall k :: 0 <= k < n ==> Layers(Operands(e)[k]) <= d
    decreases n
  {
    hide Height, Layers, Operands;
    if n > 0 {
      MostBelow(e, n - 1, h, d);
    }
  }

  /** What is put together or decoded stays within the size limit, and so does a text before it is decoded. */
  ghost predicate Sized(y: Expr) {
    Meaning(y).Some? ==>
      match y
      case Binary(_, _, _) => |Encoded(Meaning(y).value)| <= MAX_FOLD_BYTES
      case CallOf(Join, _, _) => |Encoded(Meaning(y).value)| <= MAX_FOLD_BYTES
      case CallOf(Decode(d), _, args) =>
        && |Encoded(Meaning(y).value)| <= MAX_FOLD_BYTES
        && (args != [] && Meaning(args[0]).Some? && (d == B64Decode || d == A2bBase64 || d == UrlsafeB64Decode)
            ==> |Symbols(Encoded(Meaning(args[0]).value))| / 4 * 3 <= MAX_FOLD_BYTES)
      case _ => true
  }

  ghost predicate AllSized(e: Expr) {
    forall y :: IsWithin(y, e) ==> Sized(y)
  }

  lemma AllSizedIff(e: Expr)
    ensures AllSized(e) <==> Sized(e) && forall k :: 0 <= k < |Operands(e)| ==> AllSized(Operands(e)[k])
  {
    hide Sized, Operands;
    if AllSized(e) {
      assert IsWithin(e, e);
    }
  }

  /** One node is within the bounds. */
  ghost predicate FitsHere(e: Expr, x: nat, d: nat) {
    x <= MAX_EXPR_DEPTH && d <= MAX_FOLD_DEPTH && (IsDecode(e) ==> d < MAX_FOLD_DEPTH) && Sized(e)
  }

  ghost predicate PartsFit(e: Expr, x: nat, d: nat) {
    forall k :: 0 <= k < |Operands(e)| ==> Fits(Operands(e)[k], x + 1, if IsDecode(e) then d + 1 else d)
  }

  lemma NodeFits(e: Expr, x: nat, d: nat)
    requires AsWritten(e) && Meaning(e).Some? && Value(e).Some?
    ensures Fits(e, x, d) <==> FitsHere(e, x, d) && PartsFit(e, x, d)
  {
    FoldMeans(e);
    hide *;
    match e
    case Text(_) => LeafFits(e, x, d);
    case Int(_) => LeafFits(e, x, d);
    case Unary(_, _) => LeafFits(e, x, d);
    case Display(_) => LeafFits(e, x, d);
    case Wrapper(_) => LeafFits(e, x, d);
    case Binary(_, _, _) => BinaryFits(e, x, d);
    case Subscript(_, _) => LeafFits(e, x, d);
    case CallOf(callee, _, _) =>
      match callee
      case Join => JoinFits(e, x, d);
      case Decode(_) => DecodeFits(e, x, d);
      case _ => PlainCallFits(e, x, d);
  }

  lemma OneFits(e: Expr, x: nat, d: nat, a: Expr)
    requires Operands(e) == [a]
    ensures PartsFit(e, x, d) <==> Fits(a, x + 1, if IsDecode(e) then d + 1 else d)
  {
    hide Operands, Fits;
    assert Operands(e)[0] == a;
  }

  lemma TwoFit(e: Expr, x: nat, d: nat, a: Expr, b: Expr)
    requires Operands(e) == [a, b]
    ensures PartsFit(e, x, d) <==> Fits(a, x + 1, if IsDecode(e) then d + 1 else d) && Fits(b, x + 1, if IsDecode(e) then d + 1 else d)
  {
    hide Operands, Fits;
    assert Operands(e)[0] == a && Operands(e)[1] == b;
  }

  lemma LeafFits(e: Expr, x: nat, d: nat)
    requires Meaning(e).Some?
    requires e.Text? || e.Int? || e.Unary? || e.Display? || e.Wrapper? || e.Subscript?
    ensures Fits(e, x, d) <==> FitsHere(e, x, d) && PartsFit(e, x, d)
  {
    hide PartsFit, LiteralMeaning, Turned;
    if e.Wrapper? {
      OneFits(e, x, d, e.children[0]);
    } else if e.Subscript? {
      OneFits(e, x, d, e.base);
    } else {
      NoneFit(e, x, d);
    }
  }

  lemma NoneFit(e: Expr, x: nat, d: nat)
    requires Operands(e) == []
    ensures PartsFit(e, x, d)
  {
    hide Operands, Fits;
  }

  lemma BinaryFits(e: Expr, x: nat, d: nat)
    requires e.Binary? && Meaning(e).Some? && Value(e) == Some(Encoded(Meaning(e).value))
    ensures Fits(e, x, d) <==> FitsHere(e, x, d) && PartsFit(e, x, d)
  {
    var v := Meaning(e);
    assert !e.operator.OtherOp?;
    hide PartsFit, Value, Meaning, Encoded, IntOf;
    if e.operator.Add? {
      TwoFit(e, x, d, e.left, e.right);
    } else if IntOf(e.right).Some? {
      OneFits(e, x, d, e.left);
    } else {
      OneFits(e, x, d, e.right);
    }
  }

  lemma PlainCallFits(e: Expr, x: nat, d: nat)
    requires e.CallOf? && !e.callee.Join? && !e.callee.Decode? && Meaning(e).Some?
    ensures Fits(e, x, d) <==> FitsHere(e, x, d) && PartsFit(e, x, d)
  {
    CallUnfolds(e, x, d);
    assert Meaning(e) == CallMeaning(e);
    hide PartsFit, TextOf, CodecBytes, Utf8, TrueInt;
    if e.callee.Chr? {
      NoneFit(e, x, d);
    } else {
      OneFits(e, x, d, e.receiver.value);
    }
  }

  lemma {:induction false} ItemsFit(items: seq<Expr>, x: nat, d: nat)
    ensures AllFit(items, x, d) <==> forall k :: 0 <= k < |items| ==> Fits(items[k], x, d)
  {
    hide Fits;
    if items != [] {
      var init, last := items[..|items| - 1], items[|items| - 1];
      ItemsFit(init, x, d);
      assert forall k :: 0 <= k < |init| ==> items[k] == init[k];
      assert items[|items| - 1] == last;
    }
  }

  lemma JoinFits(e: Expr, x: nat, d: nat)
    requires e.CallOf? && e.callee.Join? && AsWritten(e) && Meaning(e).Some? && Value(e) == Some(Encoded(Meaning(e).value))
    ensures Fits(e, x, d) <==> FitsHere(e, x, d) && PartsFit(e, x, d)
  {
    JoinParts(e);
    var sep, items := e.receiver.value, e.args[0].items;
    hide *;
    ItemsFit(items, x + 1, d);
    JoinedFits(e, x, d);
    if items == [] {
      NothingJoined(e);
    }
    AllPartsFit(e, x, d, sep, items);
  }

  lemma AllPartsFit(e: Expr, x: nat, d: nat, sep: Expr, items: seq<Expr>)
    requires Operands(e) == [sep] + items && !IsDecode(e)
    ensures PartsFit(e, x, d) <==> Fits(sep, x + 1, d) && forall k :: 0 <= k < |items| ==> Fits(items[k], x + 1, d)
  {
    hide Operands, Fits;
    var all := [sep] + items;
    assert all[0] == sep && forall k :: 0 <= k < |items| ==> all[k + 1] == items[k];
  }

  lemma JoinedFits(e: Expr, x: nat, d: nat)
    requires e.CallOf? && e.callee.Join? && e.receiver.Some? && e.args != [] && e.args[0].Display?
    requires Meaning(e).Some? && Value(e) == Some(Encoded(Meaning(e).value))
    ensures !IsDecode(e)
    ensures Fits(e, x, d) <==> x <= MAX_EXPR_DEPTH && d <= MAX_FOLD_DEPTH && Fits(e.receiver.value, x + 1, d) && AllFit(e.args[0].items, x + 1, d)
                               && (e.args[0].items != [] ==> |Encoded(Meaning(e).value)| <= MAX_FOLD_BYTES)
    ensures FitsHere(e, x, d) <==> x <= MAX_EXPR_DEPTH && d <= MAX_FOLD_DEPTH && |Encoded(Meaning(e).value)| <= MAX_FOLD_BYTES
  {
    CallUnfolds(e, x, d);
    hide Value, Meaning, Encoded, AllFit;
  }

  lemma NothingJoined(e: Expr)
    requires e.CallOf? && e.callee.Join? && e.receiver.Some? && e.args != [] && e.args[0].Display? && e.args[0].items == [] && Meaning(e).Some?
    ensures Encoded(Meaning(e).value) == []
  {
    assert Meaning(e) == CallMeaning(e);
    EmptyBytes(Meaning(e.receiver.value).value);
    hide Encoded, Empty;
  }

  lemma DecodeFits(e: Expr, x: nat, d: nat)
    requires e.CallOf? && e.callee.Decode? && AsWritten(e) && Meaning(e).Some? && Value(e) == Some(Encoded(Meaning(e).value))
    ensures Fits(e, x, d) <==> FitsHere(e, x, d) && PartsFit(e, x, d)
  {
    DecodeParts(e);
    var decoder, a := e.callee.decoder, e.args[0];
    hide *;
    FoldMeans(a);
    CallIsDecode(e);
    DecodedFits(e, x, d);
    if decoder.CodecsDecode? && |e.args| > 1 {
      TwoFit(e, x, d, a, e.args[1]);
    } else {
      OneFits(e, x, d, a);
    }
  }

  lemma CallIsDecode(e: Expr)
    requires e.CallOf? && e.callee.Decode?
    ensures IsDecode(e)
  {
  }

  lemma DecodedFits(e: Expr, x: nat, d: nat)
    requires e.CallOf? && e.callee.Decode? && e.args != [] && Meaning(e).Some? && Value(e) == Some(Encoded(Meaning(e).value))
    requires Meaning(e.args[0]).Some? && Value(e.args[0]) == Some(Encoded(Meaning(e.args[0]).value))
    ensures var codec := e.callee.decoder.CodecsDecode? && |e.args| > 1;
            Fits(e, x, d) <==> FitsHere(e, x, d) && Fits(e.args[0], x + 1, d + 1) && (codec ==> Fits(e.args[1], x + 1, d + 1))
  {
    CallUnfolds(e, x, d);
    hide Value, Meaning, Encoded, Symbols;
  }

  /** Of every expression with a meaning and a value: it is within the bounds exactly when it is nested no
      deeper than 256, decoders in it no deeper than 8, and nothing on the way is larger than the limit. */
  lemma {:induction false} FitsIff(e: Expr, x: nat, d: nat)
    requires AsWritten(e) && Meaning(e).Some? && Value(e).Some?
    ensures Fits(e, x, d) <==> x + Height(e) <= MAX_EXPR_DEPTH && d + Layers(e) <= MAX_FOLD_DEPTH && AllSized(e)
    decreases e
  {
    hide *;
    NodeSettles(e);
    SettlesParts(e);
    NodeFits(e, x, d);
    AllSizedIff(e);
    var d' := if IsDecode(e) then d + 1 else d;
    forall k | 0 <= k < |Operands(e)|
      ensures Fits(Operands(e)[k], x + 1, d') <==>
        x + 1 + Height(Operands(e)[k]) <= MAX_EXPR_DEPTH && d' + Layers(Operands(e)[k]) <= MAX_FOLD_DEPTH && AllSized(Operands(e)[k])
    {
      FitsIff(Operands(e)[k], x + 1, d');
    }
    Measured(e, x, d);
  }

  /** The parts are within the bounds and the node is: so the whole is. */
  lemma Measured(e: Expr, x: nat, d: nat)
    requires var d' := if IsDecode(e) then d + 1 else d;
             forall k :: 0 <= k < |Operands(e)| ==> (Fits(Operands(e)[k], x + 1, d') <==>
               x + 1 + Height(Operands(e)[k]) <= MAX_EXPR_DEPTH && d' + Layers(Operands(e)[k]) <= MAX_FOLD_DEPTH && AllSized(Operands(e)[k]))
    requires AllSized(e) <==> Sized(e) && forall k :: 0 <= k < |Operands(e)| ==> AllSized(Operands(e)[k])
    ensures FitsHere(e, x, d) && PartsFit(e, x, d)
       <==> x + Height(e) <= MAX_EXPR_DEPTH && d + Layers(e) <= MAX_FOLD_DEPTH && AllSized(e)
  {
    var d' := if IsDecode(e) then d + 1 else d;
    assert Height(e) == Below(e, |Operands(e)|) && Layers(e) == LayersBelow(e, |Operands(e)|) + if IsDecode(e) then 1 else 0;
    hide Operands, Fits, Below, LayersBelow, Sized, AllSized, Height, Layers;
    if x <= MAX_EXPR_DEPTH && d' <= MAX_FOLD_DEPTH {
      MostBelow(e, |Operands(e)|, MAX_EXPR_DEPTH - x, MAX_FOLD_DEPTH - d');
    }
  }

  /** Of every expression that means something in Python and is read as it is written: the folder gives
      the bytes of what it means exactly when it takes everything in it and it is within the bounds. */
  lemma ResultIs(e: Expr)
    requires AsWritten(e) && Meaning(e).Some?
    ensures Result(e, 0, 0) == if TakesAll(e) && Height(e) <= MAX_EXPR_DEPTH && Layers(e) <= MAX_FOLD_DEPTH && AllSized(e)
                               then Some(Encoded(Meaning(e).value)) else None
  {
    FoldedIff(e);
    if Value(e).Some? {
      FoldMeans(e);
      FitsIff(e, 0, 0);
    }
    hide TakesAll, AllSized, Height, Layers, Value, Meaning, Encoded, Fits, AsWritten;
  }
}
