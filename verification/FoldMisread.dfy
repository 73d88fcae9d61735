/** Literals, operands, reversals and Base64 that the folder reads otherwise than Python does, at
    whole expressions. */
module FoldMisread {
  import opened Octets
  import opened Options
  import opened Decoders
  import opened Literals
  import opened Fold
  import opened FoldMeaning
  import opened Texts
  import PythonDecoders
  import PythonLiterals

  // ---- plain literals ----

  predicate IsPlain(c: Scalar) {
    c != 0 && c != 10 && c != 13 && c != SINGLE && c != DOUBLE && c != BACKSLASH
  }

  predicate ArePlain(t: seq<Scalar>) {
    forall k :: 0 <= k < |t| ==> IsPlain(t[k])
  }

  function Quoted(t: seq<Scalar>): seq<Scalar> {
    [SINGLE] + t + [SINGLE]
  }

  lemma {:induction false} PlainUnescapes(t: seq<Scalar>)
    requires ArePlain(t)
    ensures Unescaped(t) == Some(Utf8All(t))
  {
    if t != [] {
      PlainUnescapes(t[1..]);
      Utf8Cons(t[0], t[1..]);
      assert [t[0]] + t[1..] == t;
      hide Utf8Of, Utf8All;
    }
  }

  lemma {:induction false} PlainInside(t: seq<Scalar>)
    requires ArePlain(t)
    ensures PythonLiterals.Inside(t + [SINGLE], [SINGLE], false, false) == Some(t)
  {
    if t != [] {
      var s := t + [SINGLE];
      PlainInside(t[1..]);
      assert s[1..] == t[1..] + [SINGLE] && s[0] == t[0];
      hide PythonLiterals.More, PythonLiterals.MeantBy;
      assert PythonLiterals.Inside(s, [SINGLE], false, false) == PythonLiterals.Then([s[0]], PythonLiterals.Inside(s[1..], [SINGLE], false, false));
      assert [t[0]] + t[1..] == t;
    } else {
      assert t + [SINGLE] == [SINGLE];
    }
  }

  lemma QuotedInner(t: seq<Scalar>)
    requires t != [] ==> t[0] != SINGLE
    ensures Quoted(t)[0] == SINGLE && FirstQuote(Quoted(t)) == Some(0) && Inner(Quoted(t)[0..]) == Some(t)
  {
    var s := Quoted(t);
    assert s[0..] == s && s[0] == SINGLE;
    assert s[1..|s| - 1] == t && s[..1] == [SINGLE] && s[|s| - 1..] == [SINGLE];
    if |s| >= 6 {
      assert s[..3][1] == t[0];
    }
  }

  /** A text in single quotes: the folder takes what stands between the first quote and the last, and
      Python reads to the first that closes it. */
  lemma QuotedBytes(t: seq<Scalar>)
    requires t != [] ==> t[0] != SINGLE
    ensures LiteralBytes(Quoted(t)) == Unescaped(t)
  {
    QuotedInner(t);
    var s := Quoted(t);
    assert s[..0] == [];
    hide Unescaped, Inner, FirstQuote, Quoted;
  }

  lemma QuotedMeans(t: seq<Scalar>)
    requires t != [] ==> t[0] != SINGLE
    ensures var inside := PythonLiterals.Inside(t + [SINGLE], [SINGLE], false, false);
            LiteralMeaning(Quoted(t)) == if inside.Some? then Some(Str(inside.value)) else None
  {
    QuotedInner(t);
    var s := Quoted(t);
    assert s[..0] == [] && s[1..] == t + [SINGLE];
    assert |t| > 0 ==> s[1] == t[0];
    hide PythonLiterals.Inside, Inner, FirstQuote, Quoted;
    assert PythonLiterals.OpeningOf(s) == Some(PythonLiterals.Opening(0, [SINGLE], false, false));
  }

  lemma PlainLiteral(t: seq<Scalar>)
    requires ArePlain(t)
    ensures LiteralBytes(Quoted(t)) == Some(Utf8All(t)) && LiteralMeaning(Quoted(t)) == Some(Str(t))
  {
    QuotedBytes(t);
    QuotedMeans(t);
    PlainUnescapes(t);
    PlainInside(t);
    hide LiteralBytes, LiteralMeaning, Unescaped, PythonLiterals.Inside, Utf8All, Quoted;
  }

  lemma TextFolds(source: seq<Scalar>)
    ensures Result(Text(source), 0, 0) == Value(Text(source)) == LiteralBytes(source) && Meaning(Text(source)) == LiteralMeaning(source)
    ensures Fits(Text(source), 1, 0) && Fits(Text(source), 1, 1)
  {
    hide LiteralBytes, LiteralMeaning;
  }

  /** ASCII bytes as characters. */
  function Chars(b: Bytes): (r: seq<Scalar>)
    requires forall k :: 0 <= k < |b| ==> b[k] < 0x80
    ensures |r| == |b| && forall k :: 0 <= k < |b| ==> r[k] == b[k] as int
  {
    seq(|b|, i requires 0 <= i < |b| => b[i] as int)
  }

  lemma {:induction false} CharsBytes(b: Bytes)
    requires forall k :: 0 <= k < |b| ==> b[k] < 0x80
    ensures Utf8All(Chars(b)) == b
  {
    if b != [] {
      CharsBytes(b[..|b| - 1]);
      assert Chars(b)[..|b| - 1] == Chars(b[..|b| - 1]);
      assert Utf8Of(Chars(b)[|b| - 1]) == [b[|b| - 1]];
    }
  }

  // ---- operands ----

  /** A repetition by `~5` is of nothing, and is folded to five copies. */
  lemma InvertedCountIsMisread(source: seq<Scalar>)
    requires LiteralBytes(source).Some? && LiteralBytes(source).value != [] && |LiteralBytes(source).value| * 5 <= MAX_FOLD_BYTES
    requires LiteralMeaning(source).Some?
    ensures var e := Binary(Repeat, Text(source), Unary(Invert, [Int(Some(5))]));
            Result(e, 0, 0) == Some(Repeated(LiteralBytes(source).value, 5)) && Meaning(e).Some? && Encoded(Meaning(e).value) == []
  {
    TextFolds(source);
    CountInverted();
    hide *;
    var t, count := Text(source), Unary(Invert, [Int(Some(5))]);
    RepeatFolds(t, count);
    EmptyBytes(Meaning(t).value);
  }

  lemma CountInverted()
    ensures var count := Unary(Invert, [Int(Some(5))]); IntOf(count) == Some(5) && TrueInt(count) == Some(-6)
  {
  }

  lemma RepeatFolds(t: Expr, count: Expr)
    requires IntOf(count) == Some(5) && TrueInt(count) == Some(-6) && Fits(t, 1, 0)
    requires Value(t).Some? && Meaning(t).Some? && |Value(t).value| * 5 <= MAX_FOLD_BYTES
    ensures var e := Binary(Repeat, t, count); Result(e, 0, 0) == Some(Repeated(Value(t).value, 5)) && Meaning(e) == Some(Empty(Meaning(t).value))
  {
    hide Repeated, IntOf, TrueInt, Empty;
  }

  /** An operator before a text, or brackets around it, are passed over, though neither gives a text. */
  lemma OperatorsArePassedOver(source: seq<Scalar>, op: UnaryOp)
    requires LiteralBytes(source).Some?
    ensures var e := Unary(op, [Text(source)]); Result(e, 0, 0) == LiteralBytes(source) && Meaning(e) == None
    ensures var e := Display([Text(source)]); Result(e, 0, 0) == LiteralBytes(source) && Meaning(e) == None
  {
    var t := Text(source);
    assert Value(t) == LiteralBytes(source) && Fits(t, 1, 0);
    hide LiteralBytes;
  }

  // ---- reversal ----

  /** One accented letter reversed is itself, and is folded to its two bytes the wrong way round. */
  lemma AccentIsMisread()
    ensures var e := Subscript(true, Text(Quoted([0xE9])));
            Result(e, 0, 0) == Some([0xA9, 0xC3]) && Meaning(e) == Some(Str([0xE9])) && Encoded(Str([0xE9])) == [0xC3, 0xA9]
  {
    PlainLiteral([0xE9]);
    OnePoint(0xE9);
    assert Utf8Of(0xE9) == [0xC3, 0xA9];
    Accent();
    hide *;
    ReversalFolds(Quoted([0xE9]));
    EncodedText([0xE9]);
  }

  lemma EncodedText(t: seq<Scalar>)
    ensures Encoded(Str(t)) == Utf8All(t)
  {
  }

  lemma ReversalFolds(source: seq<Scalar>)
    requires LiteralBytes(source).Some? && LiteralMeaning(source).Some?
    ensures var e := Subscript(true, Text(source));
            Result(e, 0, 0) == Some(Backwards(LiteralBytes(source).value)) && Meaning(e) == Some(Turned(LiteralMeaning(source).value))
  {
    TextFolds(source);
    hide LiteralBytes, LiteralMeaning, Backwards, Turned;
  }

  lemma Accent()
    ensures Backwards([0xC3, 0xA9]) == [0xA9, 0xC3] && Turned(Str([0xE9])) == Str([0xE9])
  {
    assert [0xC3 as byte, 0xA9][1..] == [0xA9] && [0xA9 as byte][1..] == [];
    var ps: seq<Scalar> := [0xE9];
    assert Flipped(ps) == ps;
  }

  // ---- literals ----

  const BYTES_PREFIX: Scalar := 98

  /** `b'\012'` is a line feed, and is folded to a zero and two digits. */
  lemma OctalIsMisread()
    ensures var e := Text([BYTES_PREFIX, SINGLE, BACKSLASH, 48, 49, 50, SINGLE]);
            Result(e, 0, 0) == Some([0, 49, 50]) && Meaning(e) == Some(Raw([10]))
  {
    var s: seq<Scalar>, t: seq<Scalar> := [BYTES_PREFIX, SINGLE, BACKSLASH, 48, 49, 50, SINGLE], [BACKSLASH, 48, 49, 50];
    OctalReads(s, t);
    OctalUnescaped(t);
    OctalInside(t + [SINGLE]);
    LineFeed();
    hide *;
    TextFolds(s);
  }

  lemma LineFeed()
    ensures PythonLiterals.Shown([10], true) == [10]
  {
    assert [10 as Scalar][1..] == [];
  }

  lemma OctalReads(s: seq<Scalar>, t: seq<Scalar>)
    requires s == [BYTES_PREFIX, SINGLE, BACKSLASH, 48, 49, 50, SINGLE] && t == [BACKSLASH, 48, 49, 50]
    ensures LiteralBytes(s) == Unescaped(t)
    ensures var inside := PythonLiterals.Inside(t + [SINGLE], [SINGLE], false, true);
            LiteralMeaning(s) == if inside.Some? then Some(Raw(PythonLiterals.Shown(inside.value, true))) else None
  {
    OctalOpens(s);
    assert s[2..] == t + [SINGLE] && s[..1] == [BYTES_PREFIX];
    hide Unescaped, PythonLiterals.Inside, PythonLiterals.OpeningOf, Inner, FirstQuote, PythonLiterals.Shown;
  }

  lemma OctalOpens(s: seq<Scalar>)
    requires s == [BYTES_PREFIX, SINGLE, BACKSLASH, 48, 49, 50, SINGLE]
    ensures FirstQuote(s) == Some(1) && Inner(s[1..]) == Some([BACKSLASH, 48, 49, 50])
    ensures PythonLiterals.OpeningOf(s) == Some(PythonLiterals.Opening(1, [SINGLE], false, true))
  {
    var at := FirstQuote(s).value;
    assert s[0] != SINGLE && s[0] != DOUBLE && s[1] == SINGLE;
    assert at == 1;
    var body := s[1..];
    assert body == [SINGLE, BACKSLASH, 48, 49, 50, SINGLE];
    assert body[..3][1] == BACKSLASH;
    assert body[..1] == [SINGLE] && body[5..] == [SINGLE] && body[1..5] == [BACKSLASH, 48, 49, 50];
    assert s[..1] == [BYTES_PREFIX] && PythonLiterals.IsB(s[..1][0]);
  }

  lemma OctalUnescaped(t: seq<Scalar>)
    requires t == [BACKSLASH, 48, 49, 50]
    ensures Unescaped(t) == Some([0, 49, 50])
  {
    var u: seq<Scalar> := [49, 50];
    assert t[2..] == u;
    assert [0 as byte] + [49, 50] == [0, 49, 50];
    ZeroFirst(t);
    hide *;
    UnescapedPlain(u);
    AsciiText(u, [49, 50]);
  }

  lemma ZeroFirst(t: seq<Scalar>)
    requires |t| >= 2 && t[0] == BACKSLASH && t[1] == 48
    ensures Unescaped(t[2..]).Some? ==> Unescaped(t) == Some([0] + Unescaped(t[2..]).value)
  {
  }

  lemma OctalInside(s: seq<Scalar>)
    requires s == [BACKSLASH, 48, 49, 50, SINGLE]
    ensures PythonLiterals.Inside(s, [SINGLE], false, true) == Some([10])
  {
    assert PythonLiterals.MeantBy(s, true) == Some(PythonLiterals.Meant([10], 4));
    assert s[4..] == [SINGLE];
    assert PythonLiterals.Inside([SINGLE], [SINGLE], false, true) == Some([]);
    hide PythonLiterals.More, PythonLiterals.MeantBy;
    assert [10 as Scalar] + [] == [10];
  }

  /** `'a' 'b'` is `ab`, and is folded with the quotes between. */
  lemma AdjacentIsMisread()
    ensures var e := Text(Quoted([97, SINGLE, 32, SINGLE, 98]));
            Result(e, 0, 0) == Some([97, 39, 32, 39, 98]) && Meaning(e) == Some(Str([97, 98]))
  {
    var t: seq<Scalar> := [97, SINGLE, 32, SINGLE, 98];
    FoldedAround(t);
    AsciiText(t, [97, 39, 32, 39, 98]);
    hide *;
    AdjacentMeans();
    TextFolds(Quoted(t));
  }

  lemma AsciiText(t: seq<Scalar>, b: Bytes)
    requires |t| == |b| && forall k :: 0 <= k < |t| ==> t[k] == b[k] as int && t[k] < 0x80
    ensures Utf8All(t) == b && IsAscii(t)
  {
    assert Chars(b) == t;
    CharsBytes(b);
    hide Utf8All;
  }

  lemma AdjacentMeans()
    ensures LiteralMeaning(Quoted([97, SINGLE, 32, SINGLE, 98])) == Some(Str([97, 98]))
  {
    var t: seq<Scalar>, r: seq<Scalar> := [97, SINGLE, 32, SINGLE, 98], [97, SINGLE, 32, SINGLE, 98, SINGLE];
    QuotedMeans(t);
    assert t + [SINGLE] == r;
    var after: seq<Scalar>, rest: seq<Scalar>, second: seq<Scalar> := [SINGLE, 32, SINGLE, 98, SINGLE], [32, SINGLE, 98, SINGLE], [SINGLE, 98, SINGLE];
    assert r[1..] == after && after[1..] == rest && rest[1..] == second;
    SecondMeans(second);
    assert PythonLiterals.More(rest, false) == PythonLiterals.More(second, false);
    assert PythonLiterals.Inside(after, [SINGLE], false, false) == Some([98]);
    assert PythonLiterals.Inside(r, [SINGLE], false, false) == Some([97] + [98 as Scalar]);
    assert [97 as Scalar] + [98] == [97, 98];
    hide *;
  }

  lemma SecondMeans(s: seq<Scalar>)
    requires s == [SINGLE, 98, SINGLE]
    ensures PythonLiterals.More(s, false) == Some([98])
  {
    var t: seq<Scalar> := [98];
    assert ArePlain(t);
    PlainInside(t);
    assert s[1..] == t + [SINGLE] && s[..0] == [];
    assert FirstQuote(s) == Some(0);
    hide PythonLiterals.Inside;
    assert PythonLiterals.OpeningOf(s) == Some(PythonLiterals.Opening(0, [SINGLE], false, false));
  }

  /** Whatever stands between the first quote and the last is folded, unless it has a backslash. */
  lemma FoldedAround(t: seq<Scalar>)
    requires |t| > 0 && BACKSLASH !in t && t[0] != SINGLE
    ensures LiteralBytes(Quoted(t)) == Some(Utf8All(t))
  {
    QuotedBytes(t);
    UnescapedPlain(t);
    hide *;
  }

  lemma {:induction false} UnescapedPlain(t: seq<Scalar>)
    requires BACKSLASH !in t
    ensures Unescaped(t) == Some(Utf8All(t))
  {
    if t != [] {
      UnescapedPlain(t[1..]);
      Utf8Cons(t[0], t[1..]);
      assert [t[0]] + t[1..] == t;
      hide Utf8Of, Utf8All;
    }
  }

  /** A literal beside a formatted one is folded, formatting and all, where the formatted one alone is
      refused. */
  lemma FormattedIsFolded()
    ensures var e := Text(Quoted([97, SINGLE, 32, 102, SINGLE, 123, 120, 125]));
            Result(e, 0, 0) == Some([97, 39, 32, 102, 39, 123, 120, 125]) && Meaning(e) == None
    ensures Value(Text([102, SINGLE, 123, 120, 125, SINGLE])) == None
  {
    var t: seq<Scalar> := [97, SINGLE, 32, 102, SINGLE, 123, 120, 125];
    hide *;
    FoldedAround(t);
    AsciiText(t, [97, 39, 32, 102, 39, 123, 120, 125]);
    FormattedAlone();
    FormattedMeans();
    TextFolds(Quoted(t));
    TextFolds([102, SINGLE, 123, 120, 125, SINGLE]);
  }

  lemma FormattedAlone()
    ensures LiteralBytes([102, SINGLE, 123, 120, 125, SINGLE]) == None
  {
    var f: seq<Scalar> := [102, SINGLE, 123, 120, 125, SINGLE];
    assert f[1] == SINGLE && FirstQuote(f) == Some(1) && f[..1][0] == 102;
  }

  lemma NoMore(rest: seq<Scalar>, second: seq<Scalar>)
    requires second == [102, SINGLE, 123, 120, 125, SINGLE] && rest == [32] + second
    ensures PythonLiterals.More(rest, false) == None
  {
    assert rest[1..] == second && second[1] == SINGLE;
    assert FirstQuote(second) == Some(1) && second[..1][0] == 102;
    assert PythonLiterals.OpeningOf(second) == None;
    hide FirstQuote, PythonLiterals.OpeningOf, PythonLiterals.Inside;
    assert PythonLiterals.More(second, false) == None;
  }

  lemma FormattedMeans()
    ensures LiteralMeaning(Quoted([97, SINGLE, 32, 102, SINGLE, 123, 120, 125])) == None
  {
    var t: seq<Scalar>, r: seq<Scalar> := [97, SINGLE, 32, 102, SINGLE, 123, 120, 125], [97, SINGLE, 32, 102, SINGLE, 123, 120, 125, SINGLE];
    QuotedMeans(t);
    assert t + [SINGLE] == r;
    var after: seq<Scalar>, rest: seq<Scalar>, second: seq<Scalar> :=
      [SINGLE, 32, 102, SINGLE, 123, 120, 125, SINGLE], [32, 102, SINGLE, 123, 120, 125, SINGLE], [102, SINGLE, 123, 120, 125, SINGLE];
    assert r[1..] == after && after[1..] == rest && rest[1..] == second;
    hide LiteralMeaning, PythonLiterals.OpeningOf, PythonLiterals.MeantBy;
    NoMore(rest, second);
    assert PythonLiterals.Inside(after, [SINGLE], false, false) == None;
    assert PythonLiterals.Inside(r, [SINGLE], false, false) == None;
    hide *;
  }

  // ---- base64 ----

  function B64(source: seq<Scalar>): Expr {
    CallOf(Callee.Decode(B64Decode), None, [Text(source)])
  }

  lemma B64Folds(t: seq<Scalar>, b: Bytes)
    requires ArePlain(t) && AnyBase64(Utf8All(t), false) == Some(b) && |Symbols(Utf8All(t))| / 4 * 3 <= MAX_FOLD_BYTES && |b| <= MAX_FOLD_BYTES
    ensures Result(B64(Quoted(t)), 0, 0) == Some(b) && Meaning(B64(Quoted(t))) == FromBase64(Str(t), false)
  {
    PlainLiteral(t);
    EncodedText(t);
    hide *;
    CallFolds(Quoted(t), b);
  }

  lemma CallFolds(source: seq<Scalar>, b: Bytes)
    requires LiteralBytes(source).Some? && LiteralMeaning(source).Some? && |b| <= MAX_FOLD_BYTES
    requires AnyBase64(LiteralBytes(source).value, false) == Some(b) && |Symbols(LiteralBytes(source).value)| / 4 * 3 <= MAX_FOLD_BYTES
    ensures Result(B64(source), 0, 0) == Some(b) && Meaning(B64(source)) == FromBase64(LiteralMeaning(source).value, false)
  {
    B64Value(source);
    B64Meaning(source);
    B64Fits(source);
    hide Value, Meaning, Fits, LiteralBytes, LiteralMeaning, AnyBase64, Symbols, FromBase64, B64;
  }

  lemma B64Value(source: seq<Scalar>)
    ensures LiteralBytes(source).Some? ==> Value(B64(source)) == AnyBase64(LiteralBytes(source).value, false)
  {
    hide *;
    TextFolds(source);
    B64Decodes(source);
    CallUnfolds(B64(source), 0, 0);
  }

  lemma B64Decodes(source: seq<Scalar>)
    ensures B64(source).CallOf?
    ensures CallValue(B64(source)) == if Value(Text(source)).Some? then AnyBase64(Value(Text(source)).value, false) else None
  {
    hide Value, AnyBase64;
  }

  lemma B64Meaning(source: seq<Scalar>)
    ensures LiteralMeaning(source).Some? ==> Meaning(B64(source)) == FromBase64(LiteralMeaning(source).value, false)
  {
    hide *;
    TextFolds(source);
    B64Call(source);
    CallMeansIt(B64(source));
  }

  lemma B64Call(source: seq<Scalar>)
    ensures B64(source).CallOf?
    ensures CallMeaning(B64(source)) == if Meaning(Text(source)).Some? then FromBase64(Meaning(Text(source)).value, false) else None
  {
    hide Meaning, FromBase64;
  }

  lemma B64Fits(source: seq<Scalar>)
    requires LiteralBytes(source).Some? && |Symbols(LiteralBytes(source).value)| / 4 * 3 <= MAX_FOLD_BYTES && Small(Value(B64(source)))
    ensures Fits(B64(source), 0, 0)
  {
    CallUnfolds(B64(source), 0, 0);
    TextFolds(source);
    hide Value, Fits, LiteralBytes, Symbols;
  }

  lemma CallMeansIt(e: Expr)
    requires e.CallOf?
    ensures Meaning(e) == CallMeaning(e)
  {
    hide CallMeaning;
  }

  lemma {:induction false} UnpaddedFails(s: Bytes, urlSafe: bool, quad: nat, left: nat, pads: nat)
    requires PythonDecoders.State(quad, left) && AllSymbols(s) && PythonDecoders.Streamed(s, urlSafe, quad, left).Some? && (quad + |s|) % 4 != 0
    ensures PythonDecoders.Lenient(s, urlSafe, quad, left, pads) == None
  {
    if s != [] {
      var rest := s[1..];
      assert s == [s[0]] + rest;
      PythonDecoders.StreamedSymbol(s[0], rest, urlSafe, quad, left);
      PythonDecoders.SymbolFacts(s[0], urlSafe);
      var v := ValueOf(s[0], urlSafe).value;
      PythonDecoders.NextState(quad, left, v);
      hide ValueOf, PythonDecoders.SymbolValue, IsSpace, PythonDecoders.Streamed, PythonDecoders.Completed, PythonDecoders.LeftOver;
      UnpaddedFails(rest, urlSafe, (quad + 1) % 4, PythonDecoders.LeftOver(quad, v), 0);
    }
  }

  lemma EncodeGrows(bytes: Bytes, urlSafe: bool)
    ensures |bytes| >= 3 ==> |Encode(bytes, urlSafe)| == 4 + |Encode(bytes[3..], urlSafe)|
    ensures |bytes| < 3 ==> |Encode(bytes, urlSafe)| == if |bytes| == 0 then 0 else |bytes| + 1
  {
    hide SymbolOf;
  }

  lemma {:induction false} EncodeLength(bytes: Bytes, urlSafe: bool)
    ensures |Encode(bytes, urlSafe)| % 4 == 0 <==> |bytes| % 3 == 0
    ensures |Encode(bytes, urlSafe)| / 4 * 3 <= |bytes|
    decreases |bytes|
  {
    EncodeGrows(bytes, urlSafe);
    hide *;
    if |bytes| >= 3 {
      EncodeLength(bytes[3..], urlSafe);
    }
  }

  lemma EncodedIsPlain(bytes: Bytes, urlSafe: bool)
    ensures forall k :: 0 <= k < |Encode(bytes, urlSafe)| ==> Encode(bytes, urlSafe)[k] < 0x80
    ensures ArePlain(Chars(Encode(bytes, urlSafe)))
  {
    var s := Encode(bytes, urlSafe);
    EncodedDecodes(bytes, urlSafe);
    PythonDecoders.StreamedAscii(s, urlSafe, 0, 0);
    forall k | 0 <= k < |s| ensures IsPlain(Chars(s)[k]) {
      PythonDecoders.StreamedValued(s, urlSafe, 0, 0, k);
    }
    hide Encode;
  }

  lemma EncodedDecodes(bytes: Bytes, urlSafe: bool)
    ensures var s := Encode(bytes, urlSafe);
            && AllSymbols(s) && Symbols(s) == s && |s| % 4 != 1 && AnyBase64(s, urlSafe) == Some(bytes)
            && PythonDecoders.Streamed(s, urlSafe, 0, 0) == Some(bytes)
  {
    var s := Encode(bytes, urlSafe);
    EncodedAreSymbols(bytes, urlSafe);
    FilterKeeps(s, c => !IsSpace(c));
    assert s + [] == s;
    SymbolsBack(bytes, urlSafe, false, s);
    PythonDecoders.DecodedIsStreamed(s, urlSafe);
    hide Encode, DecodeSymbols, Symbols, PythonDecoders.Streamed;
  }

  /** Base64 without the padding it needs folds to the bytes encoded, where Python raises. */
  lemma UnpaddedIsFolded(bytes: Bytes)
    requires |bytes| % 3 != 0 && |bytes| <= MAX_FOLD_BYTES
    ensures forall k :: 0 <= k < |Encode(bytes, false)| ==> Encode(bytes, false)[k] < 0x80
    ensures var e := B64(Quoted(Chars(Encode(bytes, false)))); Result(e, 0, 0) == Some(bytes) && Meaning(e) == None
  {
    hide *;
    EncodedIsPlain(bytes, false);
    UnpaddedRaises(bytes);
    UnpaddedDecodes(bytes);
    B64Folds(Chars(Encode(bytes, false)), bytes);
  }

  lemma UnpaddedDecodes(bytes: Bytes)
    requires forall k :: 0 <= k < |Encode(bytes, false)| ==> Encode(bytes, false)[k] < 0x80
    requires |bytes| <= MAX_FOLD_BYTES
    ensures var b := Utf8All(Chars(Encode(bytes, false))); AnyBase64(b, false) == Some(bytes) && |Symbols(b)| / 4 * 3 <= MAX_FOLD_BYTES
  {
    hide *;
    CharsBytes(Encode(bytes, false));
    EncodedDecodes(bytes, false);
    EncodeLength(bytes, false);
  }

  lemma EncodedRaises(bytes: Bytes)
    requires |bytes| % 3 != 0
    ensures PythonDecoders.Lenient(Encode(bytes, false), false, 0, 0, 0) == None
  {
    hide *;
    EncodedDecodes(bytes, false);
    EncodeLength(bytes, false);
    AtStart();
    UnpaddedFails(Encode(bytes, false), false, 0, 0, 0);
  }

  lemma AtStart()
    ensures PythonDecoders.State(0, 0)
  {
  }

  lemma UnpaddedRaises(bytes: Bytes)
    requires forall k :: 0 <= k < |Encode(bytes, false)| ==> Encode(bytes, false)[k] < 0x80
    requires |bytes| % 3 != 0
    ensures FromBase64(Str(Chars(Encode(bytes, false))), false) == None
  {
    hide *;
    CharsBytes(Encode(bytes, false));
    EncodedRaises(bytes);
    Raises(Chars(Encode(bytes, false)));
  }

  lemma Raises(t: seq<Scalar>)
    requires PythonDecoders.Lenient(Utf8All(t), false, 0, 0, 0) == None
    ensures FromBase64(Str(t), false) == None
  {
    hide PythonDecoders.Lenient, Utf8All, IsAscii;
  }

  /** `b64decode('QQ==QUJD')` is one byte: Python stops at the padding, and the folder at the end. */
  lemma PaddingInsideIsMisread()
    ensures var e := B64(Quoted([81, 81, 61, 61, 81, 85, 74, 68]));
            Result(e, 0, 0) == Some([65, 4, 20, 36]) && Meaning(e) == Some(Raw([65]))
  {
    var t: seq<Scalar>, s: Bytes := [81, 81, 61, 61, 81, 85, 74, 68], [81, 81, 61, 61, 81, 85, 74, 68];
    AsciiText(t, s);
    hide *;
    PaddedDecodes(s);
    PaddedMeans(s);
    AsciiDecodes(t, [65]);
    PaddedIsPlain();
    B64Folds(t, [65, 4, 20, 36]);
  }

  lemma PaddedIsPlain()
    ensures ArePlain([81, 81, 61, 61, 81, 85, 74, 68])
  {
  }

  lemma AsciiDecodes(t: seq<Scalar>, b: Bytes)
    requires IsAscii(t) && PythonDecoders.PythonBase64(Utf8All(t), false) == Some(b)
    ensures FromBase64(Str(t), false) == Some(Raw(b))
  {
    hide PythonDecoders.PythonBase64, Utf8All, IsAscii;
  }

  lemma PaddedSymbols(s: Bytes)
    requires s == [81, 81, 61, 61, 81, 85, 74, 68]
    ensures Symbols(s) == [81, 81, 81, 85, 74, 68]
  {
    var keep := c => !IsSpace(c) && c != PAD;
    var a: Bytes, p: Bytes, b: Bytes := [81, 81], [61, 61], [81, 85, 74, 68];
    FilterKeeps(a, keep);
    FilterDrops(p, keep);
    FilterKeeps(b, keep);
    FilterConcat(a, p, keep);
    FilterConcat(a + p, b, keep);
    hide Filter;
    assert a + p + b == s;
    assert a + [] + b == [81, 81, 81, 85, 74, 68];
  }

  lemma OneMore(s: Bytes, k: nat, quad: nat, left: nat, after: Bytes, all: Bytes)
    requires k < |s| && PythonDecoders.State(quad, left) && ValueOf(s[k], false).Some?
    requires PythonDecoders.Streamed(s[k + 1..], false, (quad + 1) % 4, PythonDecoders.LeftOver(quad, ValueOf(s[k], false).value)) == Some(after)
    requires all == PythonDecoders.Completed(quad, left, ValueOf(s[k], false).value) + after
    ensures PythonDecoders.Streamed(s[k..], false, quad, left) == Some(all)
  {
    PythonDecoders.StreamStep(s, false, k, quad, left);
    hide ValueOf, PythonDecoders.Completed, PythonDecoders.LeftOver, PythonDecoders.Streamed;
  }

  lemma PaddedDecodes(s: Bytes)
    requires s == [81, 81, 61, 61, 81, 85, 74, 68]
    ensures AnyBase64(s, false) == Some([65, 4, 20, 36]) && |Symbols(s)| / 4 * 3 <= MAX_FOLD_BYTES
  {
    PaddedSymbols(s);
    PythonDecoders.DecodedIsStreamed(Symbols(s), false);
    SixStreamed(Symbols(s));
    hide Symbols, DecodeSymbols, PythonDecoders.Streamed;
  }

  lemma SixStreamed(t: Bytes)
    requires t == [81, 81, 81, 85, 74, 68]
    ensures PythonDecoders.Streamed(t, false, 0, 0) == Some([65, 4, 20, 36])
  {
    assert ValueOf(81, false) == Some(16) && ValueOf(85, false) == Some(20) && ValueOf(74, false) == Some(9) && ValueOf(68, false) == Some(3);
    hide ValueOf, PythonDecoders.Streamed;
    PythonDecoders.StreamEnds(false, 2, 3);
    assert t[6..] == [] && t[0..] == t;
    OneMore(t, 5, 1, 9, [], [36]);
    OneMore(t, 4, 0, 0, [36], [36]);
    OneMore(t, 3, 3, 0, [36], [20, 36]);
    OneMore(t, 2, 2, 0, [20, 36], [4, 20, 36]);
    OneMore(t, 1, 1, 16, [4, 20, 36], [65, 4, 20, 36]);
    OneMore(t, 0, 0, 0, [65, 4, 20, 36], [65, 4, 20, 36]);
  }

  lemma PaddedMeans(s: Bytes)
    requires s == [81, 81, 61, 61, 81, 85, 74, 68]
    ensures PythonDecoders.PythonBase64(s, false) == Some([65])
  {
    var a, b, c := s[1..], s[2..], s[3..];
    assert a[1..] == b && b[1..] == c;
    assert PythonDecoders.Lenient(c, false, 2, 0, 1) == Some([]);
    assert PythonDecoders.Lenient(b, false, 2, 0, 0) == Some([]);
    assert PythonDecoders.Lenient(a, false, 1, 16, 0) == Some([65 as byte] + []);
    assert [65 as byte] + [] == [65];
    assert PythonDecoders.Lenient(s, false, 0, 0, 0) == Some([] + [65 as byte]);
    assert [] + [65 as byte] == [65];
  }
}
