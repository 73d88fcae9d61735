/** What Python's Base64 and hexadecimal decoders give, and exactly where the folder's give the same. */
module PythonDecoders {
  import opened Octets
  import opened Options
  import opened Decoders

  // ---- base64 ----

  /** The value of a symbol of either alphabet; the URL-safe decoder takes both. */
  function SymbolValue(c: byte, urlSafe: bool): (v: Option<nat>)
    ensures v.Some? ==> v.value < 64
  {
    if urlSafe && (c == 45 || c == 95) then ValueOf(c, true) else ValueOf(c, false)
  }

  /** The byte that the symbol of value `v` completes, `left` being what the one before it left over,
      in position `quad` of its four. */
  function Completed(quad: nat, left: nat, v: nat): Bytes
    requires State(quad, left) && v < 64
  {
    if quad == 0 then []
    else if quad == 1 then [(left * 4 + v / 16) as byte]
    else if quad == 2 then [(left * 16 + v / 4) as byte]
    else [(left * 64 + v) as byte]
  }

  function LeftOver(quad: nat, v: nat): nat {
    if quad == 0 then v else if quad == 1 then v % 16 else if quad == 2 then v % 4 else 0
  }

  predicate State(quad: nat, left: nat) {
    quad < 4 && left < 64 && (quad == 2 ==> left < 16) && (quad == 3 ==> left < 4)
  }

  /** Python's decoder, from position `quad` of four symbols and after `pads` of padding. Anything that
      is no symbol is passed over; padding that completes four ends it; four begun and not completed
      are an error. */
  function Lenient(s: Bytes, urlSafe: bool, quad: nat, left: nat, pads: nat): Option<Bytes>
    requires State(quad, left)
  {
    if s == [] then if quad == 0 then Some([]) else None
    else if s[0] == PAD then
      if quad >= 2 && quad + pads + 1 >= 4 then Some([])
      else Lenient(s[1..], urlSafe, quad, left, if quad >= 2 then pads + 1 else pads)
    else
      match SymbolValue(s[0], urlSafe)
      case None => Lenient(s[1..], urlSafe, quad, left, pads)
      case Some(v) => Before(Completed(quad, left, v), Lenient(s[1..], urlSafe, (quad + 1) % 4, LeftOver(quad, v), 0))
  }

  function Before(b: Bytes, rest: Option<Bytes>): Option<Bytes> {
    match rest
    case Some(r) => Some(b + r)
    case None => None
  }

  function PythonBase64(s: Bytes, urlSafe: bool): Option<Bytes> {
    Lenient(s, urlSafe, 0, 0, 0)
  }

  /** No symbol follows padding that completes four, and the last four are complete or padded. */
  predicate PaddedRight(s: Bytes, quad: nat, pads: nat) {
    if s == [] then quad == 0
    else if s[0] == PAD then
      if quad >= 2 && quad + pads + 1 >= 4 then Symbols(s) == []
      else PaddedRight(s[1..], quad, if quad >= 2 then pads + 1 else pads)
    else if IsSpace(s[0]) then PaddedRight(s[1..], quad, pads)
    else PaddedRight(s[1..], (quad + 1) % 4, 0)
  }

  // ---- the folder's decoder, symbol by symbol ----

  function Streamed(symbols: Bytes, urlSafe: bool, quad: nat, left: nat): Option<Bytes>
    requires State(quad, left)
  {
    if symbols == [] then Some([])
    else
      match ValueOf(symbols[0], urlSafe)
      case None => None
      case Some(v) => Before(Completed(quad, left, v), Streamed(symbols[1..], urlSafe, (quad + 1) % 4, LeftOver(quad, v)))
  }

  /** What the symbols of a chunk are worth. */
  function Worth(chunk: Bytes, urlSafe: bool): nat
    requires |chunk| <= 4 && forall k :: 0 <= k < |chunk| ==> ValueOf(chunk[k], urlSafe).Some?
  {
    (if |chunk| > 0 then ValueOf(chunk[0], urlSafe).value * 0x4_0000 else 0)
    + (if |chunk| > 1 then ValueOf(chunk[1], urlSafe).value * 0x1000 else 0)
    + (if |chunk| > 2 then ValueOf(chunk[2], urlSafe).value * 0x40 else 0)
    + (if |chunk| > 3 then ValueOf(chunk[3], urlSafe).value else 0)
  }

  lemma {:induction false} ChunkOf(chunk: Bytes, urlSafe: bool)
    requires |chunk| <= 4
    ensures ChunkValue(chunk, urlSafe).Some? <==> forall k :: 0 <= k < |chunk| ==> ValueOf(chunk[k], urlSafe).Some?
    ensures ChunkValue(chunk, urlSafe).Some? ==> ChunkValue(chunk, urlSafe).value == Worth(chunk, urlSafe)
  {
    if chunk != [] {
      ChunkOf(chunk[..|chunk| - 1], urlSafe);
      hide ValueOf;
    }
  }

  /** The bytes that four symbols' values make up. */
  function First(a: nat, b: nat): byte
    requires a < 64 && b < 64
  {
    (a * 4 + b / 16) as byte
  }

  function Second(b: nat, c: nat): byte
    requires b < 64 && c < 64
  {
    (b % 16 * 16 + c / 4) as byte
  }

  function Third(c: nat, d: nat): byte
    requires c < 64 && d < 64
  {
    (c % 4 * 64 + d) as byte
  }

  lemma BytesOf(a: nat, b: nat, c: nat, d: nat)
    requires a < 64 && b < 64 && c < 64 && d < 64
    ensures var w := a * 0x4_0000 + b * 0x1000 + c * 0x40 + d;
            && ByteAt(w, 0) == First(a, b) && ByteAt(w, 1) == Second(b, c) && ByteAt(w, 2) == Third(c, d)
  {
    var w := a * 0x4_0000 + b * 0x1000 + c * 0x40 + d;
    var h, m, l := a * 4 + b / 16, b % 16 * 16 + c / 4, c % 4 * 64 + d;
    assert b * 0x1000 == b / 16 * 0x1_0000 + b % 16 * 0x1000;
    assert c * 0x40 == c / 4 * 0x100 + c % 4 * 0x40;
    assert w == h * 0x1_0000 + m * 0x100 + l;
    Digits256(h, m, l);
  }

  lemma Digits256(h: nat, m: nat, l: nat)
    requires h < 256 && m < 256 && l < 256
    ensures var w := h * 0x1_0000 + m * 0x100 + l; w / 0x1_0000 % 256 == h && w / 0x100 % 256 == m && w % 256 == l
  {
    var w := h * 0x1_0000 + m * 0x100 + l;
    assert w / 0x100 == h * 0x100 + m && w / 0x1_0000 == h;
  }

  lemma BeforeBoth(a: Bytes, b: Bytes, rest: Option<Bytes>)
    ensures Before(a, Before(b, rest)) == Before(a + b, rest) && Before([], rest) == rest
  {
    if rest.Some? {
      assert a + (b + rest.value) == a + b + rest.value && [] + rest.value == rest.value;
    }
  }

  /** The value of the `k`-th symbol, and zero past the last. */
  function At(symbols: Bytes, urlSafe: bool, k: nat): (v: nat)
    ensures v < 64
  {
    if k < |symbols| && ValueOf(symbols[k], urlSafe).Some? then ValueOf(symbols[k], urlSafe).value else 0
  }

  ghost predicate AllValued(symbols: Bytes, urlSafe: bool, n: nat) {
    forall k :: 0 <= k < n && k < |symbols| ==> ValueOf(symbols[k], urlSafe).Some?
  }

  lemma StreamStep(symbols: Bytes, urlSafe: bool, k: nat, quad: nat, left: nat)
    requires k < |symbols| && State(quad, left)
    ensures Streamed(symbols[k..], urlSafe, quad, left)
         == match ValueOf(symbols[k], urlSafe)
            case None => None
            case Some(v) => Before(Completed(quad, left, v), Streamed(symbols[k + 1..], urlSafe, (quad + 1) % 4, LeftOver(quad, v)))
  {
    assert symbols[k..][1..] == symbols[k + 1..];
    hide ValueOf;
  }

  /** What `n` symbols carry. */
  function Carried(symbols: Bytes, urlSafe: bool, n: nat): Bytes {
    var a, b, c, d := At(symbols, urlSafe, 0), At(symbols, urlSafe, 1), At(symbols, urlSafe, 2), At(symbols, urlSafe, 3);
    if n <= 1 then []
    else if n == 2 then [First(a, b)]
    else if n == 3 then [First(a, b), Second(b, c)]
    else [First(a, b), Second(b, c), Third(c, d)]
  }

  /** After `n` symbols of four. */
  function LeftAfter(symbols: Bytes, urlSafe: bool, n: nat): (left: nat)
    ensures n < 4 ==> State(n, left)
  {
    if n == 0 || n >= 4 then 0 else LeftOver(n - 1, At(symbols, urlSafe, n - 1))
  }

  lemma {:induction false} StreamChunk(symbols: Bytes, urlSafe: bool, n: nat)
    requires n <= |symbols| && n <= 4 && AllValued(symbols, urlSafe, n)
    ensures Streamed(symbols, urlSafe, 0, 0) == Before(Carried(symbols, urlSafe, n), Streamed(symbols[n..], urlSafe, n % 4, LeftAfter(symbols, urlSafe, n)))
  {
    hide Streamed, Before, Carried, LeftAfter, LeftOver, Completed, ValueOf, At, AllValued;
    if n == 0 {
      assert symbols[0..] == symbols;
      BeforeBoth([], [], Streamed(symbols, urlSafe, 0, 0));
      CarriesNothing(symbols, urlSafe);
    } else {
      ValuedBefore(symbols, urlSafe, n);
      StreamChunk(symbols, urlSafe, n - 1);
      var left, v := LeftAfter(symbols, urlSafe, n - 1), At(symbols, urlSafe, n - 1);
      StreamValued(symbols, urlSafe, n - 1, n - 1, left);
      LeftIs(symbols, urlSafe, n);
      BeforeBoth(Carried(symbols, urlSafe, n - 1), Completed(n - 1, left, v), Streamed(symbols[n..], urlSafe, n % 4, LeftOver(n - 1, v)));
      CarriedNext(symbols, urlSafe, n);
    }
  }

  lemma CarriesNothing(symbols: Bytes, urlSafe: bool)
    ensures Carried(symbols, urlSafe, 0) == [] && LeftAfter(symbols, urlSafe, 0) == 0
  {
    hide At;
  }

  lemma ValuedBefore(symbols: Bytes, urlSafe: bool, n: nat)
    requires 1 <= n <= |symbols| && AllValued(symbols, urlSafe, n)
    ensures AllValued(symbols, urlSafe, n - 1) && ValueOf(symbols[n - 1], urlSafe).Some?
  {
    hide ValueOf;
  }

  lemma LeftIs(symbols: Bytes, urlSafe: bool, n: nat)
    requires 1 <= n <= 4
    ensures LeftAfter(symbols, urlSafe, n) == LeftOver(n - 1, At(symbols, urlSafe, n - 1))
  {
    hide At;
  }

  lemma StreamValued(symbols: Bytes, urlSafe: bool, k: nat, quad: nat, left: nat)
    requires k < |symbols| && State(quad, left) && ValueOf(symbols[k], urlSafe).Some?
    ensures var v := At(symbols, urlSafe, k);
            && State((quad + 1) % 4, LeftOver(quad, v))
            && Streamed(symbols[k..], urlSafe, quad, left) == Before(Completed(quad, left, v), Streamed(symbols[k + 1..], urlSafe, (quad + 1) % 4, LeftOver(quad, v)))
  {
    StreamStep(symbols, urlSafe, k, quad, left);
    hide Streamed, Before, ValueOf;
  }

  lemma CarriedNext(symbols: Bytes, urlSafe: bool, n: nat)
    requires 1 <= n <= 4
    ensures Carried(symbols, urlSafe, n - 1) + Completed(n - 1, LeftAfter(symbols, urlSafe, n - 1), At(symbols, urlSafe, n - 1)) == Carried(symbols, urlSafe, n)
  {
    hide At;
  }

  lemma StreamEnds(urlSafe: bool, quad: nat, left: nat)
    requires State(quad, left)
    ensures Streamed([], urlSafe, quad, left) == Some([])
  {
  }

  lemma FirstThree(w: nat)
    ensures FirstBytes(w, 0) == [] && FirstBytes(w, 1) == [ByteAt(w, 0)]
    ensures FirstBytes(w, 2) == [ByteAt(w, 0), ByteAt(w, 1)] && FirstBytes(w, 3) == [ByteAt(w, 0), ByteAt(w, 1), ByteAt(w, 2)]
  {
    hide ByteAt;
    assert FirstBytes(w, 1) == [] + [ByteAt(w, 0)];
    assert FirstBytes(w, 2) == [ByteAt(w, 0)] + [ByteAt(w, 1)];
    assert FirstBytes(w, 3) == [ByteAt(w, 0), ByteAt(w, 1)] + [ByteAt(w, 2)];
  }

  lemma ChunkWord(symbols: Bytes, urlSafe: bool, n: nat)
    requires symbols != [] && n == (if |symbols| < 4 then |symbols| else 4) && AllValued(symbols, urlSafe, n)
    ensures var a, b, c, d := At(symbols, urlSafe, 0), At(symbols, urlSafe, 1), At(symbols, urlSafe, 2), At(symbols, urlSafe, 3);
            ChunkValue(symbols[..n], urlSafe) == Some(a * 0x4_0000 + b * 0x1000 + c * 0x40 + d)
  {
    ChunkOf(symbols[..n], urlSafe);
    hide ValueOf, ChunkValue;
  }

  lemma ChunkBytes(symbols: Bytes, urlSafe: bool, n: nat)
    requires symbols != [] && n == (if |symbols| < 4 then |symbols| else 4) && AllValued(symbols, urlSafe, n)
    ensures ChunkValue(symbols[..n], urlSafe).Some?
    ensures FirstBytes(ChunkValue(symbols[..n], urlSafe).value, n - 1) == Carried(symbols, urlSafe, n)
  {
    var a, b, c, d := At(symbols, urlSafe, 0), At(symbols, urlSafe, 1), At(symbols, urlSafe, 2), At(symbols, urlSafe, 3);
    ChunkWord(symbols, urlSafe, n);
    BytesOf(a, b, c, d);
    FirstThree(ChunkValue(symbols[..n], urlSafe).value);
    hide *;
    CarriedIs(symbols, urlSafe, n);
  }

  lemma CarriedIs(symbols: Bytes, urlSafe: bool, n: nat)
    ensures var a, b, c, d := At(symbols, urlSafe, 0), At(symbols, urlSafe, 1), At(symbols, urlSafe, 2), At(symbols, urlSafe, 3);
            && (n == 1 ==> Carried(symbols, urlSafe, n) == [])
            && (n == 2 ==> Carried(symbols, urlSafe, n) == [First(a, b)])
            && (n == 3 ==> Carried(symbols, urlSafe, n) == [First(a, b), Second(b, c)])
            && (n == 4 ==> Carried(symbols, urlSafe, n) == [First(a, b), Second(b, c), Third(c, d)])
  {
    hide At;
  }

  lemma {:induction false} NoStream(symbols: Bytes, urlSafe: bool, quad: nat, left: nat, k: nat)
    requires State(quad, left) && k < |symbols| && ValueOf(symbols[k], urlSafe).None?
    ensures Streamed(symbols, urlSafe, quad, left) == None
  {
    hide ValueOf;
    if k > 0 && ValueOf(symbols[0], urlSafe).Some? {
      NoStream(symbols[1..], urlSafe, (quad + 1) % 4, LeftOver(quad, ValueOf(symbols[0], urlSafe).value), k - 1);
    }
  }

  /** Chunk by chunk and symbol by symbol are the same. */
  lemma {:induction false} DecodedIsStreamed(symbols: Bytes, urlSafe: bool)
    ensures DecodeSymbols(symbols, urlSafe) == Streamed(symbols, urlSafe, 0, 0)
    decreases |symbols|
  {
    if symbols != [] {
      var n := if |symbols| < 4 then |symbols| else 4;
      DecodedIsStreamed(symbols[n..], urlSafe);
      if AllValued(symbols, urlSafe, n) {
        ChunkDecoded(symbols, urlSafe, n);
        ChunkStreamed(symbols, urlSafe, n);
      } else {
        ChunkFails(symbols, urlSafe, n);
      }
      hide *;
    }
  }

  lemma ChunkDecoded(symbols: Bytes, urlSafe: bool, n: nat)
    requires symbols != [] && n == (if |symbols| < 4 then |symbols| else 4) && AllValued(symbols, urlSafe, n)
    ensures DecodeSymbols(symbols, urlSafe) == Before(Carried(symbols, urlSafe, n), DecodeSymbols(symbols[n..], urlSafe))
  {
    ChunkBytes(symbols, urlSafe, n);
    hide ValueOf, ChunkValue, FirstBytes, Carried;
  }

  lemma ChunkStreamed(symbols: Bytes, urlSafe: bool, n: nat)
    requires symbols != [] && n == (if |symbols| < 4 then |symbols| else 4) && AllValued(symbols, urlSafe, n)
    ensures Streamed(symbols, urlSafe, 0, 0) == Before(Carried(symbols, urlSafe, n), Streamed(symbols[n..], urlSafe, 0, 0))
  {
    StreamChunk(symbols, urlSafe, n);
    if n < 4 {
      assert symbols[n..] == [];
      StreamEnds(urlSafe, n % 4, LeftAfter(symbols, urlSafe, n));
      StreamEnds(urlSafe, 0, 0);
    } else {
      LeftIs(symbols, urlSafe, n);
    }
    hide Streamed, Carried, ValueOf, At, AllValued, LeftAfter, Before;
  }

  lemma ChunkFails(symbols: Bytes, urlSafe: bool, n: nat)
    requires symbols != [] && n == (if |symbols| < 4 then |symbols| else 4) && !AllValued(symbols, urlSafe, n)
    ensures DecodeSymbols(symbols, urlSafe) == None && Streamed(symbols, urlSafe, 0, 0) == None
  {
    hide ValueOf;
    var k :| 0 <= k < n && ValueOf(symbols[k], urlSafe).None?;
    NoStream(symbols, urlSafe, 0, 0, k);
    ChunkOf(symbols[..n], urlSafe);
    assert symbols[..n][k] == symbols[k];
    hide ChunkValue, FirstBytes, Streamed;
  }

  // ---- both ----

  lemma SymbolsNext(c: byte, s: Bytes)
    ensures Symbols([c] + s) == (if !IsSpace(c) && c != PAD then [c] else []) + Symbols(s)
  {
    var keep := b => !IsSpace(b) && b != PAD;
    FilterConcat([c], s, keep);
    assert [c][..0] == [];
    assert Filter([c], keep) == Filter([], keep) + if keep(c) then [c] else [];
  }

  /** With symbols left and four begun, a symbol completes a byte. */
  lemma StreamsMore(symbols: Bytes, urlSafe: bool, quad: nat, left: nat)
    requires State(quad, left) && quad >= 1 && symbols != [] && Streamed(symbols, urlSafe, quad, left).Some?
    ensures Streamed(symbols, urlSafe, quad, left).value != []
  {
    hide ValueOf;
  }

  lemma SameAfter(b: Bytes, x: Option<Bytes>, y: Option<Bytes>)
    ensures Before(b, x) == Before(b, y) <==> x == y
  {
    if x.Some? && y.Some? {
      assert (b + x.value)[|b|..] == x.value && (b + y.value)[|b|..] == y.value;
    }
  }

  lemma SymbolFacts(c: byte, urlSafe: bool)
    ensures IsSpace(c) ==> SymbolValue(c, urlSafe).None? && c != PAD
    ensures ValueOf(c, urlSafe).Some? ==> SymbolValue(c, urlSafe) == ValueOf(c, urlSafe)
  {
  }

  lemma StreamedSymbol(c: byte, rest: Bytes, urlSafe: bool, quad: nat, left: nat)
    requires State(quad, left) && Streamed([c] + rest, urlSafe, quad, left).Some?
    ensures ValueOf(c, urlSafe).Some?
    ensures var v := ValueOf(c, urlSafe).value;
            Streamed([c] + rest, urlSafe, quad, left) == Before(Completed(quad, left, v), Streamed(rest, urlSafe, (quad + 1) % 4, LeftOver(quad, v)))
  {
    assert ([c] + rest)[1..] == rest;
    hide ValueOf;
  }

  /** What the folder decodes, Python decodes to the same bytes exactly where padding is right, and
      otherwise refuses or stops short of. */
  lemma {:induction false} LenientIff(s: Bytes, urlSafe: bool, quad: nat, left: nat, pads: nat)
    requires State(quad, left) && Streamed(Symbols(s), urlSafe, quad, left).Some?
    ensures Lenient(s, urlSafe, quad, left, pads) == Streamed(Symbols(s), urlSafe, quad, left) <==> PaddedRight(s, quad, pads)
  {
    StreamEnds(urlSafe, quad, left);
    if s == [] {
      assert Symbols(s) == [];
    } else {
      var rest := s[1..];
      assert s == [s[0]] + rest;
      SymbolsNext(s[0], rest);
      SymbolFacts(s[0], urlSafe);
      assert [] + Symbols(rest) == Symbols(rest);
      hide ValueOf, SymbolValue, Symbols, IsSpace, Streamed, Completed, LeftOver;
      if s[0] == PAD {
        if quad >= 2 && quad + pads + 1 >= 4 {
          if Symbols(s) != [] {
            StreamsMore(Symbols(s), urlSafe, quad, left);
          }
        } else {
          LenientIff(rest, urlSafe, quad, left, if quad >= 2 then pads + 1 else pads);
        }
      } else if IsSpace(s[0]) {
        LenientIff(rest, urlSafe, quad, left, pads);
      } else {
        StreamedSymbol(s[0], Symbols(rest), urlSafe, quad, left);
        var v := ValueOf(s[0], urlSafe).value;
        NextState(quad, left, v);
        LenientIff(rest, urlSafe, (quad + 1) % 4, LeftOver(quad, v), 0);
        SameAfter(Completed(quad, left, v), Lenient(rest, urlSafe, (quad + 1) % 4, LeftOver(quad, v), 0),
                  Streamed(Symbols(rest), urlSafe, (quad + 1) % 4, LeftOver(quad, v)));
      }
    }
  }

  lemma NextState(quad: nat, left: nat, v: nat)
    requires State(quad, left) && v < 64
    ensures State((quad + 1) % 4, LeftOver(quad, v))
  {
  }

  /** Of every text that the folder decodes: Python decodes it to the same bytes exactly where no symbol
      follows padding that completes four symbols, and the last four are complete or padded. */
  lemma Base64Iff(text: Bytes, urlSafe: bool)
    requires AnyBase64(text, urlSafe).Some?
    ensures PythonBase64(text, urlSafe) == AnyBase64(text, urlSafe) <==> PaddedRight(text, 0, 0)
  {
    DecodedIsStreamed(Symbols(text), urlSafe);
    LenientIff(text, urlSafe, 0, 0, 0);
    hide Symbols, DecodeSymbols, Streamed, Lenient, PaddedRight;
  }

  /** What is decoded has symbols, whitespace and padding only. */
  lemma DecodedIsAscii(s: Bytes, urlSafe: bool)
    requires AnyBase64(s, urlSafe).Some?
    ensures forall k :: 0 <= k < |s| ==> s[k] < 0x80
  {
    DecodedIsStreamed(Symbols(s), urlSafe);
    StreamedAscii(s, urlSafe, 0, 0);
    hide Symbols, DecodeSymbols, Streamed;
  }

  lemma {:induction false} StreamedAscii(s: Bytes, urlSafe: bool, quad: nat, left: nat)
    requires State(quad, left) && Streamed(Symbols(s), urlSafe, quad, left).Some?
    ensures forall k :: 0 <= k < |s| ==> s[k] < 0x80
  {
    if s != [] {
      var rest := s[1..];
      assert s == [s[0]] + rest;
      SymbolsNext(s[0], rest);
      assert [] + Symbols(rest) == Symbols(rest);
      LowSymbol(s[0], urlSafe);
      hide ValueOf, Symbols, IsSpace, Streamed;
      if IsSpace(s[0]) || s[0] == PAD {
        StreamedAscii(rest, urlSafe, quad, left);
      } else {
        StreamedSymbol(s[0], Symbols(rest), urlSafe, quad, left);
        NextState(quad, left, ValueOf(s[0], urlSafe).value);
        StreamedAscii(rest, urlSafe, (quad + 1) % 4, LeftOver(quad, ValueOf(s[0], urlSafe).value));
      }
    }
  }

  lemma {:induction false} StreamedValued(symbols: Bytes, urlSafe: bool, quad: nat, left: nat, k: nat)
    requires State(quad, left) && k < |symbols| && Streamed(symbols, urlSafe, quad, left).Some?
    ensures ValueOf(symbols[k], urlSafe).Some?
  {
    if ValueOf(symbols[k], urlSafe).None? {
      NoStream(symbols, urlSafe, quad, left, k);
    }
  }

  lemma LowSymbol(c: byte, urlSafe: bool)
    ensures IsSpace(c) || c == PAD || ValueOf(c, urlSafe).Some? ==> c < 0x80
  {
  }

  // ---- hexadecimal ----

  predicate IsPythonSpace(c: byte) {
    IsSpace(c) || c == 11
  }

  /** `unhexlify`: digits only. */
  function Unhexlified(s: Bytes): Option<Bytes> {
    if |s| % 2 != 0 then None else HexPairs(s)
  }

  /** `bytes.fromhex`: pairs of digits, with whitespace between them. */
  function FromHexText(s: Bytes): Option<Bytes> {
    if s == [] then Some([])
    else if IsPythonSpace(s[0]) then FromHexText(s[1..])
    else if |s| < 2 then None
    else
      match (DigitValue(s[0]), DigitValue(s[1]))
      case (Some(hi), Some(lo)) => Before([(hi * 16 + lo) as byte], FromHexText(s[2..]))
      case _ => None
  }

  /** `b16decode`: upper-case digits only. */
  function FromBase16(s: Bytes): Option<Bytes> {
    if exists k :: 0 <= k < |s| && !(48 <= s[k] <= 57) && !(65 <= s[k] <= 70) then None else Unhexlified(s)
  }

  predicate HasSpace(s: Bytes) {
    exists k :: 0 <= k < |s| && IsSpace(s[k])
  }

  /** No whitespace parts the digits of a pair. */
  predicate PairsWhole(s: Bytes) {
    if s == [] then true
    else if IsSpace(s[0]) then PairsWhole(s[1..])
    else |s| >= 2 && !IsSpace(s[1]) && PairsWhole(s[2..])
  }

  lemma {:induction false} PairsHaveDigits(s: Bytes)
    requires |s| % 2 == 0
    ensures HexPairs(s).Some? <==> forall k :: 0 <= k < |s| ==> DigitValue(s[k]).Some?
  {
    hide DigitValue;
    if s != [] {
      PairsHaveDigits(s[2..]);
      assert forall k :: 2 <= k < |s| ==> s[k] == s[2..][k - 2];
    }
  }

  lemma NoSpacesNext(c: byte, s: Bytes)
    ensures NoSpaces([c] + s) == (if !IsSpace(c) then [c] else []) + NoSpaces(s)
  {
    var keep := b => !IsSpace(b);
    FilterConcat([c], s, keep);
    assert [c][..0] == [];
    assert Filter([c], keep) == Filter([], keep) + if keep(c) then [c] else [];
  }

  lemma {:induction false} NoSpacesShorter(s: Bytes)
    ensures |NoSpaces(s)| <= |s|
    ensures HasSpace(s) <==> |NoSpaces(s)| < |s|
    ensures !HasSpace(s) ==> NoSpaces(s) == s
  {
    if s != [] {
      var rest := s[1..];
      NoSpacesShorter(rest);
      NoSpacesNext(s[0], rest);
      assert s == [s[0]] + rest;
      assert HasSpace(s) <==> IsSpace(s[0]) || HasSpace(rest) by {
        if HasSpace(rest) {
          var k :| 0 <= k < |rest| && IsSpace(rest[k]);
          assert IsSpace(s[k + 1]);
        }
      }
      hide NoSpaces, IsSpace, HasSpace;
    }
  }

  /** `unhexlify` agrees exactly where there is no whitespace. */
  lemma UnhexlifyIff(s: Bytes)
    requires HexDecode(s).Some?
    ensures Unhexlified(s) == HexDecode(s) <==> !HasSpace(s)
  {
    NoSpacesShorter(s);
    if HasSpace(s) && |s| % 2 == 0 {
      PairsHaveDigits(s);
      var k :| 0 <= k < |s| && IsSpace(s[k]);
      assert DigitValue(s[k]).None?;
    }
    hide NoSpaces, HexPairs, DigitValue;
  }

  predicate IsUpper(s: Bytes) {
    forall k :: 0 <= k < |s| ==> !(97 <= s[k] <= 102)
  }

  lemma SpaceIsNoDigit(c: byte)
    ensures IsSpace(c) ==> !(48 <= c <= 57) && !(65 <= c <= 70)
  {
  }

  /** `b16decode` agrees exactly where there is no whitespace and no lower-case digit. */
  lemma Base16Iff(s: Bytes)
    requires HexDecode(s).Some?
    ensures FromBase16(s) == HexDecode(s) <==> !HasSpace(s) && IsUpper(s)
  {
    NoSpacesShorter(s);
    UnhexlifyIff(s);
    if !HasSpace(s) {
      PairsHaveDigits(s);
      assert forall k :: 0 <= k < |s| ==> DigitValue(s[k]).Some?;
    } else {
      var k :| 0 <= k < |s| && IsSpace(s[k]);
      SpaceIsNoDigit(s[k]);
    }
    hide NoSpaces, HexPairs, Unhexlified, HexDecode;
  }

  /** `bytes.fromhex` agrees exactly where whitespace parts no pair. */
  lemma {:induction false} FromHexIff(s: Bytes)
    requires HexDecode(s).Some?
    ensures FromHexText(s) == HexDecode(s) <==> PairsWhole(s)
    decreases |s|
  {
    if s != [] {
      var rest := s[1..];
      assert s == [s[0]] + rest;
      NoSpacesNext(s[0], rest);
      if IsSpace(s[0]) {
        assert [] + NoSpaces(rest) == NoSpaces(rest);
        FromHexIff(rest);
        hide DigitValue, HexPairs, NoSpaces;
      } else {
        var d := FirstPair(s);
        if |rest| > 0 && !IsSpace(s[1]) {
          FromHexIff(s[2..]);
          SameAfter(d, FromHexText(s[2..]), HexDecode(s[2..]));
        }
        hide HexDecode;
      }
    }
  }

  /** Two digits stand first, whatever is between them. */
  lemma FirstPair(s: Bytes) returns (d: Bytes)
    requires s != [] && !IsSpace(s[0]) && HexDecode(s).Some?
    ensures |s| >= 2 && !IsPythonSpace(s[0])
    ensures IsSpace(s[1]) ==> FromHexText(s) == None
    ensures !IsSpace(s[1]) ==> HexDecode(s[2..]).Some? && HexDecode(s) == Before(d, HexDecode(s[2..])) && FromHexText(s) == Before(d, FromHexText(s[2..]))
  {
    var rest := s[1..];
    assert s == [s[0]] + rest;
    NoSpacesNext(s[0], rest);
    var digits := NoSpaces(s);
    assert digits == [s[0]] + NoSpaces(rest);
    assert DigitValue(s[0]).Some?;
    assert rest != [];
    d := [];
    if !IsSpace(s[1]) {
      assert rest == [s[1]] + s[2..];
      NoSpacesNext(s[1], s[2..]);
      assert digits[2..] == NoSpaces(s[2..]) && digits[1] == s[1];
      d := [(DigitValue(s[0]).value * 16 + DigitValue(s[1]).value) as byte];
    }
    hide NoSpaces;
  }
}
