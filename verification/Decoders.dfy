/** The decoders the constant folder models, against the encodings of RFC 4648: Base64 in both
    alphabets, hexadecimal, and the rotation by thirteen. */
module Decoders {
  import opened Octets
  import opened Options

  /** Larger results are not folded. */
  const MAX_FOLD_BYTES: nat := 0x10_0000

  predicate IsSpace(c: byte) {
    c == 32 || c == 9 || c == 10 || c == 12 || c == 13
  }

  const PAD: byte := 61

  function Filter(input: Bytes, keep: byte -> bool): Bytes {
    if input == [] then []
    else Filter(input[..|input| - 1], keep) + if keep(input[|input| - 1]) then [input[|input| - 1]] else []
  }

  function NoSpaces(input: Bytes): Bytes {
    Filter(input, c => !IsSpace(c))
  }

  /** Padding goes the way whitespace does. */
  function Symbols(input: Bytes): Bytes {
    Filter(input, c => !IsSpace(c) && c != PAD)
  }

  // ---- base64 ----

  /** The value of a symbol of the alphabet of section 4, or of section 5 when URL-safe. */
  function ValueOf(c: byte, urlSafe: bool): (v: Option<nat>)
    ensures v.Some? ==> v.value < 64
  {
    if 65 <= c <= 90 then Some((c - 65) as nat)
    else if 97 <= c <= 122 then Some((c - 97) as nat + 26)
    else if 48 <= c <= 57 then Some((c - 48) as nat + 52)
    else if c == (if urlSafe then 45 else 43) then Some(62)
    else if c == (if urlSafe then 95 else 47) then Some(63)
    else None
  }

  function SymbolOf(v: nat, urlSafe: bool): (c: byte)
    requires v < 64
    ensures ValueOf(c, urlSafe) == Some(v)
    ensures !IsSpace(c) && c != PAD
  {
    if v < 26 then (v + 65) as byte
    else if v < 52 then (v - 26 + 97) as byte
    else if v < 62 then (v - 52 + 48) as byte
    else if v == 62 then (if urlSafe then 45 else 43)
    else if urlSafe then 95 else 47
  }

  /** Section 4 of RFC 4648: three bytes to four symbols, a rest of one or two bytes to two or three. */
  function Encode(bytes: Bytes, urlSafe: bool): Bytes {
    if bytes == [] then []
    else if |bytes| == 1 then
      var w := bytes[0] as nat * 0x1_0000;
      [SymbolOf(w / 0x4_0000, urlSafe), SymbolOf(w / 0x1000 % 64, urlSafe)]
    else if |bytes| == 2 then
      var w := bytes[0] as nat * 0x1_0000 + bytes[1] as nat * 0x100;
      [SymbolOf(w / 0x4_0000, urlSafe), SymbolOf(w / 0x1000 % 64, urlSafe), SymbolOf(w / 0x40 % 64, urlSafe)]
    else
      var w := bytes[0] as nat * 0x1_0000 + bytes[1] as nat * 0x100 + bytes[2] as nat;
      [SymbolOf(w / 0x4_0000, urlSafe), SymbolOf(w / 0x1000 % 64, urlSafe), SymbolOf(w / 0x40 % 64, urlSafe), SymbolOf(w % 64, urlSafe)]
      + Encode(bytes[3..], urlSafe)
  }

  function Padding(n: nat): Bytes {
    if n % 3 == 1 then [PAD, PAD] else if n % 3 == 2 then [PAD] else []
  }

  /** The value of up to four symbols, as if zero symbols filled the rest. */
  function ChunkValue(chunk: Bytes, urlSafe: bool): Option<nat>
    requires |chunk| <= 4
  {
    if chunk == [] then Some(0)
    else
      var i := |chunk| - 1;
      match (ChunkValue(chunk[..i], urlSafe), ValueOf(chunk[i], urlSafe))
      case (Some(acc), Some(v)) => Some(acc + v * Weight(i))
      case _ => None
  }

  function Weight(i: nat): nat {
    if i == 0 then 0x4_0000 else if i == 1 then 0x1000 else if i == 2 then 0x40 else 1
  }

  function ByteAt(w: nat, i: nat): byte {
    (if i == 0 then w / 0x1_0000 % 256 else if i == 1 then w / 0x100 % 256 else w % 256) as byte
  }

  function FirstBytes(w: nat, n: nat): Bytes {
    if n == 0 then [] else FirstBytes(w, n - 1) + [ByteAt(w, n - 1)]
  }

  /** What the symbols decode to, chunk by chunk: `n` symbols carry `n - 1` bytes. */
  function DecodeSymbols(symbols: Bytes, urlSafe: bool): Option<Bytes>
    decreases |symbols|
  {
    if symbols == [] then Some([])
    else
      var n := if |symbols| < 4 then |symbols| else 4;
      match (ChunkValue(symbols[..n], urlSafe), DecodeSymbols(symbols[n..], urlSafe))
      case (Some(w), Some(rest)) => Some(FirstBytes(w, n - 1) + rest)
      case _ => None
  }

  function Base64(input: Bytes, urlSafe: bool): Option<Bytes> {
    var symbols := Symbols(input);
    if |symbols| % 4 == 1 || |symbols| / 4 * 3 > MAX_FOLD_BYTES then None else DecodeSymbols(symbols, urlSafe)
  }

  /** Base64 without the size guard. */
  function AnyBase64(input: Bytes, urlSafe: bool): Option<Bytes> {
    var symbols := Symbols(input);
    if |symbols| % 4 == 1 then None else DecodeSymbols(symbols, urlSafe)
  }

  /** Gathers each chunk's symbols into a word and takes its bytes off the top. */
  method Base64Decode(input: Bytes, urlSafe: bool) returns (r: Option<Bytes>)
    ensures r == Base64(input, urlSafe)
  {
    var symbols := Symbols(input);
    if |symbols| % 4 == 1 {
      return None;
    }
    if |symbols| / 4 * 3 > MAX_FOLD_BYTES {
      return None;
    }
    var out: Bytes := [];
    var at := 0;
    assert symbols[0..] == symbols;
    JoinedNothing(DecodeSymbols(symbols, urlSafe));
    while at < |symbols|
      invariant at <= |symbols|
      invariant DecodeSymbols(symbols, urlSafe) == Joined(out, DecodeSymbols(symbols[at..], urlSafe))
      decreases |symbols| - at
    {
      hide DecodeSymbols, Joined, ChunkValue, FirstBytes;
      var n := if |symbols| - at < 4 then |symbols| - at else 4;
      var chunk := symbols[at..at + n];
      DecodeNext(symbols, at, n, urlSafe, out);
      var w := DecodeChunk(chunk, urlSafe);
      if w.None? {
        return None;
      }
      out := out + FirstBytes(w.value, n - 1);
      at := at + n;
    }
    assert symbols[at..] == [] && out + [] == out;
    r := Some(out);
  }

  function Joined(out: Bytes, rest: Option<Bytes>): Option<Bytes> {
    match rest
    case Some(b) => Some(out + b)
    case None => None
  }

  lemma JoinedNothing(rest: Option<Bytes>)
    ensures Joined([], rest) == rest
  {
    if rest.Some? {
      assert [] + rest.value == rest.value;
    }
  }

  lemma DecodeNext(symbols: Bytes, at: nat, n: nat, urlSafe: bool, out: Bytes)
    requires at < |symbols| && n == (if |symbols| - at < 4 then |symbols| - at else 4)
    ensures var w := ChunkValue(symbols[at..at + n], urlSafe);
            && (w.None? ==> Joined(out, DecodeSymbols(symbols[at..], urlSafe)) == None)
            && (w.Some? ==> Joined(out, DecodeSymbols(symbols[at..], urlSafe)) == Joined(out + FirstBytes(w.value, n - 1), DecodeSymbols(symbols[at + n..], urlSafe)))
  {
    var rest := symbols[at..];
    assert rest[..n] == symbols[at..at + n];
    assert rest[n..] == symbols[at + n..];
    hide ChunkValue, FirstBytes;
    var w, tail := ChunkValue(symbols[at..at + n], urlSafe), DecodeSymbols(symbols[at + n..], urlSafe);
    if w.Some? && tail.Some? {
      assert out + (FirstBytes(w.value, n - 1) + tail.value) == out + FirstBytes(w.value, n - 1) + tail.value;
    }
  }

  method DecodeChunk(chunk: Bytes, urlSafe: bool) returns (r: Option<nat>)
    requires |chunk| <= 4
    ensures r == ChunkValue(chunk, urlSafe)
  {
    var accumulator: nat := 0;
    for i := 0 to |chunk|
      invariant ChunkValue(chunk[..i], urlSafe) == Some(accumulator)
    {
      ChunkNext(chunk, urlSafe, i);
      hide *;
      var v := ValueOf(chunk[i], urlSafe);
      if v.None? {
        ChunkFails(chunk, urlSafe, i);
        return None;
      }
      accumulator := accumulator + v.value * Weight(i);
    }
    assert chunk[..|chunk|] == chunk;
    r := Some(accumulator);
  }

  lemma ChunkNext(chunk: Bytes, urlSafe: bool, i: nat)
    requires i < |chunk| <= 4
    ensures var (acc, v) := (ChunkValue(chunk[..i], urlSafe), ValueOf(chunk[i], urlSafe));
            acc.Some? && v.Some? ==> ChunkValue(chunk[..i + 1], urlSafe) == Some(acc.value + v.value * Weight(i))
  {
    assert chunk[..i + 1][..i] == chunk[..i];
    hide ValueOf, Weight;
  }

  lemma {:induction false} ChunkFails(chunk: Bytes, urlSafe: bool, i: nat)
    requires i < |chunk| <= 4 && ValueOf(chunk[i], urlSafe).None?
    ensures ChunkValue(chunk, urlSafe).None?
  {
    if i < |chunk| - 1 {
      ChunkFails(chunk[..|chunk| - 1], urlSafe, i);
    }
  }

  // ---- decoding what was encoded ----

  lemma ThreeBytes(a: byte, b: byte, c: byte)
    ensures var w := a as nat * 0x1_0000 + b as nat * 0x100 + c as nat;
            && w < 0x100_0000 && ByteAt(w, 0) == a && ByteAt(w, 1) == b && ByteAt(w, 2) == c
  {
    var x, y, z := a as nat, b as nat, c as nat;
    var w := x * 0x1_0000 + y * 0x100 + z;
    assert w / 0x100 == x * 0x100 + y && w % 0x100 == z;
    assert w / 0x1_0000 == x;
  }

  lemma SixBits(w: nat)
    requires w < 0x100_0000
    ensures w == w / 0x4_0000 * 0x4_0000 + w / 0x1000 % 64 * 0x1000 + w / 0x40 % 64 * 0x40 + w % 64
  {
    assert w / 0x40 == w / 0x1000 * 64 + w / 0x40 % 64;
    assert w / 0x1000 == w / 0x4_0000 * 64 + w / 0x1000 % 64;
  }

  /** Four symbols of a word are worth the word; two or three are, when the rest would be zero. */
  lemma WordChunk(w: nat, urlSafe: bool, n: nat)
    requires w < 0x100_0000 && 2 <= n <= 4
    requires (n == 2 ==> w % 0x1000 == 0) && (n == 3 ==> w % 0x40 == 0)
    ensures var all := [SymbolOf(w / 0x4_0000, urlSafe), SymbolOf(w / 0x1000 % 64, urlSafe), SymbolOf(w / 0x40 % 64, urlSafe), SymbolOf(w % 64, urlSafe)];
            ChunkValue(all[..n], urlSafe) == Some(w)
  {
    SixBits(w);
    var a, b, c, d := w / 0x4_0000, w / 0x1000 % 64, w / 0x40 % 64, w % 64;
    var all := [SymbolOf(a, urlSafe), SymbolOf(b, urlSafe), SymbolOf(c, urlSafe), SymbolOf(d, urlSafe)];
    ZeroRest(w);
    FourSymbolsWorth(a, b, c, d, urlSafe);
    hide ChunkValue, SymbolOf;
  }

  lemma FourSymbolsWorth(a: nat, b: nat, c: nat, d: nat, urlSafe: bool)
    requires a < 64 && b < 64 && c < 64 && d < 64
    ensures var all := [SymbolOf(a, urlSafe), SymbolOf(b, urlSafe), SymbolOf(c, urlSafe), SymbolOf(d, urlSafe)];
            && ChunkValue(all[..2], urlSafe) == Some(a * 0x4_0000 + b * 0x1000)
            && ChunkValue(all[..3], urlSafe) == Some(a * 0x4_0000 + b * 0x1000 + c * 0x40)
            && ChunkValue(all[..4], urlSafe) == Some(a * 0x4_0000 + b * 0x1000 + c * 0x40 + d)
  {
    var all := [SymbolOf(a, urlSafe), SymbolOf(b, urlSafe), SymbolOf(c, urlSafe), SymbolOf(d, urlSafe)];
    hide SymbolOf, ValueOf;
    assert all[..1][..0] == [] && all[..2][..1] == all[..1] && all[..3][..2] == all[..2] && all[..4][..3] == all[..3];
    assert ChunkValue(all[..1], urlSafe) == Some(a * 0x4_0000);
    assert ChunkValue(all[..2], urlSafe) == Some(a * 0x4_0000 + b * 0x1000);
    assert ChunkValue(all[..3], urlSafe) == Some(a * 0x4_0000 + b * 0x1000 + c * 0x40);
  }

  lemma ZeroRest(w: nat)
    ensures w % 0x1000 == 0 ==> w / 0x40 % 64 == 0 && w % 64 == 0
    ensures w % 0x40 == 0 ==> w % 64 == 0
  {
    if w % 0x1000 == 0 {
      var q := w / 0x1000;
      assert w == 64 * (64 * q);
      assert w / 0x40 == 64 * q;
    }
  }

  lemma {:induction false} EncodeDecodes(bytes: Bytes, urlSafe: bool)
    ensures DecodeSymbols(Encode(bytes, urlSafe), urlSafe) == Some(bytes)
    decreases |bytes|
  {
    if bytes != [] {
      var n := if |bytes| < 3 then |bytes| else 3;
      var a, b, c := bytes[0], if n > 1 then bytes[1] else 0, if n > 2 then bytes[2] else 0;
      var w := a as nat * 0x1_0000 + b as nat * 0x100 + c as nat;
      var rest := if n < 3 then [] else bytes[3..];
      EncodeDecodes(rest, urlSafe);
      ThreeBytes(a, b, c);
      Leftover(a, b);
      WordChunk(w, urlSafe, n + 1);
      EncodedChunk(bytes, urlSafe, n, w);
    }
  }

  lemma Leftover(a: byte, b: byte)
    ensures (a as nat * 0x1_0000) % 0x1000 == 0 && (a as nat * 0x1_0000 + b as nat * 0x100) % 0x40 == 0
  {
    assert a as nat * 0x1_0000 == 0x1000 * (16 * a as nat);
    assert a as nat * 0x1_0000 + b as nat * 0x100 == 0x40 * (1024 * a as nat + 4 * b as nat);
  }

  lemma EncodedChunk(bytes: Bytes, urlSafe: bool, n: nat, w: nat)
    requires bytes != [] && n == (if |bytes| < 3 then |bytes| else 3)
    requires w == bytes[0] as nat * 0x1_0000 + (if n > 1 then bytes[1] as nat * 0x100 else 0) + (if n > 2 then bytes[2] as nat else 0)
    requires w < 0x100_0000 && ByteAt(w, 0) == bytes[0] && (n > 1 ==> ByteAt(w, 1) == bytes[1]) && (n > 2 ==> ByteAt(w, 2) == bytes[2])
    requires var all := [SymbolOf(w / 0x4_0000, urlSafe), SymbolOf(w / 0x1000 % 64, urlSafe), SymbolOf(w / 0x40 % 64, urlSafe), SymbolOf(w % 64, urlSafe)];
             ChunkValue(all[..n + 1], urlSafe) == Some(w)
    requires DecodeSymbols(Encode(if n < 3 then [] else bytes[3..], urlSafe), urlSafe) == Some(if n < 3 then [] else bytes[3..])
    ensures DecodeSymbols(Encode(bytes, urlSafe), urlSafe) == Some(bytes)
  {
    var all := [SymbolOf(w / 0x4_0000, urlSafe), SymbolOf(w / 0x1000 % 64, urlSafe), SymbolOf(w / 0x40 % 64, urlSafe), SymbolOf(w % 64, urlSafe)];
    var rest := if n < 3 then [] else bytes[3..];
    EncodeIs(bytes, urlSafe, n, w);
    BytesBack(bytes, n, w);
    var head, tail := all[..n + 1], Encode(rest, urlSafe);
    assert n < 3 ==> tail == [];
    hide SymbolOf, ChunkValue, ByteAt, Encode, FirstBytes;
    var e := head + tail;
    assert e[..n + 1] == head && e[n + 1..] == tail;
    assert bytes == bytes[..n] + rest;
  }

  lemma EncodeIs(bytes: Bytes, urlSafe: bool, n: nat, w: nat)
    requires bytes != [] && n == (if |bytes| < 3 then |bytes| else 3)
    requires w == bytes[0] as nat * 0x1_0000 + (if n > 1 then bytes[1] as nat * 0x100 else 0) + (if n > 2 then bytes[2] as nat else 0)
    requires w < 0x100_0000
    ensures var all := [SymbolOf(w / 0x4_0000, urlSafe), SymbolOf(w / 0x1000 % 64, urlSafe), SymbolOf(w / 0x40 % 64, urlSafe), SymbolOf(w % 64, urlSafe)];
            Encode(bytes, urlSafe) == all[..n + 1] + Encode(if n < 3 then [] else bytes[3..], urlSafe)
  {
    hide SymbolOf;
  }

  lemma BytesBack(bytes: Bytes, n: nat, w: nat)
    requires bytes != [] && n == (if |bytes| < 3 then |bytes| else 3)
    requires ByteAt(w, 0) == bytes[0] && (n > 1 ==> ByteAt(w, 1) == bytes[1]) && (n > 2 ==> ByteAt(w, 2) == bytes[2])
    ensures FirstBytes(w, n) == bytes[..n]
  {
    hide ByteAt;
    assert FirstBytes(w, 0) == [];
    assert FirstBytes(w, 1) == [bytes[0]];
    if n > 1 {
      assert FirstBytes(w, 2) == [bytes[0], bytes[1]];
    }
    if n > 2 {
      assert FirstBytes(w, 3) == [bytes[0], bytes[1], bytes[2]];
    }
  }

  // ---- whitespace and padding ----

  lemma {:induction false} FilterConcat(a: Bytes, b: Bytes, keep: byte -> bool)
    ensures Filter(a + b, keep) == Filter(a, keep) + Filter(b, keep)
  {
    if b == [] {
      assert a + b == a;
    } else {
      assert (a + b)[..|a + b| - 1] == a + b[..|b| - 1];
      FilterConcat(a, b[..|b| - 1], keep);
    }
  }

  lemma {:induction false} FilterKeeps(a: Bytes, keep: byte -> bool)
    requires forall k :: 0 <= k < |a| ==> keep(a[k])
    ensures Filter(a, keep) == a
  {
    if a != [] {
      FilterKeeps(a[..|a| - 1], keep);
    }
  }

  lemma {:induction false} FilterDrops(a: Bytes, keep: byte -> bool)
    requires forall k :: 0 <= k < |a| ==> !keep(a[k])
    ensures Filter(a, keep) == []
  {
    if a != [] {
      FilterDrops(a[..|a| - 1], keep);
    }
  }

  lemma {:induction false} SymbolsIgnoreSpaces(input: Bytes)
    ensures Symbols(NoSpaces(input)) == Symbols(input)
  {
    if input != [] {
      var init, last := input[..|input| - 1], [input[|input| - 1]];
      SymbolsIgnoreSpaces(init);
      FilterConcat(NoSpaces(init), if IsSpace(last[0]) then [] else last, c => !IsSpace(c) && c != PAD);
      assert NoSpaces(input) == NoSpaces(init) + if IsSpace(last[0]) then [] else last;
      assert last[..0] == [];
    }
  }

  ghost predicate AllSymbols(s: Bytes) {
    forall k :: 0 <= k < |s| ==> !IsSpace(s[k]) && s[k] != PAD
  }

  lemma SymbolsConcat(s: Bytes, t: Bytes)
    requires AllSymbols(s) && AllSymbols(t)
    ensures AllSymbols(s + t)
  {
    hide IsSpace;
  }

  lemma {:induction false} EncodedAreSymbols(bytes: Bytes, urlSafe: bool)
    ensures AllSymbols(Encode(bytes, urlSafe)) && |Encode(bytes, urlSafe)| % 4 != 1
    decreases |bytes|
  {
    if |bytes| >= 3 {
      var w := bytes[0] as nat * 0x1_0000 + bytes[1] as nat * 0x100 + bytes[2] as nat;
      ThreeBytes(bytes[0], bytes[1], bytes[2]);
      EncodedAreSymbols(bytes[3..], urlSafe);
      EncodeIs(bytes, urlSafe, 3, w);
      var head := FourSymbols(w, urlSafe);
      hide AllSymbols, Encode, SymbolOf;
      SymbolsConcat(head, Encode(bytes[3..], urlSafe));
      ModFour(|Encode(bytes[3..], urlSafe)|);
    } else {
      ShortAreSymbols(bytes, urlSafe);
    }
  }

  lemma ModFour(n: nat)
    ensures (4 + n) % 4 == n % 4
  {
  }

  lemma FourSymbols(w: nat, urlSafe: bool) returns (all: Bytes)
    requires w < 0x100_0000
    ensures all == [SymbolOf(w / 0x4_0000, urlSafe), SymbolOf(w / 0x1000 % 64, urlSafe), SymbolOf(w / 0x40 % 64, urlSafe), SymbolOf(w % 64, urlSafe)]
    ensures all[..4] == all && AllSymbols(all)
  {
    hide SymbolOf, IsSpace;
    all := [SymbolOf(w / 0x4_0000, urlSafe), SymbolOf(w / 0x1000 % 64, urlSafe), SymbolOf(w / 0x40 % 64, urlSafe), SymbolOf(w % 64, urlSafe)];
  }

  lemma ShortAreSymbols(bytes: Bytes, urlSafe: bool)
    requires |bytes| < 3
    ensures AllSymbols(Encode(bytes, urlSafe)) && |Encode(bytes, urlSafe)| % 4 != 1
  {
    hide SymbolOf, IsSpace;
  }

  /** Base64 of RFC 4648, section 4 or 5, comes back as what was encoded, padded or not and with
      any whitespace put in, whenever it is within the size guard. */
  lemma Base64RoundTrip(bytes: Bytes, urlSafe: bool, padded: bool, text: Bytes)
    requires NoSpaces(text) == Encode(bytes, urlSafe) + if padded then Padding(|bytes|) else []
    ensures Base64(text, urlSafe) == if |Encode(bytes, urlSafe)| / 4 * 3 > MAX_FOLD_BYTES then None else Some(bytes)
  {
    SymbolsBack(bytes, urlSafe, padded, text);
    hide Encode, DecodeSymbols, Symbols, NoSpaces;
  }

  lemma SymbolsBack(bytes: Bytes, urlSafe: bool, padded: bool, text: Bytes)
    requires NoSpaces(text) == Encode(bytes, urlSafe) + if padded then Padding(|bytes|) else []
    ensures Symbols(text) == Encode(bytes, urlSafe) && |Symbols(text)| % 4 != 1 && DecodeSymbols(Symbols(text), urlSafe) == Some(bytes)
  {
    hide *;
    var pad := if padded then Padding(|bytes|) else [];
    SymbolsIgnoreSpaces(text);
    EncodedAreSymbols(bytes, urlSafe);
    ArePads(|bytes|);
    PadsDropped(Encode(bytes, urlSafe), pad);
    EncodeDecodes(bytes, urlSafe);
  }

  lemma ArePads(n: nat)
    ensures forall k :: 0 <= k < |Padding(n)| ==> Padding(n)[k] == PAD
  {
  }

  lemma PadsDropped(s: Bytes, pad: Bytes)
    requires AllSymbols(s) && forall k :: 0 <= k < |pad| ==> pad[k] == PAD
    ensures Symbols(s + pad) == s
  {
    var keep := c => !IsSpace(c) && c != PAD;
    FilterConcat(s, pad, keep);
    FilterKeeps(s, keep);
    FilterDrops(pad, keep);
    assert s + [] == s;
    hide Filter;
  }

  // ---- the alphabets, letter by letter ----

  const UPPER := "ABCDEFGHIJKLMNOPQRSTUVWXYZ"
  const LOWER := "abcdefghijklmnopqrstuvwxyz"
  const DIGITS := "0123456789"

  function CharOf(c: byte): char {
    c as int as char
  }

  lemma UpperAt(k: nat)
    requires k < 26
    ensures UPPER[k] as int == 65 + k
  {
  }

  lemma LowerAt(k: nat)
    requires k < 26
    ensures LOWER[k] as int == 97 + k
  {
  }

  lemma DigitAt(k: nat)
    requires k < 10
    ensures DIGITS[k] as int == 48 + k
  {
  }

  /** Tables 1 and 2 of RFC 4648. */
  function Alphabet(urlSafe: bool): (r: string)
    ensures |r| == 64
  {
    UPPER + LOWER + DIGITS + if urlSafe then "-_" else "+/"
  }

  lemma AlphabetAt(v: nat, urlSafe: bool)
    requires v < 64
    ensures Alphabet(urlSafe)[v] as int == if v < 26 then 65 + v else if v < 52 then 97 + v - 26 else if v < 62 then 48 + v - 52
                                           else if v == 62 then (if urlSafe then 45 else 43) else if urlSafe then 95 else 47
  {
    LettersOf();
    if v < 26 {
      UpperAt(v);
    } else if v < 52 {
      LowerAt(v - 26);
    } else if v < 62 {
      DigitAt(v - 52);
    }
    hide UPPER, LOWER, DIGITS;
  }

  lemma LettersOf()
    ensures |UPPER| == 26 && |LOWER| == 26 && |DIGITS| == 10
  {
  }

  /** A byte has the value of its place in the alphabet, and a byte of no place has none. */
  lemma ValueIff(c: byte, v: nat, urlSafe: bool)
    requires v < 64
    ensures ValueOf(c, urlSafe) == Some(v) <==> CharOf(c) == Alphabet(urlSafe)[v]
  {
    AlphabetAt(v, urlSafe);
    hide Alphabet;
  }

  // ---- hex ----

  function DigitValue(c: byte): (v: Option<nat>)
    ensures v.Some? ==> v.value < 16
  {
    if 48 <= c <= 57 then Some((c - 48) as nat)
    else if 97 <= c <= 102 then Some((c - 97) as nat + 10)
    else if 65 <= c <= 70 then Some((c - 65) as nat + 10)
    else None
  }

  function DigitOf(v: nat, upper: bool): (c: byte)
    requires v < 16
    ensures DigitValue(c) == Some(v) && !IsSpace(c)
  {
    if v < 10 then (v + 48) as byte else if upper then (v - 10 + 65) as byte else (v - 10 + 97) as byte
  }

  /** Table 5 of RFC 4648, and its letters in lower case. */
  lemma DigitValueIff(c: byte, v: nat)
    requires v < 16
    ensures DigitValue(c) == Some(v) <==> CharOf(c) == (DIGITS + UPPER[..6])[v] || CharOf(c) == (DIGITS + LOWER[..6])[v]
  {
    LettersOf();
    if v < 10 {
      DigitAt(v);
    } else {
      UpperAt(v - 10);
      LowerAt(v - 10);
    }
    hide UPPER, LOWER, DIGITS;
  }

  /** Section 8 of RFC 4648. */
  function HexEncode(bytes: Bytes, upper: bool): Bytes {
    if bytes == [] then []
    else [DigitOf(bytes[0] as nat / 16, upper), DigitOf(bytes[0] as nat % 16, upper)] + HexEncode(bytes[1..], upper)
  }

  function HexPairs(digits: Bytes): Option<Bytes>
    decreases |digits|
  {
    if |digits| < 2 then Some([])
    else
      match (DigitValue(digits[0]), DigitValue(digits[1]), HexPairs(digits[2..]))
      case (Some(hi), Some(lo), Some(rest)) => Some([(hi * 16 + lo) as byte] + rest)
      case _ => None
  }

  function HexDecode(input: Bytes): Option<Bytes> {
    var digits := NoSpaces(input);
    if |digits| % 2 != 0 then None else HexPairs(digits)
  }

  lemma {:induction false} HexPairsBack(bytes: Bytes, upper: bool)
    ensures HexPairs(HexEncode(bytes, upper)) == Some(bytes) && |HexEncode(bytes, upper)| == 2 * |bytes|
    decreases |bytes|
  {
    if bytes != [] {
      HexPairsBack(bytes[1..], upper);
      var e, v := HexEncode(bytes, upper), bytes[0] as nat;
      assert v == v / 16 * 16 + v % 16;
      assert e[2..] == HexEncode(bytes[1..], upper);
      hide DigitOf, DigitValue;
      assert bytes == [bytes[0]] + bytes[1..];
    }
  }

  /** Hex in either case comes back as what was encoded, with any whitespace put in. */
  lemma HexRoundTrip(bytes: Bytes, upper: bool, text: Bytes)
    requires NoSpaces(text) == HexEncode(bytes, upper)
    ensures HexDecode(text) == Some(bytes)
  {
    HexPairsBack(bytes, upper);
    hide HexPairs, HexEncode, NoSpaces;
    assert 2 * |bytes| % 2 == 0;
  }

  // ---- rot13 ----

  function Rotated(c: byte): byte {
    if 97 <= c <= 122 then (((c - 97) as nat + 13) % 26 + 97) as byte
    else if 65 <= c <= 90 then (((c - 65) as nat + 13) % 26 + 65) as byte
    else c
  }

  function Rot13(input: Bytes): (r: Bytes)
    ensures |r| == |input|
  {
    if input == [] then [] else Rot13(input[..|input| - 1]) + [Rotated(input[|input| - 1])]
  }

  lemma {:induction false} Rot13At(input: Bytes, k: nat)
    requires k < |input|
    ensures Rot13(input)[k] == Rotated(input[k])
  {
    if k < |input| - 1 {
      Rot13At(input[..|input| - 1], k);
    }
  }

  /** A letter becomes the one thirteen places on, around the end of the alphabet, in its own case, and
      everything else stays. */
  lemma Rot13Letter(input: Bytes, k: nat, v: nat)
    requires k < |input| && v < 26
    ensures CharOf(input[k]) == UPPER[v] <==> CharOf(Rot13(input)[k]) == UPPER[(v + 13) % 26]
    ensures CharOf(input[k]) == LOWER[v] <==> CharOf(Rot13(input)[k]) == LOWER[(v + 13) % 26]
    ensures CharOf(input[k]) !in UPPER + LOWER ==> Rot13(input)[k] == input[k]
  {
    Rot13At(input, k);
    RotatedFrom(input[k], v);
    var w := (v + 13) % 26;
    UpperAt(v);
    LowerAt(v);
    UpperAt(w);
    LowerAt(w);
    RotatedOther(input[k]);
    LettersOf();
    hide UPPER, LOWER, Rot13, Rotated;
  }

  lemma RotatedFrom(c: byte, v: nat)
    requires v < 26
    ensures c as int == 65 + v <==> Rotated(c) as int == 65 + (v + 13) % 26
    ensures c as int == 97 + v <==> Rotated(c) as int == 97 + (v + 13) % 26
  {
  }

  lemma RotatedOther(c: byte)
    ensures CharOf(c) !in UPPER + LOWER ==> Rotated(c) == c
  {
    LettersOf();
    if 65 <= c <= 90 {
      UpperAt((c - 65) as nat);
      assert UPPER[(c - 65) as nat] in UPPER;
    }
    if 97 <= c <= 122 {
      LowerAt((c - 97) as nat);
      assert LOWER[(c - 97) as nat] in LOWER;
    }
    hide UPPER, LOWER;
  }

  lemma RotatedTwice(c: byte)
    ensures Rotated(Rotated(c)) == c
  {
  }

  lemma {:induction false} Rot13Twice(input: Bytes)
    ensures Rot13(Rot13(input)) == input
  {
    if input != [] {
      Rot13Twice(input[..|input| - 1]);
      RotatedTwice(input[|input| - 1]);
      hide Rotated;
      assert Rot13(input)[..|input| - 1] == Rot13(input[..|input| - 1]);
    }
  }
}
