/** Texts as code points, and the codecs that turn them into bytes. */
module Texts {
  import opened Octets
  import opened Options
  import opened Decoders
  import opened Literals
  import opened Fold

  predicate IsAscii(ps: seq<Scalar>) {
    forall k :: 0 <= k < |ps| ==> ps[k] < 0x80
  }

  predicate IsLatin1(ps: seq<Scalar>) {
    forall k :: 0 <= k < |ps| ==> ps[k] < 0x100
  }

  /** One byte per code point. */
  function Latin1All(ps: seq<Scalar>): (r: Bytes)
    requires IsLatin1(ps)
    ensures |r| == |ps|
  {
    if ps == [] then [] else Latin1All(ps[..|ps| - 1]) + [ps[|ps| - 1] as byte]
  }

  /** Two bytes, low one first, or two surrogates. */
  function Utf16Of(c: Scalar): Bytes {
    if c < 0x1_0000 then [(c % 0x100) as byte, (c / 0x100) as byte]
    else
      var v := c - 0x1_0000;
      [(v / 0x400 % 0x100) as byte, (0xD8 + v / 0x4_0000) as byte, (v % 0x100) as byte, (0xDC + v / 0x100 % 4) as byte]
  }

  function Utf16All(ps: seq<Scalar>): Bytes {
    if ps == [] then [] else Utf16All(ps[..|ps| - 1]) + Utf16Of(ps[|ps| - 1])
  }

  /** What encoding a text in a codec gives, if the codec has all its characters; UTF-16 starts with
      a byte order mark. */
  function CodecBytes(codec: Codec, ps: seq<Scalar>): Option<Bytes> {
    match codec
    case Utf8Codec => Some(Utf8All(ps))
    case AsciiCodec => if IsAscii(ps) then Some(Latin1All(ps)) else None
    case Latin1Codec => if IsLatin1(ps) then Some(Latin1All(ps)) else None
    case Utf16Codec => Some([0xFF, 0xFE] + Utf16All(ps))
  }

  lemma {:induction false} Utf8Length(ps: seq<Scalar>)
    ensures |Utf8All(ps)| >= |ps| && (|Utf8All(ps)| == |ps| <==> IsAscii(ps))
  {
    if ps != [] {
      var init, c := ps[..|ps| - 1], ps[|ps| - 1];
      Utf8Length(init);
      assert ps == init + [c];
      assert IsAscii(ps) <==> IsAscii(init) && c < 0x80;
      assert |Utf8Of(c)| == 1 <==> c < 0x80;
      hide Utf8Of, Utf8All, IsAscii;
    }
  }

  lemma {:induction false} AsciiIsLatin1(ps: seq<Scalar>)
    requires IsAscii(ps)
    ensures Latin1All(ps) == Utf8All(ps)
  {
    if ps != [] {
      AsciiIsLatin1(ps[..|ps| - 1]);
    }
  }

  lemma {:induction false} FirstByte(ps: seq<Scalar>)
    ensures Utf8All(ps) != [] ==> Utf8All(ps)[0] < 0xF8
  {
    if ps != [] {
      FirstByte(ps[..|ps| - 1]);
      assert Utf8Of(ps[|ps| - 1])[0] < 0xF8;
      hide Utf8Of;
    }
  }

  /** Text encoded in a codec is its UTF-8 exactly for UTF-8 and ASCII, for Latin-1 when it is ASCII
      text, and for UTF-16 never. */
  lemma CodecIff(codec: Codec, ps: seq<Scalar>)
    requires CodecBytes(codec, ps).Some?
    ensures CodecBytes(codec, ps).value == Utf8All(ps)
            <==> codec.Utf8Codec? || codec.AsciiCodec? || (codec.Latin1Codec? && IsAscii(ps))
  {
    Utf8Length(ps);
    FirstByte(ps);
    if IsAscii(ps) {
      AsciiIsLatin1(ps);
    }
    hide Utf8All, Utf16All, Latin1All;
    if codec.Utf16Codec? {
      assert CodecBytes(codec, ps).value[0] == 0xFF;
    }
  }

  // ---- reversal ----

  function Flipped(ps: seq<Scalar>): (r: seq<Scalar>)
    ensures |r| == |ps| && forall k :: 0 <= k < |ps| ==> r[k] == ps[|ps| - 1 - k]
  {
    if ps == [] then [] else [ps[|ps| - 1]] + Flipped(ps[..|ps| - 1])
  }

  lemma {:induction false} BackwardsConcat(a: Bytes, b: Bytes)
    ensures Backwards(a + b) == Backwards(b) + Backwards(a)
  {
    if a == [] {
      assert a + b == b;
    } else {
      assert (a + b)[1..] == a[1..] + b;
      BackwardsConcat(a[1..], b);
    }
  }

  /** The first byte that is not ASCII. */
  function FirstHigh(b: Bytes): Option<byte> {
    if b == [] then None else if b[0] >= 0x80 then Some(b[0]) else FirstHigh(b[1..])
  }

  lemma {:induction false} FirstHighConcat(a: Bytes, b: Bytes)
    ensures FirstHigh(a + b) == if FirstHigh(a).Some? then FirstHigh(a) else FirstHigh(b)
  {
    if a == [] {
      assert a + b == b;
    } else {
      assert (a + b)[1..] == a[1..] + b;
      FirstHighConcat(a[1..], b);
    }
  }

  /** Forwards, the first byte of a character is a lead. */
  lemma {:induction false} LeadsFirst(ps: seq<Scalar>)
    ensures FirstHigh(Utf8All(ps)).Some? ==> FirstHigh(Utf8All(ps)).value >= 0xC0
  {
    if ps != [] {
      LeadsFirst(ps[..|ps| - 1]);
      FirstHighConcat(Utf8All(ps[..|ps| - 1]), Utf8Of(ps[|ps| - 1]));
      HighOf(ps[|ps| - 1]);
      hide Utf8Of, FirstHigh;
    }
  }

  /** Backwards, it is a continuation. */
  lemma {:induction false} TrailsFirst(ps: seq<Scalar>)
    ensures FirstHigh(Backwards(Utf8All(ps))).None? <==> IsAscii(ps)
    ensures FirstHigh(Backwards(Utf8All(ps))).Some? ==> FirstHigh(Backwards(Utf8All(ps))).value < 0xC0
  {
    if ps != [] {
      var init, c := ps[..|ps| - 1], ps[|ps| - 1];
      TrailsFirst(init);
      BackwardsConcat(Utf8All(init), Utf8Of(c));
      FirstHighConcat(Backwards(Utf8Of(c)), Backwards(Utf8All(init)));
      HighOf(c);
      assert ps == init + [c];
      assert IsAscii(ps) <==> IsAscii(init) && c < 0x80;
      hide Utf8Of, FirstHigh, Backwards, IsAscii;
    }
  }

  lemma HighOf(c: Scalar)
    ensures FirstHigh(Utf8Of(c)).None? <==> c < 0x80
    ensures FirstHigh(Utf8Of(c)).Some? ==> FirstHigh(Utf8Of(c)).value >= 0xC0
    ensures FirstHigh(Backwards(Utf8Of(c))).None? <==> c < 0x80
    ensures FirstHigh(Backwards(Utf8Of(c))).Some? ==> FirstHigh(Backwards(Utf8Of(c))).value < 0xC0
  {
    var b := Utf8Of(c);
    assert b[0] >= 0x80 <==> c >= 0x80;
    if c < 0x80 {
      assert b[1..] == [];
      assert Backwards(b) == Backwards(b[1..]) + [b[0]];
    } else {
      var last := |b| - 1;
      assert b[last] < 0xC0 && b[last] >= 0x80;
      assert b == b[..last] + [b[last]];
      BackwardsConcat(b[..last], [b[last]]);
      assert [b[last]][1..] == [];
    }
  }

  lemma {:induction false} AsciiFlips(ps: seq<Scalar>)
    requires IsAscii(ps)
    ensures Backwards(Utf8All(ps)) == Utf8All(Flipped(ps))
  {
    if ps != [] {
      var init, c := ps[..|ps| - 1], ps[|ps| - 1];
      AsciiFlips(init);
      BackwardsConcat(Utf8All(init), Utf8Of(c));
      assert Utf8Of(c)[1..] == [] && Backwards(Utf8Of(c)) == Utf8Of(c);
      Utf8Cons(c, Flipped(init));
      hide Utf8Of, Backwards, Utf8All;
    }
  }

  /** The bytes of a text backwards are the UTF-8 of the text backwards exactly for ASCII text. */
  lemma FlipIff(ps: seq<Scalar>)
    ensures Backwards(Utf8All(ps)) == Utf8All(Flipped(ps)) <==> IsAscii(ps)
  {
    if IsAscii(ps) {
      AsciiFlips(ps);
    } else {
      TrailsFirst(ps);
      LeadsFirst(Flipped(ps));
    }
    hide Backwards, Utf8All, FirstHigh;
  }

  // ---- rotation by thirteen ----

  function RotatedPoint(c: Scalar): Scalar {
    if c < 0x80 then Rotated(c as byte) as int else c
  }

  function RotatedAll(ps: seq<Scalar>): seq<Scalar> {
    if ps == [] then [] else RotatedAll(ps[..|ps| - 1]) + [RotatedPoint(ps[|ps| - 1])]
  }

  lemma {:induction false} Rot13Concat(a: Bytes, b: Bytes)
    ensures Rot13(a + b) == Rot13(a) + Rot13(b)
  {
    if b == [] {
      assert a + b == a;
    } else {
      assert (a + b)[..|a + b| - 1] == a + b[..|b| - 1];
      Rot13Concat(a, b[..|b| - 1]);
    }
  }

  lemma {:induction false} HighUnrotated(b: Bytes)
    requires forall k :: 0 <= k < |b| ==> b[k] >= 0x80
    ensures Rot13(b) == b
  {
    if b != [] {
      HighUnrotated(b[..|b| - 1]);
    }
  }

  /** Rotating the bytes of a text rotates its letters. */
  lemma {:induction false} Rot13Texts(ps: seq<Scalar>)
    ensures Rot13(Utf8All(ps)) == Utf8All(RotatedAll(ps))
  {
    if ps != [] {
      var init, c := ps[..|ps| - 1], ps[|ps| - 1];
      Rot13Texts(init);
      Rot13Concat(Utf8All(init), Utf8Of(c));
      assert RotatedAll(ps)[..|ps| - 1] == RotatedAll(init) && RotatedAll(ps)[|ps| - 1] == RotatedPoint(c) by {
        RotatedLength(init);
      }
      RotatedOne(c);
      hide Utf8Of, Rot13, RotatedPoint, RotatedAll;
    }
  }

  lemma {:induction false} RotatedLength(ps: seq<Scalar>)
    ensures |RotatedAll(ps)| == |ps|
  {
    if ps != [] {
      RotatedLength(ps[..|ps| - 1]);
    }
  }

  lemma RotatedOne(c: Scalar)
    ensures Rot13(Utf8Of(c)) == Utf8Of(RotatedPoint(c))
  {
    var b := Utf8Of(c);
    if c < 0x80 {
      assert b[..0] == [] && Rot13(b) == [] + [Rotated(b[0])];
    } else {
      HighUnrotated(b);
    }
  }
}
