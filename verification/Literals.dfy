/** String literals as the folder reads them: prefix and quotes removed, a handful of escapes resolved. */
module Literals {
  import opened Octets
  import opened Options

  /** A Unicode scalar value: what one character of a text is. */
  type Scalar = c: int | 0 <= c < 0xD800 || 0xE000 <= c <= 0x10_FFFF

  // ---- UTF-8 ----

  /** The UTF-8 bytes of a Unicode scalar value. */
  function Utf8(code: int): (r: Option<Bytes>)
    ensures r.Some? ==> |r.value| <= 4
  {
    if code < 0 || code > 0x10_FFFF || 0xD800 <= code <= 0xDFFF then None
    else if code < 0x80 then Some([code as byte])
    else if code < 0x800 then Some([(0xC0 + code / 0x40) as byte, (0x80 + code % 0x40) as byte])
    else if code < 0x1_0000 then Some([(0xE0 + code / 0x1000) as byte, (0x80 + code / 0x40 % 0x40) as byte, (0x80 + code % 0x40) as byte])
    else Some([(0xF0 + code / 0x4_0000) as byte, (0x80 + code / 0x1000 % 0x40) as byte, (0x80 + code / 0x40 % 0x40) as byte, (0x80 + code % 0x40) as byte])
  }

  function Utf8Of(c: Scalar): (r: Bytes)
    ensures 0 < |r| <= 4
  {
    Utf8(c).value
  }

  function Utf8All(ps: seq<Scalar>): Bytes {
    if ps == [] then [] else Utf8All(ps[..|ps| - 1]) + Utf8Of(ps[|ps| - 1])
  }

  lemma {:induction false} Utf8Cons(c: Scalar, ps: seq<Scalar>)
    ensures Utf8All([c] + ps) == Utf8Of(c) + Utf8All(ps)
  {
    if ps == [] {
      assert [c] + ps == [c] && [c][..0] == [];
    } else {
      assert ([c] + ps)[..|ps|] == [c] + ps[..|ps| - 1];
      Utf8Cons(c, ps[..|ps| - 1]);
    }
  }

  lemma {:induction false} Utf8Concat(a: seq<Scalar>, b: seq<Scalar>)
    ensures Utf8All(a + b) == Utf8All(a) + Utf8All(b)
  {
    if b == [] {
      assert a + b == a;
    } else {
      assert (a + b)[..|a + b| - 1] == a + b[..|b| - 1];
      Utf8Concat(a, b[..|b| - 1]);
    }
  }

  // ---- escapes ----

  const BACKSLASH: Scalar := 92

  const SINGLE: Scalar := 39

  const DOUBLE: Scalar := 34

  function HexDigit(c: Scalar): (v: Option<nat>)
    ensures v.Some? ==> v.value < 16
  {
    if 48 <= c <= 57 then Some(c - 48)
    else if 97 <= c <= 102 then Some(c - 97 + 10)
    else if 65 <= c <= 70 then Some(c - 65 + 10)
    else None
  }

  /** A byte, and how many characters it is written with. */
  datatype Escape = Escape(value: byte, width: nat)

  /** The escape `s` starts with, if it is one the folder knows. */
  function EscapeOf(s: seq<Scalar>): (r: Option<Escape>)
    requires s != [] && s[0] == BACKSLASH
    ensures r.Some? ==> 2 <= r.value.width <= |s|
  {
    if |s| < 2 then None
    else if s[1] == 110 then Some(Escape(10, 2))
    else if s[1] == 114 then Some(Escape(13, 2))
    else if s[1] == 116 then Some(Escape(9, 2))
    else if s[1] == 48 then Some(Escape(0, 2))
    else if s[1] == BACKSLASH || s[1] == SINGLE || s[1] == DOUBLE then Some(Escape(s[1] as byte, 2))
    else if s[1] == 120 && |s| >= 4 && HexDigit(s[2]).Some? && HexDigit(s[3]).Some?
      then Some(Escape((HexDigit(s[2]).value * 16 + HexDigit(s[3]).value) as byte, 4))
    else None
  }

  function Before(b: Bytes, rest: Option<Bytes>): Option<Bytes> {
    match rest
    case Some(r) => Some(b + r)
    case None => None
  }

  /** The bytes of what is written, escapes resolved; none where an escape is not understood. */
  function Unescaped(s: seq<Scalar>): Option<Bytes>
    decreases |s|
  {
    if s == [] then Some([])
    else if s[0] != BACKSLASH then Before(Utf8Of(s[0]), Unescaped(s[1..]))
    else
      var e := EscapeOf(s);
      if e.None? then None else Before([e.value.value], Unescaped(s[e.value.width..]))
  }

  /** Resolves the escapes from front to back. */
  method Unescape(s: seq<Scalar>) returns (r: Option<Bytes>)
    ensures r == Unescaped(s)
  {
    var out: Bytes, at := [], 0;
    assert s[0..] == s;
    BeforeNothing(Unescaped(s));
    while at < |s|
      invariant at <= |s| && Unescaped(s) == Before(out, Unescaped(s[at..]))
      decreases |s| - at
    {
      hide Unescaped, Utf8Of;
      UnescapedNext(s, at, out);
      if s[at] != BACKSLASH {
        out, at := out + Utf8Of(s[at]), at + 1;
      } else {
        var e := EscapeOf(s[at..]);
        if e.None? {
          return None;
        }
        out, at := out + [e.value.value], at + e.value.width;
      }
    }
    assert s[at..] == [] && out + [] == out;
    r := Some(out);
  }

  lemma BeforeNothing(rest: Option<Bytes>)
    ensures Before([], rest) == rest
  {
    if rest.Some? {
      assert [] + rest.value == rest.value;
    }
  }

  lemma BeforeBoth(a: Bytes, b: Bytes, rest: Option<Bytes>)
    ensures Before(a, Before(b, rest)) == Before(a + b, rest)
  {
    if rest.Some? {
      assert a + (b + rest.value) == a + b + rest.value;
    }
  }

  lemma UnescapedNext(s: seq<Scalar>, at: nat, out: Bytes)
    requires at < |s|
    ensures s[at] != BACKSLASH ==> Before(out, Unescaped(s[at..])) == Before(out + Utf8Of(s[at]), Unescaped(s[at + 1..]))
    ensures s[at] == BACKSLASH ==>
      var e := EscapeOf(s[at..]);
      && (e.None? ==> Before(out, Unescaped(s[at..])) == None)
      && (e.Some? ==> Before(out, Unescaped(s[at..])) == Before(out + [e.value.value], Unescaped(s[at + e.value.width..])))
  {
    var t := s[at..];
    assert t[1..] == s[at + 1..];
    if s[at] != BACKSLASH {
      BeforeBoth(out, Utf8Of(s[at]), Unescaped(s[at + 1..]));
    } else if EscapeOf(t).Some? {
      var e := EscapeOf(t).value;
      assert t[e.width..] == s[at + e.width..];
      BeforeBoth(out, [e.value], Unescaped(s[at + e.width..]));
    }
    hide Utf8Of, EscapeOf, Before;
  }

  // ---- prefix and quotes ----

  function FirstQuote(s: seq<Scalar>): (r: Option<nat>)
    ensures r.Some? ==> r.value < |s| && (s[r.value] == SINGLE || s[r.value] == DOUBLE)
    ensures r.Some? ==> forall k :: 0 <= k < r.value ==> s[k] != SINGLE && s[k] != DOUBLE
    ensures r.None? ==> SINGLE !in s && DOUBLE !in s
  {
    if s == [] then None
    else if s[0] == SINGLE || s[0] == DOUBLE then Some(0)
    else
      assert s == [s[0]] + s[1..];
      match FirstQuote(s[1..])
      case None => None
      case Some(k) => Some(k + 1)
  }

  predicate IsRaw(prefix: seq<Scalar>) {
    114 in prefix || 82 in prefix
  }

  predicate IsPrefix(prefix: seq<Scalar>) {
    forall k :: 0 <= k < |prefix| ==> prefix[k] in [114, 82, 98, 66, 117, 85]
  }

  /** What stands between `q` and `q`, if `body` starts and ends with it. */
  function Strip(body: seq<Scalar>, q: seq<Scalar>): Option<seq<Scalar>> {
    if |body| >= 2 * |q| && body[..|q|] == q && body[|body| - |q|..] == q then Some(body[|q|..|body| - |q|]) else None
  }

  function Thrice(c: Scalar): seq<Scalar> {
    [c, c, c]
  }

  /** Triple quotes are tried before single ones. */
  function Inner(body: seq<Scalar>): Option<seq<Scalar>> {
    if Strip(body, Thrice(DOUBLE)).Some? then Strip(body, Thrice(DOUBLE))
    else if Strip(body, Thrice(SINGLE)).Some? then Strip(body, Thrice(SINGLE))
    else if Strip(body, [DOUBLE]).Some? then Strip(body, [DOUBLE])
    else Strip(body, [SINGLE])
  }

  /** The bytes of a literal as it stands in the source. */
  function LiteralBytes(source: seq<Scalar>): Option<Bytes> {
    var at := FirstQuote(source);
    if at.None? || !IsPrefix(source[..at.value]) then None
    else
      var inner := Inner(source[at.value..]);
      if inner.None? then None
      else if IsRaw(source[..at.value]) then Some(Utf8All(inner.value))
      else Unescaped(inner.value)
  }

  method ReadLiteral(source: seq<Scalar>) returns (r: Option<Bytes>)
    ensures r == LiteralBytes(source)
  {
    var at := FirstQuote(source);
    if at.None? || !IsPrefix(source[..at.value]) {
      return None;
    }
    var inner := Inner(source[at.value..]);
    if inner.None? {
      return None;
    }
    if IsRaw(source[..at.value]) {
      return Some(Utf8All(inner.value));
    }
    r := Unescape(inner.value);
  }
}
