/** String literals as Python reads them, and exactly which of them the folder reads the same. */
module PythonLiterals {
  import opened Octets
  import opened Options
  import opened Literals

  // ---- what Python reads ----

  /** What an escape stands for, and how many characters it is written with. */
  datatype Meant = Meant(points: seq<Scalar>, width: nat)

  predicate IsOctal(c: Scalar) {
    48 <= c <= 55
  }

  /** The number that `n` hexadecimal digits from `s[2]` on are. */
  function HexNumber(s: seq<Scalar>, n: nat): Option<nat>
    requires n <= 8
  {
    if n == 0 then Some(0)
    else if |s| < 2 + n || HexDigit(s[1 + n]).None? then None
    else
      match HexNumber(s, n - 1)
      case None => None
      case Some(v) => Some(v * 16 + HexDigit(s[1 + n]).value)
  }

  function CharOf(n: int, width: nat): Option<Meant> {
    if 0 <= n < 0xD800 || 0xE000 <= n <= 0x10_FFFF then Some(Meant([n], width)) else None
  }

  /** The escape `s` starts with, in a bytes or a text literal; any other character keeps its
      backslash. None where Python refuses it, and for surrogates and names of characters. */
  function MeantBy(s: seq<Scalar>, isBytes: bool): (r: Option<Meant>)
    requires s != [] && s[0] == BACKSLASH
    ensures r.Some? ==> 2 <= r.value.width
  {
    if |s| < 2 || s[1] == 0 || (isBytes && s[1] >= 0x80) then None
    else if s[1] == 10 then Some(Meant([], 2))
    else if s[1] == 13 then Some(Meant([], if |s| > 2 && s[2] == 10 then 3 else 2))
    else if s[1] == BACKSLASH || s[1] == SINGLE || s[1] == DOUBLE then Some(Meant([s[1]], 2))
    else if s[1] == 97 then Some(Meant([7], 2))
    else if s[1] == 98 then Some(Meant([8], 2))
    else if s[1] == 102 then Some(Meant([12], 2))
    else if s[1] == 110 then Some(Meant([10], 2))
    else if s[1] == 114 then Some(Meant([13], 2))
    else if s[1] == 116 then Some(Meant([9], 2))
    else if s[1] == 118 then Some(Meant([11], 2))
    else if IsOctal(s[1]) then
      var a := s[1] - 48;
      if |s| < 3 || !IsOctal(s[2]) then Some(Meant([a], 2))
      else
        var b := a * 8 + s[2] - 48;
        if |s| < 4 || !IsOctal(s[3]) then Some(Meant([b], 3))
        else Some(Meant([if isBytes then (b * 8 + s[3] - 48) % 256 else b * 8 + s[3] - 48], 4))
    else if s[1] == 120 then
      var n := HexNumber(s, 2);
      if n.Some? then CharOf(n.value, 4) else None
    else if s[1] == 117 && !isBytes then
      var n := HexNumber(s, 4);
      if n.Some? then CharOf(n.value, 6) else None
    else if s[1] == 85 && !isBytes then
      var n := HexNumber(s, 8);
      if n.Some? then CharOf(n.value, 10) else None
    else if s[1] == 78 && !isBytes then None
    else Some(Meant([BACKSLASH, s[1]], 2))
  }

  predicate IsB(c: Scalar) { c == 98 || c == 66 }

  predicate IsR(c: Scalar) { c == 114 || c == 82 }

  /** `r`, `b`, `u`, or `b` and `r` in either order. */
  predicate IsPythonPrefix(p: seq<Scalar>) {
    || |p| == 0
    || (|p| == 1 && (IsB(p[0]) || IsR(p[0]) || p[0] == 117 || p[0] == 85))
    || (|p| == 2 && ((IsB(p[0]) && IsR(p[1])) || (IsR(p[0]) && IsB(p[1]))))
  }

  /** How a literal begins: the length of its prefix, and its quotes. */
  datatype Opening = Opening(prefix: nat, quotes: seq<Scalar>, isRaw: bool, isBytes: bool)

  function OpeningOf(s: seq<Scalar>): (r: Option<Opening>)
    ensures r.Some? ==> r.value.prefix <= 2 && 1 <= |r.value.quotes| <= 3 && r.value.prefix + |r.value.quotes| <= |s|
  {
    var at := FirstQuote(s);
    if at.None? || !IsPythonPrefix(s[..at.value]) then None
    else
      var k, p := at.value, s[..at.value];
      var triple := |s| >= k + 3 && s[k + 1] == s[k] && s[k + 2] == s[k];
      Some(Opening(k, if triple then Thrice(s[k]) else [s[k]], exists i :: 0 <= i < |p| && IsR(p[i]), exists i :: 0 <= i < |p| && IsB(p[i])))
  }

  function Then(ps: seq<Scalar>, rest: Option<seq<Scalar>>): Option<seq<Scalar>> {
    match rest
    case Some(r) => Some(ps + r)
    case None => None
  }

  predicate IsBreak(c: Scalar) {
    c == 10 || c == 13
  }

  /** What is left after the line. */
  function AfterLine(s: seq<Scalar>): (r: seq<Scalar>)
    ensures |r| <= |s|
  {
    if s == [] || IsBreak(s[0]) then s else AfterLine(s[1..])
  }

  /** What further literals, side by side, amount to: all texts or all bytes. */
  function More(s: seq<Scalar>, isBytes: bool): Option<seq<Scalar>>
    decreases |s|
  {
    if s == [] then None
    else if s[0] in [32, 9, 12, 10, 13] then More(s[1..], isBytes)
    else if s[0] == 35 then
      assert AfterLine(s) == AfterLine(s[1..]);
      More(AfterLine(s), isBytes)
    else if s[0] == BACKSLASH then if |s| > 1 && IsBreak(s[1]) then More(s[2..], isBytes) else None
    else
      var o := OpeningOf(s);
      if o.None? || o.value.isBytes != isBytes then None
      else Inside(s[o.value.prefix + |o.value.quotes|..], o.value.quotes, o.value.isRaw, isBytes)
  }

  /** What is inside a literal up to its closing quotes, and what comes after; a line break counts as
      a line feed however it is written. */
  function Inside(s: seq<Scalar>, q: seq<Scalar>, isRaw: bool, isBytes: bool): Option<seq<Scalar>>
    requires q != []
    decreases |s|
  {
    if q == s then Some([])
    else if q <= s then More(s[|q|..], isBytes)
    else if s == [] || s[0] == 0 || (isBytes && s[0] >= 0x80) then None
    else if s[0] == BACKSLASH then
      if isRaw then
        if |s| < 2 || s[1] == 0 || (isBytes && s[1] >= 0x80) then None
        else if s[1] == 13 then Then([BACKSLASH, 10], Inside(s[if |s| > 2 && s[2] == 10 then 3 else 2..], q, isRaw, isBytes))
        else Then([BACKSLASH, s[1]], Inside(s[2..], q, isRaw, isBytes))
      else
        var m := MeantBy(s, isBytes);
        if m.None? || m.value.width > |s| then None else Then(m.value.points, Inside(s[m.value.width..], q, isRaw, isBytes))
    else if IsBreak(s[0]) && |q| == 1 then None
    else if s[0] == 13 then Then([10], Inside(s[if |s| > 1 && s[1] == 10 then 2 else 1..], q, isRaw, isBytes))
    else Then([s[0]], Inside(s[1..], q, isRaw, isBytes))
  }

  /** The text or bytes a literal is. */
  datatype Literal = Literal(isBytes: bool, points: seq<Scalar>)

  function Meaning(source: seq<Scalar>): Option<Literal> {
    var o := OpeningOf(source);
    if o.None? then None
    else
      var ps := Inside(source[o.value.prefix + |o.value.quotes|..], o.value.quotes, o.value.isRaw, o.value.isBytes);
      if ps.Some? then Some(Literal(o.value.isBytes, ps.value)) else None
  }

  // ---- in bytes ----

  function ShownOf(c: Scalar, isBytes: bool): Bytes {
    if isBytes && c < 0x100 then [c as byte] else Utf8Of(c)
  }

  /** Texts in UTF-8, bytes as they are. */
  function Shown(ps: seq<Scalar>, isBytes: bool): Bytes {
    if ps == [] then [] else ShownOf(ps[0], isBytes) + Shown(ps[1..], isBytes)
  }

  lemma {:induction false} ShownConcat(a: seq<Scalar>, b: seq<Scalar>, isBytes: bool)
    ensures Shown(a + b, isBytes) == Shown(a, isBytes) + Shown(b, isBytes)
  {
    hide ShownOf;
    if a == [] {
      assert a + b == b;
    } else {
      assert (a + b)[1..] == a[1..] + b;
      ShownConcat(a[1..], b, isBytes);
    }
  }

  lemma {:induction false} ShownText(ps: seq<Scalar>)
    ensures Shown(ps, false) == Utf8All(ps)
  {
    if ps != [] {
      ShownText(ps[1..]);
      Utf8Cons(ps[0], ps[1..]);
      assert ps == [ps[0]] + ps[1..];
      hide Utf8Of, Utf8All;
    }
  }

  // ---- what the folder reads the same ----

  /** The closing quotes are the last: there is one literal. */
  predicate Alone(s: seq<Scalar>, q: seq<Scalar>)
    requires q != []
    decreases |s|
  {
    if q <= s then s == q
    else if s == [] then false
    else if s[0] == BACKSLASH then |s| >= 2 && Alone(s[2..], q)
    else Alone(s[1..], q)
  }

  /** Nothing between the quotes is read otherwise: no carriage return, and but in a raw literal no
      `\0` before an octal digit and in a text no escaped byte above 0x7F. */
  predicate AsMeant(t: seq<Scalar>, isRaw: bool, isBytes: bool)
    decreases |t|
  {
    if t == [] then true
    else if t[0] != BACKSLASH then t[0] != 13 && AsMeant(t[1..], isRaw, isBytes)
    else if |t| < 2 then true
    else if isRaw then t[1] != 13 && AsMeant(t[2..], isRaw, isBytes)
    else if t[1] == 48 then !(|t| > 2 && IsOctal(t[2])) && AsMeant(t[2..], isRaw, isBytes)
    else
      var e := EscapeOf(t);
      e.Some? && (e.value.width == 4 && !isBytes ==> e.value.value < 0x80) && AsMeant(t[e.value.width..], isRaw, isBytes)
  }

  predicate ReadAsMeant(source: seq<Scalar>) {
    var o := OpeningOf(source);
    o.Some? ==>
      var s, q := source[o.value.prefix + |o.value.quotes|..], o.value.quotes;
      Alone(s, q) && |s| >= |q| && AsMeant(s[..|s| - |q|], o.value.isRaw, o.value.isBytes)
  }

  // ---- one literal ----

  /** Weighs every byte so that what the folder makes of something it misreads outweighs what Python
      does. */
  function Weight(b: byte): int {
    if b == 0 then 2
    else if 48 <= b <= 55 || b == 13 then 1
    else if b == 0xC2 || b == 0x83 then -1
    else if b == 0xC3 then -2
    else 0
  }

  function Weighed(b: Bytes): int {
    if b == [] then 0 else Weight(b[0]) + Weighed(b[1..])
  }

  lemma {:induction false} WeighedConcat(a: Bytes, b: Bytes)
    ensures Weighed(a + b) == Weighed(a) + Weighed(b)
  {
    hide Weight;
    if a == [] {
      assert a + b == b;
    } else {
      assert (a + b)[1..] == a[1..] + b;
      WeighedConcat(a[1..], b);
    }
  }

  /** `d` is what the folder makes of something, `v` what Python does; `same` if they should agree. */
  ghost predicate Outweighs(d: Bytes, v: Bytes, same: bool) {
    if same then d == v else Weighed(d) > Weighed(v)
  }

  lemma OutweighsBoth(d: Bytes, v: Bytes, same: bool, d': Bytes, v': Bytes, same': bool)
    requires Outweighs(d, v, same) && Outweighs(d', v', same')
    ensures Outweighs(d + d', v + v', same && same')
  {
    WeighedConcat(d, d');
    WeighedConcat(v, v');
  }

  lemma Apart(d: Bytes, v: Bytes, same: bool)
    requires Outweighs(d, v, same)
    ensures d == v <==> same
  {
  }

  predicate AreQuotes(q: seq<Scalar>) {
    q == [SINGLE] || q == [DOUBLE] || q == Thrice(SINGLE) || q == Thrice(DOUBLE)
  }

  lemma OneShown(c: Scalar, isBytes: bool)
    ensures Shown([c], isBytes) == ShownOf(c, isBytes)
    ensures !isBytes || c < 0x80 ==> ShownOf(c, isBytes) == Utf8Of(c)
    ensures c < 0x80 ==> ShownOf(c, isBytes) == [c as byte]
  {
    assert [c][1..] == [];
  }

  lemma TwoShown(c: Scalar, d: Scalar, isBytes: bool)
    ensures Shown([c, d], isBytes) == ShownOf(c, isBytes) + ShownOf(d, isBytes)
  {
    OneShown(d, isBytes);
    assert [c, d][1..] == [d];
    hide ShownOf;
  }

  /** What the next few characters are read as, and whether rightly. */
  datatype Step = Step(width: nat, points: seq<Scalar>, same: bool)

  function LineBreak(s: seq<Scalar>, at: nat): (n: nat)
    ensures n == 1 || (n == 2 && |s| > at + 1 && s[at + 1] == 10)
  {
    if |s| > at + 1 && s[at + 1] == 10 then 2 else 1
  }

  /** In a raw literal. */
  function RawStep(s: seq<Scalar>): Step
    requires s != [] && (s[0] == BACKSLASH ==> |s| >= 2)
  {
    if s[0] == BACKSLASH then
      if s[1] == 13 then Step(1 + LineBreak(s, 1), [BACKSLASH, 10], false) else Step(2, [BACKSLASH, s[1]], true)
    else if s[0] == 13 then Step(LineBreak(s, 0), [10], false)
    else Step(1, [s[0]], true)
  }

  lemma RawStepIs(s: seq<Scalar>, q: seq<Scalar>, isBytes: bool)
    requires AreQuotes(q) && !(q <= s) && Inside(s, q, true, isBytes).Some?
    ensures s != [] && (s[0] == BACKSLASH ==> |s| >= 2)
    ensures var st := RawStep(s);
            && 0 < st.width <= |s| && Inside(s[st.width..], q, true, isBytes).Some?
            && Inside(s, q, true, isBytes) == Then(st.points, Inside(s[st.width..], q, true, isBytes))
            && (Alone(s, q) <==> Alone(s[st.width..], q))
  {
    var st := RawStep(s);
    if st.width > 1 && s[st.width - 1] == 10 && st.points != [BACKSLASH, 10 as Scalar] {
      assert s[1..][1..] == s[2..];
    }
    if st.width == 3 {
      assert s[2..][1..] == s[3..];
    }
  }

  lemma BreaksWeigh()
    ensures Outweighs([13], [10], false) && Outweighs([13, 10], [10], false)
    ensures Outweighs([92, 13], [92, 10], false) && Outweighs([92, 13, 10], [92, 10], false)
  {
    var a: Bytes, b: Bytes, c: Bytes, d: Bytes, e: Bytes, f: Bytes := [13], [10], [13, 10], [92, 13], [92, 10], [92, 13, 10];
    assert a[1..] == [] && b[1..] == [] && c[1..] == b && d[1..] == a && e[1..] == b && f[1..] == c;
    assert Weighed(a) == 1 && Weighed(b) == 0;
    assert Weighed(c) == 1 && Weighed(d) == 1 && Weighed(e) == 0;
    assert Weighed(f) == 1;
  }

  lemma LowShown(c: Scalar, d: Scalar, isBytes: bool)
    requires c < 0x80 && d < 0x80
    ensures Shown([c], isBytes) == [c as byte] && Shown([c, d], isBytes) == [c as byte, d as byte]
  {
    OneShown(c, isBytes);
    OneShown(d, isBytes);
    TwoShown(c, d, isBytes);
    hide Shown, ShownOf;
    assert [c as byte] + [d as byte] == [c as byte, d as byte];
  }

  lemma RawStepWeighs(s: seq<Scalar>, isBytes: bool)
    requires s != [] && (s[0] == BACKSLASH ==> |s| >= 2) && RawStep(s).width <= |s|
    requires isBytes ==> s[0] < 0x80 && (s[0] == BACKSLASH ==> s[1] < 0x80)
    ensures var st := RawStep(s); Outweighs(Shown(s[..st.width], false), Shown(st.points, isBytes), st.same)
  {
    var st := RawStep(s);
    BreaksWeigh();
    LowShown(13, 10, false);
    LowShown(10, 10, isBytes);
    LowShown(BACKSLASH, 10, isBytes);
    LowShown(BACKSLASH, 13, false);
    LowThree();
    assert |s| >= 1 ==> s[..1] == [s[0]];
    assert |s| >= 2 ==> s[..2] == [s[0], s[1]];
    assert |s| >= 3 ==> s[..3] == [s[0], s[1], s[2]];
    if st.same {
      OneShown(s[0], false);
      OneShown(s[0], isBytes);
      if st.width == 2 {
        OneShown(s[1], false);
        OneShown(s[1], isBytes);
        TwoShown(BACKSLASH, s[1], false);
        TwoShown(BACKSLASH, s[1], isBytes);
      }
    }
    hide Shown, ShownOf, Utf8Of, Weighed;
  }

  lemma LowThree()
    ensures Shown([BACKSLASH, 13, 10], false) == [92, 13, 10]
  {
    LowShown(13, 10, false);
    OneShown(BACKSLASH, false);
    ShownConcat([BACKSLASH], [13, 10], false);
    hide Shown, ShownOf;
    assert [BACKSLASH] + [13, 10] == [BACKSLASH, 13, 10];
    assert [92 as byte] + [13, 10] == [92, 13, 10];
  }

  /** What is read first and the rest. */
  lemma Glue(d0: Bytes, d: Bytes, v0: seq<Scalar>, v: seq<Scalar>, isBytes: bool, same: bool, same': bool)
    requires Outweighs(d0, Shown(v0, isBytes), same) && Outweighs(d, Shown(v, isBytes), same')
    ensures Outweighs(d0 + d, Shown(v0 + v, isBytes), same && same')
  {
    ShownConcat(v0, v, isBytes);
    hide Shown, Outweighs;
    OutweighsBoth(d0, Shown(v0, isBytes), same, d, Shown(v, isBytes), same');
  }

  lemma Ends(s: seq<Scalar>, q: seq<Scalar>, isRaw: bool, isBytes: bool)
    requires AreQuotes(q) && Alone(s, q) && q <= s
    ensures |s| == |q| && s[..0] == [] && Inside(s, q, isRaw, isBytes) == Some([]) && Unescaped([]) == Some([])
    ensures Outweighs(Shown([], false), Shown([], isBytes), AsMeant([], isRaw, isBytes)) && Shown([], false) == []
  {
  }

  /** How the two readings of one raw literal compare. */
  lemma {:induction false} SingleRaw(s: seq<Scalar>, q: seq<Scalar>, isBytes: bool)
    requires AreQuotes(q) && Alone(s, q) && Inside(s, q, true, isBytes).Some?
    ensures |s| >= |q|
    ensures Outweighs(Shown(s[..|s| - |q|], false), Shown(Inside(s, q, true, isBytes).value, isBytes), AsMeant(s[..|s| - |q|], true, isBytes))
    decreases |s|
  {
    hide *;
    if q <= s {
      Ends(s, q, true, isBytes);
      assert s[..|s| - |q|] == [];
    } else {
      RawStepIs(s, q, isBytes);
      RawStepAscii(s, q, isBytes);
      RawStepWeighs(s, isBytes);
      var st := RawStep(s);
      var rest := s[st.width..];
      SingleRaw(rest, q, isBytes);
      var t, m := s[..|s| - |q|], |rest| - |q|;
      assert t[st.width..] == rest[..m] && t[..st.width] == s[..st.width] && t == t[..st.width] + t[st.width..];
      RawAsMeant(s, t, isBytes);
      ShownConcat(t[..st.width], t[st.width..], false);
      Glue(Shown(t[..st.width], false), Shown(rest[..m], false), st.points, Inside(rest, q, true, isBytes).value, isBytes, st.same, AsMeant(rest[..m], true, isBytes));
      ThenIs(st.points, Inside(rest, q, true, isBytes));
    }
  }

  lemma ThenIs(ps: seq<Scalar>, rest: Option<seq<Scalar>>)
    ensures rest.Some? ==> Then(ps, rest) == Some(ps + rest.value)
    ensures rest.None? ==> Then(ps, rest) == None
  {
  }

  lemma RawStepAscii(s: seq<Scalar>, q: seq<Scalar>, isBytes: bool)
    requires AreQuotes(q) && !(q <= s) && Inside(s, q, true, isBytes).Some?
    ensures s != [] && (isBytes ==> s[0] < 0x80 && (s[0] == BACKSLASH ==> |s| >= 2 && s[1] < 0x80))
  {
    hide More;
  }

  lemma RawAsMeant(s: seq<Scalar>, t: seq<Scalar>, isBytes: bool)
    requires s != [] && (s[0] == BACKSLASH ==> |s| >= 2) && RawStep(s).width <= |t| && t <= s
    ensures var st := RawStep(s); AsMeant(t, true, isBytes) <==> st.same && AsMeant(t[st.width..], true, isBytes)
  {
  }

  /** What the folder's reader and Python make of the next few characters. */
  datatype Both = Both(width: nat, bytes: Bytes, points: seq<Scalar>, same: bool)

  /** In a literal that is not raw; an octal escape is a zero and its digits to the folder. */
  ghost function EscapedStep(s: seq<Scalar>, isBytes: bool): Both
    requires CanStep(s, isBytes)
  {
    if s[0] == BACKSLASH then
      var e, m := EscapeOf(s).value, MeantBy(s, isBytes).value;
      if s[1] == 48 then
        Both(m.width, if m.width == 2 then [0] else if m.width == 3 then [0, s[2] as byte] else [0, s[2] as byte, s[3] as byte], m.points, m.width == 2)
      else Both(e.width, [e.value], m.points, e.width == 4 && !isBytes ==> e.value < 0x80)
    else if s[0] == 13 then
      Both(LineBreak(s, 0), if LineBreak(s, 0) == 2 then [13, 10] else [13], [10], false)
    else Both(1, Utf8Of(s[0]), [s[0]], true)
  }

  ghost predicate CanStep(s: seq<Scalar>, isBytes: bool) {
    s != [] && (s[0] == BACKSLASH ==> EscapeOf(s).Some? && MeantBy(s, isBytes).Some?) && (isBytes ==> s[0] < 0x80)
  }

  lemma CanEscape(s: seq<Scalar>, q: seq<Scalar>, isBytes: bool)
    requires AreQuotes(q) && !(q <= s) && Inside(s, q, false, isBytes).Some? && Unescaped(s).Some?
    ensures CanStep(s, isBytes)
  {
    hide More;
  }

  lemma EscapeMeans(s: seq<Scalar>, isBytes: bool)
    requires s != [] && s[0] == BACKSLASH && EscapeOf(s).Some? && MeantBy(s, isBytes).Some? && s[1] != 48
    ensures EscapeOf(s).value.width == MeantBy(s, isBytes).value.width && MeantBy(s, isBytes).value.points == [EscapeOf(s).value.value as int]
  {
    if s[1] == 120 {
      assert HexNumber(s, 0) == Some(0);
      assert HexNumber(s, 1) == Some(HexDigit(s[2]).value);
      assert HexNumber(s, 2) == Some(HexDigit(s[2]).value * 16 + HexDigit(s[3]).value);
    }
  }

  lemma PlainUnescaped(s: seq<Scalar>)
    requires s != [] && s[0] != BACKSLASH
    ensures Unescaped(s) == Before(Utf8Of(s[0]), Unescaped(s[1..]))
    ensures s[0] < 0x80 ==> Utf8Of(s[0]) == [s[0] as byte]
  {
  }

  lemma OctalUnescaped(s: seq<Scalar>, n: nat)
    requires |s| >= n && 2 <= n <= 4 && s[0] == BACKSLASH && s[1] == 48 && (n > 2 ==> IsOctal(s[2])) && (n > 3 ==> IsOctal(s[3]))
    ensures Unescaped(s) == Before(if n == 2 then [0] else if n == 3 then [0, s[2] as byte] else [0, s[2] as byte, s[3] as byte], Unescaped(s[n..]))
  {
    assert EscapeOf(s) == Some(Escape(0, 2));
    assert Unescaped(s) == Before([0], Unescaped(s[2..]));
    if n > 2 {
      PlainUnescaped(s[2..]);
      assert s[2..][1..] == s[3..] && s[2..][0] == s[2];
      BeforeBoth([0], [s[2] as byte], Unescaped(s[3..]));
      assert [0 as byte] + [s[2] as byte] == [0, s[2] as byte];
    }
    if n > 3 {
      PlainUnescaped(s[3..]);
      assert s[3..][1..] == s[4..] && s[3..][0] == s[3];
      BeforeBoth([0, s[2] as byte], [s[3] as byte], Unescaped(s[4..]));
      assert [0, s[2] as byte] + [s[3] as byte] == [0, s[2] as byte, s[3] as byte];
    }
    hide Unescaped, Utf8Of, EscapeOf, Before;
  }

  lemma BreakUnescaped(s: seq<Scalar>)
    requires |s| >= 2 && s[0] == 13 && s[1] == 10
    ensures Unescaped(s) == Before([13, 10], Unescaped(s[2..]))
  {
    assert s[1..][1..] == s[2..];
    PlainUnescaped(s);
    PlainUnescaped(s[1..]);
    BeforeBoth([13], [10], Unescaped(s[2..]));
    assert [13 as byte] + [10] == [13, 10];
    hide Unescaped, Utf8Of, Before;
  }

  lemma UnescapedStep(s: seq<Scalar>, isBytes: bool)
    requires CanStep(s, isBytes) && EscapedStep(s, isBytes).width <= |s|
    ensures var st := EscapedStep(s, isBytes); Unescaped(s) == Before(st.bytes, Unescaped(s[st.width..]))
  {
    var st := EscapedStep(s, isBytes);
    if s[0] == BACKSLASH {
      if s[1] == 48 {
        OctalUnescaped(s, st.width);
      }
    } else {
      PlainUnescaped(s);
      if s[0] == 13 && st.width == 2 {
        BreakUnescaped(s);
      }
    }
    hide Utf8Of, Before;
  }

  lemma InsideStep(s: seq<Scalar>, q: seq<Scalar>, isBytes: bool)
    requires AreQuotes(q) && !(q <= s) && Inside(s, q, false, isBytes).Some? && CanStep(s, isBytes)
    ensures var st := EscapedStep(s, isBytes);
            && 0 < st.width <= |s| && Inside(s[st.width..], q, false, isBytes).Some?
            && Inside(s, q, false, isBytes) == Then(st.points, Inside(s[st.width..], q, false, isBytes))
  {
    hide More;
    if s[0] == BACKSLASH && s[1] != 48 {
      EscapeMeans(s, isBytes);
    }
  }

  /** Plain characters that are no quotes are passed over. */
  lemma {:induction false} AlonePast(s: seq<Scalar>, q: seq<Scalar>, n: nat)
    requires AreQuotes(q) && n <= |s| && forall k :: 0 <= k < n ==> s[k] != BACKSLASH && s[k] != SINGLE && s[k] != DOUBLE
    ensures Alone(s, q) <==> Alone(s[n..], q)
  {
    if n > 0 {
      assert s[1..][n - 1..] == s[n..];
      AlonePast(s[1..], q, n - 1);
    } else {
      assert s[0..] == s;
    }
  }

  /** The rest of what is read in one step has no quotes and no backslash. */
  lemma StepIsPlain(s: seq<Scalar>, isBytes: bool)
    requires CanStep(s, isBytes) && EscapedStep(s, isBytes).width <= |s|
    ensures (if s[0] == BACKSLASH then 2 else 1) <= EscapedStep(s, isBytes).width
    ensures forall k :: (if s[0] == BACKSLASH then 2 else 1) <= k < EscapedStep(s, isBytes).width ==> s[k] != BACKSLASH && s[k] != SINGLE && s[k] != DOUBLE
  {
    hide Utf8Of;
  }

  lemma AloneOne(s: seq<Scalar>, q: seq<Scalar>, n: nat)
    requires AreQuotes(q) && !(q <= s) && s != [] && n == (if s[0] == BACKSLASH then 2 else 1) && n <= |s|
    ensures Alone(s, q) <==> Alone(s[n..], q)
  {
  }

  lemma AlonePlain(s: seq<Scalar>, q: seq<Scalar>, n: nat, w: nat)
    requires AreQuotes(q) && n <= w <= |s| && forall k :: n <= k < w ==> s[k] != BACKSLASH && s[k] != SINGLE && s[k] != DOUBLE
    ensures Alone(s[n..], q) <==> Alone(s[w..], q)
  {
    hide *;
    var t := s[n..];
    assert t[w - n..] == s[w..];
    forall k | 0 <= k < w - n ensures t[k] != BACKSLASH && t[k] != SINGLE && t[k] != DOUBLE {
      assert t[k] == s[n + k];
    }
    AlonePast(t, q, w - n);
  }

  lemma AloneStep(s: seq<Scalar>, q: seq<Scalar>, isBytes: bool)
    requires AreQuotes(q) && !(q <= s) && CanStep(s, isBytes) && EscapedStep(s, isBytes).width <= |s|
    ensures Alone(s, q) <==> Alone(s[EscapedStep(s, isBytes).width..], q)
  {
    StepIsPlain(s, isBytes);
    assert s != [];
    hide *;
    AloneOne(s, q, if s[0] == BACKSLASH then 2 else 1);
    AlonePlain(s, q, if s[0] == BACKSLASH then 2 else 1, EscapedStep(s, isBytes).width);
  }

  lemma EscapedAsMeant(s: seq<Scalar>, t: seq<Scalar>, isBytes: bool)
    requires CanStep(s, isBytes) && t <= s && EscapedStep(s, isBytes).width <= |t|
    ensures var st := EscapedStep(s, isBytes); AsMeant(t, false, isBytes) <==> st.same && AsMeant(t[st.width..], false, isBytes)
  {
    hide Utf8Of;
  }

  lemma HighWeighs(b: byte)
    requires b >= 0x80
    ensures Outweighs([b], Utf8Of(b as int), false)
  {
    var v := Utf8Of(b as int);
    assert v == [0xC0 + b / 0x40, 0x80 + b % 0x40];
    var one: Bytes, two: Bytes := [b], [0x80 + b % 0x40];
    assert one[1..] == [] && v[1..] == two && two[1..] == [];
    assert Weighed(one) == Weight(b) && Weighed(two) == Weight(0x80 + b % 0x40);
    assert Weighed(v) == Weight(0xC0 + b / 0x40) + Weight(0x80 + b % 0x40);
  }

  lemma OctalWeighs(c: Scalar, d: Scalar)
    requires IsOctal(c) && IsOctal(d)
    ensures Outweighs([0, c as byte], [(c - 48) as byte], false)
    ensures Outweighs([0, c as byte, d as byte], [((c - 48) * 8 + d - 48) as byte], false)
  {
    var a: Bytes, e: Bytes, f: Bytes, g: Bytes, h: Bytes := [0, c as byte], [c as byte], [d as byte], [c as byte, d as byte], [0, c as byte, d as byte];
    var v: Bytes, w: Bytes := [(c - 48) as byte], [((c - 48) * 8 + d - 48) as byte];
    assert a[1..] == e && e[1..] == [] && f[1..] == [] && g[1..] == f && h[1..] == g && v[1..] == [] && w[1..] == [];
    assert Weighed(e) == 1 && Weighed(f) == 1;
    assert Weighed(a) == 3 && Weighed(g) == 2;
    assert Weighed(h) == 4 && Weighed(v) <= 2 && Weighed(w) <= 2;
  }

  lemma OctalStepWeighs(s: seq<Scalar>, isBytes: bool)
    requires CanStep(s, isBytes) && s[0] == BACKSLASH && s[1] == 48 && EscapedStep(s, isBytes).width <= |s|
    ensures var st := EscapedStep(s, isBytes); Outweighs(st.bytes, Shown(st.points, isBytes), st.same)
  {
    var st := EscapedStep(s, isBytes);
    OctalPoints(s, isBytes);
    var v := st.points[0];
    LowShown(v, v, isBytes);
    if st.width == 3 {
      OctalWeighs(s[2], s[2]);
    } else if st.width == 4 {
      OctalWeighs(s[2], s[3]);
    }
    hide Shown, Weighed, MeantBy, EscapeOf;
  }

  lemma OctalPoints(s: seq<Scalar>, isBytes: bool)
    requires |s| >= 2 && s[0] == BACKSLASH && s[1] == 48
    ensures MeantBy(s, isBytes).Some?
    ensures var m := MeantBy(s, isBytes).value;
            && 2 <= m.width <= 4 && m.width <= |s| && (m.width > 2 ==> IsOctal(s[2])) && (m.width > 3 ==> IsOctal(s[3]))
            && m.points == [if m.width == 2 then 0 else if m.width == 3 then s[2] - 48 else (s[2] - 48) * 8 + s[3] - 48]
  {
  }

  lemma KnownStepWeighs(s: seq<Scalar>, isBytes: bool)
    requires CanStep(s, isBytes) && s[0] == BACKSLASH && s[1] != 48
    ensures var st := EscapedStep(s, isBytes); Outweighs(st.bytes, Shown(st.points, isBytes), st.same)
  {
    EscapeMeans(s, isBytes);
    var b := EscapeOf(s).value.value;
    OneShown(b as int, isBytes);
    if !isBytes && b >= 0x80 {
      HighWeighs(b);
      assert EscapeOf(s).value.width == 4;
    }
    hide Shown, Weighed, MeantBy, EscapeOf, Utf8Of;
  }

  lemma EscapedStepWeighs(s: seq<Scalar>, isBytes: bool)
    requires CanStep(s, isBytes) && EscapedStep(s, isBytes).width <= |s|
    ensures var st := EscapedStep(s, isBytes); Outweighs(st.bytes, Shown(st.points, isBytes), st.same)
  {
    if s[0] == BACKSLASH {
      if s[1] == 48 {
        OctalStepWeighs(s, isBytes);
      } else {
        KnownStepWeighs(s, isBytes);
      }
    } else if s[0] == 13 {
      BreaksWeigh();
      LowShown(10, 10, isBytes);
    } else {
      OneShown(s[0], isBytes);
    }
    hide Shown, ShownOf, Utf8Of, Weighed, MeantBy, EscapeOf;
  }

  /** How the two readings of one literal that is not raw compare, closing quotes included. */
  lemma {:induction false} SingleEscaped(s: seq<Scalar>, q: seq<Scalar>, isBytes: bool)
    requires AreQuotes(q) && Alone(s, q) && Inside(s, q, false, isBytes).Some? && Unescaped(s).Some?
    ensures |s| >= |q|
    ensures Outweighs(Unescaped(s).value, Shown(Inside(s, q, false, isBytes).value, isBytes) + Shown(q, false), AsMeant(s[..|s| - |q|], false, isBytes))
    decreases |s|
  {
    hide *;
    if q <= s {
      Ends(s, q, false, isBytes);
      assert s == q && s[..|s| - |q|] == [];
      QuotesShown(q, isBytes);
    } else {
      CanEscape(s, q, isBytes);
      InsideStep(s, q, isBytes);
      UnescapedStep(s, isBytes);
      AloneStep(s, q, isBytes);
      EscapedStepWeighs(s, isBytes);
      var st := EscapedStep(s, isBytes);
      var rest := s[st.width..];
      BeforeIs(st.bytes, Unescaped(rest));
      SingleEscaped(rest, q, isBytes);
      var t, m, v := s[..|s| - |q|], |rest| - |q|, Inside(rest, q, false, isBytes).value;
      assert t[st.width..] == rest[..m] && t <= s;
      EscapedAsMeant(s, t, isBytes);
      ThenIs(st.points, Inside(rest, q, false, isBytes));
      ShownConcat(st.points, v, isBytes);
      OutweighsBoth(st.bytes, Shown(st.points, isBytes), st.same, Unescaped(rest).value, Shown(v, isBytes) + Shown(q, false), AsMeant(rest[..m], false, isBytes));
      assert Shown(st.points, isBytes) + (Shown(v, isBytes) + Shown(q, false)) == Shown(st.points, isBytes) + Shown(v, isBytes) + Shown(q, false);
    }
  }

  lemma BeforeIs(b: Bytes, rest: Option<Bytes>)
    ensures rest.Some? ==> Before(b, rest) == Some(b + rest.value)
    ensures rest.None? ==> Before(b, rest) == None
  {
  }

  lemma QuotesShown(q: seq<Scalar>, isBytes: bool)
    requires AreQuotes(q)
    ensures Unescaped(q) == Some(Shown(q, false)) && Outweighs(Shown(q, false), Shown([], isBytes) + Shown(q, false), AsMeant([], false, isBytes))
    ensures Shown(q, false) == if |q| == 1 then [q[0] as byte] else [q[0] as byte, q[0] as byte, q[0] as byte]
  {
    var c := q[0];
    OneShown(c, false);
    LowShown(c, c, false);
    assert Utf8Of(c) == [c as byte];
    hide ShownOf, Utf8Of;
    assert [c][1..] == [] && [c, c][1..] == [c] && Thrice(c)[1..] == [c, c];
    assert Unescaped([c]) == Some([c as byte] + []);
    assert Unescaped([c, c]) == Some([c as byte] + [c as byte]);
    assert Unescaped(Thrice(c)) == Some([c as byte] + [c as byte, c as byte]);
    assert Shown(Thrice(c), false) == [c as byte] + [c as byte, c as byte];
    assert [] + Shown(q, false) == Shown(q, false);
  }

  // ---- several literals side by side, the first not raw ----

  /** How many quotes and zeros there are: what is read of several literals as one has more. */
  function Marks(b: Bytes): nat {
    if b == [] then 0 else (if b[0] == 0 || b[0] == 34 || b[0] == 39 then 1 else 0) + Marks(b[1..])
  }

  lemma {:induction false} MarksConcat(a: Bytes, b: Bytes)
    ensures Marks(a + b) == Marks(a) + Marks(b)
  {
    if a == [] {
      assert a + b == b;
    } else {
      assert (a + b)[1..] == a[1..] + b;
      MarksConcat(a[1..], b);
    }
  }

  lemma {:induction false} NoMarks(b: Bytes)
    requires forall k :: 0 <= k < |b| ==> b[k] != 0 && b[k] != 34 && b[k] != 39
    ensures Marks(b) == 0
  {
    if b != [] {
      NoMarks(b[1..]);
    }
  }

  lemma MarksOf(c: Scalar)
    ensures Marks(Utf8Of(c)) == if c == 0 || c == 34 || c == 39 then 1 else 0
  {
    var b := Utf8Of(c);
    if c == 0 || c == 34 || c == 39 {
      assert b == [c as byte] && b[1..] == [];
    } else {
      NoMarks(b);
    }
  }

  lemma {:induction false} PlainRun(s: seq<Scalar>, n: nat)
    requires n <= |s| && forall k :: 0 <= k < n ==> s[k] != BACKSLASH
    ensures Unescaped(s) == Before(Shown(s[..n], false), Unescaped(s[n..]))
  {
    if n == 0 {
      assert s[0..] == s && s[..0] == [];
      BeforeNothing(Unescaped(s));
    } else {
      PlainUnescaped(s);
      PlainRun(s[1..], n - 1);
      assert s[1..][..n - 1] == s[..n][1..] && s[1..][n - 1..] == s[n..] && s[..n][0] == s[0];
      OneShown(s[0], false);
      BeforeBoth(Utf8Of(s[0]), Shown(s[1..][..n - 1], false), Unescaped(s[n..]));
    }
  }

  lemma QuotesMarked(q: seq<Scalar>)
    requires AreQuotes(q)
    ensures Marks(Shown(q, false)) == |q| && |Shown(q, false)| == |q|
  {
    QuotesShown(q, false);
    var c := q[0] as byte;
    assert [c][1..] == [] && [c, c][1..] == [c] && [c, c, c][1..] == [c, c];
    assert Marks([c]) == 1 && Marks([c, c]) == 2 && Marks([c, c, c]) == 3;
  }

  /** What the folder's reader makes of the next few characters has the marks of what Python does. */
  lemma EscapedStepMarks(s: seq<Scalar>, isBytes: bool)
    requires CanStep(s, isBytes) && EscapedStep(s, isBytes).width <= |s|
    ensures var st := EscapedStep(s, isBytes); Marks(st.bytes) >= Marks(Shown(st.points, isBytes))
  {
    var st := EscapedStep(s, isBytes);
    if s[0] == BACKSLASH {
      if s[1] == 48 {
        var v := st.points[0];
        LowShown(v, v, isBytes);
        hide MeantBy, EscapeOf;
        var one: Bytes := [v as byte];
        assert one[1..] == [] && st.bytes[0] == 0;
      } else {
        EscapeMeans(s, isBytes);
        var b := EscapeOf(s).value.value;
        OneShown(b as int, isBytes);
        MarksOf(b as int);
        var one: Bytes := [b];
        assert one[1..] == [];
      }
    } else if s[0] == 13 {
      LowShown(10, 10, isBytes);
      var one: Bytes := [10];
      assert one[1..] == [];
    } else {
      OneShown(s[0], isBytes);
    }
  }

  /** In a raw literal, read by the folder as if it were not. */
  ghost function MixedStep(s: seq<Scalar>): Both
    requires s != [] && (s[0] == BACKSLASH ==> EscapeOf(s).Some?)
  {
    if s[0] == BACKSLASH then Both(EscapeOf(s).value.width, [EscapeOf(s).value.value], s[..EscapeOf(s).value.width], true)
    else if s[0] == 13 then Both(LineBreak(s, 0), if LineBreak(s, 0) == 2 then [13, 10] else [13], [10], true)
    else Both(1, Utf8Of(s[0]), [s[0]], true)
  }

  lemma RawPair(s: seq<Scalar>, q: seq<Scalar>, isBytes: bool)
    requires AreQuotes(q) && |s| >= 2 && s[0] == BACKSLASH && Inside(s, q, true, isBytes).Some? && s[1] != 13
    ensures Inside(s[2..], q, true, isBytes).Some? && Inside(s, q, true, isBytes) == Then([BACKSLASH, s[1]], Inside(s[2..], q, true, isBytes))
    ensures Alone(s, q) <==> Alone(s[2..], q)
  {
    hide More;
  }

  lemma RawChar(s: seq<Scalar>, q: seq<Scalar>, isBytes: bool)
    requires AreQuotes(q) && s != [] && 48 <= s[0] < 128 && s[0] != BACKSLASH && Inside(s, q, true, isBytes).Some?
    ensures Inside(s[1..], q, true, isBytes).Some? && Inside(s, q, true, isBytes) == Then([s[0]], Inside(s[1..], q, true, isBytes))
    ensures Alone(s, q) <==> Alone(s[1..], q)
  {
    hide More;
  }

  lemma ThenBoth(a: seq<Scalar>, b: seq<Scalar>, rest: Option<seq<Scalar>>)
    ensures Then(a, Then(b, rest)) == Then(a + b, rest)
  {
    if rest.Some? {
      assert a + (b + rest.value) == a + b + rest.value;
    }
  }

  lemma KnownEscape(s: seq<Scalar>)
    requires |s| >= 1 && s[0] == BACKSLASH && EscapeOf(s).Some?
    ensures var e := EscapeOf(s).value;
            && 2 <= e.width <= |s| && s[1] != 13 && 0 < s[1] < 0x80 && (e.width == 2 || e.width == 4)
            && (e.width == 4 ==> (forall k :: 2 <= k < 4 ==> 48 <= s[k] < 128 && s[k] != BACKSLASH) && s[1] == 120)
            && (s[1] == 34 || s[1] == 39 ==> e.value as int == s[1] && e.width == 2)
  {
  }

  lemma MixedEscape(s: seq<Scalar>, q: seq<Scalar>, isBytes: bool)
    requires AreQuotes(q) && s != [] && s[0] == BACKSLASH && EscapeOf(s).Some? && Inside(s, q, true, isBytes).Some?
    ensures var n := EscapeOf(s).value.width;
            && Inside(s[n..], q, true, isBytes).Some? && Inside(s, q, true, isBytes) == Then(s[..n], Inside(s[n..], q, true, isBytes))
            && (Alone(s, q) <==> Alone(s[n..], q))
  {
    var n := EscapeOf(s).value.width;
    KnownEscape(s);
    RawPair(s, q, isBytes);
    hide Inside, Alone, AreQuotes, EscapeOf, Then;
    assert s[..2] == [BACKSLASH, s[1]];
    if n == 4 {
      assert s[2..][1..] == s[3..] && s[3..][1..] == s[4..] && s[2..][0] == s[2] && s[3..][0] == s[3];
      RawChar(s[2..], q, isBytes);
      RawChar(s[3..], q, isBytes);
      ThenBoth([s[2]], [s[3]], Inside(s[4..], q, true, isBytes));
      ThenBoth(s[..2], [s[2]] + [s[3]], Inside(s[4..], q, true, isBytes));
      assert s[..2] + ([s[2]] + [s[3]]) == s[..4];
    }
  }

  lemma MixedStepIs(s: seq<Scalar>, q: seq<Scalar>, isBytes: bool)
    requires AreQuotes(q) && !(q <= s) && Inside(s, q, true, isBytes).Some? && Unescaped(s).Some?
    ensures s != [] && (s[0] == BACKSLASH ==> EscapeOf(s).Some?) && (isBytes ==> s[0] < 0x80)
    ensures var st := MixedStep(s);
            && 0 < st.width <= |s| && Inside(s[st.width..], q, true, isBytes).Some?
            && Inside(s, q, true, isBytes) == Then(st.points, Inside(s[st.width..], q, true, isBytes))
            && (Alone(s, q) <==> Alone(s[st.width..], q))
            && Unescaped(s) == Before(st.bytes, Unescaped(s[st.width..]))
  {
    hide More, Utf8Of;
    if s[0] == BACKSLASH {
      MixedEscape(s, q, isBytes);
    } else {
      RawStepIs(s, q, isBytes);
      PlainUnescaped(s);
      if s[0] == 13 && LineBreak(s, 0) == 2 {
        BreakUnescaped(s);
      }
    }
    hide EscapeOf, Before, Then;
  }

  lemma LowMarks(c: byte, d: byte)
    ensures Marks([c]) == (if c == 0 || c == 34 || c == 39 then 1 else 0) && Marks([c, d]) == Marks([c]) + Marks([d])
  {
    var one: Bytes, two: Bytes, end: Bytes := [c], [c, d], [d];
    assert one[1..] == [] && two[1..] == end && end[1..] == [];
  }

  lemma EscapeMarks(s: seq<Scalar>, isBytes: bool)
    requires s != [] && s[0] == BACKSLASH && EscapeOf(s).Some?
    ensures var e := EscapeOf(s).value; Marks([e.value]) >= Marks(Shown(s[..e.width], isBytes))
  {
    var e := EscapeOf(s).value;
    KnownEscape(s);
    LowMarks(e.value, 0);
    LowMarks(92, s[1] as byte);
    LowMarks(s[1] as byte, 0);
    LowShown(BACKSLASH, s[1], isBytes);
    assert s[..2] == [BACKSLASH, s[1]];
    if e.width == 4 {
      LowShown(s[2], s[3], isBytes);
      LowMarks(s[2] as byte, s[3] as byte);
      LowMarks(s[3] as byte, 0);
      ShownConcat(s[..2], [s[2], s[3]], isBytes);
      assert s[..4] == s[..2] + [s[2], s[3]];
      MarksConcat(Shown(s[..2], isBytes), Shown([s[2], s[3]], isBytes));
    }
    hide EscapeOf, Marks, Shown;
  }

  lemma MixedStepMarks(s: seq<Scalar>, isBytes: bool)
    requires s != [] && (s[0] == BACKSLASH ==> EscapeOf(s).Some?) && (isBytes ==> s[0] < 0x80)
    ensures var st := MixedStep(s); Marks(st.bytes) >= Marks(Shown(st.points, isBytes))
  {
    if s[0] == BACKSLASH {
      EscapeMarks(s, isBytes);
    } else if s[0] == 13 {
      LowShown(10, 10, isBytes);
      var one: Bytes := [10];
      assert one[1..] == [];
    } else {
      OneShown(s[0], isBytes);
    }
    hide Utf8Of, EscapeOf, Shown;
  }

  ghost predicate HasMarks(d: Bytes, v: Bytes, more: nat) {
    Marks(d) >= Marks(v) + more
  }

  lemma HasMarksBoth(d0: Bytes, d: Bytes, v0: seq<Scalar>, v: seq<Scalar>, isBytes: bool, more: nat, more': nat)
    requires HasMarks(d0, Shown(v0, isBytes), more) && HasMarks(d, Shown(v, isBytes), more')
    ensures HasMarks(d0 + d, Shown(v0 + v, isBytes), more + more')
  {
    ShownConcat(v0, v, isBytes);
    MarksConcat(d0, d);
    MarksConcat(Shown(v0, isBytes), Shown(v, isBytes));
  }

  lemma {:induction false} InsideMarks(s: seq<Scalar>, q: seq<Scalar>, isRaw: bool, isBytes: bool)
    requires AreQuotes(q) && Inside(s, q, isRaw, isBytes).Some? && Unescaped(s).Some?
    ensures HasMarks(Unescaped(s).value, Shown(Inside(s, q, isRaw, isBytes).value, isBytes), |q| + if Alone(s, q) then 0 else 2)
    decreases |s|
  {
    hide *;
    if q <= s {
      InsideEnds(s, q, isRaw, isBytes);
      BeforeIs(Shown(q, false), Unescaped(s[|q|..]));
      QuotesHaveMarks(q, isBytes);
      if s != q {
        MoreMarks(s[|q|..], isBytes);
        var v := More(s[|q|..], isBytes).value;
        HasMarksBoth(Shown(q, false), Unescaped(s[|q|..]).value, [], v, isBytes, |q|, 2);
        assert [] + v == v;
      } else {
        assert s[|q|..] == [];
        assert Shown(q, false) + [] == Shown(q, false);
      }
    } else {
      ghost var st;
      if isRaw {
        MixedStepIs(s, q, isBytes);
        MixedStepMarks(s, isBytes);
        st := MixedStep(s);
      } else {
        CanEscape(s, q, isBytes);
        InsideStep(s, q, isBytes);
        UnescapedStep(s, isBytes);
        AloneStep(s, q, isBytes);
        EscapedStepMarks(s, isBytes);
        st := EscapedStep(s, isBytes);
      }
      var rest := s[st.width..];
      BeforeIs(st.bytes, Unescaped(rest));
      ThenIs(st.points, Inside(rest, q, isRaw, isBytes));
      InsideMarks(rest, q, isRaw, isBytes);
      MarksAre(st.bytes, Shown(st.points, isBytes));
      HasMarksBoth(st.bytes, Unescaped(rest).value, st.points, Inside(rest, q, isRaw, isBytes).value, isBytes, 0, |q| + if Alone(rest, q) then 0 else 2);
    }
  }

  lemma MarksAre(d: Bytes, v: Bytes)
    ensures Marks(d) >= Marks(v) ==> HasMarks(d, v, 0)
  {
  }

  lemma QuotesHaveMarks(q: seq<Scalar>, isBytes: bool)
    requires AreQuotes(q)
    ensures HasMarks(Shown(q, false), Shown([], isBytes), |q|)
  {
    QuotesMarked(q);
  }

  lemma InsideEnds(s: seq<Scalar>, q: seq<Scalar>, isRaw: bool, isBytes: bool)
    requires AreQuotes(q) && q <= s
    ensures Unescaped(s) == Before(Shown(q, false), Unescaped(s[|q|..])) && Unescaped([]) == Some([])
    ensures Inside(s, q, isRaw, isBytes) == if s == q then Some([]) else More(s[|q|..], isBytes)
    ensures (Alone(s, q) <==> s == q) && |q| >= 1
  {
    PlainRun(s, |q|);
    assert s[..|q|] == q;
  }

  lemma {:induction false} MoreMarks(s: seq<Scalar>, isBytes: bool)
    requires More(s, isBytes).Some? && Unescaped(s).Some?
    ensures HasMarks(Unescaped(s).value, Shown(More(s, isBytes).value, isBytes), 2)
    decreases |s|
  {
    MoreIs(s, isBytes);
    hide *;
    if IsGap(s[0]) {
      PlainRun(s, 1);
      BeforeIs(Shown(s[..1], false), Unescaped(s[1..]));
      MoreMarks(s[1..], isBytes);
      MoreMarksAfter(Shown(s[..1], false), Unescaped(s[1..]).value, Shown(More(s, isBytes).value, isBytes), 2);
    } else if s[0] == 35 {
      AfterLineMarks(s);
      MoreMarks(AfterLine(s), isBytes);
      MoreMarksIn(Unescaped(s).value, Unescaped(AfterLine(s)).value, Shown(More(s, isBytes).value, isBytes), 2);
    } else {
      var o := OpeningOf(s).value;
      var n, rest := o.prefix + |o.quotes|, s[o.prefix + |o.quotes|..];
      OpeningIs(s);
      PlainRun(s, n);
      BeforeIs(Shown(s[..n], false), Unescaped(rest));
      InsideMarks(rest, o.quotes, o.isRaw, isBytes);
      OpeningMarks(s, o.prefix, o.quotes);
      HasMarksIs(Unescaped(rest).value, Shown(More(s, isBytes).value, isBytes), |o.quotes| + if Alone(rest, o.quotes) then 0 else 2);
      MarksConcat(Shown(s[..n], false), Unescaped(rest).value);
      MarksAre2(Unescaped(s).value, Shown(More(s, isBytes).value, isBytes));
    }
  }

  lemma OpeningMarks(s: seq<Scalar>, prefix: nat, q: seq<Scalar>)
    requires AreQuotes(q) && prefix + |q| <= |s| && s[prefix..prefix + |q|] == q
    ensures Marks(Shown(s[..prefix + |q|], false)) >= |q|
  {
    assert s[..prefix + |q|] == s[..prefix] + q;
    ShownConcat(s[..prefix], q, false);
    QuotesMarked(q);
    MarksConcat(Shown(s[..prefix], false), Shown(q, false));
    hide *;
  }

  predicate IsGap(c: Scalar) {
    c in [32, 9, 12, 10, 13]
  }

  /** What comes before further literals. */
  lemma MoreIs(s: seq<Scalar>, isBytes: bool)
    requires More(s, isBytes).Some? && Unescaped(s).Some?
    ensures s != [] && s[0] != BACKSLASH
    ensures IsGap(s[0]) ==> More(s, isBytes) == More(s[1..], isBytes)
    ensures s[0] == 35 ==> More(s, isBytes) == More(AfterLine(s), isBytes) && |AfterLine(s)| < |s|
    ensures !IsGap(s[0]) && s[0] != 35 ==>
      var o := OpeningOf(s);
      && o.Some? && AreQuotes(o.value.quotes) && |o.value.quotes| >= 1 && o.value.prefix + |o.value.quotes| <= |s|
      && More(s, isBytes) == Inside(s[o.value.prefix + |o.value.quotes|..], o.value.quotes, o.value.isRaw, isBytes)
  {
    hide Inside;
    if s[0] == 35 {
      assert AfterLine(s) == AfterLine(s[1..]);
    }
  }

  lemma MoreMarksAfter(a: Bytes, d: Bytes, v: Bytes, more: nat)
    requires HasMarks(d, v, more)
    ensures HasMarks(a + d, v, more)
  {
    MarksConcat(a, d);
  }

  lemma MoreMarksIn(d: Bytes, d': Bytes, v: Bytes, more: nat)
    requires Marks(d) >= Marks(d') && HasMarks(d', v, more)
    ensures HasMarks(d, v, more)
  {
  }

  lemma MarksAre2(d: Bytes, v: Bytes)
    requires Marks(d) >= Marks(v) + 2
    ensures HasMarks(d, v, 2)
  {
  }

  lemma OpeningIs(s: seq<Scalar>)
    requires OpeningOf(s).Some?
    ensures var o := OpeningOf(s).value;
            && AreQuotes(o.quotes) && o.prefix + |o.quotes| <= |s| && s[o.prefix..o.prefix + |o.quotes|] == o.quotes
            && forall k :: 0 <= k < o.prefix + |o.quotes| ==> s[k] != BACKSLASH
  {
  }

  lemma {:induction false} AfterLineMarks(s: seq<Scalar>)
    requires Unescaped(s).Some?
    ensures Unescaped(AfterLine(s)).Some? && Marks(Unescaped(s).value) >= Marks(Unescaped(AfterLine(s)).value)
    decreases |s|
  {
    if s != [] && !IsBreak(s[0]) {
      if s[0] == BACKSLASH {
        var e := EscapeOf(s).value;
        AfterLineMarks(s[e.width..]);
        SameLine(s, e.width);
        MarksConcat([e.value], Unescaped(s[e.width..]).value);
      } else {
        PlainUnescaped(s);
        AfterLineMarks(s[1..]);
        MarksConcat(Utf8Of(s[0]), Unescaped(s[1..]).value);
      }
    }
    hide Utf8Of, Marks;
  }

  lemma {:induction false} SameLine(s: seq<Scalar>, n: nat)
    requires n <= |s| && forall k :: 0 <= k < n ==> !IsBreak(s[k])
    ensures AfterLine(s) == AfterLine(s[n..])
  {
    if n == 0 {
      assert s[0..] == s;
    } else {
      assert s[1..][n - 1..] == s[n..];
      SameLine(s[1..], n - 1);
    }
  }

  // ---- several literals side by side, the first raw ----

  lemma {:induction false} ShownLength(s: seq<Scalar>)
    ensures |Shown(s, false)| >= |s|
  {
    hide ShownOf;
    if s != [] {
      ShownLength(s[1..]);
      assert |ShownOf(s[0], false)| >= 1 by { OneShown(s[0], false); }
    }
  }

  /** What an escape stands for is no longer than the escape. */
  lemma MeantIsShort(s: seq<Scalar>, isBytes: bool)
    requires s != [] && s[0] == BACKSLASH && MeantBy(s, isBytes).Some? && MeantBy(s, isBytes).value.width <= |s|
    ensures var m := MeantBy(s, isBytes).value; |Shown(m.points, isBytes)| <= |Shown(s[..m.width], false)|
  {
    var m := MeantBy(s, isBytes).value;
    ShownLength(s[..m.width]);
    if |m.points| == 1 {
      OneShown(m.points[0], isBytes);
      PointIsShort(s, isBytes);
    } else if |m.points| == 2 {
      assert s[..2] == m.points;
      TwoShown(BACKSLASH, s[1], isBytes);
      TwoShown(BACKSLASH, s[1], false);
      OneShown(s[1], isBytes);
      OneShown(s[1], false);
    }
    hide Shown, ShownOf, Utf8Of, HexNumber;
  }

  lemma PointIsShort(s: seq<Scalar>, isBytes: bool)
    requires s != [] && s[0] == BACKSLASH && MeantBy(s, isBytes).Some? && |MeantBy(s, isBytes).value.points| == 1
    ensures var m := MeantBy(s, isBytes).value; |ShownOf(m.points[0], isBytes)| <= m.width
  {
    var m := MeantBy(s, isBytes).value;
    if s[1] == 120 && m.width == 4 {
      assert |Utf8Of(m.points[0])| <= 4;
    }
    hide HexNumber;
  }

  lemma RawStepLength(s: seq<Scalar>, isBytes: bool)
    requires s != [] && (s[0] == BACKSLASH ==> |s| >= 2) && RawStep(s).width <= |s|
    requires isBytes ==> s[0] < 0x80 && (s[0] == BACKSLASH ==> s[1] < 0x80)
    ensures var st := RawStep(s); |Shown(st.points, isBytes)| <= |Shown(s[..st.width], false)|
  {
    var st := RawStep(s);
    RawStepWeighs(s, isBytes);
    ShownLength(s[..st.width]);
    LowShown(10, 10, isBytes);
    LowShown(BACKSLASH, 10, isBytes);
    hide Shown;
  }

  /** In a literal that is not raw, what Python reads next; a line break counts as a line feed. */
  ghost function MeantStep(s: seq<Scalar>, isBytes: bool): Meant
    requires s != [] && (s[0] == BACKSLASH ==> MeantBy(s, isBytes).Some?)
  {
    if s[0] == BACKSLASH then MeantBy(s, isBytes).value
    else if s[0] == 13 then Meant([10], LineBreak(s, 0)) else Meant([s[0]], 1)
  }

  lemma MeantStepIs(s: seq<Scalar>, q: seq<Scalar>, isBytes: bool)
    requires AreQuotes(q) && !(q <= s) && Inside(s, q, false, isBytes).Some?
    ensures s != [] && (s[0] == BACKSLASH ==> MeantBy(s, isBytes).Some?) && (isBytes ==> s[0] < 0x80)
    ensures var st := MeantStep(s, isBytes);
            && 0 < st.width <= |s| && Inside(s[st.width..], q, false, isBytes).Some?
            && Inside(s, q, false, isBytes) == Then(st.points, Inside(s[st.width..], q, false, isBytes))
  {
    hide More;
  }

  lemma {:induction false} HexPlain(s: seq<Scalar>, n: nat)
    requires n <= 8 && HexNumber(s, n).Some?
    ensures 2 + n <= |s| || n == 0
    ensures forall k :: 2 <= k < 2 + n ==> s[k] != BACKSLASH && s[k] != SINGLE && s[k] != DOUBLE
  {
    if n > 0 {
      HexPlain(s, n - 1);
    }
  }

  lemma MeantIsPlain(s: seq<Scalar>, isBytes: bool)
    requires s != [] && s[0] == BACKSLASH && MeantBy(s, isBytes).Some? && MeantBy(s, isBytes).value.width <= |s|
    ensures forall k :: 2 <= k < MeantBy(s, isBytes).value.width ==> s[k] != BACKSLASH && s[k] != SINGLE && s[k] != DOUBLE
  {
    if |s| >= 2 && s[1] == 120 && HexNumber(s, 2).Some? {
      HexPlain(s, 2);
    } else if |s| >= 2 && s[1] == 117 && HexNumber(s, 4).Some? {
      HexPlain(s, 4);
    } else if |s| >= 2 && s[1] == 85 && HexNumber(s, 8).Some? {
      HexPlain(s, 8);
    }
    hide HexNumber;
  }

  lemma MeantStepAlone(s: seq<Scalar>, q: seq<Scalar>, isBytes: bool)
    requires AreQuotes(q) && !(q <= s) && s != [] && (s[0] == BACKSLASH ==> MeantBy(s, isBytes).Some?) && MeantStep(s, isBytes).width <= |s|
    ensures 0 < MeantStep(s, isBytes).width && (Alone(s, q) <==> Alone(s[MeantStep(s, isBytes).width..], q))
  {
    MeantStepPlain(s, isBytes);
    hide *;
    AloneOne(s, q, if s[0] == BACKSLASH then 2 else 1);
    AlonePlain(s, q, if s[0] == BACKSLASH then 2 else 1, MeantStep(s, isBytes).width);
  }

  lemma MeantStepPlain(s: seq<Scalar>, isBytes: bool)
    requires s != [] && (s[0] == BACKSLASH ==> MeantBy(s, isBytes).Some?) && MeantStep(s, isBytes).width <= |s|
    ensures (if s[0] == BACKSLASH then 2 else 1) <= MeantStep(s, isBytes).width
    ensures forall k :: (if s[0] == BACKSLASH then 2 else 1) <= k < MeantStep(s, isBytes).width ==> s[k] != BACKSLASH && s[k] != SINGLE && s[k] != DOUBLE
  {
    if s[0] == BACKSLASH {
      MeantIsPlain(s, isBytes);
    }
    hide MeantBy;
  }

  lemma {:induction false} InsideLength(s: seq<Scalar>, q: seq<Scalar>, isRaw: bool, isBytes: bool)
    requires AreQuotes(q) && Inside(s, q, isRaw, isBytes).Some?
    ensures |Shown(s, false)| >= |Shown(Inside(s, q, isRaw, isBytes).value, isBytes)| + |q| + if Alone(s, q) then 0 else 2
    decreases |s|
  {
    hide *;
    if q <= s {
      InsideEnds(s, q, isRaw, isBytes);
      assert s == q + s[|q|..];
      ShownConcat(q, s[|q|..], false);
      QuotesMarked(q);
      NothingShown(isBytes);
      if s != q {
        MoreLength(s[|q|..], isBytes);
      }
    } else {
      ghost var st: Meant;
      if isRaw {
        RawStepIs(s, q, isBytes);
        RawStepAscii(s, q, isBytes);
        RawStepLength(s, isBytes);
        st := Meant(RawStep(s).points, RawStep(s).width);
      } else {
        MeantStepIs(s, q, isBytes);
        MeantStepAlone(s, q, isBytes);
        MeantStepLength(s, isBytes);
        st := MeantStep(s, isBytes);
      }
      var rest := s[st.width..];
      var v := Inside(rest, q, isRaw, isBytes);
      ThenIs(st.points, v);
      InsideLength(rest, q, isRaw, isBytes);
      assert s == s[..st.width] + rest;
      ShownConcat(s[..st.width], rest, false);
      ShownConcat(st.points, v.value, isBytes);
    }
  }

  lemma NothingShown(isBytes: bool)
    ensures Shown([], isBytes) == []
  {
  }

  lemma MeantStepLength(s: seq<Scalar>, isBytes: bool)
    requires s != [] && (s[0] == BACKSLASH ==> MeantBy(s, isBytes).Some?) && (isBytes ==> s[0] < 0x80) && MeantStep(s, isBytes).width <= |s|
    ensures var st := MeantStep(s, isBytes); |Shown(st.points, isBytes)| <= |Shown(s[..st.width], false)|
  {
    var st := MeantStep(s, isBytes);
    if s[0] == BACKSLASH {
      MeantIsShort(s, isBytes);
    } else if s[0] == 13 {
      ShownLength(s[..st.width]);
      LowShown(10, 10, isBytes);
    } else {
      assert s[..1] == [s[0]];
      OneShown(s[0], isBytes);
      OneShown(s[0], false);
    }
    hide Shown, ShownOf, MeantBy;
  }

  lemma {:induction false} MoreLength(s: seq<Scalar>, isBytes: bool)
    requires More(s, isBytes).Some?
    ensures |Shown(s, false)| >= |Shown(More(s, isBytes).value, isBytes)| + 2
    decreases |s|
  {
    if s[0] in [32, 9, 12, 10, 13] {
      ShownRest(s, 1);
      MoreLength(s[1..], isBytes);
    } else if s[0] == 35 {
      AfterLineShown(s);
      MoreLength(AfterLine(s), isBytes);
    } else if s[0] == BACKSLASH {
      ShownRest(s, 2);
      MoreLength(s[2..], isBytes);
    } else {
      var o := OpeningOf(s).value;
      OpeningIs(s);
      ShownRest(s, o.prefix + |o.quotes|);
      hide OpeningOf;
      InsideLength(s[o.prefix + |o.quotes|..], o.quotes, o.isRaw, isBytes);
    }
    hide Inside, Shown;
  }

  lemma ShownRest(s: seq<Scalar>, n: nat)
    requires n <= |s|
    ensures |Shown(s, false)| >= |Shown(s[n..], false)| + n
  {
    assert s == s[..n] + s[n..];
    ShownConcat(s[..n], s[n..], false);
    ShownLength(s[..n]);
    hide Shown;
  }

  lemma {:induction false} AfterLineShown(s: seq<Scalar>)
    ensures |Shown(s, false)| >= |Shown(AfterLine(s), false)|
  {
    if s != [] && !IsBreak(s[0]) {
      AfterLineShown(s[1..]);
      ShownRest(s, 1);
    }
    hide Shown;
  }

  // ---- the theorem ----

  lemma StripIs(body: seq<Scalar>, q: seq<Scalar>)
    requires Strip(body, q).Some?
    ensures body == q + Strip(body, q).value + q
  {
  }

  lemma InnerIs(body: seq<Scalar>, c: Scalar)
    requires body != [] && body[0] == c && (c == SINGLE || c == DOUBLE)
    ensures Inner(body) == if Strip(body, Thrice(c)).Some? then Strip(body, Thrice(c)) else Strip(body, [c])
  {
    assert body[..1] == [c];
    if |body| >= 3 {
      assert body[..3][0] == c;
    }
  }

  /** The quotes stripped off and what was between them are the quotes seen and what comes after. */
  ghost predicate SameSource(q': seq<Scalar>, t: seq<Scalar>, q: seq<Scalar>, s: seq<Scalar>) {
    && AreQuotes(q) && AreQuotes(q') && (q' == q || (|q| == 3 && |q'| == 1))
    && q' + t + q' == q + s && (Alone(s, q) ==> q' == q)
  }

  lemma TripleStripped(body: seq<Scalar>, c: Scalar)
    requires Strip(body, Thrice(c)).Some?
    ensures |body| >= 3 && body[1] == c && body[2] == c
  {
    assert body[..3] == Thrice(c);
    assert body[1] == body[..3][1] && body[2] == body[..3][2];
  }

  lemma TripleStrips(body: seq<Scalar>, c: Scalar)
    requires (c == SINGLE || c == DOUBLE) && |body| >= 3 && body[..3] == Thrice(c) && Alone(body[3..], Thrice(c))
    ensures Strip(body, Thrice(c)).Some?
  {
    AloneEnds(body[3..], Thrice(c));
    assert body[3..][|body| - 6..] == body[|body| - 3..];
    hide Alone;
  }

  lemma StripBody(body: seq<Scalar>, q: seq<Scalar>) returns (q': seq<Scalar>)
    requires body != [] && (body[0] == SINGLE || body[0] == DOUBLE) && |body| >= |q| && body[..|q|] == q
    requires q == [body[0]] || q == Thrice(body[0])
    requires |body| >= 3 && body[1] == body[0] && body[2] == body[0] ==> q == Thrice(body[0])
    requires Inner(body).Some?
    ensures SameSource(q', Inner(body).value, q, body[|q|..])
  {
    var c := body[0];
    q' := if Strip(body, Thrice(c)).Some? then Thrice(c) else [c];
    InnerIs(body, c);
    StripIs(body, q');
    if q' == Thrice(c) {
      TripleStripped(body, c);
    }
    if q == Thrice(c) && Alone(body[3..], q) {
      TripleStrips(body, c);
    }
    assert body == q + body[|q|..];
    hide Inner, Strip, Alone;
  }

  /** What the folder strips off are the quotes Python sees, or one of three on either side. */
  lemma StrippedQuotes(source: seq<Scalar>) returns (q': seq<Scalar>)
    requires OpeningOf(source).Some? && Inner(source[OpeningOf(source).value.prefix..]).Some?
    ensures var o := OpeningOf(source).value; SameSource(q', Inner(source[o.prefix..]).value, o.quotes, source[o.prefix + |o.quotes|..])
  {
    var o := OpeningOf(source).value;
    OpenQuotes(source);
    hide OpeningOf, SameSource, Inner;
    assert source[o.prefix..][|o.quotes|..] == source[o.prefix + |o.quotes|..];
    q' := StripBody(source[o.prefix..], o.quotes);
  }

  lemma OpenQuotes(source: seq<Scalar>)
    requires OpeningOf(source).Some?
    ensures var o := OpeningOf(source).value; var body := source[o.prefix..];
            && body != [] && (body[0] == SINGLE || body[0] == DOUBLE) && |body| >= |o.quotes| && body[..|o.quotes|] == o.quotes
            && (o.quotes == [body[0]] || o.quotes == Thrice(body[0]))
            && (|body| >= 3 && body[1] == body[0] && body[2] == body[0] ==> o.quotes == Thrice(body[0]))
  {
    var o := OpeningOf(source).value;
    var k := o.prefix;
    assert source[k..][0] == source[k] && (|source| >= k + 3 ==> source[k..][1] == source[k + 1] && source[k..][2] == source[k + 2]);
  }

  lemma {:induction false} AloneEnds(s: seq<Scalar>, q: seq<Scalar>)
    requires AreQuotes(q) && Alone(s, q)
    ensures |s| >= |q| && s[|s| - |q|..] == q
    decreases |s|
  {
    if !(q <= s) {
      var n := if s[0] == BACKSLASH then 2 else 1;
      AloneEnds(s[n..], q);
      assert s[n..][|s| - n - |q|..] == s[|s| - |q|..];
    }
  }

  lemma {:induction false} UnescapedConcat(a: seq<Scalar>, b: seq<Scalar>)
    requires Unescaped(a).Some?
    ensures Unescaped(a + b) == Before(Unescaped(a).value, Unescaped(b))
    decreases |a|
  {
    if a == [] {
      assert a + b == b;
      BeforeNothing(Unescaped(b));
    } else if a[0] != BACKSLASH {
      assert (a + b)[1..] == a[1..] + b;
      PlainUnescaped(a);
      PlainUnescaped(a + b);
      UnescapedConcat(a[1..], b);
      BeforeBoth(Utf8Of(a[0]), Unescaped(a[1..]).value, Unescaped(b));
    } else {
      var e := EscapeOf(a).value;
      assert EscapeOf(a + b) == Some(e);
      assert (a + b)[e.width..] == a[e.width..] + b;
      UnescapedConcat(a[e.width..], b);
      BeforeBoth([e.value], Unescaped(a[e.width..]).value, Unescaped(b));
    }
    hide Utf8Of, EscapeOf;
  }

  lemma AloneSource(q': seq<Scalar>, t: seq<Scalar>, q: seq<Scalar>, s: seq<Scalar>)
    requires SameSource(q', t, q, s) && Alone(s, q)
    ensures q' == q && |s| >= |q| && s[..|s| - |q|] == t && s == t + q
  {
    AloneEnds(s, q);
    assert (q + s)[|q|..] == s && (q + t + q)[|q|..] == t + q;
  }

  lemma RawReadIff(q': seq<Scalar>, t: seq<Scalar>, q: seq<Scalar>, s: seq<Scalar>, isBytes: bool)
    requires SameSource(q', t, q, s) && Inside(s, q, true, isBytes).Some?
    ensures Utf8All(t) == Shown(Inside(s, q, true, isBytes).value, isBytes) <==> Alone(s, q) && AsMeant(t, true, isBytes)
  {
    ShownText(t);
    if Alone(s, q) {
      AloneSource(q', t, q, s);
      SingleRaw(s, q, isBytes);
      Apart(Shown(t, false), Shown(Inside(s, q, true, isBytes).value, isBytes), AsMeant(t, true, isBytes));
    } else {
      InsideLength(s, q, true, isBytes);
      ShownConcat(q, s, false);
      ShownConcat(q' + t, q', false);
      ShownConcat(q', t, false);
      QuotesMarked(q);
      QuotesMarked(q');
    }
    hide *;
  }

  lemma BothUnescaped(q': seq<Scalar>, t: seq<Scalar>, q: seq<Scalar>, s: seq<Scalar>)
    requires SameSource(q', t, q, s) && Unescaped(t).Some?
    ensures Unescaped(s).Some? && Shown(q', false) + Unescaped(t).value + Shown(q', false) == Shown(q, false) + Unescaped(s).value
  {
    QuotesShown(q', false);
    QuotesShown(q, false);
    UnescapedConcat(q', t);
    UnescapedConcat(q' + t, q');
    UnescapedConcat(q, s);
    BeforeIs(Shown(q', false), Unescaped(t));
    BeforeIs(Shown(q', false) + Unescaped(t).value, Unescaped(q'));
    BeforeIs(Shown(q, false), Unescaped(s));
    hide *;
  }

  lemma SameEnds(a: Bytes, d: Bytes, D: Bytes, v: Bytes)
    requires a + d + a == a + D
    ensures D == d + a && (d == v <==> D == v + a)
  {
    assert (a + d + a)[|a|..] == d + a && (a + D)[|a|..] == D;
    assert (d + a)[..|d|] == d && (v + a)[..|v|] == v;
    if d + a == v + a {
      assert |d| == |v|;
    }
  }

  lemma AloneReadIff(q': seq<Scalar>, t: seq<Scalar>, q: seq<Scalar>, s: seq<Scalar>, isBytes: bool)
    requires SameSource(q', t, q, s) && Inside(s, q, false, isBytes).Some? && Unescaped(t).Some? && Alone(s, q)
    ensures Unescaped(t).value == Shown(Inside(s, q, false, isBytes).value, isBytes) <==> AsMeant(t, false, isBytes)
  {
    BothUnescaped(q', t, q, s);
    AloneSource(q', t, q, s);
    assert AreQuotes(q);
    hide *;
    SingleEscaped(s, q, isBytes);
    var v := Shown(Inside(s, q, false, isBytes).value, isBytes);
    Apart(Unescaped(s).value, v + Shown(q, false), AsMeant(t, false, isBytes));
    SameEnds(Shown(q, false), Unescaped(t).value, Unescaped(s).value, v);
  }

  lemma SeveralReadApart(q': seq<Scalar>, t: seq<Scalar>, q: seq<Scalar>, s: seq<Scalar>, isBytes: bool)
    requires SameSource(q', t, q, s) && Inside(s, q, false, isBytes).Some? && Unescaped(t).Some? && !Alone(s, q)
    ensures Unescaped(t).value != Shown(Inside(s, q, false, isBytes).value, isBytes)
  {
    BothUnescaped(q', t, q, s);
    assert AreQuotes(q) && AreQuotes(q') && |q'| <= |q|;
    hide *;
    InsideMarks(s, q, false, isBytes);
    var d, D, v := Unescaped(t).value, Unescaped(s).value, Shown(Inside(s, q, false, isBytes).value, isBytes);
    HasMarksIs(D, v, |q| + 2);
    MarksConcat(Shown(q', false) + d, Shown(q', false));
    MarksConcat(Shown(q', false), d);
    MarksConcat(Shown(q, false), D);
    QuotesMarked(q);
    QuotesMarked(q');
  }

  lemma HasMarksIs(d: Bytes, v: Bytes, more: nat)
    requires HasMarks(d, v, more)
    ensures Marks(d) >= Marks(v) + more
  {
  }

  /** Where the folder reads a literal that Python reads too, it reads the same bytes exactly when it
      is one literal, holds no carriage return, and, unless it is raw, has no `\0` before an octal
      digit and in a text no escaped byte above 0x7F. */
  lemma LiteralReadIff(source: seq<Scalar>)
    requires LiteralBytes(source).Some? && Meaning(source).Some?
    ensures LiteralBytes(source).value == Shown(Meaning(source).value.points, Meaning(source).value.isBytes) <==> ReadAsMeant(source)
  {
    var o := OpeningOf(source).value;
    ReadParts(source);
    hide *;
    var q' := StrippedQuotes(source);
    PartsReadIff(q', Inner(source[o.prefix..]).value, o.quotes, source[o.prefix + |o.quotes|..], o.isRaw, o.isBytes);
  }

  /** What the folder and Python read, part by part. */
  lemma ReadParts(source: seq<Scalar>)
    requires LiteralBytes(source).Some? && Meaning(source).Some?
    ensures OpeningOf(source).Some? && OpeningOf(source).value.quotes != [] && Inner(source[OpeningOf(source).value.prefix..]).Some?
    ensures var o := OpeningOf(source).value;
            var t, q, s := Inner(source[o.prefix..]).value, o.quotes, source[o.prefix + |o.quotes|..];
            && (!o.isRaw ==> Unescaped(t).Some?)
            && LiteralBytes(source).value == (if o.isRaw then Utf8All(t) else Unescaped(t).value)
            && Inside(s, q, o.isRaw, o.isBytes).Some? && Meaning(source).value == Literal(o.isBytes, Inside(s, q, o.isRaw, o.isBytes).value)
            && (ReadAsMeant(source) <==> Alone(s, q) && |s| >= |q| && AsMeant(s[..|s| - |q|], o.isRaw, o.isBytes))
  {
    PrefixAgrees(source);
    hide OpeningOf, Inner, Inside, FirstQuote, IsPrefix, IsRaw, Utf8All, Unescaped, Alone, AsMeant;
  }

  lemma PartsReadIff(q': seq<Scalar>, t: seq<Scalar>, q: seq<Scalar>, s: seq<Scalar>, isRaw: bool, isBytes: bool)
    requires SameSource(q', t, q, s) && Inside(s, q, isRaw, isBytes).Some? && (!isRaw ==> Unescaped(t).Some?)
    ensures (if isRaw then Utf8All(t) else Unescaped(t).value) == Shown(Inside(s, q, isRaw, isBytes).value, isBytes)
            <==> Alone(s, q) && |s| >= |q| && AsMeant(s[..|s| - |q|], isRaw, isBytes)
  {
    assert q != [];
    hide *;
    if Alone(s, q) {
      AloneSource(q', t, q, s);
    }
    if isRaw {
      RawReadIff(q', t, q, s, isBytes);
    } else if Alone(s, q) {
      AloneReadIff(q', t, q, s, isBytes);
    } else {
      SeveralReadApart(q', t, q, s, isBytes);
    }
  }

  lemma PrefixAgrees(source: seq<Scalar>)
    requires OpeningOf(source).Some?
    ensures var o := OpeningOf(source).value; FirstQuote(source) == Some(o.prefix) && (IsRaw(source[..o.prefix]) <==> o.isRaw)
  {
  }
}
