/** The forty bytes a scan is stored under. */
module CacheKeys {
  import opened Octets
  import opened Options

  type Word = x: int | 0 <= x < 0x1_0000_0000

  type Digest = d: Bytes | |d| == 32 witness seq(32, _ => 0)

  datatype CacheKey = CacheKey(digest: Digest, ruleset: Word, schema: Word)

  const KEY_LENGTH: nat := 40

  function BigEndian(w: Word): (r: Bytes)
    ensures |r| == 4
  {
    [(w / 0x100_0000) as byte, (w / 0x1_0000 % 0x100) as byte, (w / 0x100 % 0x100) as byte, (w % 0x100) as byte]
  }

  function FromBigEndian(b: Bytes): Word
    requires |b| == 4
  {
    b[0] as int * 0x100_0000 + b[1] as int * 0x1_0000 + b[2] as int * 0x100 + b[3] as int
  }

  function KeyBytes(k: CacheKey): (r: Bytes)
    ensures |r| == KEY_LENGTH
  {
    k.digest + BigEndian(k.ruleset) + BigEndian(k.schema)
  }

  function FromBytes(b: Bytes): Option<CacheKey> {
    if |b| != KEY_LENGTH then None
    else Some(CacheKey(b[..32], FromBigEndian(b[32..36]), FromBigEndian(b[36..])))
  }

  lemma WordRoundTrip(w: Word)
    ensures FromBigEndian(BigEndian(w)) == w
  {
    var a, b, c, d := w / 0x100_0000, w / 0x1_0000 % 0x100, w / 0x100 % 0x100, w % 0x100;
    assert w / 0x1_0000 == a * 0x100 + b;
    assert w / 0x100 == (w / 0x1_0000) * 0x100 + c;
    assert w == (w / 0x100) * 0x100 + d;
  }

  lemma BytesRoundTrip(b: Bytes)
    requires |b| == 4
    ensures BigEndian(FromBigEndian(b)) == b
  {
    var w := FromBigEndian(b);
    var a, c, d, e := b[0] as int, b[1] as int, b[2] as int, b[3] as int;
    assert w == ((a * 0x100 + c) * 0x100 + d) * 0x100 + e;
    assert w / 0x100 == (a * 0x100 + c) * 0x100 + d && w % 0x100 == e;
    assert w / 0x1_0000 == a * 0x100 + c;
    assert w / 0x100_0000 == a;
  }

  /** A key is read back from its bytes. */
  lemma KeyRoundTrip(k: CacheKey)
    ensures FromBytes(KeyBytes(k)) == Some(k)
  {
    WordRoundTrip(k.ruleset);
    WordRoundTrip(k.schema);
    hide BigEndian, FromBigEndian;
    var b := KeyBytes(k);
    assert b[..32] == k.digest;
    assert b[32..36] == BigEndian(k.ruleset);
    assert b[36..] == BigEndian(k.schema);
  }

  /** Where each part stands, most significant byte first. */
  lemma KeyInBytes(k: CacheKey)
    ensures var b := KeyBytes(k);
            && (forall i :: 0 <= i < 32 ==> b[i] == k.digest[i])
            && k.ruleset == b[32] as int * 0x100_0000 + b[33] as int * 0x1_0000 + b[34] as int * 0x100 + b[35] as int
            && k.schema == b[36] as int * 0x100_0000 + b[37] as int * 0x1_0000 + b[38] as int * 0x100 + b[39] as int
  {
    WordRoundTrip(k.ruleset);
    WordRoundTrip(k.schema);
    hide BigEndian;
  }

  /** Forty bytes are the bytes of exactly one key; any other length of none. */
  lemma OnlyKey(b: Bytes)
    ensures |b| == KEY_LENGTH ==> FromBytes(b).Some? && KeyBytes(FromBytes(b).value) == b
    ensures |b| != KEY_LENGTH ==> forall k :: KeyBytes(k) != b
  {
    if |b| == KEY_LENGTH {
      BytesRoundTrip(b[32..36]);
      BytesRoundTrip(b[36..]);
      hide BigEndian, FromBigEndian;
      assert b == b[..32] + b[32..36] + b[36..];
    }
  }

  /** Different digests, rulesets or schemas never share a key. */
  lemma KeysApart(k: CacheKey, l: CacheKey)
    requires KeyBytes(k) == KeyBytes(l)
    ensures k == l
  {
    KeyRoundTrip(k);
    KeyRoundTrip(l);
  }

  /** Fills the forty bytes part by part. */
  method ToBytes(k: CacheKey) returns (out: array<byte>)
    ensures fresh(out) && out[..] == KeyBytes(k)
  {
    out := new byte[KEY_LENGTH](_ => 0);
    CopyInto(out, 0, k.digest);
    CopyInto(out, 32, BigEndian(k.ruleset));
    CopyInto(out, 36, BigEndian(k.schema));
    hide BigEndian;
    assert out[..] == out[..32] + out[32..36] + out[36..40];
  }

  method CopyInto(out: array<byte>, at: nat, from: Bytes)
    requires at + |from| <= out.Length
    modifies out
    ensures out[at..at + |from|] == from
    ensures forall i :: (0 <= i < at || at + |from| <= i < out.Length) ==> out[i] == old(out[i])
  {
    for i := 0 to |from|
      invariant forall j :: 0 <= j < i ==> out[at + j] == from[j]
      invariant forall j :: (0 <= j < at || at + i <= j < out.Length) ==> out[j] == old(out[j])
    {
      out[at + i] := from[i];
    }
  }
}
