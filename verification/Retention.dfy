/** What the end of a run keeps: the specification of the retention sweep. */
module Retention {
  import opened Options
  import opened Octets
  import opened CacheKeys
  import opened Finite

  /** Stored reports, and the day each was last used or stored. */
  datatype Store = Store(scans: map<Bytes, Bytes>, lastUsed: map<Bytes, nat>) {
    /** Only stored entries have a last use. */
    ghost predicate Valid() {
      lastUsed.Keys <= scans.Keys
    }
  }

  datatype Limits = Limits(maxAgeDays: Option<nat>, maxBytes: Option<nat>)

  datatype Sweep = Sweep(touched: nat, removedStale: nat, removedUnused: nat, removedOverCap: nat)

  /** A stored key of this layout and schema and, when given, this ruleset. */
  predicate CurrentShape(key: Bytes, schema: Word, ruleset: Option<Word>) {
    var k := FromBytes(key);
    k.Some? && k.value.schema == schema && (ruleset.Some? ==> k.value.ruleset == ruleset.value)
  }

  function EntrySize(scans: map<Bytes, Bytes>, key: Bytes): nat {
    |key| + if key in scans then |scans[key]| else 0
  }

  ghost function Total(scans: map<Bytes, Bytes>, keys: set<Bytes>): nat {
    if keys == {} then 0
    else
      var k :| k in keys;
      EntrySize(scans, k) + Total(scans, keys - {k})
  }

  lemma {:induction false} TotalWithout(scans: map<Bytes, Bytes>, keys: set<Bytes>, k: Bytes)
    requires k in keys
    ensures Total(scans, keys) == EntrySize(scans, k) + Total(scans, keys - {k})
    decreases keys
  {
    hide EntrySize;
    var j :| j in keys && Total(scans, keys) == EntrySize(scans, j) + Total(scans, keys - {j});
    if j != k {
      TotalWithout(scans, keys - {j}, k);
      TotalWithout(scans, keys - {k}, j);
      assert keys - {j} - {k} == keys - {k} - {j};
    }
  }

  // ---- the order entries are evicted in ----

  predicate LexLess(a: Bytes, b: Bytes) {
    b != [] && (a == [] || a[0] < b[0] || (a[0] == b[0] && LexLess(a[1..], b[1..])))
  }

  lemma {:induction false} LexTotal(a: Bytes, b: Bytes)
    ensures a == b || LexLess(a, b) || LexLess(b, a)
    ensures LexLess(a, b) ==> a != b && !LexLess(b, a)
  {
    if a != [] && b != [] {
      LexTotal(a[1..], b[1..]);
      assert a == [a[0]] + a[1..] && b == [b[0]] + b[1..];
    }
  }

  lemma {:induction false} LexTrans(a: Bytes, b: Bytes, c: Bytes)
    requires LexLess(a, b) && LexLess(b, c)
    ensures LexLess(a, c)
  {
    if a != [] && a[0] == b[0] && b[0] == c[0] {
      LexTrans(a[1..], b[1..], c[1..]);
    }
  }

  datatype Row = Row(key: Bytes, last: nat, size: nat)

  /** Least recently used first, ties by key. */
  predicate Before(r: Row, s: Row) {
    r.last < s.last || (r.last == s.last && LexLess(r.key, s.key))
  }

  lemma BeforeTotal(r: Row, s: Row)
    ensures Before(r, s) || Before(s, r) || (r.last == s.last && r.key == s.key)
    ensures !(Before(r, s) && Before(s, r)) && (Before(r, s) ==> r.key != s.key || r.last != s.last)
  {
    LexTotal(r.key, s.key);
  }

  lemma BeforeTrans(r: Row, s: Row, t: Row)
    requires Before(r, s) && Before(s, t)
    ensures Before(r, t)
  {
    if r.last == s.last == t.last {
      LexTrans(r.key, s.key, t.key);
    }
  }

  function RowOf(scans: map<Bytes, Bytes>, used: map<Bytes, nat>, key: Bytes): Row {
    Row(key, if key in used then used[key] else 0, EntrySize(scans, key))
  }

  // ---- what goes ----

  /** Today is the last use of every entry served, and of every entry never marked. */
  function Marked(s: Store, touched: set<Bytes>, day: nat): map<Bytes, nat> {
    s.lastUsed + (map k | k in touched :: day) + (map k | k in s.scans.Keys - s.lastUsed.Keys - touched :: day)
  }

  function Stale(s: Store, schema: Word, ruleset: Word): set<Bytes> {
    set k | k in s.scans && !CurrentShape(k, schema, Some(ruleset))
  }

  /** The entries another schema or layout wrote: all that the cache's statistics call stale. */
  function OtherSchema(keys: set<Bytes>, schema: Word): set<Bytes> {
    set k | k in keys && !CurrentShape(k, schema, None)
  }

  /** Longer ago than the limit; a day before the last use counts as no time at all. */
  predicate TooOld(limit: Option<nat>, day: nat, last: nat) {
    limit.Some? && day - last > limit.value
  }

  function Unused(s: Store, used: map<Bytes, nat>, schema: Word, ruleset: Word, limit: Option<nat>, day: nat): set<Bytes> {
    set k | k in s.scans && CurrentShape(k, schema, Some(ruleset)) && k in used && TooOld(limit, day, used[k])
  }

  /** `gone` is the least prefix of `live`, in eviction order, without which the rest fits. */
  ghost predicate Evicted(scans: map<Bytes, Bytes>, used: map<Bytes, nat>, live: set<Bytes>, cap: Option<nat>, gone: set<Bytes>) {
    && gone <= live
    && (cap.None? ==> gone == {})
    && (forall k, l :: k in gone && l in live && Before(RowOf(scans, used, l), RowOf(scans, used, k)) ==> l in gone)
    && (cap.Some? ==> Total(scans, live - gone) <= cap.value)
    && (cap.Some? ==> forall k :: IsLast(scans, used, gone, k) ==> Total(scans, live - gone) + EntrySize(scans, k) > cap.value)
  }

  /** `k` is the last of `gone` in eviction order. */
  ghost predicate IsLast(scans: map<Bytes, Bytes>, used: map<Bytes, nat>, gone: set<Bytes>, k: Bytes) {
    k in gone && forall l :: l in gone && l != k ==> Before(RowOf(scans, used, l), RowOf(scans, used, k))
  }

  function Live(s: Store, used: map<Bytes, nat>, schema: Word, ruleset: Word, limits: Limits, day: nat): set<Bytes> {
    s.scans.Keys - Stale(s, schema, ruleset) - Unused(s, used, schema, ruleset, limits.maxAgeDays, day)
  }

  /** The end of a run: stale, long-unused and over-cap entries leave both tables. */
  ghost predicate Swept(s: Store, touched: set<Bytes>, schema: Word, ruleset: Word, limits: Limits, day: nat, s': Store, sweep: Sweep, gone: set<Bytes>) {
    var used := Marked(s, touched, day);
    var stale, unused := Stale(s, schema, ruleset), Unused(s, used, schema, ruleset, limits.maxAgeDays, day);
    && Evicted(s.scans, used, Live(s, used, schema, ruleset, limits, day), limits.maxBytes, gone)
    && s'.scans == s.scans - (stale + unused + gone)
    && s'.lastUsed == used - (stale + unused + gone)
    && sweep.removedStale == |stale| && sweep.removedUnused == |unused| && sweep.removedOverCap == |gone|
    && sweep.touched == |set k | k in touched && !(k in s.lastUsed && s.lastUsed[k] == day)|
  }

  // ---- consequences ----

  /** The statistics count fewer stale entries than the next sweep removes as stale, unless every
      entry of the current schema is of the current ruleset too: then they count the same. */
  lemma StatsAgreeIff(s: Store, schema: Word, ruleset: Word)
    ensures OtherSchema(s.scans.Keys, schema) <= Stale(s, schema, ruleset)
    ensures |OtherSchema(s.scans.Keys, schema)| == |Stale(s, schema, ruleset)|
            <==> forall k :: k in s.scans && CurrentShape(k, schema, None) ==> FromBytes(k).value.ruleset == ruleset
  {
    var counted, removed := OtherSchema(s.scans.Keys, schema), Stale(s, schema, ruleset);
    assert removed == counted + (removed - counted);
    if |counted| == |removed| {
      forall k | k in s.scans && CurrentShape(k, schema, None) ensures FromBytes(k).value.ruleset == ruleset {
        assert removed - counted == {};
        assert k in removed ==> k in removed - counted;
      }
    } else {
      var k :| k in removed - counted;
    }
  }

  /** One report, of an older ruleset: nothing is counted as stale, and it is removed as stale. */
  lemma OldRulesetIsNotCounted(digest: Digest, report: Bytes, schema: Word, ruleset: Word, older: Word)
    requires older != ruleset
    ensures var s := Store(map[KeyBytes(CacheKey(digest, older, schema)) := report], map[]);
            |OtherSchema(s.scans.Keys, schema)| == 0 && Stale(s, schema, ruleset) == s.scans.Keys && |s.scans.Keys| == 1
  {
    var key := CacheKey(digest, older, schema);
    KeyRoundTrip(key);
    hide KeyBytes, FromBytes;
    var s := Store(map[KeyBytes(key) := report], map[]);
    assert s.scans.Keys == {KeyBytes(key)};
    assert OtherSchema(s.scans.Keys, schema) == {};
  }

  /** A total order: two evictions that stop at different places cannot both be least. */
  lemma LastOfNonempty(scans: map<Bytes, Bytes>, used: map<Bytes, nat>, gone: set<Bytes>) returns (k: Bytes)
    requires gone != {}
    ensures IsLast(scans, used, gone, k)
    decreases gone
  {
    var j :| j in gone;
    if gone == {j} {
      k := j;
    } else {
      var i := LastOfNonempty(scans, used, gone - {j});
      BeforeTotal(RowOf(scans, used, i), RowOf(scans, used, j));
      hide Before, RowOf, EntrySize;
      if Before(RowOf(scans, used, i), RowOf(scans, used, j)) {
        k := j;
        forall l | l in gone && l != k ensures Before(RowOf(scans, used, l), RowOf(scans, used, k)) {
          if l != i {
            BeforeTrans(RowOf(scans, used, l), RowOf(scans, used, i), RowOf(scans, used, j));
          }
        }
      } else {
        k := i;
        RowKeys(scans, used, i, j);
      }
    }
  }

  lemma RowKeys(scans: map<Bytes, Bytes>, used: map<Bytes, nat>, i: Bytes, j: Bytes)
    ensures RowOf(scans, used, i).key == i && RowOf(scans, used, j).key == j
  {
  }

  lemma {:induction false} TotalMono(scans: map<Bytes, Bytes>, A: set<Bytes>, C: set<Bytes>)
    requires A <= C
    ensures Total(scans, A) <= Total(scans, C)
    decreases C
  {
    hide EntrySize;
    if A != C {
      var k :| k in C && k !in A;
      TotalWithout(scans, C, k);
      TotalMono(scans, A, C - {k});
    }
  }

  lemma PrefixesNest(scans: map<Bytes, Bytes>, used: map<Bytes, nat>, live: set<Bytes>, cap: Option<nat>, a: set<Bytes>, b: set<Bytes>)
    requires Evicted(scans, used, live, cap, a) && Evicted(scans, used, live, cap, b)
    ensures a <= b || b <= a
  {
    if !(a <= b) && !(b <= a) {
      var k :| k in a && k !in b;
      var l :| l in b && l !in a;
      BeforeTotal(RowOf(scans, used, k), RowOf(scans, used, l));
      RowKeys(scans, used, k, l);
      hide Total, Before, RowOf;
      assert false;
    }
  }

  lemma LastReached(scans: map<Bytes, Bytes>, used: map<Bytes, nat>, live: set<Bytes>, cap: Option<nat>, a: set<Bytes>, b: set<Bytes>, k: Bytes)
    requires Evicted(scans, used, live, cap, a) && b <= live && IsLast(scans, used, b, k)
    ensures k in a ==> b <= a
  {
    hide Before, RowOf, Total;
    forall l | l in b ensures k in a ==> l in a {
      assert l == k || Before(RowOf(scans, used, l), RowOf(scans, used, k));
    }
  }

  lemma NotBeyond(scans: map<Bytes, Bytes>, used: map<Bytes, nat>, live: set<Bytes>, cap: Option<nat>, a: set<Bytes>, b: set<Bytes>)
    requires Evicted(scans, used, live, cap, a) && Evicted(scans, used, live, cap, b) && a <= b
    ensures a == b
  {
    if a != b {
      assert cap.Some?;
      var k := LastOfNonempty(scans, used, b);
      LastReached(scans, used, live, cap, a, b, k);
      if k !in a {
        var rest := live - b + {k};
        assert rest - {k} == live - b;
        TotalWithout(scans, rest, k);
        TotalMono(scans, rest, live - a);
      }
    }
  }

  /** What a sweep leaves does not depend on the order anything was iterated in. */
  lemma SweepIsUnique(s: Store, touched: set<Bytes>, schema: Word, ruleset: Word, limits: Limits, day: nat,
                      s1: Store, w1: Sweep, g1: set<Bytes>, s2: Store, w2: Sweep, g2: set<Bytes>)
    requires Swept(s, touched, schema, ruleset, limits, day, s1, w1, g1) && Swept(s, touched, schema, ruleset, limits, day, s2, w2, g2)
    ensures s1 == s2 && w1 == w2 && g1 == g2
  {
    var used := Marked(s, touched, day);
    var live := Live(s, used, schema, ruleset, limits, day);
    hide Marked, Live, Stale, Unused, Evicted;
    PrefixesNest(s.scans, used, live, limits.maxBytes, g1, g2);
    if g1 <= g2 {
      NotBeyond(s.scans, used, live, limits.maxBytes, g1, g2);
    } else {
      NotBeyond(s.scans, used, live, limits.maxBytes, g2, g1);
    }
  }

  /** After a sweep every entry is current, young enough and within the cap, both tables have the
      same keys, nothing kept was changed, and the counters account for every entry lost. */
  lemma AfterSweep(s: Store, touched: set<Bytes>, schema: Word, ruleset: Word, limits: Limits, day: nat, s': Store, sweep: Sweep, gone: set<Bytes>)
    requires s.Valid() && touched <= s.scans.Keys && Swept(s, touched, schema, ruleset, limits, day, s', sweep, gone)
    ensures s'.Valid() && s'.lastUsed.Keys == s'.scans.Keys
    ensures forall k :: k in s'.scans ==> k in s.scans && s'.scans[k] == s.scans[k] && CurrentShape(k, schema, Some(ruleset))
    ensures forall k :: k in s'.scans ==> !TooOld(limits.maxAgeDays, day, s'.lastUsed[k])
    ensures limits.maxBytes.Some? ==> Total(s'.scans, s'.scans.Keys) <= limits.maxBytes.value
    ensures sweep.removedStale + sweep.removedUnused + sweep.removedOverCap == |s.scans.Keys| - |s'.scans.Keys|
  {
    hide *;
    KeysAfter(s, touched, schema, ruleset, limits, day, s', sweep, gone);
    KeptEntries(s, touched, schema, ruleset, limits, day, s', sweep, gone);
    CountsAfter(s, touched, schema, ruleset, limits, day, s', sweep, gone);
    TotalSame(s.scans, s'.scans, s'.scans.Keys);
  }

  lemma {:induction false} TotalSame(m: map<Bytes, Bytes>, m': map<Bytes, Bytes>, keys: set<Bytes>)
    requires forall k :: k in keys ==> k in m && k in m' && m[k] == m'[k]
    ensures Total(m, keys) == Total(m', keys)
    decreases keys
  {
    if keys != {} {
      var k :| k in keys;
      TotalWithout(m, keys, k);
      TotalWithout(m', keys, k);
      TotalSame(m, m', keys - {k});
    }
  }

  lemma KeysAfter(s: Store, touched: set<Bytes>, schema: Word, ruleset: Word, limits: Limits, day: nat, s': Store, sweep: Sweep, gone: set<Bytes>)
    requires s.Valid() && touched <= s.scans.Keys && Swept(s, touched, schema, ruleset, limits, day, s', sweep, gone)
    ensures s'.Valid() && s'.lastUsed.Keys == s'.scans.Keys
    ensures s'.scans.Keys == Live(s, Marked(s, touched, day), schema, ruleset, limits, day) - gone
    ensures gone <= Live(s, Marked(s, touched, day), schema, ruleset, limits, day)
    ensures limits.maxBytes.Some? ==> Total(s.scans, s'.scans.Keys) <= limits.maxBytes.value
  {
    SweptParts(s, touched, schema, ruleset, limits, day, s', sweep, gone);
    hide *;
    var used := Marked(s, touched, day);
    var stale, unused := Stale(s, schema, ruleset), Unused(s, used, schema, ruleset, limits.maxAgeDays, day);
    RemovedKeys(s.scans, used, stale + unused + gone);
    Remaining(s.scans.Keys, stale, unused, gone);
    SameKeysValid(s');
  }

  lemma SweptParts(s: Store, touched: set<Bytes>, schema: Word, ruleset: Word, limits: Limits, day: nat, s': Store, sweep: Sweep, gone: set<Bytes>)
    requires s.Valid() && touched <= s.scans.Keys && Swept(s, touched, schema, ruleset, limits, day, s', sweep, gone)
    ensures var used := Marked(s, touched, day);
            var stale, unused := Stale(s, schema, ruleset), Unused(s, used, schema, ruleset, limits.maxAgeDays, day);
            var live := Live(s, used, schema, ruleset, limits, day);
            && live == s.scans.Keys - stale - unused && gone <= live && used.Keys == s.scans.Keys
            && s'.scans == s.scans - (stale + unused + gone) && s'.lastUsed == used - (stale + unused + gone)
            && (limits.maxBytes.Some? ==> Total(s.scans, live - gone) <= limits.maxBytes.value)
  {
    hide Stale, Unused, Total, IsLast, Before, RowOf, EntrySize;
  }

  lemma SameKeysValid(s: Store)
    requires s.lastUsed.Keys == s.scans.Keys
    ensures s.Valid()
  {
  }

  lemma Remaining(all: set<Bytes>, stale: set<Bytes>, unused: set<Bytes>, gone: set<Bytes>)
    ensures all - (stale + unused + gone) == all - stale - unused - gone
  {
  }

  lemma RemovedKeys(scans: map<Bytes, Bytes>, used: map<Bytes, nat>, removed: set<Bytes>)
    ensures (scans - removed).Keys == scans.Keys - removed && (used - removed).Keys == used.Keys - removed
  {
  }

  lemma KeptEntries(s: Store, touched: set<Bytes>, schema: Word, ruleset: Word, limits: Limits, day: nat, s': Store, sweep: Sweep, gone: set<Bytes>)
    requires s.Valid() && touched <= s.scans.Keys && Swept(s, touched, schema, ruleset, limits, day, s', sweep, gone)
    requires s'.lastUsed.Keys == s'.scans.Keys
    ensures forall k :: k in s'.scans ==> k in s.scans && s'.scans[k] == s.scans[k] && CurrentShape(k, schema, Some(ruleset))
    ensures forall k :: k in s'.scans ==> !TooOld(limits.maxAgeDays, day, s'.lastUsed[k])
  {
    var used := Marked(s, touched, day);
    hide Marked, Total, Before, CurrentShape, TooOld, Evicted;
    forall k | k in s'.scans ensures k in s.scans && s'.scans[k] == s.scans[k] && CurrentShape(k, schema, Some(ruleset)) {
    }
    forall k | k in s'.scans ensures !TooOld(limits.maxAgeDays, day, s'.lastUsed[k]) {
      assert k in used && s'.lastUsed[k] == used[k];
    }
  }

  lemma CountsAfter(s: Store, touched: set<Bytes>, schema: Word, ruleset: Word, limits: Limits, day: nat, s': Store, sweep: Sweep, gone: set<Bytes>)
    requires s.Valid() && Swept(s, touched, schema, ruleset, limits, day, s', sweep, gone)
    requires s'.scans.Keys == Live(s, Marked(s, touched, day), schema, ruleset, limits, day) - gone
    requires gone <= Live(s, Marked(s, touched, day), schema, ruleset, limits, day)
    ensures sweep.removedStale + sweep.removedUnused + sweep.removedOverCap == |s.scans.Keys| - |s'.scans.Keys|
  {
    var used := Marked(s, touched, day);
    var stale, unused := Stale(s, schema, ruleset), Unused(s, used, schema, ruleset, limits.maxAgeDays, day);
    assert stale !! unused && stale <= s.scans.Keys && unused <= s.scans.Keys;
    hide Marked, Stale, Unused, Total, Before, Evicted;
    CountParts(s.scans.Keys, stale, unused, gone);
  }

  lemma CountParts(all: set<Bytes>, a: set<Bytes>, b: set<Bytes>, c: set<Bytes>)
    requires a <= all && b <= all && a !! b && c <= all - a - b
    ensures |a| + |b| + |c| == |all| - |all - a - b - c|
  {
    assert all == (all - a - b - c) + (a + b + c);
    assert |a + b + c| == |a + b| + |c| && |a + b| == |a| + |b|;
  }
}
