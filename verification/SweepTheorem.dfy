/** What a sweep removes and keeps, in days and bytes. */
module SweepTheorem {
  import opened Options
  import opened Octets
  import opened CacheKeys
  import opened Retention

  /** The day an entry counts as last used: today when it was served or was never marked. */
  function LastUse(s: Store, touched: set<Bytes>, day: nat, k: Bytes): nat {
    if k in touched || k !in s.lastUsed then day else s.lastUsed[k]
  }

  /** `k` is the forty bytes of a digest under this ruleset and schema. */
  ghost predicate IsCurrent(k: Bytes, schema: Word, ruleset: Word) {
    exists d: Digest :: k == KeyBytes(CacheKey(d, ruleset, schema))
  }

  /** Last used more days ago than an entry is kept. */
  predicate IsOld(s: Store, touched: set<Bytes>, limits: Limits, day: nat, k: Bytes) {
    limits.maxAgeDays.Some? && LastUse(s, touched, day, k) + limits.maxAgeDays.value < day
  }

  /** Used on an earlier day, or on the same one and lesser at the first byte that differs. */
  ghost predicate GoesFirst(s: Store, touched: set<Bytes>, day: nat, k: Bytes, l: Bytes) {
    || LastUse(s, touched, day, k) < LastUse(s, touched, day, l)
    || (LastUse(s, touched, day, k) == LastUse(s, touched, day, l)
        && exists i :: 0 <= i < |k| && i < |l| && k[..i] == l[..i] && k[i] < l[i])
  }

  lemma CurrentIff(k: Bytes, schema: Word, ruleset: Word)
    ensures CurrentShape(k, schema, Some(ruleset)) <==> IsCurrent(k, schema, ruleset)
  {
    if CurrentShape(k, schema, Some(ruleset)) {
      OnlyKey(k);
      assert k == KeyBytes(CacheKey(FromBytes(k).value.digest, ruleset, schema));
    }
    if IsCurrent(k, schema, ruleset) {
      var d: Digest :| k == KeyBytes(CacheKey(d, ruleset, schema));
      KeyRoundTrip(CacheKey(d, ruleset, schema));
    }
    hide KeyBytes, FromBytes;
  }

  lemma MarkedIs(s: Store, touched: set<Bytes>, day: nat, k: Bytes)
    requires k in s.scans
    ensures k in Marked(s, touched, day) && Marked(s, touched, day)[k] == LastUse(s, touched, day, k)
  {
  }

  lemma {:induction false} LexIff(a: Bytes, b: Bytes)
    requires |a| == |b|
    ensures LexLess(a, b) <==> exists i :: 0 <= i < |a| && a[..i] == b[..i] && a[i] < b[i]
  {
    if a != [] {
      var x, y := a[1..], b[1..];
      LexIff(x, y);
      if LexLess(a, b) {
        if a[0] < b[0] {
          assert a[..0] == b[..0];
        } else {
          var i :| 0 <= i < |x| && x[..i] == y[..i] && x[i] < y[i];
          assert a[..i + 1] == [a[0]] + x[..i] && b[..i + 1] == [b[0]] + y[..i] && a[i + 1] < b[i + 1];
        }
      }
      if i :| 0 <= i < |a| && a[..i] == b[..i] && a[i] < b[i] {
        if i > 0 {
          assert a[0] == a[..i][0] && b[0] == b[..i][0];
          assert x[..i - 1] == a[..i][1..] && y[..i - 1] == b[..i][1..] && x[i - 1] < y[i - 1];
        }
      }
    }
  }

  lemma FirstIff(s: Store, touched: set<Bytes>, day: nat, k: Bytes, l: Bytes)
    requires k in s.scans && l in s.scans && |k| == |l|
    ensures var used := Marked(s, touched, day); Before(RowOf(s.scans, used, k), RowOf(s.scans, used, l)) <==> GoesFirst(s, touched, day, k, l)
  {
    MarkedIs(s, touched, day, k);
    MarkedIs(s, touched, day, l);
    LexIff(k, l);
    hide Marked, LexLess, EntrySize;
  }

  /** The size of what is stored under some keys: nothing for none, and with each key its own length
      and that of its report. */
  lemma TotalIs(scans: map<Bytes, Bytes>, keys: set<Bytes>)
    requires keys <= scans.Keys
    ensures Total(scans, {}) == 0
    ensures forall k :: k in keys ==> Total(scans, keys) == Total(scans, keys - {k}) + |k| + |scans[k]|
  {
    forall k | k in keys ensures Total(scans, keys) == Total(scans, keys - {k}) + |k| + |scans[k]| {
      TotalWithout(scans, keys, k);
      hide Total;
    }
  }

  /** A key is under the cap's knife, or stays, by its bytes and its day alone. */
  lemma LiveIff(s: Store, touched: set<Bytes>, schema: Word, ruleset: Word, limits: Limits, day: nat, k: Bytes)
    requires k in s.scans
    ensures k in Stale(s, schema, ruleset) <==> !IsCurrent(k, schema, ruleset)
    ensures k in Unused(s, Marked(s, touched, day), schema, ruleset, limits.maxAgeDays, day)
            <==> IsCurrent(k, schema, ruleset) && IsOld(s, touched, limits, day, k)
  {
    CurrentIff(k, schema, ruleset);
    MarkedIs(s, touched, day, k);
    hide IsCurrent, CurrentShape, Marked;
  }

  lemma CurrentLength(k: Bytes, schema: Word, ruleset: Word)
    requires IsCurrent(k, schema, ruleset)
    ensures |k| == 40
  {
  }

  /** What stays: the entries of this ruleset and schema used recently enough and not evicted, as they
      were; and each kind of removal is counted. */
  lemma SweepIs(s: Store, touched: set<Bytes>, schema: Word, ruleset: Word, limits: Limits, day: nat, s': Store, sweep: Sweep, gone: set<Bytes>)
    requires s.Valid() && touched <= s.scans.Keys && Swept(s, touched, schema, ruleset, limits, day, s', sweep, gone)
    ensures forall k :: k in s'.scans <==> k in s.scans && IsCurrent(k, schema, ruleset) && !IsOld(s, touched, limits, day, k) && k !in gone
    ensures forall k :: k in gone ==> k in s.scans && IsCurrent(k, schema, ruleset) && !IsOld(s, touched, limits, day, k)
    ensures forall k :: k in s'.scans ==> k in s'.lastUsed && s'.scans[k] == s.scans[k] && s'.lastUsed[k] == LastUse(s, touched, day, k)
    ensures sweep.removedStale == |set k | k in s.scans && !IsCurrent(k, schema, ruleset)| && sweep.removedOverCap == |gone|
    ensures sweep.removedUnused == |set k | k in s.scans && IsCurrent(k, schema, ruleset) && IsOld(s, touched, limits, day, k)|
  {
    hide *;
    SweptParts(s, touched, schema, ruleset, limits, day, s', sweep, gone);
    Counted(s, touched, schema, ruleset, limits, day, s', sweep, gone);
    StaleIs(s, schema, ruleset);
    UnusedIs(s, touched, schema, ruleset, limits, day);
    KeptAsWere(s, touched, schema, ruleset, limits, day, s', sweep, gone);
  }

  lemma KeptAsWere(s: Store, touched: set<Bytes>, schema: Word, ruleset: Word, limits: Limits, day: nat, s': Store, sweep: Sweep, gone: set<Bytes>)
    requires s.Valid() && touched <= s.scans.Keys && Swept(s, touched, schema, ruleset, limits, day, s', sweep, gone)
    ensures forall k :: k in s'.scans ==> k in s.scans && k in s'.lastUsed && s'.scans[k] == s.scans[k] && s'.lastUsed[k] == LastUse(s, touched, day, k)
  {
    hide *;
    SweptParts(s, touched, schema, ruleset, limits, day, s', sweep, gone);
    forall k | k in s'.scans ensures k in s'.lastUsed && s'.lastUsed[k] == LastUse(s, touched, day, k) {
      MarkedIs(s, touched, day, k);
    }
  }

  lemma StaleIs(s: Store, schema: Word, ruleset: Word)
    ensures Stale(s, schema, ruleset) == set k | k in s.scans && !IsCurrent(k, schema, ruleset)
  {
    forall k ensures CurrentShape(k, schema, Some(ruleset)) <==> IsCurrent(k, schema, ruleset) {
      CurrentIff(k, schema, ruleset);
    }
    hide CurrentShape, IsCurrent;
  }

  lemma UnusedIs(s: Store, touched: set<Bytes>, schema: Word, ruleset: Word, limits: Limits, day: nat)
    ensures Unused(s, Marked(s, touched, day), schema, ruleset, limits.maxAgeDays, day)
         == set k | k in s.scans && IsCurrent(k, schema, ruleset) && IsOld(s, touched, limits, day, k)
  {
    var unused := Unused(s, Marked(s, touched, day), schema, ruleset, limits.maxAgeDays, day);
    forall k | k in s.scans ensures k in unused <==> IsCurrent(k, schema, ruleset) && IsOld(s, touched, limits, day, k) {
      LiveIff(s, touched, schema, ruleset, limits, day, k);
    }
    InStore(s, Marked(s, touched, day), schema, ruleset, limits.maxAgeDays, day);
    hide Unused, Marked, IsCurrent, IsOld;
  }

  lemma InStore(s: Store, used: map<Bytes, nat>, schema: Word, ruleset: Word, limit: Option<nat>, day: nat)
    ensures Unused(s, used, schema, ruleset, limit, day) <= s.scans.Keys
  {
    hide CurrentShape;
  }

  lemma Counted(s: Store, touched: set<Bytes>, schema: Word, ruleset: Word, limits: Limits, day: nat, s': Store, sweep: Sweep, gone: set<Bytes>)
    requires Swept(s, touched, schema, ruleset, limits, day, s', sweep, gone)
    ensures sweep.removedStale == |Stale(s, schema, ruleset)| && sweep.removedOverCap == |gone|
    ensures sweep.removedUnused == |Unused(s, Marked(s, touched, day), schema, ruleset, limits.maxAgeDays, day)|
  {
    hide Stale, Unused, Marked, Evicted;
  }

  /** What is evicted was used before all that stays, or on the same day and by lesser bytes; nothing is
      without a cap, and with one the rest fits, and would not with the last evicted. */
  lemma EvictedIs(s: Store, touched: set<Bytes>, schema: Word, ruleset: Word, limits: Limits, day: nat, s': Store, sweep: Sweep, gone: set<Bytes>)
    requires s.Valid() && touched <= s.scans.Keys && Swept(s, touched, schema, ruleset, limits, day, s', sweep, gone)
    ensures forall k, l :: k in gone && l in s'.scans ==> GoesFirst(s, touched, day, k, l)
    ensures limits.maxBytes.None? ==> gone == {}
    ensures limits.maxBytes.Some? ==> Total(s'.scans, s'.scans.Keys) <= limits.maxBytes.value
    ensures limits.maxBytes.Some? ==>
      forall k :: IsLastGone(s, touched, day, gone, k) ==> k in s.scans && Total(s'.scans, s'.scans.Keys) + |k| + |s.scans[k]| > limits.maxBytes.value
  {
    hide *;
    var used := Marked(s, touched, day);
    var live := Live(s, used, schema, ruleset, limits, day);
    SweepIs(s, touched, schema, ruleset, limits, day, s', sweep, gone);
    AfterSweep(s, touched, schema, ruleset, limits, day, s', sweep, gone);
    KeysAfter(s, touched, schema, ruleset, limits, day, s', sweep, gone);
    TotalSame(s.scans, s'.scans, s'.scans.Keys);
    EvictedParts(s, touched, schema, ruleset, limits, day, s', sweep, gone);
    forall k, l | k in gone && l in s'.scans ensures GoesFirst(s, touched, day, k, l) {
      CurrentLength(k, schema, ruleset);
      CurrentLength(l, schema, ruleset);
      EarlierGoes(s, used, live, limits.maxBytes, gone, k, l);
      FirstIff(s, touched, day, k, l);
    }
    forall k | IsLastGone(s, touched, day, gone, k) && limits.maxBytes.Some?
      ensures k in s.scans && Total(s'.scans, s'.scans.Keys) + |k| + |s.scans[k]| > limits.maxBytes.value
    {
      GoneLast(s, touched, schema, ruleset, day, gone, k);
      LastIs(s, used, live, limits.maxBytes, gone, k);
    }
  }

  /** All else that is evicted goes before `k`. */
  ghost predicate IsLastGone(s: Store, touched: set<Bytes>, day: nat, gone: set<Bytes>, k: Bytes) {
    k in gone && forall l :: l in gone && l != k ==> GoesFirst(s, touched, day, l, k)
  }

  lemma GoneLast(s: Store, touched: set<Bytes>, schema: Word, ruleset: Word, day: nat, gone: set<Bytes>, k: Bytes)
    requires IsLastGone(s, touched, day, gone, k)
    requires forall l :: l in gone ==> l in s.scans && IsCurrent(l, schema, ruleset)
    ensures k in gone && k in s.scans && IsLast(s.scans, Marked(s, touched, day), gone, k)
  {
    hide GoesFirst, Before, RowOf, IsCurrent, Marked;
    forall l | l in gone && l != k ensures Before(RowOf(s.scans, Marked(s, touched, day), l), RowOf(s.scans, Marked(s, touched, day), k)) {
      CurrentLength(k, schema, ruleset);
      CurrentLength(l, schema, ruleset);
      FirstIff(s, touched, day, l, k);
    }
  }

  lemma EvictedParts(s: Store, touched: set<Bytes>, schema: Word, ruleset: Word, limits: Limits, day: nat, s': Store, sweep: Sweep, gone: set<Bytes>)
    requires Swept(s, touched, schema, ruleset, limits, day, s', sweep, gone)
    ensures Evicted(s.scans, Marked(s, touched, day), Live(s, Marked(s, touched, day), schema, ruleset, limits, day), limits.maxBytes, gone)
    ensures limits.maxBytes.None? ==> gone == {}
  {
    hide Marked, Live, Stale, Unused, Before, RowOf, Total;
  }

  /** Of a live entry evicted and one kept, the evicted one comes first. */
  lemma EarlierGoes(s: Store, used: map<Bytes, nat>, live: set<Bytes>, cap: Option<nat>, gone: set<Bytes>, k: Bytes, l: Bytes)
    requires Evicted(s.scans, used, live, cap, gone) && k in gone && l in live && l !in gone
    ensures Before(RowOf(s.scans, used, k), RowOf(s.scans, used, l))
  {
    BeforeTotal(RowOf(s.scans, used, k), RowOf(s.scans, used, l));
    RowKeys(s.scans, used, k, l);
    hide Before, RowOf, Total;
  }

  lemma LastIs(s: Store, used: map<Bytes, nat>, live: set<Bytes>, cap: Option<nat>, gone: set<Bytes>, k: Bytes)
    requires Evicted(s.scans, used, live, cap, gone) && cap.Some? && k in gone && k in s.scans
    requires IsLast(s.scans, used, gone, k)
    ensures Total(s.scans, live - gone) + |k| + |s.scans[k]| > cap.value
  {
    hide IsLast, Before, Total;
  }
}
