/** The result cache: reports by key, never overwritten, and swept once at the end of a run, by age
    and by size. */
module ResultCache {
  import opened Options
  import opened Octets
  import opened CacheKeys
  import opened Retention
  import opened Finite

  /** Reading and writing reports as bytes. */
  datatype Codec<!R> = Codec(encode: R -> Bytes, decode: Bytes -> Option<R>)

  datatype Answer<+R> = Hit(report: R) | Miss | DecodeError(ruleset: Word)

  datatype PutOutcome = Stored | AlreadyPresent

  datatype Stats = Stats(entries: nat, stale: nat, bytes: nat)

  class Cache<R> {
    const codec: Codec<R>
    var scans: map<Bytes, Bytes>
    var lastUsed: map<Bytes, nat>
    /** Keys served during this run. */
    var touched: set<Bytes>

    ghost predicate Valid()
      reads this
    {
      Contents().Valid() && touched <= scans.Keys
    }

    ghost function Contents(): Store
      reads this
    {
      Store(scans, lastUsed)
    }

    /** Opens what an earlier run left behind. */
    constructor (codec: Codec<R>, scans: map<Bytes, Bytes>, lastUsed: map<Bytes, nat>)
      requires lastUsed.Keys <= scans.Keys
      ensures Valid() && Contents() == Store(scans, lastUsed) && touched == {} && this.codec == codec
    {
      this.codec := codec;
      this.scans := scans;
      this.lastUsed := lastUsed;
      touched := {};
    }

    /** A stored entry that will not decode is an error, not a miss; only a hit is a use. */
    method Get(key: CacheKey) returns (r: Answer<R>)
      requires Valid()
      modifies this`touched
      ensures Valid() && Contents() == old(Contents())
      ensures r.Miss? <==> KeyBytes(key) !in scans
      ensures r.Hit? <==> KeyBytes(key) in scans && codec.decode(scans[KeyBytes(key)]).Some?
      ensures r.Hit? ==> codec.decode(scans[KeyBytes(key)]) == Some(r.report)
      ensures r.DecodeError? ==> r.ruleset == key.ruleset
      ensures touched == if r.Hit? then old(touched) + {KeyBytes(key)} else old(touched)
    {
      var bytes := KeyBytes(key);
      if bytes !in scans {
        return Miss;
      }
      var report := codec.decode(scans[bytes]);
      if report.None? {
        return DecodeError(key.ruleset);
      }
      touched := touched + {bytes};
      return Hit(report.value);
    }

    /** Never overwrites; a stored entry counts as used on its day. */
    method Put(key: CacheKey, report: R, day: nat) returns (o: PutOutcome)
      requires Valid()
      modifies this`scans, this`lastUsed
      ensures Valid() && (o.AlreadyPresent? <==> KeyBytes(key) in old(scans))
      ensures o.AlreadyPresent? ==> Contents() == old(Contents())
      ensures o.Stored? ==> scans == old(scans)[KeyBytes(key) := codec.encode(report)] && lastUsed == old(lastUsed)[KeyBytes(key) := day]
    {
      var bytes := KeyBytes(key);
      var encoded := codec.encode(report);
      if bytes in scans {
        return AlreadyPresent;
      }
      scans := scans[bytes := encoded];
      lastUsed := lastUsed[bytes := day];
      return Stored;
    }

    /** Stale here is another schema: an older ruleset's entries are not counted. */
    method ReadStats(schema: Word) returns (r: Stats)
      ensures r.entries == |scans.Keys| && r.bytes == Total(scans, scans.Keys)
      ensures r.stale == |OtherSchema(scans.Keys, schema)|
    {
      hide *;
      var table := scans;
      var entries, stale, bytes := 0, 0, 0;
      var rest := table.Keys;
      ghost var done: set<Bytes> := {};
      OtherSchemaNone(schema);
      while rest != {}
        invariant rest + done == table.Keys && rest !! done && entries == |done|
        invariant stale == |OtherSchema(done, schema)|
        invariant bytes + Total(table, rest) == Total(table, table.Keys)
        decreases rest
      {
        var k :| k in rest;
        TotalWithout(table, rest, k);
        OtherSchemaNext(done, k, schema);
        assert rest - {k} + (done + {k}) == table.Keys;
        rest := rest - {k};
        done := done + {k};
        entries := entries + 1;
        bytes := bytes + EntrySize(table, k);
        if !CurrentShape(k, schema, None) {
          stale := stale + 1;
        }
      }
      TotalNone(table);
      assert done == table.Keys;
      r := Stats(entries, stale, bytes);
    }

    /** Records today as the last use of every entry served; an entry already marked costs no write. */
    method MarkTouched(day: nat) returns (count: nat)
      modifies this`lastUsed
      ensures lastUsed == MarkAll(old(lastUsed), touched, day) && count == |ToWrite(old(lastUsed), touched, day)|
    {
      count := 0;
      var rest := touched;
      ghost var done: set<Bytes> := {};
      ghost var used := lastUsed;
      MarkNone(used, day);
      while rest != {}
        invariant rest + done == touched && rest !! done
        invariant lastUsed == MarkAll(used, done, day) && count == |ToWrite(used, done, day)|
        decreases rest
      {
        hide *;
        var k :| k in rest;
        MarkNext(used, done, k, day);
        rest := rest - {k};
        done := done + {k};
        if !(k in lastUsed && lastUsed[k] == day) {
          lastUsed := lastUsed[k := day];
          count := count + 1;
        }
      }
      assert done == touched;
    }

    /** One row per entry; an entry never marked counts as used today, and is marked. */
    method CollectRows(day: nat) returns (rows: seq<Row>)
      modifies this`lastUsed
      ensures lastUsed == old(lastUsed) + Unmarked(old(lastUsed), scans.Keys, day)
      ensures RowsOf(rows, scans, lastUsed, scans.Keys)
    {
      hide *;
      rows := [];
      var table, marked := scans, lastUsed;
      var rest := table.Keys;
      var unmarked: map<Bytes, nat> := map[];
      ghost var used := marked + Unmarked(marked, table.Keys, day);
      ghost var done: set<Bytes> := {};
      NoRows(table, used, marked, day);
      while rest != {}
        invariant rest + done == table.Keys && rest !! done
        invariant lastUsed == marked && unmarked == Unmarked(marked, done, day)
        invariant RowsOf(rows, table, used, done)
        decreases rest
      {
        var k :| k in rest;
        var last := if k in marked then marked[k] else day;
        UnmarkedNext(marked, done, k, day);
        NextRow(table, marked, k, day);
        AddRow(rows, table, used, done, k);
        if k !in marked {
          unmarked := unmarked[k := day];
        }
        rows := rows + [Row(k, last, EntrySize(table, k))];
        rest := rest - {k};
        done := done + {k};
      }
      assert done == table.Keys;
      lastUsed := lastUsed + unmarked;
    }

    /** Ends a run: marks what was served, then drops the stale, the long unused and what does not
        fit, least recently used first. */
    method FinishOn(schema: Word, ruleset: Word, limits: Limits, day: nat) returns (sweep: Sweep, ghost gone: set<Bytes>)
      requires Valid()
      modifies this
      ensures Valid() && touched == {}
      ensures Swept(old(Contents()), old(touched), schema, ruleset, limits, day, Contents(), sweep, gone)
    {
      ghost var s, served := Contents(), touched;
      var count := MarkTouched(day);
      touched := {};
      var rows := CollectRows(day);
      MarkedAll(s, served, day);
      hide *;
      var stale, unused, evicted := Plan(rows, scans, s, served, schema, ruleset, limits, day);
      gone := evicted;
      var removed := stale + unused + evicted;
      UsedKeys(s, served, day);
      scans := scans - removed;
      lastUsed := lastUsed - removed;
      sweep := Sweep(count, |stale|, |unused|, |evicted|);
      MadeSweep(s, served, schema, ruleset, limits, day, Store(scans, lastUsed), sweep, gone);
      StillValid(this);
    }
  }

  lemma StillValid<R>(c: Cache<R>)
    requires c.lastUsed.Keys <= c.scans.Keys && c.touched == {}
    ensures c.Valid() && c.Contents() == Store(c.scans, c.lastUsed)
  {
  }

  /** What a sweep removes, and why. */
  method Plan(rows: seq<Row>, scans: map<Bytes, Bytes>, ghost s: Store, ghost touched: set<Bytes>, schema: Word, ruleset: Word, limits: Limits, day: nat)
    returns (stale: set<Bytes>, unused: set<Bytes>, evicted: set<Bytes>)
    requires s.Valid() && touched <= s.scans.Keys && s.scans == scans
    requires RowsOf(rows, scans, Marked(s, touched, day), scans.Keys)
    ensures stale == Stale(s, schema, ruleset) && unused == Unused(s, Marked(s, touched, day), schema, ruleset, limits.maxAgeDays, day)
    ensures Evicted(scans, Marked(s, touched, day), Live(s, Marked(s, touched, day), schema, ruleset, limits, day), limits.maxBytes, evicted)
  {
    ghost var used := Marked(s, touched, day);
    UsedKeys(s, touched, day);
    hide *;
    stale, unused := Classify(rows, scans, used, schema, ruleset, limits.maxAgeDays, day, s);
    LiveIs(s, used, schema, ruleset, limits, day);
    if limits.maxBytes.Some? {
      evicted := Evict(rows, scans, used, stale + unused, limits.maxBytes.value);
    } else {
      evicted := {};
      NothingEvicted(scans, used, Live(s, used, schema, ruleset, limits, day));
    }
  }

  lemma UsedKeys(s: Store, touched: set<Bytes>, day: nat)
    requires s.Valid() && touched <= s.scans.Keys
    ensures Marked(s, touched, day).Keys == s.scans.Keys
  {
  }

  lemma LiveIs(s: Store, used: map<Bytes, nat>, schema: Word, ruleset: Word, limits: Limits, day: nat)
    ensures Live(s, used, schema, ruleset, limits, day)
         == s.scans.Keys - (Stale(s, schema, ruleset) + Unused(s, used, schema, ruleset, limits.maxAgeDays, day))
  {
    hide Stale, Unused;
  }

  lemma MadeSweep(s: Store, touched: set<Bytes>, schema: Word, ruleset: Word, limits: Limits, day: nat, s': Store, sweep: Sweep, gone: set<Bytes>)
    requires var used := Marked(s, touched, day);
             var stale, unused := Stale(s, schema, ruleset), Unused(s, used, schema, ruleset, limits.maxAgeDays, day);
             && Evicted(s.scans, used, Live(s, used, schema, ruleset, limits, day), limits.maxBytes, gone)
             && s'.scans == s.scans - (stale + unused + gone) && s'.lastUsed == used - (stale + unused + gone)
             && sweep.removedStale == |stale| && sweep.removedUnused == |unused| && sweep.removedOverCap == |gone|
             && sweep.touched == |ToWrite(s.lastUsed, touched, day)|
    ensures Swept(s, touched, schema, ruleset, limits, day, s', sweep, gone)
  {
    hide Marked, Stale, Unused, Evicted, Live;
  }

  /** `rows` lists the entries of `keys`, each once. */
  ghost predicate RowsOf(rows: seq<Row>, scans: map<Bytes, Bytes>, used: map<Bytes, nat>, keys: set<Bytes>) {
    && (forall i, j :: 0 <= i < j < |rows| ==> rows[i].key != rows[j].key)
    && (forall i :: 0 <= i < |rows| ==> rows[i].key in keys && rows[i] == RowOf(scans, used, rows[i].key))
    && (forall k :: k in keys ==> exists i :: 0 <= i < |rows| && rows[i].key == k)
  }

  /** The entries never marked count as used today. */
  function Unmarked(used: map<Bytes, nat>, keys: set<Bytes>, day: nat): map<Bytes, nat> {
    map k | k in keys - used.Keys :: day
  }

  lemma UnmarkedNext(used: map<Bytes, nat>, keys: set<Bytes>, k: Bytes, day: nat)
    requires k !in keys
    ensures Unmarked(used, keys + {k}, day) == if k in used then Unmarked(used, keys, day) else Unmarked(used, keys, day)[k := day]
  {
  }

  lemma NextRow(scans: map<Bytes, Bytes>, used: map<Bytes, nat>, k: Bytes, day: nat)
    requires k in scans
    ensures RowOf(scans, used + Unmarked(used, scans.Keys, day), k) == Row(k, if k in used then used[k] else day, EntrySize(scans, k))
  {
  }

  lemma NoRows(scans: map<Bytes, Bytes>, used: map<Bytes, nat>, marked: map<Bytes, nat>, day: nat)
    ensures RowsOf([], scans, used, {}) && Unmarked(marked, {}, day) == map[]
  {
  }

  lemma AddRow(rows: seq<Row>, scans: map<Bytes, Bytes>, used: map<Bytes, nat>, keys: set<Bytes>, k: Bytes)
    requires RowsOf(rows, scans, used, keys) && k !in keys
    ensures RowsOf(rows + [RowOf(scans, used, k)], scans, used, keys + {k})
  {
    var more := rows + [RowOf(scans, used, k)];
    forall j | j in keys + {k} ensures exists i :: 0 <= i < |more| && more[i].key == j {
      if j == k {
        assert more[|rows|].key == k;
      } else {
        var i :| 0 <= i < |rows| && rows[i].key == j;
        assert more[i].key == j;
      }
    }
  }

  function MarkAll(used: map<Bytes, nat>, keys: set<Bytes>, day: nat): map<Bytes, nat> {
    used + map k | k in keys :: day
  }

  function ToWrite(used: map<Bytes, nat>, keys: set<Bytes>, day: nat): set<Bytes> {
    set k | k in keys && !(k in used && used[k] == day)
  }

  lemma MarkNone(used: map<Bytes, nat>, day: nat)
    ensures MarkAll(used, {}, day) == used && ToWrite(used, {}, day) == {}
  {
  }

  lemma MarkNext(used: map<Bytes, nat>, keys: set<Bytes>, k: Bytes, day: nat)
    requires k !in keys
    ensures var m := MarkAll(used, keys, day);
            if k in m && m[k] == day
            then MarkAll(used, keys + {k}, day) == m && ToWrite(used, keys + {k}, day) == ToWrite(used, keys, day)
            else MarkAll(used, keys + {k}, day) == m[k := day] && |ToWrite(used, keys + {k}, day)| == |ToWrite(used, keys, day)| + 1
  {
    MarkMore(used, keys, k, day);
    WriteMore(used, keys, k, day);
    hide ToWrite, MarkAll;
  }

  lemma MarkMore(used: map<Bytes, nat>, keys: set<Bytes>, k: Bytes, day: nat)
    requires k !in keys
    ensures MarkAll(used, keys + {k}, day) == MarkAll(used, keys, day)[k := day]
    ensures var m := MarkAll(used, keys, day); (k in m && m[k] == day) <==> (k in used && used[k] == day)
    ensures var m := MarkAll(used, keys, day); k in m && m[k] == day ==> m[k := day] == m
  {
  }

  lemma WriteMore(used: map<Bytes, nat>, keys: set<Bytes>, k: Bytes, day: nat)
    requires k !in keys
    ensures if k in used && used[k] == day then ToWrite(used, keys + {k}, day) == ToWrite(used, keys, day)
            else |ToWrite(used, keys + {k}, day)| == |ToWrite(used, keys, day)| + 1
  {
    if k in used && used[k] == day {
      assert ToWrite(used, keys + {k}, day) == ToWrite(used, keys, day);
    } else {
      assert ToWrite(used, keys + {k}, day) == ToWrite(used, keys, day) + {k};
    }
  }

  lemma TotalNone(scans: map<Bytes, Bytes>)
    ensures Total(scans, {}) == 0
  {
  }

  lemma OtherSchemaNone(schema: Word)
    ensures OtherSchema({}, schema) == {}
  {
  }

  lemma OtherSchemaNext(keys: set<Bytes>, k: Bytes, schema: Word)
    requires k !in keys
    ensures |OtherSchema(keys + {k}, schema)| == |OtherSchema(keys, schema)| + if CurrentShape(k, schema, None) then 0 else 1
  {
    hide CurrentShape;
    if CurrentShape(k, schema, None) {
      assert OtherSchema(keys + {k}, schema) == OtherSchema(keys, schema);
    } else {
      assert OtherSchema(keys + {k}, schema) == OtherSchema(keys, schema) + {k};
    }
  }

  lemma MarkedAll(s: Store, touched: set<Bytes>, day: nat)
    requires s.Valid() && touched <= s.scans.Keys
    ensures var m := MarkAll(s.lastUsed, touched, day);
            m + Unmarked(m, s.scans.Keys, day) == Marked(s, touched, day)
  {
    var m := MarkAll(s.lastUsed, touched, day);
    var all := m + Unmarked(m, s.scans.Keys, day);
    assert all.Keys == Marked(s, touched, day).Keys;
    assert forall k :: k in all ==> all[k] == Marked(s, touched, day)[k];
  }

  lemma NothingEvicted(scans: map<Bytes, Bytes>, used: map<Bytes, nat>, live: set<Bytes>)
    ensures Evicted(scans, used, live, None, {})
  {
  }

  /** The entries of another shape, and the current ones unused for too long. */
  method Classify(rows: seq<Row>, scans: map<Bytes, Bytes>, ghost used: map<Bytes, nat>, schema: Word, ruleset: Word,
                  limit: Option<nat>, day: nat, ghost s: Store)
    returns (stale: set<Bytes>, unused: set<Bytes>)
    requires RowsOf(rows, scans, used, scans.Keys) && used.Keys == scans.Keys && s.scans == scans
    ensures stale == Stale(s, schema, ruleset) && unused == Unused(s, used, schema, ruleset, limit, day)
  {
    stale, unused := {}, {};
    for i := 0 to |rows|
      invariant forall k :: k in stale <==> !CurrentShape(k, schema, Some(ruleset)) && Listed(rows, i, k)
      invariant forall k :: k in unused <==> CurrentShape(k, schema, Some(ruleset)) && k in used && TooOld(limit, day, used[k]) && Listed(rows, i, k)
    {
      hide CurrentShape, TooOld;
      assert rows[i].last == used[rows[i].key];
      if !CurrentShape(rows[i].key, schema, Some(ruleset)) {
        stale := stale + {rows[i].key};
      } else if TooOld(limit, day, rows[i].last) {
        unused := unused + {rows[i].key};
      }
    }
    hide CurrentShape, TooOld;
    forall k ensures Listed(rows, |rows|, k) <==> k in scans {
    }
  }

  ghost predicate Listed(rows: seq<Row>, i: nat, k: Bytes) {
    exists j :: 0 <= j < i && j < |rows| && rows[j].key == k
  }

  // ---- eviction ----

  ghost predicate Sorted(rows: seq<Row>) {
    forall i, j :: 0 <= i < j < |rows| ==> Before(rows[i], rows[j])
  }

  /** Puts a row where it belongs among sorted ones. */
  method InsertRow(rows: seq<Row>, r: Row, ghost scans: map<Bytes, Bytes>, ghost used: map<Bytes, nat>, ghost keys: set<Bytes>) returns (more: seq<Row>)
    requires Sorted(rows) && RowsOf(rows, scans, used, keys) && r == RowOf(scans, used, r.key) && r.key !in keys
    ensures Sorted(more) && RowsOf(more, scans, used, keys + {r.key})
  {
    var at := 0;
    while at < |rows| && Before(rows[at], r)
      invariant at <= |rows| && forall i :: 0 <= i < at ==> Before(rows[i], r)
    {
      at := at + 1;
    }
    more := rows[..at] + [r] + rows[at..];
    InsertedSorted(rows, at, r);
    InsertedRows(rows, at, r, scans, used, keys);
  }

  lemma InsertedSorted(rows: seq<Row>, at: nat, r: Row)
    requires Sorted(rows) && at <= |rows| && (forall i :: 0 <= i < at ==> Before(rows[i], r))
    requires at < |rows| ==> !Before(rows[at], r)
    requires forall i :: 0 <= i < |rows| ==> rows[i].key != r.key
    ensures Sorted(rows[..at] + [r] + rows[at..])
  {
    var more := rows[..at] + [r] + rows[at..];
    forall i | at <= i < |rows| ensures Before(r, rows[i]) {
      BeforeTotal(rows[at], r);
      if i > at {
        BeforeTrans(r, rows[at], rows[i]);
      }
    }
    hide Before;
    forall i, j | 0 <= i < j < |more| ensures Before(more[i], more[j]) {
      if i < at && j > at {
        assert Before(rows[i], rows[j - 1]);
      }
    }
  }

  lemma InsertedRows(rows: seq<Row>, at: nat, r: Row, scans: map<Bytes, Bytes>, used: map<Bytes, nat>, keys: set<Bytes>)
    requires RowsOf(rows, scans, used, keys) && r == RowOf(scans, used, r.key) && r.key !in keys && at <= |rows|
    ensures RowsOf(rows[..at] + [r] + rows[at..], scans, used, keys + {r.key})
  {
    var more := rows[..at] + [r] + rows[at..];
    hide RowOf;
    InsertedKeys(rows, at, r, more, keys);
  }

  /** The rows of `more` are `r` and those of `rows`, in which `r`'s key is not. */
  lemma InsertedKeys(rows: seq<Row>, at: nat, r: Row, more: seq<Row>, keys: set<Bytes>)
    requires at <= |rows| && |more| == |rows| + 1 && more[at] == r
    requires forall i :: 0 <= i < |more| && i != at ==> more[i] == rows[if i < at then i else i - 1]
    requires r.key !in keys && (forall i :: 0 <= i < |rows| ==> rows[i].key in keys)
    requires forall k :: k in keys ==> exists i :: 0 <= i < |rows| && rows[i].key == k
    requires forall i, j :: 0 <= i < j < |rows| ==> rows[i].key != rows[j].key
    ensures forall i, j :: 0 <= i < j < |more| ==> more[i].key != more[j].key
    ensures forall k :: k in keys + {r.key} ==> exists i :: 0 <= i < |more| && more[i].key == k
  {
    forall k | k in keys + {r.key} ensures exists i :: 0 <= i < |more| && more[i].key == k {
      if k == r.key {
        assert more[at].key == k;
      } else {
        var i :| 0 <= i < |rows| && rows[i].key == k;
        assert more[if i < at then i else i + 1].key == k;
      }
    }
  }

  /** The rows not removed already, in eviction order, and the bytes they take. */
  method SortLive(rows: seq<Row>, ghost scans: map<Bytes, Bytes>, ghost used: map<Bytes, nat>, removed: set<Bytes>)
    returns (live: seq<Row>, total: nat)
    requires RowsOf(rows, scans, used, scans.Keys)
    ensures Sorted(live) && RowsOf(live, scans, used, scans.Keys - removed) && total == Total(scans, scans.Keys - removed)
  {
    live, total := [], 0;
    ghost var keys: set<Bytes> := {};
    TotalNone(scans);
    for i := 0 to |rows|
      invariant Sorted(live) && RowsOf(live, scans, used, keys) && total == Total(scans, keys)
      invariant forall k :: k in keys <==> k !in removed && Listed(rows, i, k)
    {
      if rows[i].key !in removed {
        LiveRow(rows, i, scans, used, keys, removed);
        hide Sorted, RowsOf, Total, Listed;
        live := InsertRow(live, rows[i], scans, used, keys);
        TotalWithout(scans, keys + {rows[i].key}, rows[i].key);
        assert keys + {rows[i].key} - {rows[i].key} == keys;
        keys := keys + {rows[i].key};
        total := total + rows[i].size;
      } else {
        LiveSkip(rows, i, removed);
      }
    }
    forall k ensures Listed(rows, |rows|, k) <==> k in scans {
    }
    assert keys == scans.Keys - removed;
  }

  lemma LiveRow(rows: seq<Row>, i: nat, scans: map<Bytes, Bytes>, used: map<Bytes, nat>, keys: set<Bytes>, removed: set<Bytes>)
    requires i < |rows| && RowsOf(rows, scans, used, scans.Keys) && forall k :: k in keys <==> k !in removed && Listed(rows, i, k)
    ensures rows[i].key !in keys && rows[i] == RowOf(scans, used, rows[i].key) && rows[i].size == EntrySize(scans, rows[i].key)
    ensures forall k :: Listed(rows, i + 1, k) <==> Listed(rows, i, k) || k == rows[i].key
  {
    LiveSkip(rows, i, removed);
  }

  lemma LiveSkip(rows: seq<Row>, i: nat, removed: set<Bytes>)
    requires i < |rows|
    ensures forall k :: Listed(rows, i + 1, k) <==> Listed(rows, i, k) || k == rows[i].key
  {
    forall k ensures Listed(rows, i + 1, k) <==> Listed(rows, i, k) || k == rows[i].key {
      if Listed(rows, i, k) {
        var j :| 0 <= j < i && j < |rows| && rows[j].key == k;
      }
      assert k == rows[i].key ==> Listed(rows, i + 1, k);
    }
  }

  function KeysOf(rows: seq<Row>): set<Bytes> {
    set r | r in rows :: r.key
  }

  /** Removes from the front of the eviction order until the rest fits. */
  method Evict(rows: seq<Row>, ghost scans: map<Bytes, Bytes>, ghost used: map<Bytes, nat>, removed: set<Bytes>, cap: nat) returns (gone: set<Bytes>)
    requires RowsOf(rows, scans, used, scans.Keys)
    ensures Evicted(scans, used, scans.Keys - removed, Some(cap), gone)
  {
    hide *;
    var live: seq<Row>;
    var total: nat;
    live, total := SortLive(rows, scans, used, removed);
    ghost var keys := scans.Keys - removed;
    gone := {};
    var i := 0;
    EvictNothing(live, scans, used, keys, cap);
    while i < |live| && total > cap
      invariant i <= |live| && Evicting(live, scans, used, keys, cap, i, gone, total)
    {
      EvictNext(live, scans, used, keys, cap, i, gone, total);
      gone := gone + {live[i].key};
      total := total - live[i].size;
      i := i + 1;
    }
    EvictDone(live, scans, used, keys, cap, i, gone, total);
  }

  /** The first `i` rows are gone, the rest take `total`, and without the last one gone it would
      still be too much. */
  ghost predicate Evicting(live: seq<Row>, scans: map<Bytes, Bytes>, used: map<Bytes, nat>, keys: set<Bytes>, cap: nat, i: nat, gone: set<Bytes>, total: nat) {
    && i <= |live| && gone <= keys && gone == KeysOf(live[..i]) && total == Total(scans, keys - gone)
    && (i > 0 ==> total + live[i - 1].size > cap)
  }

  lemma EvictNothing(live: seq<Row>, scans: map<Bytes, Bytes>, used: map<Bytes, nat>, keys: set<Bytes>, cap: nat)
    ensures Evicting(live, scans, used, keys, cap, 0, {}, Total(scans, keys))
  {
    assert keys - {} == keys;
  }

  lemma EvictNext(live: seq<Row>, scans: map<Bytes, Bytes>, used: map<Bytes, nat>, keys: set<Bytes>, cap: nat, i: nat, gone: set<Bytes>, total: nat)
    requires RowsOf(live, scans, used, keys) && i < |live| && total > cap && Evicting(live, scans, used, keys, cap, i, gone, total)
    ensures total >= live[i].size && Evicting(live, scans, used, keys, cap, i + 1, gone + {live[i].key}, total - live[i].size)
  {
    var k := live[i].key;
    assert k in keys && k !in gone;
    TotalWithout(scans, keys - gone, k);
    assert keys - gone - {k} == keys - (gone + {k});
    assert live[i].size == EntrySize(scans, k);
    assert live[..i + 1] == live[..i] + [live[i]];
    hide Total, EntrySize, RowsOf;
    assert KeysOf(live[..i + 1]) == KeysOf(live[..i]) + {k};
  }

  lemma EvictDone(live: seq<Row>, scans: map<Bytes, Bytes>, used: map<Bytes, nat>, keys: set<Bytes>, cap: nat, i: nat, gone: set<Bytes>, total: nat)
    requires Sorted(live) && RowsOf(live, scans, used, keys) && Evicting(live, scans, used, keys, cap, i, gone, total)
    requires i == |live| || total <= cap
    ensures Evicted(scans, used, keys, Some(cap), gone)
  {
    Prefix(live, scans, used, keys, i);
    if i == |live| {
      assert gone == keys by {
        forall k | k in keys ensures k in gone {
          var j :| 0 <= j < |live| && live[j].key == k;
          assert live[j] in live[..i];
        }
      }
      assert keys - gone == {};
    }
    forall k | IsLast(scans, used, gone, k) ensures Total(scans, keys - gone) + EntrySize(scans, k) > cap {
      LastRow(live, scans, used, keys, i, k);
    }
    hide Total, Before, RowOf, EntrySize;
  }

  lemma Prefix(live: seq<Row>, scans: map<Bytes, Bytes>, used: map<Bytes, nat>, keys: set<Bytes>, i: nat)
    requires Sorted(live) && RowsOf(live, scans, used, keys) && i <= |live|
    ensures forall k, l :: k in KeysOf(live[..i]) && l in keys && Before(RowOf(scans, used, l), RowOf(scans, used, k)) ==> l in KeysOf(live[..i])
  {
    forall k, l | k in KeysOf(live[..i]) && l in keys && Before(RowOf(scans, used, l), RowOf(scans, used, k)) ensures l in KeysOf(live[..i]) {
      var a :| 0 <= a < i && live[a].key == k;
      var b :| 0 <= b < |live| && live[b].key == l;
      if b < i {
        assert live[b] in live[..i];
      } else {
        assert Before(live[a], live[b]);
        BeforeTotal(live[a], live[b]);
      }
    }
  }

  lemma LastRow(live: seq<Row>, scans: map<Bytes, Bytes>, used: map<Bytes, nat>, keys: set<Bytes>, i: nat, k: Bytes)
    requires Sorted(live) && RowsOf(live, scans, used, keys) && i <= |live| && IsLast(scans, used, KeysOf(live[..i]), k)
    ensures i > 0 && live[i - 1].key == k && live[i - 1].size == EntrySize(scans, k)
  {
    var a :| 0 <= a < i && live[a].key == k;
    if a != i - 1 {
      assert live[i - 1] in live[..i];
      assert Before(live[a], live[i - 1]);
      BeforeTotal(live[a], live[i - 1]);
    }
  }
}
