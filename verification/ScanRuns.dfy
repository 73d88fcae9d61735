/** Runs that scan through the cache: however they go, a served report is a fresh one. */
module ScanRuns {
  import opened Options
  import opened Octets
  import opened CacheKeys
  import opened Retention
  import opened ResultCache

  /** The options a report depends on. */
  datatype Settings = Settings(mode: nat, minConfidence: nat, extract: nat)

  /** The versions of the program that runs. */
  datatype Build = Build(ruleset: Word, schema: Word)

  /** What a path turns out to be. */
  datatype Input = Missing(path: string) | Directory(path: string, tree: nat) | NotSdist(name: string) | Sdist(name: string, content: Bytes)

  datatype ScanError = NotFound | AnalysisFailed(code: nat) | CacheDecode(ruleset: Word) | CacheUnavailable

  datatype Outcome<+R> = Report(report: R) | Failed(error: ScanError)

  /** The deterministic parts: hashing, analysing without a cache, the file name a report carries,
      and report encoding. */
  datatype Scanner<!R> = Scanner(digest: Bytes -> Digest, analyse: (Input, Settings, Build) -> Outcome<R>, sourceOf: R -> string,
                                 codec: Codec<R>, defaults: Settings) {
    /** A report names the file it was made from. */
    ghost predicate NamesSources() {
      forall f: Input, s, b :: f.Sdist? && this.analyse(f, s, b).Report? ==> this.sourceOf(this.analyse(f, s, b).report) == f.name
    }

    ghost predicate Faithful() {
      forall k: Input, b :: this.analyse(k, defaults, b).Report? ==>
        this.codec.decode(this.codec.encode(this.analyse(k, defaults, b).report)) == Some(this.analyse(k, defaults, b).report)
    }

    /** The key says nothing about the settings, so only the default ones may use it. */
    predicate Cacheable(s: Settings) {
      s == defaults
    }

    function KeyFor(input: Input, build: Build): CacheKey
      requires input.Sdist?
    {
      CacheKey(this.digest(input.content), build.ruleset, build.schema)
    }
  }

  /** Among the files scanned, equal digests mean the same bytes under the same name. */
  ghost predicate SameNames<R>(sc: Scanner<R>, files: set<Input>) {
    forall f, g :: f in files && g in files && f.Sdist? && g.Sdist? && sc.digest(f.content) == sc.digest(g.content) ==> f == g
  }

  /** `bytes`, stored under `key`, is the fresh report of one of the files at some versions. */
  ghost predicate HonestEntry<R>(sc: Scanner<R>, files: set<Input>, key: Bytes, bytes: Bytes) {
    exists f, b :: f in files && f.Sdist? && key == KeyBytes(sc.KeyFor(f, b)) && sc.analyse(f, sc.defaults, b).Report?
      && sc.codec.decode(bytes) == Some(sc.analyse(f, sc.defaults, b).report)
  }

  ghost predicate Honest<R>(sc: Scanner<R>, files: set<Input>, scans: map<Bytes, Bytes>) {
    forall k :: k in scans ==> HonestEntry(sc, files, k, scans[k])
  }

  /** What an honest cache has for a file is the file's fresh report. */
  lemma HonestServesFresh<R>(sc: Scanner<R>, files: set<Input>, scans: map<Bytes, Bytes>, f: Input, b: Build)
    requires SameNames(sc, files) && Honest(sc, files, scans) && f in files && f.Sdist? && KeyBytes(sc.KeyFor(f, b)) in scans
    ensures sc.analyse(f, sc.defaults, b).Report?
    ensures sc.codec.decode(scans[KeyBytes(sc.KeyFor(f, b))]) == Some(sc.analyse(f, sc.defaults, b).report)
  {
    var key := KeyBytes(sc.KeyFor(f, b));
    assert HonestEntry(sc, files, key, scans[key]);
    var g, c :| g in files && g.Sdist? && key == KeyBytes(sc.KeyFor(g, c)) && sc.analyse(g, sc.defaults, c).Report?
                && sc.codec.decode(scans[key]) == Some(sc.analyse(g, sc.defaults, c).report);
    hide KeyBytes, HonestEntry;
    KeysApart(sc.KeyFor(f, b), sc.KeyFor(g, c));
  }

  /** Equal bytes under another name are served the first name's report, which is fresh for the
      second exactly when the two names are the same. */
  lemma RenamedIsServedTheOldName<R>(sc: Scanner<R>, scans: map<Bytes, Bytes>, f: Input, g: Input, b: Build)
    requires sc.NamesSources() && f.Sdist? && g.Sdist? && f.content == g.content
    requires Honest(sc, {f}, scans) && KeyBytes(sc.KeyFor(g, b)) in scans
    ensures var served := sc.codec.decode(scans[KeyBytes(sc.KeyFor(g, b))]);
            && sc.analyse(f, sc.defaults, b).Report? && served == Some(sc.analyse(f, sc.defaults, b).report)
            && (sc.analyse(g, sc.defaults, b) == Report(served.value) <==> f.name == g.name)
  {
    HonestServesFresh(sc, {f}, scans, f, b);
    if f.name == g.name {
      assert f == g;
    }
  }

  // ---- one worker's two accesses ----

  datatype Worker<+R> = Waiting | Analysed(report: R) | Finished(outcome: Outcome<R>, fromCache: bool)

  /** Before extracting: a hit costs one read of the file and nothing else. */
  method Probe<R>(sc: Scanner<R>, cache: Cache<R>, input: Input, build: Build) returns (w: Worker<R>)
    requires cache.Valid() && cache.codec == sc.codec && input.Sdist?
    modifies cache`touched
    ensures cache.Valid() && cache.Contents() == old(cache.Contents())
    ensures w == Probed(sc, cache.scans, input, build)
  {
    var answer := cache.Get(sc.KeyFor(input, build));
    match answer
    case Hit(report) =>
      w := Finished(Report(report), true);
    case DecodeError(ruleset) =>
      w := Finished(Failed(CacheDecode(ruleset)), false);
    case Miss =>
      var outcome := sc.analyse(input, sc.defaults, build);
      w := if outcome.Report? then Analysed(outcome.report) else Finished(outcome, false);
  }

  /** What a worker has after looking its file up: the report stored under its key, or its own. */
  function Probed<R>(sc: Scanner<R>, scans: map<Bytes, Bytes>, input: Input, build: Build): Worker<R>
    requires input.Sdist?
  {
    var key := KeyBytes(sc.KeyFor(input, build));
    if key in scans then
      match sc.codec.decode(scans[key])
      case Some(report) => Finished(Report(report), true)
      case None => Finished(Failed(CacheDecode(build.ruleset)), false)
    else
      match sc.analyse(input, sc.defaults, build)
      case Report(report) => Analysed(report)
      case Failed(error) => Finished(Failed(error), false)
  }

  lemma ProbedIsFresh<R>(sc: Scanner<R>, scans: map<Bytes, Bytes>, input: Input, build: Build, files: set<Input>)
    requires input.Sdist? && input in files && SameNames(sc, files) && Honest(sc, files, scans)
    ensures var w := Probed(sc, scans, input, build);
            && (w.Finished? ==> w.outcome == sc.analyse(input, sc.defaults, build))
            && (w.Analysed? ==> sc.analyse(input, sc.defaults, build) == Report(w.report)) && !w.Waiting?
  {
    if KeyBytes(sc.KeyFor(input, build)) in scans {
      HonestServesFresh(sc, files, scans, input, build);
    }
    hide SameNames, Honest, KeyBytes;
  }

  /** Two runs of one program: the first scans a file into an empty cache, the second is given the
      same bytes under a name of its own. The second is served the first one's report, which is
      its own fresh one exactly when the names are the same. */
  method ScanRenamed<R>(sc: Scanner<R>, f: Input, g: Input, build: Build, day: nat) returns (first: Worker<R>, second: Worker<R>)
    requires sc.Faithful() && sc.NamesSources() && f.Sdist? && g.Sdist? && f.content == g.content
    requires sc.analyse(f, sc.defaults, build).Report?
    ensures first == Finished(sc.analyse(f, sc.defaults, build), false)
    ensures second == Finished(sc.analyse(f, sc.defaults, build), true)
    ensures second.outcome == sc.analyse(g, sc.defaults, build) <==> f.name == g.name
  {
    var run := new Cache(sc.codec, map[], map[]);
    first := Probe(sc, run, f, build);
    first := Deposit(sc, run, f, build, first.report, day, {f});
    var next := new Cache(sc.codec, run.scans, run.lastUsed);
    RenamedIsServedTheOldName(sc, next.scans, f, g, build);
    second := Probe(sc, next, g, build);
  }

  /** After analysing: another worker may have stored the same bytes meanwhile. */
  method Deposit<R>(sc: Scanner<R>, cache: Cache<R>, input: Input, build: Build, report: R, day: nat, ghost files: set<Input>) returns (w: Worker<R>)
    requires cache.Valid() && cache.codec == sc.codec && sc.Faithful() && input.Sdist? && input in files && Honest(sc, files, cache.scans)
    requires sc.analyse(input, sc.defaults, build) == Report(report)
    modifies cache`scans, cache`lastUsed
    ensures cache.Valid() && Honest(sc, files, cache.scans)
    ensures forall k :: k in old(cache.scans) ==> k in cache.scans && cache.scans[k] == old(cache.scans[k])
    ensures w == Finished(Report(report), false) && KeyBytes(sc.KeyFor(input, build)) in cache.scans
  {
    ghost var before := cache.scans;
    var key := sc.KeyFor(input, build);
    var _ := cache.Put(key, report, day);
    assert HonestEntry(sc, files, KeyBytes(key), sc.codec.encode(report));
    hide HonestEntry, KeyBytes;
    w := Finished(Report(report), false);
  }

  // ---- a batch ----

  datatype Opening = Opened | InUse | Damaged

  /** One run: the program and options it was started with, what it was asked to scan, how its
      workers were scheduled, and whether it lived to sweep the cache. */
  datatype RunConfig = RunConfig(build: Build, settings: Settings, named: bool, opening: Opening, inputs: seq<Input>, schedule: seq<nat>,
                                 day: nat, limits: Limits, finishes: bool)

  /** A finished worker has what a fresh scan gives. */
  ghost predicate Right<R>(sc: Scanner<R>, c: RunConfig, i: nat, w: Worker<R>)
    requires i < |c.inputs|
  {
    && (w.Finished? ==> w.outcome == sc.analyse(c.inputs[i], c.settings, c.build))
    && (w.Analysed? ==> sc.analyse(c.inputs[i], c.settings, c.build) == Report(w.report))
  }

  ghost predicate AllRight<R>(sc: Scanner<R>, c: RunConfig, ws: seq<Worker<R>>) {
    |ws| == |c.inputs| && forall i :: 0 <= i < |ws| ==> Right(sc, c, i, ws[i])
  }

  /** Everything the run could ask the cache for is among `files`. */
  ghost predicate Among(c: RunConfig, files: set<Input>) {
    forall i :: 0 <= i < |c.inputs| ==> c.inputs[i] in files
  }

  ghost predicate Sharing<R>(sc: Scanner<R>, c: RunConfig, files: set<Input>, cache: Cache<R>)
    reads cache
  {
    cache.Valid() && cache.codec == sc.codec && Honest(sc, files, cache.scans)
  }

  /** A worker that has not looked its file up does; one that has analysed it stores its report. */
  ghost predicate Stepped<R>(sc: Scanner<R>, c: RunConfig, i: nat, before: map<Bytes, Bytes>, after: map<Bytes, Bytes>, w: Worker<R>, w': Worker<R>)
    requires i < |c.inputs|
  {
    && (w.Finished? ==> w' == w) && (w.Analysed? ==> w' == Finished(Report(w.report), false))
    && (w.Waiting? && !c.inputs[i].Sdist? ==> w'.Finished? && !w'.fromCache)
    && (c.inputs[i].Sdist? && w.Waiting? ==> w' == Probed(sc, before, c.inputs[i], c.build))
    && (c.inputs[i].Sdist? && w.Analysed? ==> KeyBytes(sc.KeyFor(c.inputs[i], c.build)) in after)
  }

  /** A worker whose file had an entry is served it; one that has a report leaves an entry. */
  ghost predicate Served<R>(sc: Scanner<R>, c: RunConfig, i: nat, before: map<Bytes, Bytes>, after: map<Bytes, Bytes>, w: Worker<R>)
    requires i < |c.inputs|
  {
    c.inputs[i].Sdist? ==>
      var key := KeyBytes(sc.KeyFor(c.inputs[i], c.build));
      && (key in before ==> w.Waiting? || (w.Finished? && (w.outcome.Report? ==> w.fromCache)))
      && (w.Finished? && w.outcome.Report? ==> key in after)
  }

  ghost predicate AllServed<R>(sc: Scanner<R>, c: RunConfig, before: map<Bytes, Bytes>, after: map<Bytes, Bytes>, ws: seq<Worker<R>>) {
    |ws| == |c.inputs| && forall i :: 0 <= i < |ws| ==> Served(sc, c, i, before, after, ws[i])
  }

  lemma StepServes<R>(sc: Scanner<R>, c: RunConfig, i: nat, first: map<Bytes, Bytes>, before: map<Bytes, Bytes>, after: map<Bytes, Bytes>, w: Worker<R>, w': Worker<R>)
    requires i < |c.inputs| && first.Keys <= before.Keys <= after.Keys
    requires Served(sc, c, i, first, before, w) && Stepped(sc, c, i, before, after, w, w')
    ensures Served(sc, c, i, first, after, w')
  {
    hide KeyBytes;
  }

  lemma OthersServed<R>(sc: Scanner<R>, c: RunConfig, i: nat, first: map<Bytes, Bytes>, before: map<Bytes, Bytes>, after: map<Bytes, Bytes>, ws: seq<Worker<R>>, w': Worker<R>)
    requires i < |ws| && first.Keys <= before.Keys <= after.Keys && AllServed(sc, c, first, before, ws)
    requires Stepped(sc, c, i, before, after, ws[i], w')
    ensures AllServed(sc, c, first, after, ws[i := w'])
  {
    hide KeyBytes, Stepped;
    var more := ws[i := w'];
    forall j | 0 <= j < |more| ensures Served(sc, c, j, first, after, more[j]) {
      assert Served(sc, c, j, first, before, ws[j]);
      if j == i {
        StepServes(sc, c, i, first, before, after, ws[i], w');
      }
    }
  }

  lemma NoneYet<R>(sc: Scanner<R>, c: RunConfig, scans: map<Bytes, Bytes>)
    ensures AllServed(sc, c, scans, scans, seq(|c.inputs|, _ => Waiting))
  {
    hide KeyBytes;
  }

  /** One step of one worker on the shared cache. */
  method StepWorker<R>(sc: Scanner<R>, c: RunConfig, cache: Cache<R>, i: nat, w: Worker<R>, ghost files: set<Input>) returns (w': Worker<R>)
    requires sc.Faithful() && SameNames(sc, files) && Among(c, files) && c.settings == sc.defaults && i < |c.inputs|
    requires Sharing(sc, c, files, cache) && Right(sc, c, i, w)
    modifies cache
    ensures Sharing(sc, c, files, cache) && Right(sc, c, i, w')
    ensures forall k :: k in old(cache.scans) ==> k in cache.scans && cache.scans[k] == old(cache.scans[k])
    ensures Stepped(sc, c, i, old(cache.scans), cache.scans, w, w')
  {
    hide HonestEntry, Scanner.Faithful, SameNames, Probed, KeyBytes;
    var input := c.inputs[i];
    match w
    case Finished(_, _) =>
      w' := w;
    case Waiting =>
      if input.Sdist? {
        ProbedIsFresh(sc, cache.scans, input, c.build, files);
        w' := Probe(sc, cache, input, c.build);
      } else {
        w' := Finished(sc.analyse(input, c.settings, c.build), false);
      }
    case Analysed(report) =>
      if input.Sdist? {
        w' := Deposit(sc, cache, input, c.build, report, c.day, files);
      } else {
        w' := Finished(Report(report), false);
      }
  }

  /** Workers sharing the cache, in any interleaving of their steps. */
  method ScanShared<R>(sc: Scanner<R>, c: RunConfig, cache: Cache<R>, ghost files: set<Input>) returns (ws: seq<Worker<R>>)
    requires sc.Faithful() && SameNames(sc, files) && Among(c, files) && c.settings == sc.defaults && Sharing(sc, c, files, cache)
    modifies cache
    ensures Sharing(sc, c, files, cache) && AllRight(sc, c, ws)
    ensures forall k :: k in old(cache.scans) ==> k in cache.scans && cache.scans[k] == old(cache.scans[k])
    ensures AllServed(sc, c, old(cache.scans), cache.scans, ws)
  {
    ws := seq(|c.inputs|, _ => Waiting);
    NoneYet(sc, c, cache.scans);
    for n := 0 to |c.schedule|
      invariant Sharing(sc, c, files, cache) && AllRight(sc, c, ws)
      invariant AllServed(sc, c, old(cache.scans), cache.scans, ws)
      invariant forall k :: k in old(cache.scans) ==> k in cache.scans && cache.scans[k] == old(cache.scans[k])
    {
      hide Sharing, Right, Among, SameNames, Scanner.Faithful, Served, Stepped;
      if c.schedule[n] < |ws| {
        var i := c.schedule[n];
        ghost var before := cache.scans;
        var w' := StepWorker(sc, c, cache, i, ws[i], files);
        OthersServed(sc, c, i, old(cache.scans), before, cache.scans, ws, w');
        ws := ws[i := w'];
      }
    }
  }

  /** A run without a cache: every input is scanned fresh. */
  method ScanFresh<R>(sc: Scanner<R>, c: RunConfig) returns (ws: seq<Worker<R>>)
    ensures AllRight(sc, c, ws) && forall i :: 0 <= i < |ws| ==> ws[i].Finished? && !ws[i].fromCache
  {
    ws := [];
    for i := 0 to |c.inputs|
      invariant |ws| == i && forall j :: 0 <= j < i ==> Right(sc, c, j, ws[j]) && ws[j].Finished? && !ws[j].fromCache
    {
      ws := ws + [Finished(sc.analyse(c.inputs[i], c.settings, c.build), false)];
    }
  }

  /** Whether a run opens the cache file. */
  predicate Uses<R>(sc: Scanner<R>, c: RunConfig) {
    c.named && sc.Cacheable(c.settings)
  }

  /** What a run leaves of the shared cache: all of it, or what the sweep at its end keeps. */
  ghost predicate LeftBehind(c: RunConfig, shared: Store, after: Store) {
    if !c.finishes then after == shared
    else exists touched, sweep, gone :: Swept(shared, touched, c.build.schema, c.build.ruleset, c.limits, c.day, after, sweep, gone)
  }

  /** A batch scan. The file is left as it was unless the run had the cache open; what it had and
      still has under a key is unchanged. */
  method ScanMany<R>(sc: Scanner<R>, c: RunConfig, file: Store, ghost files: set<Input>) returns (ws: Option<seq<Worker<R>>>, after: Store)
    requires file.Valid() && Honest(sc, files, file.scans) && sc.Faithful() && SameNames(sc, files) && Among(c, files)
    ensures after.Valid() && Honest(sc, files, after.scans)
    ensures ws.Some? ==> AllRight(sc, c, ws.value)
    ensures ws.None? <==> c.named && c.settings == sc.defaults && c.opening == Damaged
    ensures !c.named || c.settings != sc.defaults || c.opening != Opened ==> after == file
    ensures forall k :: k in file.scans && k in after.scans ==> after.scans[k] == file.scans[k]
    ensures !c.finishes ==> file.scans.Keys <= after.scans.Keys
    ensures c.named && c.settings == sc.defaults && c.opening == Opened ==>
      ws.Some? && exists shared: Store :: AllServed(sc, c, file.scans, shared.scans, ws.value) && LeftBehind(c, shared, after)
  {
    hide HonestEntry, SameNames, Scanner.Faithful, Among, AllRight, AllServed;
    after := file;
    if !Uses(sc, c) || c.opening.InUse? {
      var fresh_ := ScanFresh(sc, c);
      return Some(fresh_), file;
    }
    if c.opening.Damaged? {
      return None, file;
    }
    var cache := new Cache(sc.codec, file.scans, file.lastUsed);
    var shared := ScanShared(sc, c, cache, files);
    ws := Some(shared);
    ghost var shared_ := cache.Contents();
    assert AllServed(sc, c, file.scans, shared_.scans, ws.value);
    if c.finishes {
      ghost var before, touched := cache.Contents(), cache.touched;
      ghost var gone;
      var sweep;
      sweep, gone := cache.FinishOn(c.build.schema, c.build.ruleset, c.limits, c.day);
      AfterSweep(before, touched, c.build.schema, c.build.ruleset, c.limits, c.day, cache.Contents(), sweep, gone);
      hide Swept, CurrentShape, TooOld;
    }
    after := Store(cache.scans, cache.lastUsed);
    assert LeftBehind(c, shared_, after);
  }

  /** Any sequence of runs on one cache file, of any builds and options: every finished scan has
      the report a fresh scan gives. */
  method RunAll<R>(sc: Scanner<R>, runs: seq<RunConfig>, ghost files: set<Input>) returns (results: seq<Option<seq<Worker<R>>>>, file: Store)
    requires sc.Faithful() && SameNames(sc, files) && forall r :: 0 <= r < |runs| ==> Among(runs[r], files)
    ensures |results| == |runs|
    ensures forall r :: 0 <= r < |runs| && results[r].Some? ==> AllRight(sc, runs[r], results[r].value)
    ensures file.Valid() && Honest(sc, files, file.scans)
  {
    results, file := [], Store(map[], map[]);
    for r := 0 to |runs|
      invariant |results| == r && file.Valid() && Honest(sc, files, file.scans)
      invariant forall q :: 0 <= q < r && results[q].Some? ==> AllRight(sc, runs[q], results[q].value)
    {
      hide HonestEntry, SameNames, Scanner.Faithful, Among, AllRight;
      var ws, after := ScanMany(sc, runs[r], file, files);
      results := results + [ws];
      file := after;
    }
  }
}
