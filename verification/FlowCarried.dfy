/** What the soundness proof keeps: every value in every activation is carried by nodes the graph
    has for it, and everything passed outside has been linked to where it was passed. */
module FlowCarried {
  import opened Options
  import opened Walks
  import opened Evidence
  import opened Calls
  import opened Hubs
  import opened FlowSyntax
  import opened FlowWalker
  import opened FlowGraph
  import opened FlowRuns
  import opened FlowFits
  import opened FlowRecord

  // ---- trails and nodes ----

  ghost predicate Arrives(R: set<(nat, nat)>, n: nat, ns: seq<nat>) {
    exists m: nat :: m in ns && Reach(R, n, m)
  }

  /** Every node the value passed through reaches one of `ns`. */
  ghost predicate Carried(R: set<(nat, nat)>, v: Trail, ns: seq<nat>) {
    forall n: nat :: n in v ==> Arrives(R, n, ns)
  }

  lemma CarriedMore(R: set<(nat, nat)>, v: Trail, ns: seq<nat>, ms: seq<nat>)
    requires Carried(R, v, ns) && forall n: nat :: n in ns ==> n in ms
    ensures Carried(R, v, ms)
  {
    forall n: nat | n in v ensures Arrives(R, n, ms) {
      assert Arrives(R, n, ns);
      hide Reach;
    }
  }

  lemma CarriedItself(R: set<(nat, nat)>, n: nat, ns: seq<nat>)
    requires n in ns
    ensures Carried(R, {n}, ns)
  {
    ReachSelf(R, n);
    hide Reach;
  }

  /** One link further. */
  lemma CarriedStep(R: set<(nat, nat)>, v: Trail, froms: seq<nat>, to: nat)
    requires Carried(R, v, froms) && forall f: nat :: f in froms ==> (f, to) in R
    ensures Carried(R, v + {to}, [to])
  {
    forall n: nat | n in v + {to} ensures Arrives(R, n, [to]) {
      if n in v {
        assert Arrives(R, n, froms);
        var m: nat :| m in froms && Reach(R, n, m);
        ReachStep(R, n, m, to);
      } else {
        ReachSelf(R, to);
      }
      assert [to][0] == to;
      hide Reach;
    }
  }

  lemma CarriedBoth(R: set<(nat, nat)>, u: Trail, v: Trail, ns: seq<nat>)
    requires Carried(R, u, ns) && Carried(R, v, ns)
    ensures Carried(R, u + v, ns)
  {
    hide Arrives;
  }

  lemma CarriedConcat(R: set<(nat, nat)>, u: Trail, v: Trail, ns: seq<nat>, ms: seq<nat>)
    requires Carried(R, u, ns) && Carried(R, v, ms)
    ensures Carried(R, u + v, ns + ms)
  {
    CarriedMore(R, u, ns, ns + ms);
    CarriedMore(R, v, ms, ns + ms);
    CarriedBoth(R, u, v, ns + ms);
  }

  lemma CarriedByNothing(R: set<(nat, nat)>, v: Trail)
    requires Carried(R, v, [])
    ensures v == {}
  {
    forall n: nat ensures n !in v {
      assert n in v ==> Arrives(R, n, []);
    }
  }

  // ---- the graph a program's runs are compared with ----

  /** A program, the least confidence of the targets its runs enter, and a relation over nodes. */
  datatype Setting = Setting(p: Program, floor: nat, R: set<(nat, nat)>) {
    ghost predicate Valid() {
      InFragment(p) && floor <= 2 && Links() && Reads() && Wires()
    }

    ghost predicate Links() {
      forall l :: Linked(l) in LogOf(p) && l.confidence.Rank() >= floor ==> (l.from, l.to) in R
    }

    ghost predicate Reads()
      requires Climbs(p.scopeOf)
    {
      forall r :: Read(r) in LogOf(p) ==> ReadWired(r)
    }

    ghost predicate ReadWired(r: PendingRead)
      requires Climbs(p.scopeOf)
    {
      var s := Nearest(DefsOf(LogOf(p)).Keys, p.scopeOf, r.owner, r.name);
      s.Some? ==> forall d: nat :: d in DefNodes(s.value, r.name) ==> (d, r.node) in R
    }

    ghost predicate Wires() {
      forall c, t, a: nat, b: nat :: (Called(c) in LogOf(p) && Lands(c, t, a, b)) ==> (a, b) in R
    }

    /** An actual of `c` lands in a formal of a target confident enough, or its result in the call's. */
    ghost predicate Lands(c: PendingCall, t: Target, a: nat, b: nat) {
      t in c.targets && t.confidence.Rank() >= floor && Binds(DefinitionsOf(p), c, t, a, b)
    }

    function World(): World {
      WorldOf(p, floor)
    }

    function Fragment(): Context {
      ContextOf(p)
    }

    function DefNodes(s: nat, x: string): seq<nat> {
      DefsAt(DefsOf(LogOf(p)), s, x)
    }

    function ResultNodes(s: nat): seq<nat> {
      ResultsAt(ResultsOf(LogOf(p)), s)
    }

    /** These events are part of the program's record. */
    ghost predicate Recorded(log: seq<Event>) {
      Within(log, LogOf(p))
    }
  }

  lemma LinkCarried(k: Setting, v: Trail, froms: seq<nat>, to: nat, c: Confidence)
    requires k.Valid() && k.Recorded(LinksInto(froms, to, c)) && c.Rank() >= k.floor && Carried(k.R, v, froms)
    ensures Carried(k.R, v + {to}, [to])
  {
    hide LogOf, LinksInto, InFragment, Setting.Reads, Setting.Wires, Carried;
    forall f: nat | f in froms ensures (f, to) in k.R {
      assert Linked(Link(f, to, c)) in LinksInto(froms, to, c);
    }
    CarriedStep(k.R, v, froms, to);
  }

  // ---- states ----

  ghost predicate FrameSound(k: Setting, heap: seq<Frame>, i: nat)
    requires i < |heap|
  {
    Nested(k.p.scopeOf, heap, i) && VarsSound(k, heap[i].scope, heap[i].vars) && ObjectSound(k, heap[i].scope, heap[i].made)
  }

  /** Nothing has been put into an object being made, and nothing will be. */
  ghost predicate ObjectSound(k: Setting, s: nat, made: Object) {
    match made
    case NoObject => true
    case Named(x, held) => held == {} && (s, x) !in k.Fragment().written
    case Unnamed(held) => held == {}
  }

  ghost predicate VarsSound(k: Setting, s: nat, vars: map<string, Trail>) {
    forall x :: x in vars ==> Carried(k.R, vars[x], k.DefNodes(s, x))
  }

  ghost predicate TakenSound(k: Setting, taken: set<(nat, nat)>) {
    forall e :: e in taken ==> Reach(k.R, e.0, e.1)
  }

  ghost predicate Sound(k: Setting, st: State) {
    (forall i :: 0 <= i < |st.heap| ==> FrameSound(k, st.heap, i)) && TakenSound(k, st.taken)
  }

  ghost predicate Grows(h: seq<Frame>, h': seq<Frame>) {
    |h| <= |h'| && forall i :: 0 <= i < |h| ==> h'[i].scope == h[i].scope
  }

  ghost predicate Kept(k: Setting, st: State, st': State) {
    Sound(k, st') && Grows(st.heap, st'.heap)
  }

  /** Activation `at` runs scope `o`. */
  ghost predicate Runs(st: State, at: nat, o: nat) {
    at < |st.heap| && st.heap[at].scope == o
  }

  lemma KeptTrans(k: Setting, a: State, b: State, c: State)
    requires Kept(k, a, b) && Kept(k, b, c)
    ensures Kept(k, a, c)
  {
    hide Sound;
  }

  lemma KeptSelf(k: Setting, st: State)
    requires Sound(k, st)
    ensures Kept(k, st, st) && Kept(k, st, Chosen(st)) && Chosen(st).heap == st.heap
  {
    hide FrameSound, TakenSound;
  }

  lemma StillRuns(k: Setting, st: State, st': State, at: nat, o: nat)
    requires Kept(k, st, st') && Runs(st, at, o)
    ensures Runs(st', at, o)
  {
    hide Sound;
  }

  /** Assigning a carried value to a variable keeps the state sound. */
  lemma SetVarSound(k: Setting, st: State, i: nat, x: string, v: Trail)
    requires Sound(k, st) && i < |st.heap| && Carried(k.R, v, k.DefNodes(st.heap[i].scope, x))
    ensures Kept(k, st, SetVar(st, i, x, v))
  {
    hide Carried, Setting.DefNodes, TakenSound, Setting.Fragment;
    var st' := SetVar(st, i, x, v);
    assert FrameSound(k, st.heap, i);
    forall j | 0 <= j < |st'.heap| ensures FrameSound(k, st'.heap, j) {
      assert FrameSound(k, st.heap, j);
    }
  }

  /** Storing a carried value into what a variable written to holds keeps the state sound. */
  lemma PutIntoSound(k: Setting, st: State, i: nat, x: string, v: Trail)
    requires Sound(k, st) && i < |st.heap| && x in st.heap[i].vars && Carried(k.R, v, k.DefNodes(st.heap[i].scope, x))
    requires (st.heap[i].scope, x) in k.Fragment().written
    ensures Kept(k, st, PutInto(st, i, x, v))
  {
    assert FrameSound(k, st.heap, i);
    CarriedBoth(k.R, st.heap[i].vars[x], v, k.DefNodes(st.heap[i].scope, x));
    hide Carried, Setting.DefNodes, TakenSound, Setting.Fragment;
    var st' := PutInto(st, i, x, v);
    forall j | 0 <= j < |st'.heap| ensures FrameSound(k, st'.heap, j) {
      assert FrameSound(k, st.heap, j);
    }
  }

  lemma TakeSound(k: Setting, st: State, v: Trail, formal: nat)
    requires Sound(k, st) && Carried(k.R, v, [formal])
    ensures Kept(k, st, Take(st, v, formal))
  {
    var st' := Take(st, v, formal);
    forall e | e in st'.taken ensures Reach(k.R, e.0, e.1) {
      if e !in st.taken {
        assert Arrives(k.R, e.0, [formal]);
      }
    }
    hide FrameSound, Carried;
    assert TakenSound(k, st'.taken);
  }

  /** A fresh activation with carried variables keeps the state sound. */
  lemma PushSound(k: Setting, st: State, f: Frame)
    requires Sound(k, st) && VarsSound(k, f.scope, f.vars) && ObjectSound(k, f.scope, f.made)
    requires Nested(k.p.scopeOf, st.heap + [f], |st.heap|)
    ensures Kept(k, st, st.(heap := st.heap + [f])) && Runs(st.(heap := st.heap + [f]), |st.heap|, f.scope)
  {
    hide VarsSound, TakenSound, ObjectSound;
    var h := st.heap + [f];
    forall j | 0 <= j < |h| ensures FrameSound(k, h, j) {
      if j < |st.heap| {
        assert FrameSound(k, st.heap, j);
      }
    }
  }

  /** Nothing is held by an object a sound state makes. */
  lemma HeldNothing(k: Setting, st: State, i: nat)
    requires Sound(k, st)
    ensures HeldBy(st, i) == {}
  {
    if i < |st.heap| {
      assert FrameSound(k, st.heap, i);
    }
    hide VarsSound, TakenSound, Setting.Fragment;
  }

  // ---- names ----

  lemma SoundNests(k: Setting, st: State)
    requires Sound(k, st)
    ensures NestedHeap(k.p.scopeOf, st.heap)
  {
    forall i | 0 <= i < |st.heap| ensures Nested(k.p.scopeOf, st.heap, i) {
      assert FrameSound(k, st.heap, i);
    }
    hide VarsSound, TakenSound, ObjectSound, FrameSound;
  }

  /** A run finds a name in the activation of the scope the walk resolves it to. */
  lemma LookupIsNearest(k: Setting, st: State, at: nat, x: string)
    requires k.Valid() && Sound(k, st) && at < |st.heap|
    ensures var keys := DefsOf(LogOf(k.p)).Keys;
            match Lookup(k.World().binds, st.heap, at, x)
            case None => true
            case Some(i) => i < |st.heap| && Nearest(keys, k.p.scopeOf, st.heap[at].scope, x) == Some(st.heap[i].scope)
  {
    KeysAreBinds(k.p);
    SoundNests(k, st);
    hide LogOf, BoundInModules, NestedHeap, Sound, Lookup, Nearest, Setting.Links, Setting.Reads, Setting.Wires;
    LookupIsNearestBound(k.World().binds, k.p.scopeOf, st.heap, at, x);
  }

  /** An imported name that is from elsewhere is read for what it is there. */
  lemma ImportedCarried(k: Setting, st: State, own: Trail, e: Expr, at: nat, o: nat, ns: seq<nat>)
    requires k.Valid() && Sound(k, st) && Runs(st, at, o) && IsDotted(e) && Carried(k.R, own, ns)
    requires FromElsewhere(o, Head(e).name, Head(e).origin, k.Fragment())
    ensures var r := ReadImported(k.World(), own, e, at, st);
            Kept(k, st, r.st) && (r.Done? ==> Carried(k.R, r.value, ns))
  {
    SoundNests(k, st);
    KeptSelf(k, st);
    KeptSelf(k, Chosen(st));
    KeptTrans(k, st, Chosen(st), Chosen(Chosen(st)));
    var w, x := k.World(), Head(e).name;
    assert Climbs(k.p.scopeOf);
    hide LogOf, BoundInModules, NestedHeap, Lookup, Setting.Valid, Carried, Sound, Grows, Chosen, Choice;
    LookupIsNearestBound(w.binds + w.imports, k.p.scopeOf, st.heap, at, x);
    NearestFound(w.binds + w.imports, k.p.scopeOf, o, x);
    hide Nearest, Climbs;
  }

  /** Reading a variable: its definitions are linked to the read. */
  lemma ReadCarried(k: Setting, st: State, at: nat, o: nat, id: nat, x: string)
    requires k.Valid() && Sound(k, st) && Runs(st, at, o)
    requires k.Recorded([Read(PendingRead(NodeOf(id, UseRole, false), o, x))])
    ensures var r := ReadName(k.World(), id, x, at, st);
            r.st == st && (r.Done? ==> Carried(k.R, r.value, [NodeOf(id, UseRole, false)]))
  {
    var node := NodeOf(id, UseRole, false);
    CarriedItself(k.R, node, [node]);
    LookupIsNearest(k, st, at, x);
    var read := PendingRead(node, o, x);
    assert [Read(read)][0] == Read(read);
    assert k.ReadWired(read);
    hide LogOf, NodeOf, Setting.Links, Setting.Reads, Setting.Wires, InFragment, Nested;
    match Lookup(k.World().binds, st.heap, at, x)
    case None =>
    case Some(i) =>
      if x in st.heap[i].vars {
        assert FrameSound(k, st.heap, i);
        hide Carried;
        CarriedStep(k.R, st.heap[i].vars[x], k.DefNodes(st.heap[i].scope, x), node);
      }
  }
}
