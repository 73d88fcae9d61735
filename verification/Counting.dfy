/** Sets of walks of a given length, their sizes, and distances. */
module Counting {
  import opened Walks
  import opened Sums

  ghost predicate Bounded(R: set<(nat, nat)>, n: nat) {
    forall e :: e in R ==> e.0 < n && e.1 < n
  }

  /** Every walk of exactly `k` edges from `s` to `t`, as node sequences. */
  ghost function WalkSet(R: set<(nat, nat)>, s: nat, t: nat, k: nat): set<seq<nat>>
    decreases k
  {
    if k == 0 then
      (if s == t then {[s]} else {})
    else
      set e, p | e in R && e.1 == t && p in WalkSet(R, s, e.0, k - 1) :: p + [t]
  }

  lemma {:induction false} WalkSetIff(R: set<(nat, nat)>, s: nat, t: nat, k: nat, p: seq<nat>)
    ensures p in WalkSet(R, s, t, k) <==> WalkFrom(R, s, t, p) && |p| == k + 1
    decreases k
  {
    if k > 0 {
      if p in WalkSet(R, s, t, k) {
        var e, q :| e in R && e.1 == t && q in WalkSet(R, s, e.0, k - 1) && p == q + [t];
        WalkSetIff(R, s, e.0, k - 1, q);
        WalkSnoc(R, s, e.0, t, q);
      }
      if WalkFrom(R, s, t, p) && |p| == k + 1 {
        WalkInit(R, s, t, p);
        WalkSetIff(R, s, p[k - 1], k - 1, p[..k]);
        var e := (p[k - 1], t);
        assert e in R && e.1 == t && p[..k] in WalkSet(R, s, e.0, k - 1);
      }
    } else {
      assert WalkFrom(R, s, t, p) && |p| == 1 ==> p == [s];
    }
  }

  ghost predicate Adj(R: set<(nat, nat)>, u: int, v: int) {
    0 <= u && 0 <= v && (u, v) in R
  }

  /** How many walks of `k` edges lead from `s` to `t`. */
  ghost function Count(R: set<(nat, nat)>, s: int, t: int, k: int): real {
    if s < 0 || t < 0 || k < 0 then 0.0 else |WalkSet(R, s, t, k)| as real
  }

  lemma {:induction false} SnocCard(S: set<seq<nat>>, t: nat)
    ensures |set p | p in S :: p + [t]| == |S|
  {
    var E := set p | p in S :: p + [t];
    if S == {} {
    } else {
      var q :| q in S;
      var S' := S - {q};
      SnocCard(S', t);
      var E' := set p | p in S' :: p + [t];
      forall p ensures p + [t] == q + [t] ==> p == q {
        assert (p + [t])[..|p|] == p && (q + [t])[..|q|] == q;
      }
      assert E == E' + {q + [t]};
    }
  }

  /** The walks of `k + 1` edges whose last step starts below `m`. */
  ghost function LastStepBelow(R: set<(nat, nat)>, s: nat, t: nat, k: nat, m: nat): set<seq<nat>> {
    set e, p | e in R && e.1 == t && e.0 < m && p in WalkSet(R, s, e.0, k) :: p + [t]
  }

  /** The part of `LastStepBelow` whose last step starts at `u` itself. */
  ghost function LastStepAt(R: set<(nat, nat)>, s: nat, t: nat, k: nat, u: nat): set<seq<nat>> {
    if (u, t) in R then set p | p in WalkSet(R, s, u, k) :: p + [t] else {}
  }

  lemma LastStepSplit(R: set<(nat, nat)>, s: nat, t: nat, k: nat, u: nat)
    ensures LastStepBelow(R, s, t, k, u + 1) == LastStepBelow(R, s, t, k, u) + LastStepAt(R, s, t, k, u)
  {
    forall q | q in LastStepBelow(R, s, t, k, u + 1)
      ensures q in LastStepBelow(R, s, t, k, u) + LastStepAt(R, s, t, k, u)
    {
      var e, p :| e in R && e.1 == t && e.0 < u + 1 && p in WalkSet(R, s, e.0, k) && q == p + [t];
      assert e.0 == u ==> e == (u, t);
    }
    forall q | q in LastStepAt(R, s, t, k, u)
      ensures q in LastStepBelow(R, s, t, k, u + 1)
    {
      var p :| p in WalkSet(R, s, u, k) && q == p + [t];
      var e := (u, t);
      assert e in R && e.1 == t && e.0 < u + 1;
    }
  }

  lemma LastStepDisjoint(R: set<(nat, nat)>, s: nat, t: nat, k: nat, u: nat)
    ensures LastStepBelow(R, s, t, k, u) !! LastStepAt(R, s, t, k, u)
  {
    forall q | q in LastStepBelow(R, s, t, k, u)
      ensures |q| >= 2 && q[|q| - 2] < u
    {
      var e, p :| e in R && e.1 == t && e.0 < u && p in WalkSet(R, s, e.0, k) && q == p + [t];
      WalkSetIff(R, s, e.0, k, p);
    }
    forall q | q in LastStepAt(R, s, t, k, u)
      ensures |q| >= 2 && q[|q| - 2] == u
    {
      var p :| p in WalkSet(R, s, u, k) && q == p + [t];
      WalkSetIff(R, s, u, k, p);
    }
  }

  lemma DisjointCard<T>(A: set<T>, B: set<T>)
    requires A !! B
    ensures |A + B| as real == |A| as real + |B| as real
  {
    assert |A + B| == |A| + |B|;
  }

  lemma LastStepAtCard(R: set<(nat, nat)>, s: nat, t: nat, k: nat, u: nat)
    ensures |LastStepAt(R, s, t, k, u)| as real == if Adj(R, u, t) then Count(R, s, u, k) else 0.0
  {
    SnocCard(WalkSet(R, s, u, k), t);
  }

  lemma LastStepMore(R: set<(nat, nat)>, s: nat, t: nat, k: nat, u: nat)
    ensures |LastStepBelow(R, s, t, k, u + 1)| as real
         == |LastStepBelow(R, s, t, k, u)| as real + if Adj(R, u, t) then Count(R, s, u, k) else 0.0
  {
    var A, B := LastStepBelow(R, s, t, k, u), LastStepAt(R, s, t, k, u);
    LastStepSplit(R, s, t, k, u);
    LastStepDisjoint(R, s, t, k, u);
    LastStepAtCard(R, s, t, k, u);
    DisjointCard(A, B);
  }

  lemma {:induction false} LastStepCount(R: set<(nat, nat)>, s: nat, t: nat, k: nat, m: nat)
    ensures |LastStepBelow(R, s, t, k, m)| as real
         == Sum(m, u => if Adj(R, u, t) then Count(R, s, u, k) else 0.0)
  {
    if m == 0 {
      assert LastStepBelow(R, s, t, k, m) == {};
    } else {
      LastStepCount(R, s, t, k, m - 1);
      LastStepMore(R, s, t, k, m - 1);
    }
  }

  /** Splitting the last edge off. */
  lemma CountLastStep(R: set<(nat, nat)>, n: nat, s: nat, t: nat, k: nat)
    requires Bounded(R, n)
    ensures Count(R, s, t, k + 1) == Sum(n, u => if Adj(R, u, t) then Count(R, s, u, k) else 0.0)
  {
    LastStepCount(R, s, t, k, n);
    assert WalkSet(R, s, t, k + 1) == LastStepBelow(R, s, t, k, n);
  }

  /** Splitting the first edge off: the same number by the other end. */
  lemma {:induction false} CountFirstStep(R: set<(nat, nat)>, n: nat, v: nat, t: nat, k: nat)
    requires Bounded(R, n) && v < n && t < n
    ensures Count(R, v, t, k + 1) == Sum(n, w => if Adj(R, v, w) then Count(R, w, t, k) else 0.0)
    decreases k
  {
    CountLastStep(R, n, v, t, k);
    if k == 0 {
      var f := u => if Adj(R, u, t) then Count(R, v, u, 0) else 0.0;
      var g := w => if Adj(R, v, w) then Count(R, w, t, 0) else 0.0;
      SumSingle(n, v, f);
      SumSingle(n, t, g);
      hide Sum;
    } else {
      hide *;
      var f := (w: int, u: int) => if Adj(R, v, w) && Adj(R, u, t) then Count(R, w, u, k - 1) else 0.0;
      forall u: nat | u < n
        ensures (if Adj(R, u, t) then Count(R, v, u, k) else 0.0) == Sum(n, w => f(w, u))
      {
        if Adj(R, u, t) {
          CountFirstStep(R, n, v, u, k - 1);
          SumExt(n, w => if Adj(R, v, w) then Count(R, w, u, k - 1) else 0.0, w => f(w, u));
        } else {
          SumZero(n, w => f(w, u));
        }
      }
      SumExt(n, u => if Adj(R, u, t) then Count(R, v, u, k) else 0.0, u => Sum(n, w => f(w, u)));
      SumSwap(n, n, f);
      forall w: nat | w < n
        ensures (if Adj(R, v, w) then Count(R, w, t, k) else 0.0) == Sum(n, u => f(w, u))
      {
        if Adj(R, v, w) {
          CountLastStep(R, n, w, t, k - 1);
          SumExt(n, u => if Adj(R, u, t) then Count(R, w, u, k - 1) else 0.0, u => f(w, u));
        } else {
          SumZero(n, u => f(w, u));
        }
      }
      SumExt(n, w => if Adj(R, v, w) then Count(R, w, t, k) else 0.0, w => Sum(n, u => f(w, u)));
    }
  }

  // ---- distances and shortest paths ----

  ghost predicate IsDist(R: set<(nat, nat)>, s: nat, t: nat, d: nat) {
    && (exists p :: WalkFrom(R, s, t, p) && |p| == d + 1)
    && (forall p :: WalkFrom(R, s, t, p) ==> |p| >= d + 1)
  }

  /** The number of edges of a shortest path, -1 when there is none. */
  ghost function Distance(R: set<(nat, nat)>, s: nat, t: nat): int {
    if exists d: nat :: IsDist(R, s, t, d) then (var d: nat :| IsDist(R, s, t, d); d) else -1
  }

  ghost function ShortestPaths(R: set<(nat, nat)>, s: nat, t: nat): set<seq<nat>> {
    if Distance(R, s, t) < 0 then {} else WalkSet(R, s, t, Distance(R, s, t))
  }

  /** `ShortestPaths` holds exactly the walks no other walk is shorter than. */
  lemma ShortestPathsAreShortest(R: set<(nat, nat)>, s: nat, t: nat, p: seq<nat>)
    ensures p in ShortestPaths(R, s, t)
       <==> WalkFrom(R, s, t, p) && forall q :: WalkFrom(R, s, t, q) ==> |p| <= |q|
  {
    var d := Distance(R, s, t);
    if d >= 0 {
      WalkSetIff(R, s, t, d, p);
    } else if WalkFrom(R, s, t, p) && forall q :: WalkFrom(R, s, t, q) ==> |p| <= |q| {
      assert IsDist(R, s, t, |p| - 1);
    }
  }

  lemma DistanceIs(R: set<(nat, nat)>, s: nat, t: nat, d: nat)
    requires IsDist(R, s, t, d)
    ensures Distance(R, s, t) == d
  {
  }

  // ---- shortest paths through a node ----

  ghost function Joins(A: set<seq<nat>>, B: set<seq<nat>>): set<seq<nat>> {
    set p, q | p in A && q in B && |q| > 0 :: p + q[1..]
  }

  ghost predicate SameShape(A: set<seq<nat>>, len: nat, head: nat) {
    forall p :: p in A ==> |p| == len && len > 0 && p[0] == head
  }

  lemma {:induction false} JoinOneCard(p: seq<nat>, B: set<seq<nat>>, len: nat, head: nat)
    requires SameShape(B, len, head)
    ensures |Joins({p}, B)| == |B|
  {
    if B == {} {
      assert Joins({p}, B) == {};
    } else {
      var q :| q in B;
      JoinOneCard(p, B - {q}, len, head);
      assert Joins({p}, B) == Joins({p}, B - {q}) + {p + q[1..]};
      assert p + q[1..] !in Joins({p}, B - {q}) by {
        forall r | r in B - {q} ensures p + r[1..] != p + q[1..] {
          assert (p + r[1..])[|p|..] == r[1..] && (p + q[1..])[|p|..] == q[1..];
          assert r == [head] + r[1..] && q == [head] + q[1..];
        }
      }
    }
  }

  lemma JoinsSplit(A: set<seq<nat>>, B: set<seq<nat>>, la: nat, ha: nat, p: seq<nat>)
    requires SameShape(A, la, ha) && p in A
    ensures Joins(A, B) == Joins(A - {p}, B) + Joins({p}, B)
    ensures Joins(A - {p}, B) !! Joins({p}, B)
  {
    forall r | r in Joins(A, B) ensures r in Joins(A - {p}, B) + Joins({p}, B) {
      var p', q' :| p' in A && q' in B && |q'| > 0 && r == p' + q'[1..];
      assert p' in A - {p} || p' in {p};
    }
    forall r | r in Joins(A - {p}, B) ensures r in Joins(A, B) && r[..la] != p {
      var p', q' :| p' in A - {p} && q' in B && |q'| > 0 && r == p' + q'[1..];
      assert r[..la] == p';
    }
    forall r | r in Joins({p}, B) ensures r in Joins(A, B) && r[..la] == p {
      var p', q' :| p' in {p} && q' in B && |q'| > 0 && r == p' + q'[1..];
      assert p' in A;
    }
  }

  lemma JoinsMore(A: set<seq<nat>>, B: set<seq<nat>>, la: nat, ha: nat, lb: nat, hb: nat, p: seq<nat>)
    requires SameShape(A, la, ha) && SameShape(B, lb, hb) && p in A
    ensures |Joins(A, B)| as real == |Joins(A - {p}, B)| as real + |B| as real
  {
    JoinOneCard(p, B, lb, hb);
    JoinsSplit(A, B, la, ha, p);
    DisjointCard(Joins(A - {p}, B), Joins({p}, B));
  }

  lemma {:induction false} JoinsCard(A: set<seq<nat>>, B: set<seq<nat>>, la: nat, ha: nat, lb: nat, hb: nat)
    requires SameShape(A, la, ha) && SameShape(B, lb, hb)
    ensures |Joins(A, B)| as real == |A| as real * |B| as real
  {
    if A == {} {
      assert Joins(A, B) == {};
    } else {
      var p :| p in A;
      JoinsCard(A - {p}, B, la, ha, lb, hb);
      JoinsMore(A, B, la, ha, lb, hb, p);
      OneMore(|A - {p}| as real, |B| as real);
    }
  }

  lemma OneMore(a: real, b: real)
    ensures (a + 1.0) * b == a * b + b
  {
  }

  lemma Reroute(R: set<(nat, nat)>, s: nat, v: nat, t: nat, p: seq<nat>, i: nat, q: seq<nat>)
    requires WalkFrom(R, s, t, p) && i < |p| && p[i] == v && WalkFrom(R, s, v, q)
    ensures WalkFrom(R, s, v, p[..i + 1]) && WalkFrom(R, v, t, p[i..])
    ensures exists r :: WalkFrom(R, s, t, r) && |r| == |q| + |p| - i - 1
  {
    WalkSlice(R, p, 0, i);
    WalkSlice(R, p, i, |p| - 1);
    assert p[0..i + 1] == p[..i + 1] && p[i..|p| - 1 + 1] == p[i..];
    var tail := p[i..];
    WalkConcat(R, s, v, t, q, tail);
    assert |q + tail[1..]| == |q| + |p| - i - 1;
  }

  /** On a shortest path, `v` stands exactly at its own distance. */
  lemma ThroughSplit(R: set<(nat, nat)>, s: nat, v: nat, t: nat, dv: nat, dt: nat, p: seq<nat>)
    requires IsDist(R, s, v, dv) && IsDist(R, s, t, dt)
    requires WalkFrom(R, s, t, p) && |p| == dt + 1 && v in p
    ensures dv <= dt
    ensures WalkFrom(R, s, v, p[..dv + 1]) && WalkFrom(R, v, t, p[dv..])
  {
    var i :| 0 <= i < |p| && p[i] == v;
    var q :| WalkFrom(R, s, v, q) && |q| == dv + 1;
    Reroute(R, s, v, t, p, i, q);
    assert |p[..i + 1]| == i + 1;
    assert i == dv;
  }

  ghost function PathsThrough(R: set<(nat, nat)>, s: nat, t: nat, v: nat): set<seq<nat>> {
    set p | p in ShortestPaths(R, s, t) && v in p
  }

  /** `A` is the set of walks of `k` edges from `s` to `t`. */
  ghost predicate Exactly(A: set<seq<nat>>, R: set<(nat, nat)>, s: nat, t: nat, k: nat) {
    forall p :: p in A <==> WalkFrom(R, s, t, p) && |p| == k + 1
  }

  lemma WalkSetExactly(R: set<(nat, nat)>, s: nat, t: nat, k: nat)
    ensures Exactly(WalkSet(R, s, t, k), R, s, t, k)
  {
    forall p ensures p in WalkSet(R, s, t, k) <==> WalkFrom(R, s, t, p) && |p| == k + 1 {
      WalkSetIff(R, s, t, k, p);
    }
  }

  lemma ThroughIsJoin(R: set<(nat, nat)>, s: nat, v: nat, t: nat, dv: nat, dt: nat,
                      A: set<seq<nat>>, B: set<seq<nat>>, S: set<seq<nat>>, P: set<seq<nat>>)
    requires IsDist(R, s, v, dv) && IsDist(R, s, t, dt) && dv <= dt
    requires Exactly(A, R, s, v, dv) && Exactly(B, R, v, t, dt - dv)
    requires Exactly(S, R, s, t, dt) && forall p :: p in P <==> p in S && v in p
    ensures P == Joins(A, B)
  {
    forall p | p in P ensures p in Joins(A, B) {
      ThroughSplit(R, s, v, t, dv, dt, p);
      var a, b := p[..dv + 1], p[dv..];
      assert a in A && b in B && |b| > 0 && p == a + b[1..];
    }
    forall r | r in Joins(A, B) ensures r in P {
      var p, q :| p in A && q in B && |q| > 0 && r == p + q[1..];
      WalkConcat(R, s, v, t, p, q);
      assert r[dv] == v;
    }
  }

  lemma ThroughNone(R: set<(nat, nat)>, s: nat, v: nat, t: nat, dv: nat, dt: nat)
    requires IsDist(R, s, v, dv) && IsDist(R, s, t, dt) && dv > dt
    ensures PathsThrough(R, s, t, v) == {}
  {
    WalkSetExactly(R, s, t, dt);
    forall p ensures p !in PathsThrough(R, s, t, v) {
      if p in PathsThrough(R, s, t, v) {
        ThroughSplit(R, s, v, t, dv, dt, p);
      }
    }
  }

  lemma ThroughProduct(R: set<(nat, nat)>, s: nat, v: nat, t: nat, dv: nat, dt: nat,
                       A: set<seq<nat>>, B: set<seq<nat>>, S: set<seq<nat>>, P: set<seq<nat>>)
    requires IsDist(R, s, v, dv) && IsDist(R, s, t, dt) && dv <= dt
    requires Exactly(A, R, s, v, dv) && Exactly(B, R, v, t, dt - dv)
    requires Exactly(S, R, s, t, dt) && forall p :: p in P <==> p in S && v in p
    ensures |P| as real == |A| as real * |B| as real
  {
    ThroughIsJoin(R, s, v, t, dv, dt, A, B, S, P);
    JoinsCard(A, B, dv + 1, s, dt - dv + 1, v);
  }

  lemma ShortestExactly(R: set<(nat, nat)>, s: nat, t: nat, dt: nat)
    requires IsDist(R, s, t, dt)
    ensures Exactly(ShortestPaths(R, s, t), R, s, t, dt)
  {
    WalkSetExactly(R, s, t, dt);
  }

  lemma ThroughMembers(R: set<(nat, nat)>, s: nat, t: nat, v: nat)
    ensures forall p :: p in PathsThrough(R, s, t, v) <==> p in ShortestPaths(R, s, t) && v in p
  {
  }

  /** A shortest path through `v` is a shortest path to `v` followed by a walk that makes up
      the difference; their numbers multiply. */
  lemma ThroughCount(R: set<(nat, nat)>, s: nat, v: nat, t: nat, dv: nat, dt: nat)
    requires IsDist(R, s, v, dv) && IsDist(R, s, t, dt)
    ensures |PathsThrough(R, s, t, v)| as real == Count(R, s, v, dv) * Count(R, v, t, dt - dv)
  {
    hide *;
    CountIs(R, s, v, dv);
    if dv > dt {
      ThroughNone(R, s, v, t, dv, dt);
      CountNegative(R, v, t, dt - dv);
    } else {
      ThroughBoth(R, s, v, t, dv, dt);
      CountIs(R, v, t, dt - dv);
    }
  }

  lemma ThroughBoth(R: set<(nat, nat)>, s: nat, v: nat, t: nat, dv: nat, dt: nat)
    requires IsDist(R, s, v, dv) && IsDist(R, s, t, dt) && dv <= dt
    ensures |PathsThrough(R, s, t, v)| as real == |WalkSet(R, s, v, dv)| as real * |WalkSet(R, v, t, dt - dv)| as real
  {
    hide *;
    var A, B := WalkSet(R, s, v, dv), WalkSet(R, v, t, dt - dv);
    WalkSetExactly(R, s, v, dv);
    WalkSetExactly(R, v, t, dt - dv);
    ShortestExactly(R, s, t, dt);
    ThroughMembers(R, s, t, v);
    ThroughProduct(R, s, v, t, dv, dt, A, B, ShortestPaths(R, s, t), PathsThrough(R, s, t, v));
  }

  lemma CountNegative(R: set<(nat, nat)>, s: nat, t: nat, k: int)
    requires k < 0
    ensures Count(R, s, t, k) == 0.0
  {
  }

  lemma CountIs(R: set<(nat, nat)>, s: nat, t: nat, k: nat)
    ensures Count(R, s, t, k) == |WalkSet(R, s, t, k)| as real
  {
    hide WalkSet;
  }
}
