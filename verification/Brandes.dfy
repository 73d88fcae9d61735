/** Why the accumulation is right: path counts against shares of shortest paths. */
module Brandes {
  import opened Walks
  import opened Sums
  import opened Counting
  import opened Finite

  /** One source's breadth-first levels over the relation `R` on `n` nodes. */
  datatype Levels = Levels(R: set<(nat, nat)>, n: nat, s: nat, dist: seq<int>) {
    ghost predicate Valid() {
      && Bounded(R, n) && |dist| == n && s < n && dist[s] == 0
      && (forall v: nat :: v < n ==> dist[v] >= -1 && (dist[v] == 0 ==> v == s))
      && (forall e :: e in R && dist[e.0] >= 0 ==> 0 <= dist[e.1] <= dist[e.0] + 1)
      && (forall w: nat {:trigger HasNearer(w)} :: w < n && dist[w] > 0 ==> HasNearer(w))
    }

    ghost predicate HasNearer(w: nat)
      requires w < n && |dist| == n
    {
      exists u: nat :: u < n && (u, w) in R && dist[u] == dist[w] - 1
    }

    /** Distance from the source, -1 when unreached. */
    ghost function D(v: int): int {
      if 0 <= v < |dist| then dist[v] else -1
    }

    /** Number of shortest paths from the source to `v`. */
    ghost function Paths(v: int): real {
      Count(R, s, v, D(v))
    }

    /** Number of ways a shortest path through `v` can go on to `t`. */
    ghost function Onward(v: int, t: int): real {
      if 0 <= D(v) <= D(t) then Count(R, v, t, D(t) - D(v)) else 0.0
    }

    /** `w` is one step below `v` on a shortest path. */
    ghost predicate Near(v: int, w: int) {
      Adj(R, v, w) && 0 <= D(v) && D(w) == D(v) + 1
    }

    /** The share of shortest source-`t` paths that pass through `v`. */
    ghost function Share(v: int, t: int): real {
      if Paths(t) > 0.0 then Paths(v) * Onward(v, t) / Paths(t) else 0.0
    }

    /** The dependency of the source on `v`. */
    ghost function Depend(v: int): real {
      Sum(n, t => if t == v then 0.0 else Share(v, t))
    }

    /** What `w` passes back to its predecessor `v`. */
    ghost function Gain(v: int, w: int): real {
      if Paths(w) > 0.0 then Paths(v) / Paths(w) * (1.0 + Depend(w)) else 0.0
    }
  }

  // ---- levels are distances ----

  lemma {:induction false} LevelReached(f: Levels, t: nat)
    requires f.Valid() && t < f.n && f.dist[t] >= 0
    ensures exists p :: WalkFrom(f.R, f.s, t, p) && |p| == f.dist[t] + 1
    decreases f.dist[t]
  {
    if f.dist[t] == 0 {
      assert WalkFrom(f.R, f.s, t, [t]);
    } else {
      assert f.HasNearer(t);
      var u: nat :| u < f.n && (u, t) in f.R && f.dist[u] == f.dist[t] - 1;
      LevelReached(f, u);
      var p :| WalkFrom(f.R, f.s, u, p) && |p| == f.dist[u] + 1;
      WalkSnoc(f.R, f.s, u, t, p);
      assert |p + [t]| == f.dist[t] + 1;
    }
  }

  lemma {:induction false} LevelBound(f: Levels, a: nat, t: nat, p: seq<nat>)
    requires f.Valid() && a < f.n && f.dist[a] >= 0 && WalkFrom(f.R, a, t, p)
    ensures t < f.n && 0 <= f.dist[t] <= f.dist[a] + |p| - 1
    decreases |p|
  {
    if |p| > 1 {
      WalkInit(f.R, a, t, p);
      LevelBound(f, a, p[|p| - 2], p[..|p| - 1]);
      assert (p[|p| - 2], t) in f.R;
    }
  }

  lemma LevelIsDistance(f: Levels, t: nat)
    requires f.Valid() && t < f.n
    ensures f.dist[t] >= 0 ==> IsDist(f.R, f.s, t, f.dist[t])
    ensures Distance(f.R, f.s, t) == f.dist[t]
  {
    if f.dist[t] >= 0 {
      LevelReached(f, t);
      forall p | WalkFrom(f.R, f.s, t, p) ensures |p| >= f.dist[t] + 1 {
        LevelBound(f, f.s, t, p);
      }
      DistanceIs(f.R, f.s, t, f.dist[t]);
    } else {
      forall p ensures !WalkFrom(f.R, f.s, t, p) {
        if WalkFrom(f.R, f.s, t, p) {
          LevelBound(f, f.s, t, p);
        }
      }
    }
  }

  lemma NonEmptyCount(R: set<(nat, nat)>, s: nat, t: nat, k: nat)
    ensures Count(R, s, t, k) >= 0.0
    ensures (exists p :: WalkFrom(R, s, t, p) && |p| == k + 1) <==> Count(R, s, t, k) > 0.0
  {
    WalkSetExactly(R, s, t, k);
    var A := WalkSet(R, s, t, k);
    if A == {} {
      assert forall p :: p !in A;
    } else {
      var p :| p in A;
    }
  }

  lemma PathsPositive(f: Levels, t: nat)
    requires f.Valid() && t < f.n
    ensures f.Paths(t) >= 0.0
    ensures f.dist[t] >= 0 <==> f.Paths(t) > 0.0
  {
    if f.dist[t] >= 0 {
      LevelReached(f, t);
      NonEmptyCount(f.R, f.s, t, f.dist[t]);
    }
  }

  /** No walk is short enough to skip a level. */
  lemma TooShort(f: Levels, w: nat, t: nat, k: nat)
    requires f.Valid() && w < f.n && t < f.n && f.dist[w] >= 0 && f.dist[t] > f.dist[w] + k
    ensures Count(f.R, w, t, k) == 0.0
  {
    NonEmptyCount(f.R, w, t, k);
    forall p ensures !(WalkFrom(f.R, w, t, p) && |p| == k + 1) {
      if WalkFrom(f.R, w, t, p) {
        LevelBound(f, w, t, p);
      }
    }
  }

  /** The path count of `w` is the sum over the nodes one step nearer. */
  lemma PathsStep(f: Levels, w: nat)
    requires f.Valid() && w < f.n && f.dist[w] > 0
    ensures f.Paths(w) == Sum(f.n, u => if f.Near(u, w) then f.Paths(u) else 0.0)
  {
    var k := f.dist[w] - 1;
    CountLastStep(f.R, f.n, f.s, w, k);
    var g := u => if Adj(f.R, u, w) then Count(f.R, f.s, u, k) else 0.0;
    var h := u => if f.Near(u, w) then f.Paths(u) else 0.0;
    forall u: nat | u < f.n ensures g(u) == h(u) {
      if Adj(f.R, u, w) {
        if f.dist[u] >= 0 && f.dist[u] > k {
          TooShort(f, f.s, u, k);
        } else if f.dist[u] < 0 {
          NonEmptyCount(f.R, f.s, u, k);
          forall p ensures !WalkFrom(f.R, f.s, u, p) {
            if WalkFrom(f.R, f.s, u, p) {
              LevelBound(f, f.s, u, p);
            }
          }
        }
      }
    }
    SumExt(f.n, g, h);
  }

  // ---- Brandes' recurrence ----

  lemma OnwardSelf(f: Levels, v: nat)
    requires f.Valid() && v < f.n && f.dist[v] >= 0
    ensures f.Onward(v, v) == 1.0
  {
    assert WalkSet(f.R, v, v, 0) == {[v]};
  }

  lemma OnwardStep(f: Levels, v: nat, t: nat)
    requires f.Valid() && v < f.n && t < f.n && f.dist[v] >= 0 && f.dist[t] >= 0 && t != v
    ensures f.Onward(v, t) == Sum(f.n, w => if f.Near(v, w) then f.Onward(w, t) else 0.0)
  {
    var h := w => if f.Near(v, w) then f.Onward(w, t) else 0.0;
    if f.dist[t] > f.dist[v] {
      var k := f.dist[t] - f.dist[v] - 1;
      CountFirstStep(f.R, f.n, v, t, k);
      var g := w => if Adj(f.R, v, w) then Count(f.R, w, t, k) else 0.0;
      forall w: nat | w < f.n ensures g(w) == h(w) {
        if Adj(f.R, v, w) && f.dist[w] <= f.dist[v] {
          assert (v, w) in f.R;
          TooShort(f, w, t, k);
        }
      }
      SumExt(f.n, g, h);
    } else {
      SumZero(f.n, h);
      if f.dist[t] == f.dist[v] {
        assert WalkSet(f.R, v, t, 0) == {};
      }
    }
  }

  lemma Cancel(a: real, b: real, o: real, c: real)
    requires b != 0.0 && c != 0.0
    ensures a / b * (b * o / c) == a / c * o
  {
    assert b * o / c == b * (o / c);
    assert a / b * (b * (o / c)) == a / b * b * (o / c);
    assert a / b * b == a;
  }

  /** One next node's part of the share of `v` towards `t`. */
  ghost function Part(f: Levels, v: int, t: int, w: int): real {
    if f.Near(v, w) && f.Paths(w) > 0.0 then f.Paths(v) / f.Paths(w) * f.Share(w, t) else 0.0
  }

  lemma PartScaled(f: Levels, v: nat, t: nat, w: nat)
    requires f.Valid() && v < f.n && t < f.n && w < f.n && f.Paths(t) > 0.0
    ensures Part(f, v, t, w) == f.Paths(v) / f.Paths(t) * if f.Near(v, w) then f.Onward(w, t) else 0.0
  {
    PathsPositive(f, w);
    if f.Near(v, w) {
      Cancel(f.Paths(v), f.Paths(w), f.Onward(w, t), f.Paths(t));
    }
  }

  lemma PartZero(f: Levels, v: nat, t: nat, w: nat)
    requires f.Valid() && v < f.n && t < f.n && w < f.n && (f.dist[t] < 0 || t == v)
    ensures Part(f, v, t, w) == 0.0
  {
    if f.Near(v, w) && f.Paths(w) > 0.0 {
      assert f.Share(w, t) == 0.0;
    }
  }

  lemma DivMul(a: real, o: real, c: real)
    requires c != 0.0
    ensures a * o / c == a / c * o
  {
  }

  lemma PartsScaled(f: Levels, v: nat, t: nat, c: real)
    requires f.Valid() && v < f.n && t < f.n && f.Paths(t) > 0.0 && c == f.Paths(v) / f.Paths(t)
    ensures forall w: nat :: w < f.n ==> Part(f, v, t, w) == c * if f.Near(v, w) then f.Onward(w, t) else 0.0
    ensures f.Share(v, t) == c * f.Onward(v, t)
  {
    hide Part, Levels.Near, Levels.Onward, Levels.Paths;
    forall w: nat | w < f.n ensures Part(f, v, t, w) == c * if f.Near(v, w) then f.Onward(w, t) else 0.0 {
      PartScaled(f, v, t, w);
    }
    DivMul(f.Paths(v), f.Onward(v, t), f.Paths(t));
  }

  lemma ShareSplitFar(f: Levels, v: nat, t: nat)
    requires f.Valid() && v < f.n && t < f.n && f.dist[v] >= 0 && f.dist[t] >= 0 && t != v
    ensures f.Share(v, t) == Sum(f.n, w => Part(f, v, t, w))
  {
    PathsPositive(f, t);
    OnwardStep(f, v, t);
    hide *;
    var c :| c == f.Paths(v) / f.Paths(t);
    PartsScaled(f, v, t, c);
    SumScaled(f.n, c, w => if f.Near(v, w) then f.Onward(w, t) else 0.0, w => Part(f, v, t, w));
  }

  /** The shares of `v` towards one target, split over the next nodes. */
  lemma ShareSplit(f: Levels, v: nat, t: nat)
    requires f.Valid() && v < f.n && t < f.n && f.dist[v] >= 0
    ensures (if t == v then 0.0 else f.Share(v, t)) == Sum(f.n, w => Part(f, v, t, w))
  {
    if f.dist[t] < 0 || t == v {
      PathsPositive(f, t);
      forall w: nat | w < f.n ensures Part(f, v, t, w) == 0.0 {
        PartZero(f, v, t, w);
      }
      SumZero(f.n, w => Part(f, v, t, w));
    } else {
      hide Part, Levels.Share;
      ShareSplitFar(f, v, t);
    }
  }

  lemma ShareTotal(f: Levels, w: nat)
    requires f.Valid() && w < f.n && f.dist[w] >= 0
    ensures Sum(f.n, t => f.Share(w, t)) == 1.0 + f.Depend(w)
  {
    OnwardSelf(f, w);
    PathsPositive(f, w);
    assert f.Share(w, w) == 1.0;
    SumUpdate(f.n, w, t => if t == w then 0.0 else f.Share(w, t), t => f.Share(w, t));
  }

  /** Brandes' recurrence: the dependency on `v` is what the nodes below it pass back. */
  lemma Recurrence(f: Levels, v: nat)
    requires f.Valid() && v < f.n && f.dist[v] >= 0
    ensures f.Depend(v) == Sum(f.n, w => if f.Near(v, w) then f.Gain(v, w) else 0.0)
  {
    var c := (t: int, w: int) => Part(f, v, t, w);
    var byTarget := t => if t == v then 0.0 else f.Share(v, t);
    var split := t => Sum(f.n, w => c(t, w));
    forall t: nat | t < f.n ensures byTarget(t) == split(t) {
      ShareSplit(f, v, t);
      SumExt(f.n, w => Part(f, v, t, w), w => c(t, w));
    }
    SumExt(f.n, byTarget, split);
    SumSwap(f.n, f.n, c);
    var byNext := w => Sum(f.n, t => c(t, w));
    var gains := w => if f.Near(v, w) then f.Gain(v, w) else 0.0;
    forall w: nat | w < f.n ensures byNext(w) == gains(w) {
      GainTotal(f, v, w);
      SumExt(f.n, t => Part(f, v, t, w), t => c(t, w));
    }
    SumExt(f.n, byNext, gains);
  }

  lemma PartsShared(f: Levels, v: nat, w: nat, q: real)
    requires f.Near(v, w) && f.Paths(w) > 0.0 && q == f.Paths(v) / f.Paths(w)
    ensures forall t: nat :: t < f.n ==> Part(f, v, t, w) == q * f.Share(w, t)
    ensures f.Gain(v, w) == q * (1.0 + f.Depend(w))
  {
    hide Levels.Depend, Levels.Share;
  }

  lemma GainNear(f: Levels, v: nat, w: nat)
    requires f.Valid() && v < f.n && w < f.n && f.Near(v, w)
    ensures Sum(f.n, t => Part(f, v, t, w)) == f.Gain(v, w)
  {
    PathsPositive(f, w);
    ShareTotal(f, w);
    var q :| q == f.Paths(v) / f.Paths(w);
    PartsShared(f, v, w, q);
    hide *;
    SumScaled(f.n, q, t => f.Share(w, t), t => Part(f, v, t, w));
  }

  lemma GainTotal(f: Levels, v: nat, w: nat)
    requires f.Valid() && v < f.n && w < f.n
    ensures Sum(f.n, t => Part(f, v, t, w)) == if f.Near(v, w) then f.Gain(v, w) else 0.0
  {
    hide Levels.Gain, Levels.Valid, Levels.Near;
    if f.Near(v, w) {
      GainNear(f, v, w);
    } else {
      SumZero(f.n, t => Part(f, v, t, w));
    }
  }

  lemma UnreachedDepend(f: Levels, v: nat)
    requires f.Valid() && v < f.n && f.dist[v] < 0
    ensures f.Depend(v) == 0.0
  {
    SumZero(f.n, t => if t == v then 0.0 else f.Share(v, t));
  }

  // ---- the reference definition ----

  /** The share of shortest `s`-`t` paths that pass through `v`, from the sets of paths. */
  ghost function PairShare(R: set<(nat, nat)>, s: int, t: int, v: int): real {
    if s < 0 || t < 0 || v < 0 || ShortestPaths(R, s, t) == {} then 0.0
    else |PathsThrough(R, s, t, v)| as real / |ShortestPaths(R, s, t)| as real
  }

  /** The shares of all ordered pairs of other nodes whose first node is below `k`. */
  ghost function Gathered(R: set<(nat, nat)>, n: nat, k: nat, v: int): real {
    Sum(k, s => if s == v then 0.0 else Sum(n, t => if t == v || t == s then 0.0 else PairShare(R, s, t, v)))
  }

  /** The number of ordered pairs of nodes other than a given one, 1 when there is none. */
  ghost function OtherPairs(n: nat): real {
    if n > 2 then ((n - 1) * (n - 2)) as real else 1.0
  }

  /** Betweenness of `v`: the shares of all ordered pairs of other nodes, normalised. */
  ghost function Centrality(R: set<(nat, nat)>, n: nat, v: int): real {
    Gathered(R, n, n, v) / OtherPairs(n)
  }

  lemma ShareIsPairShare(f: Levels, v: nat, t: nat)
    requires f.Valid() && v < f.n && t < f.n
    ensures f.Share(v, t) == PairShare(f.R, f.s, t, v)
  {
    LevelIsDistance(f, t);
    LevelIsDistance(f, v);
    PathsPositive(f, t);
    if f.dist[t] >= 0 {
      assert |ShortestPaths(f.R, f.s, t)| as real == f.Paths(t);
      if f.dist[v] >= 0 {
        ThroughCount(f.R, f.s, v, t, f.dist[v], f.dist[t]);
      } else {
        NoneThroughUnreached(f, v, t);
      }
    }
  }

  lemma NoneThroughUnreached(f: Levels, v: nat, t: nat)
    requires f.Valid() && v < f.n && t < f.n && f.dist[v] < 0 && f.dist[t] >= 0
    ensures PathsThrough(f.R, f.s, t, v) == {}
  {
    LevelIsDistance(f, t);
    ShortestExactly(f.R, f.s, t, f.dist[t]);
    forall p | p in ShortestPaths(f.R, f.s, t) ensures v !in p {
      forall i | 0 <= i < |p| ensures p[i] != v {
        WalkSlice(f.R, p, 0, i);
        LevelBound(f, f.s, p[i], p[0..i + 1]);
      }
    }
  }

  lemma DependIsPairShares(f: Levels, v: nat)
    requires f.Valid() && v < f.n && v != f.s
    ensures f.Depend(v) == Sum(f.n, t => if t == v || t == f.s then 0.0 else PairShare(f.R, f.s, t, v))
  {
    var g := t => if t == v then 0.0 else f.Share(v, t);
    var h := t => if t == v || t == f.s then 0.0 else PairShare(f.R, f.s, t, v);
    forall t: nat | t < f.n ensures g(t) == h(t) {
      ShareIsPairShare(f, v, t);
    }
    SumExt(f.n, g, h);
  }

  // ---- the value lies in [0, 1] ----

  lemma PairShareRange(R: set<(nat, nat)>, s: int, t: int, v: int)
    ensures 0.0 <= PairShare(R, s, t, v) <= 1.0
  {
    if s >= 0 && t >= 0 && v >= 0 && ShortestPaths(R, s, t) != {} {
      SubsetSize(PathsThrough(R, s, t, v), ShortestPaths(R, s, t));
      FractionRange(|PathsThrough(R, s, t, v)| as real, |ShortestPaths(R, s, t)| as real);
    }
  }

  lemma FractionRange(a: real, b: real)
    requires 0.0 <= a <= b && b > 0.0
    ensures 0.0 <= a / b <= 1.0
  {
    assert a / b * b == a;
  }

  /** A sum of `n - 1` non-zero terms at most `c` each. */
  lemma SumSkipOne(n: nat, k: nat, c: real)
    requires k < n
    ensures Sum(n, i => if i == k then 0.0 else c) == (n - 1) as real * c
  {
    SumConst(n, c);
    SumUpdate(n, k, i => c, i => if i == k then 0.0 else c);
  }

  lemma SumSkipTwo(n: nat, k: nat, j: nat)
    requires k < n && j < n && k != j
    ensures Sum(n, i => if i == k || i == j then 0.0 else 1.0) == (n - 2) as real
  {
    SumSkipOne(n, k, 1.0);
    SumUpdate(n, j, i => if i == k then 0.0 else 1.0, i => if i == k || i == j then 0.0 else 1.0);
  }

  lemma CentralityRange(R: set<(nat, nat)>, n: nat, v: nat)
    requires v < n
    ensures 0.0 <= Centrality(R, n, v) <= 1.0
  {
    var inner := s => Sum(n, t => if t == v || t == s then 0.0 else PairShare(R, s, t, v));
    var outer := s => if s == v then 0.0 else inner(s);
    var cap := (n - 2) as real;
    forall s: nat | s < n && s != v ensures 0.0 <= inner(s) <= cap {
      var g := t => if t == v || t == s then 0.0 else PairShare(R, s, t, v);
      var h := t => if t == v || t == s then 0.0 else 1.0;
      forall t: nat ensures 0.0 <= g(t) <= h(t) {
        PairShareRange(R, s, t, v);
      }
      SumZero(n, t => 0.0);
      SumMono(n, t => 0.0, g);
      SumMono(n, g, h);
      SumSkipTwo(n, v, s);
    }
    SumZero(n, s => 0.0);
    SumMono(n, s => 0.0, outer);
    SumMono(n, outer, s => if s == v then 0.0 else cap);
    SumSkipOne(n, v, cap);
    var total := Gathered(R, n, n, v);
    assert total == Sum(n, outer) by {
      SumExt(n, s => if s == v then 0.0 else Sum(n, t => if t == v || t == s then 0.0 else PairShare(R, s, t, v)), outer);
    }
    if n > 2 {
      PairsCast(n);
      FractionRange(total, ((n - 1) * (n - 2)) as real);
    } else {
      assert total <= (n - 1) as real * cap <= 0.0;
    }
  }

  lemma PairsCast(n: nat)
    requires n > 2
    ensures ((n - 1) * (n - 2)) as real == (n - 1) as real * (n - 2) as real > 0.0
  {
    assert (n - 1) * (n - 2) > 0;
  }
}
