/** Finite sums over an index range and over lists, in exact arithmetic: extensionality, scaling,
    exchange of the order of summation, and sums with one term. */
module Sums {
  import opened Finite

  ghost function Sum(n: nat, f: int -> real): real {
    if n == 0 then 0.0 else Sum(n - 1, f) + f(n - 1)
  }

  lemma {:induction false} SumExt(n: nat, f: int -> real, g: int -> real)
    requires forall i: nat :: i < n ==> f(i) == g(i)
    ensures Sum(n, f) == Sum(n, g)
  {
    if n > 0 {
      SumExt(n - 1, f, g);
    }
  }

  lemma {:induction false} SumZero(n: nat, f: int -> real)
    requires forall i: nat :: i < n ==> f(i) == 0.0
    ensures Sum(n, f) == 0.0
  {
    if n > 0 {
      SumZero(n - 1, f);
    }
  }

  lemma {:induction false} SumAdd(n: nat, f: int -> real, g: int -> real)
    ensures Sum(n, i => f(i) + g(i)) == Sum(n, f) + Sum(n, g)
  {
    if n > 0 {
      SumAdd(n - 1, f, g);
    }
  }

  lemma {:induction false} SumScale(n: nat, c: real, f: int -> real)
    ensures Sum(n, i => c * f(i)) == c * Sum(n, f)
  {
    if n > 0 {
      SumScale(n - 1, c, f);
    }
  }

  /** The same for a summand known to be a multiple. */
  lemma SumScaled(n: nat, c: real, f: int -> real, g: int -> real)
    requires forall i: nat :: i < n ==> g(i) == c * f(i)
    ensures Sum(n, g) == c * Sum(n, f)
  {
    SumScale(n, c, f);
    SumExt(n, i => c * f(i), g);
  }

  /** Exchanging the order of a double sum. */
  lemma {:induction false} SumSwap(n: nat, m: nat, f: (int, int) -> real)
    ensures Sum(n, i => Sum(m, j => f(i, j))) == Sum(m, j => Sum(n, i => f(i, j)))
  {
    if n == 0 {
      SumZero(m, j => Sum(n, i => f(i, j)));
    } else {
      SumSwap(n - 1, m, f);
      var below := j => Sum(n - 1, i => f(i, j));
      var last := j => f(n - 1, j);
      SumAdd(m, below, last);
      forall j: nat | j < m
        ensures below(j) + last(j) == Sum(n, i => f(i, j))
      {
        SumExt(n - 1, i => f(i, j), i => f(i, j));
      }
      SumExt(m, j => below(j) + last(j), j => Sum(n, i => f(i, j)));
      SumExt(n - 1, i => Sum(m, j => f(i, j)), i => Sum(m, j => f(i, j)));
    }
  }

  /** Changing one summand changes the sum by the difference. */
  lemma {:induction false} SumUpdate(n: nat, k: nat, f: int -> real, g: int -> real)
    requires k < n
    requires forall i: nat :: i < n && i != k ==> f(i) == g(i)
    ensures Sum(n, g) == Sum(n, f) - f(k) + g(k)
  {
    if k == n - 1 {
      SumExt(n - 1, f, g);
    } else {
      SumUpdate(n - 1, k, f, g);
    }
  }

  /** A sum with one non-zero summand. */
  lemma SumSingle(n: nat, k: nat, f: int -> real)
    requires k < n
    requires forall i: nat :: i < n && i != k ==> f(i) == 0.0
    ensures Sum(n, f) == f(k)
  {
    SumZero(n, i => 0.0);
    SumUpdate(n, k, i => 0.0, f);
  }

  lemma {:induction false} SumMono(n: nat, f: int -> real, g: int -> real)
    requires forall i: nat :: i < n ==> f(i) <= g(i)
    ensures Sum(n, f) <= Sum(n, g)
  {
    if n > 0 {
      SumMono(n - 1, f, g);
    }
  }

  lemma {:induction false} SumConst(n: nat, c: real)
    ensures Sum(n, i => c) == n as real * c
  {
    if n > 0 {
      SumConst(n - 1, c);
      SumExt(n - 1, i => c, i => c);
    }
  }

  /** Entry `i`, zero outside the list. */
  ghost function At(f: seq<real>, i: int): real {
    if 0 <= i < |f| then f[i] else 0.0
  }

  ghost predicate InRange(xs: seq<nat>, n: nat) {
    forall k :: 0 <= k < |xs| ==> xs[k] < n
  }

  /** Sum of `f` over the entries of a list of indices. */
  ghost function SumList(xs: seq<nat>, f: seq<real>): real
    requires InRange(xs, |f|)
  {
    if xs == [] then 0.0 else SumList(xs[..|xs| - 1], f) + f[xs[|xs| - 1]]
  }

  lemma SumListSnoc(xs: seq<nat>, x: nat, f: seq<real>)
    requires x < |f| && InRange(xs, |f|)
    ensures SumList(xs + [x], f) == SumList(xs, f) + f[x]
  {
    assert (xs + [x])[..|xs|] == xs;
  }

  lemma {:induction false} SumListExt(xs: seq<nat>, f: seq<real>, g: seq<real>)
    requires |f| == |g| && InRange(xs, |f|)
    requires forall k :: 0 <= k < |xs| ==> f[xs[k]] == g[xs[k]]
    ensures SumList(xs, f) == SumList(xs, g)
  {
    if xs != [] {
      SumListExt(xs[..|xs| - 1], f, g);
    }
  }

  /** Over a list without duplicates, the list sum is an index-range sum guarded by membership. */
  lemma {:induction false} SumListAsSum(xs: seq<nat>, f: seq<real>)
    requires NoDup(xs) && InRange(xs, |f|)
    ensures SumList(xs, f) == Sum(|f|, i => if i in xs then At(f, i) else 0.0)
  {
    if xs == [] {
      SumZero(|f|, i => if i in xs then At(f, i) else 0.0);
    } else {
      var init, last := xs[..|xs| - 1], xs[|xs| - 1];
      SumListAsSum(init, f);
      assert xs == init + [last];
      assert last !in init;
      SumUpdate(|f|, last, i => if i in init then At(f, i) else 0.0,
                i => if i in xs then At(f, i) else 0.0);
    }
  }
}
