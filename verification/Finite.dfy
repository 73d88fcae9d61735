/** Sizes of finite sets and of lists without duplicates, for arguments that a worklist ends
    because it only ever grows inside a finite set. */
module Finite {

  ghost predicate NoDup<T>(xs: seq<T>) {
    forall i, j :: 0 <= i < j < |xs| ==> xs[i] != xs[j]
  }

  /** The indices below `n`. */
  ghost function UpTo(n: nat): (r: set<nat>)
    ensures forall x: nat :: x in r <==> x < n
  {
    if n == 0 then {} else UpTo(n - 1) + {n - 1}
  }

  lemma {:induction false} UpToSize(n: nat)
    ensures |UpTo(n)| == n
  {
    if n > 0 {
      UpToSize(n - 1);
      assert n - 1 !in UpTo(n - 1);
    }
  }

  lemma SubsetSize<T>(A: set<T>, C: set<T>)
    requires A <= C
    ensures |A| <= |C|
  {
    assert C == A + (C - A);
  }

  lemma FirstIn<T>(s: seq<T>)
    ensures s != [] ==> s[0] in s
  {
  }

  lemma {:induction false} DistinctCard<T>(xs: seq<T>, S: set<T>)
    requires NoDup(xs) && forall x :: x in S <==> x in xs
    ensures |S| == |xs|
  {
    if xs == [] {
      assert S == {};
    } else {
      var last := xs[|xs| - 1];
      assert xs == xs[..|xs| - 1] + [last];
      DistinctCard(xs[..|xs| - 1], S - {last});
    }
  }

  ghost function Elements<T>(xs: seq<T>): set<T> {
    set x | x in xs
  }

  /** A list of distinct indices below `n` has at most `n` entries. */
  lemma DistinctBound(xs: seq<nat>, n: nat)
    requires NoDup(xs) && forall k :: 0 <= k < |xs| ==> xs[k] < n
    ensures |xs| <= n
  {
    DistinctCard(xs, Elements(xs));
    SubsetSize(Elements(xs), UpTo(n));
    UpToSize(n);
  }
}
