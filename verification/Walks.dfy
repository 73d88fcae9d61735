/** Walks over a finite relation, as node sequences, and reachability by them: the vocabulary in
    which every graph theorem here is stated, with its composition laws. */
module Walks {

  /** `p` is a non-empty sequence of nodes, each consecutive pair related by `R`. */
  ghost predicate IsWalk<T>(R: set<(T, T)>, p: seq<T>) {
    |p| > 0 && forall i :: 0 <= i < |p| - 1 ==> (p[i], p[i + 1]) in R
  }

  ghost predicate WalkFrom<T>(R: set<(T, T)>, a: T, b: T, p: seq<T>) {
    IsWalk(R, p) && p[0] == a && p[|p| - 1] == b
  }

  ghost predicate Reach<T(!new)>(R: set<(T, T)>, a: T, b: T) {
    exists p :: WalkFrom(R, a, b, p)
  }

  /** No edge leaves `S`. */
  ghost predicate Closed<T>(R: set<(T, T)>, S: set<T>) {
    forall e :: e in R && e.0 in S ==> e.1 in S
  }

  lemma ReachSelf<T(!new)>(R: set<(T, T)>, a: T)
    ensures Reach(R, a, a)
  {
    assert WalkFrom(R, a, a, [a]);
  }

  lemma WalkSnoc<T>(R: set<(T, T)>, a: T, b: T, c: T, p: seq<T>)
    requires WalkFrom(R, a, b, p) && (b, c) in R
    ensures WalkFrom(R, a, c, p + [c])
  {
  }

  /** Dropping the last node of a walk of at least one edge. */
  lemma WalkInit<T>(R: set<(T, T)>, a: T, c: T, p: seq<T>)
    requires WalkFrom(R, a, c, p) && |p| >= 2
    ensures WalkFrom(R, a, p[|p| - 2], p[..|p| - 1])
    ensures (p[|p| - 2], c) in R
    ensures p == p[..|p| - 1] + [c]
  {
    assert (p[|p| - 2], p[|p| - 2 + 1]) in R;
  }

  lemma WalkConcat<T>(R: set<(T, T)>, a: T, b: T, c: T, p: seq<T>, q: seq<T>)
    requires WalkFrom(R, a, b, p) && WalkFrom(R, b, c, q)
    ensures WalkFrom(R, a, c, p + q[1..])
  {
    var r := p + q[1..];
    forall i | 0 <= i < |r| - 1
      ensures (r[i], r[i + 1]) in R
    {
      if i >= |p| - 1 {
        assert (q[i - |p| + 1], q[i - |p| + 1 + 1]) in R;
      }
    }
  }

  /** Any contiguous part of a walk is a walk. */
  lemma WalkSlice<T>(R: set<(T, T)>, p: seq<T>, i: nat, j: nat)
    requires IsWalk(R, p) && i <= j < |p|
    ensures WalkFrom(R, p[i], p[j], p[i..j + 1])
  {
    var q := p[i..j + 1];
    forall k | 0 <= k < |q| - 1
      ensures (q[k], q[k + 1]) in R
    {
      assert (p[i + k], p[i + k + 1]) in R;
    }
  }

  lemma ReachStep<T(!new)>(R: set<(T, T)>, a: T, b: T, c: T)
    requires Reach(R, a, b) && (b, c) in R
    ensures Reach(R, a, c)
  {
    var p :| WalkFrom(R, a, b, p);
    WalkSnoc(R, a, b, c, p);
  }

  lemma ReachTrans<T(!new)>(R: set<(T, T)>, a: T, b: T, c: T)
    requires Reach(R, a, b) && Reach(R, b, c)
    ensures Reach(R, a, c)
  {
    var p :| WalkFrom(R, a, b, p);
    var q :| WalkFrom(R, b, c, q);
    WalkConcat(R, a, b, c, p, q);
  }

  lemma ReachEdge<T(!new)>(R: set<(T, T)>, a: T, b: T)
    requires (a, b) in R
    ensures Reach(R, a, b)
  {
    ReachSelf(R, a);
    ReachStep(R, a, a, b);
  }

  /** A walk never leaves a closed set it starts in. */
  lemma {:induction false} WalkStaysClosed<T>(R: set<(T, T)>, S: set<T>, p: seq<T>, k: nat)
    requires IsWalk(R, p) && Closed(R, S) && p[0] in S && k < |p|
    ensures p[k] in S
  {
    if k > 0 {
      WalkStaysClosed(R, S, p, k - 1);
      assert (p[k - 1], p[k - 1 + 1]) in R;
    }
  }

  lemma ReachStaysClosed<T(!new)>(R: set<(T, T)>, S: set<T>, a: T, b: T)
    requires Reach(R, a, b) && Closed(R, S) && a in S
    ensures b in S
  {
    var p :| WalkFrom(R, a, b, p);
    WalkStaysClosed(R, S, p, |p| - 1);
  }

  /** No edge enters `S` from outside. */
  ghost predicate BackClosed<T>(R: set<(T, T)>, S: set<T>) {
    forall e :: e in R && e.1 in S ==> e.0 in S
  }

  lemma {:induction false} WalkStaysBackClosed<T>(R: set<(T, T)>, S: set<T>, p: seq<T>, k: nat)
    requires IsWalk(R, p) && BackClosed(R, S) && p[|p| - 1] in S && k < |p|
    ensures p[k] in S
    decreases |p| - k
  {
    if k < |p| - 1 {
      WalkStaysBackClosed(R, S, p, k + 1);
      assert (p[k], p[k + 1]) in R;
    }
  }

  lemma ReachStaysBackClosed<T(!new)>(R: set<(T, T)>, S: set<T>, a: T, b: T)
    requires Reach(R, a, b) && BackClosed(R, S) && b in S
    ensures a in S
  {
    var p :| WalkFrom(R, a, b, p);
    WalkStaysBackClosed(R, S, p, 0);
  }
}
