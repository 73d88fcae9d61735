/** Node sequences ordered by length, then lexicographically: the order in which the search
    prefers paths. It is antisymmetric, and extending both sequences by one node keeps it. */
module Shortlex {

  ghost predicate FirstDiffers(p: seq<nat>, q: seq<nat>, k: nat) {
    k < |p| == |q| && p[..k] == q[..k] && p[k] < q[k]
  }

  ghost predicate Before(p: seq<nat>, q: seq<nat>) {
    |p| < |q| || (|p| == |q| && exists k: nat :: FirstDiffers(p, q, k))
  }

  ghost predicate AtMost(p: seq<nat>, q: seq<nat>) {
    p == q || Before(p, q)
  }

  lemma Transitive(p: seq<nat>, q: seq<nat>, r: seq<nat>)
    requires Before(p, q) && Before(q, r)
    ensures Before(p, r)
  {
    if |p| == |q| == |r| {
      var i: nat :| FirstDiffers(p, q, i);
      var j: nat :| FirstDiffers(q, r, j);
      var k := if i < j then i else j;
      assert p[..k] == p[..i][..k] && q[..k] == q[..i][..k] && q[..k] == q[..j][..k] && r[..k] == r[..j][..k];
      assert FirstDiffers(p, r, k) by {
        assert i < j ==> q[i] == q[..j][i] == r[..j][i];
        assert j < i ==> p[j] == p[..i][j] == q[..i][j];
      }
    }
  }

  lemma AtMostTransitive(p: seq<nat>, q: seq<nat>, r: seq<nat>)
    requires AtMost(p, q) && AtMost(q, r)
    ensures AtMost(p, r)
  {
    if p != q && q != r {
      Transitive(p, q, r);
    }
  }

  lemma Irreflexive(p: seq<nat>)
    ensures !Before(p, p)
  {
  }

  lemma Antisymmetric(p: seq<nat>, q: seq<nat>)
    requires AtMost(p, q) && AtMost(q, p)
    ensures p == q
  {
    if p != q {
      Transitive(p, q, p);
      Irreflexive(p);
    }
  }

  /** Extending the smaller sequence by anything keeps it smaller. */
  lemma Extend(p: seq<nat>, q: seq<nat>, x: nat, y: nat)
    requires Before(p, q)
    ensures Before(p + [x], q + [y])
  {
    if |p| == |q| {
      var k: nat :| FirstDiffers(p, q, k);
      assert (p + [x])[..k] == p[..k] && (q + [y])[..k] == q[..k];
      assert FirstDiffers(p + [x], q + [y], k);
    }
  }

  lemma ExtendSame(p: seq<nat>, x: nat, y: nat)
    requires x < y
    ensures Before(p + [x], p + [y])
  {
    assert (p + [x])[..|p|] == p && (p + [y])[..|p|] == p;
    assert FirstDiffers(p + [x], p + [y], |p|);
  }

  lemma ExtendAtMost(p: seq<nat>, q: seq<nat>, x: nat)
    requires AtMost(p, q)
    ensures AtMost(p + [x], q + [x])
  {
    if p != q {
      Extend(p, q, x, x);
    }
  }
}
