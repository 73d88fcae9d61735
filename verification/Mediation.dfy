/** Edges replaced by detours through added nodes keep all reachability. */
module Mediation {
  import opened Walks

  /** `M` is `D` with some edges routed through the nodes of `hubs`. */
  ghost predicate Mediates<T(!new)>(D: set<(T, T)>, M: set<(T, T)>, hubs: set<T>) {
    && Detoured(D, M, hubs)
    && (forall e :: e in D ==> e.0 !in hubs && e.1 !in hubs)
    && (forall e :: e in M && e.0 !in hubs && e.1 !in hubs ==> e in D)
    && (forall e :: e in M ==> e.0 !in hubs || e.1 !in hubs)
    && (forall e, f :: e in M && f in M && e.1 == f.0 && e.1 in hubs ==> (e.0, f.1) in D)
  }

  /** Every edge of `D` is in `M` or has a detour there. */
  ghost predicate Detoured<T(!new)>(D: set<(T, T)>, M: set<(T, T)>, hubs: set<T>) {
    forall e :: e in D ==> e in M || HasDetour(M, hubs, e)
  }

  ghost predicate HasDetour<T(!new)>(M: set<(T, T)>, hubs: set<T>, e: (T, T)) {
    exists h :: h in hubs && (e.0, h) in M && (h, e.1) in M
  }

  lemma {:induction false} DirectThenMediated<T(!new)>(D: set<(T, T)>, M: set<(T, T)>, hubs: set<T>, a: T, b: T, p: seq<T>)
    requires Detoured(D, M, hubs) && WalkFrom(D, a, b, p)
    ensures Reach(M, a, b)
    decreases |p|
  {
    if |p| == 1 {
      ReachSelf(M, a);
    } else {
      var u := p[|p| - 2];
      WalkInit(D, a, b, p);
      DirectThenMediated(D, M, hubs, a, u, p[..|p| - 1]);
      if (u, b) in M {
        ReachStep(M, a, u, b);
      } else {
        assert HasDetour(M, hubs, (u, b));
        var h :| h in hubs && (u, h) in M && (h, b) in M;
        ReachStep(M, a, u, h);
        ReachStep(M, a, h, b);
      }
    }
  }

  lemma {:induction false} MediatedThenDirect<T(!new)>(D: set<(T, T)>, M: set<(T, T)>, hubs: set<T>, a: T, b: T, p: seq<T>)
    requires Mediates(D, M, hubs) && WalkFrom(M, a, b, p) && a !in hubs && b !in hubs
    ensures Reach(D, a, b)
    decreases |p|
  {
    if |p| == 1 {
      ReachSelf(D, a);
    } else {
      var u, q := p[|p| - 2], p[..|p| - 1];
      WalkInit(M, a, b, p);
      if u in hubs {
        assert |q| >= 2;
        WalkInit(M, a, u, q);
        var t := q[|q| - 2];
        MediatedThenDirect(D, M, hubs, a, t, q[..|q| - 1]);
        assert (t, u) in M && (u, b) in M;
        ReachStep(D, a, t, b);
      } else {
        MediatedThenDirect(D, M, hubs, a, u, q);
        ReachStep(D, a, u, b);
      }
    }
  }

  /** Original nodes reach each other through the detours exactly when they did directly. */
  lemma SameReach<T(!new)>(D: set<(T, T)>, M: set<(T, T)>, hubs: set<T>, a: T, b: T)
    requires Mediates(D, M, hubs) && a !in hubs && b !in hubs
    ensures Reach(D, a, b) <==> Reach(M, a, b)
  {
    if Reach(D, a, b) {
      var p :| WalkFrom(D, a, b, p);
      DirectThenMediated(D, M, hubs, a, b, p);
    }
    if Reach(M, a, b) {
      var p :| WalkFrom(M, a, b, p);
      MediatedThenDirect(D, M, hubs, a, b, p);
    }
  }
}
