/** Directed graphs over service names: walks, reachability, cycles. */
module Paths {

  /** `(caller, callee)`: the caller depends on the callee. */
  type Edge = (string, string)

  ghost predicate IsPath(E: set<Edge>, p: seq<string>) {
    |p| >= 1 && forall i :: 0 <= i < |p| - 1 ==> (p[i], p[i + 1]) in E
  }

  ghost predicate PathFromTo(E: set<Edge>, p: seq<string>, a: string, b: string) {
    IsPath(E, p) && |p| >= 2 && p[0] == a && p[|p| - 1] == b
  }

  /** One or more edges lead from `a` to `b`. */
  ghost predicate Reaches(E: set<Edge>, a: string, b: string) {
    exists p :: PathFromTo(E, p, a, b)
  }

  ghost predicate Acyclic(E: set<Edge>) {
    forall a :: !Reaches(E, a, a)
  }

  ghost function Froms(E: set<Edge>): set<string> { set e | e in E :: e.0 }

  /** The transitive dependents of `s`: everything with a call chain ending in `s`. */
  ghost function Upstream(E: set<Edge>, s: string): set<string> {
    set c | c in Froms(E) && Reaches(E, c, s)
  }

  lemma EdgeReaches(E: set<Edge>, a: string, b: string)
    requires (a, b) in E
    ensures Reaches(E, a, b)
  {
    assert PathFromTo(E, [a, b], a, b);
  }

  lemma ReachesTransitive(E: set<Edge>, a: string, b: string, c: string)
    requires Reaches(E, a, b) && Reaches(E, b, c)
    ensures Reaches(E, a, c)
  {
    var p :| PathFromTo(E, p, a, b);
    var q :| PathFromTo(E, q, b, c);
    var r := p + q[1..];
    forall i | 0 <= i < |r| - 1 ensures (r[i], r[i + 1]) in E {
      if i >= |p| - 1 {
        assert r[i] == q[i - |p| + 1] && r[i + 1] == q[i - |p| + 2];
      }
    }
    assert PathFromTo(E, r, a, c);
  }

  lemma ReachesIsFrom(E: set<Edge>, a: string, b: string)
    requires Reaches(E, a, b)
    ensures a in Froms(E)
  {
    var p :| PathFromTo(E, p, a, b);
    assert (p[0], p[1]) in E;
  }

  lemma ReachesMonotone(E: set<Edge>, F: set<Edge>, a: string, b: string)
    requires E <= F && Reaches(E, a, b)
    ensures Reaches(F, a, b)
  {
    var p :| PathFromTo(E, p, a, b);
    assert PathFromTo(F, p, a, b);
  }

  /** A set that holds the callers of `s` and the callers of its own members holds all of `Upstream`. */
  lemma ClosedHoldsUpstream(E: set<Edge>, s: string, V: set<string>)
    requires forall c, t :: (c, t) in E && (t == s || t in V) ==> c in V
    ensures Upstream(E, s) <= V
  {
    forall c | c in Upstream(E, s) ensures c in V {
      var p :| PathFromTo(E, p, c, s);
      PathStaysIn(E, p, s, V, 0);
    }
  }

  lemma {:induction false} PathStaysIn(E: set<Edge>, p: seq<string>, s: string, V: set<string>, i: nat)
    requires IsPath(E, p) && i < |p| - 1 && p[|p| - 1] == s
    requires forall c, t :: (c, t) in E && (t == s || t in V) ==> c in V
    ensures p[i] in V
    decreases |p| - i
  {
    assert (p[i], p[i + 1]) in E;
    if i + 1 < |p| - 1 {
      PathStaysIn(E, p, s, V, i + 1);
    }
  }

  // ---------------------------------------------------------------- cycles

  ghost predicate CalledFrom(E: set<Edge>, U: set<string>, v: string) {
    exists u :: u in U && (u, v) in E
  }

  /** A walk of `n` nodes inside `U`, each preceded by a caller that is also in `U`. */
  lemma {:induction false} BackwardWalk(E: set<Edge>, U: set<string>, n: nat) returns (p: seq<string>)
    requires U != {} && n >= 1
    requires forall v :: v in U ==> CalledFrom(E, U, v)
    ensures |p| == n && IsPath(E, p) && forall i :: 0 <= i < n ==> p[i] in U
  {
    if n == 1 {
      var v :| v in U;
      p := [v];
    } else {
      var q := BackwardWalk(E, U, n - 1);
      assert CalledFrom(E, U, q[0]);
      var u :| u in U && (u, q[0]) in E;
      p := [u] + q;
    }
  }

  lemma {:induction false} Pigeonhole(U: set<string>, p: seq<string>) returns (i: nat, j: nat)
    requires |p| > |U| && forall k :: 0 <= k < |p| ==> p[k] in U
    ensures i < j < |p| && p[i] == p[j]
    decreases |p|
  {
    var last := p[|p| - 1];
    if k :| 0 <= k < |p| - 1 && p[k] == last {
      i, j := k, |p| - 1;
    } else {
      i, j := Pigeonhole(U - {last}, p[..|p| - 1]);
    }
  }

  /** If every node of a non-empty set has a caller in the set, the edges have a cycle. */
  lemma CycleFromCallers(E: set<Edge>, U: set<string>)
    requires U != {}
    requires forall v :: v in U ==> CalledFrom(E, U, v)
    ensures !Acyclic(E)
  {
    var p := BackwardWalk(E, U, |U| + 1);
    var i, j := Pigeonhole(U, p);
    var c := p[i..j + 1];
    forall k | 0 <= k < |c| - 1 ensures (c[k], c[k + 1]) in E {
      assert c[k] == p[i + k] && c[k + 1] == p[i + k + 1];
    }
    assert PathFromTo(E, c, p[i], p[i]);
    assert Reaches(E, p[i], p[i]);
  }

  /** `order` puts every caller before what it calls. */
  ghost predicate Topological(E: set<Edge>, order: seq<string>) {
    && (forall i, j :: 0 <= i < j < |order| ==> order[i] != order[j])
    && (forall a, b :: (a, b) in E ==> exists i, j :: 0 <= i < j < |order| && order[i] == a && order[j] == b)
  }

  lemma {:induction false} PathGoesForward(E: set<Edge>, order: seq<string>, p: seq<string>)
    returns (i: nat, j: nat)
    requires Topological(E, order) && IsPath(E, p) && |p| >= 2
    ensures i < j < |order| && order[i] == p[0] && order[j] == p[|p| - 1]
  {
    assert (p[0], p[1]) in E;
    i, j :| 0 <= i < j < |order| && order[i] == p[0] && order[j] == p[1];
    if |p| > 2 {
      forall k | 0 <= k < |p[1..]| - 1 ensures (p[1..][k], p[1..][k + 1]) in E {
        assert (p[k + 1], p[k + 2]) in E;
      }
      var i', j' := PathGoesForward(E, order, p[1..]);
      j := j';
    }
  }

  lemma TopologicalIsAcyclic(E: set<Edge>, order: seq<string>)
    requires Topological(E, order)
    ensures Acyclic(E)
  {
    forall a ensures !Reaches(E, a, a) {
      if Reaches(E, a, a) {
        var p :| PathFromTo(E, p, a, a);
        var i, j := PathGoesForward(E, order, p);
        assert false;
      }
    }
  }
}
