/** Path counters and the comparison of a twin's traffic with production's. */
module Fidelity {
  import opened Text

  type Counts = map<string, int>

  function Count(m: Counts, path: string): int { if path in m then m[path] else 0 }

  function Bump(m: Counts, path: string): Counts { m[path := Count(m, path) + 1] }

  /** `m` counts exactly the paths in `log`. */
  ghost predicate CountsLog(m: Counts, log: multiset<string>) {
    && (forall p :: p in m <==> p in log)
    && (forall p :: p in m ==> m[p] == log[p])
  }

  lemma BumpCounts(m: Counts, log: multiset<string>, path: string)
    requires CountsLog(m, log)
    ensures CountsLog(Bump(m, path), log + multiset{path})
  {}

  ghost function Total(m: Counts, keys: set<string>): int
    requires keys <= m.Keys
  {
    if keys == {} then 0 else var k :| k in keys; m[k] + Total(m, keys - {k})
  }

  lemma {:induction false} TotalStep(m: Counts, keys: set<string>, k: string)
    requires keys <= m.Keys && k in keys
    ensures Total(m, keys) == m[k] + Total(m, keys - {k})
  {
    var j :| j in keys && Total(m, keys) == m[j] + Total(m, keys - {j});
    if j != k {
      TotalStep(m, keys - {j}, k);
      TotalStep(m, keys - {k}, j);
      assert keys - {j} - {k} == keys - {k} - {j};
    }
  }

  /** Path counters add up to the number of requests counted. */
  lemma {:induction false} CountersAddUp(m: Counts, keys: set<string>, log: multiset<string>)
    requires keys <= m.Keys
    requires (forall k :: k in keys ==> log[k] == m[k]) && (forall x :: x in log ==> x in keys)
    ensures Total(m, keys) == |log|
  {
    if keys != {} {
      var k :| k in keys;
      TotalStep(m, keys, k);
      var rest := log[k := 0];
      CountersAddUp(m, keys - {k}, rest);
      assert log == rest[k := log[k]];
    } else {
      assert log == multiset{};
    }
  }

  // ---------------------------------------------------------------- evaluate_twin_fidelity

  datatype Report = Report(delta: real, pathMatch: bool, ok: bool)

  function Abs(x: real): real { if x < 0.0 then -x else x }

  function Fraction(n: int, total: int): real
    requires total >= 0
  {
    if total > 0 then n as real / total as real else 0.0
  }

  function Delta(prod: nat, twin: nat): real {
    if prod == 0 then (if twin == 0 then 0.0 else 1.0) else Abs(1.0 - twin as real / prod as real)
  }

  /** Frequencies within 2 points of each other, and no path that production never saw. */
  ghost predicate PathsMatch(prod: nat, twin: nat, prodPaths: Counts, twinPaths: Counts) {
    if prod == 0 then twin == 0 else
      && (forall p :: p in prodPaths ==>
            Abs(Fraction(prodPaths[p], prod) - Fraction(Count(twinPaths, p), twin)) <= 0.02)
      && (forall p :: p in twinPaths ==> p in prodPaths || twinPaths[p] <= 0)
  }

  /** What the report calls OK. */
  ghost predicate IsOk(prod: nat, twin: nat, dropRatio: real, prodPaths: Counts, twinPaths: Counts,
                       deltaThreshold: real, maxDropRatio: real)
  {
    Delta(prod, twin) <= deltaThreshold && dropRatio <= maxDropRatio && PathsMatch(prod, twin, prodPaths, twinPaths)
  }

  method EvaluateTwinFidelity(prod: nat, twin: nat, dropRatio: real, prodPaths: Counts, twinPaths: Counts,
                              deltaThreshold: real := 0.02, maxDropRatio: real := 0.05)
    returns (r: Report)
    ensures r.delta == Delta(prod, twin)
    ensures r.pathMatch <==> PathsMatch(prod, twin, prodPaths, twinPaths)
    ensures r.ok <==> IsOk(prod, twin, dropRatio, prodPaths, twinPaths, deltaThreshold, maxDropRatio)
  {
    var delta;
    if prod == 0 {
      delta := if twin == 0 then 0.0 else 1.0;
    } else {
      delta := Abs(1.0 - twin as real / prod as real);
    }
    var pathMatch := true;
    if prod > 0 {
      pathMatch := CloseOnProductionPaths(prod, twin, prodPaths, twinPaths);
      var known := OnlyKnownPaths(prodPaths, twinPaths);
      pathMatch := pathMatch && known;
    } else if twin > 0 {
      pathMatch := false;
    }
    r := Report(delta, pathMatch, delta <= deltaThreshold && dropRatio <= maxDropRatio && pathMatch);
  }

  method CloseOnProductionPaths(prod: nat, twin: nat, prodPaths: Counts, twinPaths: Counts) returns (close: bool)
    requires prod > 0
    ensures close <==> forall p :: p in prodPaths ==>
              Abs(Fraction(prodPaths[p], prod) - Fraction(Count(twinPaths, p), twin)) <= 0.02
  {
    var rest := prodPaths.Keys;
    while rest != {}
      invariant rest <= prodPaths.Keys
      invariant forall p :: p in prodPaths && p !in rest ==>
                  Abs(Fraction(prodPaths[p], prod) - Fraction(Count(twinPaths, p), twin)) <= 0.02
      decreases rest
    {
      var path :| path in rest;
      var expected := prodPaths[path] as real / prod as real;
      var actual := if twin > 0 then Count(twinPaths, path) as real / twin as real else 0.0;
      if Abs(expected - actual) > 0.02 { return false; }
      rest := rest - {path};
    }
    close := true;
  }

  method OnlyKnownPaths(prodPaths: Counts, twinPaths: Counts) returns (known: bool)
    ensures known <==> forall p :: p in twinPaths ==> p in prodPaths || twinPaths[p] <= 0
  {
    var rest := twinPaths.Keys;
    while rest != {}
      invariant rest <= twinPaths.Keys
      invariant forall p :: p in twinPaths && p !in rest ==> p in prodPaths || twinPaths[p] <= 0
      decreases rest
    {
      var path :| path in rest;
      if path !in prodPaths && twinPaths[path] > 0 { return false; }
      rest := rest - {path};
    }
    known := true;
  }

  /** The delta is the missing or surplus share of production's requests, all of them when it had none. */
  lemma WhatTheDeltaIs(prod: nat, twin: nat)
    ensures prod > 0 && twin <= prod ==> Delta(prod, twin) * prod as real == (prod - twin) as real
    ensures prod > 0 && twin >= prod ==> Delta(prod, twin) * prod as real == (twin - prod) as real
    ensures prod == 0 ==> Delta(prod, twin) == if twin == 0 then 0.0 else 1.0
  {
    if prod > 0 { ShareOf(prod as real, twin as real); }
  }

  lemma ShareOf(prod: real, twin: real)
    requires prod > 0.0
    ensures twin / prod * prod == twin && (twin / prod <= 1.0 <==> twin <= prod)
    ensures (1.0 - twin / prod) * prod == prod - twin
  {}

  /** A share times the whole is the part; of nothing every share is zero. */
  lemma WhatAFractionIs(n: int, total: nat)
    ensures total > 0 ==> Fraction(n, total) * total as real == n as real
    ensures total == 0 ==> Fraction(n, total) == 0.0
  {}

  /** The share of a path in production's requests less that in the twin's. */
  ghost function ShareGap(prod: nat, twin: nat, prodPaths: Counts, twinPaths: Counts, p: string): real
    requires prod > 0 && p in prodPaths
  {
    prodPaths[p] as real / prod as real
    - (if twin == 0 || p !in twinPaths then 0.0 else twinPaths[p] as real / twin as real)
  }

  /** Paths match when no gap is over 2 points and the twin saw nothing new; without production, when it is idle. */
  lemma WhenPathsMatch(prod: nat, twin: nat, prodPaths: Counts, twinPaths: Counts)
    ensures prod > 0 ==>
              (PathsMatch(prod, twin, prodPaths, twinPaths) <==>
               && (forall p :: p in prodPaths ==> -0.02 <= ShareGap(prod, twin, prodPaths, twinPaths, p) <= 0.02)
               && (forall p :: p in twinPaths && p !in prodPaths ==> twinPaths[p] <= 0))
    ensures prod == 0 ==> (PathsMatch(prod, twin, prodPaths, twinPaths) <==> twin == 0)
  {
    if prod > 0 {
      forall p | p in prodPaths
        ensures Fraction(prodPaths[p], prod) - Fraction(Count(twinPaths, p), twin)
             == ShareGap(prod, twin, prodPaths, twinPaths, p) {}
    }
  }

  /** Equal counters give zero delta and matching paths. */
  lemma SameTrafficMatches(total: nat, paths: Counts)
    ensures Delta(total, total) == 0.0 && PathsMatch(total, total, paths, paths)
  {
    if total > 0 {
      assert total as real / total as real == 1.0;
      forall p | p in paths ensures Abs(Fraction(paths[p], total) - Fraction(Count(paths, p), total)) <= 0.02 {}
    }
  }

  /** Equal counters and no drop are OK at all thresholds but negative ones. */
  lemma SameTrafficIsOk(total: nat, paths: Counts, deltaThreshold: real, maxDropRatio: real)
    ensures IsOk(total, total, Fraction(0, total), paths, paths, deltaThreshold, maxDropRatio)
            == (deltaThreshold >= 0.0 && maxDropRatio >= 0.0)
  {
    SameTrafficMatches(total, paths);
    assert Fraction(0, total) == 0.0;
  }
}
