/** The service dependency graph: loading, cycle check, blast-radius closure and call chains. */
module ServiceGraph {
  import opened Text
  import opened Paths

  // ---------------------------------------------------------------- transitive dependents

  type Adjacency = map<string, set<string>>

  function At(m: Adjacency, k: string): set<string> { if k in m then m[k] else {} }

  ghost function CallEdges(callers: Adjacency): set<Edge> {
    set t, c | t in callers && c in callers[t] :: (c, t)
  }

  /** The worklist loop. The queue may hold a node many times; `visited` filters on removal. */
  method CallerClosure(callers: Adjacency, start: string) returns (visited: set<string>)
    ensures visited == Upstream(CallEdges(callers), start)
  {
    ghost var E := CallEdges(callers);
    visited := {};
    var queue := Listed(At(callers, start));
    forall c | c in queue ensures Reaches(E, c, start) && c in Froms(E) {
      assert c in multiset(queue);
      assert (c, start) in E;
      EdgeReaches(E, c, start);
      ReachesIsFrom(E, c, start);
    }
    assert forall c :: (c, start) in E ==> c in multiset(queue);
    while queue != []
      invariant visited <= Froms(E)
      invariant forall c :: c in queue || c in visited ==> Reaches(E, c, start) && c in Froms(E)
      invariant forall c, t :: (c, t) in E && (t == start || t in visited) ==> c in visited || c in queue
      decreases |Froms(E) - visited|, |queue|
    {
      var node := queue[0];
      ghost var before := queue;
      queue := queue[1..];
      assert forall c :: c in before ==> c == node || c in queue;
      if node !in visited {
        assert Froms(E) - (visited + {node}) < Froms(E) - visited by { assert node in Froms(E) - visited; }
        SmallerSet(Froms(E) - (visited + {node}), Froms(E) - visited);
        visited := visited + {node};
        var more := Listed(At(callers, node));
        forall c | c in more ensures Reaches(E, c, start) && c in Froms(E) {
          assert c in multiset(more);
          assert (c, node) in E;
          EdgeReaches(E, c, node);
          ReachesTransitive(E, c, node, start);
          ReachesIsFrom(E, c, start);
        }
        assert forall c :: (c, node) in E ==> c in multiset(more);
        queue := queue + more;
      }
    }
    ClosedHoldsUpstream(E, start, visited);
  }

  lemma SmallerSet<T>(a: set<T>, b: set<T>)
    requires a < b
    ensures |a| < |b|
  {
    var x :| x in b && x !in a;
    SubsetSize(a, b - {x});
  }

  lemma {:induction false} SubsetSize<T>(a: set<T>, b: set<T>)
    requires a <= b
    ensures |a| <= |b|
  {
    if a != {} {
      var x :| x in a;
      SubsetSize(a - {x}, b - {x});
    }
  }

  // ---------------------------------------------------------------- the graph object

  /** The edges between declared services. */
  ghost function Inside(E: set<Edge>, nodes: set<string>): set<Edge> {
    set e | e in E && e.0 in nodes && e.1 in nodes
  }

  ghost function Callees(E: set<Edge>, n: string): set<string> { set e | e in E && e.0 == n :: e.1 }

  ghost function Callers(E: set<Edge>, n: string): set<string> { set e | e in E && e.1 == n :: e.0 }

  lemma NeighboursGrow(E: set<Edge>, e: Edge, n: string)
    ensures Callees(E + {e}, n) == if e.0 == n then Callees(E, n) + {e.1} else Callees(E, n)
    ensures Callers(E + {e}, n) == if e.1 == n then Callers(E, n) + {e.0} else Callers(E, n)
  {
    assert forall t :: t in Callees(E + {e}, n) <==> (n, t) in E + {e};
    assert forall t :: t in Callees(E, n) <==> (n, t) in E;
    assert forall c :: c in Callers(E + {e}, n) <==> (c, n) in E + {e};
    assert forall c :: c in Callers(E, n) <==> (c, n) in E;
  }

  ghost predicate Indexes(deps: Adjacency, rdeps: Adjacency, nodes: set<string>, E: set<Edge>) {
    && deps.Keys == nodes && rdeps.Keys == nodes
    && (forall n :: n in nodes ==> deps[n] == Callees(E, n))
    && (forall n :: n in nodes ==> rdeps[n] == Callers(E, n))
  }

  lemma IndexGrows(deps: Adjacency, rdeps: Adjacency, nodes: set<string>, E: set<Edge>, e: Edge)
    requires Indexes(deps, rdeps, nodes, E) && e.0 in nodes && e.1 in nodes
    ensures Indexes(deps[e.0 := deps[e.0] + {e.1}], rdeps[e.1 := rdeps[e.1] + {e.0}], nodes, E + {e})
  {
    forall n { NeighboursGrow(E, e, n); }
  }

  lemma InsideGrows(E: set<Edge>, e: Edge, nodes: set<string>)
    ensures Inside(E + {e}, nodes) == if e.0 in nodes && e.1 in nodes then Inside(E, nodes) + {e} else Inside(E, nodes)
  {}

  method IndexEdges(declared: set<string>, all: set<Edge>) returns (deps: Adjacency, rdeps: Adjacency)
    ensures Indexes(deps, rdeps, declared, Inside(all, declared))
  {
    deps := map n | n in declared :: {};
    rdeps := map n | n in declared :: {};
    var rest := all;
    while rest != {}
      invariant rest <= all
      invariant Indexes(deps, rdeps, declared, Inside(all - rest, declared))
      decreases rest
    {
      var e :| e in rest;
      var (src, dst) := e;
      ghost var seen := Inside(all - rest, declared);
      InsideGrows(all - rest, e, declared);
      assert all - (rest - {e}) == (all - rest) + {e};
      if src in deps && dst in deps {
        IndexGrows(deps, rdeps, declared, seen, e);
        deps := deps[src := deps[src] + {dst}];
        rdeps := rdeps[dst := rdeps[dst] + {src}];
      }
      rest := rest - {e};
    }
    assert all - rest == all;
  }

  class ServiceDependencyGraph {
    const nodes: seq<string>
    const edges: set<Edge>
    const dependencies: Adjacency
    const dependents: Adjacency

    ghost function NodeSet(): set<string> { ToSet(nodes) }

    ghost function Declared(): set<Edge> { Inside(edges, NodeSet()) }

    ghost predicate Valid() {
      && Increasing(nodes)
      && Indexes(dependencies, dependents, NodeSet(), Declared())
    }

    constructor (names: seq<string>, edgeList: seq<Edge>)
      ensures Valid()
      ensures NodeSet() == ToSet(names) && edges == ToSet(edgeList)
    {
      var declared := ToSet(names);
      var sorted := SortNames(declared);
      var all := ToSet(edgeList);
      var deps, rdeps := IndexEdges(declared, all);
      nodes, edges, dependencies, dependents := sorted, all, deps, rdeps;
      new;
      assert NodeSet() == declared;
    }

    /** None stands for the GraphError on an undeclared service. */
    method ReachableSet(service: string) returns (r: Option<set<string>>)
      requires Valid()
      ensures r == if service in NodeSet() then Some(Upstream(Declared(), service)) else None
    {
      if service !in dependents { return None; }
      var visited := CallerClosure(dependents, service);
      assert CallEdges(dependents) == Declared();
      r := Some(visited);
    }

    method BlastSetValidity(declared: seq<string>, target: string) returns (ok: bool)
      requires Valid()
      ensures ok <==> BlastValid(NodeSet(), edges, declared, target)
    {
      var graphNodes := ToSet(nodes);
      if target != "" && target !in graphNodes { return false; }
      var allowable := {};
      if target != "" {
        var reachable := ReachableSet(target);
        if reachable == None { return false; }
        allowable := {target} + reachable.value;
      }
      var declaredSet := ToSet(declared);
      ok := declaredSet <= graphNodes && declaredSet <= allowable;
      assert ok <==> forall s :: s in declared ==> s in graphNodes && s in allowable;
    }
  }

  // ---------------------------------------------------------------- the two other copies of the closure

  /** A declared blast set is acceptable: known services, all of them the target or its dependents. */
  ghost predicate BlastValid(nodes: set<string>, E: set<Edge>, declared: seq<string>, target: string) {
    && (target != "" ==> target in nodes)
    && forall s :: s in declared ==>
         s in nodes && target != "" && (s == target || s in Upstream(Inside(E, nodes), target))
  }

  ghost function TargetsInside(E: set<Edge>, nodes: set<string>): set<Edge> {
    set e | e in E && e.1 in nodes
  }

  /** Callers recorded under declared targets only, whoever they are (the planner's copy). */
  method SnapshotClosure(nodes: set<string>, edges: seq<Edge>, target: string) returns (r: set<string>)
    ensures r == Upstream(TargetsInside(ToSet(edges), nodes), target)
  {
    var callers: Adjacency := map n | n in nodes :: {};
    for i := 0 to |edges|
      invariant callers.Keys == nodes
      invariant forall n :: n in nodes ==> callers[n] == Callers(ToSet(edges[..i]), n)
    {
      var (src, dst) := edges[i];
      ToSetGrows(edges, i);
      forall n { NeighboursGrow(ToSet(edges[..i]), edges[i], n); }
      if dst in callers {
        callers := callers[dst := callers[dst] + {src}];
      }
    }
    assert edges[..|edges|] == edges;
    r := CallerClosure(callers, target);
    assert CallEdges(callers) == TargetsInside(ToSet(edges), nodes);
  }

  /** Callers recorded for every edge (the fact extractor's copy). */
  method FactClosure(edges: seq<Edge>, service: string) returns (r: set<string>)
    ensures r == Upstream(ToSet(edges), service)
  {
    var adjacency: Adjacency := map[];
    for i := 0 to |edges|
      invariant forall n :: At(adjacency, n) == Callers(ToSet(edges[..i]), n)
    {
      var (src, dst) := edges[i];
      ToSetGrows(edges, i);
      forall n { NeighboursGrow(ToSet(edges[..i]), edges[i], n); }
      adjacency := adjacency[dst := At(adjacency, dst) + {src}];
    }
    assert edges[..|edges|] == edges;
    r := CallerClosure(adjacency, service);
    ghost var E := ToSet(edges);
    forall e | e in E ensures e in CallEdges(adjacency) { assert e.0 in At(adjacency, e.1); }
    forall e | e in CallEdges(adjacency) ensures e in E { assert e.0 in At(adjacency, e.1); }
    assert CallEdges(adjacency) == E;
  }

  method SnapshotBlastSetValidity(declared: seq<string>, target: string, nodes: seq<string>, edges: seq<Edge>)
    returns (ok: bool)
    ensures ok <==> BlastValid(ToSet(nodes), ToSet(edges), declared, target)
  {
    var graphNodes := ToSet(nodes);
    if target != "" && target !in graphNodes { return false; }
    var visited := SnapshotClosure(graphNodes, edges, target);
    var allowable := if target != "" then {target} + visited else {};
    var declaredSet := ToSet(declared);
    ok := declaredSet <= graphNodes && declaredSet <= allowable;
    assert ok <==> forall s :: s in declared ==> s in graphNodes && s in allowable;
    if target != "" {
      UndeclaredCallersOnlyAtTheEdge(ToSet(edges), graphNodes, target);
      ghost var E := ToSet(edges);
      assert forall s :: s in graphNodes ==> (s in visited <==> s in Upstream(Inside(E, graphNodes), target));
    }
  }

  /** The planner's copy differs from the graph's only by undeclared callers. */
  lemma UndeclaredCallersOnlyAtTheEdge(E: set<Edge>, nodes: set<string>, target: string)
    requires target in nodes
    ensures Upstream(TargetsInside(E, nodes), target) * nodes == Upstream(Inside(E, nodes), target)
  {
    var T, I := TargetsInside(E, nodes), Inside(E, nodes);
    forall c | c in Upstream(T, target) && c in nodes ensures c in Upstream(I, target) {
      var p :| PathFromTo(T, p, c, target);
      forall i | 0 <= i < |p| - 1 ensures (p[i], p[i + 1]) in I {
        assert (p[i], p[i + 1]) in T;
        if i > 0 { assert (p[i - 1], p[i]) in T; }
      }
      assert PathFromTo(I, p, c, target);
      ReachesIsFrom(I, c, target);
    }
    forall c | c in Upstream(I, target) ensures c in Upstream(T, target) && c in nodes {
      ReachesMonotone(I, T, c, target);
      ReachesIsFrom(T, c, target);
    }
  }

  /** No undeclared service calls `s` or a dependent of `s` that the graph sees. */
  ghost predicate DeclaredCallers(E: set<Edge>, nodes: set<string>, s: string) {
    forall c, t :: (c, t) in E && (t == s || t in Upstream(Inside(E, nodes), s)) ==> c in nodes
  }

  lemma CallerIsUpstream(E: set<Edge>, c: string, t: string, s: string)
    requires (c, t) in E && (t == s || t in Upstream(E, s))
    ensures c in Upstream(E, s)
  {
    EdgeReaches(E, c, t);
    if t != s { ReachesTransitive(E, c, t, s); }
    ReachesIsFrom(E, c, s);
  }

  lemma UpstreamMonotone(E: set<Edge>, F: set<Edge>, s: string)
    requires E <= F
    ensures Upstream(E, s) <= Upstream(F, s)
  {
    forall c | c in Upstream(E, s) ensures c in Upstream(F, s) {
      ReachesMonotone(E, F, c, s);
      ReachesIsFrom(F, c, s);
    }
  }

  /** The planner sees one step further than the graph: every caller of what the graph sees. */
  lemma PlannerSeesTheCallers(E: set<Edge>, nodes: set<string>, s: string)
    requires s in nodes
    ensures forall c :: c in Upstream(TargetsInside(E, nodes), s) <==>
              exists t :: (c, t) in E && (t == s || t in Upstream(Inside(E, nodes), s))
  {
    var T, I := TargetsInside(E, nodes), Inside(E, nodes);
    var seen := set e | e in E && (e.1 == s || e.1 in Upstream(I, s)) :: e.0;
    UndeclaredCallersOnlyAtTheEdge(E, nodes, s);
    assert Upstream(T, s) <= seen by {
      forall c, t | (c, t) in T && (t == s || t in seen) ensures c in seen {
        if t != s {
          var u :| (t, u) in E && (u == s || u in Upstream(I, s));
          assert (t, u) in I;
          CallerIsUpstream(I, t, u, s);
        }
        assert (c, t) in E;
      }
      ClosedHoldsUpstream(T, s, seen);
    }
    forall c, t | (c, t) in E && (t == s || t in Upstream(I, s)) ensures c in Upstream(T, s) {
      CallerIsUpstream(T, c, t, s);
    }
  }

  /** The graph misses a dependent exactly when an undeclared service calls something it sees. */
  lemma WhenTheGraphSeesAll(E: set<Edge>, nodes: set<string>, s: string)
    requires s in nodes
    ensures (Upstream(Inside(E, nodes), s) == Upstream(E, s)) == DeclaredCallers(E, nodes, s)
    ensures (Upstream(Inside(E, nodes), s) == Upstream(E, s)) == (Upstream(E, s) <= nodes)
  {
    var I := Inside(E, nodes);
    UpstreamMonotone(I, E, s);
    if Upstream(E, s) <= nodes {
      forall c, t | (c, t) in E && (t == s || t in Upstream(I, s)) ensures c in nodes {
        CallerIsUpstream(E, c, t, s);
      }
    }
    if DeclaredCallers(E, nodes, s) {
      forall c, t | (c, t) in E && (t == s || t in Upstream(I, s)) ensures c in Upstream(I, s) {
        assert (c, t) in I;
        CallerIsUpstream(I, c, t, s);
      }
      ClosedHoldsUpstream(E, s, Upstream(I, s));
    }
  }

  /** The planner and the graph agree under the same condition. */
  lemma WhenThePlannerSeesTheGraph(E: set<Edge>, nodes: set<string>, s: string)
    requires s in nodes
    ensures (Upstream(TargetsInside(E, nodes), s) == Upstream(Inside(E, nodes), s)) == DeclaredCallers(E, nodes, s)
  {
    var T, I := TargetsInside(E, nodes), Inside(E, nodes);
    UndeclaredCallersOnlyAtTheEdge(E, nodes, s);
    PlannerSeesTheCallers(E, nodes, s);
    if Upstream(T, s) == Upstream(I, s) {
      forall c, t | (c, t) in E && (t == s || t in Upstream(I, s)) ensures c in nodes {
        assert c in Upstream(T, s);
      }
    }
  }

  /** The planner misses a dependent exactly when an undeclared one it sees has a caller it does not see. */
  lemma WhenThePlannerSeesAll(E: set<Edge>, nodes: set<string>, s: string)
    requires s in nodes
    ensures var seen := Upstream(TargetsInside(E, nodes), s);
            (seen == Upstream(E, s)) == (forall c, t :: (c, t) in E && t in seen && t !in nodes ==> c in seen)
  {
    var T := TargetsInside(E, nodes);
    var seen := Upstream(T, s);
    UpstreamMonotone(T, E, s);
    if seen == Upstream(E, s) {
      forall c, t | (c, t) in E && t in seen && t !in nodes ensures c in seen { CallerIsUpstream(E, c, t, s); }
    }
    if forall c, t :: (c, t) in E && t in seen && t !in nodes ==> c in seen {
      forall c, t | (c, t) in E && (t == s || t in seen) ensures c in seen {
        if t in nodes { CallerIsUpstream(T, c, t, s); }
      }
      ClosedHoldsUpstream(E, s, seen);
    }
  }

  /** With every endpoint declared the graph, the planner and the fact extractor see one closure. */
  lemma ThreeCopiesAgree(nodes: set<string>, E: set<Edge>, s: string)
    requires forall e :: e in E ==> e.0 in nodes && e.1 in nodes
    ensures Upstream(Inside(E, nodes), s) == Upstream(E, s) == Upstream(TargetsInside(E, nodes), s)
  {
    assert Inside(E, nodes) == E && TargetsInside(E, nodes) == E;
  }

  /** A chain through an undeclared service is seen by the fact extractor alone. */
  lemma UndeclaredServiceSplitsTheCopies()
    ensures var nodes, E := {"a", "b"}, {("a", "x"), ("x", "b")};
            "a" in Upstream(E, "b") && "a" !in Upstream(Inside(E, nodes), "b")
  {
    var E: set<Edge> := {("a", "x"), ("x", "b")};
    assert PathFromTo(E, ["a", "x", "b"], "a", "b");
    ReachesIsFrom(E, "a", "b");
    assert Inside(E, {"a", "b"}) == {} by {
      assert "a" != "x" && "b" != "x" by { assert "a"[0] != "x"[0] && "b"[0] != "x"[0]; }
    }
  }
}
