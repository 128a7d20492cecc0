/** Loading the dependency manifest: endpoint checks and Kahn's cycle check. */
module Manifest {
  import opened Text
  import opened Paths
  import opened ServiceGraph

  datatype GraphError = UnknownSource(name: string) | UnknownTarget(name: string) | Cyclic
  datatype Loaded = Graph(g: ServiceDependencyGraph) | Rejected(error: GraphError)

  /** How many edge entries, repeats counted, lead to `n` from a node not yet processed. */
  ghost function InDegree(edges: seq<Edge>, done: set<string>, n: string): nat {
    if edges == [] then 0 else
      var e := edges[|edges| - 1];
      InDegree(edges[..|edges| - 1], done, n) + if e.1 == n && e.0 !in done then 1 else 0
  }

  /** The targets listed for `n`, in manifest order, repeats kept. */
  ghost function Targets(edges: seq<Edge>, n: string): seq<string> {
    if edges == [] then [] else
      var e := edges[|edges| - 1];
      Targets(edges[..|edges| - 1], n) + if e.0 == n then [e.1] else []
  }

  lemma {:induction false} InDegreeZero(edges: seq<Edge>, done: set<string>, n: string)
    ensures InDegree(edges, done, n) == 0 <==> forall e :: e in edges && e.1 == n ==> e.0 in done
  {
    if edges != [] {
      var init := edges[..|edges| - 1];
      InDegreeZero(init, done, n);
      assert edges == init + [edges[|edges| - 1]];
    }
  }

  /** Processing `node` lowers the degree of `n` once for every time `n` is listed under `node`. */
  lemma {:induction false} InDegreeDrop(edges: seq<Edge>, done: set<string>, node: string, n: string)
    requires node !in done
    ensures InDegree(edges, done, n)
         == InDegree(edges, done + {node}, n) + multiset(Targets(edges, node))[n]
  {
    if edges != [] {
      InDegreeDrop(edges[..|edges| - 1], done, node, n);
    }
  }

  lemma {:induction false} TargetsAreEdges(edges: seq<Edge>, n: string, t: string)
    ensures t in Targets(edges, n) <==> (n, t) in edges
  {
    if edges != [] {
      var init := edges[..|edges| - 1];
      TargetsAreEdges(init, n, t);
      assert edges == init + [edges[|edges| - 1]];
    }
  }

  lemma DistinctSnoc<T>(s: seq<T>, x: T)
    ensures Distinct(s + [x]) <==> Distinct(s) && x !in s
  {
    var t := s + [x];
    assert forall i :: 0 <= i < |s| ==> t[i] == s[i];
    if Distinct(t) {
      forall i | 0 <= i < |s| ensures s[i] != x { assert t[i] != t[|s|]; }
    }
  }

  lemma {:induction false} DistinctSize<T>(s: seq<T>)
    ensures |ToSet(s)| <= |s|
    ensures |ToSet(s)| == |s| <==> Distinct(s)
  {
    if s != [] {
      var most, x := s[..|s| - 1], s[|s| - 1];
      assert s == most + [x];
      DistinctSize(most);
      DistinctSnoc(most, x);
      assert ToSet(s) == ToSet(most) + {x};
    }
  }

  /** What the main loop keeps: `order` lists the processed nodes. */
  ghost predicate Progress(
    nodes: set<string>, edges: seq<Edge>, inDegree: map<string, int>, order: seq<string>, queue: seq<string>)
  {
    && Pending(nodes, edges, inDegree, ToSet(order), [])
    && Settled(nodes, inDegree, order, queue)
    && Ordered(edges, order)
  }

  ghost predicate Settled(nodes: set<string>, inDegree: map<string, int>, order: seq<string>, queue: seq<string>) {
    && inDegree.Keys == nodes
    && Distinct(order + queue)
    && (forall n :: n in order + queue <==> n in nodes && inDegree[n] == 0)
  }

  ghost predicate Ordered(edges: seq<Edge>, order: seq<string>) {
    forall j, e :: 0 <= j < |order| && e in edges && e.1 == order[j] ==> e.0 in order[..j]
  }

  method BuildAdjacency(names: seq<string>, edges: seq<Edge>)
    returns (inDegree: map<string, int>, adjacency: map<string, seq<string>>)
    requires forall e :: e in edges ==> e.0 in names && e.1 in names
    ensures inDegree.Keys == adjacency.Keys == ToSet(names)
    ensures forall n :: n in names ==> inDegree[n] == InDegree(edges, {}, n)
    ensures forall n :: n in names ==> adjacency[n] == Targets(edges, n)
  {
    inDegree := map n | n in names :: 0;
    adjacency := map n | n in names :: [];
    for i := 0 to |edges|
      invariant inDegree.Keys == adjacency.Keys == ToSet(names)
      invariant Tallied(inDegree, edges[..i]) && Tabled(adjacency, edges[..i])
    {
      var (src, dst) := edges[i];
      assert edges[i] in edges && src in names && dst in names;
      TallyStep(inDegree, adjacency, edges[..i], edges[i]);
      assert edges[..i + 1] == edges[..i] + [edges[i]];
      adjacency := adjacency[src := adjacency[src] + [dst]];
      inDegree := inDegree[dst := inDegree[dst] + 1];
    }
    assert edges[..|edges|] == edges;
  }

  ghost predicate Tallied(inDegree: map<string, int>, edges: seq<Edge>) {
    forall n :: n in inDegree ==> inDegree[n] == InDegree(edges, {}, n)
  }

  ghost predicate Tabled(adjacency: map<string, seq<string>>, edges: seq<Edge>) {
    forall n :: n in adjacency ==> adjacency[n] == Targets(edges, n)
  }

  lemma TallyStep(inDegree: map<string, int>, adjacency: map<string, seq<string>>, edges: seq<Edge>, e: Edge)
    requires Tallied(inDegree, edges) && Tabled(adjacency, edges) && e.0 in adjacency && e.1 in inDegree
    ensures Tallied(inDegree[e.1 := inDegree[e.1] + 1], edges + [e])
    ensures Tabled(adjacency[e.0 := adjacency[e.0] + [e.1]], edges + [e])
  {
    var more := edges + [e];
    assert more[..|more| - 1] == edges;
    forall n | n in inDegree ensures InDegree(more, {}, n) == InDegree(edges, {}, n) + (if e.1 == n then 1 else 0) {}
    forall n | n in adjacency ensures Targets(more, n) == Targets(edges, n) + (if e.0 == n then [e.1] else []) {}
  }

  lemma HeadIsNew(order: seq<string>, queue: seq<string>)
    requires queue != [] && Distinct(order + queue)
    ensures queue[0] !in order
  {
    forall i | 0 <= i < |order| ensures order[i] != queue[0] {
      assert (order + queue)[i] != (order + queue)[|order|];
    }
  }

  lemma SettledStep(nodes: set<string>, inDegree: map<string, int>, order: seq<string>, queue: seq<string>, t: string)
    requires Settled(nodes, inDegree, order, queue) && t in nodes && inDegree[t] > 0
    ensures Settled(nodes, inDegree[t := inDegree[t] - 1], order, if inDegree[t] == 1 then queue + [t] else queue)
  {
    var seen := order + queue;
    assert t !in seen;
    assert order + (queue + [t]) == seen + [t];
  }

  lemma OrderedStep(nodes: set<string>, edges: seq<Edge>, inDegree: map<string, int>, order: seq<string>,
          queue: seq<string>)
    requires queue != [] && Progress(nodes, edges, inDegree, order, queue)
    ensures Ordered(edges, order + [queue[0]])
  {
    var node := queue[0];
    assert (order + queue)[|order|] == node;
    InDegreeZero(edges, ToSet(order), node);
    var longer := order + [node];
    forall j, e | 0 <= j < |longer| && e in edges && e.1 == longer[j] ensures e.0 in longer[..j] {
      if j == |order| {
        assert longer[..j] == order;
      } else {
        assert longer[..j] == order[..j];
      }
    }
  }

  /** Every counter is right once the targets in `rest` have been counted off. */
  ghost predicate Pending(nodes: set<string>, edges: seq<Edge>, inDegree: map<string, int>, done: set<string>,
          rest: seq<string>) {
    && inDegree.Keys == nodes
    && forall n :: n in nodes ==> inDegree[n] == InDegree(edges, done, n) + multiset(rest)[n]
  }

  lemma PendingStart(nodes: set<string>, edges: seq<Edge>, inDegree: map<string, int>, done: set<string>, node: string)
    requires node !in done && Pending(nodes, edges, inDegree, done, [])
    ensures Pending(nodes, edges, inDegree, done + {node}, Targets(edges, node))
  {
    forall n | n in nodes { InDegreeDrop(edges, done, node, n); }
  }

  lemma PendingStep(nodes: set<string>, edges: seq<Edge>, inDegree: map<string, int>, done: set<string>,
          rest: seq<string>)
    requires rest != [] && rest[0] in nodes && Pending(nodes, edges, inDegree, done, rest)
    ensures inDegree[rest[0]] > 0
    ensures Pending(nodes, edges, inDegree[rest[0] := inDegree[rest[0]] - 1], done, rest[1..])
  {
    assert rest == [rest[0]] + rest[1..];
  }

  /** One run of the inner loop: the head of the queue has just been taken off. */
  method Release(nodes: set<string>, edges: seq<Edge>, inDegree0: map<string, int>,
                 targets: seq<string>, ghost order: seq<string>, queue0: seq<string>)
    returns (inDegree: map<string, int>, queue: seq<string>)
    requires queue0 != [] && Progress(nodes, edges, inDegree0, order, queue0)
    requires targets == Targets(edges, queue0[0])
    requires forall t :: t in targets ==> t in nodes
    ensures Progress(nodes, edges, inDegree, order + [queue0[0]], queue)
  {
    ghost var node := queue0[0];
    inDegree, queue := inDegree0, queue0[1..];
    ghost var longer := order + [node];
    HeadIsNew(order, queue0);
    assert ToSet(longer) == ToSet(order) + {node};
    PendingStart(nodes, edges, inDegree, ToSet(order), node);
    assert order + queue0 == longer + queue;
    for i := 0 to |targets|
      invariant Settled(nodes, inDegree, longer, queue)
      invariant Pending(nodes, edges, inDegree, ToSet(longer), targets[i..])
    {
      var neighbor := targets[i];
      assert neighbor in targets && targets[i..][0] == neighbor && targets[i..][1..] == targets[i + 1..];
      PendingStep(nodes, edges, inDegree, ToSet(longer), targets[i..]);
      SettledStep(nodes, inDegree, longer, queue, neighbor);
      inDegree := inDegree[neighbor := inDegree[neighbor] - 1];
      if inDegree[neighbor] == 0 {
        queue := queue + [neighbor];
      }
    }
    OrderedStep(nodes, edges, inDegree0, order, queue0);
  }

  /** Drain the queue; the source counts the visited nodes, `order` also records their order. */
  method Drain(nodes: set<string>, edges: seq<Edge>, inDegree0: map<string, int>,
               adjacency: map<string, seq<string>>, queue0: seq<string>)
    returns (visitedCount: nat, ghost inDegree: map<string, int>, ghost order: seq<string>)
    requires Progress(nodes, edges, inDegree0, [], queue0)
    requires adjacency.Keys == nodes && forall n :: n in nodes ==> adjacency[n] == Targets(edges, n)
    requires forall e :: e in edges ==> e.0 in nodes && e.1 in nodes
    ensures visitedCount == |order| && Progress(nodes, edges, inDegree, order, [])
  {
    var degrees, queue := inDegree0, queue0;
    visitedCount, order := 0, [];
    while queue != []
      invariant visitedCount == |order| && Progress(nodes, edges, degrees, order, queue)
      decreases |nodes - ToSet(order)|
    {
      var node := queue[0];
      HeadIsNew(order, queue);
      assert node in order + queue;
      TargetsKnown(nodes, edges, node);
      degrees, queue := Release(nodes, edges, degrees, adjacency[node], order, queue);
      Shrinks(nodes, order, node);
      order := order + [node];
      visitedCount := visitedCount + 1;
    }
    inDegree := degrees;
  }

  /** Kahn's algorithm: every node is visited exactly when the names are distinct and no cycle exists. */
  method Kahn(names: seq<string>, edges: seq<Edge>) returns (visitedCount: nat, ghost order: seq<string>)
    requires forall e :: e in edges ==> e.0 in names && e.1 in names
    ensures visitedCount == |order| && Distinct(order) && ToSet(order) <= ToSet(names)
    ensures visitedCount == |names| ==> Topological(ToSet(edges), order)
    ensures visitedCount == |names| <==> Distinct(names) && Acyclic(ToSet(edges))
  {
    ghost var nodes := ToSet(names);
    var inDegree, adjacency := BuildAdjacency(names, edges);
    var queue := Roots(names, inDegree);
    assert [] + queue == queue && ToSet<string>([]) == {};
    ghost var degrees;
    visitedCount, degrees, order := Drain(ToSet(names), edges, inDegree, adjacency, queue);
    assert order + [] == order;
    Verdict(names, edges, degrees, order);
  }

  lemma TargetsKnown(nodes: set<string>, edges: seq<Edge>, n: string)
    requires forall e :: e in edges ==> e.0 in nodes && e.1 in nodes
    ensures forall t :: t in Targets(edges, n) ==> t in nodes
  {
    forall t | t in Targets(edges, n) ensures t in nodes { TargetsAreEdges(edges, n, t); }
  }

  lemma Shrinks(nodes: set<string>, order: seq<string>, node: string)
    requires node in nodes && node !in order
    ensures |nodes - ToSet(order + [node])| < |nodes - ToSet(order)|
  {
    assert nodes - ToSet(order + [node]) < nodes - ToSet(order) by {
      assert node in nodes - ToSet(order) && node in order + [node];
    }
    SmallerSet(nodes - ToSet(order + [node]), nodes - ToSet(order));
  }

  method Roots(names: seq<string>, inDegree: map<string, int>) returns (queue: seq<string>)
    requires inDegree.Keys == ToSet(names)
    ensures Distinct(queue) && forall n :: n in queue <==> n in names && inDegree[n] == 0
  {
    queue := [];
    for i := 0 to |names|
      invariant Distinct(queue)
      invariant forall n :: n in queue <==> n in names[..i] && inDegree[n] == 0
    {
      assert names[..i + 1] == names[..i] + [names[i]];
      assert names[i] in names;
      if inDegree[names[i]] == 0 && names[i] !in names[..i] {
        queue := queue + [names[i]];
      }
    }
    assert names[..|names|] == names;
  }

  lemma NothingMissing<T>(a: set<T>, b: set<T>)
    requires a <= b
    ensures b - a == {} ==> a == b
    ensures b - a != {} ==> a < b
  {
    assert b == a + (b - a);
  }

  /** When the queue runs dry, the unvisited nodes call each other in a circle. */
  lemma Verdict(names: seq<string>, edges: seq<Edge>, inDegree: map<string, int>, order: seq<string>)
    requires forall e :: e in edges ==> e.0 in names && e.1 in names
    requires Progress(ToSet(names), edges, inDegree, order, []) && Distinct(order) && ToSet(order) <= ToSet(names)
    ensures |order| == |names| ==> Topological(ToSet(edges), order)
    ensures |order| == |names| <==> Distinct(names) && Acyclic(ToSet(edges))
  {
    var nodes, E, U := ToSet(names), ToSet(edges), ToSet(names) - ToSet(order);
    assert order + [] == order;
    DistinctSize(order);
    DistinctSize(names);
    if U == {} {
      NothingMissing(ToSet(order), nodes);
      forall a, b | (a, b) in E ensures exists i, j :: 0 <= i < j < |order| && order[i] == a && order[j] == b {
        assert b in ToSet(order);
        var j :| 0 <= j < |order| && order[j] == b;
        assert (a, b) in edges && (a, b).0 in order[..j];
        var i :| 0 <= i < j && order[i] == a;
      }
      TopologicalIsAcyclic(E, order);
    } else {
      NothingMissing(ToSet(order), nodes);
      SmallerSet(ToSet(order), nodes);
      forall v | v in U ensures CalledFrom(E, U, v) {
        assert v !in order && inDegree[v] != 0;
        InDegreeZero(edges, ToSet(order), v);
        var e :| e in edges && e.1 == v && e.0 !in ToSet(order);
        assert e.0 in U && (e.0, v) in E;
      }
      CycleFromCallers(E, U);
    }
  }

  ghost predicate Known(names: seq<string>, e: Edge) { e.0 in names && e.1 in names }

  method FromManifest(names: seq<string>, edges: seq<Edge>) returns (r: Loaded)
    ensures r.Graph? <==>
              (forall e :: e in edges ==> Known(names, e)) && Distinct(names) && Acyclic(ToSet(edges))
    ensures r.Graph? ==> r.g.Valid() && r.g.NodeSet() == ToSet(names) && r.g.edges == ToSet(edges)
    ensures r.Rejected? && r.error == Cyclic ==> forall e :: e in edges ==> Known(names, e)
    ensures r.Rejected? && r.error != Cyclic ==>
              exists i :: 0 <= i < |edges| && (forall e :: e in edges[..i] ==> Known(names, e))
                && !Known(names, edges[i])
                && r.error == if edges[i].0 !in names then UnknownSource(edges[i].0) else UnknownTarget(edges[i].1)
  {
    for i := 0 to |edges|
      invariant forall e :: e in edges[..i] ==> Known(names, e)
    {
      assert edges[..i + 1] == edges[..i] + [edges[i]];
      assert edges[i] in edges;
      if edges[i].0 !in names { return Rejected(UnknownSource(edges[i].0)); }
      if edges[i].1 !in names { return Rejected(UnknownTarget(edges[i].1)); }
    }
    assert edges[..|edges|] == edges;
    var visitedCount, order := Kahn(names, edges);
    if visitedCount != |names| { return Rejected(Cyclic); }
    var g := new ServiceDependencyGraph(names, edges);
    r := Graph(g);
  }
}
