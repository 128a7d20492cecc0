/** Maximal call chains of an acyclic dependency graph. */
module Chains {
  import opened Text
  import opened Paths
  import opened ServiceGraph

  // ---------------------------------------------------------------- what the depth-first search yields

  ghost function Tos(E: set<Edge>): set<string> { set e | e in E :: e.1 }

  ghost function Below(E: set<Edge>, n: string): set<string> { set t | t in Tos(E) && Reaches(E, n, t) }

  lemma BelowShrinks(E: set<Edge>, n: string, m: string)
    requires Acyclic(E) && (n, m) in E
    ensures |Below(E, m)| < |Below(E, n)|
  {
    EdgeReaches(E, n, m);
    forall t | t in Below(E, m) ensures t in Below(E, n) { ReachesTransitive(E, n, m, t); }
    assert m in Below(E, n) && m !in Below(E, m);
    SmallerSet(Below(E, m), Below(E, n));
  }

  ghost function Last(p: seq<string>): string
    requires p != []
  { p[|p| - 1] }

  /** The chains that continue `path`, in the order the search meets them. */
  ghost function Extensions(E: set<Edge>, path: seq<string>): seq<seq<string>>
    requires Acyclic(E) && path != []
    decreases |Below(E, Last(path))|, 1, 0
  {
    var outgoing := Sorted(Callees(E, Last(path)));
    if outgoing == [] then [path] else ExtendBy(E, path, outgoing)
  }

  ghost function ExtendBy(E: set<Edge>, path: seq<string>, next: seq<string>): seq<seq<string>>
    requires Acyclic(E) && path != []
    requires forall n :: n in next ==> (Last(path), n) in E
    decreases |Below(E, Last(path))|, 0, |next|
  {
    if next == [] then [] else
      assert (Last(path), next[0]) in E;
      BelowShrinks(E, Last(path), next[0]);
      Extensions(E, path + [next[0]]) + ExtendBy(E, path, next[1..])
  }

  ghost function ChainsFrom(E: set<Edge>, entries: seq<string>): seq<seq<string>>
    requires Acyclic(E)
  {
    if entries == [] then [] else Extensions(E, [entries[0]]) + ChainsFrom(E, entries[1..])
  }

  // ---------------------------------------------------------------- exactly the maximal chains

  ghost predicate Terminal(E: set<Edge>, n: string) { Callees(E, n) == {} }

  ghost predicate Entry(E: set<Edge>, n: string) { Callers(E, n) == {} }

  /** `p` runs on from `path` along edges to a service that calls nothing. */
  ghost predicate Completes(E: set<Edge>, path: seq<string>, p: seq<string>)
    requires path != []
  {
    path <= p && IsPath(E, p[|path| - 1..]) && Terminal(E, Last(p))
  }

  lemma {:induction false} ExtensionsComplete(E: set<Edge>, path: seq<string>, p: seq<string>)
    requires Acyclic(E) && path != []
    ensures p in Extensions(E, path) <==> Completes(E, path, p)
    decreases |Below(E, Last(path))|, 1, 0
  {
    var last := Last(path);
    var outgoing := Sorted(Callees(E, last));
    assert forall n :: n in Callees(E, last) <==> n in outgoing;
    assert path <= p && |p| == |path| ==> p == path;
    if path <= p && |p| > |path| && IsPath(E, p[|path| - 1..]) {
      NextOnPath(E, path, p);
    }
    if outgoing != [] {
      ExtendByComplete(E, path, outgoing, p);
      assert outgoing[0] in Callees(E, last);
    } else {
      assert Callees(E, last) == {};
    }
  }

  lemma NextOnPath(E: set<Edge>, path: seq<string>, p: seq<string>)
    requires path != [] && path <= p && |p| > |path| && IsPath(E, p[|path| - 1..])
    ensures p[|path|] in Callees(E, Last(path))
  {
    var tail := p[|path| - 1..];
    assert tail[0] == Last(path) && (tail[0], tail[1]) in E;
  }

  lemma {:induction false} ExtendByComplete(E: set<Edge>, path: seq<string>, next: seq<string>, p: seq<string>)
    requires Acyclic(E) && path != []
    requires forall n :: n in next ==> (Last(path), n) in E
    ensures p in ExtendBy(E, path, next) <==> |p| > |path| && p[|path|] in next && Completes(E, path, p)
    decreases |Below(E, Last(path))|, 0, |next|
  {
    if next != [] {
      assert (Last(path), next[0]) in E;
      BelowShrinks(E, Last(path), next[0]);
      var longer := path + [next[0]];
      ExtensionsComplete(E, longer, p);
      ExtendByComplete(E, path, next[1..], p);
      OneStepFurther(E, path, next[0], p);
      assert next == [next[0]] + next[1..];
    }
  }

  lemma OneStepFurther(E: set<Edge>, path: seq<string>, n: string, p: seq<string>)
    requires path != [] && (Last(path), n) in E
    ensures Completes(E, path + [n], p) <==> Completes(E, path, p) && |p| > |path| && p[|path|] == n
  {
    if path <= p && |p| > |path| {
      var short, long := p[|path|..], p[|path| - 1..];
      assert long == [Last(path)] + short;
      if p[|path|] == n {
        assert path + [n] <= p;
        if IsPath(E, short) {
          forall i | 0 <= i < |long| - 1 ensures (long[i], long[i + 1]) in E {
            if i > 0 { assert long[i] == short[i - 1] && long[i + 1] == short[i]; }
          }
        }
        if IsPath(E, long) {
          forall i | 0 <= i < |short| - 1 ensures (short[i], short[i + 1]) in E {
            assert short[i] == long[i + 1] && short[i + 1] == long[i + 2];
          }
        }
      }
    }
    if path + [n] <= p { assert path <= p && p[|path|] == n; }
  }

  /** The search lists exactly the paths from an entry to a service that calls nothing. */
  lemma {:induction false} ChainsAreMaximalPaths(E: set<Edge>, entries: seq<string>, p: seq<string>)
    requires Acyclic(E)
    ensures p in ChainsFrom(E, entries) <==>
              IsPath(E, p) && p[0] in entries && Terminal(E, Last(p))
  {
    if entries != [] {
      ExtensionsComplete(E, [entries[0]], p);
      ChainsAreMaximalPaths(E, entries[1..], p);
      assert entries == [entries[0]] + entries[1..];
      assert p[0..] == p;
    }
  }

  // ---------------------------------------------------------------- in order, each once

  predicate PathLess(a: seq<string>, b: seq<string>) { Lex(StrLess, a, b) }

  ghost predicate Ascending(s: seq<seq<string>>) {
    forall i, j :: 0 <= i < j < |s| ==> PathLess(s[i], s[j])
  }

  lemma {:induction false} SharedPrefix(path: seq<string>, a: seq<string>, b: seq<string>)
    requires path <= a && path <= b && |a| > |path| && |b| > |path| && StrLess(a[|path|], b[|path|])
    ensures PathLess(a, b)
  {
    if path != [] {
      SharedPrefix(path[1..], a[1..], b[1..]);
    }
  }

  lemma {:induction false} ExtensionsAscend(E: set<Edge>, path: seq<string>)
    requires Acyclic(E) && path != []
    ensures Ascending(Extensions(E, path))
    decreases |Below(E, Last(path))|, 1, 0
  {
    var outgoing := Sorted(Callees(E, Last(path)));
    if outgoing != [] {
      ExtendByAscends(E, path, outgoing);
    }
  }

  lemma {:induction false} ExtendByAscends(E: set<Edge>, path: seq<string>, next: seq<string>)
    requires Acyclic(E) && path != [] && Increasing(next)
    requires forall n :: n in next ==> (Last(path), n) in E
    ensures Ascending(ExtendBy(E, path, next))
    decreases |Below(E, Last(path))|, 0, |next|
  {
    if next != [] {
      assert (Last(path), next[0]) in E;
      BelowShrinks(E, Last(path), next[0]);
      var longer := path + [next[0]];
      ExtensionsAscend(E, longer);
      ExtendByAscends(E, path, next[1..]);
      var front, back := Extensions(E, longer), ExtendBy(E, path, next[1..]);
      forall a, b | a in front && b in back ensures PathLess(a, b) {
        ExtensionsComplete(E, longer, a);
        ExtendByComplete(E, path, next[1..], b);
        assert a[|path|] == longer[|path|];
        var k :| 0 <= k < |next[1..]| && next[1..][k] == b[|path|];
        assert StrLess(next[0], next[k + 1]);
        SharedPrefix(path, a, b);
      }
      AscendingJoin(front, back);
    }
  }

  lemma AscendingJoin(front: seq<seq<string>>, back: seq<seq<string>>)
    requires Ascending(front) && Ascending(back)
    requires forall a, b :: a in front && b in back ==> PathLess(a, b)
    ensures Ascending(front + back)
  {
    var s := front + back;
    forall i, j | 0 <= i < j < |s| ensures PathLess(s[i], s[j]) {
      if j < |front| {
        assert s[i] == front[i] && s[j] == front[j];
      } else if i >= |front| {
        assert s[i] == back[i - |front|] && s[j] == back[j - |front|];
      } else {
        assert s[i] in front && s[j] in back;
      }
    }
  }

  lemma {:induction false} ChainsAscend(E: set<Edge>, entries: seq<string>)
    requires Acyclic(E) && Increasing(entries)
    ensures Ascending(ChainsFrom(E, entries))
  {
    if entries != [] {
      var front, back := Extensions(E, [entries[0]]), ChainsFrom(E, entries[1..]);
      ExtensionsAscend(E, [entries[0]]);
      ChainsAscend(E, entries[1..]);
      forall a, b | a in front && b in back ensures PathLess(a, b) {
        ExtensionsComplete(E, [entries[0]], a);
        ChainsAreMaximalPaths(E, entries[1..], b);
        var k :| 0 <= k < |entries[1..]| && entries[1..][k] == b[0];
        assert StrLess(entries[0], entries[k + 1]);
        SharedPrefix([], a, b);
      }
      AscendingJoin(front, back);
    }
  }

  lemma AscendingIsDistinct(s: seq<seq<string>>, i: nat, j: nat)
    requires Ascending(s) && i < j < |s|
    ensures s[i] != s[j]
  {
    StrOrder();
    assert PathLess(s[i], s[j]);
    LexIrreflexive(StrLess, s[i]);
  }

  // ---------------------------------------------------------------- none inside another

  ghost predicate PartOf(p: seq<string>, q: seq<string>) {
    exists before, after :: q == before + p + after
  }

  lemma NeighboursInPath(E: set<Edge>, before: seq<string>, p: seq<string>, after: seq<string>)
    requires IsPath(E, before + p + after) && p != []
    ensures before != [] ==> Callers(E, p[0]) != {}
    ensures after != [] ==> Callees(E, Last(p)) != {}
    ensures before == [] && after == [] ==> before + p + after == p
  {
    var q := before + p + after;
    if before != [] {
      assert (q[|before| - 1], q[|before|]) in E;
      assert q[|before| - 1] in Callers(E, p[0]);
    }
    if after != [] {
      var k := |before| + |p| - 1;
      assert (q[k], q[k + 1]) in E;
      assert q[k + 1] in Callees(E, Last(p));
    }
  }

  /** No chain is a contiguous part of a different one. */
  lemma ChainsAreMaximal(E: set<Edge>, p: seq<string>, q: seq<string>)
    requires p != [] && Entry(E, p[0]) && Terminal(E, Last(p))
    requires IsPath(E, q) && p != q
    ensures !PartOf(p, q)
  {
    forall before, after | q == before + p + after ensures before == [] && after == [] && q == p {
      NeighboursInPath(E, before, p, after);
    }
  }

  ghost predicate Subsequence(p: seq<string>, q: seq<string>) {
    p == [] || (q != [] && ((p[0] == q[0] && Subsequence(p[1..], q[1..])) || Subsequence(p, q[1..])))
  }

  /** Dropping "contiguous" breaks the claim: a direct call skips over the detour's middle service. */
  lemma ShortcutIsASubsequence()
    ensures var E := {("edge", "auth"), ("auth", "data"), ("edge", "data")};
            var short, long := ["edge", "data"], ["edge", "auth", "data"];
            && IsPath(E, short) && IsPath(E, long)
            && Entry(E, "edge") && Terminal(E, "data")
            && short != long && Subsequence(short, long)
  {
    var E: set<Edge> := {("edge", "auth"), ("auth", "data"), ("edge", "data")};
    var short, long := ["edge", "data"], ["edge", "auth", "data"];
    assert "auth"[0] != "edge"[0] && "data"[0] != "edge"[0] && "auth"[0] != "data"[0];
    assert short[1..] == ["data"] && long[1..] == ["auth", "data"] && long[1..][1..] == ["data"];
    assert Subsequence(["data"], ["data"]);
    assert Subsequence(["data"], ["auth", "data"]);
    forall e | e in E ensures e.1 != "edge" && e.0 != "data" {}
  }

  // ---------------------------------------------------------------- the search itself

  ghost predicate Follows(dependencies: Adjacency, E: set<Edge>) {
    forall n :: At(dependencies, n) == Callees(E, n)
  }

  /** `_dfs`: extends `allPaths` by every chain that continues `path`. */
  method Dfs(dependencies: Adjacency, ghost E: set<Edge>, path: seq<string>, allPaths: seq<seq<string>>)
    returns (r: seq<seq<string>>)
    requires Acyclic(E) && Follows(dependencies, E) && path != []
    ensures r == allPaths + Extensions(E, path)
    decreases |Below(E, Last(path))|
  {
    var current := path[|path| - 1];
    var outgoing := SortNames(At(dependencies, current));
    if outgoing == [] { return allPaths + [path]; }
    r := allPaths;
    var i := 0;
    assert outgoing[0..] == outgoing;
    forall n | n in outgoing ensures (current, n) in E { assert n in Callees(E, current); }
    while i < |outgoing|
      invariant 0 <= i <= |outgoing|
      invariant forall n :: n in outgoing[i..] ==> (current, n) in E
      invariant r + ExtendBy(E, path, outgoing[i..]) == allPaths + ExtendBy(E, path, outgoing)
    {
      ghost var rest := outgoing[i..];
      assert (current, rest[0]) in E;
      BelowShrinks(E, current, rest[0]);
      ghost var before := r;
      r := Dfs(dependencies, E, path + [outgoing[i]], r);
      assert rest[1..] == outgoing[i + 1..];
      Regroup(before, Extensions(E, path + [rest[0]]), ExtendBy(E, path, rest[1..]));
      i := i + 1;
    }
    assert outgoing[i..] == [];
    assert r + [] == r;
  }

  ghost function Entries(nodes: set<string>, E: set<Edge>): set<string> {
    set n | n in nodes && Entry(E, n)
  }

  /** All maximal chains of a graph, in the order `format_chains` prints them. */
  ghost function AllChains(nodes: set<string>, E: set<Edge>): seq<seq<string>>
    requires Acyclic(E)
  {
    ChainsFrom(E, Sorted(Entries(nodes, E)))
  }

  /** Exactly the entry-to-terminal paths, each once, in increasing order, none a contiguous part of another. */
  lemma AllChainsCharacterised(nodes: set<string>, E: set<Edge>)
    requires Acyclic(E)
    ensures forall p :: p in AllChains(nodes, E) <==>
              IsPath(E, p) && p[0] in nodes && Entry(E, p[0]) && Terminal(E, Last(p))
    ensures Ascending(AllChains(nodes, E)) && Distinct(AllChains(nodes, E))
    ensures forall p, q :: p in AllChains(nodes, E) && q in AllChains(nodes, E) && p != q ==> !PartOf(p, q)
  {
    var entries := Sorted(Entries(nodes, E));
    forall p ensures p in AllChains(nodes, E) <==>
                       IsPath(E, p) && p[0] in nodes && Entry(E, p[0]) && Terminal(E, Last(p)) {
      ChainsAreMaximalPaths(E, entries, p);
    }
    ChainsAscend(E, entries);
    var all := AllChains(nodes, E);
    forall i, j | 0 <= i < j < |all| ensures all[i] != all[j] { AscendingIsDistinct(all, i, j); }
    forall p, q | p in AllChains(nodes, E) && q in AllChains(nodes, E) && p != q ensures !PartOf(p, q) {
      ChainsAreMaximal(E, p, q);
    }
  }

  // ---------------------------------------------------------------- when one chain skips services of another

  /** A service calls another directly and also through a callee that leads there. */
  ghost predicate HasShortcut(E: set<Edge>) { exists a, b, c :: Shortcut(E, a, b, c) }

  ghost predicate Shortcut(E: set<Edge>, a: string, b: string, c: string) {
    (a, b) in E && (a, c) in E && b != c && Reaches(E, c, b)
  }

  lemma {:induction false} SubsequenceMember(p: seq<string>, q: seq<string>) returns (k: nat)
    requires p != [] && Subsequence(p, q)
    ensures k < |q| && q[k] == p[0]
    decreases |q|
  {
    if p[0] == q[0] {
      k := 0;
    } else {
      k := SubsequenceMember(p, q[1..]);
      k := k + 1;
    }
  }

  lemma {:induction false} SubsequenceTail(p: seq<string>, q: seq<string>)
    requires p != [] && Subsequence(p, q)
    ensures Subsequence(p[1..], q) && (p[0] == q[0] ==> Subsequence(p[1..], q[1..]))
    decreases |q|
  {
    if !(p[0] == q[0] && Subsequence(p[1..], q[1..])) {
      SubsequenceTail(p, q[1..]);
    }
  }

  lemma {:induction false} SubsequenceSkips(x: seq<string>, v: seq<string>)
    ensures Subsequence(v, x + v)
  {
    if x == [] {
      assert x + v == v;
      SubsequenceSelf(v);
    } else {
      SubsequenceSkips(x[1..], v);
      assert (x + v)[1..] == x[1..] + v;
    }
  }

  lemma {:induction false} SubsequenceSelf(v: seq<string>)
    ensures Subsequence(v, v)
  {
    if v != [] { SubsequenceSelf(v[1..]); }
  }

  lemma {:induction false} SubsequencePrefix(u: seq<string>, p: seq<string>, q: seq<string>)
    requires Subsequence(p, q)
    ensures Subsequence(u + p, u + q)
  {
    if u == [] {
      assert u + p == p && u + q == q;
    } else {
      SubsequencePrefix(u[1..], p, q);
      assert (u + p)[1..] == u[1..] + p && (u + q)[1..] == u[1..] + q;
    }
  }

  lemma TailIsPath(E: set<Edge>, p: seq<string>)
    requires IsPath(E, p) && |p| >= 2
    ensures IsPath(E, p[1..]) && (p[0], p[1]) in E && Last(p[1..]) == Last(p)
  {
    forall i | 0 <= i < |p[1..]| - 1 ensures (p[1..][i], p[1..][i + 1]) in E {
      assert (p[i + 1], p[i + 2]) in E;
    }
  }

  lemma SegmentReaches(E: set<Edge>, q: seq<string>, i: nat, j: nat)
    requires IsPath(E, q) && i < j < |q|
    ensures Reaches(E, q[i], q[j])
  {
    var s := q[i..j + 1];
    forall k | 0 <= k < |s| - 1 ensures (s[k], s[k + 1]) in E { assert (q[i + k], q[i + k + 1]) in E; }
    assert PathFromTo(E, s, q[i], q[j]);
  }

  lemma CallsOn(E: set<Edge>, q: seq<string>)
    requires IsPath(E, q) && |q| > 1
    ensures !Terminal(E, q[0])
  {
    assert (q[0], q[1]) in E;
    assert q[1] in Callees(E, q[0]);
  }

  lemma AloneIsWhole(E: set<Edge>, p: seq<string>, q: seq<string>)
    requires IsPath(E, q) && |p| == 1 && p[0] == q[0] && Terminal(E, p[0])
    ensures p == q
  {
    if |q| > 1 { CallsOn(E, q); }
  }

  /** Where the shorter chain first leaves the longer one it takes a shortcut. */
  lemma {:induction false} FirstSkip(E: set<Edge>, p: seq<string>, q: seq<string>)
    requires IsPath(E, p) && IsPath(E, q) && p[0] == q[0] && Terminal(E, Last(p)) && p != q && Subsequence(p, q)
    ensures HasShortcut(E)
  {
    SubsequenceTail(p, q);
    if |p| == 1 {
      AloneIsWhole(E, p, q);
    } else {
      TailIsPath(E, p);
      var k := SubsequenceMember(p[1..], q[1..]);
      TailIsPath(E, q);
      assert p == [p[0]] + p[1..] && q == [q[0]] + q[1..];
      if p[1] == q[1] {
        FirstSkip(E, p[1..], q[1..]);
      } else {
        SegmentReaches(E, q[1..], 0, k);
        assert Shortcut(E, p[0], p[1], q[1]);
      }
    }
  }

  lemma EntryStarts(E: set<Edge>, p: seq<string>, q: seq<string>)
    requires p != [] && Entry(E, p[0]) && IsPath(E, q) && Subsequence(p, q)
    ensures p[0] == q[0]
  {
    var k := SubsequenceMember(p, q);
    if k > 0 {
      assert (q[k - 1], q[k]) in E;
      assert q[k - 1] in Callers(E, p[0]);
    }
  }

  lemma PathsJoin(E: set<Edge>, p: seq<string>, q: seq<string>)
    requires IsPath(E, p) && IsPath(E, q) && (Last(p), q[0]) in E
    ensures IsPath(E, p + q) && (p + q)[0] == p[0] && Last(p + q) == Last(q)
  {
    var r := p + q;
    forall i | 0 <= i < |r| - 1 ensures (r[i], r[i + 1]) in E {
      if i >= |p| { assert (q[i - |p|], q[i - |p| + 1]) in E; }
    }
  }

  lemma UpstreamShrinks(E: set<Edge>, c: string, a: string)
    requires Acyclic(E) && (c, a) in E
    ensures |Upstream(E, c)| < |Upstream(E, a)|
  {
    EdgeReaches(E, c, a);
    forall t | t in Upstream(E, c) ensures t in Upstream(E, a) { ReachesTransitive(E, t, c, a); }
    ReachesIsFrom(E, c, a);
    assert c in Upstream(E, a) && c !in Upstream(E, c);
    SmallerSet(Upstream(E, c), Upstream(E, a));
  }

  lemma {:induction false} BackToAnEntry(E: set<Edge>, a: string) returns (u: seq<string>)
    requires Acyclic(E)
    ensures IsPath(E, u) && Entry(E, u[0]) && Last(u) == a
    decreases |Upstream(E, a)|
  {
    if Callers(E, a) == {} {
      u := [a];
    } else {
      var c :| c in Callers(E, a);
      assert (c, a) in E;
      UpstreamShrinks(E, c, a);
      u := BackToAnEntry(E, c);
      PathsJoin(E, u, [a]);
      u := u + [a];
    }
  }

  lemma {:induction false} OnToATerminal(E: set<Edge>, b: string) returns (v: seq<string>)
    requires Acyclic(E)
    ensures IsPath(E, v) && v[0] == b && Terminal(E, Last(v))
    decreases |Below(E, b)|
  {
    if Callees(E, b) == {} {
      v := [b];
    } else {
      var c :| c in Callees(E, b);
      assert (b, c) in E;
      BelowShrinks(E, b, c);
      v := OnToATerminal(E, c);
      PathsJoin(E, [b], v);
      v := [b] + v;
    }
  }

  lemma {:induction false} AlongAndOn(E: set<Edge>, w: seq<string>, v: seq<string>)
    requires IsPath(E, w) && IsPath(E, v) && |w| >= 2 && Last(w) == v[0]
    ensures IsPath(E, w[..|w| - 1] + v) && (w[..|w| - 1] + v)[0] == w[0] && Last(w[..|w| - 1] + v) == Last(v)
  {
    var front := w[..|w| - 1];
    forall i | 0 <= i < |front| - 1 ensures (front[i], front[i + 1]) in E { assert (w[i], w[i + 1]) in E; }
    assert (w[|w| - 2], w[|w| - 1]) in E;
    PathsJoin(E, front, v);
  }

  /** A shortcut, led back to an entry and on to a terminal, makes two chains. */
  lemma ShortcutMakesChains(E: set<Edge>, a: string, b: string, c: string) returns (p: seq<string>, q: seq<string>)
    requires Acyclic(E) && Shortcut(E, a, b, c)
    ensures IsPath(E, p) && Entry(E, p[0]) && Terminal(E, Last(p)) && |p| >= 2
    ensures IsPath(E, q) && Entry(E, q[0]) && Terminal(E, Last(q)) && |q| >= 2
    ensures |p| < |q| && Subsequence(p, q)
  {
    var u := BackToAnEntry(E, a);
    var v := OnToATerminal(E, b);
    var w :| PathFromTo(E, w, c, b);
    var x := w[..|w| - 1];
    AlongAndOn(E, w, v);
    PathsJoin(E, u, v);
    PathsJoin(E, u, x + v);
    p, q := u + v, u + (x + v);
    SubsequenceSkips(x, v);
    SubsequencePrefix(u, v, x + v);
  }

  ghost predicate SkipsIn(chains: seq<seq<string>>, p: seq<string>, q: seq<string>) {
    p in chains && q in chains && p != q && Subsequence(p, q)
  }

  /** Some chain is a subsequence of a different one exactly when some direct call is also a detour. */
  lemma WhenAChainSkips(nodes: set<string>, E: set<Edge>)
    requires Acyclic(E) && forall e :: e in E ==> e.0 in nodes && e.1 in nodes
    ensures (exists p, q :: SkipsIn(AllChains(nodes, E), p, q)) <==> HasShortcut(E)
  {
    AllChainsCharacterised(nodes, E);
    forall p, q | SkipsIn(AllChains(nodes, E), p, q) ensures HasShortcut(E) {
      EntryStarts(E, p, q);
      FirstSkip(E, p, q);
    }
    if HasShortcut(E) {
      var a, b, c :| Shortcut(E, a, b, c);
      var p, q := ShortcutMakesChains(E, a, b, c);
      assert (p[0], p[1]) in E && (q[0], q[1]) in E;
      assert SkipsIn(AllChains(nodes, E), p, q);
    }
  }

  /** The paths `format_chains` joins. */
  method CallChains(g: ServiceDependencyGraph) returns (allPaths: seq<seq<string>>)
    requires g.Valid() && Acyclic(g.Declared())
    ensures allPaths == AllChains(g.NodeSet(), g.Declared())
  {
    ghost var E := g.Declared();
    DependenciesFollow(g);
    var roots := set n | n in g.nodes && |g.dependents[n]| == 0;
    assert roots == Entries(g.NodeSet(), E);
    var entrypoints := SortNames(roots);
    allPaths := Search(g.dependencies, E, entrypoints);
  }

  lemma DependenciesFollow(g: ServiceDependencyGraph)
    requires g.Valid()
    ensures Follows(g.dependencies, g.Declared())
  {
    forall n ensures At(g.dependencies, n) == Callees(g.Declared(), n) {
      if n !in g.NodeSet() { assert Callees(g.Declared(), n) == {}; }
    }
  }

  method Search(dependencies: Adjacency, ghost E: set<Edge>, entrypoints: seq<string>)
    returns (allPaths: seq<seq<string>>)
    requires Acyclic(E) && Follows(dependencies, E)
    ensures allPaths == ChainsFrom(E, entrypoints)
  {
    allPaths := [];
    assert entrypoints[0..] == entrypoints;
    for i := 0 to |entrypoints|
      invariant allPaths + ChainsFrom(E, entrypoints[i..]) == ChainsFrom(E, entrypoints)
    {
      ghost var before, rest := allPaths, entrypoints[i..];
      allPaths := Dfs(dependencies, E, [entrypoints[i]], allPaths);
      assert rest[0] == entrypoints[i] && rest[1..] == entrypoints[i + 1..];
      Regroup(before, Extensions(E, [rest[0]]), ChainsFrom(E, rest[1..]));
    }
    assert allPaths + [] == allPaths;
  }

  function Join(separator: string, parts: seq<string>): string {
    if parts == [] then "" else if |parts| == 1 then parts[0]
    else parts[0] + separator + Join(separator, parts[1..])
  }

  /** The parts in order, with the separator between every two of them. */
  lemma {:induction false} WhatJoiningGives(separator: string, parts: seq<string>, last: string)
    ensures Join(separator, []) == "" && Join(separator, [last]) == last
    ensures parts != [] ==> Join(separator, parts + [last]) == Join(separator, parts) + separator + last
  {
    if |parts| > 1 {
      WhatJoiningGives(separator, parts[1..], last);
      assert (parts + [last])[1..] == parts[1..] + [last];
    } else if |parts| == 1 {
      assert (parts + [last])[1..] == [last];
    }
  }

  method FormatChains(g: ServiceDependencyGraph) returns (text: string)
    requires g.Valid() && Acyclic(g.Declared())
    ensures var chains := AllChains(g.NodeSet(), g.Declared());
            text == Join(", ", seq(|chains|, i requires 0 <= i < |chains| => Join(" -> ", chains[i])))
  {
    var allPaths := CallChains(g);
    text := Join(", ", seq(|allPaths|, i requires 0 <= i < |allPaths| => Join(" -> ", allPaths[i])));
  }
}
