/** Normalising candidate plans against the live environment: drop, never repair, then re-index. */
module Validate {
  import opened Text
  import opened Paths
  import opened Plans
  import opened ServiceGraph
  import Inv = Inverse

  datatype Context = Context(
    deploys: seq<DeployRef>,
    nodes: seq<string>,
    edges: seq<Edge>,
    workloads: Option<set<string>>,
    alertService: Option<string>)

  function ValidWorkloads(c: Context): set<string> {
    if c.workloads.Some? then c.workloads.value else ToSet(c.nodes)
  }

  function ResolveWorkload(workload: string, valid: set<string>): Option<string> {
    if workload != "" && Strip(workload) in valid then Some(Strip(workload)) else None
  }

  /** The full commit of the first deploy the reference matches, if that deploy has an image for the workload. */
  function ResolveCommit(ref: Option<string>, deploys: seq<DeployRef>, workload: string): Option<string> {
    if !Given(ref) || Strip(ref.value) == "" then None else
      var d := FirstMatch(deploys, Strip(ref.value));
      if d.Some? && workload in d.value.digests && d.value.digests[workload] != "" then Some(d.value.commit) else None
  }

  /** The drop rules for the inverse the planner declared; what it says is otherwise ignored. */
  predicate DeclaredInverseFits(inverse: Option<Plan>, c: Context) {
    inverse.Some? ==>
      var q := inverse.value;
      && (q.params.workload != "" ==> q.params.workload in ValidWorkloads(c))
      && (q.action == RollbackDeploy && Given(q.params.targetCommit)
          ==> ResolveCommit(q.params.targetCommit, c.deploys, q.params.workload).Some?)
  }

  function Known(c: Context): Inv.Knowledge {
    Inv.Knowledge(c.deploys, None, None, Some(ValidWorkloads(c)), None)
  }

  /** The commit a plan goes on with; None drops it. */
  function Settled(p: Plan, workload: string, c: Context): Option<Params> {
    if p.action != RollbackDeploy then Some(p.params.(workload := workload)) else
      var commit := ResolveCommit(p.params.targetCommit, c.deploys, workload);
      if commit.None? then None else Some(p.params.(workload := workload, targetCommit := commit))
  }

  ghost predicate BlastFits(p: Plan, workload: string, c: Context) {
    BlastValid(ToSet(c.nodes), ToSet(c.edges), p.blast, workload)
  }

  /** None drops the plan. */
  ghost function Normalised(p: Plan, c: Context): Option<Plan> {
    var valid := ValidWorkloads(c);
    if p.action == NoAction then
      if p.blast != [] || (p.params.workload != "" && p.params.workload !in valid) then None else Some(p)
    else
      var workload := ResolveWorkload(p.params.workload, valid);
      if workload.None? || exists r :: r in p.targets && r.name !in valid then None else
      var params := Settled(p, workload.value, c);
      if params.None? || !BlastFits(p, workload.value, c) || !DeclaredInverseFits(p.inverse, c) then None else
      match Inv.SynthesizeInverse(p.(params := params.value), Known(c))
      case Inverse(q) => Some(p.(params := params.value, inverse := Some(q)))
      case _ => None
  }

  function CandidateId(i: nat): string { "plan_cand_" + Decimal(i) }

  function Reindexed(p: Plan, i: nat): Plan {
    var inverse :=
      if p.inverse.None? then None
      else Some(p.inverse.value.(id := Inv.InverseId(CandidateId(i)), index := i));
    p.(id := CandidateId(i), index := i, inverse := inverse)
  }

  /** The survivors in order. */
  ghost function Survivors(plans: seq<Plan>, c: Context): seq<Plan> {
    if plans == [] then [] else
      var before, last := Survivors(plans[..|plans| - 1], c), Normalised(plans[|plans| - 1], c);
      if last.Some? then before + [last.value] else before
  }

  ghost function NormalisedAll(plans: seq<Plan>, c: Context): seq<Plan> {
    var s := Survivors(plans, c);
    seq(|s|, i requires 0 <= i < |s| => Reindexed(s[i], i))
  }

  // ---------------------------------------------------------------- the code

  method NormalisePlan(p: Plan, c: Context) returns (r: Option<Plan>)
    ensures r == Normalised(p, c)
  {
    var valid := ValidWorkloads(c);
    if p.action == NoAction {
      if p.blast != [] { return None; }
      if p.params.workload != "" && p.params.workload !in valid { return None; }
      return Some(p);
    }
    var workload := ResolveWorkload(p.params.workload, valid);
    if workload.None? { return None; }
    for i := 0 to |p.targets|
      invariant forall k :: 0 <= k < i ==> p.targets[k].name in valid
    {
      if p.targets[i].name !in valid { return None; }
    }
    var params := Settled(p, workload.value, c);
    if params.None? { return None; }
    var fits := SnapshotBlastSetValidity(p.blast, workload.value, c.nodes, c.edges);
    if !fits || !DeclaredInverseFits(p.inverse, c) { return None; }
    var inverse := Inv.SynthesizeInverse(p.(params := params.value), Known(c));
    match inverse {
      case Inverse(q) => r := Some(p.(params := params.value, inverse := Some(q)));
      case _ => r := None;
    }
  }

  method NormalisePlans(plans: seq<Plan>, c: Context) returns (r: seq<Plan>)
    ensures r == NormalisedAll(plans, c)
  {
    var surviving: seq<Plan> := [];
    for i := 0 to |plans|
      invariant surviving == Survivors(plans[..i], c)
    {
      assert plans[..i + 1][..i] == plans[..i];
      var n := NormalisePlan(plans[i], c);
      if n.Some? { surviving := surviving + [n.value]; }
    }
    assert plans[..|plans|] == plans;
    r := [];
    for i := 0 to |surviving|
      invariant |r| == i && forall k :: 0 <= k < i ==> r[k] == Reindexed(surviving[k], k)
    {
      r := r + [Reindexed(surviving[i], i)];
    }
  }

  // ---------------------------------------------------------------- what a survivor is

  /** Dropped or kept, never repaired: a survivor differs from the plan only in resolved names and its inverse. */
  lemma DropNeverRepair(p: Plan, c: Context)
    ensures var r := Normalised(p, c);
            r.Some? ==>
              && r.value.action == p.action && r.value.targets == p.targets && r.value.blast == p.blast
              && r.value.rationale == p.rationale
              && (p.action == NoAction ==> r.value == p)
              && (p.action != NoAction ==> r.value.params.workload == Strip(p.params.workload))
              && r.value.params
                 == p.params.(workload := r.value.params.workload, targetCommit := r.value.params.targetCommit)
              && (p.action != RollbackDeploy ==> r.value.params.targetCommit == p.params.targetCommit)
  {}

  /** What a surviving plan that acts is known to satisfy. */
  ghost predicate Acceptable(p: Plan, c: Context) {
    && p.params.workload in ValidWorkloads(c)
    && (forall r :: r in p.targets ==> r.name in ValidWorkloads(c))
    && (forall s :: s in p.blast ==>
          s in c.nodes
          && (s == p.params.workload || s in Upstream(Inside(ToSet(c.edges), ToSet(c.nodes)), p.params.workload)))
    && p.inverse.Some? && p.inverse.value.targets == p.targets && p.inverse.value.blast == p.blast
    && p.inverse.value.action == p.action && p.inverse.value.params.workload == p.params.workload
    && p.inverse.value.inverse == None
  }

  lemma SurvivorsAreAcceptable(p: Plan, c: Context)
    ensures Normalised(p, c).Some? && p.action != NoAction ==> Acceptable(Normalised(p, c).value, c)
    ensures Normalised(p, c).Some? && p.action == NoAction ==> p.blast == []
  {
    if Normalised(p, c).Some? && p.action != NoAction {
      var r := Normalised(p, c).value;
      Inv.InverseKeepsTargets(p.(params := r.params), Known(c));
    }
  }

  /** No prior value is ever passed in, so a configuration change cannot be inverted and never survives. */
  lemma ConfigPlansNeverSurvive(p: Plan, c: Context)
    requires p.action == RevertConfig
    ensures Normalised(p, c) == None
  {
    forall q: Plan | q.action == RevertConfig ensures !Inv.SynthesizeInverse(q, Known(c)).Inverse? {
      assert Inv.BuildUndo(q, Known(c)) == Inv.UndoConfig(q, Known(c));
    }
  }

  // ---------------------------------------------------------------- which plans survive, and as what

  ghost predicate IsWorkload(c: Context, name: string) {
    match c.workloads case Some(names) => name in names case None => name in c.nodes
  }

  /** The reference names this recorded commit, which has an image for the workload. */
  ghost predicate Resolves(c: Context, ref: Option<string>, workload: string, commit: string) {
    && ref.Some? && Strip(ref.value) != ""
    && exists i :: FirstDeploy(c.deploys, Strip(ref.value), i) && c.deploys[i].commit == commit
                   && workload in c.deploys[i].digests && c.deploys[i].digests[workload] != ""
  }

  /** A chain of calls between declared services leads from `a` to `b`. */
  ghost predicate CallsDown(c: Context, chain: seq<string>, a: string, b: string) {
    && |chain| >= 2 && chain[0] == a && chain[|chain| - 1] == b
    && forall i :: 0 <= i < |chain| - 1 ==> Calls(c, chain[i], chain[i + 1])
  }

  ghost predicate Calls(c: Context, a: string, b: string) { (a, b) in c.edges && a in c.nodes && b in c.nodes }

  /** The workload is declared, and the blast set holds nothing but it and services that call down to it. */
  ghost predicate BlastIsClosed(c: Context, blast: seq<string>, workload: string) {
    workload in c.nodes && forall s :: s in blast ==> s == workload || exists chain :: CallsDown(c, chain, s, workload)
  }

  ghost predicate DeclaredIsSound(c: Context, inverse: Option<Plan>) {
    match inverse
    case None => true
    case Some(q) =>
      && (q.params.workload != "" ==> IsWorkload(c, q.params.workload))
      && (q.action == RollbackDeploy && q.params.targetCommit.Some? && q.params.targetCommit.value != "" ==>
            exists commit :: Resolves(c, q.params.targetCommit, q.params.workload, commit))
  }

  /** The parameters a plan goes on with: its workload trimmed, its commit in full. */
  ghost predicate GoesOnWith(p: Plan, c: Context, s: Params) {
    && s == p.params.(workload := s.workload, targetCommit := s.targetCommit)
    && s.workload == Strip(p.params.workload) && p.params.workload != "" && IsWorkload(c, s.workload)
    && if p.action == RollbackDeploy
       then s.targetCommit.Some? && Resolves(c, p.params.targetCommit, s.workload, s.targetCommit.value)
       else s.targetCommit == p.params.targetCommit
  }

  /** The plan survives as `r`. */
  ghost predicate SurvivesAs(p: Plan, c: Context, r: Plan) {
    if p.action == NoAction then
      r == p && |p.blast| == 0 && (p.params.workload != "" ==> IsWorkload(c, p.params.workload))
    else
      && r == p.(params := r.params, inverse := r.inverse)
      && GoesOnWith(p, c, r.params)
      && (forall t :: t in p.targets ==> IsWorkload(c, t.name))
      && BlastIsClosed(c, p.blast, r.params.workload) && DeclaredIsSound(c, p.inverse)
      && r.inverse.Some? && Inv.SynthesizeInverse(p.(params := r.params), Known(c)) == Inv.Inverse(r.inverse.value)
  }

  lemma ResolveIsResolves(ref: Option<string>, workload: string, commit: string, c: Context)
    ensures ResolveCommit(ref, c.deploys, workload) == Some(commit) <==> Resolves(c, ref, workload, commit)
  {
    if ref.Some? {
      assert Strip("") == "";
      FirstMatchIsFirst(c.deploys, Strip(ref.value));
      forall i, j | FirstDeploy(c.deploys, Strip(ref.value), i) && FirstDeploy(c.deploys, Strip(ref.value), j)
        ensures i == j {}
    }
  }

  lemma ResolvesSomehow(ref: Option<string>, workload: string, c: Context)
    ensures ResolveCommit(ref, c.deploys, workload).Some? <==> exists commit :: Resolves(c, ref, workload, commit)
  {
    var r := ResolveCommit(ref, c.deploys, workload);
    if r.Some? { ResolveIsResolves(ref, workload, r.value, c); }
    forall commit | Resolves(c, ref, workload, commit) ensures r.Some? { ResolveIsResolves(ref, workload, commit, c); }
  }

  lemma ReachedIsCalled(c: Context, a: string, b: string)
    ensures a in Upstream(Inside(ToSet(c.edges), ToSet(c.nodes)), b) <==> exists chain :: CallsDown(c, chain, a, b)
  {
    var E := Inside(ToSet(c.edges), ToSet(c.nodes));
    if a in Upstream(E, b) {
      var chain :| PathFromTo(E, chain, a, b);
      forall i | 0 <= i < |chain| - 1 ensures Calls(c, chain[i], chain[i + 1]) {
        assert (chain[i], chain[i + 1]) in E;
      }
      assert CallsDown(c, chain, a, b);
    }
    if chain :| CallsDown(c, chain, a, b) {
      forall i | 0 <= i < |chain| - 1 ensures (chain[i], chain[i + 1]) in E {
        assert Calls(c, chain[i], chain[i + 1]);
      }
      assert PathFromTo(E, chain, a, b);
      ReachesIsFrom(E, a, b);
    }
  }

  lemma BlastIsValid(c: Context, blast: seq<string>, workload: string)
    requires workload != ""
    ensures BlastValid(ToSet(c.nodes), ToSet(c.edges), blast, workload) <==> BlastIsClosed(c, blast, workload)
  {
    forall s ensures s in Upstream(Inside(ToSet(c.edges), ToSet(c.nodes)), workload) <==>
                     exists chain :: CallsDown(c, chain, s, workload)
    {
      ReachedIsCalled(c, s, workload);
    }
    forall s, chain | CallsDown(c, chain, s, workload) ensures s in c.nodes { assert Calls(c, chain[0], chain[1]); }
  }

  lemma DeclaredFitsIsSound(c: Context, inverse: Option<Plan>)
    ensures DeclaredInverseFits(inverse, c) <==> DeclaredIsSound(c, inverse)
  {
    if inverse.Some? { ResolvesSomehow(inverse.value.params.targetCommit, inverse.value.params.workload, c); }
  }

  lemma SettledIsGoingOn(p: Plan, c: Context, s: Params)
    requires p.action != NoAction
    ensures GoesOnWith(p, c, s) <==>
            var w := ResolveWorkload(p.params.workload, ValidWorkloads(c)); w.Some? && Settled(p, w.value, c) == Some(s)
  {
    if s.targetCommit.Some? {
      ResolveIsResolves(p.params.targetCommit, Strip(p.params.workload), s.targetCommit.value, c);
    }
  }

  /** Exactly the plans that meet every rule survive, each as itself with names resolved and its inverse made anew. */
  lemma WhenAPlanSurvives(p: Plan, c: Context, r: Plan)
    ensures Normalised(p, c) == Some(r) <==> SurvivesAs(p, c, r)
  {
    if p.action != NoAction {
      SettledIsGoingOn(p, c, r.params);
      DeclaredFitsIsSound(c, p.inverse);
      var w := Strip(p.params.workload);
      if w != "" { BlastIsValid(c, p.blast, w); }
    }
  }

  // ---------------------------------------------------------------- what the list is

  ghost function Kept(plans: seq<Plan>, c: Context): seq<nat> {
    if plans == [] then [] else
      var before := Kept(plans[..|plans| - 1], c);
      if Normalised(plans[|plans| - 1], c).Some? then before + [|plans| - 1] else before
  }

  /** An order-preserving selection: exactly the plans that are not dropped, each once, in their order. */
  lemma {:induction false} SelectionInOrder(plans: seq<Plan>, c: Context)
    ensures var kept, s := Kept(plans, c), Survivors(plans, c);
            && |kept| == |s|
            && (forall i :: 0 <= i < |kept| ==>
                  kept[i] < |plans| && Normalised(plans[kept[i]], c) == Some(s[i]))
            && (forall i, j :: 0 <= i < j < |kept| ==> kept[i] < kept[j])
            && (forall k :: 0 <= k < |plans| ==> (k in kept <==> Normalised(plans[k], c).Some?))
  {
    if plans != [] {
      var most := plans[..|plans| - 1];
      SelectionInOrder(most, c);
      assert forall k :: 0 <= k < |most| ==> most[k] == plans[k];
      var kept, before := Kept(plans, c), Kept(most, c);
      assert forall k :: k in kept <==> k in before || (k == |plans| - 1 && Normalised(plans[k], c).Some?);
    }
  }

  lemma CandidateIdsDiffer(i: nat, j: nat)
    requires CandidateId(i) == CandidateId(j)
    ensures i == j
  {
    assert CandidateId(i)[10..] == Decimal(i) && CandidateId(j)[10..] == Decimal(j);
    DecimalInjective(i, j);
  }

  /** Consecutive indices and distinct ids; every plan that acts has a fitting inverse named after it. */
  lemma NormalisedList(plans: seq<Plan>, c: Context)
    ensures var r := NormalisedAll(plans, c);
            && (forall i :: 0 <= i < |r| ==>
                  r[i].index == i && r[i].id == CandidateId(i) && r[i].action != RevertConfig)
            && (forall i, j :: 0 <= i < j < |r| ==> r[i].id != r[j].id)
            && (forall i :: 0 <= i < |r| && r[i].action != NoAction ==>
                  Acceptable(r[i], c) && r[i].inverse.value.id == r[i].id + "_inv" && r[i].inverse.value.index == i)
  {
    var s, r := Survivors(plans, c), NormalisedAll(plans, c);
    SelectionInOrder(plans, c);
    var kept := Kept(plans, c);
    forall i | 0 <= i < |r| ensures r[i].action != RevertConfig && (r[i].action != NoAction ==> Acceptable(s[i], c)) {
      var p := plans[kept[i]];
      DropNeverRepair(p, c);
      SurvivorsAreAcceptable(p, c);
      if p.action == RevertConfig { ConfigPlansNeverSurvive(p, c); }
    }
    forall i, j | 0 <= i < j < |r| ensures r[i].id != r[j].id {
      if r[i].id == r[j].id { CandidateIdsDiffer(i, j); }
    }
  }

  /** A survivor at its place in the list: renumbered and named by it, and its inverse with it. */
  ghost predicate Placed(s: Plan, i: nat, r: Plan) {
    && r == s.(id := r.id, index := i, inverse := r.inverse) && r.id == "plan_cand_" + Decimal(i)
    && (r.inverse.Some? <==> s.inverse.Some?)
    && (r.inverse.Some? ==>
          r.inverse.value == s.inverse.value.(id := "plan_cand_" + Decimal(i) + "_inv", index := i))
  }

  /** The list is the plans that survive, in their order, each at its place. */
  lemma WhatTheListHolds(plans: seq<Plan>, c: Context)
    ensures var r, kept := NormalisedAll(plans, c), Kept(plans, c);
            && |r| == |kept|
            && (forall i, j :: 0 <= i < j < |kept| ==> kept[i] < kept[j])
            && (forall k :: 0 <= k < |plans| ==> (k in kept <==> exists s :: SurvivesAs(plans[k], c, s)))
            && forall i :: 0 <= i < |r| ==>
                 kept[i] < |plans| && exists s :: SurvivesAs(plans[kept[i]], c, s) && Placed(s, i, r[i])
  {
    SelectionInOrder(plans, c);
    var r, kept, s := NormalisedAll(plans, c), Kept(plans, c), Survivors(plans, c);
    forall k | 0 <= k < |plans| ensures k in kept <==> exists x :: SurvivesAs(plans[k], c, x) {
      forall x { WhenAPlanSurvives(plans[k], c, x); }
      if Normalised(plans[k], c).Some? { assert SurvivesAs(plans[k], c, Normalised(plans[k], c).value); }
    }
    forall i | 0 <= i < |r| ensures exists x :: SurvivesAs(plans[kept[i]], c, x) && Placed(x, i, r[i]) {
      WhenAPlanSurvives(plans[kept[i]], c, s[i]);
      assert Placed(s[i], i, r[i]);
    }
  }

  // ---------------------------------------------------------------- normalising twice

  /** What a second pass asks of a survivor that rolls back: its commit and its inverse's commit resolve again. */
  predicate ResolvesAgain(q: Plan, c: Context) {
    q.action == RollbackDeploy && q.inverse.Some? ==>
      && ResolveCommit(q.params.targetCommit, c.deploys, q.params.workload) == q.params.targetCommit
      && (Given(q.inverse.value.params.targetCommit) ==>
            ResolveCommit(q.inverse.value.params.targetCommit, c.deploys, q.params.workload).Some?)
  }

  lemma SurvivorShape(p: Plan, c: Context)
    requires Normalised(p, c).Some? && p.action != NoAction
    ensures var q := Normalised(p, c).value;
            && q.params.workload != "" && Strip(q.params.workload) == q.params.workload
            && q.params.workload in ValidWorkloads(c) && BlastFits(q, q.params.workload, c)
            && !(exists r :: r in q.targets && r.name !in ValidWorkloads(c))
            && (q.action == RollbackDeploy ==>
                  && Given(q.params.targetCommit)
                  && ResolveCommit(p.params.targetCommit, c.deploys, q.params.workload) == q.params.targetCommit)
            && Inv.BuildUndo(q, Known(c)).Some?
            && var undo := Inv.BuildUndo(q, Known(c)).value;
               q.inverse == Some(Plan(
                   Inv.InverseId(p.id), p.index, p.action, undo.params, p.targets, p.blast, None, undo.rationale))
               && undo.params.workload == q.params.workload
               && (q.action == RollbackDeploy ==> undo.params.targetCommit.Some?)
  {}

  lemma SurvivorAgain(p: Plan, k: nat, c: Context)
    requires Normalised(p, c).Some? && p.action != NoAction
    requires ResolvesAgain(Normalised(p, c).value, c)
    ensures var q := Normalised(p, c).value; Normalised(Reindexed(q, k), c) == Some(Reindexed(q, k))
  {
    var q := Normalised(p, c).value;
    SurvivorShape(p, c);
    var x := Reindexed(q, k);
    assert ResolveWorkload(x.params.workload, ValidWorkloads(c)) == Some(q.params.workload);
    assert Settled(x, q.params.workload, c) == Some(q.params);
    assert DeclaredInverseFits(x.inverse, c);
    assert Inv.BuildUndo(x, Known(c)) == Inv.BuildUndo(q, Known(c));
    assert Inv.SynthesizeInverse(x, Known(c)) == Inv.Inverse(x.inverse.value);
  }

  /** A second pass leaves a survivor as it is exactly when its two commits resolve again. */
  lemma WhenASurvivorIsStable(p: Plan, k: nat, c: Context)
    requires Normalised(p, c).Some? && p.action != NoAction
    ensures var q := Normalised(p, c).value;
            Normalised(Reindexed(q, k), c) == Some(Reindexed(q, k)) <==> ResolvesAgain(q, c)
  {
    var q := Normalised(p, c).value;
    SurvivorShape(p, c);
    if ResolvesAgain(q, c) {
      SurvivorAgain(p, k, c);
    }
    var x := Reindexed(q, k);
    if Normalised(x, c) == Some(x) {
      assert Settled(x, q.params.workload, c) == Some(x.params);
      assert DeclaredInverseFits(x.inverse, c);
    }
  }

  /** Commit ids of one length without spaces, and an image for every workload in every deploy. */
  predicate Recorded(c: Context) {
    && (forall d, e :: d in c.deploys && e in c.deploys ==> |d.commit| == |e.commit|)
    && (forall d :: d in c.deploys ==> Trimmed(d.commit) && forall w :: w in ValidWorkloads(c) ==> HasImage(d, w))
  }

  predicate HasImage(d: DeployRef, w: string) { w in d.digests && d.digests[w] != "" }

  lemma {:induction false} FirstMatchIsAMatch(deploys: seq<DeployRef>, ref: string)
    ensures var d := FirstMatch(deploys, ref); d.Some? ==> d.value in deploys && SameCommit(d.value.commit, ref)
    ensures FirstMatch(deploys, ref).None? ==> forall d :: d in deploys ==> !SameCommit(d.commit, ref)
  {
    if deploys != [] {
      FirstMatchIsAMatch(deploys[1..], ref);
      assert deploys == [deploys[0]] + deploys[1..];
    }
  }

  /** With ids of one length a recorded commit resolves to itself. */
  lemma RecordedCommitsResolve(d: DeployRef, w: string, c: Context)
    requires Recorded(c) && d in c.deploys && w in ValidWorkloads(c) && d.commit != ""
    ensures ResolveCommit(Some(d.commit), c.deploys, w) == Some(d.commit)
  {
    FirstMatchIsAMatch(c.deploys, d.commit);
    var e := FirstMatch(c.deploys, d.commit).value;
    assert |e.commit| == |d.commit| && e.commit == d.commit && HasImage(e, w);
  }

  lemma RecordedResolvesAgain(p: Plan, c: Context)
    requires Recorded(c) && Normalised(p, c).Some? && p.action == RollbackDeploy
    ensures ResolvesAgain(Normalised(p, c).value, c)
  {
    var q := Normalised(p, c).value;
    SurvivorShape(p, c);
    var commit := q.params.targetCommit;
    FirstMatchIsAMatch(c.deploys, Strip(p.params.targetCommit.value));
    var d := FirstMatch(c.deploys, Strip(p.params.targetCommit.value)).value;
    RecordedCommitsResolve(d, q.params.workload, c);
    Inv.RollForwardLeavesTheTarget(p.(params := q.params), Known(c));
    var undo := q.inverse.value.params.targetCommit;
    var e :| e in c.deploys && e.commit == undo.value;
    if e.commit != "" { RecordedCommitsResolve(e, q.params.workload, c); }
  }

  ghost predicate Stable(p: Plan, c: Context) { Normalised(p, c) == Some(p) }

  lemma {:induction false} StablePlansAllSurvive(plans: seq<Plan>, c: Context)
    requires forall i :: 0 <= i < |plans| ==> Stable(plans[i], c)
    ensures Survivors(plans, c) == plans
  {
    if plans != [] {
      var most, last := plans[..|plans| - 1], plans[|plans| - 1];
      assert Stable(last, c);
      StablePlansAllSurvive(most, c);
      assert plans == most + [last];
    }
  }

  lemma {:induction false} WhenAllSurvive(plans: seq<Plan>, c: Context)
    ensures |Survivors(plans, c)| <= |plans|
    ensures |Survivors(plans, c)| == |plans| ==>
              forall i :: 0 <= i < |plans| ==> Normalised(plans[i], c) == Some(Survivors(plans, c)[i])
  {
    if plans != [] {
      WhenAllSurvive(plans[..|plans| - 1], c);
    }
  }

  /** A list that a pass leaves as it is has only stable plans, since the pass keeps their names. */
  lemma FixedPlansAreStable(r: seq<Plan>, i: nat, c: Context)
    requires i < |r| && r[i] == Reindexed(r[i], i) && NormalisedAll(r, c) == r
    ensures Stable(r[i], c)
  {
    WhenAllSurvive(r, c);
    var y := Normalised(r[i], c).value;
    assert NormalisedAll(r, c)[i] == Reindexed(y, i);
    if r[i].action != NoAction { SurvivorShape(r[i], c); }
  }

  /** What a second pass asks of a survivor. */
  ghost predicate Again(s: Plan, c: Context) { s.action != NoAction ==> ResolvesAgain(s, c) }

  lemma StableExactlyAgain(p: Plan, i: nat, c: Context)
    requires Normalised(p, c).Some?
    ensures Stable(Reindexed(Normalised(p, c).value, i), c) == Again(Normalised(p, c).value, c)
  {
    if p.action != NoAction { WhenASurvivorIsStable(p, i, c); }
  }

  lemma StablePlansAreFixed(r: seq<Plan>, c: Context)
    requires forall i :: 0 <= i < |r| ==> Stable(r[i], c) && Reindexed(r[i], i) == r[i]
    ensures NormalisedAll(r, c) == r
  {
    StablePlansAllSurvive(r, c);
  }

  /** Normalising a normalised list changes nothing exactly when every survivor's commits resolve again. */
  lemma WhenNormalisingTwiceIsOnce(plans: seq<Plan>, c: Context)
    ensures var r, s := NormalisedAll(plans, c), Survivors(plans, c);
            (NormalisedAll(r, c) == r) == (forall i :: 0 <= i < |s| ==> Again(s[i], c))
  {
    var r, s, kept := NormalisedAll(plans, c), Survivors(plans, c), Kept(plans, c);
    SelectionInOrder(plans, c);
    forall i | 0 <= i < |s| ensures Stable(r[i], c) == Again(s[i], c) {
      StableExactlyAgain(plans[kept[i]], i, c);
    }
    assert forall i :: 0 <= i < |r| ==> Reindexed(r[i], i) == r[i];
    if forall i :: 0 <= i < |s| ==> Again(s[i], c) {
      StablePlansAreFixed(r, c);
    }
    if NormalisedAll(r, c) == r {
      forall i | 0 <= i < |s| ensures Again(s[i], c) {
        FixedPlansAreStable(r, i, c);
      }
    }
  }

  /** That is so in a context where every deploy is recorded in full. */
  lemma NormalisingTwice(plans: seq<Plan>, c: Context)
    requires Recorded(c)
    ensures NormalisedAll(NormalisedAll(plans, c), c) == NormalisedAll(plans, c)
  {
    var s, kept := Survivors(plans, c), Kept(plans, c);
    SelectionInOrder(plans, c);
    forall i | 0 <= i < |s| ensures Again(s[i], c) {
      if s[i].action == RollbackDeploy { RecordedResolvesAgain(plans[kept[i]], c); }
    }
    WhenNormalisingTwiceIsOnce(plans, c);
  }

  /** Without a digest in the newest deploy, a rollback survives the first pass and not the second. */
  lemma SecondPassDropsAPlan()
    ensures exists p, c :: Normalised(p, c).Some? && Normalised(Reindexed(Normalised(p, c).value, 0), c) == None
  {
    var deploys := [DeployRef("aaa", map[]), DeployRef("bbb", map["w" := "img"])];
    var c := Context(deploys, ["w"], [], None, None);
    var p := Plan("p", 0, RollbackDeploy, NO_PARAMS.(workload := "w", targetCommit := Some("bbb")), [], [], None, "");
    assert ToSet(c.nodes) == {"w"} by { assert "w" in c.nodes; }
    assert Strip("w") == "w" && Strip("bbb") == "bbb" && Strip("aaa") == "aaa";
    assert !SameCommit("aaa", "bbb") by { assert "aaa"[0] != "bbb"[0]; }
    assert deploys[1..][0] == deploys[1];
    assert FirstMatch(deploys, "bbb") == Some(deploys[1]);
    assert FirstMatch(deploys, "aaa") == Some(deploys[0]);
    assert Normalised(p, c).Some?;
    var q := Normalised(p, c).value;
    assert q.inverse.value.params.targetCommit == Some("aaa");
    assert !DeclaredInverseFits(Reindexed(q, 0).inverse, c);
  }

  // ---------------------------------------------------------------- the NO_ACTION candidate

  /** The alert's service if it is a workload, else the first workload, else the alert's service, else a default. */
  ghost function NoActionWorkload(c: Context): string {
    var valid := ValidWorkloads(c);
    if c.alertService.Some? && c.alertService.value in valid then c.alertService.value
    else if valid != {} then FirstName(valid)
    else if Given(c.alertService) then c.alertService.value
    else "data-service"
  }

  ghost function FirstName(valid: set<string>): string
    requires valid != {}
  {
    var m :| m in valid;
    assert m in Sorted(valid);
    Sorted(valid)[0]
  }

  ghost function NoActionPlan(c: Context, index: nat): Plan {
    Plan(CandidateId(index), index, NoAction, NO_PARAMS.(workload := NoActionWorkload(c)), [], [], None,
         "Maintain current state without automated mutation")
  }

  ghost function Ensured(plans: seq<Plan>, c: Context): seq<Plan> {
    if exists p :: p in plans && p.action == NoAction then plans else plans + [NoActionPlan(c, |plans|)]
  }

  /** The ballot always offers doing nothing, adds it last and once, and keeps indices and ids in step. */
  lemma BallotOffersNoAction(plans: seq<Plan>, c: Context)
    ensures var r, b := NormalisedAll(plans, c), Ensured(NormalisedAll(plans, c), c);
            && r <= b && (exists p :: p in b && p.action == NoAction) && Ensured(b, c) == b && Numbered(b)
            && (b != r ==> |b| == |r| + 1 && forall p :: p in r ==> p.action != NoAction)
  {
    NormalisedList(plans, c);
    EnsuredList(NormalisedAll(plans, c), c);
  }

  ghost predicate Numbered(plans: seq<Plan>) {
    && (forall i :: 0 <= i < |plans| ==> plans[i].index == i && plans[i].id == CandidateId(i))
    && (forall i, j :: 0 <= i < j < |plans| ==> plans[i].id != plans[j].id)
  }

  lemma EnsuredList(r: seq<Plan>, c: Context)
    requires Numbered(r)
    ensures var b := Ensured(r, c);
            && Numbered(b) && r <= b && (exists p :: p in b && p.action == NoAction) && Ensured(b, c) == b
            && (b != r ==> |b| == |r| + 1 && forall p :: p in r ==> p.action != NoAction)
  {
    var b := Ensured(r, c);
    if b != r { assert b[|r|].action == NoAction && b[|r|] in b; }
    forall i, j | 0 <= i < j < |b| ensures b[i].id != b[j].id {
      if b[i].id == b[j].id { CandidateIdsDiffer(i, j); }
    }
  }

  /** The appended plan survives a normalisation of its own unless there is no workload at all. */
  lemma NoActionSurvives(c: Context, index: nat)
    ensures Normalised(NoActionPlan(c, index), c).Some? <==> ValidWorkloads(c) != {}
  {
    var valid := ValidWorkloads(c);
    if valid != {} {
      assert FirstName(valid) in Sorted(valid);
    }
  }
}
