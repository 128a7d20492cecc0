/** Deterministic synthesis of a plan's inverse. */
module Inverse {
  import opened Text
  import opened Plans

  /** What the caller may know: deploy history, explicit prior values, known workloads. */
  datatype Knowledge = Knowledge(
    recentDeploys: seq<DeployRef>,
    currentCommit: Option<string>,
    currentConfig: Option<string>,
    workloads: Option<set<string>>,
    configLookup: Option<map<string, map<string, string>>>)

  datatype Synthesis = NoInverse | Inverse(plan: Plan) | Refused

  datatype Undo = Undo(params: Params, rationale: string)

  function PriorConfig(k: Knowledge, workload: string, key: string): Option<string> {
    if k.currentConfig.Some? then k.currentConfig
    else if k.configLookup.None? then None
    else
      var lookup := k.configLookup.value;
      if workload in lookup && key in lookup[workload] then Some(lookup[workload][key])
      else if "" in lookup && key in lookup[""] then Some(lookup[""][key])
      else None
  }

  /** Neither the head nor the target, and with an image for the workload. */
  predicate Qualifies(d: DeployRef, head: string, workload: string, target: string) {
    && d.commit != head && !SameCommit(d.commit, target)
    && (workload == "" || d.digests == map[] || workload in d.digests)
  }

  function OlderDeploy(deploys: seq<DeployRef>, head: string, workload: string, target: string): Option<string> {
    if deploys == [] then None else
      if Qualifies(deploys[0], head, workload, target) then Some(deploys[0].commit)
      else OlderDeploy(deploys[1..], head, workload, target)
  }

  function PreIncidentCommit(k: Knowledge, workload: string, target: string): Option<string> {
    if k.currentCommit.Some? then k.currentCommit
    else if k.recentDeploys == [] then None
    else
      var head := k.recentDeploys[0].commit;
      if !SameCommit(target, head) then Some(head)
      else OlderDeploy(k.recentDeploys[1..], head, workload, target)
  }

  function Quote(s: string): string { "'" + s + "'" }

  function UndoScale(p: Plan): Option<Undo> {
    match p.params.replicaDelta
    case Some(d) =>
      if d == 0 then None
      else Some(Undo(NO_PARAMS.(workload := p.params.workload, replicaDelta := Some(-d)), "Scale back"))
    case None => None
  }

  function UndoFlag(p: Plan): Option<Undo> {
    if !Given(p.params.flagName) then None else
      var flag, workload := p.params.flagName.value, p.params.workload;
      Some(Undo(
        NO_PARAMS.(workload := workload, flagName := Some(flag)),
        (if ReEnables(p.rationale) then "Disable feature flag " else "Re-enable feature flag ")
        + Quote(flag) + " for " + workload))
  }

  function UndoConfig(p: Plan, k: Knowledge): Option<Undo> {
    if !Given(p.params.configKey) || p.params.configValue.None? then None else
      var key, workload := p.params.configKey.value, p.params.workload;
      match PriorConfig(k, workload, key)
      case Some(prior) =>
        Some(Undo(
          NO_PARAMS.(workload := workload, configKey := Some(key), configValue := Some(prior)),
          "Restore configuration key " + Quote(key) + " for " + workload + " to prior value " + Quote(prior)))
      case None => None
  }

  function UndoRollback(p: Plan, k: Knowledge): Option<Undo> {
    if !Given(p.params.targetCommit) then None else
      match PreIncidentCommit(k, p.params.workload, p.params.targetCommit.value)
      case Some(commit) =>
        Some(Undo(NO_PARAMS.(workload := p.params.workload, targetCommit := Some(commit)), "Roll forward"))
      case None => None
  }

  function BuildUndo(p: Plan, k: Knowledge): Option<Undo> {
    match p.action
    case ScaleWorkload => UndoScale(p)
    case RestartWorkload => Some(Undo(NO_PARAMS.(workload := p.params.workload), "Trigger rolling restart"))
    case DisableFlag => UndoFlag(p)
    case RevertConfig => UndoConfig(p, k)
    case RollbackDeploy => UndoRollback(p, k)
    case NoAction => None
  }

  function InverseId(id: string): string { id + "_inv" }

  function SynthesizeInverse(p: Plan, k: Knowledge): Synthesis {
    if p.action.NoAction? then NoInverse
    else if p.params.workload == "" then Refused
    else if k.workloads.Some? && p.params.workload !in k.workloads.value then Refused
    else match BuildUndo(p, k)
      case Some(undo) =>
        Inverse(Plan(InverseId(p.id), p.index, p.action, undo.params, p.targets, p.blast, None, undo.rationale))
      case None => Refused
  }

  /** Invariant K9: only NO_ACTION lacks an inverse, and an inverse acts on exactly the plan's targets. */
  lemma InverseKeepsTargets(p: Plan, k: Knowledge)
    ensures SynthesizeInverse(p, k).NoInverse? <==> p.action == NoAction
    ensures SynthesizeInverse(p, k).Inverse? ==>
              var q := SynthesizeInverse(p, k).plan;
              && q.targets == p.targets && q.blast == p.blast && q.action == p.action
              && q.params.workload == p.params.workload && q.inverse == None && q.id != p.id
  {
    assert |InverseId(p.id)| == |p.id| + 4;
  }

  lemma UndoRationale(p: Plan)
    requires Given(p.params.flagName)
    ensures ReEnables(UndoFlag(p).value.rationale) <==> !ReEnables(p.rationale)
  {
    var rest := Quote(p.params.flagName.value) + " for " + p.params.workload;
    var on, off := "Re-enable feature flag ", "Disable feature flag ";
    forall i | 0 <= i < 9 ensures LowerChar((on + rest)[i]) == "re-enable"[i] {
      assert (on + rest)[i] == on[i];
    }
    assert (off + rest)[0] == off[0];
    var r := UndoFlag(p).value.rationale;
    assert r == (if ReEnables(p.rationale) then off + rest else on + rest);
  }

  /** Inverting twice scales, restarts and flips flags in the original direction again. */
  lemma InvertingTwice(p: Plan, k: Knowledge)
    requires SynthesizeInverse(p, k).Inverse?
    requires p.action in {ScaleWorkload, RestartWorkload, DisableFlag}
    ensures var q := SynthesizeInverse(p, k).plan;
            SynthesizeInverse(q, k).Inverse? &&
            var r := SynthesizeInverse(q, k).plan;
            && r.action == p.action && r.targets == p.targets
            && r.params.workload == p.params.workload
            && (p.action == ScaleWorkload ==> r.params.replicaDelta == p.params.replicaDelta)
            && (p.action == DisableFlag ==>
                  r.params.flagName == p.params.flagName && (ReEnables(r.rationale) <==> ReEnables(p.rationale)))
  {
    var q := SynthesizeInverse(p, k).plan;
    if p.action == DisableFlag {
      UndoRationale(p);
      UndoRationale(q);
    }
  }

  /** It does not bring a configuration plan back: the second inverse repeats the looked-up prior value. */
  lemma InvertingConfigTwiceForgetsTheValue(p: Plan, k: Knowledge)
    requires p.action == RevertConfig && SynthesizeInverse(p, k).Inverse?
    ensures var q := SynthesizeInverse(p, k).plan;
            SynthesizeInverse(q, k).Inverse? &&
            var prior := PriorConfig(k, p.params.workload, p.params.configKey.value);
            SynthesizeInverse(q, k).plan.params.configValue == p.params.configValue <==> prior == p.params.configValue
  {
    var q := SynthesizeInverse(p, k).plan;
    assert BuildUndo(q, k) == UndoConfig(q, k);
  }

  predicate FirstQualifying(deploys: seq<DeployRef>, i: int, head: string, workload: string, target: string) {
    && 0 <= i < |deploys| && Qualifies(deploys[i], head, workload, target)
    && forall j :: 0 <= j < i ==> !Qualifies(deploys[j], head, workload, target)
  }

  /** The search ends at the first deploy that qualifies, and finds nothing exactly when none does. */
  lemma {:induction false} OlderDeployIsTheFirst(
      deploys: seq<DeployRef>, head: string, workload: string, target: string)
    ensures var r := OlderDeploy(deploys, head, workload, target);
            && (r.None? ==> forall d :: d in deploys ==> !Qualifies(d, head, workload, target))
            && (r.Some? ==>
                  exists i :: FirstQualifying(deploys, i, head, workload, target) && deploys[i].commit == r.value)
  {
    if deploys != [] {
      var rest := deploys[1..];
      OlderDeployIsTheFirst(rest, head, workload, target);
      if Qualifies(deploys[0], head, workload, target) {
        assert FirstQualifying(deploys, 0, head, workload, target);
      } else if OlderDeploy(rest, head, workload, target).Some? {
        var i :| FirstQualifying(rest, i, head, workload, target)
                 && rest[i].commit == OlderDeploy(rest, head, workload, target).value;
        assert forall j :: 0 < j < |deploys| ==> deploys[j] == rest[j - 1];
        assert FirstQualifying(deploys, i + 1, head, workload, target);
      } else {
        assert deploys == [deploys[0]] + rest;
      }
    }
  }

  /** With no explicit commit given, a rollback's inverse goes to another, recorded deploy. */
  lemma RollForwardLeavesTheTarget(p: Plan, k: Knowledge)
    requires p.action == RollbackDeploy && k.currentCommit == None && SynthesizeInverse(p, k).Inverse?
    ensures var commit := SynthesizeInverse(p, k).plan.params.targetCommit;
            && Given(p.params.targetCommit) && commit.Some? && !SameCommit(commit.value, p.params.targetCommit.value)
            && exists d :: d in k.recentDeploys && d.commit == commit.value
  {
    assert BuildUndo(p, k) == UndoRollback(p, k);
    var target, deploys := p.params.targetCommit.value, k.recentDeploys;
    OlderDeployIsTheFirst(deploys[1..], deploys[0].commit, p.params.workload, target);
    assert deploys == [deploys[0]] + deploys[1..];
    assert deploys[0] in deploys;
  }

  /** Undoing a rollback to `target` and undoing that again leads back to `target`. */
  predicate ComesBack(k: Knowledge, workload: string, target: string) {
    match k.currentCommit
    case Some(current) => current == target
    case None =>
      k.recentDeploys != [] &&
      var head, older := k.recentDeploys[0].commit, k.recentDeploys[1..];
      if !SameCommit(target, head) then head != "" && OlderDeploy(older, head, workload, head) == Some(target)
      else match OlderDeploy(older, head, workload, target)
        case None => false
        case Some(other) =>
          if SameCommit(other, head) then other != "" && OlderDeploy(older, head, workload, other) == Some(target)
          else target == head
  }

  /** A rollback comes back after two inversions exactly when its target is the commit the second one finds. */
  lemma InvertingRollbackTwice(p: Plan, k: Knowledge)
    requires p.action == RollbackDeploy && SynthesizeInverse(p, k).Inverse?
    ensures var q := SynthesizeInverse(p, k).plan;
            && Given(p.params.targetCommit)
            && (SynthesizeInverse(q, k).Inverse?
                && SynthesizeInverse(q, k).plan.params.targetCommit == p.params.targetCommit
                <==> ComesBack(k, p.params.workload, p.params.targetCommit.value))
  {
    assert BuildUndo(p, k) == UndoRollback(p, k);
    var q := SynthesizeInverse(p, k).plan;
    assert BuildUndo(q, k) == UndoRollback(q, k);
  }

  /** With a commit given, that commit must be the target itself: the inverse then does nothing new. */
  lemma GivenCommitComesBack(p: Plan, k: Knowledge)
    requires p.action == RollbackDeploy && k.currentCommit.Some? && SynthesizeInverse(p, k).Inverse?
    ensures ComesBack(k, p.params.workload, p.params.targetCommit.value) <==> k.currentCommit == p.params.targetCommit
  {
    assert BuildUndo(p, k) == UndoRollback(p, k);
  }

  function RollbackTo(commit: string): Plan {
    Plan("p", 0, RollbackDeploy, NO_PARAMS.(workload := "w", targetCommit := Some(commit)), [], [], None, "")
  }

  /** With deploys h, m, t the inverse of a rollback to t goes to h, and the inverse of that to m. */
  lemma InvertingRollbackTwiceGoesElsewhere()
    ensures var h, m, t := DeployRef("h", map[]), DeployRef("m", map[]), DeployRef("t", map[]);
            var k := Knowledge([h, m, t], None, None, None, None);
            var once := SynthesizeInverse(RollbackTo("t"), k);
            && once.Inverse? && once.plan.params.targetCommit == Some("h")
            && var twice := SynthesizeInverse(once.plan, k);
               twice.Inverse? && twice.plan.params.targetCommit == Some("m")
  {
    var h, m, t := DeployRef("h", map[]), DeployRef("m", map[]), DeployRef("t", map[]);
    var k := Knowledge([h, m, t], None, None, None, None);
    assert k.recentDeploys[1..] == [m, t] && [m, t][0] == m;
    assert "h"[0] != "m"[0] && "h"[0] != "t"[0] && "m"[0] != "t"[0];
    assert !SameCommit("t", "h") && !SameCommit("m", "h");
    assert OlderDeploy([m, t], "h", "w", "h") == Some("m");
  }

  // ---------------------------------------------------------------- what an inverse is

  /** The value before: the one given, else the workload's own, else the one recorded for every workload. */
  ghost predicate WasValue(k: Knowledge, workload: string, key: string, v: string) {
    match k.currentConfig
    case Some(given) => v == given
    case None =>
      && k.configLookup.Some?
      && var m := k.configLookup.value;
         if workload in m && key in m[workload] then m[workload][key] == v
         else "" in m && key in m[""] && m[""][key] == v
  }

  /** The commit before: the one given, else the head of the history, else the first older deploy that will do. */
  ghost predicate WasCommit(k: Knowledge, workload: string, target: string, commit: string) {
    match k.currentCommit
    case Some(given) => commit == given
    case None =>
      && |k.recentDeploys| > 0
      && var head := k.recentDeploys[0].commit;
         if !(head <= target) && !(target <= head) then commit == head
         else exists i :: FirstOlder(k.recentDeploys, i, workload, target) && k.recentDeploys[i].commit == commit
  }

  ghost predicate WillDo(deploys: seq<DeployRef>, i: int, workload: string, target: string)
    requires 0 <= i < |deploys|
  {
    && deploys[i].commit != deploys[0].commit && !(deploys[i].commit <= target) && !(target <= deploys[i].commit)
    && (workload == "" || |deploys[i].digests| == 0 || workload in deploys[i].digests)
  }

  ghost predicate FirstOlder(deploys: seq<DeployRef>, i: int, workload: string, target: string) {
    && 0 < i < |deploys| && WillDo(deploys, i, workload, target)
    && forall j :: 0 < j < i ==> !WillDo(deploys, j, workload, target)
  }

  /** What the inverse's parameters are: nothing but the workload and what takes the plan back. */
  ghost predicate TakesBack(p: Plan, k: Knowledge, u: Params) {
    && u.workload == p.params.workload
    && (u.replicaDelta.Some? ==> p.action == ScaleWorkload) && (u.flagName.Some? ==> p.action == DisableFlag)
    && (u.configKey.Some? || u.configValue.Some? ==> p.action == RevertConfig)
    && (u.targetCommit.Some? ==> p.action == RollbackDeploy)
    && match p.action
       case ScaleWorkload =>
         && p.params.replicaDelta.Some? && u.replicaDelta.Some?
         && u.replicaDelta.value != 0 && u.replicaDelta.value + p.params.replicaDelta.value == 0
       case RestartWorkload => true
       case DisableFlag => u.flagName == p.params.flagName && p.params.flagName.Some? && p.params.flagName.value != ""
       case RevertConfig =>
         && u.configKey == p.params.configKey && u.configKey.Some? && u.configKey.value != ""
         && p.params.configValue.Some? && u.configValue.Some?
         && WasValue(k, u.workload, u.configKey.value, u.configValue.value)
       case RollbackDeploy =>
         && p.params.targetCommit.Some? && p.params.targetCommit.value != "" && u.targetCommit.Some?
         && WasCommit(k, u.workload, p.params.targetCommit.value, u.targetCommit.value)
       case NoAction => false
  }

  lemma OlderIsFirstOlder(deploys: seq<DeployRef>, workload: string, target: string, commit: string)
    requires deploys != []
    ensures OlderDeploy(deploys[1..], deploys[0].commit, workload, target) == Some(commit)
            <==> exists i :: FirstOlder(deploys, i, workload, target) && deploys[i].commit == commit
  {
    var older, head := deploys[1..], deploys[0].commit;
    OlderDeployIsTheFirst(older, head, workload, target);
    forall i | 0 < i < |deploys|
      ensures WillDo(deploys, i, workload, target) == Qualifies(older[i - 1], head, workload, target)
    {
      assert older[i - 1] == deploys[i] && (|deploys[i].digests| == 0 <==> deploys[i].digests == map[]);
    }
    forall i | 0 < i ensures FirstOlder(deploys, i, workload, target) <==>
                             FirstQualifying(older, i - 1, head, workload, target)
    {
      FirstShifts(deploys, i, workload, target);
    }
    if i :| FirstOlder(deploys, i, workload, target) && deploys[i].commit == commit {
      assert older[i - 1] in older && FirstQualifying(older, i - 1, head, workload, target);
    }
    if OlderDeploy(older, head, workload, target) == Some(commit) {
      var i :| FirstQualifying(older, i, head, workload, target) && older[i].commit == commit;
      assert FirstOlder(deploys, i + 1, workload, target)
        <==> FirstQualifying(older, (i + 1) - 1, head, workload, target);
    }
  }

  lemma FirstShifts(deploys: seq<DeployRef>, i: int, workload: string, target: string)
    requires deploys != [] && i > 0
    requires forall k :: 0 < k < |deploys| ==>
               WillDo(deploys, k, workload, target)
                 == Qualifies(deploys[1..][k - 1], deploys[0].commit, workload, target)
    ensures FirstOlder(deploys, i, workload, target)
            <==> FirstQualifying(deploys[1..], i - 1, deploys[0].commit, workload, target)
  {
    var older, head := deploys[1..], deploys[0].commit;
    if FirstQualifying(older, i - 1, head, workload, target) {
      forall j | 0 < j < i ensures !WillDo(deploys, j, workload, target) {
        assert !Qualifies(older[j - 1], head, workload, target);
      }
    }
    if FirstOlder(deploys, i, workload, target) {
      forall j | 0 <= j < i - 1 ensures !Qualifies(older[j], head, workload, target) {
        assert !WillDo(deploys, j + 1, workload, target);
      }
    }
  }

  /** The inverse takes the plan back, and there is one exactly when something does. */
  lemma WhatAnInverseIs(p: Plan, k: Knowledge)
    ensures SynthesizeInverse(p, k).Inverse? <==>
              && p.params.workload != "" && (k.workloads.Some? ==> p.params.workload in k.workloads.value)
              && exists u :: TakesBack(p, k, u)
    ensures SynthesizeInverse(p, k).Inverse? ==>
              var q := SynthesizeInverse(p, k).plan;
              && TakesBack(p, k, q.params) && q.id == p.id + "_inv" && q.index == p.index && q.action == p.action
              && q.targets == p.targets && q.blast == p.blast && q.inverse == None
              && (p.action == DisableFlag ==> ReEnables(q.rationale) == !ReEnables(p.rationale))
    ensures SynthesizeInverse(p, k).NoInverse? <==> p.action == NoAction
  {
    if p.action == RollbackDeploy && k.recentDeploys != [] && Given(p.params.targetCommit) {
      forall commit { OlderIsFirstOlder(k.recentDeploys, p.params.workload, p.params.targetCommit.value, commit); }
    }
    if p.action == DisableFlag && Given(p.params.flagName) { UndoRationale(p); }
    if BuildUndo(p, k).Some? { assert TakesBack(p, k, BuildUndo(p, k).value.params); }
  }
}
