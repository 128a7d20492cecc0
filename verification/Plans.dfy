/** Remediation plans and the deploys they refer to. */
module Plans {
  import opened Text

  datatype Action = RollbackDeploy | RestartWorkload | ScaleWorkload | DisableFlag | RevertConfig | NoAction

  datatype Params = Params(
    workload: string,
    targetCommit: Option<string>,
    replicaDelta: Option<int>,
    flagName: Option<string>,
    configKey: Option<string>,
    configValue: Option<string>)

  datatype Resource = Resource(namespace: string, kind: string, name: string)

  datatype Plan = Plan(
    id: string,
    index: int,
    action: Action,
    params: Params,
    targets: seq<Resource>,
    blast: seq<string>,
    inverse: Option<Plan>,
    rationale: string)

  datatype DeployRef = DeployRef(commit: string, digests: map<string, string>)

  const NO_PARAMS := Params("", None, None, None, None, None)

  /** Python truthiness of an optional string. */
  predicate Given(s: Option<string>) { s.Some? && s.value != "" }

  /** `rationale.lower().startswith("re-enable")`; no other letter lowers to one of these. */
  predicate ReEnables(rationale: string) {
    |rationale| >= 9 && forall i :: 0 <= i < 9 ==> LowerChar(rationale[i]) == "re-enable"[i]
  }

  /** Two commit references name the same commit when one is a prefix of the other. */
  predicate SameCommit(a: string, b: string) { a <= b || b <= a }

  /** The first deploy a reference matches. */
  function FirstMatch(deploys: seq<DeployRef>, ref: string): Option<DeployRef> {
    if deploys == [] then None
    else if SameCommit(deploys[0].commit, ref) then Some(deploys[0])
    else FirstMatch(deploys[1..], ref)
  }

  /** The first deploy whose commit and the reference begin alike, the shorter being all of it. */
  ghost predicate FirstDeploy(deploys: seq<DeployRef>, ref: string, i: int) {
    && 0 <= i < |deploys| && (deploys[i].commit <= ref || ref <= deploys[i].commit)
    && forall j :: 0 <= j < i ==> !(deploys[j].commit <= ref || ref <= deploys[j].commit)
  }

  lemma {:induction false} FirstMatchIsFirst(deploys: seq<DeployRef>, ref: string)
    ensures var d := FirstMatch(deploys, ref);
            && (d.None? ==> forall i :: !FirstDeploy(deploys, ref, i))
            && (d.Some? ==> exists i :: FirstDeploy(deploys, ref, i) && deploys[i] == d.value)
  {
    if deploys != [] {
      var rest := deploys[1..];
      FirstMatchIsFirst(rest, ref);
      if SameCommit(deploys[0].commit, ref) {
        assert FirstDeploy(deploys, ref, 0);
      } else {
        forall i ensures FirstDeploy(deploys, ref, i + 1) <==> FirstDeploy(rest, ref, i) {
          ShiftDeploy(deploys, ref, i);
        }
        if i :| FirstDeploy(rest, ref, i) { assert deploys[i + 1] == rest[i]; }
        forall i ensures FirstDeploy(deploys, ref, i) ==> FirstDeploy(rest, ref, i - 1) {
          assert FirstDeploy(deploys, ref, (i - 1) + 1) <==> FirstDeploy(rest, ref, i - 1);
        }
      }
    }
  }

  lemma ShiftDeploy(deploys: seq<DeployRef>, ref: string, i: int)
    requires deploys != [] && !SameCommit(deploys[0].commit, ref)
    ensures FirstDeploy(deploys, ref, i + 1) <==> FirstDeploy(deploys[1..], ref, i)
  {
    var rest := deploys[1..];
    assert forall j :: 0 <= j < |rest| ==> rest[j] == deploys[j + 1];
    if FirstDeploy(deploys, ref, i + 1) && i >= 0 {
      forall j | 0 <= j < i ensures !(rest[j].commit <= ref || ref <= rest[j].commit) {
        assert rest[j] == deploys[j + 1];
      }
    }
    if FirstDeploy(rest, ref, i) {
      forall j | 0 <= j < i + 1 ensures !(deploys[j].commit <= ref || ref <= deploys[j].commit) {
        if j > 0 { assert deploys[j] == rest[j - 1]; }
      }
    }
  }
}
