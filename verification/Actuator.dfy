/** Applying remediation plans to a namespace, and taking them back. */
module Actuator {
  import opened Text
  import opened Plans
  import opened Inverse

  datatype Container = Container(name: string, image: Option<string>, env: map<string, string>)

  datatype Deployment = Deployment(
    replicas: Option<int>,
    containers: seq<Container>,
    annotations: map<string, string>,
    podAnnotations: map<string, string>)

  datatype ConfigMap = ConfigMap(data: map<string, string>, annotations: map<string, string>)

  datatype Cluster = Cluster(deployments: map<string, Deployment>, configMaps: map<string, ConfigMap>)

  const PLAN_ID := "understudy.dev/last-applied-plan-id"
  const REPLICA_DELTA := "understudy.dev/applied-replica-delta"
  const RESTARTED_AT := "kubectl.kubernetes.io/restartedAt"
  const VARIANT := "DATA_SERVICE_VARIANT"

  /** Deploy history (None when absent or failing) and the SHA-256 hex digest function. */
  datatype Env = Env(history: Option<seq<DeployRef>>, sha256: string -> string)

  // ---------------------------------------------------------------- image references

  /** The repository prefix of an image, without tag or digest. */
  function BaseRepo(image: string): string {
    var clean := Strip(image);
    var at := Position(clean, '@');
    if at < |clean| then clean[..at]
    else
      var tag := AfterLast(clean, ':');
      if tag > 0 && '/' !in clean[tag..] then clean[..tag - 1] else clean
  }

  predicate IsHex(c: char) { '0' <= c <= '9' || 'a' <= c <= 'f' || 'A' <= c <= 'F' }

  const TAGS: seq<string> := ["good", "regression", "latest", "prod"]

  /** The first well-known tag whose full reference hashes to `hex`. */
  function TagFor(env: Env, base: string, hex: string, tags: seq<string>): Option<string> {
    if tags == [] then None
    else if env.sha256(base + ":" + tags[0]) == hex then Some(base + ":" + tags[0])
    else TagFor(env, base, hex, tags[1..])
  }

  function FromDigest(env: Env, current: string, resolved: string): string {
    if "sha256:" <= resolved then
      match TagFor(env, BaseRepo(current), resolved[7..], TAGS)
      case Some(image) => image
      case None => BaseRepo(current) + "@" + resolved
    else resolved
  }

  /** None stands for the ActuationError on an unresolvable commit. */
  function ResolveImage(env: Env, workload: string, commit: string, current: string): Option<string> {
    var clean := Strip(commit);
    if "sha256:" <= clean then Some(BaseRepo(current) + "@" + clean)
    else if |clean| == 64 && (forall i :: 0 <= i < |clean| ==> IsHex(clean[i])) then
      Some(BaseRepo(current) + "@sha256:" + Lower(clean))
    else if '/' in clean || ':' in clean then Some(clean)
    else if env.history.None? then None
    else match FirstMatch(env.history.value, clean)
      case Some(d) =>
        if workload in d.digests && d.digests[workload] != ""
        then Some(FromDigest(env, current, d.digests[workload])) else None
      case None => None
  }

  lemma PositionIn(s: string, c: char)
    ensures Position(s, c) < |s| <==> c in s
  {
    if c in s { var i :| 0 <= i < |s| && s[i] == c; }
  }

  lemma BaseRepoHasNoDigest(image: string)
    ensures '@' !in BaseRepo(image) && (BaseRepo(image) != "" ==> !IsSpace(BaseRepo(image)[0]))
  {
    PositionIn(Strip(image), '@');
  }

  lemma {:induction false} StripKeepsFront(a: string, b: string)
    requires a != "" && !IsSpace(a[0]) && !IsSpace(a[|a| - 1])
    ensures a <= Strip(a + b)
    decreases |b|
  {
    var s := a + b;
    assert s[0] == a[0];
    if b != "" && IsSpace(b[|b| - 1]) {
      StripKeepsFront(a, b[..|b| - 1]);
      assert s[..|s| - 1] == a + b[..|b| - 1];
    } else {
      assert s[|s| - 1] == if b == "" then a[|a| - 1] else b[|b| - 1];
      assert Trimmed(s);
    }
  }

  /** A digest keeps the repository it was put behind. */
  lemma BaseOfDigest(base: string, digest: string)
    requires '@' !in base && (base != "" ==> !IsSpace(base[0]))
    ensures BaseRepo(base + "@" + digest) == base
  {
    var front := base + "@";
    StripKeepsFront(front, digest);
    var clean := Strip(front + digest);
    assert clean[|base|] == front[|base|] == '@';
    forall k | 0 <= k < |base| ensures clean[k] != '@' { assert clean[k] == front[k] == base[k] && base[k] in base; }
    assert Position(clean, '@') == |base|;
    assert clean[..|base|] == front[..|base|] == base;
  }

  predicate PlainTag(tag: string) {
    tag != "" && forall k :: 0 <= k < |tag| ==> 'a' <= tag[k] <= 'z'
  }

  lemma TagsArePlain(tag: string)
    requires tag in TAGS
    ensures PlainTag(tag)
  {}

  /** So does a plain tag. */
  lemma BaseOfTag(base: string, tag: string)
    requires '@' !in base && (base != "" ==> !IsSpace(base[0]))
    requires PlainTag(tag)
    ensures BaseRepo(base + ":" + tag) == base
  {
    var image := base + ":" + tag;
    TagShape(base, tag);
    PositionIn(image, '@');
    assert image[|base| + 1..] == tag;
    assert image[..|base|] == base;
    assert '/' !in tag;
  }

  lemma TagShape(base: string, tag: string)
    requires '@' !in base && (base != "" ==> !IsSpace(base[0]))
    requires PlainTag(tag)
    ensures var image := base + ":" + tag;
            Strip(image) == image && '@' !in image && AfterLast(image, ':') == |base| + 1
  {
    var image := base + ":" + tag;
    assert image[0] == (if base == "" then ':' else base[0]);
    assert image[|image| - 1] == tag[|tag| - 1];
    assert Trimmed(image);
    forall k | 0 <= k < |image| ensures image[k] != '@' {
      if k < |base| { assert image[k] in base; }
      else if k > |base| { assert image[k] == tag[k - |base| - 1]; }
    }
    assert forall k :: |base| < k < |image| ==> image[k] == tag[k - |base| - 1];
    assert image[|base|] == ':';
  }

  lemma {:induction false} TagForIsATag(env: Env, base: string, hex: string, tags: seq<string>)
    ensures var r := TagFor(env, base, hex, tags);
            r.Some? ==> exists t :: t in tags && r.value == base + ":" + t
  {
    if tags != [] && env.sha256(base + ":" + tags[0]) != hex {
      TagForIsATag(env, base, hex, tags[1..]);
      assert tags == [tags[0]] + tags[1..];
    } else if tags != [] {
      assert tags[0] in tags;
    }
  }

  /** Does this commit resolve to an image behind the repository already running? */
  predicate KeepsRepository(env: Env, workload: string, commit: string) {
    var clean := Strip(commit);
    || "sha256:" <= clean
    || (|clean| == 64 && forall i :: 0 <= i < |clean| ==> IsHex(clean[i]))
    || (!('/' in clean || ':' in clean) && env.history.Some? &&
        match FirstMatch(env.history.value, clean)
        case Some(d) => workload in d.digests && "sha256:" <= d.digests[workload]
        case None => false)
  }

  lemma BaseOfHex(base: string, hex: string)
    requires '@' !in base && (base != "" ==> !IsSpace(base[0]))
    ensures BaseRepo(base + "@sha256:" + hex) == base
  {
    BaseOfDigest(base, "sha256:" + hex);
    assert base + "@sha256:" + hex == base + "@" + ("sha256:" + hex);
  }

  lemma ResolutionKeepsRepository(env: Env, workload: string, commit: string, current: string)
    requires KeepsRepository(env, workload, commit)
    ensures ResolveImage(env, workload, commit, current).Some?
    ensures BaseRepo(ResolveImage(env, workload, commit, current).value) == BaseRepo(current)
  {
    var clean, base := Strip(commit), BaseRepo(current);
    BaseRepoHasNoDigest(current);
    if "sha256:" <= clean {
      BaseOfDigest(base, clean);
    } else if |clean| == 64 && (forall i :: 0 <= i < |clean| ==> IsHex(clean[i])) {
      BaseOfHex(base, Lower(clean));
    } else {
      DigestKeepsRepository(env, current, FirstMatch(env.history.value, clean).value.digests[workload]);
    }
  }

  lemma DigestKeepsRepository(env: Env, current: string, resolved: string)
    requires "sha256:" <= resolved
    ensures BaseRepo(FromDigest(env, current, resolved)) == BaseRepo(current)
  {
    var base, hex := BaseRepo(current), resolved[7..];
    BaseRepoHasNoDigest(current);
    TagForIsATag(env, base, hex, TAGS);
    match TagFor(env, base, hex, TAGS) {
      case Some(image) =>
        var t :| t in TAGS && image == base + ":" + t;
        TagsArePlain(t);
        BaseOfTag(base, t);
      case None => BaseOfDigest(base, resolved);
    }
  }

  /** The running image matters only through its repository. */
  lemma ResolutionSeesTheRepository(env: Env, workload: string, commit: string, a: string, b: string)
    requires BaseRepo(a) == BaseRepo(b) || !KeepsRepository(env, workload, commit)
    ensures ResolveImage(env, workload, commit, a) == ResolveImage(env, workload, commit, b)
  {}

  /** Resolving again from the resolved image changes nothing. */
  lemma ResolutionIsStable(env: Env, workload: string, commit: string, current: string)
    ensures var r := ResolveImage(env, workload, commit, current);
            r.Some? ==> ResolveImage(env, workload, commit, r.value) == r
  {
    var r := ResolveImage(env, workload, commit, current);
    if r.Some? {
      if KeepsRepository(env, workload, commit) {
        ResolutionKeepsRepository(env, workload, commit, current);
      }
      ResolutionSeesTheRepository(env, workload, commit, current, r.value);
    }
  }

  // ---------------------------------------------------------------- the effect of a plan

  /** The patch a handler sends, as the new value of the resource it patches. */
  datatype Change = Nothing | NewDeployment(name: string, d: Deployment) | NewConfigMap(name: string, m: ConfigMap)

  /** The container named after the workload, else the first. */
  function TargetIndex(containers: seq<Container>, workload: string): (i: nat)
    requires containers != []
    ensures i < |containers|
    ensures containers[i].name == workload ==> forall k :: 0 <= k < i ==> containers[k].name != workload
    ensures containers[i].name != workload ==>
              i == 0 && forall k :: 0 <= k < |containers| ==> containers[k].name != workload
  {
    if containers[0].name == workload then 0
    else if |containers| == 1 then 0
    else
      var k := TargetIndex(containers[1..], workload);
      if containers[k + 1].name == workload then k + 1 else 0
  }

  function ImageOf(c: Container): string { match c.image case Some(i) => i case None => "" }

  predicate Contains(s: string, part: string) {
    exists i {:trigger s[i..]} :: 0 <= i <= |s| && part <= s[i..]
  }

  function VariantOf(image: string): string { if Contains(image, ":regression") then "regression" else "good" }

  /** The container moved to the commit's image; it is left alone when already there. */
  function Moved(env: Env, w: string, commit: string, running: Container): Option<Container> {
    match ResolveImage(env, w, commit, ImageOf(running))
    case None => None
    case Some(target) =>
      if ImageOf(running) == target then Some(running)
      else Some(running.(
        image := Some(target),
        env := if w == "data-service" then running.env[VARIANT := VariantOf(target)] else running.env))
  }

  function Rollback(env: Env, p: Plan, c: Cluster): Option<Change> {
    var w := p.params.workload;
    if w == "" || !Given(p.params.targetCommit) || w !in c.deployments then None else
      var d := c.deployments[w];
      if d.containers == [] then None else
        var i := TargetIndex(d.containers, w);
        match Moved(env, w, p.params.targetCommit.value, d.containers[i])
        case None => None
        case Some(moved) =>
          if ImageOf(moved) == ImageOf(d.containers[i]) then Some(Nothing) else
            Some(NewDeployment(w, d.(
              containers := d.containers[i := moved],
              annotations := d.annotations[PLAN_ID := p.id],
              podAnnotations := d.podAnnotations[PLAN_ID := p.id])))
  }

  function Restart(p: Plan, now: string, c: Cluster): Option<Change> {
    var w := p.params.workload;
    if w == "" || w !in c.deployments then None else
      var d := c.deployments[w];
      if PLAN_ID in d.annotations && d.annotations[PLAN_ID] == p.id then Some(Nothing)
      else Some(NewDeployment(w, d.(
        annotations := d.annotations[PLAN_ID := p.id],
        podAnnotations := d.podAnnotations[RESTARTED_AT := now][PLAN_ID := p.id])))
  }

  function ReplicasOf(d: Deployment): int { match d.replicas case Some(n) => n case None => 1 }

  function Scale(p: Plan, c: Cluster): Option<Change> {
    var w := p.params.workload;
    if w == "" || p.params.replicaDelta == None || w !in c.deployments then None else
      var d, delta := c.deployments[w], p.params.replicaDelta.value;
      if PLAN_ID in d.annotations && d.annotations[PLAN_ID] == p.id then Some(Nothing)
      else if ReplicasOf(d) + delta < 0 then None
      else Some(NewDeployment(w, d.(
        replicas := Some(ReplicasOf(d) + delta),
        annotations := d.annotations[PLAN_ID := p.id][REPLICA_DELTA := SignedDecimal(delta)])))
  }

  function FirstConfigMap(targets: seq<Resource>): Option<string> {
    if targets == [] then None
    else if targets[0].kind == "ConfigMap" && targets[0].name != "" then Some(targets[0].name)
    else FirstConfigMap(targets[1..])
  }

  function ConfigMapName(p: Plan, default: string): string {
    match FirstConfigMap(p.targets)
    case Some(name) => name
    case None =>
      var w := Strip(p.params.workload);
      if w == "app-config" || w == "feature-flags" then w else default
  }

  /** Write one key of a ConfigMap unless it already has the value. */
  function SetKey(p: Plan, c: Cluster, name: string, key: string, value: string): Option<Change> {
    if name !in c.configMaps then None else
      var m := c.configMaps[name];
      if key in m.data && m.data[key] == value then Some(Nothing)
      else Some(NewConfigMap(name, m.(
        data := m.data[key := value], annotations := m.annotations[PLAN_ID := p.id])))
  }

  /** Inverse plans re-enable the flag; they are told apart by their rationale. */
  function FlagValue(p: Plan): string {
    if ReEnables(p.rationale) || p.params.configValue == Some("true") then "true" else "false"
  }

  /** What applying the plan changes; None stands for an ActuationError. */
  function Effect(env: Env, p: Plan, now: string, c: Cluster): Option<Change> {
    match p.action
    case RollbackDeploy => Rollback(env, p, c)
    case RestartWorkload => Restart(p, now, c)
    case ScaleWorkload => Scale(p, c)
    case DisableFlag =>
      if !Given(p.params.flagName) then None
      else SetKey(p, c, ConfigMapName(p, "feature-flags"), p.params.flagName.value, FlagValue(p))
    case RevertConfig =>
      if !Given(p.params.configKey) || p.params.configValue == None then None
      else SetKey(p, c, ConfigMapName(p, "app-config"), p.params.configKey.value, p.params.configValue.value)
    case NoAction => Some(Nothing)
  }

  function Patched(c: Cluster, change: Change): Cluster {
    match change
    case Nothing => c
    case NewDeployment(name, d) => c.(deployments := c.deployments[name := d])
    case NewConfigMap(name, m) => c.(configMaps := c.configMaps[name := m])
  }

  function Applied(env: Env, p: Plan, now: string, c: Cluster): Cluster {
    match Effect(env, p, now, c) case Some(change) => Patched(c, change) case None => c
  }

  // ---------------------------------------------------------------- idempotence

  lemma TargetIndexKept(containers: seq<Container>, workload: string, patched: Container)
    requires containers != [] && patched.name == containers[TargetIndex(containers, workload)].name
    ensures var i := TargetIndex(containers, workload);
            TargetIndex(containers[i := patched], workload) == i
  {
    var i := TargetIndex(containers, workload);
    var after := containers[i := patched];
    var j := TargetIndex(after, workload);
    assert forall k :: 0 <= k < |containers| ==> after[k].name == containers[k].name;
  }

  /** A rollback replaces the containers by the same list with the moved container in place. */
  lemma RollbackMoves(env: Env, p: Plan, c: Cluster)
    requires p.action == RollbackDeploy && Rollback(env, p, c).Some?
    ensures var w, c1 := p.params.workload, Patched(c, Rollback(env, p, c).value);
            && w in c.deployments && w in c1.deployments && c.deployments[w].containers != []
            && var i := TargetIndex(c.deployments[w].containers, w);
               var moved := Moved(env, w, p.params.targetCommit.value, c.deployments[w].containers[i]);
               && moved.Some? && c1.deployments[w].containers == c.deployments[w].containers[i := moved.value]
               && c1.deployments[w].replicas == c.deployments[w].replicas
               && TargetIndex(c1.deployments[w].containers, w) == i
  {
    var w := p.params.workload;
    var containers := c.deployments[w].containers;
    var i := TargetIndex(containers, w);
    TargetIndexKept(containers, w, Moved(env, w, p.params.targetCommit.value, containers[i]).value);
  }

  lemma RollbackTwice(env: Env, p: Plan, c: Cluster)
    requires p.action == RollbackDeploy && Rollback(env, p, c).Some?
    ensures Rollback(env, p, Patched(c, Rollback(env, p, c).value)) == Some(Nothing)
  {
    var w := p.params.workload;
    var d := c.deployments[w];
    RollbackMoves(env, p, c);
    ResolutionIsStable(env, w, p.params.targetCommit.value, ImageOf(d.containers[TargetIndex(d.containers, w)]));
  }

  /** Applying a plan again, at any later time, finds nothing left to do. */
  lemma ApplyingTwice(env: Env, p: Plan, now: string, later: string, c: Cluster)
    ensures Applied(env, p, later, Applied(env, p, now, c)) == Applied(env, p, now, c)
    ensures Effect(env, p, now, c).Some? ==> Effect(env, p, later, Applied(env, p, now, c)) == Some(Nothing)
    ensures Effect(env, p, now, c).None? ==> Effect(env, p, later, c).None?
  {
    if p.action == RollbackDeploy && Rollback(env, p, c).Some? {
      RollbackTwice(env, p, c);
    }
  }

  // ---------------------------------------------------------------- taking a plan back

  /** Same replicas, images and environment; annotations are left out of account. */
  ghost predicate SameWorkload(d: Deployment, e: Deployment) {
    && ReplicasOf(d) == ReplicasOf(e)
    && |d.containers| == |e.containers|
    && forall i :: 0 <= i < |d.containers| ==> SameContainer(d.containers[i], e.containers[i])
  }

  ghost predicate SameContainer(a: Container, b: Container) {
    a.name == b.name && ImageOf(a) == ImageOf(b) && a.env == b.env
  }

  ghost predicate Restored(c: Cluster, e: Cluster) {
    && c.deployments.Keys == e.deployments.Keys && c.configMaps.Keys == e.configMaps.Keys
    && (forall n :: n in c.deployments ==> SameWorkload(c.deployments[n], e.deployments[n]))
    && (forall n :: n in c.configMaps ==> c.configMaps[n].data == e.configMaps[n].data)
  }

  /** The resource a plan may patch. */
  predicate Touches(p: Plan, change: Change) {
    match change
    case Nothing => true
    case NewDeployment(name, _) =>
      name == p.params.workload && p.action in {RollbackDeploy, RestartWorkload, ScaleWorkload}
    case NewConfigMap(name, _) =>
      || (p.action == DisableFlag && name == ConfigMapName(p, "feature-flags"))
      || (p.action == RevertConfig && name == ConfigMapName(p, "app-config"))
  }

  /** A plan patches one existing resource, the one its parameters name. */
  lemma TouchesOnlyItsTarget(env: Env, p: Plan, now: string, c: Cluster)
    requires Effect(env, p, now, c).Some?
    ensures var change := Effect(env, p, now, c).value;
            && Touches(p, change)
            && (change.NewDeployment? ==> change.name in c.deployments)
            && (change.NewConfigMap? ==> change.name in c.configMaps)
  {}

  /** Facts about the state before the plan that decide whether its inverse restores it. */
  predicate Reversible(env: Env, p: Plan, q: Plan, c: Cluster)
  {
    match p.action
    case ScaleWorkload =>
      var d := c.deployments;
      && p.params.workload in d && ReplicasOf(d[p.params.workload]) >= 0
      && !(PLAN_ID in d[p.params.workload].annotations && d[p.params.workload].annotations[PLAN_ID] == p.id)
    case RestartWorkload => true
    case DisableFlag =>
      var m, flag := ConfigMapName(p, "feature-flags"), p.params.flagName;
      flag.Some? && m in c.configMaps && flag.value in c.configMaps[m].data
      && c.configMaps[m].data[flag.value] == FlagValue(q)
    case RevertConfig =>
      var m, key := ConfigMapName(p, "app-config"), p.params.configKey;
      key.Some? && m in c.configMaps && key.value in c.configMaps[m].data
      && Some(c.configMaps[m].data[key.value]) == q.params.configValue
    case RollbackDeploy => RollsBack(env, p, q, c)
    case NoAction => false
  }

  /** The inverse's commit must lead back to the running image, whose variant must already match. */
  predicate LeadsBack(env: Env, w: string, commit: string, back: string, running: Container) {
    match ResolveImage(env, w, commit, ImageOf(running))
    case None => false
    case Some(target) =>
      && ResolveImage(env, w, back, target) == Some(ImageOf(running))
      && (w == "data-service" && target != ImageOf(running) ==>
            VARIANT in running.env && running.env[VARIANT] == VariantOf(ImageOf(running)))
  }

  predicate RollsBack(env: Env, p: Plan, q: Plan, c: Cluster) {
    var w := p.params.workload;
    && w in c.deployments && c.deployments[w].containers != []
    && p.params.targetCommit.Some? && Given(q.params.targetCommit)
    && var running := c.deployments[w].containers[TargetIndex(c.deployments[w].containers, w)];
       LeadsBack(env, w, p.params.targetCommit.value, q.params.targetCommit.value, running)
  }

  /** The inverse can be applied after the plan, and then everything is as it was. */
  ghost predicate Undone(env: Env, p: Plan, q: Plan, now: string, later: string, c: Cluster) {
    var c1 := Applied(env, p, now, c);
    Effect(env, q, later, c1).Some? && Restored(c, Applied(env, q, later, c1))
  }

  lemma RestoredDeployment(c: Cluster, w: string, d: Deployment)
    requires w in c.deployments
    ensures Restored(c, c.(deployments := c.deployments[w := d])) <==> SameWorkload(c.deployments[w], d)
  {
    var e := c.(deployments := c.deployments[w := d]);
    assert e.deployments[w] == d;
  }

  lemma RestoredConfigMap(c: Cluster, n: string, m: ConfigMap)
    requires n in c.configMaps
    ensures Restored(c, c.(configMaps := c.configMaps[n := m])) <==> c.configMaps[n].data == m.data
  {
    var e := c.(configMaps := c.configMaps[n := m]);
    assert e.configMaps[n] == m;
  }

  /** Two writes of one deployment, or one, or none, amount to a single replacement. */
  lemma Collapsed(env: Env, p: Plan, q: Plan, now: string, later: string, c: Cluster)
    requires p.action == q.action && p.action in {RollbackDeploy, RestartWorkload, ScaleWorkload}
    requires p.params.workload == q.params.workload
    requires Effect(env, p, now, c).Some?
    ensures var w, e := p.params.workload, Applied(env, q, later, Applied(env, p, now, c));
            w in c.deployments && w in e.deployments && e == c.(deployments := c.deployments[w := e.deployments[w]])
  {
    var w := p.params.workload;
    var c1 := Applied(env, p, now, c);
    assert c1.deployments == c.deployments[w := c1.deployments[w]];
    var e := Applied(env, q, later, c1);
    assert e.deployments == c1.deployments[w := e.deployments[w]];
    assert e.deployments == c.deployments[w := e.deployments[w]];
  }

  lemma UndoneScale(env: Env, p: Plan, q: Plan, k: Knowledge, now: string, later: string, c: Cluster)
    requires p.action == ScaleWorkload && SynthesizeInverse(p, k) == Inverse(q) && Effect(env, p, now, c).Some?
    ensures Undone(env, p, q, now, later, c) <==> Reversible(env, p, q, c)
  {
    InverseKeepsTargets(p, k);
    var w := p.params.workload;
    var e := Applied(env, q, later, Applied(env, p, now, c));
    Collapsed(env, p, q, now, later, c);
    RestoredDeployment(c, w, e.deployments[w]);
    assert q.params.replicaDelta == Some(-p.params.replicaDelta.value) && p.params.replicaDelta.value != 0;
    assert Effect(env, p, now, c) == Scale(p, c);
    assert Effect(env, q, later, Applied(env, p, now, c)) == Scale(q, Applied(env, p, now, c));
  }

  lemma UndoneRestart(env: Env, p: Plan, q: Plan, k: Knowledge, now: string, later: string, c: Cluster)
    requires p.action == RestartWorkload && SynthesizeInverse(p, k) == Inverse(q) && Effect(env, p, now, c).Some?
    ensures Undone(env, p, q, now, later, c)
  {
    InverseKeepsTargets(p, k);
    var w := p.params.workload;
    var e := Applied(env, q, later, Applied(env, p, now, c));
    Collapsed(env, p, q, now, later, c);
    RestoredDeployment(c, w, e.deployments[w]);
  }

  /** Writing a key and then writing it again restores the map exactly when the last value is the first. */
  lemma UndoneKey(p: Plan, q: Plan, c: Cluster, name: string, key: string, v: string, u: string)
    requires name in c.configMaps
    ensures var c1 := Patched(c, SetKey(p, c, name, key, v).value);
            SetKey(q, c1, name, key, u).Some? &&
            (Restored(c, Patched(c1, SetKey(q, c1, name, key, u).value)) <==>
              key in c.configMaps[name].data && c.configMaps[name].data[key] == u)
  {
    var c1 := Patched(c, SetKey(p, c, name, key, v).value);
    var e := Patched(c1, SetKey(q, c1, name, key, u).value);
    var before, after := c.configMaps[name].data, e.configMaps[name].data;
    assert c1.configMaps[name].data == before[key := v];
    assert after == before[key := u];
    assert e == c.(configMaps := c.configMaps[name := e.configMaps[name]]);
    RestoredConfigMap(c, name, e.configMaps[name]);
    assert key in after && after[key] == u;
  }

  lemma UndoneFlag(env: Env, p: Plan, q: Plan, k: Knowledge, now: string, later: string, c: Cluster)
    requires p.action == DisableFlag && SynthesizeInverse(p, k) == Inverse(q)
    requires Effect(env, p, now, c).Some?
    ensures Undone(env, p, q, now, later, c) <==> Reversible(env, p, q, c)
  {
    InverseKeepsTargets(p, k);
    var name := ConfigMapName(p, "feature-flags");
    assert ConfigMapName(q, "feature-flags") == name;
    UndoneKey(p, q, c, name, p.params.flagName.value, FlagValue(p), FlagValue(q));
  }

  /** The inverse of a flag plan writes the opposite value unless the plan forced "true" by `config_value`. */
  lemma FlagInverseFlips(p: Plan, q: Plan, k: Knowledge)
    requires p.action == DisableFlag && SynthesizeInverse(p, k) == Inverse(q)
    ensures FlagValue(q) != FlagValue(p) <==> ReEnables(p.rationale) || p.params.configValue != Some("true")
  {
    UndoRationale(p);
    assert q.rationale == UndoFlag(p).value.rationale;
    assert "true"[0] != "false"[0];
  }

  /** Inverting a flag plan twice writes the same value again unless the plan forced "true" by `config_value`. */
  lemma WhenAFlagPlanComesBack(p: Plan, q: Plan, r: Plan, k: Knowledge)
    requires p.action == DisableFlag
    requires SynthesizeInverse(p, k) == Inverse(q) && SynthesizeInverse(q, k) == Inverse(r)
    ensures FlagValue(r) == FlagValue(p) <==> ReEnables(p.rationale) || p.params.configValue != Some("true")
  {
    InvertingTwice(p, k);
    assert "true"[0] != "false"[0];
  }

  /** The same plan for every cluster, but for the id it leaves behind. */
  ghost predicate ActsAlike(p: Plan, r: Plan) {
    forall env, now, c :: Effect(env, r.(id := p.id), now, c) == Effect(env, p, now, c)
  }

  /** A cluster on which two values of a key make two effects. */
  function Unset(p: Plan, default: string): Cluster {
    Cluster(map[], map[ConfigMapName(p, default) := ConfigMap(map[], map[])])
  }

  /** So a scale, restart or flag plan comes back in all it does exactly when it forces no flag to "true". */
  lemma WhenAPlanComesBack(p: Plan, q: Plan, r: Plan, k: Knowledge)
    requires p.action in {ScaleWorkload, RestartWorkload, DisableFlag}
    requires SynthesizeInverse(p, k) == Inverse(q) && SynthesizeInverse(q, k) == Inverse(r)
    ensures ActsAlike(p, r) <==>
            (p.action == DisableFlag ==> ReEnables(p.rationale) || p.params.configValue != Some("true"))
  {
    InvertingTwice(p, k);
    InverseKeepsTargets(p, k);
    InverseKeepsTargets(q, k);
    if p.action == DisableFlag {
      WhenAFlagPlanComesBack(p, q, r, k);
      if FlagValue(r) != FlagValue(p) {
        var env := Env(None, s => s);
        var c := Unset(p, "feature-flags");
        assert Effect(env, r.(id := p.id), "", c) != Effect(env, p, "", c);
      }
    }
  }

  /** And a configuration plan exactly when the prior value is the one it writes. */
  lemma WhenAConfigPlanComesBack(p: Plan, q: Plan, r: Plan, k: Knowledge)
    requires p.action == RevertConfig
    requires SynthesizeInverse(p, k) == Inverse(q) && SynthesizeInverse(q, k) == Inverse(r)
    ensures ActsAlike(p, r) <==> PriorConfig(k, p.params.workload, p.params.configKey.value) == p.params.configValue
  {
    InvertingConfigTwiceForgetsTheValue(p, k);
    InverseKeepsTargets(p, k);
    InverseKeepsTargets(q, k);
    if r.params.configValue != p.params.configValue {
      var env, c := Env(None, s => s), Unset(p, "app-config");
      assert Effect(env, r.(id := p.id), "", c) != Effect(env, p, "", c);
    }
  }

  function ForcedFlag(): Plan {
    Plan("p", 0, DisableFlag, NO_PARAMS.(workload := "w", flagName := Some("f"), configValue := Some("true")),
         [], [], None, "x")
  }

  /** Such a plan writes "true", its inverse "true" as well, and the inverse of that "false". */
  lemma ForcedFlagDoesNotComeBack(k: Knowledge)
    requires k.workloads == None
    ensures var p := ForcedFlag();
            && SynthesizeInverse(p, k).Inverse?
            && var q := SynthesizeInverse(p, k).plan;
               && SynthesizeInverse(q, k).Inverse?
               && FlagValue(p) == FlagValue(q) == "true" && FlagValue(SynthesizeInverse(q, k).plan) == "false"
  {
    var p := ForcedFlag();
    var q := SynthesizeInverse(p, k).plan;
    InvertingTwice(p, k);
    FlagInverseFlips(p, q, k);
    WhenAFlagPlanComesBack(p, q, SynthesizeInverse(q, k).plan, k);
  }

  lemma UndoneConfig(env: Env, p: Plan, q: Plan, k: Knowledge, now: string, later: string, c: Cluster)
    requires p.action == RevertConfig && SynthesizeInverse(p, k) == Inverse(q)
    requires Effect(env, p, now, c).Some?
    ensures Undone(env, p, q, now, later, c) <==> Reversible(env, p, q, c)
  {
    InverseKeepsTargets(p, k);
    var name := ConfigMapName(p, "app-config");
    assert ConfigMapName(q, "app-config") == name;
    UndoneKey(p, q, c, name, p.params.configKey.value, p.params.configValue.value, q.params.configValue.value);
  }

  lemma MovedBack(env: Env, w: string, commit: string, back: string, running: Container)
    requires Moved(env, w, commit, running).Some?
    requires Moved(env, w, back, Moved(env, w, commit, running).value).Some?
    ensures SameContainer(running, Moved(env, w, back, Moved(env, w, commit, running).value).value)
            <==> LeadsBack(env, w, commit, back, running)
  {
    var there := Moved(env, w, commit, running).value;
    var home := Moved(env, w, back, there).value;
    assert ResolveImage(env, w, commit, ImageOf(running)) == Some(ImageOf(there));
    assert ResolveImage(env, w, back, ImageOf(there)) == Some(ImageOf(home));
    EnvBack(running.env, VariantOf(ImageOf(there)), VariantOf(ImageOf(home)));
  }

  lemma EnvBack(env: map<string, string>, there: string, home: string)
    ensures env[VARIANT := there][VARIANT := home] == env <==> VARIANT in env && env[VARIANT] == home
  {
    var after := env[VARIANT := there][VARIANT := home];
    assert VARIANT in after && after[VARIANT] == home;
  }

  lemma UndoneRollback(env: Env, p: Plan, q: Plan, k: Knowledge, now: string, later: string, c: Cluster)
    requires p.action == RollbackDeploy && SynthesizeInverse(p, k) == Inverse(q) && Effect(env, p, now, c).Some?
    ensures Undone(env, p, q, now, later, c) <==> Reversible(env, p, q, c)
  {
    InverseKeepsTargets(p, k);
    var w, c1 := p.params.workload, Applied(env, p, now, c);
    RollbackMoves(env, p, c);
    var before := c.deployments[w].containers;
    var i := TargetIndex(before, w);
    assert c1.deployments[w].containers[i] == Moved(env, w, p.params.targetCommit.value, before[i]).value;
    if Effect(env, q, later, c1).Some? {
      MovedThereAndBack(env, p, q, now, later, c);
    }
  }

  lemma MovedThereAndBack(env: Env, p: Plan, q: Plan, now: string, later: string, c: Cluster)
    requires p.action == q.action == RollbackDeploy && p.params.workload == q.params.workload
    requires Effect(env, p, now, c).Some? && Effect(env, q, later, Applied(env, p, now, c)).Some?
    ensures Restored(c, Applied(env, q, later, Applied(env, p, now, c))) <==> RollsBack(env, p, q, c)
  {
    var w := p.params.workload;
    var c1 := Applied(env, p, now, c);
    var e := Applied(env, q, later, c1);
    Collapsed(env, p, q, now, later, c);
    RestoredDeployment(c, w, e.deployments[w]);
    RollbackMoves(env, p, c);
    RollbackMoves(env, q, c1);
    var before, after := c.deployments[w].containers, e.deployments[w].containers;
    var i := TargetIndex(before, w);
    MovedBack(env, w, p.params.targetCommit.value, q.params.targetCommit.value, before[i]);
    assert after == before[i := after[i]];
    assert SameWorkload(c.deployments[w], e.deployments[w]) <==> SameContainer(before[i], after[i]);
  }

  /**
   * A plan that was applied can be undone by its synthesised inverse, and that restores the whole namespace, exactly
   * when `Reversible` held before.
   */
  lemma InverseRestores(env: Env, p: Plan, q: Plan, k: Knowledge, now: string, later: string, c: Cluster)
    requires SynthesizeInverse(p, k) == Inverse(q) && Effect(env, p, now, c).Some?
    ensures Undone(env, p, q, now, later, c) <==> Reversible(env, p, q, c)
  {
    match p.action
    case ScaleWorkload => UndoneScale(env, p, q, k, now, later, c);
    case RestartWorkload => UndoneRestart(env, p, q, k, now, later, c);
    case DisableFlag => UndoneFlag(env, p, q, k, now, later, c);
    case RevertConfig => UndoneConfig(env, p, q, k, now, later, c);
    case RollbackDeploy => UndoneRollback(env, p, q, k, now, later, c);
  }

  /** An empty current commit is taken for a commit by the synthesis and refused by the handler. */
  lemma EmptyCommitIsNeverUndone(env: Env, p: Plan, k: Knowledge, now: string, later: string, c: Cluster)
    requires p.action == RollbackDeploy && k.currentCommit == Some("") && Effect(env, p, now, c).Some?
    requires SynthesizeInverse(p, k).Inverse?
    ensures var q := SynthesizeInverse(p, k).plan;
            Effect(env, q, later, Applied(env, p, now, c)).None? && !Undone(env, p, q, now, later, c)
  {
    assert BuildUndo(p, k) == UndoRollback(p, k);
  }

  /** The usual case: the rollback stays in the repository and the inverse's commit resolves to the running image. */
  lemma RunningCommitRollsBack(env: Env, p: Plan, q: Plan, c: Cluster)
    requires p.action == RollbackDeploy && p.params.workload == q.params.workload
    requires Rollback(env, p, c).Some? && q.params.targetCommit.Some?
    requires KeepsRepository(env, p.params.workload, p.params.targetCommit.value)
    requires var d := c.deployments[p.params.workload];
             var running := d.containers[TargetIndex(d.containers, p.params.workload)];
             && ResolveImage(env, p.params.workload, q.params.targetCommit.value, ImageOf(running))
                == Some(ImageOf(running))
             && (p.params.workload == "data-service" ==>
                   VARIANT in running.env && running.env[VARIANT] == VariantOf(ImageOf(running)))
    ensures Reversible(env, p, q, c) <==> Given(q.params.targetCommit)
  {
    var w := p.params.workload;
    var d := c.deployments[w];
    var running := ImageOf(d.containers[TargetIndex(d.containers, w)]);
    ResolutionKeepsRepository(env, w, p.params.targetCommit.value, running);
    var target := ResolveImage(env, w, p.params.targetCommit.value, running).value;
    ResolutionSeesTheRepository(env, w, q.params.targetCommit.value, target, running);
  }

  // ---------------------------------------------------------------- what a plan writes

  /** Nothing differs but the Deployment `w`, whose containers, replicas and annotations are looked at in turn. */
  ghost predicate OnlyDeployment(c: Cluster, e: Cluster, w: string) {
    && w in c.deployments && w in e.deployments && e.configMaps == c.configMaps
    && e.deployments.Keys == c.deployments.Keys
    && forall n :: n in c.deployments && n != w ==> e.deployments[n] == c.deployments[n]
  }

  /** `annotations.get(key) == value`. */
  ghost predicate Noted(annotations: map<string, string>, key: string, value: string) {
    key in annotations && annotations[key] == value
  }

  /** A scale plan not applied before adds its delta to the replicas, one where none are given. */
  lemma WhatAScaleWrites(env: Env, p: Plan, now: string, c: Cluster)
    requires p.action == ScaleWorkload
    requires p.params.workload in c.deployments ==> !Noted(c.deployments[p.params.workload].annotations, PLAN_ID, p.id)
    ensures var w, e := p.params.workload, Applied(env, p, now, c);
            if w != "" && w in c.deployments && p.params.replicaDelta.Some?
               && (if c.deployments[w].replicas.Some? then c.deployments[w].replicas.value else 1)
                  + p.params.replicaDelta.value >= 0 then
              var before, after := c.deployments[w], e.deployments[w];
              && Effect(env, p, now, c).Some? && OnlyDeployment(c, e, w)
              && after.replicas.Some?
              && after.replicas.value - (if before.replicas.Some? then before.replicas.value else 1)
                 == p.params.replicaDelta.value
              && Noted(after.annotations, PLAN_ID, p.id)
              && Noted(after.annotations, REPLICA_DELTA, SignedDecimal(p.params.replicaDelta.value))
              && after.containers == before.containers && after.podAnnotations == before.podAnnotations
            else Effect(env, p, now, c).None? && e == c
  {}

  /** A restart not applied before stamps the time on the pods. */
  lemma WhatARestartWrites(env: Env, p: Plan, now: string, c: Cluster)
    requires p.action == RestartWorkload
    requires p.params.workload in c.deployments ==> !Noted(c.deployments[p.params.workload].annotations, PLAN_ID, p.id)
    ensures var w, e := p.params.workload, Applied(env, p, now, c);
            if w != "" && w in c.deployments then
              var before, after := c.deployments[w], e.deployments[w];
              && Effect(env, p, now, c).Some? && OnlyDeployment(c, e, w)
              && Noted(after.podAnnotations, RESTARTED_AT, now) && Noted(after.podAnnotations, PLAN_ID, p.id)
              && Noted(after.annotations, PLAN_ID, p.id)
              && after.containers == before.containers && after.replicas == before.replicas
            else Effect(env, p, now, c).None? && e == c
  {}

  lemma WhatNoActionWrites(env: Env, p: Plan, now: string, c: Cluster)
    requires p.action == NoAction
    ensures Effect(env, p, now, c).Some? && Applied(env, p, now, c) == c
  {}

  /** Applied before, both find their mark and leave everything alone. */
  lemma WhatAMarkStops(env: Env, p: Plan, now: string, c: Cluster)
    requires p.action in {ScaleWorkload, RestartWorkload} && p.params.workload in c.deployments
    requires Noted(c.deployments[p.params.workload].annotations, PLAN_ID, p.id)
    ensures Applied(env, p, now, c) == c
    ensures Effect(env, p, now, c).Some? <==>
            p.params.workload != "" && (p.action == ScaleWorkload ==> p.params.replicaDelta.Some?)
  {}

  /** The ConfigMap named first among the targets, else the workload when it is called like one, else the default. */
  ghost predicate IsItsConfigMap(p: Plan, default: string, name: string) {
    if exists r :: r in p.targets && r.kind == "ConfigMap" && r.name != "" then
      exists i :: 0 <= i < |p.targets| && FirstMapAt(p.targets, i) && p.targets[i].name == name
    else if Strip(p.params.workload) in {"app-config", "feature-flags"} then name == Strip(p.params.workload)
    else name == default
  }

  ghost predicate FirstMapAt(targets: seq<Resource>, i: int) {
    && 0 <= i < |targets| && targets[i].kind == "ConfigMap" && targets[i].name != ""
    && forall j :: 0 <= j < i ==> targets[j].kind != "ConfigMap" || targets[j].name == ""
  }

  lemma {:induction false} FirstConfigMapIsFirst(targets: seq<Resource>)
    ensures FirstConfigMap(targets).None? ==> forall r :: r in targets ==> r.kind != "ConfigMap" || r.name == ""
    ensures FirstConfigMap(targets).Some? ==>
              exists i :: 0 <= i < |targets| && FirstMapAt(targets, i)
                          && targets[i].name == FirstConfigMap(targets).value
  {
    if targets != [] {
      var rest := targets[1..];
      FirstConfigMapIsFirst(rest);
      if targets[0].kind == "ConfigMap" && targets[0].name != "" {
        assert FirstMapAt(targets, 0);
      } else if FirstConfigMap(rest).Some? {
        var i :| 0 <= i < |rest| && FirstMapAt(rest, i) && rest[i].name == FirstConfigMap(rest).value;
        forall j | 0 <= j < i + 1 ensures targets[j].kind != "ConfigMap" || targets[j].name == "" {
          if j > 0 { assert targets[j] == rest[j - 1]; }
        }
        assert targets[i + 1] == rest[i];
        assert FirstMapAt(targets, i + 1);
      } else {
        assert targets == [targets[0]] + rest;
      }
    }
  }

  lemma ConfigMapIsIts(p: Plan, default: string)
    ensures IsItsConfigMap(p, default, ConfigMapName(p, default))
  {
    FirstConfigMapIsFirst(p.targets);
    if FirstConfigMap(p.targets).Some? {
      var i :| 0 <= i < |p.targets| && FirstMapAt(p.targets, i) && p.targets[i].name == FirstConfigMap(p.targets).value;
      assert p.targets[i] in p.targets;
    }
  }

  /** The value at the key, and nothing else of the data. */
  ghost predicate HoldsAt(c: Cluster, e: Cluster, name: string, key: string, value: string) {
    && name in c.configMaps && name in e.configMaps && e.deployments == c.deployments
    && e.configMaps.Keys == c.configMaps.Keys
    && (forall n :: n in c.configMaps && n != name ==> e.configMaps[n] == c.configMaps[n])
    && Noted(e.configMaps[name].data, key, value)
    && forall k :: k != key ==>
         (k in e.configMaps[name].data <==> k in c.configMaps[name].data)
         && (k in c.configMaps[name].data ==> e.configMaps[name].data[k] == c.configMaps[name].data[k])
  }

  lemma SetKeyHolds(p: Plan, c: Cluster, name: string, key: string, value: string)
    requires name in c.configMaps
    ensures SetKey(p, c, name, key, value).Some?
    ensures HoldsAt(c, Patched(c, SetKey(p, c, name, key, value).value), name, key, value)
  {}

  /** A flag plan writes "true" when its rationale re-enables or its configuration value says so, else "false". */
  lemma WhatAFlagPlanWrites(env: Env, p: Plan, now: string, c: Cluster)
    requires p.action == DisableFlag
    ensures exists name :: IsItsConfigMap(p, "feature-flags", name) &&
              if name in c.configMaps && p.params.flagName.Some? && p.params.flagName.value != "" then
                Effect(env, p, now, c).Some?
                && HoldsAt(c, Applied(env, p, now, c), name, p.params.flagName.value,
                           if ReEnables(p.rationale) || p.params.configValue == Some("true") then "true" else "false")
              else Effect(env, p, now, c).None? && Applied(env, p, now, c) == c
  {
    var name := ConfigMapName(p, "feature-flags");
    ConfigMapIsIts(p, "feature-flags");
    if name in c.configMaps && Given(p.params.flagName) {
      SetKeyHolds(p, c, name, p.params.flagName.value, FlagValue(p));
    }
  }

  /** A configuration plan writes its value. */
  lemma WhatAConfigPlanWrites(env: Env, p: Plan, now: string, c: Cluster)
    requires p.action == RevertConfig
    ensures exists name :: IsItsConfigMap(p, "app-config", name) &&
              if name in c.configMaps && p.params.configKey.Some? && p.params.configKey.value != ""
                 && p.params.configValue.Some? then
                Effect(env, p, now, c).Some?
                && HoldsAt(c, Applied(env, p, now, c), name, p.params.configKey.value, p.params.configValue.value)
              else Effect(env, p, now, c).None? && Applied(env, p, now, c) == c
  {
    var name := ConfigMapName(p, "app-config");
    ConfigMapIsIts(p, "app-config");
    if name in c.configMaps && Given(p.params.configKey) && p.params.configValue.Some? {
      SetKeyHolds(p, c, name, p.params.configKey.value, p.params.configValue.value);
    }
  }

  /** `repo:tag`, where the tag has neither colon nor slash. */
  ghost predicate Tagged(image: string, repo: string, tag: string) {
    image == repo + ":" + tag && ':' !in tag && '/' !in tag
  }

  /** The image without its digest, or else without its tag. */
  ghost predicate IsRepository(image: string, repo: string) {
    var s := Strip(image);
    if '@' in s then repo + "@" <= s && '@' !in repo
    else if exists r, t :: Tagged(s, r, t) then exists t :: Tagged(s, repo, t)
    else repo == s
  }

  lemma BaseIsRepository(image: string)
    ensures IsRepository(image, BaseRepo(image))
  {
    var s := Strip(image);
    PositionIn(s, '@');
    var at, k := Position(s, '@'), AfterLast(s, ':');
    if at < |s| {
      assert s[..at] + "@" == s[..at + 1];
      assert '@' !in s[..at];
    } else if k > 0 && '/' !in s[k..] {
      assert ':' !in s[k..];
      assert Tagged(s, s[..k - 1], s[k..]);
    } else {
      forall r, t ensures !Tagged(s, r, t) { NoOtherTag(s, r, t); }
    }
  }

  lemma NoOtherTag(s: string, r: string, t: string)
    requires AfterLast(s, ':') == 0 || '/' in s[AfterLast(s, ':')..]
    ensures !Tagged(s, r, t)
  {
    if s == r + ":" + t && ':' !in t {
      assert s[|r|] == ':' && s[|r| + 1..] == t;
      forall j | |r| < j < |s| ensures s[j] != ':' { assert s[j] == t[j - |r| - 1] && t[j - |r| - 1] in t; }
      assert AfterLast(s, ':') == |r| + 1;
    }
  }

  /** The first of the well-known tags whose image has this digest. */
  ghost predicate FirstTag(env: Env, repo: string, hex: string, tags: seq<string>, i: int) {
    && 0 <= i < |tags| && env.sha256(repo + ":" + tags[i]) == hex
    && forall j :: 0 <= j < i ==> env.sha256(repo + ":" + tags[j]) != hex
  }

  lemma {:induction false} TagForIsFirst(env: Env, repo: string, hex: string, tags: seq<string>)
    ensures var r := TagFor(env, repo, hex, tags);
            && (r.None? ==> forall i :: 0 <= i < |tags| ==> env.sha256(repo + ":" + tags[i]) != hex)
            && (r.Some? ==> exists i :: FirstTag(env, repo, hex, tags, i) && r.value == repo + ":" + tags[i])
  {
    if tags != [] {
      var rest := tags[1..];
      TagForIsFirst(env, repo, hex, rest);
      if env.sha256(repo + ":" + tags[0]) == hex {
        assert FirstTag(env, repo, hex, tags, 0);
      } else if TagFor(env, repo, hex, rest).Some? {
        var i :| FirstTag(env, repo, hex, rest, i) && TagFor(env, repo, hex, rest).value == repo + ":" + rest[i];
        forall j | 0 <= j < i + 1 ensures env.sha256(repo + ":" + tags[j]) != hex {
          if j > 0 { assert tags[j] == rest[j - 1]; }
        }
        assert FirstTag(env, repo, hex, tags, i + 1);
      }
    }
  }

  /** What a recorded digest stands for: an image by its tag or digest, or itself when it is no digest. */
  ghost predicate DigestNames(env: Env, repo: string, digest: string, image: string) {
    if !("sha256:" <= digest) then image == digest
    else if exists t :: t in ["good", "regression", "latest", "prod"] && env.sha256(repo + ":" + t) == digest[7..] then
      exists i :: FirstTag(env, repo, digest[7..], ["good", "regression", "latest", "prod"], i)
                  && image == repo + ":" + ["good", "regression", "latest", "prod"][i]
    else image == repo + "@" + digest
  }

  const HEX := "0123456789abcdefABCDEF"

  /** The image a commit names for a workload running an image of this repository. */
  ghost predicate CommitNames(env: Env, w: string, commit: string, repo: string, image: string) {
    var ref := Strip(commit);
    if "sha256:" <= ref then image == repo + "@" + ref
    else if |ref| == 64 && forall c :: c in ref ==> c in HEX then
      image == repo + "@sha256:" + Lower(ref)
    else if '/' in ref || ':' in ref then image == ref
    else
      && env.history.Some?
      && exists i :: FirstDeploy(env.history.value, ref, i) && w in env.history.value[i].digests
                     && env.history.value[i].digests[w] != ""
                     && DigestNames(env, repo, env.history.value[i].digests[w], image)
  }

  lemma HexDigits(c: char)
    ensures IsHex(c) <==> c in HEX
  {
    if IsHex(c) {
      assert HEX[if c <= '9' then c as int - 48 else if c >= 'a' then c as int - 87 else c as int - 49] == c;
    }
  }

  lemma AllHex(s: string)
    ensures (forall i :: 0 <= i < |s| ==> IsHex(s[i])) <==> forall c :: c in s ==> c in HEX
  {
    forall c { HexDigits(c); }
    if forall c :: c in s ==> c in HEX {
      forall i | 0 <= i < |s| ensures IsHex(s[i]) { assert s[i] in s; }
    }
  }

  lemma WhatADigestNames(env: Env, current: string, digest: string, image: string)
    ensures FromDigest(env, current, digest) == image <==> DigestNames(env, BaseRepo(current), digest, image)
  {
    var repo, hex := BaseRepo(current), if "sha256:" <= digest then digest[7..] else "";
    TagForIsFirst(env, repo, hex, TAGS);
    assert TAGS == ["good", "regression", "latest", "prod"];
    if i :| FirstTag(env, repo, hex, TAGS, i) { assert TAGS[i] in TAGS; }
    if t :| t in TAGS && env.sha256(repo + ":" + t) == hex { var i :| 0 <= i < |TAGS| && TAGS[i] == t; }
    forall i, j | FirstTag(env, repo, hex, TAGS, i) && FirstTag(env, repo, hex, TAGS, j) ensures i == j {}
  }

  /** Resolution finds the image a commit names, and none exactly when it names none. */
  lemma WhatACommitNames(env: Env, w: string, commit: string, current: string, image: string)
    ensures ResolveImage(env, w, commit, current) == Some(image)
            <==> CommitNames(env, w, commit, BaseRepo(current), image)
  {
    var ref := Strip(commit);
    AllHex(ref);
    if env.history.Some? {
      var deploys := env.history.value;
      FirstMatchIsFirst(deploys, ref);
      forall i, j | FirstDeploy(deploys, ref, i) && FirstDeploy(deploys, ref, j) ensures i == j {}
      var d := FirstMatch(deploys, ref);
      if d.Some? && w in d.value.digests { WhatADigestNames(env, current, d.value.digests[w], image); }
    }
  }

  /** The container named after the workload, the first of them, or else the first of all. */
  ghost predicate IsTarget(containers: seq<Container>, w: string, i: int) {
    && 0 <= i < |containers|
    && if exists x :: x in containers && x.name == w
       then containers[i].name == w && forall j :: 0 <= j < i ==> containers[j].name != w
       else i == 0
  }

  /** The running container on the image: untouched if it was there, else told its variant. */
  ghost predicate RunsImage(w: string, before: Container, after: Container, image: string) {
    if before.image == Some(image) || (before.image == None && image == "") then after == before
    else
      && after.name == before.name && after.image == Some(image)
      && (w != "data-service" ==> after.env == before.env)
      && (w == "data-service" ==>
            && Noted(after.env, VARIANT, if exists a, b :: image == a + ":regression" + b then "regression" else "good")
            && forall k :: k != VARIANT ==> (k in after.env <==> k in before.env)
                                            && (k in before.env ==> after.env[k] == before.env[k]))
  }

  /** The target container runs the image the commit names; the others, and the replicas, are as they were. */
  ghost predicate RolledBack(env: Env, p: Plan, commit: string, before: Deployment, after: Deployment) {
    var w := p.params.workload;
    && |after.containers| == |before.containers| && after.replicas == before.replicas
    && exists i, image ::
         && IsTarget(before.containers, w, i)
         && CommitNames(env, w, commit, BaseRepo(ImageOf(before.containers[i])), image)
         && RunsImage(w, before.containers[i], after.containers[i], image)
         && (forall j :: 0 <= j < |before.containers| && j != i ==> after.containers[j] == before.containers[j])
         && (after.containers[i] != before.containers[i] ==>
               Noted(after.annotations, PLAN_ID, p.id) && Noted(after.podAnnotations, PLAN_ID, p.id))
  }

  /** Some commit is given, there is a container, and the commit names an image for it. */
  ghost predicate CanRollBack(env: Env, p: Plan, c: Cluster) {
    var w := p.params.workload;
    && w != "" && p.params.targetCommit.Some? && p.params.targetCommit.value != "" && w in c.deployments
    && exists i, image ::
         IsTarget(c.deployments[w].containers, w, i)
         && CommitNames(env, w, p.params.targetCommit.value, BaseRepo(ImageOf(c.deployments[w].containers[i])), image)
  }

  lemma ContainsMeans(s: string, part: string)
    ensures Contains(s, part) <==> exists a, b :: s == a + part + b
  {
    if Contains(s, part) {
      var i :| 0 <= i <= |s| && part <= s[i..];
      assert s == s[..i] + part + s[i + |part|..];
    }
    if a, b :| s == a + part + b {
      assert s[|a|..] == part + b;
      assert part <= s[|a|..];
    }
  }

  lemma TargetIsOne(containers: seq<Container>, w: string, i: int)
    requires containers != []
    ensures IsTarget(containers, w, i) <==> i == TargetIndex(containers, w)
  {
    var k := TargetIndex(containers, w);
    assert containers[k] in containers;
  }

  lemma WhatMovedRuns(env: Env, w: string, commit: string, running: Container)
    requires Moved(env, w, commit, running).Some?
    ensures var image := ResolveImage(env, w, commit, ImageOf(running));
            image.Some? && RunsImage(w, running, Moved(env, w, commit, running).value, image.value)
  {
    var image := ResolveImage(env, w, commit, ImageOf(running)).value;
    ContainsMeans(image, ":regression");
  }

  lemma WhenARollbackCan(env: Env, p: Plan, c: Cluster)
    requires p.action == RollbackDeploy
    ensures Rollback(env, p, c).Some? <==> CanRollBack(env, p, c)
  {
    var w := p.params.workload;
    if w != "" && Given(p.params.targetCommit) && w in c.deployments && c.deployments[w].containers != [] {
      var containers, commit := c.deployments[w].containers, p.params.targetCommit.value;
      var i := TargetIndex(containers, w);
      var found := ResolveImage(env, w, commit, ImageOf(containers[i]));
      TargetIsOne(containers, w, i);
      if found.Some? { WhatACommitNames(env, w, commit, ImageOf(containers[i]), found.value); }
      forall j, image |
        IsTarget(containers, w, j) && CommitNames(env, w, commit, BaseRepo(ImageOf(containers[j])), image)
        ensures found.Some?
      {
        TargetIsOne(containers, w, j);
        WhatACommitNames(env, w, commit, ImageOf(containers[j]), image);
      }
    }
  }

  lemma RollbackMarks(env: Env, p: Plan, c: Cluster)
    requires p.action == RollbackDeploy && Rollback(env, p, c).Some?
    ensures var w, e := p.params.workload, Patched(c, Rollback(env, p, c).value);
            && OnlyDeployment(c, e, w) && p.params.targetCommit.Some?
            && (e.deployments[w].containers != c.deployments[w].containers ==>
                  Noted(e.deployments[w].annotations, PLAN_ID, p.id)
                  && Noted(e.deployments[w].podAnnotations, PLAN_ID, p.id))
  {}

  lemma RunsTheImage(env: Env, p: Plan, commit: string, before: Deployment, after: Deployment, i: nat, image: string)
    requires IsTarget(before.containers, p.params.workload, i) && |after.containers| == |before.containers|
    requires CommitNames(env, p.params.workload, commit, BaseRepo(ImageOf(before.containers[i])), image)
    requires RunsImage(p.params.workload, before.containers[i], after.containers[i], image)
    requires after.replicas == before.replicas && after.containers == before.containers[i := after.containers[i]]
    requires after.containers != before.containers ==>
               Noted(after.annotations, PLAN_ID, p.id) && Noted(after.podAnnotations, PLAN_ID, p.id)
    ensures RolledBack(env, p, commit, before, after)
  {}

  lemma WhatARollbackRuns(env: Env, p: Plan, c: Cluster)
    requires p.action == RollbackDeploy && Rollback(env, p, c).Some?
    ensures var w, e := p.params.workload, Patched(c, Rollback(env, p, c).value);
            && OnlyDeployment(c, e, w) && p.params.targetCommit.Some?
            && RolledBack(env, p, p.params.targetCommit.value, c.deployments[w], e.deployments[w])
  {
    var w, commit, e := p.params.workload, p.params.targetCommit.value, Patched(c, Rollback(env, p, c).value);
    var before, after := c.deployments[w].containers, e.deployments[w].containers;
    var i := TargetIndex(before, w);
    RollbackMarks(env, p, c);
    RollbackMoves(env, p, c);
    TargetIsOne(before, w, i);
    WhatMovedRuns(env, w, commit, before[i]);
    var image := ResolveImage(env, w, commit, ImageOf(before[i])).value;
    WhatACommitNames(env, w, commit, ImageOf(before[i]), image);
    RunsTheImage(env, p, commit, c.deployments[w], e.deployments[w], i, image);
  }

  /** A rollback succeeds exactly when it can, and then the container runs what the commit names. */
  lemma WhatARollbackWrites(env: Env, p: Plan, now: string, c: Cluster)
    requires p.action == RollbackDeploy
    ensures Effect(env, p, now, c).Some? <==> CanRollBack(env, p, c)
    ensures var w, e := p.params.workload, Applied(env, p, now, c);
            if CanRollBack(env, p, c) then
              && OnlyDeployment(c, e, w)
              && RolledBack(env, p, p.params.targetCommit.value, c.deployments[w], e.deployments[w])
            else e == c
  {
    WhenARollbackCan(env, p, c);
    if Rollback(env, p, c).Some? { WhatARollbackRuns(env, p, c); }
  }

  // ---------------------------------------------------------------- the applier

  /** The handlers, over the Deployments and ConfigMaps of one namespace. */
  class K8sPlanApplier {
    const env: Env
    var deployments: map<string, Deployment>
    var configMaps: map<string, ConfigMap>

    constructor (env: Env, deployments: map<string, Deployment>, configMaps: map<string, ConfigMap>)
      ensures this.env == env && State() == Cluster(deployments, configMaps)
    {
      this.env, this.deployments, this.configMaps := env, deployments, configMaps;
    }

    ghost function State(): Cluster
      reads this
    {
      Cluster(deployments, configMaps)
    }

    method Apply(p: Plan, now: string) returns (ok: bool)
      modifies this
      ensures ok <==> Effect(env, p, now, old(State())).Some?
      ensures State() == Applied(env, p, now, old(State()))
    {
      match p.action
      case RollbackDeploy => ok := ApplyRollbackDeploy(p, now);
      case RestartWorkload => ok := ApplyRestartWorkload(p, now);
      case ScaleWorkload => ok := ApplyScaleWorkload(p, now);
      case DisableFlag => ok := ApplyDisableFlag(p, now);
      case RevertConfig => ok := ApplyRevertConfig(p, now);
      case NoAction => ok := true;
    }

    /** Apply the declared inverse; a plan without one cannot be reverted. */
    method Revert(p: Plan, now: string) returns (ok: bool)
      modifies this
      ensures ok <==> p.action != NoAction && p.inverse.Some? && Effect(env, p.inverse.value, now, old(State())).Some?
      ensures State() == if p.action != NoAction && p.inverse.Some?
                         then Applied(env, p.inverse.value, now, old(State())) else old(State())
    {
      if p.action == NoAction || p.inverse.None? { return false; }
      ok := Apply(p.inverse.value, now);
    }

    method ApplyRollbackDeploy(p: Plan, ghost now: string) returns (ok: bool)
      requires p.action == RollbackDeploy
      modifies this
      ensures ok <==> Effect(env, p, now, old(State())).Some?
      ensures State() == Applied(env, p, now, old(State()))
    {
      var w := p.params.workload;
      if w == "" || !Given(p.params.targetCommit) || w !in deployments { return false; }
      var d := deployments[w];
      if d.containers == [] { return false; }
      var i := TargetIndex(d.containers, w);
      var running := d.containers[i];
      var target := ResolveImage(env, w, p.params.targetCommit.value, ImageOf(running));
      if target.None? { return false; }
      if ImageOf(running) == target.value { return true; }
      var patched := running.(image := target);
      if w == "data-service" {
        patched := patched.(env := patched.env[VARIANT := VariantOf(target.value)]);
      }
      deployments := deployments[w := d.(
        containers := d.containers[i := patched],
        annotations := d.annotations[PLAN_ID := p.id],
        podAnnotations := d.podAnnotations[PLAN_ID := p.id])];
      ok := true;
    }

    method ApplyRestartWorkload(p: Plan, now: string) returns (ok: bool)
      requires p.action == RestartWorkload
      modifies this
      ensures ok <==> Effect(env, p, now, old(State())).Some?
      ensures State() == Applied(env, p, now, old(State()))
    {
      var w := p.params.workload;
      if w == "" || w !in deployments { return false; }
      var d := deployments[w];
      if PLAN_ID in d.annotations && d.annotations[PLAN_ID] == p.id { return true; }
      deployments := deployments[w := d.(
        annotations := d.annotations[PLAN_ID := p.id],
        podAnnotations := d.podAnnotations[RESTARTED_AT := now][PLAN_ID := p.id])];
      ok := true;
    }

    method ApplyScaleWorkload(p: Plan, ghost now: string) returns (ok: bool)
      requires p.action == ScaleWorkload
      modifies this
      ensures ok <==> Effect(env, p, now, old(State())).Some?
      ensures State() == Applied(env, p, now, old(State()))
    {
      var w := p.params.workload;
      if w == "" || p.params.replicaDelta.None? || w !in deployments { return false; }
      var d := deployments[w];
      if PLAN_ID in d.annotations && d.annotations[PLAN_ID] == p.id { return true; }
      var replicas := ReplicasOf(d) + p.params.replicaDelta.value;
      if replicas < 0 { return false; }
      deployments := deployments[w := d.(
        replicas := Some(replicas),
        annotations := d.annotations[PLAN_ID := p.id][REPLICA_DELTA := SignedDecimal(p.params.replicaDelta.value)])];
      ok := true;
    }

    method ApplyDisableFlag(p: Plan, ghost now: string) returns (ok: bool)
      requires p.action == DisableFlag
      modifies this
      ensures ok <==> Effect(env, p, now, old(State())).Some?
      ensures State() == Applied(env, p, now, old(State()))
    {
      if !Given(p.params.flagName) { return false; }
      ok := PatchKey(p, ConfigMapName(p, "feature-flags"), p.params.flagName.value, FlagValue(p));
    }

    method ApplyRevertConfig(p: Plan, ghost now: string) returns (ok: bool)
      requires p.action == RevertConfig
      modifies this
      ensures ok <==> Effect(env, p, now, old(State())).Some?
      ensures State() == Applied(env, p, now, old(State()))
    {
      if !Given(p.params.configKey) || p.params.configValue.None? { return false; }
      ok := PatchKey(p, ConfigMapName(p, "app-config"), p.params.configKey.value, p.params.configValue.value);
    }

    method PatchKey(p: Plan, name: string, key: string, value: string) returns (ok: bool)
      modifies this`configMaps
      ensures ok <==> SetKey(p, old(State()), name, key, value).Some?
      ensures State() == match SetKey(p, old(State()), name, key, value)
                         case Some(change) => Patched(old(State()), change)
                         case None => old(State())
    {
      if name !in configMaps { return false; }
      var m := configMaps[name];
      if key in m.data && m.data[key] == value { return true; }
      configMaps := configMaps[name := m.(
        data := m.data[key := value], annotations := m.annotations[PLAN_ID := p.id])];
      ok := true;
    }
  }
}
