/** The control loop: fifteen nodes of arbitrary behaviour, explicit reducers and routed edges. */
module Orchestrator {
  import opened Text

  datatype Node =
    | Ingest | GatherContext | PlanCandidates | ForkFleet | RegisterMirrors | ApplyCandidates | Observe
    | Tournament | SafetyKernel | Actuate | NotifySlack | EscalatePagerDuty | TeardownFleet | RecordRun
    | HandleFailure

  datatype RunOutcome = Executed | Escalated | Failed
  datatype TournamentOutcome = Decided | Ambiguous | NoViableCandidate
  datatype Contest = Contest(outcome: TournamentOutcome, winner: Option<string>)
  datatype Ruling = Pass | Veto | Uncertain
  datatype ProdOutcome = Resolved | NotResolved | Worsened

  /** The fields the routing reads, and those whose reducers do more than replace. */
  datatype State = State(
    incidentId: string,
    tournament: Option<Contest>,
    verdict: Option<Ruling>,
    outcome: Option<RunOutcome>,
    prodOutcome: Option<ProdOutcome>,
    escalated: bool,
    errors: seq<string>)

  /** What a node returns; None leaves a field alone. */
  datatype Update = Update(
    incidentId: Option<string>,
    tournament: Option<Contest>,
    verdict: Option<Ruling>,
    outcome: Option<RunOutcome>,
    prodOutcome: Option<ProdOutcome>,
    escalated: Option<bool>,
    errors: seq<string>)

  datatype Answer = Returned(update: Update) | Raised(message: string)

  function Keep<T>(current: Option<T>, update: Option<T>): Option<T> { if update.None? then current else update }

  /** None when `reduce_incident_id` refuses to switch incidents, which ends the whole invocation. */
  function Reduce(s: State, u: Update): Option<State> {
    var named := u.incidentId.Some? && u.incidentId.value != "";
    if named && s.incidentId != "" && u.incidentId.value != s.incidentId then None
    else Some(State(
      if named then u.incidentId.value else s.incidentId,
      Keep(s.tournament, u.tournament), Keep(s.verdict, u.verdict), Keep(s.outcome, u.outcome),
      Keep(s.prodOutcome, u.prodOutcome), s.escalated || u.escalated == Some(true), s.errors + u.errors))
  }

  /** The exception barrier around every node. */
  function Barrier(a: Answer): Update {
    match a
    case Returned(u) => u
    case Raised(m) => Update(None, None, None, None, None, None, [m])
  }

  // ---------------------------------------------------------------- routing

  /** None is the end of the graph. */
  function Route(n: Node, s: State): Option<Node> {
    if n == HandleFailure then None
    else if s.errors != [] then Some(HandleFailure)
    else match n
      case Ingest => Some(GatherContext)
      case GatherContext => Some(PlanCandidates)
      case PlanCandidates => Some(ForkFleet)
      case ForkFleet => Some(RegisterMirrors)
      case RegisterMirrors => Some(ApplyCandidates)
      case ApplyCandidates => Some(Observe)
      case Observe => Some(Tournament)
      case Tournament => RouteTournament(s)
      case SafetyKernel => RouteSafetyKernel(s)
      case Actuate => Some(if s.prodOutcome == Some(Resolved) then NotifySlack else EscalatePagerDuty)
      case NotifySlack => Some(TeardownFleet)
      case EscalatePagerDuty => Some(TeardownFleet)
      case TeardownFleet => Some(RecordRun)
      case RecordRun => None
  }

  function RouteTournament(s: State): Option<Node> {
    if s.tournament.None? || s.tournament.value.outcome != Decided
       || s.tournament.value.winner in {None, Some("")} || s.outcome == Some(Escalated)
    then Some(EscalatePagerDuty)
    else Some(SafetyKernel)
  }

  function RouteSafetyKernel(s: State): Option<Node> {
    if s.verdict != Some(Pass) || s.outcome == Some(Escalated) then Some(EscalatePagerDuty) else Some(Actuate)
  }

  /** The longest way from the start to a node. */
  function Depth(n: Node): nat {
    match n
    case Ingest => 0
    case GatherContext => 1
    case PlanCandidates => 2
    case ForkFleet => 3
    case RegisterMirrors => 4
    case ApplyCandidates => 5
    case Observe => 6
    case Tournament => 7
    case SafetyKernel => 8
    case Actuate => 9
    case NotifySlack => 10
    case EscalatePagerDuty => 10
    case TeardownFleet => 11
    case RecordRun => 12
    case HandleFailure => 13
  }

  lemma RouteGoesDeeper(n: Node, s: State)
    ensures Route(n, s).Some? ==> Depth(n) < Depth(Route(n, s).value)
    ensures Route(n, s).None? ==> n == HandleFailure || (n == RecordRun && s.errors == [])
  {}

  // ---------------------------------------------------------------- runs

  datatype Visit = Visit(node: Node, before: State, after: State)

  ghost predicate Reduces(before: State, after: State) {
    exists u :: Reduce(before, u) == Some(after)
  }

  ghost predicate Follows(v: Visit, w: Visit) {
    Route(v.node, v.after) == Some(w.node) && w.before == v.after
  }

  /** A run, finished or not, of nodes that may do anything. */
  ghost predicate IsRun(run: seq<Visit>, start: State) {
    && (run != [] ==> run[0].node == Ingest && run[0].before == start)
    && (forall i :: 0 <= i < |run| ==> Reduces(run[i].before, run[i].after))
    && (forall i :: 0 < i < |run| ==> Follows(run[i - 1], run[i]))
  }

  predicate Finished(run: seq<Visit>) {
    run != [] && var v := run[|run| - 1]; Route(v.node, v.after).None?
  }

  /** Where the run stands: the state reached and the node to run next. */
  ghost predicate At(run: seq<Visit>, start: State, s: State, node: Node) {
    if run == [] then s == start && node == Ingest
    else s == run[|run| - 1].after && Route(run[|run| - 1].node, s) == Some(node)
  }

  /** Every visit reduced what its node answered behind the barrier. */
  ghost predicate Obeys(run: seq<Visit>, behave: (Node, State) -> Answer) {
    forall i :: 0 <= i < |run| ==>
      Reduce(run[i].before, Barrier(behave(run[i].node, run[i].before))) == Some(run[i].after)
  }

  lemma RunGrows(run: seq<Visit>, start: State, v: Visit)
    requires IsRun(run, start) && At(run, start, v.before, v.node) && Reduces(v.before, v.after)
    ensures IsRun(run + [v], start)
  {
    var more := run + [v];
    forall i | 0 <= i < |more| ensures Reduces(more[i].before, more[i].after) {
      if i < |run| { assert more[i] == run[i]; }
    }
    forall i | 0 < i < |more| ensures Follows(more[i - 1], more[i]) {
      if i < |run| { assert Follows(run[i - 1], run[i]); }
    }
  }

  datatype End = Completed | IncidentSwitched(node: Node)

  /** The invocation: run a node behind its barrier, reduce, route, until the end or a refused incident id. */
  method Invoke(start: State, behave: (Node, State) -> Answer) returns (run: seq<Visit>, end: End)
    ensures IsRun(run, start)
    ensures end.Completed? <==> Finished(run)
    ensures Obeys(run, behave)
    ensures end.IncidentSwitched? ==>
              var s := if run == [] then start else run[|run| - 1].after;
              At(run, start, s, end.node) && Reduce(s, Barrier(behave(end.node, s))).None?
  {
    run := [];
    var s, node := start, Ingest;
    while true
      invariant IsRun(run, start) && !Finished(run)
      invariant Obeys(run, behave) && At(run, start, s, node)
      decreases 14 - Depth(node)
    {
      var reduced := Reduce(s, Barrier(behave(node, s)));
      if reduced.None? { return run, IncidentSwitched(node); }
      assert Reduces(s, reduced.value);
      RunGrows(run, start, Visit(node, s, reduced.value));
      run := run + [Visit(node, s, reduced.value)];
      s := reduced.value;
      RouteGoesDeeper(node, s);
      match Route(node, s) {
        case None => return run, Completed;
        case Some(next) => node := next;
      }
    }
  }

  // ---------------------------------------------------------------- what holds of every run

  lemma {:induction false} DepthGrows(run: seq<Visit>, start: State, i: nat, j: nat)
    requires IsRun(run, start) && i < j < |run|
    ensures Depth(run[i].node) + (j - i) <= Depth(run[j].node)
  {
    RouteGoesDeeper(run[j - 1].node, run[j - 1].after);
    assert Follows(run[j - 1], run[j]);
    if i < j - 1 {
      DepthGrows(run, start, i, j - 1);
    }
  }

  /** No node runs twice, and no run has more than fourteen of the fifteen. */
  lemma EachNodeAtMostOnce(run: seq<Visit>, start: State)
    requires IsRun(run, start)
    ensures forall i, j :: 0 <= i < j < |run| ==> run[i].node != run[j].node
    ensures |run| <= 14
  {
    forall i, j | 0 <= i < j < |run| ensures run[i].node != run[j].node {
      DepthGrows(run, start, i, j);
    }
    if |run| > 1 {
      DepthGrows(run, start, 0, |run| - 1);
    }
  }

  function Spine(i: nat): Node {
    match i
    case 0 => Ingest
    case 1 => GatherContext
    case 2 => PlanCandidates
    case 3 => ForkFleet
    case 4 => RegisterMirrors
    case 5 => ApplyCandidates
    case 6 => Observe
    case 7 => Tournament
    case 8 => SafetyKernel
    case 9 => Actuate
    case 10 => NotifySlack
    case 11 => TeardownFleet
    case 12 => RecordRun
    case _ => HandleFailure
  }

  /** Fourteen are possible: an actuated run whose recording fails. */
  lemma FourteenNodesCanRun()
    ensures exists run, start :: IsRun(run, start) && |run| == 14
  {
    var s := State("inc", Some(Contest(Decided, Some("plan"))), Some(Pass), None, Some(Resolved), false, []);
    var e := s.(errors := ["RuntimeError: store"]);
    var run := seq(14, i requires 0 <= i < 14 => Visit(Spine(i), if i < 13 then s else e, if i < 12 then s else e));
    assert s.errors + [] == s.errors && e.errors + [] == e.errors;
    var quiet := Update(None, None, None, None, None, None, []);
    assert Reduce(s, quiet) == Some(s) && Reduce(e, quiet) == Some(e);
    assert s.errors + e.errors == e.errors;
    assert Reduce(s, quiet.(errors := e.errors)) == Some(e);
    assert Reduces(s, s) && Reduces(s, e) && Reduces(e, e);
    forall i | 0 < i < 14 ensures Follows(run[i - 1], run[i]) {}
    assert IsRun(run, s);
  }

  /** Errors are only added, the escalation flag stays set, and the incident never changes. */
  lemma {:induction false} HistoryIsKept(run: seq<Visit>, start: State, i: nat, j: nat)
    requires IsRun(run, start) && i <= j < |run|
    ensures run[i].before.errors <= run[j].after.errors && run[i].after.errors <= run[j].after.errors
    ensures run[i].before.escalated ==> run[j].after.escalated
    ensures run[i].before.incidentId != "" ==> run[j].after.incidentId == run[i].before.incidentId
  {
    assert Reduces(run[j].before, run[j].after);
    if i < j {
      HistoryIsKept(run, start, i, j - 1);
      assert Follows(run[j - 1], run[j]);
    }
  }

  lemma NothingAfterFailure(run: seq<Visit>, start: State, i: nat)
    requires IsRun(run, start) && i < |run|
    ensures i < |run| - 1 ==> run[i].node != HandleFailure
  {
    if i + 1 < |run| { assert Follows(run[i], run[i + 1]); }
  }

  /** Once a node has left an error, the next node is handle_failure and the last. */
  lemma ErrorsDivert(run: seq<Visit>, start: State, i: nat)
    requires IsRun(run, start) && i < |run| && run[i].after.errors != []
    ensures run[i].node == HandleFailure || i == |run| - 1 || (i == |run| - 2 && run[i + 1].node == HandleFailure)
    ensures i == |run| - 1 ==> Finished(run) == (run[i].node == HandleFailure)
  {
    if i + 1 < |run| {
      assert Follows(run[i], run[i + 1]);
      NothingAfterFailure(run, start, i + 1);
    }
  }

  /** An exception in a node always leaves an error. */
  lemma RaisingLeavesAnError(s: State, m: string)
    ensures var after := Reduce(s, Barrier(Raised(m)));
            after.Some? && after.value == s.(errors := s.errors + [m]) && after.value.errors != []
  {}

  /** Handle_failure is entered for an error and nothing else. */
  lemma FailureNeedsAnError(run: seq<Visit>, start: State, i: nat)
    requires IsRun(run, start) && i < |run| && run[i].node == HandleFailure
    ensures i > 0 && run[i - 1].after.errors != [] && i == |run| - 1
  {
    assert Follows(run[i - 1], run[i]);
    NothingAfterFailure(run, start, i);
  }

  /** The nodes of an error-free run up to a given depth, before the paths part. */
  lemma {:induction false} Backbone(run: seq<Visit>, start: State, i: nat)
    requires IsRun(run, start) && i < |run| && Depth(run[i].node) <= 9
    ensures i == Depth(run[i].node)
    ensures i > 0 ==> Depth(run[i - 1].node) == i - 1 && run[i - 1].after.errors == []
  {
    if i > 0 {
      assert Follows(run[i - 1], run[i]);
      RouteGoesDeeper(run[i - 1].node, run[i - 1].after);
      Backbone(run, start, i - 1);
    }
  }

  /**
   * Production is touched only after the tournament was left decided with a winner and the kernel was left with
   * PASS, both without an error and not escalated; and nothing before it had left an error.
   */
  lemma ActuateIsGuarded(run: seq<Visit>, start: State, i: nat)
    requires IsRun(run, start) && i < |run| && run[i].node == Actuate
    ensures i == 9 && run[7].node == Tournament && run[8].node == SafetyKernel
    ensures var t := run[7].after;
            && t.errors == [] && t.outcome != Some(Escalated) && t.tournament.Some?
            && t.tournament.value.outcome == Decided && t.tournament.value.winner.Some?
            && t.tournament.value.winner.value != ""
    ensures run[8].after.errors == [] && run[8].after.outcome != Some(Escalated) && run[8].after.verdict == Some(Pass)
    ensures forall k :: 0 <= k < 9 ==> run[k].after.errors == []
  {
    Backbone(run, start, i);
    Backbone(run, start, 8);
    assert Follows(run[8], run[9]) && Follows(run[7], run[8]);
    forall k | 0 <= k < 9 ensures run[k].after.errors == [] { HistoryIsKept(run, start, k, 8); }
  }

  /** Slack is told of a resolution only when production was actuated and reported resolved. */
  lemma SlackMeansResolved(run: seq<Visit>, start: State, i: nat)
    requires IsRun(run, start) && i < |run| && run[i].node == NotifySlack
    ensures i == 10 && run[9].node == Actuate && run[9].after.prodOutcome == Some(Resolved) && run[9].after.errors == []
  {
    assert Follows(run[i - 1], run[i]);
    Backbone(run, start, i - 1);
  }

  /** A run ends at record_run without an error, right after teardown and one notification; or at handle_failure. */
  lemma HowRunsEnd(run: seq<Visit>, start: State)
    requires IsRun(run, start) && Finished(run)
    ensures var last := run[|run| - 1];
            if last.after.errors == [] && last.node != HandleFailure then
              && last.node == RecordRun && |run| >= 3 && run[|run| - 2].node == TeardownFleet
              && (run[|run| - 3].node == NotifySlack || run[|run| - 3].node == EscalatePagerDuty)
            else last.node == HandleFailure && |run| >= 2 && run[|run| - 2].after.errors != []
  {
    var n := |run|;
    RouteGoesDeeper(run[n - 1].node, run[n - 1].after);
    if run[n - 1].node == HandleFailure {
      FailureNeedsAnError(run, start, n - 1);
    } else {
      assert Follows(run[n - 2], run[n - 1]);
      assert run[n - 2].node == TeardownFleet;
      assert Follows(run[n - 3], run[n - 2]);
    }
  }

  ghost predicate Visits(run: seq<Visit>, n: Node) { exists i :: 0 <= i < |run| && run[i].node == n }

  /** Every node that comes before a depth was left without an error. */
  ghost predicate CleanBefore(run: seq<Visit>, depth: nat) {
    forall k :: 0 <= k < |run| && Depth(run[k].node) < depth ==> run[k].after.errors == []
  }

  /** A node was reached without an error before it. */
  lemma ReachedClean(run: seq<Visit>, start: State, i: nat)
    requires IsRun(run, start) && i < |run| && run[i].node != HandleFailure
    ensures CleanBefore(run, Depth(run[i].node))
  {
    forall k | 0 <= k < |run| && Depth(run[k].node) < Depth(run[i].node) ensures run[k].after.errors == [] {
      if i < k {
        DepthGrows(run, start, i, k);
      } else {
        LeftClean(run, start, k, i);
      }
    }
  }

  lemma LeftClean(run: seq<Visit>, start: State, k: nat, i: nat)
    requires IsRun(run, start) && k < i < |run| && run[i].node != HandleFailure
    ensures run[k].after.errors == []
  {
    assert Follows(run[i - 1], run[i]);
    HistoryIsKept(run, start, k, i - 1);
  }

  lemma VisitedClean(run: seq<Visit>, start: State, n: Node)
    requires IsRun(run, start) && n != HandleFailure
    ensures Visits(run, n) ==> CleanBefore(run, Depth(n))
  {
    if Visits(run, n) {
      var i :| 0 <= i < |run| && run[i].node == n;
      ReachedClean(run, start, i);
    }
  }

  /** The last node before a failure's handling, or the last of all: it is as deep as the run stayed clean. */
  lemma LastRegularNode(run: seq<Visit>, start: State, depth: nat) returns (i: nat)
    requires IsRun(run, start) && Finished(run) && depth <= 12 && CleanBefore(run, depth)
    ensures i < |run| && run[i].node != HandleFailure && Depth(run[i].node) >= depth
  {
    HowRunsEnd(run, start);
    if run[|run| - 1].node == HandleFailure {
      i := |run| - 2;
      NothingAfterFailure(run, start, i);
    } else {
      i := |run| - 1;
    }
  }

  lemma RecordFollowsTeardown(run: seq<Visit>, start: State, i: nat)
    requires IsRun(run, start) && i < |run| && run[i].node == RecordRun
    ensures i > 0 && run[i - 1].node == TeardownFleet
  {
    assert Follows(run[i - 1], run[i]);
  }

  /** A finished run tears the fleet down exactly when no node before teardown left an error. */
  lemma WhenTeardownIsReached(run: seq<Visit>, start: State)
    requires IsRun(run, start) && Finished(run)
    ensures Visits(run, TeardownFleet) <==> CleanBefore(run, Depth(TeardownFleet))
  {
    VisitedClean(run, start, TeardownFleet);
    if CleanBefore(run, Depth(TeardownFleet)) {
      var i := LastRegularNode(run, start, Depth(TeardownFleet));
      if run[i].node == RecordRun { RecordFollowsTeardown(run, start, i); }
    }
  }

  /** And it records the run exactly when teardown left none either. */
  lemma WhenTheRunIsRecorded(run: seq<Visit>, start: State)
    requires IsRun(run, start) && Finished(run)
    ensures Visits(run, RecordRun) <==> CleanBefore(run, Depth(RecordRun))
  {
    VisitedClean(run, start, RecordRun);
    if CleanBefore(run, Depth(RecordRun)) {
      var i := LastRegularNode(run, start, Depth(RecordRun));
      assert run[i].node == RecordRun;
    }
  }

  /** An exception in the first node skips both. */
  lemma FailedIngestSkipsTeardown(start: State, message: string)
    requires start.errors == []
    ensures var failed := start.(errors := [message]);
            var run := [Visit(Ingest, start, failed), Visit(HandleFailure, failed, failed)];
            IsRun(run, start) && Finished(run) && !Visits(run, TeardownFleet) && !Visits(run, RecordRun)
  {
    var failed := start.(errors := [message]);
    var quiet := Update(None, None, None, None, None, None, []);
    assert start.errors + [message] == [message] && failed.errors + [] == failed.errors;
    assert Reduce(start, quiet.(errors := [message])) == Some(failed) && Reduce(failed, quiet) == Some(failed);
    assert Reduces(start, failed) && Reduces(failed, failed);
    assert Follows(Visit(Ingest, start, failed), Visit(HandleFailure, failed, failed));
  }

  /** In a finished run someone hears of it: Slack, PagerDuty or handle_failure, and Slack and PagerDuty never both. */
  lemma SomeoneIsTold(run: seq<Visit>, start: State)
    requires IsRun(run, start) && Finished(run)
    ensures exists i :: 0 <= i < |run| && run[i].node in {NotifySlack, EscalatePagerDuty, HandleFailure}
    ensures !(exists i, j :: 0 <= i < |run| && 0 <= j < |run|
                             && run[i].node == NotifySlack && run[j].node == EscalatePagerDuty)
  {
    HowRunsEnd(run, start);
    var n := |run|;
    var told := if run[n - 1].node == HandleFailure then n - 1 else n - 3;
    assert run[told].node in {NotifySlack, EscalatePagerDuty, HandleFailure};
    forall i, j | 0 <= i < n && 0 <= j < n && run[i].node == NotifySlack ensures run[j].node != EscalatePagerDuty {
      SlackOrPager(run, start, i, j);
    }
  }

  lemma SlackOrPager(run: seq<Visit>, start: State, i: nat, j: nat)
    requires IsRun(run, start) && i < |run| && j < |run|
    ensures run[i].node == NotifySlack ==> run[j].node != EscalatePagerDuty
  {
    if i < j {
      DepthGrows(run, start, i, j);
    } else if j < i {
      DepthGrows(run, start, j, i);
    }
  }

  // ---------------------------------------------------------------- where a run goes

  /** The run goes on from its i-th visit, to this node. */
  ghost predicate GoesTo(run: seq<Visit>, i: nat, n: Node) { i + 1 < |run| && run[i + 1].node == n }

  /** The tournament was left decided, with a winner, and nobody escalated. */
  ghost predicate HasWinner(s: State) {
    && s.tournament.Some? && s.tournament.value.outcome == Decided
    && s.tournament.value.winner.Some? && s.tournament.value.winner.value != "" && s.outcome != Some(Escalated)
  }

  const PREPARATION :=
    [Ingest, GatherContext, PlanCandidates, ForkFleet, RegisterMirrors, ApplyCandidates, Observe, Tournament]

  lemma NextPrepared(i: nat, s: State)
    requires 0 < i < 8 && s.errors == []
    ensures Route(PREPARATION[i - 1], s) == Some(PREPARATION[i])
  {}

  ghost predicate CleanUpTo(run: seq<Visit>, i: nat) {
    forall k :: 0 <= k < i && k < |run| ==> run[k].after.errors == []
  }

  /** Without an error a finished run takes the eight preparatory nodes in this order. */
  lemma {:induction false} PreparationInOrder(run: seq<Visit>, start: State, i: nat)
    requires IsRun(run, start) && Finished(run) && i < 8 && CleanUpTo(run, i)
    ensures i < |run| && run[i].node == PREPARATION[i]
    decreases i
  {
    if i > 0 {
      PreparationInOrder(run, start, i - 1);
      NextPrepared(i, run[i - 1].after);
      if i < |run| { assert Follows(run[i - 1], run[i]); }
    }
  }

  lemma TournamentRoutes(s: State)
    requires s.errors == []
    ensures Route(Tournament, s) == Some(if HasWinner(s) then SafetyKernel else EscalatePagerDuty)
  {
    if s.tournament.Some? {
      var winner := s.tournament.value.winner;
      assert winner in {None, Some("")} <==> winner == None || winner == Some("");
    }
  }

  /** Where a finished run goes from each later node left without an error, and from any node left with one. */
  lemma WhereARunGoes(run: seq<Visit>, start: State, i: nat)
    requires IsRun(run, start) && Finished(run) && i < |run| && run[i].node != HandleFailure
    ensures var s := run[i].after;
            if s.errors != [] then GoesTo(run, i, HandleFailure)
            else match run[i].node
              case Tournament => GoesTo(run, i, if HasWinner(s) then SafetyKernel else EscalatePagerDuty)
              case SafetyKernel =>
                GoesTo(run, i, if s.verdict == Some(Pass) && s.outcome != Some(Escalated) then Actuate
                               else EscalatePagerDuty)
              case Actuate => GoesTo(run, i, if s.prodOutcome == Some(Resolved) then NotifySlack else EscalatePagerDuty)
              case NotifySlack => GoesTo(run, i, TeardownFleet)
              case EscalatePagerDuty => GoesTo(run, i, TeardownFleet)
              case TeardownFleet => GoesTo(run, i, RecordRun)
              case RecordRun => i == |run| - 1
              case _ => i + 1 < |run|
  {
    if run[i].after.errors == [] { TournamentRoutes(run[i].after); }
    FollowsRoute(run, start, i);
  }

  lemma FollowsRoute(run: seq<Visit>, start: State, i: nat)
    requires IsRun(run, start) && Finished(run) && i < |run|
    ensures match Route(run[i].node, run[i].after)
            case Some(n) => GoesTo(run, i, n)
            case None => i == |run| - 1
  {
    if i + 1 < |run| { assert Follows(run[i], run[i + 1]); }
  }

  /** A run in which no node leaves an error, the tournament finds a winner and the kernel passes it is actuated. */
  lemma CleanRunsAreActuated(run: seq<Visit>, start: State)
    requires IsRun(run, start) && Finished(run) && forall k :: 0 <= k < |run| ==> run[k].after.errors == []
    ensures |run| > 8 && run[7].node == Tournament
    ensures HasWinner(run[7].after) ==>
              && run[8].node == SafetyKernel
              && (run[8].after.verdict == Some(Pass) && run[8].after.outcome != Some(Escalated) ==>
                    |run| == 13 && run[9].node == Actuate && run[11].node == TeardownFleet && run[12].node == RecordRun)
  {
    PreparationInOrder(run, start, 7);
    WhereARunGoes(run, start, 7);
    if HasWinner(run[7].after) {
      WhereARunGoes(run, start, 8);
      if run[8].after.verdict == Some(Pass) && run[8].after.outcome != Some(Escalated) {
        WhereARunGoes(run, start, 9);
        WhereARunGoes(run, start, 10);
        WhereARunGoes(run, start, 11);
        WhereARunGoes(run, start, 12);
      }
    }
  }

  /** What a node returns reaches the state: fields replace, errors are appended, and incidents are never switched. */
  lemma WhatReducingDoes(s: State, u: Update)
    ensures var named := u.incidentId.Some? && u.incidentId.value != "";
            Reduce(s, u).None? <==> named && s.incidentId != "" && s.incidentId != u.incidentId.value
    ensures Reduce(s, u).Some? ==>
              var e := Reduce(s, u).value;
              && (if u.incidentId.Some? && u.incidentId.value != "" then e.incidentId == u.incidentId.value
                  else e.incidentId == s.incidentId)
              && (if u.tournament.Some? then e.tournament == u.tournament else e.tournament == s.tournament)
              && (if u.verdict.Some? then e.verdict == u.verdict else e.verdict == s.verdict)
              && (if u.outcome.Some? then e.outcome == u.outcome else e.outcome == s.outcome)
              && (if u.prodOutcome.Some? then e.prodOutcome == u.prodOutcome else e.prodOutcome == s.prodOutcome)
              && (e.escalated <==> s.escalated || u.escalated == Some(true))
              && |e.errors| == |s.errors| + |u.errors| && s.errors <= e.errors && e.errors[|s.errors|..] == u.errors
  {}

  // ---------------------------------------------------------------- the recorded outcome

  function ResolvedOutcome(s: State): RunOutcome {
    if s.outcome == Some(Escalated) then Escalated
    else if s.errors != [] then Failed
    else if s.outcome.Some? then s.outcome.value else Executed
  }

  /** The outcome on record: an escalation outlasts errors, errors outlast what was set, and nothing set is executed. */
  lemma WhatIsRecorded(s: State)
    ensures ResolvedOutcome(s) == Escalated <==>
            s.outcome == Some(Escalated)
    ensures ResolvedOutcome(s) == Executed <==>
            s.errors == [] && (s.outcome == None || s.outcome == Some(Executed))
    ensures ResolvedOutcome(s) == Failed <==>
            s.outcome != Some(Escalated) && (s.errors != [] || s.outcome == Some(Failed))
  {}

  /** Where any node left an error, the outcome derived from the final state is not `executed`. */
  lemma BrokenRunsAreNotExecuted(run: seq<Visit>, start: State, i: nat)
    requires IsRun(run, start) && i < |run| && run[i].after.errors != []
    ensures ResolvedOutcome(run[|run| - 1].after) != Executed
  {
    HistoryIsKept(run, start, i, |run| - 1);
  }
}
