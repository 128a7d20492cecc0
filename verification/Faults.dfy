/** The fault manager: apply, clear and TTL expiry under one lock, one step per stretch between awaits. */
module FaultManager {
  import opened Text

  datatype Kind = Latency | ErrorRate | CpuSpin | MemoryLeak | PoolExhaustion | Stall
  datatype Fault = Fault(kind: Kind, magnitude: real, ttl: real)

  type TaskId = nat
  type Conn = nat

  /** Callers of apply and clear, and the watchers that clear a fault when its TTL runs out. */
  datatype Job = Apply(fault: Fault) | Clear | Watch(fault: Fault)

  datatype Phase =
    | Sleeping                    // a watcher before its TTL runs out
    | Waiting                     // for the lock
    | Cancelling(timer: TaskId)   // holds the lock, awaits the timer task it has cancelled
    | Returning(done: nat)        // holds the lock, gives pool connections back
    | Acquiring(left: nat)        // holds the lock, takes pool connections
    | Done

  datatype Task = Task(job: Job, phase: Phase, cancelled: bool)

  datatype State = State(
    hasPool: bool,
    tasks: map<TaskId, Task>,
    nextId: TaskId,
    lock: Option<TaskId>,
    active: Option<Fault>,
    timer: Option<TaskId>,
    stalled: bool,
    buffers: nat,
    held: seq<Conn>,
    free: set<Conn>,
    lost: set<Conn>,      // handed back with an exception, which is suppressed
    stranded: bool)       // the last apply raised after naming its fault and before scheduling its watcher

  function Initial(hasPool: bool, conns: set<Conn>): State {
    State(hasPool, map[], 0, None, None, None, false, 0, [], conns, {}, false)
  }

  /**
   * `installs` answers for the code an apply runs between naming its fault and its next await: false when the
   * buffer cannot be allocated, or when the number of connections or the time-out cannot be worked out.
   */
  datatype Action =
    | Arrive(job: Job)              // an admin call starts
    | Wake(watcher: TaskId)         // a TTL runs out
    | Interrupted(watcher: TaskId)  // a cancellation reaches a watcher
    | Acquire(task: TaskId, installs: bool)
    | TimerGone(task: TaskId, installs: bool)           // the awaited timer task has ended
    | PutBack(task: TaskId, ok: bool, installs: bool)
    | GetConn(task: TaskId, conn: Conn)
    | GetTimeout(task: TaskId)
    | GetError(task: TaskId)        // getconn raises anything but PoolTimeout

  predicate Holding(p: Phase) { p.Cancelling? || p.Returning? || p.Acquiring? }

  predicate Enabled(s: State, a: Action) {
    match a
    case Arrive(job) => !job.Watch?
    case Wake(w) => w in s.tasks && s.tasks[w].phase.Sleeping? && !s.tasks[w].cancelled
    case Interrupted(w) =>
      w in s.tasks && s.tasks[w].cancelled && (s.tasks[w].phase.Sleeping? || s.tasks[w].phase.Waiting?)
    case Acquire(t, _) => s.lock == None && t in s.tasks && s.tasks[t].phase.Waiting? && !s.tasks[t].cancelled
    case TimerGone(t, _) =>
      && t in s.tasks && s.tasks[t].phase.Cancelling?
      && var w := s.tasks[t].phase.timer;
         w == t || (w in s.tasks && s.tasks[w].phase.Done?)
    case PutBack(t, _, _) => t in s.tasks && s.tasks[t].phase.Returning? && s.tasks[t].phase.done < |s.held|
    case GetConn(t, c) => t in s.tasks && s.tasks[t].phase.Acquiring? && s.tasks[t].phase.left > 0 && c in s.free
    case GetTimeout(t) => t in s.tasks && s.tasks[t].phase.Acquiring?
    case GetError(t) => t in s.tasks && s.tasks[t].phase.Acquiring?
  }

  function SetPhase(s: State, t: TaskId, p: Phase): State
    requires t in s.tasks
  {
    s.(tasks := s.tasks[t := s.tasks[t].(phase := p)])
  }

  /** `max(1, int(magnitude))`. */
  function Count(f: Fault): nat {
    if f.magnitude < 1.0 then 1 else f.magnitude.Floor
  }

  /** The end of apply: schedule the watcher and leave the lock. */
  function Schedule(s: State, t: TaskId, f: Fault): State
    requires t in s.tasks
  {
    var id := s.nextId;
    var left := SetPhase(s, t, Done);
    left.(tasks := left.tasks[id := Task(Watch(f), Sleeping, false)], nextId := id + 1, timer := Some(id), lock := None)
  }

  /** Apply ends in an exception: the lock is left with the fault named and no watcher for it. */
  function Strand(s: State, t: TaskId): State
    requires t in s.tasks
  {
    SetPhase(s, t, Done).(lock := None, stranded := true)
  }

  /** The kinds whose installation runs code that can raise. */
  predicate Fragile(s: State, f: Fault) { f.kind == MemoryLeak || (f.kind == PoolExhaustion && s.hasPool) }

  /** The baseline is restored; a clear ends here, an apply goes on to install its fault. */
  function Baseline(s: State, t: TaskId, installs: bool): State
    requires t in s.tasks
  {
    var clean := s.(held := [], stalled := false);
    match s.tasks[t].job
    case Apply(f) =>
      var on := clean.(active := Some(f));
      if !installs && Fragile(s, f) then Strand(on, t)
      else if f.kind == PoolExhaustion && s.hasPool then SetPhase(on, t, Acquiring(Count(f)))
      else if f.kind == MemoryLeak then Schedule(on.(buffers := on.buffers + 1), t, f)
      else if f.kind == Stall then Schedule(on.(stalled := true), t, f)
      else Schedule(on, t, f)
    case _ => SetPhase(clean, t, Done).(lock := None)
  }

  /** What follows the await of the old timer task. */
  function Forget(s: State, t: TaskId, installs: bool): State
    requires t in s.tasks
  {
    var off := s.(timer := None, active := None, buffers := 0, stranded := false);
    if s.held != [] && s.hasPool then SetPhase(off, t, Returning(0)) else Baseline(off, t, installs)
  }

  /** `putconn` under `suppress(Exception)`. */
  function GivenBack(s: State, i: nat, ok: bool): State
    requires i < |s.held|
  {
    if ok then s.(free := s.free + {s.held[i]}) else s.(lost := s.lost + {s.held[i]})
  }

  function Step(s: State, a: Action): State
    requires Enabled(s, a)
  {
    match a
    case Arrive(job) => s.(tasks := s.tasks[s.nextId := Task(job, Waiting, false)], nextId := s.nextId + 1)
    case Wake(w) => SetPhase(s, w, Waiting)
    case Interrupted(w) => SetPhase(s, w, Done)
    case Acquire(t, installs) =>
      var locked := s.(lock := Some(t));
      if s.timer.Some? && s.timer.value in s.tasks && !s.tasks[s.timer.value].phase.Done? then
        var w := s.timer.value;
        var marked :=
          if w == t then locked else locked.(tasks := locked.tasks[w := locked.tasks[w].(cancelled := true)]);
        SetPhase(marked, t, Cancelling(w))
      else Forget(locked, t, installs)
    case TimerGone(t, installs) => Forget(s, t, installs)
    case PutBack(t, ok, installs) =>
      var i := s.tasks[t].phase.done;
      var back := GivenBack(s, i, ok);
      if i + 1 < |s.held| then SetPhase(back, t, Returning(i + 1)) else Baseline(back, t, installs)
    case GetConn(t, c) =>
      var got := s.(held := s.held + [c], free := s.free - {c});
      var left := s.tasks[t].phase.left - 1;
      if left > 0 || !s.tasks[t].job.Apply? then SetPhase(got, t, Acquiring(left))
      else Schedule(got, t, s.tasks[t].job.fault)
    case GetTimeout(t) =>
      if s.tasks[t].job.Apply? then Schedule(s, t, s.tasks[t].job.fault) else s
    case GetError(t) => Strand(s, t)
  }

  // ---------------------------------------------------------------- what every step keeps

  predicate Is(active: Option<Fault>, kind: Kind) { active.Some? && active.value.kind == kind }

  /** The fields agree with the active fault, as they do whenever nobody is changing it. */
  ghost predicate Settled(s: State) {
    && (s.timer.Some? ==>
          s.active.Some? && s.timer.value in s.tasks && s.tasks[s.timer.value].job == Watch(s.active.value))
    && (s.active.Some? <==> s.timer.Some? || s.stranded)
    && (s.stranded ==> s.timer.None? && (Is(s.active, PoolExhaustion) || Is(s.active, MemoryLeak)))
    && (s.stalled <==> Is(s.active, Stall))
    && (s.held != [] ==> Is(s.active, PoolExhaustion) && s.hasPool)
    && s.buffers == (if Is(s.active, MemoryLeak) && !s.stranded then 1 else 0)
  }

  /** Only the recorded timer, or a watcher that holds the lock, is still alive. */
  ghost predicate LoneWatcher(s: State) {
    forall w :: w in s.tasks && s.tasks[w].job.Watch? && !s.tasks[w].phase.Done? ==>
      s.timer == Some(w) || s.lock == Some(w)
  }

  /** At most one task is inside the critical section, and it owns the lock. */
  ghost predicate MutualExclusion(s: State) {
    && (forall t :: t in s.tasks ==> (Holding(s.tasks[t].phase) <==> s.lock == Some(t)))
    && (s.lock.Some? ==> s.lock.value in s.tasks)
  }

  ghost predicate Alone(s: State, t: TaskId) {
    t in s.tasks && s.lock == Some(t) && forall u :: u in s.tasks && u != t ==> !Holding(s.tasks[u].phase)
  }

  ghost predicate Tidy(s: State) {
    forall t :: t in s.tasks ==>
      t < s.nextId && (s.tasks[t].phase.Sleeping? || s.tasks[t].cancelled ==> s.tasks[t].job.Watch?)
  }

  /** What is true while task `t` holds the lock, by the await it is at. */
  ghost predicate Inside(s: State, t: TaskId)
    requires t in s.tasks
  {
    match s.tasks[t].phase
    case Cancelling(w) => Settled(s) && s.timer == Some(w) && (w == t || s.tasks[w].cancelled)
    case Returning(i) =>
      s.timer == None && s.active == None && s.buffers == 0 && !s.stranded && s.hasPool && i < |s.held|
    case Acquiring(left) =>
      && s.timer == None && left > 0 && s.active.Some? && s.tasks[t].job == Apply(s.active.value)
      && s.active.value.kind == PoolExhaustion && s.hasPool && s.buffers == 0 && !s.stalled && !s.stranded
      && |s.held| + left == Count(s.active.value)
    case _ => true
  }

  /** What is true whenever the lock is free. */
  ghost predicate Free(s: State) {
    && Settled(s)
    && (s.timer.Some? ==> var w := s.tasks[s.timer.value]; (w.phase.Sleeping? || w.phase.Waiting?) && !w.cancelled)
  }

  ghost predicate Inv(s: State) {
    && MutualExclusion(s) && LoneWatcher(s) && Tidy(s)
    && (if s.lock.Some? then Inside(s, s.lock.value) else Free(s))
  }

  /** Connections already given back are still in the list while the list is walked. */
  function StillHeld(s: State): seq<Conn> {
    if s.lock.Some? && s.lock.value in s.tasks && s.tasks[s.lock.value].phase.Returning?
       && s.tasks[s.lock.value].phase.done <= |s.held|
    then s.held[s.tasks[s.lock.value].phase.done..] else s.held
  }

  function Connections(s: State): multiset<Conn> {
    multiset(s.free) + multiset(StillHeld(s)) + multiset(s.lost)
  }

  lemma ScheduleKeepsInv(s: State, t: TaskId, f: Fault)
    requires Alone(s, t) && LoneWatcher(s) && Tidy(s) && s.timer == None
    requires Settled(s.(active := None, stalled := false, buffers := 0, held := []))
    requires s.active == Some(f) && !s.stranded
    requires s.stalled <==> f.kind == Stall
    requires s.held != [] ==> f.kind == PoolExhaustion && s.hasPool
    requires s.buffers == (if f.kind == MemoryLeak then 1 else 0)
    ensures Inv(Schedule(s, t, f)) && Schedule(s, t, f).lock == None
    ensures Connections(Schedule(s, t, f)) == multiset(s.free) + multiset(s.held) + multiset(s.lost)
  {}

  lemma BaselineKeepsInv(s: State, t: TaskId, installs: bool)
    requires Alone(s, t) && LoneWatcher(s) && Tidy(s)
    requires s.timer == None && s.active == None && s.buffers == 0 && !s.stranded
    ensures Inv(Baseline(s, t, installs))
    ensures Connections(Baseline(s, t, installs)) == multiset(s.free) + multiset(s.lost)
  {
    var job := s.tasks[t].job;
    if job.Apply? {
      var on := s.(held := [], stalled := false, active := Some(job.fault));
      if (!installs && Fragile(s, job.fault)) || (job.fault.kind == PoolExhaustion && s.hasPool) {
      } else if job.fault.kind == MemoryLeak {
        ScheduleKeepsInv(on.(buffers := on.buffers + 1), t, job.fault);
      } else if job.fault.kind == Stall {
        ScheduleKeepsInv(on.(stalled := true), t, job.fault);
      } else {
        ScheduleKeepsInv(on, t, job.fault);
      }
    }
  }

  lemma ForgetKeepsInv(s: State, t: TaskId, installs: bool)
    requires Alone(s, t) && Tidy(s) && (s.held != [] ==> s.hasPool)
    requires LoneWatcher(s.(timer := None))
    ensures Inv(Forget(s, t, installs))
    ensures Connections(Forget(s, t, installs)) == multiset(s.free) + multiset(s.held) + multiset(s.lost)
  {
    var off := s.(timer := None, active := None, buffers := 0, stranded := false);
    if s.held == [] {
      BaselineKeepsInv(off, t, installs);
    }
  }

  lemma InitialInv(hasPool: bool, conns: set<Conn>)
    ensures Inv(Initial(hasPool, conns)) && Connections(Initial(hasPool, conns)) == multiset(conns)
  {}

  lemma AcquireKeepsInv(s: State, t: TaskId, installs: bool)
    requires Inv(s) && Enabled(s, Acquire(t, installs))
    ensures Inv(Step(s, Acquire(t, installs))) && Connections(Step(s, Acquire(t, installs))) == Connections(s)
  {
    if s.timer.None? {
      ForgetKeepsInv(s.(lock := Some(t)), t, installs);
    } else {
      CancelKeepsInv(s, t, installs);
    }
  }

  /** The state in which the lock's new holder awaits the timer it has cancelled. */
  lemma CancelStep(s: State, t: TaskId, installs: bool)
    requires Inv(s) && Enabled(s, Acquire(t, installs)) && s.timer.Some?
    ensures var w, e := s.timer.value, Step(s, Acquire(t, installs));
            && w in s.tasks && e == s.(lock := Some(t), tasks := e.tasks) && e.tasks.Keys == s.tasks.Keys
            && e.tasks[t] == s.tasks[t].(phase := Cancelling(w))
            && (w != t ==> e.tasks[w] == s.tasks[w].(cancelled := true))
            && forall u :: u in s.tasks && u != t && u != w ==> e.tasks[u] == s.tasks[u]
  {}

  lemma CancelKeepsInv(s: State, t: TaskId, installs: bool)
    requires Inv(s) && Enabled(s, Acquire(t, installs)) && s.timer.Some?
    ensures Inv(Step(s, Acquire(t, installs))) && Connections(Step(s, Acquire(t, installs))) == Connections(s)
  {
    var e := Step(s, Acquire(t, installs));
    CancelStep(s, t, installs);
    assert e.tasks[s.timer.value].job == s.tasks[s.timer.value].job;
    CancelledIsSound(s, e, t, s.timer.value);
  }

  lemma CancelledIsSound(s: State, e: State, t: TaskId, w: TaskId)
    requires Inv(s) && s.lock == None && s.timer == Some(w) && t in s.tasks && w in s.tasks
    requires e == s.(lock := Some(t), tasks := e.tasks) && e.tasks.Keys == s.tasks.Keys
    requires e.tasks[t] == s.tasks[t].(phase := Cancelling(w))
    requires w != t ==> e.tasks[w] == s.tasks[w].(cancelled := true)
    requires forall u :: u in s.tasks && u != t && u != w ==> e.tasks[u] == s.tasks[u]
    ensures Inv(e) && Connections(e) == Connections(s)
  {}

  lemma GivenBackConserves(s: State, i: nat, ok: bool)
    requires i < |s.held| && s.held[i] !in s.free && s.held[i] !in s.lost
    ensures var b := GivenBack(s, i, ok);
            multiset(b.free) + multiset(s.held[i + 1..]) + multiset(b.lost)
              == multiset(s.free) + multiset(s.held[i..]) + multiset(s.lost)
  {
    var conn := s.held[i];
    assert s.held[i..] == [conn] + s.held[i + 1..];
    if ok {
      assert multiset(s.free + {conn}) == multiset(s.free) + multiset{conn};
    } else {
      assert multiset(s.lost + {conn}) == multiset(s.lost) + multiset{conn};
    }
  }

  lemma WalkOnKeepsInv(s: State, back: State, t: TaskId, i: nat)
    requires Inv(s) && s.lock == Some(t) && s.tasks[t].phase == Returning(i) && i + 1 < |s.held|
    requires back == s.(free := back.free, lost := back.lost)
    ensures Inv(SetPhase(back, t, Returning(i + 1)))
    ensures StillHeld(SetPhase(back, t, Returning(i + 1))) == s.held[i + 1..]
  {}

  lemma PutBackKeepsInv(s: State, t: TaskId, ok: bool, installs: bool)
    requires Inv(s) && Enabled(s, PutBack(t, ok, installs))
    requires forall c :: c in s.free || c in s.lost ==> c !in StillHeld(s)
    ensures Inv(Step(s, PutBack(t, ok, installs))) && Connections(Step(s, PutBack(t, ok, installs))) == Connections(s)
  {
    var i := s.tasks[t].phase.done;
    var back := GivenBack(s, i, ok);
    assert s.held[i] in StillHeld(s) by { assert s.held[i] == s.held[i..][0]; }
    GivenBackConserves(s, i, ok);
    if i + 1 == |s.held| {
      LastPutBack(s, back, t, installs);
    } else {
      WalkOnKeepsInv(s, back, t, i);
    }
  }

  lemma LastPutBack(s: State, back: State, t: TaskId, installs: bool)
    requires Inv(s) && s.lock == Some(t) && s.tasks[t].phase.Returning?
    requires back == s.(free := back.free, lost := back.lost)
    ensures Inv(Baseline(back, t, installs))
    ensures Connections(Baseline(back, t, installs)) == multiset(back.free) + multiset(back.lost)
  {
    BaselineKeepsInv(back, t, installs);
  }

  lemma StillAcquiring(s: State, t: TaskId, got: State)
    requires Inv(s) && s.lock == Some(t) && s.tasks[t].phase.Acquiring? && s.tasks[t].phase.left > 1
    requires got == s.(held := got.held, free := got.free) && |got.held| == |s.held| + 1
    ensures Inv(SetPhase(got, t, Acquiring(s.tasks[t].phase.left - 1)))
    ensures StillHeld(SetPhase(got, t, Acquiring(s.tasks[t].phase.left - 1))) == got.held
  {}

  lemma GetConnKeepsInv(s: State, t: TaskId, c: Conn)
    requires Inv(s) && Enabled(s, GetConn(t, c))
    ensures Inv(Step(s, GetConn(t, c))) && Connections(Step(s, GetConn(t, c))) == Connections(s)
  {
    var got := s.(held := s.held + [c], free := s.free - {c});
    assert multiset(got.held) == multiset(s.held) + multiset{c};
    assert multiset(s.free) == multiset(got.free) + multiset{c};
    if s.tasks[t].phase.left == 1 {
      ScheduleKeepsInv(got, t, s.tasks[t].job.fault);
    } else {
      StillAcquiring(s, t, got);
    }
  }

  /** No connection is in two places. */
  ghost predicate Apart(s: State) { forall c :: Connections(s)[c] <= 1 }

  lemma ApartMeansDisjoint(s: State)
    requires Apart(s)
    ensures forall c :: c in s.free || c in s.lost ==> c !in StillHeld(s)
  {
    forall c | c in s.free || c in s.lost ensures c !in StillHeld(s) {
      assert Connections(s)[c] == multiset(s.free)[c] + multiset(StillHeld(s))[c] + multiset(s.lost)[c];
    }
  }

  /** The steps that stay outside the critical section. */
  lemma OutsideKeepsInv(s: State, a: Action)
    requires Inv(s) && Enabled(s, a) && (a.Arrive? || a.Wake? || a.Interrupted?)
    ensures Inv(Step(s, a)) && Connections(Step(s, a)) == Connections(s) && Step(s, a).lock == s.lock
  {
    if s.lock.Some? {
      assert Step(s, a).tasks[s.lock.value] == s.tasks[s.lock.value];
    }
  }

  lemma GiveUpKeepsInv(s: State, t: TaskId)
    requires Inv(s) && Enabled(s, GetTimeout(t))
    ensures Inv(Step(s, GetTimeout(t))) && Connections(Step(s, GetTimeout(t))) == Connections(s)
    ensures Inv(Step(s, GetError(t))) && Connections(Step(s, GetError(t))) == Connections(s)
  {
    ScheduleKeepsInv(s, t, s.tasks[t].job.fault);
  }

  lemma StepsKeepInv(s: State, a: Action)
    requires Inv(s) && Apart(s) && Enabled(s, a)
    ensures Inv(Step(s, a)) && Connections(Step(s, a)) == Connections(s)
  {
    match a
    case Acquire(t, installs) => AcquireKeepsInv(s, t, installs);
    case TimerGone(t, installs) => ForgetKeepsInv(s, t, installs);
    case PutBack(t, ok, installs) => ApartMeansDisjoint(s); PutBackKeepsInv(s, t, ok, installs);
    case GetConn(t, c) => GetConnKeepsInv(s, t, c);
    case GetTimeout(t) => GiveUpKeepsInv(s, t);
    case GetError(t) => GiveUpKeepsInv(s, t);
    case _ => OutsideKeepsInv(s, a);
  }

  ghost predicate Run(states: seq<State>, actions: seq<Action>, hasPool: bool, conns: set<Conn>) {
    && |states| == |actions| + 1 && states[0] == Initial(hasPool, conns)
    && forall i :: 0 <= i < |actions| ==> Enabled(states[i], actions[i]) && states[i + 1] == Step(states[i], actions[i])
  }

  /** Safety over whole runs: every state of every interleaving keeps the invariant, and no connection is duplicated. */
  lemma {:induction false} RunsKeepInv(
      states: seq<State>, actions: seq<Action>, hasPool: bool, conns: set<Conn>, n: nat)
    requires Run(states, actions, hasPool, conns) && n < |states|
    ensures Inv(states[n]) && Connections(states[n]) == multiset(conns)
  {
    if n == 0 {
      InitialInv(hasPool, conns);
    } else {
      RunsKeepInv(states, actions, hasPool, conns, n - 1);
      assert Apart(states[n - 1]);
      StepsKeepInv(states[n - 1], actions[n - 1]);
    }
  }

  /** Whenever the lock is free the fields tell the truth about the active fault, and the pool is accounted for. */
  lemma FreeLockIsConsistent(states: seq<State>, actions: seq<Action>, hasPool: bool, conns: set<Conn>, n: nat)
    requires Run(states, actions, hasPool, conns) && n < |states| && states[n].lock == None
    ensures var s := states[n];
            && (s.timer.Some? <==> s.active.Some? && !s.stranded)
            && (s.stranded ==> s.active.Some? && s.active.value.kind in {PoolExhaustion, MemoryLeak})
            && (s.stalled <==> s.active.Some? && s.active.value.kind == Stall)
            && (s.held != [] ==> s.active.Some? && s.active.value.kind == PoolExhaustion)
            && (s.buffers > 0 <==> s.active.Some? && s.active.value.kind == MemoryLeak && !s.stranded)
            && multiset(s.free) + multiset(s.held) + multiset(s.lost) == multiset(conns)
  {
    RunsKeepInv(states, actions, hasPool, conns, n);
  }

  // ---------------------------------------------------------------- what a task leaves behind

  /** The task that lets the lock go, if this step does. */
  ghost predicate LetsGo(s: State, a: Action, t: TaskId)
    requires Enabled(s, a)
  {
    t in s.tasks && Step(s, a).lock == None && if s.lock.Some? then s.lock == Some(t) else a.Acquire? && a.task == t
  }

  /** As many connections as the magnitude says, and one at least. */
  ghost predicate Sized(n: int, magnitude: real) {
    && n >= 1 && (magnitude < 1.0 ==> n == 1)
    && (magnitude >= 1.0 ==> n as real <= magnitude < n as real + 1.0)
  }

  /** A fresh watcher sleeps on the fault. */
  ghost predicate Watched(s: State, e: State, f: Fault) {
    && e.timer == Some(s.nextId) && e.nextId == s.nextId + 1
    && s.nextId in e.tasks && e.tasks[s.nextId] == Task(Watch(f), Sleeping, false)
  }

  lemma BaselineLeaves(s: State, t: TaskId, installs: bool)
    requires Alone(s, t) && Tidy(s) && s.timer == None && s.active == None && s.buffers == 0 && !s.stranded
    ensures var e := Baseline(s, t, installs);
            && (!s.tasks[t].job.Apply? ==> e.lock == None && e.active == None && e.held == [] && e.timer == None)
            && (s.tasks[t].job.Apply? ==>
                  && e.active == Some(s.tasks[t].job.fault) && e.held == []
                  && (e.lock == None && !e.stranded ==> Watched(s, e, s.tasks[t].job.fault))
                  && (e.lock == None && !e.stranded ==> !(s.tasks[t].job.fault.kind == PoolExhaustion && s.hasPool)))
  {}

  lemma ForgetLeaves(s: State, t: TaskId, installs: bool)
    requires Alone(s, t) && Tidy(s)
    ensures var e := Forget(s, t, installs);
            e.lock == None ==>
              && (!s.tasks[t].job.Apply? ==> e.active == None && e.held == [] && e.timer == None)
              && (s.tasks[t].job.Apply? ==>
                    && e.active == Some(s.tasks[t].job.fault) && e.held == []
                    && (!e.stranded ==> Watched(s, e, s.tasks[t].job.fault))
                    && (!e.stranded ==> !(s.tasks[t].job.fault.kind == PoolExhaustion && s.hasPool)))
  {
    if !(s.held != [] && s.hasPool) {
      BaselineLeaves(s.(timer := None, active := None, buffers := 0, stranded := false), t, installs);
    }
  }

  lemma CountIsSized(f: Fault)
    ensures Sized(Count(f), f.magnitude)
  {}

  /** What is left of an apply, a clear or an expiry when it lets the lock go. */
  ghost predicate Left(s: State, a: Action, t: TaskId, e: State)
    requires Enabled(s, a) && t in s.tasks
  {
    match s.tasks[t].job
    case Apply(f) =>
      && e.active == Some(f) && (e.stranded <==> CutsShort(s, a)) && (!e.stranded ==> Watched(s, e, f))
      && (f.kind == PoolExhaustion && s.hasPool && !e.stranded && !a.GetTimeout? ==> Sized(|e.held|, f.magnitude))
      && (f.kind == PoolExhaustion && s.hasPool && a.GetTimeout? ==> e.held == s.held)
      && (!(f.kind == PoolExhaustion && s.hasPool) ==> e.held == [])
    case _ => e.active == None && e.timer == None && e.held == [] && !e.stranded
  }

  lemma AcquireLeaves(s: State, a: Action, t: TaskId)
    requires Inv(s) && Enabled(s, a) && LetsGo(s, a, t) && a.Acquire?
    ensures Left(s, a, t, Step(s, a))
  {
    StrandedExactlyWhenCutShort(s, a);
    if s.timer.None? { ForgetLeaves(s.(lock := Some(t)), t, a.installs); }
  }

  lemma HolderLeaves(s: State, a: Action, t: TaskId)
    requires Inv(s) && Enabled(s, a) && LetsGo(s, a, t) && (a.TimerGone? || a.PutBack?)
    ensures Left(s, a, t, Step(s, a))
  {
    StrandedExactlyWhenCutShort(s, a);
    match a
    case TimerGone(_, installs) => ForgetLeaves(s, t, installs);
    case PutBack(_, ok, installs) => BaselineLeaves(GivenBack(s, s.tasks[t].phase.done, ok), t, installs);
  }

  lemma AcquirerLeaves(s: State, a: Action, t: TaskId)
    requires Inv(s) && Enabled(s, a) && LetsGo(s, a, t) && (a.GetConn? || a.GetTimeout? || a.GetError?)
    ensures Left(s, a, t, Step(s, a))
  {
    StrandedExactlyWhenCutShort(s, a);
    CountIsSized(s.tasks[t].job.fault);
  }

  /**
   * Whoever lets the lock go leaves its own fault active, watched unless the apply was cut short, and none after a
   * clear or an expiry; a pool exhaustion that ran into no time-out holds the connections its magnitude asks for.
   */
  lemma WhatTheLockLeaves(s: State, a: Action, t: TaskId)
    requires Inv(s) && Enabled(s, a) && LetsGo(s, a, t)
    ensures Left(s, a, t, Step(s, a))
  {
    match a
    case Acquire(_, _) => AcquireLeaves(s, a, t);
    case TimerGone(_, _) => HolderLeaves(s, a, t);
    case PutBack(_, _, _) => HolderLeaves(s, a, t);
    case GetConn(_, _) => AcquirerLeaves(s, a, t);
    case GetTimeout(_) => AcquirerLeaves(s, a, t);
    case GetError(_) => AcquirerLeaves(s, a, t);
    case _ => OutsideKeepsInv(s, a);
  }

  /** A call starts by waiting for the lock, a watcher waits once its time is up, and a cancelled one is done. */
  lemma WhatHappensOutside(s: State, a: Action)
    requires Inv(s) && Enabled(s, a) && (a.Arrive? || a.Wake? || a.Interrupted?)
    ensures var e := Step(s, a);
            && e == s.(tasks := e.tasks, nextId := e.nextId)
            && match a
               case Arrive(job) =>
                 e.tasks == s.tasks[s.nextId := Task(job, Waiting, false)] && s.nextId !in s.tasks
               case Wake(w) => e.tasks == s.tasks[w := s.tasks[w].(phase := Waiting)]
               case Interrupted(w) => e.tasks == s.tasks[w := s.tasks[w].(phase := Done)]
               case _ => true
  {}

  /** A connection handed back is free again, and lost only where handing it back failed. */
  lemma WhatPuttingBackDoes(s: State, t: TaskId, ok: bool, installs: bool)
    requires Inv(s) && Enabled(s, PutBack(t, ok, installs))
    ensures var e, c := Step(s, PutBack(t, ok, installs)), s.held[s.tasks[t].phase.done];
            && (ok ==> c in e.free && e.lost == s.lost)
            && (!ok ==> c in e.lost && e.free == s.free)
  {}

  /** The task whose apply a step goes on to install, if it comes to that. */
  function Installing(s: State, a: Action): Option<TaskId>
    requires Enabled(s, a)
  {
    match a
    case Acquire(t, _) =>
      var live := s.timer.Some? && s.timer.value in s.tasks && !s.tasks[s.timer.value].phase.Done?;
      if live || (s.held != [] && s.hasPool) then None else Some(t)
    case TimerGone(t, _) => if s.held != [] && s.hasPool then None else Some(t)
    case PutBack(t, _, _) => if s.tasks[t].phase.done + 1 < |s.held| then None else Some(t)
    case _ => None
  }

  /** The answers that cut an apply short: a failed installation of a fragile fault, or an error of the pool. */
  predicate CutsShort(s: State, a: Action)
    requires Enabled(s, a)
  {
    || a.GetError?
    || (&& (a.Acquire? || a.TimerGone? || a.PutBack?) && Installing(s, a).Some?
        && FailsToInstall(s, Installing(s, a).value, a.installs))
  }

  predicate FailsToInstall(s: State, t: TaskId, installs: bool)
    requires t in s.tasks
  {
    !installs && s.tasks[t].job.Apply? && Fragile(s, s.tasks[t].job.fault)
  }

  lemma BaselineStrands(s: State, t: TaskId, installs: bool)
    requires t in s.tasks && s.lock == Some(t) && !s.stranded
    ensures var e := Baseline(s, t, installs);
            (e.stranded <==> FailsToInstall(s, t, installs)) && (e.stranded ==> e.lock == None)
  {}

  lemma ForgetStrands(s: State, t: TaskId, installs: bool)
    requires t in s.tasks && s.lock == Some(t)
    ensures var e := Forget(s, t, installs);
            && (e.stranded <==> !(s.held != [] && s.hasPool) && FailsToInstall(s, t, installs))
            && (e.stranded ==> e.lock == None)
  {
    BaselineStrands(s.(timer := None, active := None, buffers := 0, stranded := false), t, installs);
  }

  /** The lock is let go with a stranded fault by exactly these answers; no other step strands one or rescues it. */
  lemma StrandedExactlyWhenCutShort(s: State, a: Action)
    requires Inv(s) && Enabled(s, a)
    ensures var e := Step(s, a);
            if (s.lock.Some? || a.Acquire?) && e.lock == None then e.stranded <==> CutsShort(s, a)
            else !CutsShort(s, a) && (e.stranded <==> s.stranded && e.lock == None)
  {
    match a
    case Acquire(t, installs) => ForgetStrands(s.(lock := Some(t)), t, installs);
    case TimerGone(t, installs) => ForgetStrands(s, t, installs);
    case PutBack(t, ok, installs) => BaselineStrands(GivenBack(s, s.tasks[t].phase.done, ok), t, installs);
    case GetConn(t, c) =>
    case GetTimeout(t) =>
    case GetError(t) =>
    case _ =>
  }

  /** A run that ends with the lock free and a fault nobody will clear. */
  ghost predicate EndsStranded(actions: seq<Action>, hasPool: bool, conns: set<Conn>, f: Fault) {
    exists states: seq<State> ::
      && Run(states, actions, hasPool, conns)
      && var e := states[|actions|];
         e.lock == None && e.timer == None && e.active == Some(f) && e.stranded && e.buffers == 0
  }

  /** First cause: the buffer of a memory leak cannot be allocated. */
  lemma AllocationFailureStrands(f: Fault, hasPool: bool, conns: set<Conn>)
    requires f.kind == MemoryLeak
    ensures EndsStranded([Arrive(Apply(f)), Acquire(0, false)], hasPool, conns, f)
  {
    TwoSteps(Arrive(Apply(f)), Acquire(0, false), hasPool, conns);
  }

  /** Second cause: the number of connections or the time-out of a pool exhaustion cannot be worked out. */
  lemma SizingFailureStrands(f: Fault, conns: set<Conn>)
    requires f.kind == PoolExhaustion
    ensures EndsStranded([Arrive(Apply(f)), Acquire(0, false)], true, conns, f)
  {
    TwoSteps(Arrive(Apply(f)), Acquire(0, false), true, conns);
  }

  /** Third cause: the pool raises anything but its time-out. */
  lemma PoolErrorStrands(f: Fault, conns: set<Conn>)
    requires f.kind == PoolExhaustion
    ensures EndsStranded([Arrive(Apply(f)), Acquire(0, true), GetError(0)], true, conns, f)
  {
    var s0 := Initial(true, conns);
    var s1 := Step(s0, Arrive(Apply(f)));
    var s2 := Step(s1, Acquire(0, true));
    var s3 := Step(s2, GetError(0));
    assert Run([s0, s1, s2, s3], [Arrive(Apply(f)), Acquire(0, true), GetError(0)], true, conns);
  }

  lemma TwoSteps(a: Action, b: Action, hasPool: bool, conns: set<Conn>)
    requires Enabled(Initial(hasPool, conns), a) && Enabled(Step(Initial(hasPool, conns), a), b)
    ensures var s1 := Step(Initial(hasPool, conns), a);
            Run([Initial(hasPool, conns), s1, Step(s1, b)], [a, b], hasPool, conns)
  {}

  /** A watcher that gets the lock is the recorded timer, and the fault it is about to clear is its own. */
  lemma WatcherClearsOnlyItsFault(states: seq<State>, actions: seq<Action>, hasPool: bool, conns: set<Conn>, n: nat)
    requires Run(states, actions, hasPool, conns) && n < |actions| && actions[n].Acquire?
    requires states[n].tasks[actions[n].task].job.Watch?
    ensures states[n].timer == Some(actions[n].task)
    ensures states[n].active == Some(states[n].tasks[actions[n].task].job.fault)
  {
    RunsKeepInv(states, actions, hasPool, conns, n);
  }

  /** How many more steps the lock's holder can need. */
  function Work(s: State): nat
    requires s.lock.Some? ==> s.lock.value in s.tasks
  {
    if s.lock.None? then 0 else
    var t := s.lock.value;
    var after := if s.tasks[t].job.Apply? then Count(s.tasks[t].job.fault) else 0;
    match s.tasks[t].phase
    case Cancelling(w) =>
      2 + |s.held| + after + (if w in s.tasks && w != t && !s.tasks[w].phase.Done? then 1 else 0)
    case Returning(i) => 1 + (if i < |s.held| then |s.held| - i else 0) + after
    case Acquiring(left) => left
    case _ => 0
  }

  predicate ByHolder(s: State, a: Action) {
    match a
    case TimerGone(t, _) => true
    case PutBack(t, _, _) => true
    case GetConn(t, _) => true
    case GetTimeout(t) => true
    case GetError(t) => true
    case Interrupted(w) => s.lock.Some?
    case _ => false
  }

  /** The lock is never stuck: whoever holds it, or the watcher it awaits, can always take a step. */
  lemma HolderCanStep(s: State) returns (a: Action)
    requires Inv(s) && s.lock.Some?
    ensures Enabled(s, a) && ByHolder(s, a)
  {
    var t := s.lock.value;
    match s.tasks[t].phase {
      case Cancelling(w) =>
        if w == t || s.tasks[w].phase.Done? {
          a := TimerGone(t, true);
        } else {
          a := Interrupted(w);
        }
      case Returning(_) => a := PutBack(t, true, true);
      case Acquiring(_) => a := GetTimeout(t);
    }
  }

  lemma BaselineWork(s: State, t: TaskId, installs: bool)
    requires t in s.tasks && s.lock == Some(t) && !s.tasks[t].job.Watch? && t < s.nextId
    ensures var e := Baseline(s, t, installs);
            e.lock == None
            || (e.lock == Some(t) && t in e.tasks && s.tasks[t].job.Apply? && Work(e) == Count(s.tasks[t].job.fault))
  {}

  lemma ForgetWork(s: State, t: TaskId, installs: bool)
    requires t in s.tasks && s.lock == Some(t) && t < s.nextId && s.tasks[t].phase.Cancelling?
    ensures var e := Forget(s, t, installs); e.lock == None || (e.lock == Some(t) && t in e.tasks && Work(e) < Work(s))
  {
    var off := s.(timer := None, active := None, buffers := 0, stranded := false);
    if !s.tasks[t].job.Watch? { BaselineWork(off, t, installs); }
  }

  lemma PutBackWork(s: State, t: TaskId, ok: bool, installs: bool)
    requires s.lock == Some(t) && t < s.nextId && Enabled(s, PutBack(t, ok, installs))
    ensures var e := Step(s, PutBack(t, ok, installs));
            e.lock == None || (e.lock == Some(t) && t in e.tasks && Work(e) < Work(s))
  {
    var i := s.tasks[t].phase.done;
    var back := GivenBack(s, i, ok);
    if i + 1 == |s.held| && !s.tasks[t].job.Watch? {
      BaselineWork(back, t, installs);
      assert Step(s, PutBack(t, ok, installs)) == Baseline(back, t, installs);
    }
  }

  lemma OutsideWork(s: State, a: Action)
    requires Inv(s) && s.lock.Some? && Enabled(s, a) && (a.Arrive? || a.Wake? || a.Interrupted?)
    ensures Step(s, a).lock == s.lock && s.lock.value in Step(s, a).tasks
    ensures !a.Interrupted? ==> Work(Step(s, a)) == Work(s)
    ensures a.Interrupted? ==> Work(Step(s, a)) < Work(s)
  {
    var e := Step(s, a);
    assert e.tasks[s.lock.value] == s.tasks[s.lock.value];
  }

  /** And it is held for finitely many steps: each one either lets it go or leaves less to do. */
  lemma HolderFinishes(s: State, a: Action)
    requires Inv(s) && s.lock.Some? && Enabled(s, a)
    ensures var e := Step(s, a);
            && (e.lock == s.lock ==> s.lock.value in e.tasks)
            && (ByHolder(s, a) ==> e.lock == None || (e.lock == s.lock && Work(e) < Work(s)))
            && (!ByHolder(s, a) ==> e.lock == s.lock && Work(e) == Work(s))
  {
    match a
    case TimerGone(t, installs) => ForgetWork(s, t, installs);
    case PutBack(t, ok, installs) => PutBackWork(s, t, ok, installs);
    case GetConn(t, c) =>
    case GetTimeout(t) =>
    case GetError(t) =>
    case _ => OutsideWork(s, a);
  }

  // ---------------------------------------------------------------- the object

  /** The manager's fields, with the tasks, lock and pool it shares; one method for each stretch between awaits. */
  class Manager {
    const hasPool: bool
    var tasks: map<TaskId, Task>
    var nextId: TaskId
    var lock: Option<TaskId>
    var active: Option<Fault>
    var timer: Option<TaskId>
    var stalled: bool
    var buffers: nat
    var held: seq<Conn>
    var free: set<Conn>
    var lost: set<Conn>
    var stranded: bool

    ghost function View(): State
      reads this
    {
      State(hasPool, tasks, nextId, lock, active, timer, stalled, buffers, held, free, lost, stranded)
    }

    constructor (hasPool: bool, conns: set<Conn>)
      ensures View() == Initial(hasPool, conns)
    {
      this.hasPool := hasPool;
      tasks, nextId, lock, active, timer := map[], 0, None, None, None;
      stalled, buffers, held, free, lost, stranded := false, 0, [], conns, {}, false;
    }

    method MoveTo(t: TaskId, p: Phase)
      requires t in tasks
      modifies this`tasks
      ensures View() == SetPhase(old(View()), t, p)
    {
      tasks := tasks[t := tasks[t].(phase := p)];
    }

    method StartTask(job: Job, p: Phase) returns (id: TaskId)
      modifies this`tasks, this`nextId
      ensures id == old(nextId) && nextId == id + 1 && tasks == old(tasks)[id := Task(job, p, false)]
    {
      id := nextId;
      tasks := tasks[id := Task(job, p, false)];
      nextId := nextId + 1;
    }

    /** The lock is taken; a live timer is cancelled and awaited, whether or not it is the caller itself. */
    method EnterLock(t: TaskId, installs: bool)
      requires Enabled(View(), Acquire(t, installs))
      modifies this
      ensures View() == Step(old(View()), Acquire(t, installs))
    {
      lock := Some(t);
      if timer.Some? && timer.value in tasks && !tasks[timer.value].phase.Done? {
        var w := timer.value;
        if w != t { tasks := tasks[w := tasks[w].(cancelled := true)]; }
        MoveTo(t, Cancelling(w));
      } else {
        ForgetFault(t, installs);
      }
    }

    /** From the end of the await to the first `putconn`, or on if there is none. */
    method ForgetFault(t: TaskId, installs: bool)
      requires t in tasks
      modifies this
      ensures View() == Forget(old(View()), t, installs)
    {
      timer, active, stranded := None, None, false;
      if buffers > 0 { buffers := 0; }
      if held != [] && hasPool {
        MoveTo(t, Returning(0));
      } else {
        RestoreBaseline(t, installs);
      }
    }

    method PutConnBack(t: TaskId, ok: bool, installs: bool)
      requires Enabled(View(), PutBack(t, ok, installs))
      modifies this
      ensures View() == Step(old(View()), PutBack(t, ok, installs))
    {
      var i := tasks[t].phase.done;
      if ok { free := free + {held[i]}; } else { lost := lost + {held[i]}; }
      if i + 1 < |held| { MoveTo(t, Returning(i + 1)); } else { RestoreBaseline(t, installs); }
    }

    /** The list is emptied and the stall lifted; an apply goes on to install its fault. */
    method RestoreBaseline(t: TaskId, installs: bool)
      requires t in tasks
      modifies this
      ensures View() == Baseline(old(View()), t, installs)
    {
      held, stalled := [], false;
      if tasks[t].job.Apply? {
        InstallFault(t, tasks[t].job.fault, installs);
      } else {
        MoveTo(t, Done);
        lock := None;
      }
    }

    /** An exception here leaves the lock with the fault named. */
    method InstallFault(t: TaskId, f: Fault, installs: bool)
      requires t in tasks && tasks[t].job == Apply(f) && held == [] && !stalled
      modifies this
      ensures View() == Baseline(old(View()), t, installs)
    {
      active := Some(f);
      if f.kind == MemoryLeak {
        if !installs {
          LeaveStranded(t);
          return;
        }
        buffers := buffers + 1;
      } else if f.kind == PoolExhaustion && hasPool {
        if !installs {
          LeaveStranded(t);
          return;
        }
        MoveTo(t, Acquiring(Count(f)));
        return;
      } else if f.kind == Stall {
        stalled := true;
      }
      ScheduleExpiry(t, f);
    }

    method LeaveStranded(t: TaskId)
      requires t in tasks
      modifies this
      ensures View() == Strand(old(View()), t)
    {
      MoveTo(t, Done);
      lock, stranded := None, true;
    }

    method ScheduleExpiry(t: TaskId, f: Fault)
      requires t in tasks
      modifies this
      ensures View() == Schedule(old(View()), t, f)
    {
      MoveTo(t, Done);
      var id := StartTask(Watch(f), Sleeping);
      timer, lock := Some(id), None;
    }

    method TakeConn(t: TaskId, c: Conn)
      requires Enabled(View(), GetConn(t, c)) && tasks[t].job.Apply?
      modifies this
      ensures View() == Step(old(View()), GetConn(t, c))
    {
      held, free := held + [c], free - {c};
      var left := tasks[t].phase.left - 1;
      if left > 0 { MoveTo(t, Acquiring(left)); } else { ScheduleExpiry(t, tasks[t].job.fault); }
    }

    /** The pool's time-out ends the acquiring early; the fault is installed with what was taken. */
    method GiveUp(t: TaskId)
      requires Enabled(View(), GetTimeout(t)) && tasks[t].job.Apply?
      modifies this
      ensures View() == Step(old(View()), GetTimeout(t))
    {
      ScheduleExpiry(t, tasks[t].job.fault);
    }

    /** Anything else the pool raises ends the apply. */
    method FailConn(t: TaskId)
      requires Enabled(View(), GetError(t))
      modifies this
      ensures View() == Step(old(View()), GetError(t))
    {
      LeaveStranded(t);
    }
  }
}
