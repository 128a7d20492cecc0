/** The mirror gateway: bounded queues, drain workers, and their bookkeeping under every interleaving. */
module MirrorGateway {
  import opened Text
  import opened Fidelity

  datatype Request = Request(path: string, envelope: string)

  /** One registration, with the history of what happened to it. */
  datatype Twin = Twin(
    maxsize: int,
    queue: seq<Request>,
    inFlight: Option<Request>,
    delivered: nat,
    dropped: nat,
    paths: Counts,
    running: bool,
    offered: seq<Request>,          // everything dispatched to it
    accepted: seq<Request>,         // what its queue took
    finished: seq<Request>,         // what its worker delivered or failed, in order
    arrived: seq<Request>,          // what was delivered, in order
    aborted: seq<Request>)          // in flight when the worker was stopped

  function NewTwin(maxsize: int): Twin {
    Twin(maxsize, [], None, 0, 0, map[], true, [], [], [], [], [])
  }

  /** What can happen to a registration between two awaits. */
  datatype Event = Offer(request: Request) | Take | Deliver | Fail | Stop

  /** `asyncio.Queue(maxsize)`: a bound of zero or less means unbounded. */
  predicate Full(t: Twin) { t.maxsize > 0 && |t.queue| >= t.maxsize }

  predicate CanHappen(t: Twin, e: Event) {
    match e
    case Offer(_) => true
    case Take => t.running && t.inFlight.None? && t.queue != []
    case Deliver => t.running && t.inFlight.Some?
    case Fail => t.running && t.inFlight.Some?
    case Stop => t.running
  }

  function Next(t: Twin, e: Event): Twin
    requires CanHappen(t, e)
  {
    match e
    case Offer(r) =>
      if Full(t) then t.(offered := t.offered + [r], dropped := t.dropped + 1)
      else t.(offered := t.offered + [r], accepted := t.accepted + [r], queue := t.queue + [r])
    case Take => t.(queue := t.queue[1..], inFlight := Some(t.queue[0]))
    case Deliver =>
      var r := t.inFlight.value;
      t.(inFlight := None, delivered := t.delivered + 1, paths := Bump(t.paths, r.path),
         finished := t.finished + [r], arrived := t.arrived + [r])
    case Fail => t.(inFlight := None, dropped := t.dropped + 1, finished := t.finished + [t.inFlight.value])
    case Stop => t.(running := false, inFlight := None, aborted := Pending(t.inFlight))
  }

  function Pending(r: Option<Request>): seq<Request> { if r.Some? then [r.value] else [] }

  function Paths(log: seq<Request>): multiset<string> {
    if log == [] then multiset{} else Paths(log[..|log| - 1]) + multiset{log[|log| - 1].path}
  }

  // ---------------------------------------------------------------- what each event does

  /** A registration starts running, empty and with nothing counted. */
  lemma WhatANewTwinIs(maxsize: int)
    ensures var t := NewTwin(maxsize);
            && t.running && t.maxsize == maxsize && t.queue == [] && t.inFlight == None
            && t.delivered == 0 && t.dropped == 0 && t.paths == map[] && t.offered == []
  {}

  /** Requests offered one after another, with the worker away. */
  function Offered(t: Twin, rs: seq<Request>): Twin {
    if rs == [] then t else Next(Offered(t, rs[..|rs| - 1]), Offer(rs[|rs| - 1]))
  }

  /** A burst fills the queue in order and drops the rest, a count for each; without a bound nothing is dropped. */
  lemma {:induction false} BurstFillsThenDrops(t: Twin, rs: seq<Request>)
    requires t.maxsize > 0 ==> |t.queue| <= t.maxsize
    ensures var e := Offered(t, rs);
            var taken := if t.maxsize > 0 && t.maxsize - |t.queue| < |rs| then t.maxsize - |t.queue| else |rs|;
            && e.queue == t.queue + rs[..taken] && e.dropped == t.dropped + (|rs| - taken)
            && e.offered == t.offered + rs && e.maxsize == t.maxsize
            && e.delivered == t.delivered && e.inFlight == t.inFlight && e.paths == t.paths && e.running == t.running
  {
    if rs != [] {
      var most, n := rs[..|rs| - 1], |rs| - 1;
      BurstFillsThenDrops(t, most);
      assert rs == most + [rs[n]];
      if t.maxsize > 0 && t.maxsize - |t.queue| <= n {
        assert most[..t.maxsize - |t.queue|] == rs[..t.maxsize - |t.queue|];
      } else {
        assert most[..n] == most && rs[..n + 1] == rs;
      }
    } else {
      assert t.queue + rs == t.queue && t.offered + rs == t.offered;
    }
  }

  /** A worker left alone, whose twin answers every request. */
  function Drained(t: Twin): Twin
    decreases |t.queue|, if t.inFlight.Some? then 1 else 0
  {
    if !t.running then t
    else if t.inFlight.Some? then Drained(Next(t, Deliver))
    else if t.queue != [] then Drained(Next(t, Take))
    else t
  }

  function PathCount(log: seq<Request>, path: string): nat {
    if log == [] then 0 else (if log[0].path == path then 1 else 0) + PathCount(log[1..], path)
  }

  /** The request in flight, and then the queue. */
  function Outstanding(t: Twin): seq<Request> { (if t.inFlight.Some? then [t.inFlight.value] else []) + t.queue }

  /** It delivers all that is outstanding, in order. */
  lemma {:induction false} DrainingDelivers(t: Twin)
    requires t.running
    ensures var e := Drained(t);
            && e.queue == [] && e.inFlight == None && e.running && e.dropped == t.dropped
            && e.arrived == t.arrived + Outstanding(t) && e.delivered == t.delivered + |Outstanding(t)|
    decreases |t.queue|, if t.inFlight.Some? then 1 else 0
  {
    if t.inFlight.Some? {
      DrainingDelivers(Next(t, Deliver));
      assert t.arrived + [t.inFlight.value] + ([] + t.queue) == t.arrived + ([t.inFlight.value] + t.queue);
    } else if t.queue != [] {
      DrainingDelivers(Next(t, Take));
      assert [] + t.queue == t.queue == [t.queue[0]] + t.queue[1..];
    } else {
      assert t.arrived + ([] + t.queue) == t.arrived;
    }
  }

  /** And counts each under its path. */
  lemma {:induction false} DrainingCounts(t: Twin, path: string)
    requires t.running
    ensures var e := Drained(t);
            (if path in e.paths then e.paths[path] else 0)
              == (if path in t.paths then t.paths[path] else 0) + PathCount(Outstanding(t), path)
    decreases |t.queue|, if t.inFlight.Some? then 1 else 0
  {
    var log := Outstanding(t);
    if t.inFlight.Some? {
      DrainingCounts(Next(t, Deliver), path);
      assert log[0] == t.inFlight.value && log[1..] == t.queue == Outstanding(Next(t, Deliver));
    } else if t.queue != [] {
      DrainingCounts(Next(t, Take), path);
      assert log == t.queue == [t.queue[0]] + t.queue[1..] == Outstanding(Next(t, Take));
    } else {
      assert log == [];
    }
  }

  /** A failure counts one drop; stopping ends the worker, loses what is in flight, and delivers no more. */
  lemma WhatFailingAndStoppingDo(t: Twin)
    ensures CanHappen(t, Fail) ==>
              var e := Next(t, Fail);
              && e.dropped == t.dropped + 1 && e.delivered == t.delivered && e.paths == t.paths
              && e.inFlight == None && e.queue == t.queue && e.running
    ensures CanHappen(t, Stop) <==> t.running
    ensures CanHappen(t, Stop) ==>
              var e := Next(t, Stop);
              && !e.running && e.inFlight == None && e.delivered == t.delivered && e.dropped == t.dropped
              && e.queue == t.queue && !CanHappen(e, Take) && !CanHappen(e, Deliver) && !CanHappen(e, Fail)
    ensures t.running ==> (CanHappen(t, Fail) <==> t.inFlight.Some?)
  {}

  // ---------------------------------------------------------------- what every registration keeps

  /** Every offered request is delivered, dropped, waiting, in flight, or was cut off with its worker. */
  ghost predicate Conserves(t: Twin) {
    |t.offered| == t.delivered + t.dropped + |t.queue| + |Pending(t.inFlight)| + |t.aborted|
  }

  /** First in, first out: the accepted requests are the finished ones, then the current one, then the queue. */
  ghost predicate InOrder(t: Twin) {
    t.accepted == t.finished + t.aborted + Pending(t.inFlight) + t.queue
  }

  ghost predicate Counted(t: Twin) {
    && t.delivered == |t.arrived| && CountsLog(t.paths, Paths(t.arrived))
    && t.dropped == (|t.finished| - |t.arrived|) + (|t.offered| - |t.accepted|)
  }

  ghost predicate Sub(a: seq<Request>, b: seq<Request>) {
    a == [] || (b != [] && (Sub(a, b[..|b| - 1]) || (a[|a| - 1] == b[|b| - 1] && Sub(a[..|a| - 1], b[..|b| - 1]))))
  }

  ghost predicate Sound(t: Twin) {
    && Conserves(t) && InOrder(t) && Counted(t)
    && (t.maxsize > 0 ==> |t.queue| <= t.maxsize)
    && Sub(t.arrived, t.finished) && Sub(t.accepted, t.offered)
    && (t.running ==> t.aborted == []) && (!t.running ==> t.inFlight == None)
  }

  lemma SubSnoc(a: seq<Request>, b: seq<Request>, r: Request)
    requires Sub(a, b)
    ensures Sub(a, b + [r]) && Sub(a + [r], b + [r])
  {
    assert (b + [r])[..|b|] == b && (a + [r])[..|a|] == a;
  }

  lemma {:induction false} SubLength(a: seq<Request>, b: seq<Request>)
    requires Sub(a, b)
    ensures |a| <= |b| && (|a| == |b| ==> a == b)
    decreases |b|
  {
    if a != [] {
      var b' := b[..|b| - 1];
      if Sub(a, b') {
        SubLength(a, b');
      } else {
        SubLength(a[..|a| - 1], b');
        assert a == a[..|a| - 1] + [a[|a| - 1]] && b == b' + [b[|b| - 1]];
      }
    }
  }

  lemma NewTwinIsSound(maxsize: int)
    ensures Sound(NewTwin(maxsize))
  {}

  lemma OfferKeepsSound(t: Twin, r: Request)
    requires Sound(t)
    ensures Sound(Next(t, Offer(r)))
  {
    SubSnoc(t.accepted, t.offered, r);
    assert t.accepted + [r] == t.finished + t.aborted + Pending(t.inFlight) + (t.queue + [r]);
  }

  lemma TakeKeepsSound(t: Twin)
    requires Sound(t) && CanHappen(t, Take)
    ensures Sound(Next(t, Take))
  {
    assert t.queue == [t.queue[0]] + t.queue[1..];
  }

  lemma DeliverCounts(t: Twin)
    requires Counted(t) && CanHappen(t, Deliver)
    ensures Counted(Next(t, Deliver))
  {
    var r := t.inFlight.value;
    BumpCounts(t.paths, Paths(t.arrived), r.path);
    PathsSnoc(t.arrived, r);
  }

  lemma FinishKeepsOrder(t: Twin, e: Event)
    requires InOrder(t) && t.aborted == [] && CanHappen(t, e) && (e == Deliver || e == Fail)
    ensures InOrder(Next(t, e))
  {
    assert t.finished + [t.inFlight.value] + t.queue == t.finished + ([t.inFlight.value] + t.queue);
  }

  lemma DeliverKeepsSound(t: Twin)
    requires Sound(t) && CanHappen(t, Deliver)
    ensures Sound(Next(t, Deliver))
  {
    DeliverCounts(t);
    FinishKeepsOrder(t, Deliver);
    SubSnoc(t.arrived, t.finished, t.inFlight.value);
  }

  lemma PathsSnoc(log: seq<Request>, r: Request)
    ensures Paths(log + [r]) == Paths(log) + multiset{r.path}
  {
    assert (log + [r])[..|log|] == log;
  }

  lemma FailKeepsSound(t: Twin)
    requires Sound(t) && CanHappen(t, Fail)
    ensures Sound(Next(t, Fail))
  {
    FinishKeepsOrder(t, Fail);
    SubSnoc(t.arrived, t.finished, t.inFlight.value);
  }

  /** Every event keeps the books: nothing is lost, counted twice or reordered. */
  lemma EventsKeepSound(t: Twin, e: Event)
    requires Sound(t) && CanHappen(t, e)
    ensures Sound(Next(t, e))
  {
    match e
    case Offer(r) => OfferKeepsSound(t, r);
    case Take => TakeKeepsSound(t);
    case Deliver => DeliverKeepsSound(t);
    case Fail => FailKeepsSound(t);
    case Stop =>
  }

  /** The path counters of a sound registration add up to its deliveries. */
  lemma PathsSumToDelivered(t: Twin)
    requires Sound(t)
    ensures Total(t.paths, t.paths.Keys) == t.delivered
  {
    CountersAddUp(t.paths, t.paths.Keys, Paths(t.arrived));
    PathsSize(t.arrived);
  }

  lemma {:induction false} PathsSize(log: seq<Request>)
    ensures |Paths(log)| == |log|
  {
    if log != [] { PathsSize(log[..|log| - 1]); }
  }

  /** A registration that dropped and lost nothing and has drained delivered exactly what it was offered, in order. */
  lemma DrainedMeansAllArrived(t: Twin)
    requires Sound(t) && t.dropped == 0 && t.aborted == [] && t.queue == [] && t.inFlight == None
    ensures t.arrived == t.offered && t.delivered == |t.offered| && CountsLog(t.paths, Paths(t.offered))
  {
    SubLength(t.accepted, t.offered);
    SubLength(t.arrived, t.finished);
  }

  // ---------------------------------------------------------------- the gateway as a whole

  /** A registered twin remembers how much production traffic came before it. */
  datatype Registered = Registered(twin: Twin, since: nat)

  datatype Gateway = Gateway(twins: map<string, Registered>, prodLog: seq<Request>)

  /** Steps of the gateway: the events of one event-loop turn each. */
  datatype Move =
    | Register(id: string, maxsize: int)
    | Unregister(id: string)
    | Proxy(request: Request)
    | Work(id: string, event: Event)

  predicate Possible(g: Gateway, m: Move) {
    match m
    case Register(id, _) => id != ""
    case Unregister(_) => true
    case Proxy(_) => true
    case Work(id, e) => id in g.twins && !e.Offer? && CanHappen(g.twins[id].twin, e)
  }

  function Moved(g: Gateway, m: Move): Gateway
    requires Possible(g, m)
  {
    match m
    case Register(id, maxsize) => g.(twins := g.twins[id := Registered(NewTwin(maxsize), |g.prodLog|)])
    case Unregister(id) => g.(twins := g.twins - {id})
    case Proxy(r) =>
      Gateway(map id | id in g.twins :: g.twins[id].(twin := Next(g.twins[id].twin, Offer(r))), g.prodLog + [r])
    case Work(id, e) => g.(twins := g.twins[id := g.twins[id].(twin := Next(g.twins[id].twin, e))])
  }

  /** A registration under a taken id is that of a free one. */
  lemma RegisterReplaces(g: Gateway, id: string, maxsize: int)
    requires id != ""
    ensures Moved(Moved(g, Unregister(id)), Register(id, maxsize)) == Moved(g, Register(id, maxsize))
    ensures id !in g.twins ==> Moved(g, Unregister(id)) == g
  {
    assert (g.twins - {id})[id := Registered(NewTwin(maxsize), |g.prodLog|)]
        == g.twins[id := Registered(NewTwin(maxsize), |g.prodLog|)];
    assert id !in g.twins ==> g.twins - {id} == g.twins;
  }

  /** Every registration is sound and was offered exactly the production traffic since it was registered. */
  ghost predicate GatewayInv(g: Gateway) {
    forall id :: id in g.twins ==> RegisteredInv(g.twins[id], g.prodLog)
  }

  ghost predicate RegisteredInv(r: Registered, prodLog: seq<Request>) {
    Sound(r.twin) && r.since <= |prodLog| && r.twin.offered == prodLog[r.since..]
  }

  lemma ProxyKeepsRegistered(x: Registered, prodLog: seq<Request>, r: Request)
    requires RegisteredInv(x, prodLog)
    ensures RegisteredInv(x.(twin := Next(x.twin, Offer(r))), prodLog + [r])
  {
    EventsKeepSound(x.twin, Offer(r));
    assert (prodLog + [r])[x.since..] == prodLog[x.since..] + [r];
  }

  lemma WorkKeepsRegistered(x: Registered, prodLog: seq<Request>, e: Event)
    requires RegisteredInv(x, prodLog) && CanHappen(x.twin, e) && !e.Offer?
    ensures RegisteredInv(x.(twin := Next(x.twin, e)), prodLog)
  {
    EventsKeepSound(x.twin, e);
    WorkOffersNothing(x.twin, e);
  }

  lemma MovesKeepInv(g: Gateway, m: Move)
    requires GatewayInv(g) && Possible(g, m)
    ensures GatewayInv(Moved(g, m))
  {
    var h := Moved(g, m);
    forall id | id in h.twins ensures RegisteredInv(h.twins[id], h.prodLog) {
      if m.Register? && id == m.id {
        NewTwinIsSound(m.maxsize);
      } else {
        assert RegisteredInv(g.twins[id], g.prodLog);
        if m.Proxy? {
          ProxyKeepsRegistered(g.twins[id], g.prodLog, m.request);
        } else if m.Work? && id == m.id {
          WorkKeepsRegistered(g.twins[id], g.prodLog, m.event);
        }
      }
    }
  }

  lemma WorkOffersNothing(t: Twin, e: Event)
    requires CanHappen(t, e) && !e.Offer?
    ensures Next(t, e).offered == t.offered
  {}

  ghost predicate Run(states: seq<Gateway>, moves: seq<Move>) {
    && |states| == |moves| + 1 && states[0] == Gateway(map[], [])
    && forall i :: 0 <= i < |moves| ==> Possible(states[i], moves[i]) && states[i + 1] == Moved(states[i], moves[i])
  }

  /** Safety over whole runs: every state of every interleaving keeps the invariant. */
  lemma {:induction false} RunsKeepInv(states: seq<Gateway>, moves: seq<Move>, n: nat)
    requires Run(states, moves) && n < |states|
    ensures GatewayInv(states[n])
  {
    if n > 0 {
      RunsKeepInv(states, moves, n - 1);
      MovesKeepInv(states[n - 1], moves[n - 1]);
    }
  }

  /** Registered before the first request, it dropped nothing and has drained. */
  ghost predicate Faithful(r: Registered) {
    && r.since == 0 && r.twin.dropped == 0 && r.twin.aborted == []
    && r.twin.queue == [] && r.twin.inFlight == None
  }

  /** Such a twin has the production log, and its counters. */
  lemma FaithfulTwinHasTheLog(states: seq<Gateway>, moves: seq<Move>, n: nat, id: string, prodPaths: Counts)
    requires Run(states, moves) && n < |states| && id in states[n].twins && Faithful(states[n].twins[id])
    requires CountsLog(prodPaths, Paths(states[n].prodLog))
    ensures var t := states[n].twins[id].twin;
            t.delivered == |states[n].prodLog| && t.paths == prodPaths && t.arrived == states[n].prodLog
  {
    RunsKeepInv(states, moves, n);
    var r, log := states[n].twins[id], states[n].prodLog;
    assert RegisteredInv(r, log);
    assert log[0..] == log;
    DrainedMeansAllArrived(r.twin);
    assert r.twin.paths.Keys == prodPaths.Keys;
    assert r.twin.paths == prodPaths;
  }

  /** So its evaluation has zero delta and is OK at all thresholds but negative ones. */
  lemma FaithfulTwinIsOk(states: seq<Gateway>, moves: seq<Move>, n: nat, id: string, prodPaths: Counts,
                         deltaThreshold: real, maxDropRatio: real)
    requires Run(states, moves) && n < |states| && id in states[n].twins && Faithful(states[n].twins[id])
    requires CountsLog(prodPaths, Paths(states[n].prodLog))
    ensures var t, prod := states[n].twins[id].twin, |states[n].prodLog|;
            && t.arrived == states[n].prodLog && Delta(prod, t.delivered) == 0.0
            && IsOk(prod, t.delivered, Fraction(t.dropped, t.delivered + t.dropped), prodPaths, t.paths,
                    deltaThreshold, maxDropRatio)
               == (deltaThreshold >= 0.0 && maxDropRatio >= 0.0)
  {
    FaithfulTwinHasTheLog(states, moves, n, id, prodPaths);
    SameTrafficMatches(|states[n].prodLog|, prodPaths);
    SameTrafficIsOk(|states[n].prodLog|, prodPaths, deltaThreshold, maxDropRatio);
  }

  // ---------------------------------------------------------------- the objects

  class TwinRegistration {
    const maxsize: int
    var queue: seq<Request>
    var inFlight: Option<Request>
    var delivered: nat
    var dropped: nat
    var paths: Counts
    var running: bool
    ghost var offered: seq<Request>
    ghost var accepted: seq<Request>
    ghost var finished: seq<Request>
    ghost var arrived: seq<Request>
    ghost var aborted: seq<Request>
    ghost var since: nat

    ghost function View(): Twin
      reads this
    {
      Twin(maxsize, queue, inFlight, delivered, dropped, paths, running, offered, accepted, finished, arrived, aborted)
    }

    constructor (maxsize: int, ghost since: nat)
      ensures View() == NewTwin(maxsize) && this.since == since
    {
      this.maxsize := maxsize;
      queue, inFlight, delivered, dropped, paths, running := [], None, 0, 0, map[], true;
      offered, accepted, finished, arrived, aborted := [], [], [], [], [];
      this.since := since;
    }

    /** `put_nowait`, counting the drop when the queue is full. */
    method PutOrDrop(r: Request)
      modifies this
      ensures View() == Next(old(View()), Offer(r)) && since == old(since)
    {
      offered := offered + [r];
      if maxsize > 0 && |queue| >= maxsize {
        dropped := dropped + 1;
      } else {
        queue := queue + [r];
        accepted := accepted + [r];
      }
    }

    method TakeNext()
      requires CanHappen(View(), Take)
      modifies this
      ensures View() == Next(old(View()), Take) && since == old(since)
    {
      inFlight := Some(queue[0]);
      queue := queue[1..];
    }

    method RecordDelivery()
      requires CanHappen(View(), Deliver)
      modifies this
      ensures View() == Next(old(View()), Deliver) && since == old(since)
    {
      var r := inFlight.value;
      delivered := delivered + 1;
      paths := paths[r.path := Count(paths, r.path) + 1];
      inFlight := None;
      finished, arrived := finished + [r], arrived + [r];
    }

    /** A timeout or transport error the worker handles. */
    method RecordFailure()
      requires CanHappen(View(), Fail)
      modifies this
      ensures View() == Next(old(View()), Fail) && since == old(since)
    {
      dropped := dropped + 1;
      finished := finished + [inFlight.value];
      inFlight := None;
    }

    /** The worker task ends: cancelled, or felled by an exception it does not handle. */
    method StopWorker()
      requires CanHappen(View(), Stop)
      modifies this
      ensures View() == Next(old(View()), Stop) && since == old(since)
    {
      aborted := Pending(inFlight);
      running, inFlight := false, None;
    }
  }

  twostate predicate WasOffered(t: TwinRegistration, r: Request)
    reads t
  {
    t.View() == Next(old(t.View()), Offer(r)) && t.since == old(t.since)
  }

  function RStripSlash(s: string): string {
    if s != "" && s[|s| - 1] == '/' then RStripSlash(s[..|s| - 1]) else s
  }

  datatype Stats = Stats(delivered: nat, dropped: nat, dropRatio: real, paths: Counts)

  class MirrorGatewayManager {
    const queueMaxsize: int
    var twins: map<string, TwinRegistration>
    var prodDelivered: nat
    var prodPaths: Counts
    ghost var prodLog: seq<Request>

    ghost predicate Valid()
      reads this
    {
      && (forall i, j :: i in twins && j in twins && i != j ==> twins[i] != twins[j])
      && prodDelivered == |prodLog| && CountsLog(prodPaths, Paths(prodLog))
    }

    ghost function View(): Gateway
      reads this, twins.Values
    {
      Gateway(map id | id in twins :: Registered(twins[id].View(), twins[id].since), prodLog)
    }

    constructor (queueMaxsize: int)
      ensures Valid() && View() == Gateway(map[], []) && this.queueMaxsize == queueMaxsize
    {
      this.queueMaxsize := queueMaxsize;
      twins, prodDelivered, prodPaths, prodLog := map[], 0, map[], [];
    }

    /** The objects behind one id, for frames. */
    ghost function Behind(id: string): set<TwinRegistration>
      reads this
    {
      if id in twins then {twins[id]} else {}
    }

    /** None stands for the ValueError on a blank id or address. */
    method RegisterTwin(twinId: string, baseUrl: string) returns (r: Option<TwinRegistration>)
      requires Valid()
      modifies this`twins, Behind(Strip(twinId))
      ensures Valid()
      ensures r.Some? <==> Strip(twinId) != "" && RStripSlash(Strip(baseUrl)) != ""
      ensures r.Some? ==> fresh(r.value) && twins == old(twins)[Strip(twinId) := r.value]
                          && r.value.View() == NewTwin(queueMaxsize) && r.value.since == |prodLog|
      ensures r.Some? ==> View() == Moved(old(View()), Register(Strip(twinId), queueMaxsize))
      ensures r.Some? && Strip(twinId) in old(twins) ==> !old(twins)[Strip(twinId)].running
      ensures r.None? ==> twins == old(twins) && View() == old(View())
    {
      var id := Strip(twinId);
      if id == "" || RStripSlash(Strip(baseUrl)) == "" { return None; }
      var twin := ReplaceTwin(id);
      r := Some(twin);
    }

    /** An earlier registration of the id is unregistered first. */
    method ReplaceTwin(id: string) returns (twin: TwinRegistration)
      requires Valid() && id != ""
      modifies this`twins, Behind(id)
      ensures Valid() && fresh(twin) && twins == old(twins)[id := twin]
      ensures View() == Moved(old(View()), Register(id, queueMaxsize))
      ensures twin.View() == NewTwin(queueMaxsize) && twin.since == |prodLog|
      ensures id in old(twins) ==> !old(twins)[id].running
    {
      ghost var g := View();
      RegisterReplaces(g, id, queueMaxsize);
      if id in twins { var _ := UnregisterTwin(id); }
      twin := AddTwin(id);
    }

    method AddTwin(id: string) returns (twin: TwinRegistration)
      requires Valid() && id !in twins && id != ""
      modifies this`twins
      ensures Valid() && fresh(twin) && twins == old(twins)[id := twin]
      ensures View() == Moved(old(View()), Register(id, queueMaxsize))
      ensures twin.View() == NewTwin(queueMaxsize) && twin.since == |prodLog|
    {
      twin := new TwinRegistration(queueMaxsize, |prodLog|);
      assert forall i :: i in twins ==> twins[i] != twin;
      twins := twins[id := twin];
      RegisterMoves(id, twin);
    }

    method UnregisterTwin(id: string) returns (found: bool)
      requires Valid()
      modifies this`twins, Behind(id)
      ensures Valid() && found == (id in old(twins)) && twins == old(twins) - {id}
      ensures found ==> !old(twins)[id].running
      ensures View() == Moved(old(View()), Unregister(id))
    {
      if id !in twins {
        UnregisterMoves(id);
        return false;
      }
      var twin := twins[id];
      if twin.running { twin.StopWorker(); }
      twins := twins - {id};
      UnregisterMoves(id);
      found := true;
    }

    /** Fan a request out to every registered twin; a full queue costs that twin one drop. */
    method DispatchToTwins(r: Request)
      requires Valid()
      modifies twins.Values
      ensures Valid() && prodLog == old(prodLog) && twins == old(twins)
      ensures forall id :: id in twins ==> WasOffered(twins[id], r)
    {
      var rest := twins.Keys;
      while rest != {}
        invariant rest <= twins.Keys
        invariant forall id :: id in twins && id !in rest ==> WasOffered(twins[id], r)
        invariant forall id :: id in rest ==> unchanged(twins[id])
        decreases rest
      {
        var id :| id in rest;
        twins[id].PutOrDrop(r);
        rest := rest - {id};
      }
    }

    method RecordProdRequest(r: Request)
      requires Valid()
      modifies this`prodDelivered, this`prodPaths, this`prodLog
      ensures Valid() && prodLog == old(prodLog) + [r]
    {
      BumpCounts(prodPaths, Paths(prodLog), r.path);
      PathsSnoc(prodLog, r);
      prodDelivered := prodDelivered + 1;
      prodPaths := prodPaths[r.path := Count(prodPaths, r.path) + 1];
      prodLog := prodLog + [r];
    }

    /** The part of the proxy handler that runs without awaiting. */
    method ProxyRequest(r: Request)
      requires Valid()
      modifies this`prodDelivered, this`prodPaths, this`prodLog, twins.Values
      ensures Valid() && View() == Moved(old(View()), Proxy(r))
    {
      DispatchToTwins(r);
      label dispatched:
      RecordProdRequest(r);
      assert forall id :: id in twins ==> unchanged@dispatched(twins[id]);
      ProxyMoves(r);
    }

    twostate lemma ProxyMoves(r: Request)
      requires twins == old(twins) && prodLog == old(prodLog) + [r]
      requires forall id :: id in twins ==> WasOffered(twins[id], r)
      ensures View() == Moved(old(View()), Proxy(r))
    {
      var g, h := old(View()), View();
      forall id | id in twins ensures h.twins[id] == Moved(g, Proxy(r)).twins[id] {}
    }

    /** Registering is the gateway's `Register` move. */
    twostate lemma RegisterMoves(id: string, new twin: TwinRegistration)
      requires old(Valid()) && id != "" && twins == old(twins)[id := twin] && prodLog == old(prodLog)
      requires twin.View() == NewTwin(queueMaxsize) && twin.since == |prodLog|
      requires forall i :: i in old(twins) && i != id ==> unchanged(old(twins)[i])
      ensures View() == Moved(old(View()), Register(id, queueMaxsize))
    {
      var h, e := View(), Moved(old(View()), Register(id, queueMaxsize));
      assert h.twins.Keys == e.twins.Keys;
      forall i | i in h.twins ensures h.twins[i] == e.twins[i] {
        if i != id { assert unchanged(old(twins)[i]); }
      }
    }

    /** Unregistering is the gateway's `Unregister` move. */
    twostate lemma UnregisterMoves(id: string)
      requires old(Valid()) && twins == old(twins) - {id} && prodLog == old(prodLog)
      requires forall i :: i in old(twins) && i != id ==> unchanged(old(twins)[i])
      ensures View() == Moved(old(View()), Unregister(id))
    {
      var h, e := View(), Moved(old(View()), Unregister(id));
      assert h.twins.Keys == e.twins.Keys;
      forall i | i in h.twins ensures h.twins[i] == e.twins[i] { assert unchanged(old(twins)[i]); }
    }

    method GetStats(id: string) returns (s: Option<Stats>)
      requires Valid()
      ensures s.Some? <==> id == "prod" || id in twins
      ensures id == "prod" ==> s == Some(Stats(|prodLog|, 0, 0.0, prodPaths))
      ensures id != "prod" && id in twins ==>
                var t := twins[id].View();
                s == Some(Stats(t.delivered, t.dropped, Fraction(t.dropped, t.delivered + t.dropped), t.paths))
    {
      if id == "prod" { return Some(Stats(prodDelivered, 0, 0.0, prodPaths)); }
      if id !in twins { return None; }
      var twin := twins[id];
      var total := twin.delivered + twin.dropped;
      var ratio := if total > 0 then twin.dropped as real / total as real else 0.0;
      s := Some(Stats(twin.delivered, twin.dropped, ratio, twin.paths));
    }
  }
}
