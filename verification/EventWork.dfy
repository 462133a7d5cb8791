/**
 The life of an event notification: the receive call that creates the work object, the
 worker that acknowledges it, and the handler that runs at once, from the queue or after a
 delay; and the registration and removal of handlers beside them. Each step is atomic: a
 section under the lock of the handler table, a call of a handler, an operation on the
 reference count.
 */
module EventWork {
  import opened Bytes
  import opened Frames

  datatype Option<T> = None | Some(value: T)

  // A registered handler, and whether it comes with a delay callback
  // (`delays`), and whether that callback ever asks for immediate execution (`immediate`)
  datatype Handler = Handler(id: nat, delays: bool, immediate: bool) {
    // The guard of the branch that runs it inside the receive call can come true.
    predicate RunsAtOnce() { delays && immediate }
  }

  // Where the handler runs: inside the receive call, or on the event queue
  datatype Path = Inline | Worker

  datatype EvtStage =
    | Fresh                                        // in the receive call, delay not yet chosen
    | Timer                                        // delayed work, timer not yet expired
    | Ready(path: Path)                            // about to look up the handler
    | Running(path: Path, handler: Option<Handler>)
    | Returned(path: Path)                         // handler returned, reference still held
    | Finished

  datatype AckStage = Queued | Checked(send: bool) | Sent | Dropped

  // `frees`, `touchedFreed`, `acks` and `calls` are histories.
  datatype Work = Work(rqid: u16, seqno: byte, refcount: int, ack: AckStage, evt: EvtStage,
                       frees: nat, touchedFreed: bool, acks: nat, calls: nat)

  // How far a removal of the handler for rqid has come; `waiting` are the works its flush waits for.
  datatype Removal = Cleared(rqid: u16) | Flushing(rqid: u16, waiting: set<nat>) | Complete(rqid: u16)

  // A call of a handler
  datatype Call = Call(work: nat, path: Path, rqid: u16, handler: nat)

  // An acknowledgement that was sent
  datatype Ack = Ack(work: nat, frame: seq<byte>)

  /**
   `table` holds the registered handlers. The histories: `calls`, `acks` and `delayCalls`,
   and `removals`, the removals under way or complete that no registration has undone.
   */
  datatype Hub = Hub(ready: bool, table: map<u16, Handler>, works: map<nat, Work>,
                     calls: seq<Call>, acks: seq<Ack>, delayCalls: seq<u16>, removals: map<nat, Removal>)

  datatype Delay = Immediate | After(ticks: nat)

  datatype Step =
    | SetReady(ready: bool)
    | Register(rqid: u16, handler: Handler)
    | Clear(removal: nat, rqid: u16)
    | BeginFlush(removal: nat)
    | EndFlush(removal: nat)
    | Create(work: nat, rqid: u16, seqno: byte)
    | ChooseDelay(work: nat, delay: Delay)
    | Expire(work: nat)
    | Lookup(work: nat)
    | Handle(work: nat)
    | PutEvt(work: nat)
    | CheckState(work: nat)
    | SendAck(work: nat)
    | PutAck(work: nat)

  const EMPTY := Hub(false, map[], map[], [], [], [], map[])

  // The step works on the object of this notification; is it its turn?
  predicate Enabled(h: Hub, a: Step, w: Work) {
    match a
    case ChooseDelay(_, _) => w.evt.Fresh?
    case Expire(_) => w.evt.Timer?
    case Lookup(_) => w.evt.Ready?
    case Handle(_) => w.evt.Running?
    case PutEvt(_) => w.evt.Returned?
    case CheckState(_) => w.ack.Queued?
    case SendAck(_) => w.ack.Checked?
    case PutAck(_) => w.ack.Sent?
    case _ => false
  }

  // refcount_dec_and_test, and the free if the count has come to zero
  function Put(w: Work): Work {
    w.(refcount := w.refcount - 1, frees := w.frees + (if w.refcount == 1 then 1 else 0))
  }

  function HandlerOf(h: Hub, rqid: u16): Option<Handler> {
    if rqid in h.table then Some(h.table[rqid]) else None
  }

  // The delay asked for; without a delay callback it is zero
  function DelayOf(h: Hub, rqid: u16, delay: Delay): Delay {
    match HandlerOf(h, rqid)
    case None => After(0)
    case Some(f) => if !f.delays || (delay.Immediate? && !f.immediate) then After(0) else delay
  }

  function WorkStep(h: Hub, a: Step, w: Work): Work
    requires Enabled(h, a, w)
  {
    match a
    case ChooseDelay(_, delay) =>
      (match DelayOf(h, w.rqid, delay)
       case Immediate => w.(evt := Ready(Inline))
       case After(ticks) => w.(evt := if ticks == 0 then Ready(Worker) else Timer))
    case Expire(_) => w.(evt := Ready(Worker))
    case Lookup(_) => w.(evt := Running(w.evt.path, HandlerOf(h, w.rqid)))
    case Handle(_) => w.(evt := Returned(w.evt.path), calls := w.calls + (if w.evt.handler.Some? then 1 else 0))
    case PutEvt(_) => Put(w.(evt := Finished))
    case CheckState(_) => w.(ack := Checked(h.ready))
    case SendAck(_) => w.(ack := Sent, acks := w.acks + (if w.ack.send then 1 else 0))
    case PutAck(_) => Put(w.(ack := Dropped))
  }

  function NewWork(rqid: u16, seqno: byte): Work { Work(rqid, seqno, 2, Queued, Fresh, 0, false, 0, 0) }

  function OnWork(h: Hub, a: Step, id: nat): Hub {
    if id !in h.works || !Enabled(h, a, h.works[id]) then h
    else
      var w := h.works[id];
      h.(works := h.works[id := WorkStep(h, a, w).(touchedFreed := w.touchedFreed || w.frees > 0)],
         calls := if a.Handle? && w.evt.handler.Some?
                  then h.calls + [Call(id, w.evt.path, w.rqid, w.evt.handler.value.id)] else h.calls,
         acks := if a.SendAck? && w.ack.send then h.acks + [Ack(id, ControlFrame(TYPE_ACK, w.seqno))] else h.acks,
         delayCalls := if a.ChooseDelay? && HandlerOf(h, w.rqid).Some? && HandlerOf(h, w.rqid).value.delays
                       then h.delayCalls + [w.rqid] else h.delayCalls)
  }

  // The event queue is working on it, or is going to.
  predicate OnQueue(w: Work) {
    (w.evt.Ready? || w.evt.Running? || w.evt.Returned?) && w.evt.path == Worker
  }

  function WorksOnQueue(h: Hub): set<nat> { set w | w in h.works && OnQueue(h.works[w]) }

  function Next(h: Hub, a: Step): Hub {
    match a
    case SetReady(ready) => h.(ready := ready)
    case Register(rqid, f) =>
      if !RqidIsEvent(rqid) then h
      else h.(table := h.table[rqid := f],
              removals := map r | r in h.removals && h.removals[r].rqid != rqid :: h.removals[r])
    case Clear(r, rqid) =>
      if !RqidIsEvent(rqid) || r in h.removals then h
      else h.(table := h.table - {rqid}, removals := h.removals[r := Cleared(rqid)])
    case BeginFlush(r) =>
      if r in h.removals && h.removals[r].Cleared? then
        h.(removals := h.removals[r := Flushing(h.removals[r].rqid, WorksOnQueue(h))])
      else h
    case EndFlush(r) =>
      if r in h.removals && h.removals[r].Flushing?
         && (forall w <- h.removals[r].waiting :: w in h.works && h.works[w].evt.Finished?) then
        h.(removals := h.removals[r := Complete(h.removals[r].rqid)])
      else h
    case Create(id, rqid, seqno) =>
      if id in h.works || !RqidIsEvent(rqid) then h else h.(works := h.works[id := NewWork(rqid, seqno)])
    case _ => OnWork(h, a, a.work)
  }

  function Run(h: Hub, steps: seq<Step>): Hub
    decreases |steps|
  {
    if steps == [] then h else Run(Next(h, steps[0]), steps[1..])
  }

  lemma RunOn(h: Hub, a: Step, rest: seq<Step>)
    ensures Run(h, [a] + rest) == Run(Next(h, a), rest)
  {
    hide Next;
    assert ([a] + rest)[1..] == rest;
  }

  lemma {:induction false} RunSplit(h: Hub, a: seq<Step>, b: seq<Step>)
    ensures Run(h, a + b) == Run(Run(h, a), b)
    decreases |a|
  {
    hide Next;
    if a == [] {
      assert a + b == b;
    } else {
      assert (a + b)[1..] == a[1..] + b;
      RunSplit(Next(h, a[0]), a[1..], b);
    }
  }

  // The life of the object

  /** The references held are those of the two workers that are not through. */
  predicate WorkOk(w: Work) {
    && RqidIsEvent(w.rqid)
    && w.refcount == (if w.ack.Dropped? then 0 else 1) + (if w.evt.Finished? then 0 else 1)
    && w.frees == (if w.refcount == 0 then 1 else 0)
    && !w.touchedFreed
    && w.acks <= (if w.ack.Sent? || w.ack.Dropped? then 1 else 0)
    && w.calls <= (if w.evt.Returned? || w.evt.Finished? then 1 else 0)
  }

  predicate WorksOk(h: Hub) { forall id <- h.works :: WorkOk(h.works[id]) }

  lemma WorkStepOk(h: Hub, a: Step, w: Work)
    requires WorkOk(w) && Enabled(h, a, w)
    ensures w.frees == 0 && WorkOk(WorkStep(h, a, w))
  {
  }

  lemma StepKeepsWorks(h: Hub, a: Step)
    requires WorksOk(h)
    ensures WorksOk(Next(h, a))
  {
    hide Enabled, WorkStep;
    if !(a.SetReady? || a.Register? || a.Clear? || a.BeginFlush? || a.EndFlush? || a.Create?) {
      if a.work in h.works && Enabled(h, a, h.works[a.work]) {
        WorkStepOk(h, a, h.works[a.work]);
      }
    }
  }

  /**
   Lifetime. In every interleaving, each work object is freed exactly once, when the ack
   worker and the event handler are both through, and not before; no step touches it after
   that, and none can; it is acknowledged at most once, and its handler is called at most once.
   */
  lemma {:induction false} EventObjectLifetime(h: Hub, steps: seq<Step>, id: nat)
    requires WorksOk(h) && id in Run(h, steps).works
    ensures var w := Run(h, steps).works[id];
      && !w.touchedFreed
      && (w.frees == 1 <==> w.ack.Dropped? && w.evt.Finished?) && w.frees <= 1
      && w.acks <= 1 && w.calls <= 1
      && 0 <= w.rqid - 1 < 31
      && (w.frees == 1 ==> forall a: Step :: !Enabled(Run(h, steps), a, w))
    decreases |steps|
  {
    hide Next;
    if steps != [] {
      StepKeepsWorks(h, steps[0]);
      EventObjectLifetime(Next(h, steps[0]), steps[1..], id);
    } else {
      assert WorkOk(h.works[id]);
    }
  }

  // Quiescence

  // A handler that was found on this path, and is running or about to
  predicate ExecutesOn(w: Work, rqid: u16, path: Path) {
    w.rqid == rqid && w.evt.Running? && w.evt.path == path && w.evt.handler.Some?
  }

  // One on the event queue
  predicate Executes(w: Work, rqid: u16) { ExecutesOn(w, rqid, Worker) }

  predicate Quiet(h: Hub, rqid: u16) {
    rqid !in h.table && forall id <- h.works :: !Executes(h.works[id], rqid)
  }

  predicate RemovalOk(h: Hub, m: Removal) {
    match m
    case Cleared(rqid) => rqid !in h.table
    case Flushing(rqid, waiting) =>
      rqid !in h.table && forall id <- h.works :: Executes(h.works[id], rqid) ==> id in waiting
    case Complete(rqid) => Quiet(h, rqid)
  }

  predicate RemovalsOk(h: Hub) { forall r <- h.removals :: RemovalOk(h, h.removals[r]) }

  lemma WorkStartsNone(h: Hub, a: Step, w: Work, touched: bool, rqid: u16, path: Path)
    requires rqid !in h.table && Enabled(h, a, w)
    ensures ExecutesOn(WorkStep(h, a, w).(touchedFreed := touched), rqid, path) ==> ExecutesOn(w, rqid, path)
  {
  }

  // Without a handler in the table, no execution of one starts on either path.
  lemma NothingStarts(h: Hub, a: Step, rqid: u16, path: Path)
    requires rqid !in h.table && !(a.Register? && a.rqid == rqid)
    ensures var g := Next(h, a);
      && rqid !in g.table
      && (forall id <- g.works :: ExecutesOn(g.works[id], rqid, path) ==>
            id in h.works && ExecutesOn(h.works[id], rqid, path))
  {
    hide WorkStep, Enabled;
    var g := Next(h, a);
    forall id <- g.works ensures ExecutesOn(g.works[id], rqid, path) ==> id in h.works && ExecutesOn(h.works[id], rqid, path) {
      if id in h.works && g.works[id] != h.works[id] {
        var w := h.works[id];
        assert Enabled(h, a, w) && id == a.work;
        WorkStartsNone(h, a, w, w.touchedFreed || w.frees > 0, rqid, path);
      }
    }
  }

  // Which steps call a handler, and which a delay callback
  lemma NextCalls(h: Hub, a: Step)
    ensures var g := Next(h, a);
      || g.calls == h.calls
      || (&& a.Handle? && a.work in h.works
          && var w := h.works[a.work];
          && w.evt.Running? && w.evt.handler.Some?
          && g.calls == h.calls + [Call(a.work, w.evt.path, w.rqid, w.evt.handler.value.id)])
    ensures var g := Next(h, a);
      || g.delayCalls == h.delayCalls
      || (&& a.ChooseDelay? && a.work in h.works && h.works[a.work].rqid in h.table
          && g.delayCalls == h.delayCalls + [h.works[a.work].rqid])
  {
    hide WorkStep;
  }

  lemma KeptRemoval(h: Hub, a: Step, r: nat)
    requires r in h.removals && r in Next(h, a).removals && RemovalOk(h, h.removals[r])
    ensures RemovalOk(Next(h, a), Next(h, a).removals[r])
  {
    var rqid := h.removals[r].rqid;
    if !(a.Register? && a.rqid == rqid) {
      NothingStarts(h, a, rqid, Worker);
    }
  }

  lemma StepKeepsRemovals(h: Hub, a: Step)
    requires RemovalsOk(h)
    ensures RemovalsOk(Next(h, a))
  {
    hide RemovalOk, OnWork;
    var g := Next(h, a);
    forall r <- g.removals ensures RemovalOk(g, g.removals[r]) {
      if r in h.removals {
        KeptRemoval(h, a, r);
      } else {
        FreshRemoval(h, a, r);
      }
    }
  }

  lemma FreshRemoval(h: Hub, a: Step, r: nat)
    requires r !in h.removals && r in Next(h, a).removals
    ensures RemovalOk(Next(h, a), Next(h, a).removals[r])
  {
  }

  lemma {:induction false} RunKeepsRemovals(h: Hub, steps: seq<Step>)
    requires RemovalsOk(h)
    ensures RemovalsOk(Run(h, steps))
    decreases |steps|
  {
    hide Next, RemovalsOk;
    if steps != [] {
      StepKeepsRemovals(h, steps[0]);
      RunKeepsRemovals(Next(h, steps[0]), steps[1..]);
    }
  }

  // Calls of handlers for rqid from the event queue
  function QueueCalls(calls: seq<Call>, rqid: u16): nat {
    if calls == [] then 0
    else
      var c := calls[|calls| - 1];
      QueueCalls(calls[..|calls| - 1], rqid) + (if c.rqid == rqid && c.path == Worker then 1 else 0)
  }

  function Count(s: seq<u16>, rqid: u16): nat {
    if s == [] then 0 else Count(s[..|s| - 1], rqid) + (if s[|s| - 1] == rqid then 1 else 0)
  }

  predicate Registers(steps: seq<Step>, rqid: u16) { exists a <- steps :: a.Register? && a.rqid == rqid }

  lemma QuietStep(h: Hub, a: Step, rqid: u16)
    requires Quiet(h, rqid) && !(a.Register? && a.rqid == rqid)
    ensures Quiet(Next(h, a), rqid)
    ensures QueueCalls(Next(h, a).calls, rqid) == QueueCalls(h.calls, rqid)
    ensures Count(Next(h, a).delayCalls, rqid) == Count(h.delayCalls, rqid)
  {
    hide Next;
    NothingStarts(h, a, rqid, Worker);
    NextCalls(h, a);
    var g := Next(h, a);
    if g.calls != h.calls {
      assert g.calls[..|g.calls| - 1] == h.calls;
      assert !Executes(h.works[a.work], rqid);
    }
    if g.delayCalls != h.delayCalls {
      assert g.delayCalls[..|g.delayCalls| - 1] == h.delayCalls;
    }
  }

  lemma {:induction false} QuietRun(h: Hub, steps: seq<Step>, rqid: u16)
    requires Quiet(h, rqid) && !Registers(steps, rqid)
    ensures Quiet(Run(h, steps), rqid)
    ensures QueueCalls(Run(h, steps).calls, rqid) == QueueCalls(h.calls, rqid)
    ensures Count(Run(h, steps).delayCalls, rqid) == Count(h.delayCalls, rqid)
    decreases |steps|
  {
    hide Next, Quiet;
    if steps != [] {
      assert steps[0] in steps;
      QuietStep(h, steps[0], rqid);
      assert !Registers(steps[1..], rqid);
      QuietRun(Next(h, steps[0]), steps[1..], rqid);
    }
  }

  /**
   Quiescence. Once a removal is complete, no execution of a handler for this id is running
   on the event queue, and in any further run without a new registration none starts there
   and no delay callback for it is called.
   */
  lemma HandlerQuiescence(before: seq<Step>, r: nat, after: seq<Step>)
    requires r in Run(EMPTY, before).removals && Run(EMPTY, before).removals[r].Complete?
    requires !Registers(after, Run(EMPTY, before).removals[r].rqid)
    ensures var h := Run(EMPTY, before);
      var rqid := h.removals[r].rqid;
      var g := Run(h, after);
      && (forall id <- g.works :: !Executes(g.works[id], rqid))
      && QueueCalls(g.calls, rqid) == QueueCalls(h.calls, rqid)
      && Count(g.delayCalls, rqid) == Count(h.delayCalls, rqid)
  {
    hide Run;
    RunKeepsRemovals(EMPTY, before);
    var h := Run(EMPTY, before);
    assert RemovalOk(h, h.removals[r]);
    QuietRun(h, after, h.removals[r].rqid);
  }
}
