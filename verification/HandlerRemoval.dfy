/**
 When the removal of a handler is complete on every path: the immediate path, on which the
 receive call runs the handler itself, is outside the flush.
 */
module HandlerRemoval {
  import opened Bytes
  import opened Frames
  import opened EventWork

  // Calls of handlers for rqid, on any path
  function CallsFor(calls: seq<Call>, rqid: u16): nat {
    if calls == [] then 0
    else CallsFor(calls[..|calls| - 1], rqid) + (if calls[|calls| - 1].rqid == rqid then 1 else 0)
  }

  // A handler found by the receive call, which it is running or about to
  predicate ExecutesInline(w: Work, rqid: u16) { ExecutesOn(w, rqid, Inline) }

  predicate RunsInline(h: Hub, rqid: u16) { exists id <- h.works :: ExecutesInline(h.works[id], rqid) }

  predicate Removed(h: Hub, rqid: u16) { exists r <- h.removals :: h.removals[r] == Complete(rqid) }

  // A further run without a registration in which a handler for rqid is called all the same
  predicate CalledAfter(h: Hub, after: seq<Step>, rqid: u16) {
    !Registers(after, rqid) && CallsFor(Run(h, after).calls, rqid) > CallsFor(h.calls, rqid)
  }

  lemma OneMoreCall(calls: seq<Call>, c: Call, rqid: u16)
    ensures CallsFor(calls + [c], rqid) == CallsFor(calls, rqid) + (if c.rqid == rqid then 1 else 0)
  {
    assert (calls + [c])[..|calls|] == calls;
  }

  // Without a handler in the table or in execution, no step starts or calls one.
  lemma UnusedStep(h: Hub, a: Step, rqid: u16)
    requires Quiet(h, rqid) && !RunsInline(h, rqid) && !(a.Register? && a.rqid == rqid)
    ensures Quiet(Next(h, a), rqid) && !RunsInline(Next(h, a), rqid)
    ensures CallsFor(Next(h, a).calls, rqid) == CallsFor(h.calls, rqid)
  {
    hide Next, CallsFor, QueueCalls, Count;
    QuietStep(h, a, rqid);
    NothingStarts(h, a, rqid, Inline);
    NextCalls(h, a);
    var g := Next(h, a);
    assert !RunsInline(g, rqid);
    if g.calls != h.calls {
      assert !ExecutesInline(h.works[a.work], rqid) && !Executes(h.works[a.work], rqid);
      OneMoreCall(h.calls, g.calls[|h.calls|], rqid);
    }
  }

  lemma {:induction false} UnusedRun(h: Hub, steps: seq<Step>, rqid: u16)
    requires Quiet(h, rqid) && !RunsInline(h, rqid) && !Registers(steps, rqid)
    ensures CallsFor(Run(h, steps).calls, rqid) == CallsFor(h.calls, rqid)
    ensures Quiet(Run(h, steps), rqid) && !RunsInline(Run(h, steps), rqid)
    decreases |steps|
  {
    hide Next, Quiet, RunsInline;
    if steps != [] {
      assert steps[0] in steps;
      UnusedStep(h, steps[0], rqid);
      assert !Registers(steps[1..], rqid);
      UnusedRun(Next(h, steps[0]), steps[1..], rqid);
    }
  }

  lemma RemovedIsQuiet(before: seq<Step>, rqid: u16)
    requires Removed(Run(EMPTY, before), rqid)
    ensures Quiet(Run(EMPTY, before), rqid)
  {
    hide Run, Quiet;
    RunKeepsRemovals(EMPTY, before);
    var h := Run(EMPTY, before);
    var r :| r in h.removals && h.removals[r] == Complete(rqid);
    assert RemovalOk(h, h.removals[r]);
  }

  lemma InlineIsCalled(h: Hub, id: nat, rqid: u16)
    requires id in h.works && ExecutesInline(h.works[id], rqid)
    ensures CalledAfter(h, [Handle(id)], rqid)
  {
    var w := h.works[id];
    RunOn(h, Handle(id), []);
    OneMoreCall(h.calls, Call(id, Inline, rqid, w.evt.handler.value.id), rqid);
  }

  /**
   Exactly when a completed removal leaves a handler in use: if the receive call had looked
   it up before, and has not called it yet.
   */
  lemma RemovalLeavesUseIff(before: seq<Step>, rqid: u16)
    requires Removed(Run(EMPTY, before), rqid)
    ensures var h := Run(EMPTY, before);
      RunsInline(h, rqid) <==> exists after :: CalledAfter(h, after, rqid)
  {
    hide Run, Quiet, ExecutesInline, CallsFor;
    var h := Run(EMPTY, before);
    RemovedIsQuiet(before, rqid);
    if RunsInline(h, rqid) {
      var id :| id in h.works && ExecutesInline(h.works[id], rqid);
      InlineIsCalled(h, id, rqid);
    } else {
      forall after: seq<Step> ensures !CalledAfter(h, after, rqid) {
        if !Registers(after, rqid) {
          UnusedRun(h, after, rqid);
        }
      }
    }
  }

  // Handlers that never run inside the receive call

  predicate OnlyRegisters(steps: seq<Step>, rqid: u16, f: Handler) {
    forall a <- steps :: a.Register? && a.rqid == rqid ==> a.handler == f
  }

  predicate NeverAtOnce(steps: seq<Step>, rqid: u16) {
    forall a <- steps :: a.Register? && a.rqid == rqid ==> !a.handler.RunsAtOnce()
  }

  // Nothing for rqid takes the immediate path.
  predicate AllQueued(h: Hub, rqid: u16) {
    && (rqid in h.table ==> !h.table[rqid].RunsAtOnce())
    && forall id <- h.works :: h.works[id].rqid == rqid && (h.works[id].evt.Ready? || h.works[id].evt.Running?) ==>
         h.works[id].evt.path == Worker
  }

  lemma QueuedStep(h: Hub, a: Step, rqid: u16)
    requires AllQueued(h, rqid) && !(a.Register? && a.rqid == rqid && a.handler.RunsAtOnce())
    ensures AllQueued(Next(h, a), rqid)
  {
  }

  lemma {:induction false} QueuedRun(h: Hub, steps: seq<Step>, rqid: u16)
    requires AllQueued(h, rqid) && NeverAtOnce(steps, rqid)
    ensures AllQueued(Run(h, steps), rqid)
    decreases |steps|
  {
    hide Next, AllQueued;
    if steps != [] {
      assert steps[0] in steps;
      QueuedStep(h, steps[0], rqid);
      assert NeverAtOnce(steps[1..], rqid);
      QueuedRun(Next(h, steps[0]), steps[1..], rqid);
    }
  }

  /**
   So if no handler whose delay callback may answer immediate is ever registered for an id, a completed removal
   is complete on every path: no handler for it is running anywhere, and none is called in
   any further run without a registration.
   */
  lemma RemovalWithoutImmediate(before: seq<Step>, rqid: u16, after: seq<Step>)
    requires Removed(Run(EMPTY, before), rqid) && NeverAtOnce(before, rqid) && !Registers(after, rqid)
    ensures var g := Run(Run(EMPTY, before), after);
      && CallsFor(g.calls, rqid) == CallsFor(Run(EMPTY, before).calls, rqid)
      && (forall id <- g.works :: !Executes(g.works[id], rqid) && !ExecutesInline(g.works[id], rqid))
  {
    hide Run, CallsFor;
    QueuedRun(EMPTY, before, rqid);
    RemovedIsQuiet(before, rqid);
    UnusedRun(Run(EMPTY, before), after, rqid);
  }

  // A run in which the handler f is called after its removal has completed
  predicate Outlives(before: seq<Step>, after: seq<Step>, rqid: u16, f: Handler) {
    && OnlyRegisters(before, rqid, f)
    && Removed(Run(EMPTY, before), rqid)
    && CalledAfter(Run(EMPTY, before), after, rqid)
  }

  /** A handler can outlive its removal exactly if it has a delay callback that may answer immediate. */
  lemma OutlivesIffImmediate(rqid: u16, f: Handler)
    requires RqidIsEvent(rqid)
    ensures f.delays && f.immediate <==> exists before, after :: Outlives(before, after, rqid, f)
  {
    hide Run, Removed;
    if f.RunsAtOnce() {
      var before := InlineOutlivesRemoval(rqid, f);
    } else {
      forall before: seq<Step>, after: seq<Step> ensures !Outlives(before, after, rqid, f) {
        if OnlyRegisters(before, rqid, f) && Removed(Run(EMPTY, before), rqid) && !Registers(after, rqid) {
          RemovalWithoutImmediate(before, rqid, after);
        }
      }
    }
  }

  // The receive call has looked up a handler that is to run at once.
  function LookedUp(rqid: u16, f: Handler): Hub {
    Hub(false, map[rqid := f], map[0 := NewWork(rqid, 0).(evt := Running(Inline, Some(f)))], [], [], [rqid], map[])
  }

  // A handler is registered, and a notification has come in.
  function Received(rqid: u16, f: Handler): Hub {
    Hub(false, map[rqid := f], map[0 := NewWork(rqid, 0)], [], [], [], map[])
  }

  lemma ReachesReceived(rqid: u16, f: Handler)
    requires RqidIsEvent(rqid)
    ensures Run(EMPTY, [Register(rqid, f), Create(0, rqid, 0)]) == Received(rqid, f)
  {
    var h1 := EMPTY.(table := map[rqid := f]);
    assert Next(EMPTY, Register(rqid, f)) == h1;
    RunOn(EMPTY, Register(rqid, f), [Create(0, rqid, 0)]);
    RunOn(h1, Create(0, rqid, 0), []);
  }

  lemma ReachesLookup(rqid: u16, f: Handler)
    requires RqidIsEvent(rqid) && f.RunsAtOnce()
    ensures Run(Received(rqid, f), [ChooseDelay(0, Immediate), Lookup(0)]) == LookedUp(rqid, f)
  {
    var h2 := Received(rqid, f);
    var h3 := h2.(works := map[0 := NewWork(rqid, 0).(evt := Ready(Inline))], delayCalls := [rqid]);
    assert Next(h2, ChooseDelay(0, Immediate)) == h3;
    RunOn(h2, ChooseDelay(0, Immediate), [Lookup(0)]);
    RunOn(h3, Lookup(0), []);
  }

  lemma RemovalCompletes(rqid: u16, f: Handler)
    requires RqidIsEvent(rqid)
    ensures Run(LookedUp(rqid, f), [Clear(0, rqid), BeginFlush(0), EndFlush(0)])
         == LookedUp(rqid, f).(table := map[], removals := map[0 := Complete(rqid)])
  {
    var h4 := LookedUp(rqid, f);
    var h5 := h4.(table := map[], removals := map[0 := Cleared(rqid)]);
    assert Next(h4, Clear(0, rqid)) == h5;
    assert WorksOnQueue(h5) == {};
    var h6 := h5.(removals := map[0 := Flushing(rqid, {})]);
    RunOn(h4, Clear(0, rqid), [BeginFlush(0), EndFlush(0)]);
    RunOn(h5, BeginFlush(0), [EndFlush(0)]);
    RunOn(h6, EndFlush(0), []);
  }

  /**
   The run: for every event id and every such handler, the receive call
   looks the handler up, its removal completes, and only then the handler is called.
   */
  lemma InlineOutlivesRemoval(rqid: u16, f: Handler) returns (before: seq<Step>)
    requires RqidIsEvent(rqid) && f.RunsAtOnce()
    ensures Outlives(before, [Handle(0)], rqid, f)
    ensures Next(Run(EMPTY, before), Handle(0)).calls == Run(EMPTY, before).calls + [Call(0, Inline, rqid, f.id)]
  {
    var first := [Register(rqid, f), Create(0, rqid, 0)];
    var second := [ChooseDelay(0, Immediate), Lookup(0)];
    var third := [Clear(0, rqid), BeginFlush(0), EndFlush(0)];
    before := first + second + third;
    hide Run, CalledAfter, Received, LookedUp, Next;
    ReachesReceived(rqid, f);
    ReachesLookup(rqid, f);
    RemovalCompletes(rqid, f);
    RunSplit(EMPTY, first + second, third);
    RunSplit(EMPTY, first, second);
    var h := Run(EMPTY, before);
    RemovedFacts(rqid, f);
    assert 0 in h.removals && h.removals[0] == Complete(rqid);
    InlineIsCalled(h, 0, rqid);
  }

  lemma RemovedFacts(rqid: u16, f: Handler)
    ensures var h := LookedUp(rqid, f).(table := map[], removals := map[0 := Complete(rqid)]);
      && 0 in h.works && h.works[0].evt == Running(Inline, Some(f)) && h.works[0].rqid == rqid
      && Next(h, Handle(0)).calls == h.calls + [Call(0, Inline, rqid, f.id)]
  {
  }
}
