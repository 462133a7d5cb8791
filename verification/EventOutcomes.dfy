/** What becomes of every event: whether it is acknowledged, which handler is called for it, and where. */
module EventOutcomes {
  import opened Bytes
  import opened Frames
  import opened EventWork

  // What the steps say, without looking at the state

  // Whether the controller was said to be initialized
  function LastReady(steps: seq<Step>): bool
    decreases |steps|
  {
    if steps == [] then false
    else
      var n := |steps| - 1;
      if steps[n].SetReady? then steps[n].ready else LastReady(steps[..n])
  }

  // The handler registered for an id of 1 to 31, if no removal (under a fresh name) came later
  function LastHandler(steps: seq<Step>, rqid: u16): Option<Handler>
    decreases |steps|
  {
    if steps == [] || !(1 <= rqid <= 31) then None
    else
      var n := |steps| - 1;
      match steps[n]
      case Register(id, f) => if id == rqid then Some(f) else LastHandler(steps[..n], rqid)
      case Clear(r, id) =>
        if id == rqid && r !in Run(EMPTY, steps[..n]).removals then None else LastHandler(steps[..n], rqid)
      case _ => LastHandler(steps[..n], rqid)
  }

  lemma RunLast(steps: seq<Step>)
    requires steps != []
    ensures var n := |steps| - 1;
      Run(EMPTY, steps) == Next(Run(EMPTY, steps[..n]), steps[n])
  {
    hide Next;
    var n := |steps| - 1;
    assert steps == steps[..n] + [steps[n]];
    RunSplit(EMPTY, steps[..n], [steps[n]]);
    RunOn(Run(EMPTY, steps[..n]), steps[n], []);
    assert [steps[n]] + [] == [steps[n]];
  }

  lemma {:induction false} ReadyIsLast(steps: seq<Step>)
    ensures Run(EMPTY, steps).ready == LastReady(steps)
    decreases |steps|
  {
    hide Run;
    if steps == [] {
      NothingRun();
    } else {
      RunLast(steps);
      ReadyIsLast(steps[..|steps| - 1]);
    }
  }

  lemma NothingRun()
    ensures Run(EMPTY, []) == EMPTY
  {
  }

  lemma NextHandler(h: Hub, a: Step, rqid: u16)
    ensures HandlerOf(Next(h, a), rqid) ==
      match a
      case Register(id, f) => if id == rqid && 1 <= rqid <= 31 then Some(f) else HandlerOf(h, rqid)
      case Clear(r, id) =>
        if id == rqid && 1 <= rqid <= 31 && r !in h.removals then None else HandlerOf(h, rqid)
      case _ => HandlerOf(h, rqid)
  {
    hide WorkStep, Enabled;
  }

  lemma {:induction false} HandlerIsLast(steps: seq<Step>, rqid: u16)
    ensures HandlerOf(Run(EMPTY, steps), rqid) == LastHandler(steps, rqid)
    decreases |steps|
  {
    hide Run, Next;
    if steps == [] {
      NothingRun();
    } else {
      var n := |steps| - 1;
      RunLast(steps);
      NextHandler(Run(EMPTY, steps[..n]), steps[n], rqid);
      HandlerIsLast(steps[..n], rqid);
    }
  }

  lemma {:induction false} AllWorksOk(h: Hub, steps: seq<Step>)
    requires WorksOk(h)
    ensures WorksOk(Run(h, steps))
    decreases |steps|
  {
    hide Next, WorksOk;
    if steps != [] {
      StepKeepsWorks(h, steps[0]);
      AllWorksOk(Next(h, steps[0]), steps[1..]);
    }
  }

  // A run that goes through a step
  lemma RunThrough(pre: seq<Step>, a: Step, post: seq<Step>)
    ensures Run(EMPTY, pre + [a] + post) == Run(Next(Run(EMPTY, pre), a), post)
  {
    hide Next;
    RunSplit(EMPTY, pre + [a], post);
    RunSplit(EMPTY, pre, [a]);
    RunOn(Run(EMPTY, pre), a, []);
    assert [a] + [] == [a];
  }

  // Acknowledgement

  // What the ack worker has decided, and done about it
  predicate AckFollows(h: Hub, id: nat, seqno: byte, ready: bool) {
    && id in h.works
    && var w := h.works[id];
    && w.seqno == seqno
    && match w.ack
       case Queued => false
       case Checked(send) => send == ready && w.acks == 0
       case _ => w.acks == (if ready then 1 else 0) && (ready ==> Ack(id, ControlFrame(0x40, seqno)) in h.acks)
  }

  lemma AckStays(h: Hub, a: Step, id: nat, seqno: byte, ready: bool)
    requires AckFollows(h, id, seqno, ready)
    ensures AckFollows(Next(h, a), id, seqno, ready)
  {
    hide ControlFrame;
  }

  lemma {:induction false} AckRuns(h: Hub, steps: seq<Step>, id: nat, seqno: byte, ready: bool)
    requires AckFollows(h, id, seqno, ready)
    ensures AckFollows(Run(h, steps), id, seqno, ready)
    decreases |steps|
  {
    hide Next, AckFollows;
    if steps != [] {
      AckStays(h, steps[0], id, seqno, ready);
      AckRuns(Next(h, steps[0]), steps[1..], id, seqno, ready);
    }
  }

  /**
   In every run, an event whose ack worker is through has been acknowledged, with the
   sequence id it came with, exactly if the controller was last said to be initialized when
   the worker looked.
   */
  lemma AcknowledgedIffReady(pre: seq<Step>, id: nat, post: seq<Step>)
    requires id in Run(EMPTY, pre).works && Run(EMPTY, pre).works[id].ack.Queued?
    ensures var g := Run(EMPTY, pre + [CheckState(id)] + post);
      && id in g.works
      && var w := g.works[id];
      && (w.ack.Sent? || w.ack.Dropped? ==>
            && w.acks == (if LastReady(pre) then 1 else 0)
            && (LastReady(pre) ==> Ack(id, ControlFrame(0x40, Run(EMPTY, pre).works[id].seqno)) in g.acks))
  {
    hide Run, ControlFrame;
    var h := Run(EMPTY, pre);
    AllWorksOk(EMPTY, pre);
    assert WorkOk(h.works[id]);
    ReadyIsLast(pre);
    RunThrough(pre, CheckState(id), post);
    AckRuns(Next(h, CheckState(id)), post, id, h.works[id].seqno, LastReady(pre));
  }

  // Handling

  // What the lookup has found on this path, and what has come of it
  predicate CallFollows(h: Hub, id: nat, rqid: u16, path: Path, found: Option<Handler>) {
    && id in h.works
    && var w := h.works[id];
    && w.rqid == rqid
    && match w.evt
       case Running(p, f) => p == path && f == found && w.calls == 0
       case Returned(p) => p == path && Called(h, id, path, found)
       case Finished => Called(h, id, path, found)
       case _ => false
  }

  predicate Called(h: Hub, id: nat, path: Path, found: Option<Handler>)
    requires id in h.works
  {
    && h.works[id].calls == (if found.Some? then 1 else 0)
    && (found.Some? ==> Call(id, path, h.works[id].rqid, found.value.id) in h.calls)
  }

  lemma CallStays(h: Hub, a: Step, id: nat, rqid: u16, path: Path, found: Option<Handler>)
    requires CallFollows(h, id, rqid, path, found)
    ensures CallFollows(Next(h, a), id, rqid, path, found)
  {
    hide ControlFrame;
  }

  lemma {:induction false} CallRuns(h: Hub, steps: seq<Step>, id: nat, rqid: u16, path: Path, found: Option<Handler>)
    requires CallFollows(h, id, rqid, path, found)
    ensures CallFollows(Run(h, steps), id, rqid, path, found)
    decreases |steps|
  {
    hide Next, CallFollows;
    if steps != [] {
      CallStays(h, steps[0], id, rqid, path, found);
      CallRuns(Next(h, steps[0]), steps[1..], id, rqid, path, found);
    }
  }

  /**
   In every run and on both paths, an event whose handling is through was given to a handler
   exactly if one was registered when it was looked up, and to that one.
   */
  lemma HandledIffRegistered(pre: seq<Step>, id: nat, post: seq<Step>)
    requires id in Run(EMPTY, pre).works && Run(EMPTY, pre).works[id].evt.Ready?
    ensures var was := Run(EMPTY, pre).works[id];
      var found := LastHandler(pre, was.rqid);
      var g := Run(EMPTY, pre + [Lookup(id)] + post);
      && id in g.works
      && var w := g.works[id];
      && (w.evt.Returned? || w.evt.Finished? ==>
            && w.calls == (if found.Some? then 1 else 0)
            && (found.Some? ==> Call(id, was.evt.path, was.rqid, found.value.id) in g.calls))
  {
    hide Run, ControlFrame;
    var h := Run(EMPTY, pre);
    var was := h.works[id];
    AllWorksOk(EMPTY, pre);
    assert WorkOk(was);
    HandlerIsLast(pre, was.rqid);
    RunThrough(pre, Lookup(id), post);
    CallRuns(Next(h, Lookup(id)), post, id, was.rqid, was.evt.path, LastHandler(pre, was.rqid));
  }

  /**
   Where an event is handled: inside the receive call exactly if the handler registered has
   a delay callback that answers immediate; after a timer exactly if it asks for a delay;
   on the event queue at once otherwise. The callback is called exactly if there is one.
   */
  lemma PathIffDelay(pre: seq<Step>, id: nat, delay: Delay)
    requires id in Run(EMPTY, pre).works && Run(EMPTY, pre).works[id].evt.Fresh?
    ensures var h := Run(EMPTY, pre);
      var g := Next(h, ChooseDelay(id, delay));
      var f := LastHandler(pre, h.works[id].rqid);
      var asks := f.Some? && f.value.delays && (delay.Immediate? ==> f.value.immediate);
      && id in g.works
      && g.works[id].evt == (if asks && delay.Immediate? then Ready(Inline)
                             else if asks && delay.ticks > 0 then Timer
                             else Ready(Worker))
      && g.delayCalls == h.delayCalls + (if f.Some? && f.value.delays then [h.works[id].rqid] else [])
  {
    hide Run;
    HandlerIsLast(pre, Run(EMPTY, pre).works[id].rqid);
  }

  // Nothing else is on record.
  predicate LedgersOk(h: Hub) {
    && (forall x <- h.acks :: x.work in h.works && h.works[x.work].acks == 1)
    && (forall c <- h.calls :: c.work in h.works && h.works[c.work].calls == 1)
  }

  lemma StepKeepsLedgers(h: Hub, a: Step)
    requires LedgersOk(h) && WorksOk(h)
    ensures LedgersOk(Next(h, a))
  {
    hide WorkStep, WorkOk, ControlFrame;
    var g := Next(h, a);
    if !(a.SetReady? || a.Register? || a.Clear? || a.BeginFlush? || a.EndFlush? || a.Create?) {
      if a.work in h.works && Enabled(h, a, h.works[a.work]) {
        var w := h.works[a.work];
        WorkCounts(h, a, w, w.touchedFreed || w.frees > 0);
      }
    }
  }

  lemma WorkCounts(h: Hub, a: Step, w: Work, touched: bool)
    requires WorkOk(w) && Enabled(h, a, w)
    ensures var v := WorkStep(h, a, w).(touchedFreed := touched);
      && v.acks == (if a.SendAck? && w.ack.send then 1 else w.acks)
      && v.calls == (if a.Handle? && w.evt.handler.Some? then 1 else w.calls)
  {
  }

  /** What was not acknowledged has no acknowledgement on record, and what was not handled no call. */
  lemma {:induction false} NothingElseOnRecord(h: Hub, steps: seq<Step>, id: nat)
    requires LedgersOk(h) && WorksOk(h)
    ensures var g := Run(h, steps);
      && (id in g.works && g.works[id].acks == 0 ==> forall x <- g.acks :: x.work != id)
      && (id in g.works && g.works[id].calls == 0 ==> forall c <- g.calls :: c.work != id)
    decreases |steps|
  {
    hide Next, WorksOk;
    if steps != [] {
      StepKeepsLedgers(h, steps[0]);
      StepKeepsWorks(h, steps[0]);
      NothingElseOnRecord(Next(h, steps[0]), steps[1..], id);
    }
  }

  // Every event can be brought to its end.

  function TurnOf(w: Work, id: nat): Step {
    match w.evt
    case Fresh => ChooseDelay(id, After(0))
    case Timer => Expire(id)
    case Ready(_) => Lookup(id)
    case Running(_, _) => Handle(id)
    case Returned(_) => PutEvt(id)
    case Finished =>
      match w.ack
      case Queued => CheckState(id)
      case Checked(_) => SendAck(id)
      case _ => PutAck(id)
  }

  function StagesLeft(w: Work): nat {
    (match w.evt
     case Fresh => 6
     case Timer => 5
     case Ready(_) => 4
     case Running(_, _) => 3
     case Returned(_) => 2
     case Finished => 0)
    + (match w.ack
       case Queued => 3
       case Checked(_) => 2
       case Sent => 1
       case Dropped => 0)
  }

  lemma TurnWorks(h: Hub, w: Work, id: nat, touched: bool)
    requires StagesLeft(w) > 0
    ensures Enabled(h, TurnOf(w, id), w)
    ensures StagesLeft(WorkStep(h, TurnOf(w, id), w).(touchedFreed := touched)) < StagesLeft(w)
  {
  }

  lemma TurnIsWork(h: Hub, w: Work, id: nat)
    requires id in h.works && h.works[id] == w && Enabled(h, TurnOf(w, id), w)
    ensures var g := Next(h, TurnOf(w, id));
      id in g.works && g.works[id] == WorkStep(h, TurnOf(w, id), w).(touchedFreed := w.touchedFreed || w.frees > 0)
  {
    hide WorkStep;
  }

  lemma TurnAdvances(h: Hub, id: nat)
    requires id in h.works && StagesLeft(h.works[id]) > 0
    ensures var g := Next(h, TurnOf(h.works[id], id));
      id in g.works && StagesLeft(g.works[id]) < StagesLeft(h.works[id])
  {
    hide Next, WorkStep, StagesLeft, TurnOf, Enabled;
    var w := h.works[id];
    TurnWorks(h, w, id, w.touchedFreed || w.frees > 0);
    TurnIsWork(h, w, id);
  }

  /** From every state, at most nine steps of its two workers finish an event, whatever else is going on. */
  lemma {:induction false} EventCompletes(h: Hub, id: nat) returns (steps: seq<Step>)
    requires id in h.works
    ensures |steps| <= StagesLeft(h.works[id]) <= 9
    ensures var g := Run(h, steps);
      id in g.works && g.works[id].evt.Finished? && g.works[id].ack.Dropped?
    decreases StagesLeft(h.works[id])
  {
    hide Next, TurnOf;
    if StagesLeft(h.works[id]) == 0 {
      steps := [];
    } else {
      var a := TurnOf(h.works[id], id);
      TurnAdvances(h, id);
      var rest := EventCompletes(Next(h, a), id);
      steps := [a] + rest;
      RunOn(h, a, rest);
    }
  }
}
