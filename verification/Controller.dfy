/** The exported calls of the controller, and the state that gates them. */
module Controller {
  import opened Bytes
  import opened Frames
  import opened RoundTrip
  import opened SerialWriter
  import opened Protocol
  import opened RequestInvariant
  import opened RequestTheorems
  import opened Evaluation
  import opened Script
  import opened ScriptOutcomes
  import opened SerialHub

  const EPERM := 1
  const ENXIO := 6
  const EBUSY := 16

  datatype EcState = Uninitialized | Initialized | Suspended

  const RESUME_RQST := Request(0x01, 0x00, 0x16, true, [])
  const SUSPEND_RQST := Request(0x01, 0x00, 0x15, true, [])

  function EventSourceRqst(enable: bool, tc: byte, unknown: byte, rqid: u16): Request {
    Request(0x01, 0x00, if enable then 0x0b else 0x0c, true, [tc, unknown, Lo(rqid), Hi(rqid)])
  }

  /** Nothing while uninitialized, and nothing but the suspend command while suspended. */
  predicate Allows(state: EcState, rqst: Request) {
    !state.Uninitialized? && (state.Suspended? ==> rqst == SUSPEND_RQST)
  }

  /** Every call of the request engine was made in a state that allows it; `states` are these states. */
  predicate Gated(log: seq<Record>, states: seq<EcState>) {
    |states| == |log| && forall i :: 0 <= i < |log| ==> Allows(states[i], log[i].rqst)
  }

  // The request engine was called once, with this request and in this state.
  predicate OneMore(log: seq<Record>, states: seq<EcState>, log': seq<Record>, states': seq<EcState>,
                    state: EcState, rqst: Request) {
    && |log'| == |log| + 1 && log'[..|log|] == log && log'[|log|].rqst == rqst
    && states' == states + [state]
  }

  // It was not called at all.
  predicate NoMore(log: seq<Record>, states: seq<EcState>, log': seq<Record>, states': seq<EcState>) {
    log' == log && states' == states
  }

  /**
   What goes over the line is gated: a frame sent in a call of a gated log is the command
   of a request allowed in the state of that call, so none is sent while uninitialized and
   none but the suspend command while suspended; or it is the acknowledgement of its response.
   */
  lemma FramesAreGated(steps: seq<Step>, states: seq<EcState>, i: nat, x: Sent)
    requires Gated(Reach(steps).log, states)
    requires i < |Reach(steps).log| && x in Reach(steps).log[i].sent
    ensures !states[i].Uninitialized?
    ensures IsControl(x.frame) || (IsCommand(x.frame) && RqidOf(x.frame) == WireRqid(Reach(steps).log[i].start))
    ensures IsCommand(x.frame) && states[i].Suspended? ==> CommandOf(x.frame).tc == 0x01 && CommandOf(x.frame).cid == 0x15
    ensures IsControl(x.frame) ==> x.frame[2] == TYPE_ACK && Reach(steps).log[i].replied
  {
    hide Reach, ControlFrame, IsCommand, WireRqid, AckHeard, Explained, Asked, RequestFrame;
    LogIsOk(steps, i);
    var r := Reach(steps).log[i];
    SentIsAskedOrAck(r, x);
    if r.replied && x == r.sent[|r.sent| - 1] {
      RepliesWithAck(r);
    } else {
      AskedCarriesId(r.rqst, r.start);
      CommandIsNoControl(x.frame);
    }
  }

  lemma SentIsAskedOrAck(r: Record, x: Sent)
    requires RecordOk(r) && x in r.sent
    ensures r.sent != []
    ensures (r.replied && x == r.sent[|r.sent| - 1])
         || (|r.rqst.payload| <= MAX_RQST_PAYLOAD && x.frame == Asked(r.rqst, r.start))
  {
    hide Asked, Replies, AckHeard, Explained, OccursIn, AllSentOk;
    if r.replied && x != r.sent[|r.sent| - 1] {
      assert x in r.sent[..|r.sent| - 1];
    }
  }

  lemma RepliesWithAck(r: Record)
    requires RecordOk(r) && r.replied
    ensures r.sent != [] && IsControl(r.sent[|r.sent| - 1].frame) && !IsCommand(r.sent[|r.sent| - 1].frame)
    ensures r.sent[|r.sent| - 1].frame[2] == TYPE_ACK
  {
    hide Asked, AckHeard, Explained, OccursIn, AllSentOk, AllAsk, ControlFrame, Filled;
    ControlRoundTrip(TYPE_ACK, Response(r.accepted)[5]);
  }

  /** The bytes that enable or disable an event source, suspend and resume, as they go over the line. */
  lemma ControlCommandsOnWire(enable: bool, tc: byte, unknown: byte, rqid: u16, n: nat)
    ensures var f := Asked(EventSourceRqst(enable, tc, unknown, rqid), n);
      && |f| == 22 && f[9] == 0x01 && f[12] == 0x00 && f[15] == (if enable then 0x0b else 0x0c)
      && f[16..20] == [tc, unknown, rqid % 0x100, rqid / 0x100]
    ensures var f := Asked(SUSPEND_RQST, n); |f| == 18 && f[9] == 0x01 && f[12] == 0x00 && f[15] == 0x15
    ensures var f := Asked(RESUME_RQST, n); |f| == 18 && f[9] == 0x01 && f[12] == 0x00 && f[15] == 0x16
  {
    hide WireRqid;
    AskedLayout(EventSourceRqst(enable, tc, unknown, rqid), n);
    AskedLayout(SUSPEND_RQST, n);
    AskedLayout(RESUME_RQST, n);
  }

  // What the outside answers while the device is set up: 0 or an error
  datatype Setup = Setup(dma: int, open: int, resources: int, sysfs: int)

  class SamController {
    const ec: SamSshEc
    var state: EcState
    ghost var states: seq<EcState>

    ghost function Repr(): set<object>
      reads this, ec
    {
      {this, ec, ec.receiver, ec.receiver.buf, ec.writer, ec.writer.data}
    }

    ghost predicate Valid()
      reads Repr()
    {
      ec.Valid() && ec.sys.pc.Idle? && Gated(Log(), states)
    }

    // The finished calls of the request engine
    ghost function Log(): seq<Record>
      reads this, ec
    {
      ec.sys.log
    }

    constructor ()
      ensures Valid() && fresh(Repr()) && state == Uninitialized && Log() == []
    {
      ec := new SamSshEc();
      state := Uninitialized;
      states := [];
    }

    // Every command of the driver goes through here.
    method Issue(rqst: Request, data: array?<byte>, len: byte, env: Env) returns (status: int, newLen: byte)
      requires Valid() && Allows(state, rqst)
      requires data == null || data !in Repr()
      modifies Repr(), data
      ensures Valid() && state == old(state)
      ensures OneMore(old(Log()), old(states), Log(), states, state, rqst)
      ensures Finished(Log()[|old(Log())|], rqst, data != null, old(if data == null then [] else data[..]), len,
                       status, if data == null then [] else data[..], newLen)
      ensures |rqst.payload| <= 245 ==>
        && (env.answers(0) < 0 ==> status == env.answers(0))
        && SucceedsOnTime(old(ec.sys), rqst, data != null, Buffer(old(if data == null then [] else data[..]), len), env,
                          Log()[|old(Log())|])
    {
      hide SucceedsOnTime, CallSteps, DoBegin, Proper, Allows, Asked, Reach, ReceiveAll;
      status, newLen := ec.RqstUnlocked(rqst, data, len, env);
      states := states + [state];
    }

    method Rqst(rqst: Request, data: array?<byte>, len: byte, env: Env) returns (status: int, newLen: byte)
      requires Valid() && (data == null || data !in Repr())
      modifies Repr(), data
      ensures Valid() && state == old(state)
      ensures state.Uninitialized? ==> status == -6
      ensures state.Suspended? ==> status == -1
      ensures !state.Initialized? ==> newLen == len && ec.sys == old(ec.sys) && states == old(states)
                                      && (data != null ==> data[..] == old(data[..]))
      ensures state.Initialized? ==>
        && OneMore(old(Log()), old(states), Log(), states, state, rqst)
        && Finished(Log()[|old(Log())|], rqst, data != null, old(if data == null then [] else data[..]), len,
                    status, if data == null then [] else data[..], newLen)
        && (|rqst.payload| <= 245 ==>
              && (env.answers(0) < 0 ==> status == env.answers(0))
              && SucceedsOnTime(old(ec.sys), rqst, data != null,
                                Buffer(old(if data == null then [] else data[..]), len), env, Log()[|old(Log())|]))
    {
      hide SucceedsOnTime;
      if state == Uninitialized {
        return -ENXIO, len;
      }
      if state == Suspended {
        return -EPERM, len;
      }
      status, newLen := Issue(rqst, data, len, env);
    }

    // A request of the driver itself, with a result buffer of one byte
    method Command(rqst: Request, env: Env) returns (status: int)
      requires Valid() && Allows(state, rqst)
      modifies Repr()
      ensures Valid() && state == old(state)
      ensures OneMore(old(Log()), old(states), Log(), states, state, rqst)
      ensures status == Log()[|old(Log())|].status && Log()[|old(Log())|].given == Buffer([0], 0)
    {
      var buf := new byte[1](_ => 0);
      assert buf[..] == [0];
      var len;
      status, len := Issue(rqst, buf, 0, env);
    }

    method SetEventSource(enable: bool, tc: byte, unknown: byte, rqid: u16, env: Env) returns (status: int)
      requires Valid()
      modifies Repr()
      ensures Valid() && state == old(state)
      ensures !(1 <= rqid <= 31) ==> status == -22
      ensures 1 <= rqid <= 31 && state.Uninitialized? ==> status == -6
      ensures 1 <= rqid <= 31 && state.Suspended? ==> status == -1
      ensures if 1 <= rqid <= 31 && state.Initialized?
              then OneMore(old(Log()), old(states), Log(), states, Initialized,
                           Request(0x01, 0x00, if enable then 0x0b else 0x0c, true, [tc, unknown, rqid % 0x100, rqid / 0x100]))
                   && status == Log()[|old(Log())|].status
              else NoMore(old(Log()), old(states), Log(), states)
    {
      if !RqidIsEvent(rqid) {
        return -EINVAL;
      }
      if state == Uninitialized {
        return -ENXIO;
      }
      if state == Suspended {
        return -EPERM;
      }
      status := Command(EventSourceRqst(enable, tc, unknown, rqid), env);
    }

    // Whatever the controller answers, it counts as suspended from here on.
    method Suspend(env: Env) returns (status: int)
      requires Valid()
      modifies Repr()
      ensures Valid() && state == (if old(state).Uninitialized? then Uninitialized else Suspended)
      ensures if old(state).Uninitialized? then NoMore(old(Log()), old(states), Log(), states) && status == 0
              else OneMore(old(Log()), old(states), Log(), states, old(state), Request(0x01, 0x00, 0x15, true, []))
                   && status == Log()[|old(Log())|].status
    {
      status := 0;
      if state != Uninitialized {
        status := Command(SUSPEND_RQST, env);
        state := Suspended;
      }
    }

    method Resume(env: Env) returns (status: int)
      requires Valid()
      modifies Repr()
      ensures Valid() && state == (if old(state).Uninitialized? then Uninitialized else Initialized)
      ensures if old(state).Uninitialized? then NoMore(old(Log()), old(states), Log(), states) && status == 0
              else OneMore(old(Log()), old(states), Log(), states, Initialized, Request(0x01, 0x00, 0x16, true, []))
                   && status == Log()[|old(Log())|].status
    {
      status := 0;
      if state != Uninitialized {
        state := Initialized;
        status := Command(RESUME_RQST, env);
      }
    }

    method Probe(setup: Setup, env: Env) returns (status: int)
      requires Valid()
      modifies Repr()
      ensures Valid()
      ensures state == (if status == 0 then Initialized else old(state))
      ensures if setup.dma != 0 then status == setup.dma
              else if !old(state).Uninitialized? then status == -16
              else if setup.open != 0 then status == setup.open
              else setup.resources != 0 ==> status == setup.resources
      ensures if setup.dma == 0 && old(state).Uninitialized? && setup.open == 0 && setup.resources == 0
              then OneMore(old(Log()), old(states), Log(), states, Initialized, Request(0x01, 0x00, 0x16, true, []))
                   && status == (var sent := Log()[|old(Log())|].status; if sent != 0 then sent else setup.sysfs)
              else NoMore(old(Log()), old(states), Log(), states)
    {
      if setup.dma != 0 {
        return setup.dma;
      }
      if state != Uninitialized {
        return -EBUSY;
      }
      state := Initialized;
      status := setup.open;
      if status == 0 {
        status := setup.resources;
      }
      if status == 0 {
        status := Command(RESUME_RQST, env);
        if status == 0 {
          status := setup.sysfs;
        }
      }
      if status != 0 {
        state := Uninitialized;
      }
    }

    method Remove(env: Env)
      requires Valid()
      modifies Repr()
      ensures Valid() && state == Uninitialized
      ensures if old(state).Uninitialized? then NoMore(old(Log()), old(states), Log(), states)
              else OneMore(old(Log()), old(states), Log(), states, old(state), Request(0x01, 0x00, 0x15, true, []))
    {
      if state == Uninitialized {
        return;
      }
      var status := Command(SUSPEND_RQST, env);
      state := Uninitialized;
    }

    // Any exported call
    method Perform(op: Op)
      requires Valid()
      modifies Repr()
      ensures Valid()
      ensures if Goes(op, old(state)) then OneMore(old(Log()), old(states), Log(), states, GoesIn(op, old(state)), Asks(op))
              else NoMore(old(Log()), old(states), Log(), states)
      ensures state == NextState(op, old(state), Goes(op, old(state)) && Log()[|old(Log())|].status == 0)
    {
      match op {
        case CallRqst(rqst, wantsResult, cap, env) =>
          var buf: array?<byte> := null;
          if wantsResult {
            buf := new byte[cap as int](_ => 0);
          }
          var status, len := Rqst(rqst, buf, 0, env);
        case CallEventSource(enable, tc, unknown, rqid, env) =>
          var status := SetEventSource(enable, tc, unknown, rqid, env);
        case CallSuspend(env) =>
          var status := Suspend(env);
        case CallResume(env) =>
          var status := Resume(env);
        case CallProbe(setup, env) =>
          var status := Probe(setup, env);
        case CallRemove(env) =>
          Remove(env);
        case Arrivals(chunks) =>
          Listen(chunks);
      }
    }

    // Bytes arrive between two calls, while the device is open.
    method Listen(chunks: seq<seq<byte>>)
      requires Valid()
      modifies Repr()
      ensures Valid() && state == old(state)
      ensures NoMore(old(Log()), old(states), Log(), states) && OnlyHeard(old(ec.sys), ec.sys)
      ensures (ec.receiver.State(), ec.receiver.Pending())
           == if state.Uninitialized? then old((ec.receiver.State(), ec.receiver.Pending()))
              else ReceiveAll(old(ec.receiver.State()), old(ec.receiver.Pending()), chunks)
    {
      if state != Uninitialized {
        ec.Interrupt(chunks);
      }
    }

    lemma StatesFit()
      requires Valid()
      ensures |states| == |Log()|
    {
    }

    /** Any run of exported calls: the path of states it takes, and exactly the records its calls leave. */
    method Operate(ops: seq<Op>) returns (ghost path: seq<EcState>)
      requires Valid()
      modifies Repr()
      ensures Valid() && old(Log()) <= Log()
      ensures |path| == |ops| + 1 && path[0] == old(state) && path[|ops|] == state
      ensures Played(ops, path, Log(), states, |old(Log())|)
    {
      hide Valid, Asks, Goes, NextState, Played;
      path := [state];
      assert Played([], path, Log(), states, |old(Log())|) by {
        StatesFit();
        NothingPlayed(path, Log(), states);
      }
      var i := 0;
      while i < |ops|
        invariant i <= |ops| && Valid() && old(Log()) <= Log()
        invariant |path| == i + 1 && path[0] == old(state) && path[i] == state
        invariant Played(ops[..i], path, Log(), states, |old(Log())|)
      {
        ghost var log, was := Log(), states;
        Perform(ops[i]);
        OneMorePlayed(ops[..i], ops[i], path, state, log, was, Log(), states, |old(Log())|);
        assert ops[..i] + [ops[i]] == ops[..i + 1];
        path := path + [state];
        i := i + 1;
      }
      assert ops[..|ops|] == ops;
    }
  }

  // The exported calls
  datatype Op =
    | CallRqst(rqst: Request, wantsResult: bool, cap: byte, env: Env)
    | CallEventSource(enable: bool, tc: byte, unknown: byte, rqid: u16, env: Env)
    | CallSuspend(env: Env)
    | CallResume(env: Env)
    | CallProbe(setup: Setup, env: Env)
    | CallRemove(env: Env)
    | Arrivals(chunks: seq<seq<byte>>)    // none: bytes arrive

  // Whether a call in this state goes to the request engine, the state in which it does, and
  // with what request

  predicate Goes(op: Op, state: EcState) {
    match op
    case CallRqst(_, _, _, _) => state.Initialized?
    case CallEventSource(_, _, _, rqid, _) => RqidIsEvent(rqid) && state.Initialized?
    case CallProbe(setup, _) => setup.dma == 0 && state.Uninitialized? && setup.open == 0 && setup.resources == 0
    case Arrivals(_) => false
    case _ => !state.Uninitialized?
  }

  function GoesIn(op: Op, state: EcState): EcState {
    if op.CallResume? || op.CallProbe? then Initialized else state
  }

  function Asks(op: Op): Request {
    match op
    case CallRqst(rqst, _, _, _) => rqst
    case CallEventSource(enable, tc, unknown, rqid, _) => EventSourceRqst(enable, tc, unknown, rqid)
    case CallSuspend(_) => SUSPEND_RQST
    case CallResume(_) => RESUME_RQST
    case CallProbe(_, _) => RESUME_RQST
    case CallRemove(_) => SUSPEND_RQST
    case Arrivals(_) => EMPTY_RQST
  }

  // The state after a call; `ok` says that it went to the request engine, which returned 0
  function NextState(op: Op, state: EcState, ok: bool): EcState {
    match op
    case CallSuspend(_) => if state.Uninitialized? then state else Suspended
    case CallResume(_) => if state.Uninitialized? then state else Initialized
    case CallProbe(setup, _) => if ok && setup.sysfs == 0 then Initialized else state
    case CallRemove(_) => Uninitialized
    case _ => state
  }

  /**
   A run of calls: from each state of the path it goes to the next one as the call there
   says; and what the log has gained since `from` are the records of those calls that went
   to the request engine, each with the state in which it went.
   */
  predicate Played(ops: seq<Op>, path: seq<EcState>, log: seq<Record>, states: seq<EcState>, from: nat)
    decreases |ops|
  {
    && |path| == |ops| + 1 && |states| == |log| >= from
    && if ops == [] then |log| == from
       else
         var n, last := |ops| - 1, |log| - 1;
         var op, state := ops[n], path[n];
         if Goes(op, state) then
           && |log| > from && log[last].rqst == Asks(op) && states[last] == GoesIn(op, state)
           && path[n + 1] == NextState(op, state, log[last].status == 0)
           && Played(ops[..n], path[..n + 1], log[..last], states[..last], from)
         else
           path[n + 1] == NextState(op, state, false) && Played(ops[..n], path[..n + 1], log, states, from)
  }

  lemma NothingPlayed(path: seq<EcState>, log: seq<Record>, states: seq<EcState>)
    requires |path| == 1 && |states| == |log|
    ensures Played([], path, log, states, |log|)
  {
  }

  lemma OneMorePlayed(ops: seq<Op>, op: Op, path: seq<EcState>, state: EcState,
                      log: seq<Record>, states: seq<EcState>, log': seq<Record>, states': seq<EcState>, from: nat)
    requires |path| == |ops| + 1 && Played(ops, path, log, states, from)
    requires var s := path[|ops|];
      && (if Goes(op, s) then OneMore(log, states, log', states', GoesIn(op, s), Asks(op)) else NoMore(log, states, log', states'))
      && state == NextState(op, s, Goes(op, s) && log'[|log|].status == 0)
    ensures Played(ops + [op], path + [state], log', states', from)
  {
    hide Goes, Asks, NextState;
    var n := |ops|;
    assert |states| == |log| by { PlayedSizes(ops, path, log, states, from); }
    assert (ops + [op])[..n] == ops && (path + [state])[..n + 1] == path;
    if Goes(op, path[n]) {
      assert states'[..|log|] == states;
    }
  }

  lemma PlayedSizes(ops: seq<Op>, path: seq<EcState>, log: seq<Record>, states: seq<EcState>, from: nat)
    requires Played(ops, path, log, states, from)
    ensures |path| == |ops| + 1 && |states| == |log| >= from
  {
  }

  /** A call goes to the request engine only in a state that allows its request. */
  lemma GoesIfAllowed(op: Op, state: EcState)
    requires Goes(op, state)
    ensures Allows(GoesIn(op, state), Asks(op))
  {
  }

  /**
   The gating over runs. In any run of calls, each record was left by one of them, with its
   request, in the state the path is in there (probe and resume count as initialized), and
   this state allows it.
   */
  lemma {:induction false} RunIsGated(ops: seq<Op>, path: seq<EcState>, log: seq<Record>, states: seq<EcState>,
                                      from: nat, r: nat) returns (k: nat)
    requires Played(ops, path, log, states, from) && from <= r < |log|
    ensures k < |ops| == |path| - 1 && r < |states|
    ensures Goes(ops[k], path[k]) && log[r].rqst == Asks(ops[k]) && states[r] == GoesIn(ops[k], path[k])
    ensures Allows(states[r], log[r].rqst)
    decreases |ops|
  {
    hide Goes, Asks, NextState, Allows;
    var n := |ops| - 1;
    if Goes(ops[n], path[n]) && r == |log| - 1 {
      k := n;
      GoesIfAllowed(ops[n], path[n]);
    } else if Goes(ops[n], path[n]) {
      k := RunIsGated(ops[..n], path[..n + 1], log[..|log| - 1], states[..|log| - 1], from, r);
    } else {
      k := RunIsGated(ops[..n], path[..n + 1], log, states, from, r);
    }
  }

  predicate WakesUp(op: Op) { op.CallResume? || op.CallProbe? }

  /**
   So from a suspend or a removal on, whatever is called, nothing but the suspend command is
   sent until a resume or a probe.
   */
  lemma AsleepIsQuiet(ops: seq<Op>, path: seq<EcState>, log: seq<Record>, states: seq<EcState>, from: nat, r: nat)
    requires Played(ops, path, log, states, from) && from <= r < |log|
    requires |path| > 0 && !path[0].Initialized? && forall op <- ops :: !WakesUp(op)
    ensures log[r].rqst == SUSPEND_RQST
  {
    hide Played, Goes, Asks, NextState;
    var k := RunIsGated(ops, path, log, states, from, r);
    StaysAsleep(ops, path, log, states, from, k);
    assert ops[k] in ops;
  }

  lemma {:induction false} StaysAsleep(ops: seq<Op>, path: seq<EcState>, log: seq<Record>, states: seq<EcState>,
                                       from: nat, k: nat)
    requires Played(ops, path, log, states, from) && k < |path|
    requires !path[0].Initialized? && forall op <- ops :: !WakesUp(op)
    ensures !path[k].Initialized?
    decreases |ops|
  {
    hide Goes, Asks;
    if ops != [] {
      var n := |ops| - 1;
      var goes := Goes(ops[n], path[n]);
      var shorter := if goes then log[..|log| - 1] else log;
      var fewer := if goes then states[..|log| - 1] else states;
      StaysAsleep(ops[..n], path[..n + 1], shorter, fewer, from, if k <= n then k else n);
      assert ops[n] in ops;
    }
  }

  /** These records are left by some of these calls, in this order, one each. */
  predicate Issues(ops: seq<Op>, added: seq<Record>)
    decreases |ops|
  {
    if ops == [] then added == []
    else
      var n, k := |ops| - 1, |added| - 1;
      Issues(ops[..n], added) || (k >= 0 && added[k].rqst == Asks(ops[n]) && Issues(ops[..n], added[..k]))
  }

  lemma {:induction false} PlayedIssues(ops: seq<Op>, path: seq<EcState>, log: seq<Record>, states: seq<EcState>, from: nat)
    requires Played(ops, path, log, states, from)
    ensures from <= |log| && Issues(ops, log[from..])
    decreases |ops|
  {
    hide Goes, Asks, NextState;
    if ops != [] {
      var n, last := |ops| - 1, |log| - 1;
      if Goes(ops[n], path[n]) {
        PlayedIssues(ops[..n], path[..n + 1], log[..last], states[..last], from);
        assert log[from..][..last - from] == log[..last][from..];
      } else {
        PlayedIssues(ops[..n], path[..n + 1], log, states, from);
      }
    }
  }

  // r is the record of this call.
  predicate Finished(r: Record, rqst: Request, wantsResult: bool, data: seq<byte>, len: byte,
                     status: int, newData: seq<byte>, newLen: byte) {
    && r.rqst == rqst && r.wantsResult == wantsResult && r.given == Buffer(data, len)
    && r.status == status && r.buffer == Buffer(newData, newLen)
  }
}
