/**
 A call against a given environment: what arrives before each step of the requester, and what
 the serial device answers to each write. The steps the call takes are then determined.
 */
module Script {
  import opened Bytes
  import opened Frames
  import opened Receiver
  import opened Evaluation
  import opened SerialWriter
  import opened Protocol
  import opened RequesterMoves
  import opened CrowdedRuns

  // The chunks that arrive before each step of the requester, and the answers to its writes
  datatype Env = Env(arrivals: nat -> seq<seq<byte>>, answers: nat -> int)

  // The place of a step in the environment
  function Slot(pc: Pc): nat {
    match pc
    case Flush(tries) => 3 * tries
    case AwaitAck(tries) => 3 * tries + 1
    case TakeAck(tries) => 3 * tries + 2
    case AwaitResponse => 9
    case TakeHeader => 10
    case TakePayload => 11
    case FlushAck => 12
    case Leave => 13
    case Idle => 14
  }

  // The requester is in a call, and no receive call is under way.
  predicate Proper(s: Sys) {
    && |s.pending| <= EVAL_CAP && |s.packet| == 3 && !s.receiving
    && match s.pc
       case Flush(tries) => tries < NUM_RETRY
       case AwaitAck(tries) => tries < NUM_RETRY
       case TakeAck(tries) => tries < NUM_RETRY
       case _ => true
  }

  // The rest of a receive call
  function EvalSteps(s: Sys): seq<Step>
    decreases |s.pending|, s.receiving
  {
    if !s.receiving then [] else [Evaluate] + EvalSteps(DoEvaluate(s))
  }

  // What EvalSteps comes to
  function Evaluated(s: Sys): Sys {
    var r := EvalLoop(s.core, s.pending);
    s.(core := r.0, pending := r.1, receiving := false)
  }

  lemma {:induction false} EvalStepsRun(s: Sys)
    requires |s.pending| <= EVAL_CAP && |s.packet| == 3 && s.receiving
    ensures Run(s, EvalSteps(s)) == Evaluated(s)
    decreases |s.pending|, s.receiving
  {
    hide EvalBuf, Run, Next;
    var t := DoEvaluate(s);
    NextEvaluates(s);
    RunFirst(s, Evaluate, EvalSteps(t));
    if t.receiving {
      EvalStepsRun(t);
    } else {
      RunNothing(t);
    }
  }

  // One message of it
  lemma EvaluatesOn(s: Sys)
    requires |s.pending| <= EVAL_CAP && |s.packet| == 3 && s.receiving
    ensures var t := Next(s, Evaluate);
      && (t.receiving ==> |t.pending| < |s.pending|)
      && Evaluated(t) == Evaluated(s) && EvalSteps(s) == [Evaluate] + EvalSteps(t)
    ensures !Next(s, Evaluate).receiving ==>
      Next(s, Evaluate) == Evaluated(s) && EvalSteps(s) == [Evaluate]
  {
    hide EvalBuf, Next, EvalSteps, Evaluated, DoEvaluate;
    NextEvaluates(s);
    StepUnfolds(s);
    EvaluatedStays(s);
    if !DoEvaluate(s).receiving {
      assert EvalSteps(DoEvaluate(s)) == [] by { EvalNothing(DoEvaluate(s)); }
    }
  }

  lemma StepUnfolds(s: Sys)
    requires s.receiving
    ensures EvalSteps(s) == [Evaluate] + EvalSteps(DoEvaluate(s))
    ensures DoEvaluate(s).receiving ==> |DoEvaluate(s).pending| < |s.pending|
  {
    hide EvalBuf;
  }

  lemma EvalNothing(s: Sys)
    requires !s.receiving
    ensures EvalSteps(s) == []
  {
  }

  lemma EvaluatedStays(s: Sys)
    requires s.receiving
    ensures Evaluated(DoEvaluate(s)) == Evaluated(s)
    ensures !DoEvaluate(s).receiving ==> DoEvaluate(s) == Evaluated(s)
  {
    hide EvalBuf, EvalLoop;
    LoopUnfolds(s.core, s.pending);
  }

  lemma LoopUnfolds(c: Core, b: seq<byte>)
    ensures EvalBuf(c, b).used == 0 ==> EvalLoop(c, b) == (c, b)
    ensures EvalBuf(c, b).used != 0 ==> EvalLoop(c, b) == EvalLoop(EvalBuf(c, b).core, b[EvalBuf(c, b).used..])
  {
    hide EvalBuf;
  }

  // One call, whole
  function Received(s: Sys, chunk: seq<byte>): (t: Sys)
    requires |s.pending| <= EVAL_CAP
    ensures |t.pending| <= EVAL_CAP && !t.receiving
    ensures t == s.(core := t.core, pending := t.pending, receiving := false, heard := t.heard)
    ensures (t.core, t.pending) == ReceiveBuf(s.core, s.pending, chunk)
  {
    Evaluated(DoArrive(s, chunk))
  }

  function ReceiveSteps(s: Sys, chunk: seq<byte>): seq<Step>
    requires |s.pending| <= EVAL_CAP
  {
    [Arrive(chunk)] + EvalSteps(DoArrive(s, chunk))
  }

  // A receive call for each of the chunks
  function ChunkSteps(s: Sys, chunks: seq<seq<byte>>): seq<Step>
    requires |s.pending| <= EVAL_CAP && |s.packet| == 3 && !s.receiving
    decreases |chunks|
  {
    if chunks == [] then []
    else
      ReceiveSteps(s, chunks[0]) + ChunkSteps(Received(s, chunks[0]), chunks[1..])
  }

  // What they come to
  function Fed(s: Sys, chunks: seq<seq<byte>>): (t: Sys)
    requires |s.pending| <= EVAL_CAP && |s.packet| == 3 && !s.receiving
    ensures |t.pending| <= EVAL_CAP && t == s.(core := t.core, pending := t.pending, heard := t.heard)
    decreases |chunks|
  {
    if chunks == [] then s else Fed(Received(s, chunks[0]), chunks[1..])
  }

  lemma FedFirst(s: Sys, chunks: seq<seq<byte>>)
    requires |s.pending| <= EVAL_CAP && |s.packet| == 3 && !s.receiving && chunks != []
    ensures var t := Received(s, chunks[0]);
      && |t.pending| <= EVAL_CAP && |t.packet| == 3 && !t.receiving
      && Fed(s, chunks) == Fed(t, chunks[1..])
      && ChunkSteps(s, chunks) == ReceiveSteps(s, chunks[0]) + ChunkSteps(t, chunks[1..])
  {
    hide Received, ReceiveSteps;
  }

  lemma FedNothing(s: Sys)
    requires |s.pending| <= EVAL_CAP && |s.packet| == 3 && !s.receiving
    ensures Fed(s, []) == s && ChunkSteps(s, []) == []
  {
  }

  lemma ReceiveStepsRun(s: Sys, chunk: seq<byte>)
    requires |s.pending| <= EVAL_CAP && |s.packet| == 3 && !s.receiving
    ensures Run(s, ReceiveSteps(s, chunk)) == Received(s, chunk)
  {
    hide EvalSteps, Evaluated, Run, Next, DoArrive;
    NextReceives(s, chunk);
    ArriveReceives(s, chunk);
    EvalStepsRun(DoArrive(s, chunk));
    RunFirst(s, Arrive(chunk), EvalSteps(DoArrive(s, chunk)));
  }

  lemma {:induction false} ChunkStepsRun(s: Sys, chunks: seq<seq<byte>>)
    requires |s.pending| <= EVAL_CAP && |s.packet| == 3 && !s.receiving
    ensures Run(s, ChunkSteps(s, chunks)) == Fed(s, chunks)
    decreases |chunks|
  {
    hide Run, Received, ReceiveSteps;
    if chunks == [] {
      RunNothing(s);
    } else {
      ReceiveStepsRun(s, chunks[0]);
      ChunkStepsRun(Received(s, chunks[0]), chunks[1..]);
      RunSplit(s, ReceiveSteps(s, chunks[0]), ChunkSteps(Received(s, chunks[0]), chunks[1..]));
    }
  }

  lemma ArriveReceives(s: Sys, chunk: seq<byte>)
    requires |s.pending| <= EVAL_CAP
    ensures DoArrive(s, chunk).receiving
  {
  }

  /** The receiver is left as if it had been handed the chunks one after the other. */
  lemma {:induction false} FedReceives(s: Sys, chunks: seq<seq<byte>>)
    requires |s.pending| <= EVAL_CAP && |s.packet| == 3 && !s.receiving
    ensures (Fed(s, chunks).core, Fed(s, chunks).pending) == ReceiveAll(s.core, s.pending, chunks)
    decreases |chunks|
  {
    hide ReceiveBuf, Received;
    if chunks != [] {
      FedReceives(Received(s, chunks[0]), chunks[1..]);
    }
  }

  // The requester's own step
  function OwnStep(pc: Pc, env: Env): Step {
    match pc
    case Flush(_) => EndFlush(env.answers(Slot(pc)))
    case FlushAck => EndFlush(env.answers(Slot(pc)))
    case AwaitAck(_) => EndWait
    case AwaitResponse => EndWait
    case _ => Take
  }

  // What arrives before it, and then the step itself
  function TurnSteps(s: Sys, env: Env): seq<Step>
    requires Proper(s)
  {
    ChunkSteps(s, env.arrivals(Slot(s.pc))) + [OwnStep(s.pc, env)]
  }

  function Turned(s: Sys, env: Env): Sys
    requires Proper(s)
  {
    Next(Fed(s, env.arrivals(Slot(s.pc))), OwnStep(s.pc, env))
  }

  lemma TurnMoves(s: Sys, env: Env)
    requires Proper(s) && !s.pc.Leave? && !s.pc.Idle?
    ensures Proper(Turned(s, env)) && Slot(s.pc) < Slot(Turned(s, env).pc) <= 13
  {
    hide Fed, DoEndFlush, DoEndWait, DoTakeAck, DoTakeHeader, DoTakePayload;
    var t := Fed(s, env.arrivals(Slot(s.pc)));
    RequesterStays(t, OwnStep(s.pc, env));
    FlushLeads(t, env.answers(Slot(s.pc)));
    if t.pc.AwaitAck? || t.pc.AwaitResponse? {
      WaitLeads(t);
    }
    TakeLeads(t);
  }

  /** The steps of the rest of a call, up to its return. */
  function WindowSteps(s: Sys, env: Env): seq<Step>
    requires Proper(s) && !s.pc.Idle?
    decreases 14 - Slot(s.pc)
  {
    if s.pc.Leave? then ChunkSteps(s, env.arrivals(13))
    else
      TurnMoves(s, env);
      TurnSteps(s, env) + WindowSteps(Turned(s, env), env)
  }

  // What they come to
  function WindowEnd(s: Sys, env: Env): Sys
    requires Proper(s) && !s.pc.Idle?
    decreases 14 - Slot(s.pc)
  {
    if s.pc.Leave? then Fed(s, env.arrivals(13))
    else
      TurnMoves(s, env);
      WindowEnd(Turned(s, env), env)
  }

  lemma TurnRun(s: Sys, env: Env)
    requires Proper(s)
    ensures Run(s, TurnSteps(s, env)) == Turned(s, env)
  {
    hide ChunkSteps, Fed, Run, Next, OwnStep;
    var chunks := env.arrivals(Slot(s.pc));
    ChunkStepsRun(s, chunks);
    RunSplit(s, ChunkSteps(s, chunks), [OwnStep(s.pc, env)]);
    RunOne(Fed(s, chunks), OwnStep(s.pc, env));
  }

  lemma {:induction false} WindowRun(s: Sys, env: Env)
    requires Proper(s) && !s.pc.Idle?
    ensures Run(s, WindowSteps(s, env)) == WindowEnd(s, env)
    ensures WindowEnd(s, env).pc.Leave? && !WindowEnd(s, env).receiving
    decreases 14 - Slot(s.pc)
  {
    hide ChunkSteps, Run, TurnSteps, Turned;
    if s.pc.Leave? {
      ChunkStepsRun(s, env.arrivals(13));
    } else {
      TurnMoves(s, env);
      TurnRun(s, env);
      WindowRun(Turned(s, env), env);
      RunSplit(s, TurnSteps(s, env), WindowSteps(Turned(s, env), env));
    }
  }

  // Where a call is in its script: what it has done so far and what is to come make up the whole.
  predicate OnScript(whole: seq<Step>, done: seq<Step>, s: Sys, env: Env) {
    Proper(s) && !s.pc.Idle? && whole == done + WindowSteps(s, env)
  }

  lemma OnScriptTurns(whole: seq<Step>, done: seq<Step>, s: Sys, env: Env)
    requires OnScript(whole, done, s, env) && !s.pc.Leave?
    ensures OnScript(whole, done + TurnSteps(s, env), Turned(s, env), env)
  {
    hide TurnSteps, Turned, ChunkSteps, Fed;
    TurnMoves(s, env);
    WindowFirst(s, env);
    assert done + (TurnSteps(s, env) + WindowSteps(Turned(s, env), env))
        == done + TurnSteps(s, env) + WindowSteps(Turned(s, env), env);
  }

  lemma WindowFirst(s: Sys, env: Env)
    requires Proper(s) && !s.pc.Idle? && !s.pc.Leave?
    ensures Proper(Turned(s, env)) && !Turned(s, env).pc.Idle?
    ensures WindowSteps(s, env) == TurnSteps(s, env) + WindowSteps(Turned(s, env), env)
  {
    hide TurnSteps, Turned, ChunkSteps, Fed;
    TurnMoves(s, env);
  }

  /** All the steps of a call. */
  function CallSteps(s: Sys, rqst: Request, wantsResult: bool, given: Buffer, env: Env): seq<Step>
    requires s.pc.Idle? && Proper(s) && Proper(DoBegin(s, rqst, wantsResult, given))
  {
    [Begin(rqst, wantsResult, given)]
    + if |rqst.payload| > MAX_RQST_PAYLOAD then [] else WindowSteps(DoBegin(s, rqst, wantsResult, given), env) + [Return]
  }

  // Turns of the requester, as the script says

  lemma FlushTurned(script: seq<Step>, done: seq<Step>, s: Sys, t: Sys, env: Env)
    requires OnScript(script, done, s, env) && (s.pc.Flush? || s.pc.FlushAck?)
    requires t == DoEndFlush(Fed(s, env.arrivals(Slot(s.pc))), env.answers(Slot(s.pc)))
    ensures OnScript(script, done + ChunkSteps(s, env.arrivals(Slot(s.pc))) + [EndFlush(env.answers(Slot(s.pc)))], t, env)
  {
    hide WindowSteps, ChunkSteps, Fed, DoEndFlush;
    OnScriptTurns(script, done, s, env);
    assert done + ChunkSteps(s, env.arrivals(Slot(s.pc))) + [EndFlush(env.answers(Slot(s.pc)))] == done + TurnSteps(s, env);
  }

  lemma WaitTurned(script: seq<Step>, done: seq<Step>, s: Sys, t: Sys, env: Env)
    requires OnScript(script, done, s, env) && (s.pc.AwaitAck? || s.pc.AwaitResponse?)
    requires t == DoEndWait(Fed(s, env.arrivals(Slot(s.pc))))
    ensures OnScript(script, done + ChunkSteps(s, env.arrivals(Slot(s.pc))) + [EndWait], t, env)
  {
    hide WindowSteps, ChunkSteps, Fed, DoEndWait;
    OnScriptTurns(script, done, s, env);
    assert done + ChunkSteps(s, env.arrivals(Slot(s.pc))) + [EndWait] == done + TurnSteps(s, env);
  }

  lemma TakeTurned(script: seq<Step>, done: seq<Step>, s: Sys, t: Sys, env: Env)
    requires OnScript(script, done, s, env) && (s.pc.TakeAck? || s.pc.TakeHeader? || s.pc.TakePayload?)
    requires var u := Fed(s, env.arrivals(Slot(s.pc)));
      t == if s.pc.TakeAck? then DoTakeAck(u) else if s.pc.TakeHeader? then DoTakeHeader(u) else DoTakePayload(u)
    ensures OnScript(script, done + ChunkSteps(s, env.arrivals(Slot(s.pc))) + [Take], t, env)
  {
    hide WindowSteps, ChunkSteps, Fed, DoTakeAck, DoTakeHeader, DoTakePayload;
    OnScriptTurns(script, done, s, env);
    assert done + ChunkSteps(s, env.arrivals(Slot(s.pc))) + [Take] == done + TurnSteps(s, env);
  }

  lemma OnScriptIsProper(script: seq<Step>, done: seq<Step>, s: Sys, env: Env)
    requires OnScript(script, done, s, env)
    ensures Proper(s)
  {
    hide WindowSteps;
  }

  lemma BeginIsProper(s: Sys, rqst: Request, wantsResult: bool, given: Buffer)
    requires Proper(s) && s.pc.Idle?
    ensures Proper(DoBegin(s, rqst, wantsResult, given))
  {
  }
}
