/** What a call comes to in an environment that delivers the answer on time. */
module ScriptOutcomes {
  import opened Bytes
  import opened Frames
  import opened Receiver
  import opened Streams
  import opened SerialWriter
  import opened Window
  import opened NoRoom
  import opened Protocol
  import opened RequestInvariant
  import opened RequestSteps
  import opened RequestTheorems
  import opened RequesterMoves
  import opened CrowdedRuns
  import opened IntactCalls
  import opened Script

  // The bytes of an unfinished frame before a place in a stream
  function Unfinished(fs: seq<seq<byte>>, pos: nat): nat {
    if fs == [] || pos < |fs[0]| then pos else Unfinished(fs[1..], pos - |fs[0]|)
  }

  // No chunk is cut: with the unfinished frame before it, it fits into the evaluation buffer.
  predicate Uncut(fs: seq<seq<byte>>, pos: nat, chunks: seq<seq<byte>>)
    decreases |chunks|
  {
    chunks == [] || (Unfinished(fs, pos) + |chunks[0]| <= EVAL_CAP && Uncut(fs, pos + |chunks[0]|, chunks[1..]))
  }

  // A stream of frames; the first ones, with the ACK among them, come in an attempt, the others after the ACK.
  datatype Delivery = Delivery(frames: seq<seq<byte>>, first: nat, attempt: nat)

  /**
   The environment delivers it, in any chunks: the first frames before the wait for the ACK
   ends in that attempt, whose number leaves room for the RETRY frames among them; the
   others before the wait for the response ends. All writes succeed.
   */
  ghost predicate OnTime(start: Core, wanted: bool, env: Env, d: Delivery) {
    var at := 3 * d.attempt;
    && Answering(start, d.frames, wanted)
    && d.first <= |d.frames|
    && Retries(Outcome(start, d.frames[..d.first])) < |Outcome(start, d.frames[..d.first])|
    && d.attempt + Retries(Outcome(start, d.frames)) <= 2
    && (forall i :: env.answers(i) >= 0)
    && (forall i :: i != at && i != at + 1 && i != 9 ==> env.arrivals(i) == [])
    && Concat(env.arrivals(at)) + Concat(env.arrivals(at + 1)) == Concat(d.frames[..d.first])
    && Concat(env.arrivals(9)) == Concat(d.frames[d.first..])
    && Uncut(d.frames, 0, env.arrivals(at))
    && Uncut(d.frames, |Concat(env.arrivals(at))|, env.arrivals(at + 1))
    && Uncut(d.frames, |Concat(d.frames[..d.first])|, env.arrivals(9))
  }

  // What has been heard once the chunks before a step have come
  function HeardAt(env: Env, d: Delivery, slot: int): seq<byte>
    requires d.first <= |d.frames|
  {
    var at := 3 * d.attempt;
    if slot < at then []
    else if slot == at then Concat(env.arrivals(at))
    else if slot < 9 then Concat(d.frames[..d.first])
    else Concat(d.frames)
  }

  // The call is in time.
  ghost predicate InTime(s: Sys, start: Core, env: Env, d: Delivery) {
    && Healthy(s, start, d.frames) && !s.receiving && |s.pending| <= EVAL_CAP && |s.packet| == 3 && Proper(s)
    && OnTime(start, Wants(s), env, d)
    && (!s.pc.Leave? ==> s.heard == HeardAt(env, d, Slot(s.pc) - 1))
    && (s.pc.TakeAck? ==> s.pc.tries >= d.attempt)
    && start.accepted == []
  }

  // The arrival of the chunks

  lemma {:induction false} StepOfUnfinished(fs: seq<seq<byte>>, j: nat, pos: nat)
    requires AllDelimitable(fs) && j <= |fs|
    requires |Concat(fs[..j])| <= pos && (j == |fs| || pos - |Concat(fs[..j])| < |fs[j]|)
    ensures Unfinished(fs, pos) == pos - |Concat(fs[..j])|
    decreases j
  {
    hide Delimitable;
    if j == 0 {
      assert fs[..0] == [];
    } else {
      assert fs[..j][1..] == fs[1..][..j - 1];
      assert Concat(fs[..j]) == fs[0] + Concat(fs[1..][..j - 1]);
      StepOfUnfinished(fs[1..], j - 1, pos - |fs[0]|);
    }
  }

  lemma PendingIsUnfinished(s: Sys, start: Core, fs: seq<seq<byte>>)
    requires Healthy(s, start, fs) && !s.receiving
    ensures |s.pending| == Unfinished(fs, |s.heard|)
    ensures |s.pending| <= EVAL_CAP && |s.packet| == 3
  {
    hide Inv, Shaped, Fits, Concat, Fold, OnCourse, Alike, Retries, IsCommand, Unfinished, Delimitable;
    HealthyBounds(s, start, fs);
    var j: nat :| InStream(s, start, fs, j);
    StepOfUnfinished(fs, j, |s.heard|);
  }

  lemma {:induction false} EvaluationIsSmooth(s: Sys, total: seq<seq<byte>>, stream: seq<byte>)
    requires |s.pending| <= EVAL_CAP && |s.packet| == 3
    ensures SmoothRun(s, EvalSteps(s), total, stream)
    decreases |s.pending|, s.receiving
  {
    hide EvalBuf, Next, EvalSteps, Evaluated, SmoothRun, DoEvaluate;
    if s.receiving {
      NextEvaluates(s);
      EvaluatesOn(s);
      var t := DoEvaluate(s);
      EvaluationIsSmooth(t, total, stream);
      SmoothFirst(s, Evaluate, EvalSteps(t), total, stream);
    } else {
      assert EvalSteps(s) == [] by { EvalNothing(s); }
      SmoothNothing(s, total, stream);
    }
  }

  lemma SmoothFirst(s: Sys, a: Step, steps: seq<Step>, total: seq<seq<byte>>, stream: seq<byte>)
    requires |s.pending| <= EVAL_CAP && |s.packet| == 3 && Smooth(s, a, total, stream)
    requires SmoothRun(Next(s, a), steps, total, stream)
    ensures SmoothRun(s, [a] + steps, total, stream)
  {
    hide Smooth, Next;
    assert ([a] + steps)[1..] == steps;
  }

  lemma ChunkIsSmooth(s: Sys, chunk: seq<byte>, start: Core, fs: seq<seq<byte>>)
    requires Healthy(s, start, fs) && !s.receiving && |s.pending| <= EVAL_CAP && |s.packet| == 3
    requires |s.pending| + |chunk| <= EVAL_CAP && IsPrefix(s.heard + chunk, Concat(fs))
    ensures SmoothRun(s, ReceiveSteps(s, chunk), Outcome(start, fs), Concat(fs))
    ensures Received(s, chunk).heard == s.heard + chunk && |Received(s, chunk).packet| == 3
    ensures Healthy(Received(s, chunk), start, fs) && SameCall(s, Received(s, chunk))
  {
    hide Healthy, Outcome, Concat, EvalSteps, EvalLoop, Next, Run, SmoothRun;
    assert chunk[..Accepts(s.pending, chunk)] == chunk;
    NextReceives(s, chunk);
    var t := DoArrive(s, chunk);
    EvaluationIsSmooth(t, Outcome(start, fs), Concat(fs));
    SmoothFirst(s, Arrive(chunk), EvalSteps(t), Outcome(start, fs), Concat(fs));
    ReceiveStepsRun(s, chunk);
    RunStaysHealthy(s, ReceiveSteps(s, chunk), start, fs);
  }

  lemma {:induction false} ChunksAreSmooth(s: Sys, chunks: seq<seq<byte>>, start: Core, fs: seq<seq<byte>>)
    requires Healthy(s, start, fs) && !s.receiving && |s.pending| <= EVAL_CAP && |s.packet| == 3
    requires Uncut(fs, |s.heard|, chunks) && IsPrefix(s.heard + Concat(chunks), Concat(fs))
    ensures SmoothRun(s, ChunkSteps(s, chunks), Outcome(start, fs), Concat(fs))
    ensures Fed(s, chunks).heard == s.heard + Concat(chunks)
    ensures Healthy(Fed(s, chunks), start, fs) && SameCall(s, Fed(s, chunks))
    decreases |chunks|
  {
    hide Healthy, Outcome, Received, ReceiveSteps, SmoothRun, Unfinished, Run, Fed, ChunkSteps, Concat, Uncut,
         EvalLoop;
    if chunks == [] {
      FedNothing(s);
      assert Concat([]) == [] by { ConcatNothing(); }
      SmoothNothing(s, Outcome(start, fs), Concat(fs));
    } else {
      var chunk := chunks[0];
      PendingIsUnfinished(s, start, fs);
      UncutFirst(fs, |s.heard|, chunks);
      FedFirst(s, chunks);
      assert Concat(chunks) == chunk + Concat(chunks[1..]) by { ConcatFirst(chunks); }
      assert s.heard + Concat(chunks) == s.heard + chunk + Concat(chunks[1..]);
      assert IsPrefix(s.heard + chunk, Concat(fs)) by { PrefixOfPrefix(s.heard + chunk, Concat(chunks[1..]), Concat(fs)); }
      ChunkIsSmooth(s, chunk, start, fs);
      ReceiveStepsRun(s, chunk);
      ChunksAreSmooth(Received(s, chunk), chunks[1..], start, fs);
      SmoothSplit(s, ReceiveSteps(s, chunk), ChunkSteps(Received(s, chunk), chunks[1..]), Outcome(start, fs), Concat(fs));
    }
  }

  lemma UncutFirst(fs: seq<seq<byte>>, pos: nat, chunks: seq<seq<byte>>)
    requires Uncut(fs, pos, chunks) && chunks != []
    ensures Unfinished(fs, pos) + |chunks[0]| <= EVAL_CAP && Uncut(fs, pos + |chunks[0]|, chunks[1..])
  {
  }

  lemma ConcatFirst(fs: seq<seq<byte>>)
    requires fs != []
    ensures Concat(fs) == fs[0] + Concat(fs[1..])
  {
  }

  lemma PrefixOfPrefix(a: seq<byte>, b: seq<byte>, stream: seq<byte>)
    requires IsPrefix(a + b, stream)
    ensures IsPrefix(a, stream)
  {
    assert a == (a + b)[..|a|];
  }

  lemma SmoothNothing(s: Sys, total: seq<seq<byte>>, stream: seq<byte>)
    requires |s.pending| <= EVAL_CAP && |s.packet| == 3
    ensures SmoothRun(s, [], total, stream)
  {
  }

  // The turns of the requester

  // Each byte comes in its place.
  lemma HeardMoves(start: Core, wanted: bool, env: Env, d: Delivery, slot: nat)
    requires OnTime(start, wanted, env, d)
    ensures HeardAt(env, d, slot) == HeardAt(env, d, slot - 1) + Concat(env.arrivals(slot))
    ensures Uncut(d.frames, |HeardAt(env, d, slot - 1)|, env.arrivals(slot))
    ensures IsPrefix(HeardAt(env, d, slot), Concat(d.frames))
  {
    hide Answering, Outcome, Unfinished;
    var fs := d.frames;
    assert fs[..d.first] + fs[d.first..] == fs;
    ConcatSplit(fs[..d.first], fs[d.first..]);
  }

  lemma AcceptedThen(s: Sys, start: Core, fs: seq<seq<byte>>, n: nat)
    requires Healthy(s, start, fs) && !s.receiving && n <= |fs| && s.heard == Concat(fs[..n])
    ensures s.core.accepted == Outcome(start, fs[..n])
  {
    hide Inv, Shaped, Fits, Concat, Fold, Retries, IsCommand, OnCourse, Delimitable;
    var j: nat :| InStream(s, start, fs, j);
    if j < n {
      ConcatGrows(fs, j + 1, n);
      StreamAt(fs, j);
    } else if j > n {
      ConcatGrows(fs, n + 1, j);
      StreamAt(fs, n);
      FramesFit(fs);
    }
  }

  lemma ConcatGrows(fs: seq<seq<byte>>, a: nat, b: nat)
    requires a <= b <= |fs|
    ensures |Concat(fs[..a])| <= |Concat(fs[..b])|
  {
    assert fs[..b] == fs[..a] + fs[a..b];
    ConcatSplit(fs[..a], fs[a..b]);
  }

  // The wait for the ACK ends with the completion exactly from the attempt on in which it comes.
  lemma WaitFinds(s: Sys, start: Core, env: Env, d: Delivery)
    requires Healthy(s, start, d.frames) && !s.receiving && OnTime(start, Wants(s), env, d) && start.accepted == []
    requires s.pc.AwaitAck? && s.pc.tries < NUM_RETRY && s.heard == HeardAt(env, d, 3 * s.pc.tries + 1)
    ensures s.core.signals > 0 <==> s.pc.tries >= d.attempt
    ensures s.core.signals > 0 || s.pc.tries + RetriesLeft(s, Outcome(start, d.frames)) < NUM_RETRY - 1
  {
    hide Healthy, Answering, Retries, FifoBytes, Concat, Uncut, Fold, Packable;
    var n := if s.pc.tries < d.attempt then 0 else d.first;
    assert Concat([]) == [] by { ConcatNothing(); }
    assert d.frames[..0] == [];
    assert Outcome(start, []) == [] by { OutcomeNothing(start); }
    AcceptedThen(s, start, d.frames, n);
    WaitingBacklog(s, start, d.frames);
  }

  lemma OutcomeNothing(start: Core)
    ensures Outcome(start, []) == start.accepted
  {
  }

  lemma WaitingBacklog(s: Sys, start: Core, fs: seq<seq<byte>>)
    requires Healthy(s, start, fs) && s.pc.AwaitAck?
    ensures s.taken <= |s.core.accepted| && s.core.signals == |s.core.accepted| - s.taken
    ensures s.taken <= Retries(s.core.accepted)
  {
    hide Shaped, Fits, LogOk, Heard, Counters, Expecting, InStream, Retries, IsCommand, FifoBytes, AllAsk, AllSentOk, Asked,
         Answering, Outcome, OnCourse;
  }

  // What arrives before a step
  lemma ArrivalsAreSmooth(s: Sys, start: Core, env: Env, d: Delivery)
    requires InTime(s, start, env, d) && !s.pc.Leave? && !s.pc.Idle?
    ensures var t := Fed(s, env.arrivals(Slot(s.pc)));
      && SmoothRun(s, ChunkSteps(s, env.arrivals(Slot(s.pc))), Outcome(start, d.frames), Concat(d.frames))
      && Healthy(t, start, d.frames) && SameCall(s, t) && t.heard == HeardAt(env, d, Slot(s.pc))
  {
    hide Healthy, OnTime, Uncut, Concat, Outcome, Fed, ChunkSteps, SmoothRun, Proper;
    var slot := Slot(s.pc);
    HeardMoves(start, Wants(s), env, d, slot);
    ChunksAreSmooth(s, env.arrivals(slot), start, d.frames);
  }

  // And the step itself
  lemma OwnStepIsSmooth(s: Sys, t: Sys, start: Core, env: Env, d: Delivery)
    requires InTime(s, start, env, d) && !s.pc.Leave? && !s.pc.Idle?
    requires t == Fed(s, env.arrivals(Slot(s.pc)))
    requires Healthy(t, start, d.frames) && t.heard == HeardAt(env, d, Slot(s.pc))
    ensures Smooth(t, OwnStep(s.pc, env), Outcome(start, d.frames), Concat(d.frames))
    ensures s.pc.AwaitAck? ==> (t.core.signals > 0 <==> s.pc.tries >= d.attempt)
  {
    hide Healthy, Answering, Uncut, Concat, Outcome, Fed, Retries;
    if s.pc.AwaitAck? {
      WaitFinds(t, start, env, d);
    } else if s.pc.AwaitResponse? {
      NoTimeout(t, start, d.frames);
    }
  }

  // Where it leads
  lemma TurnStaysInTime(s: Sys, start: Core, env: Env, d: Delivery)
    requires InTime(s, start, env, d) && !s.pc.Leave? && !s.pc.Idle?
    ensures InTime(Turned(s, env), start, env, d)
    ensures SmoothRun(s, TurnSteps(s, env), Outcome(start, d.frames), Concat(d.frames))
  {
    hide Healthy, OnTime, Concat, Outcome, Fed, ChunkSteps, SmoothRun, Smooth, Next, Proper, Run;
    var slot := Slot(s.pc);
    var t := Fed(s, env.arrivals(slot));
    var own := OwnStep(s.pc, env);
    ArrivalsAreSmooth(s, start, env, d);
    OwnStepIsSmooth(s, t, start, env, d);
    StepStaysHealthy(t, own, start, d.frames);
    TurnMoves(s, env);
    ChunkStepsRun(s, env.arrivals(slot));
    SmoothOne(t, own, Outcome(start, d.frames), Concat(d.frames));
    SmoothSplit(s, ChunkSteps(s, env.arrivals(slot)), [own], Outcome(start, d.frames), Concat(d.frames));
    RequesterStays(t, own);
    TurnIsInTime(s, t, start, env, d);
  }

  lemma SmoothOne(s: Sys, a: Step, total: seq<seq<byte>>, stream: seq<byte>)
    requires |s.pending| <= EVAL_CAP && |s.packet| == 3 && Smooth(s, a, total, stream)
    ensures SmoothRun(s, [a], total, stream)
  {
    hide SmoothRun, Smooth, Next;
    SmoothNothing(Next(s, a), total, stream);
    SmoothFirst(s, a, [], total, stream);
    assert [a] + [] == [a];
  }

  // Nothing is heard between this step and the place of the next one.
  lemma TurnIsInTime(s: Sys, t: Sys, start: Core, env: Env, d: Delivery)
    requires InTime(s, start, env, d) && !s.pc.Leave? && !s.pc.Idle?
    requires t == Fed(s, env.arrivals(Slot(s.pc)))
    requires s.pc.AwaitAck? ==> (t.core.signals > 0 <==> s.pc.tries >= d.attempt)
    ensures var u := Turned(s, env);
      && (!u.pc.Leave? ==> HeardAt(env, d, Slot(u.pc) - 1) == HeardAt(env, d, Slot(s.pc)))
      && (u.pc.TakeAck? ==> u.pc.tries >= d.attempt)
  {
    hide Healthy, Answering, Outcome, Uncut, Concat, Fed, DoEndFlush, DoEndWait, DoTakeAck, DoTakeHeader, DoTakePayload;
    FlushLeads(t, env.answers(Slot(s.pc)));
    if s.pc.AwaitAck? || s.pc.AwaitResponse? {
      WaitLeads(t);
    }
    TakeLeads(t);
  }

  lemma {:induction false} WindowIsSmooth(s: Sys, start: Core, env: Env, d: Delivery)
    requires InTime(s, start, env, d) && !s.pc.Idle?
    ensures SmoothRun(s, WindowSteps(s, env), Outcome(start, d.frames), Concat(d.frames))
    decreases 14 - Slot(s.pc)
  {
    hide Healthy, Concat, Outcome, TurnSteps, Turned, SmoothRun, Next, Run, Answering, Uncut;
    if s.pc.Leave? {
      SmoothNothing(s, Outcome(start, d.frames), Concat(d.frames));
    } else {
      TurnStaysInTime(s, start, env, d);
      TurnMoves(s, env);
      TurnRun(s, env);
      WindowIsSmooth(Turned(s, env), start, env, d);
      SmoothSplit(s, TurnSteps(s, env), WindowSteps(Turned(s, env), env), Outcome(start, d.frames), Concat(d.frames));
    }
  }

  /**
   A call that is answered on time succeeds, with the payload that was sent: from every run
   that leaves the engine idle, for every stream, however it is cut, and also after
   transmissions that nothing has answered.
   */
  lemma AnsweredOnTime(before: seq<Step>, rqst: Request, wantsResult: bool, given: Buffer, env: Env, d: Delivery)
    requires var s := Reach(before); s.pc.Idle? && Proper(s) && Proper(DoBegin(s, rqst, wantsResult, given))
    requires |rqst.payload| <= 245
    requires OnTime(DoBegin(Reach(before), rqst, wantsResult, given).core, rqst.snc && wantsResult, env, d)
    ensures var log := Reach(before + CallSteps(Reach(before), rqst, wantsResult, given, env)).log;
      && |log| == |Reach(before).log| + 1
      && var r := log[|log| - 1];
      && r.rqst == rqst && r.wantsResult == wantsResult && r.given == given && r.start == Reach(before).acks
      && Succeeds(r, Outcome(DoBegin(Reach(before), rqst, wantsResult, given).core, d.frames))
  {
    hide Inv, Run, SmoothRun, Concat, Outcome, Succeeds, Healthy, OnTime, WindowSteps, WindowEnd, RequestFrame;
    var i := Reach(before);
    ReachIsInv(before);
    IdleBegins(i, rqst, wantsResult, given);
    var s := DoBegin(i, rqst, wantsResult, given);
    assert s.rqst == rqst && s.wantsResult == wantsResult;
    assert Answering(s.core, d.frames, Wants(s)) by { OnTimeAnswers(s.core, Wants(s), env, d); }
    BeginsHealthy(i, rqst, wantsResult, given, d.frames);
    assert InTime(s, s.core, env, d) by { BeginsInTime(s, env, d); }
    WindowIsSmooth(s, s.core, env, d);
    WindowRun(s, env);
    var steps := WindowSteps(s, env);
    IntactCallSucceeds(before, rqst, wantsResult, given, d.frames, steps);
    assert before + CallSteps(i, rqst, wantsResult, given, env)
        == before + [Begin(rqst, wantsResult, given)] + steps + [Return];
  }

  lemma OnTimeAnswers(start: Core, wanted: bool, env: Env, d: Delivery)
    requires OnTime(start, wanted, env, d)
    ensures Answering(start, d.frames, wanted)
  {
    hide Answering;
  }

  lemma BeginsInTime(s: Sys, env: Env, d: Delivery)
    requires Healthy(s, s.core, d.frames) && !s.receiving && |s.pending| <= EVAL_CAP && |s.packet| == 3 && Proper(s)
    requires OnTime(s.core, Wants(s), env, d) && s.pc == Flush(0) && s.heard == [] && s.core.accepted == []
    ensures InTime(s, s.core, env, d)
  {
    hide Healthy, Answering, Outcome, Concat, Uncut;
  }

  /** Whatever such a stream is, r is the record of a call that succeeds with it. */
  ghost predicate SucceedsOnTime(s: Sys, rqst: Request, wantsResult: bool, given: Buffer, env: Env, r: Record) {
    var start := DoBegin(s, rqst, wantsResult, given).core;
    forall d: Delivery :: OnTime(start, rqst.snc && wantsResult, env, d) ==> Succeeds(r, Outcome(start, d.frames))
  }

  lemma AnswersOnTime(before: seq<Step>, rqst: Request, wantsResult: bool, given: Buffer, env: Env)
    requires var s := Reach(before); s.pc.Idle? && Proper(s) && Proper(DoBegin(s, rqst, wantsResult, given))
    requires |rqst.payload| <= 245
    ensures var log := Reach(before + CallSteps(Reach(before), rqst, wantsResult, given, env)).log;
      log != [] && SucceedsOnTime(Reach(before), rqst, wantsResult, given, env, log[|log| - 1])
  {
    hide Reach, OnTime, Succeeds, Outcome, DoBegin, CallSteps, Proper;
    var i := Reach(before);
    var log := Reach(before + CallSteps(i, rqst, wantsResult, given, env)).log;
    var start := DoBegin(i, rqst, wantsResult, given).core;
    assert log != [] by { CallIsLogged(before, rqst, wantsResult, given, env); }
    forall d: Delivery | OnTime(start, rqst.snc && wantsResult, env, d)
      ensures Succeeds(log[|log| - 1], Outcome(start, d.frames))
    {
      AnsweredOnTime(before, rqst, wantsResult, given, env, d);
    }
  }

  lemma CallIsLogged(before: seq<Step>, rqst: Request, wantsResult: bool, given: Buffer, env: Env)
    requires var s := Reach(before); s.pc.Idle? && Proper(s) && Proper(DoBegin(s, rqst, wantsResult, given))
    requires |rqst.payload| <= 245
    ensures Reach(before + CallSteps(Reach(before), rqst, wantsResult, given, env)).log != []
  {
    hide WindowSteps, WindowEnd, RequestFrame, Run;
    var i := Reach(before);
    var s := DoBegin(i, rqst, wantsResult, given);
    WindowRun(s, env);
    RunSplit(INIT, before + [Begin(rqst, wantsResult, given)] + WindowSteps(s, env), [Return]);
    RunSplit(INIT, before + [Begin(rqst, wantsResult, given)], WindowSteps(s, env));
    RunSplit(INIT, before, [Begin(rqst, wantsResult, given)]);
    RunOne(i, Begin(rqst, wantsResult, given));
    RunOne(WindowEnd(s, env), Return);
    assert before + CallSteps(i, rqst, wantsResult, given, env)
        == before + [Begin(rqst, wantsResult, given)] + WindowSteps(s, env) + [Return];
  }

  // An environment that does it

  // After as many unanswered transmissions, RETRY frames and the ACK; then a notification and the response
  function ReplyEnv(attempt: nat, n: nat, q: byte, seqno: byte, e: Cmd, m: Cmd): Env
    requires |e.payload| <= MAX_RQST_PAYLOAD && |m.payload| <= MAX_RQST_PAYLOAD
  {
    Env((i: nat) => if i == 3 * attempt + 1 then Delayed(n, q, seqno)
                    else if i == 9 then [CommandFrame(q, e), CommandFrame(q, m)]
                    else [],
        (i: nat) => 0)
  }

  // Whole frames, one in each chunk
  lemma {:induction false} WholeFramesAreUncut(fs: seq<seq<byte>>, i: nat, j: nat)
    requires AllDelimitable(fs) && i <= j <= |fs|
    ensures Uncut(fs, |Concat(fs[..i])|, fs[i..j])
    decreases j - i
  {
    hide Delimitable, Concat, Unfinished;
    if i < j {
      FramesFit(fs);
      StreamAt(fs, i);
      StepOfUnfinished(fs, i, |Concat(fs[..i])|);
      assert fs[i..j][0] == fs[i] && fs[i..j][1..] == fs[i + 1..j];
      WholeFramesAreUncut(fs, i + 1, j);
    }
  }

  /** It is on time if transmissions and RETRY frames leave an attempt. */
  lemma ReplyIsOnTime(c: Core, attempt: nat, n: nat, q: byte, e: Cmd, m: Cmd)
    requires c.mode == Control && c.expectPld && c.fifo == [] && c.accepted == [] && attempt + n <= 2
    requires m.rqid == c.expectRqid && !RqidIsEvent(m.rqid) && RqidIsEvent(e.rqid)
    requires |e.payload| <= MAX_RQST_PAYLOAD && |m.payload| <= MAX_RQST_PAYLOAD
    ensures OnTime(c, true, ReplyEnv(attempt, n, q, c.expectSeq, e, m),
                   Delivery(Reply(n, q, c.expectSeq, e, m), n + 1, attempt))
  {
    hide CommandFrame, ControlFrame, IsCommand, IsRetry, Delimitable, AllRoom, Concat, Uncut, Answering, Outcome, Retries;
    var fs := Reply(n, q, c.expectSeq, e, m);
    ReplyAnswers(c, n, q, e, m);
    AckIsAmongThem(c, n, q);
    assert AllDelimitable(fs) by { AnsweringIsDelimitable(c, fs); }
    assert fs[..0] == [] && Concat([]) == [] by { ConcatNothing(); }
    assert fs[0..n + 1] == fs[..n + 1] == Delayed(n, q, c.expectSeq);
    assert fs[n + 1..|fs|] == fs[n + 1..] == [CommandFrame(q, e), CommandFrame(q, m)];
    assert Concat([]) + Concat(fs[..n + 1]) == Concat(fs[..n + 1]);
    WholeFramesAreUncut(fs, 0, n + 1);
    WholeFramesAreUncut(fs, n + 1, |fs|);
    UncutNothing(fs, 0);
    var env := ReplyEnv(attempt, n, q, c.expectSeq, e, m);
    var at := 3 * attempt;
    assert env.arrivals(at) == [];
    assert env.arrivals(at + 1) == fs[..n + 1];
    assert env.arrivals(9) == fs[n + 1..];
  }

  lemma AckIsAmongThem(c: Core, n: nat, q: byte)
    requires c.mode == Control && c.expectPld && c.fifo == [] && c.accepted == [] && n <= 2
    ensures var total := Outcome(c, Delayed(n, q, c.expectSeq)); Retries(total) < |total|
    ensures |Delayed(n, q, c.expectSeq)| == n + 1
  {
    hide ControlFrame, Fold, IsRetry;
    DelayedFold(c, n, q);
    AckIsNoRetry(c.expectSeq);
    RetriesOfReply(n, q, [ControlFrame(TYPE_ACK, c.expectSeq)]);
    assert [] + Delayed(n, q, c.expectSeq) == Delayed(n, q, c.expectSeq);
  }

  lemma AnsweringIsDelimitable(c: Core, fs: seq<seq<byte>>)
    requires Answering(c, fs, true)
    ensures AllDelimitable(fs)
  {
    hide Outcome;
  }

  lemma UncutNothing(fs: seq<seq<byte>>, pos: nat)
    ensures Uncut(fs, pos, [])
  {
  }

  /** In time, such a reply brings exactly its payload, if the caller's buffer holds it; if not, -22 and no byte. */
  lemma ReplyBringsPayload(before: seq<Step>, rqst: Request, given: Buffer, env: Env, d: Delivery,
                           n: nat, q: byte, e: Cmd, m: Cmd)
    requires var s := Reach(before); s.pc.Idle? && Proper(s) && Proper(DoBegin(s, rqst, true, given))
    requires |rqst.payload| <= 245 && rqst.snc && n <= 2 && RqidIsEvent(e.rqid)
    requires m.rqid == WireRqid(Reach(before).acks) && |e.payload| <= 245 && |m.payload| <= 245
    requires d.frames == Reply(n, q, WireSeq(Reach(before).acks), e, m)
    requires OnTime(DoBegin(Reach(before), rqst, true, given).core, true, env, d)
    ensures var log := Reach(before + CallSteps(Reach(before), rqst, true, given, env)).log;
      && log != []
      && var r := log[|log| - 1];
      if |m.payload| <= |given.data| then
        r.status == 0 && r.buffer == Buffer(m.payload + given.data[|m.payload|..], |m.payload|)
      else r.status == -22 && r.buffer == given
  {
    hide Reach, OnTime, Outcome, CommandFrame, ControlFrame, CallSteps, Answering, Inv, IsCommand, RequestFrame, WireRqid;
    var i := Reach(before);
    ReachIsInv(before);
    IdleBegins(i, rqst, true, given);
    var c := DoBegin(i, rqst, true, given).core;
    assert !RqidIsEvent(WireRqid(i.acks)) by { WireIds(i.acks, i.acks); }
    ReplyAnswers(c, n, q, e, m);
    CommandDelimits(q, m);
    AnsweredOnTime(before, rqst, true, given, env, d);
  }
}
