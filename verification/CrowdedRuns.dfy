/** Runs of the request engine that end in a FIFO without room. */
module CrowdedRuns {
  import opened Bytes
  import opened Frames
  import opened Receiver
  import opened Streams
  import opened SerialWriter
  import opened NoRoom
  import opened Protocol
  import opened RequestInvariant
  import opened RequestSteps
  import opened RequestTheorems

  lemma {:induction false} RunSplit(s: Sys, a: seq<Step>, b: seq<Step>)
    requires |s.pending| <= EVAL_CAP && |s.packet| == 3
    ensures Run(s, a + b) == Run(Run(s, a), b)
    decreases |a|
  {
    hide Next;
    if a == [] {
      assert a + b == b;
    } else {
      assert (a + b)[1..] == a[1..] + b;
      RunSplit(Next(s, a[0]), a[1..], b);
    }
  }

  lemma RunOne(s: Sys, a: Step)
    requires |s.pending| <= EVAL_CAP && |s.packet| == 3
    ensures Run(s, [a]) == Next(s, a)
  {
    hide Next;
    assert [a][1..] == [];
  }

  // Frames received one by one, each in a call of its own

  function Receives(frames: seq<seq<byte>>): seq<Step> {
    if frames == [] then [] else [Arrive(frames[0]), Evaluate, Evaluate] + Receives(frames[1..])
  }

  lemma RunReceivesFrame(s: Sys, f: seq<byte>)
    requires s.pending == [] && !s.receiving && |s.packet| == 3
    requires Delimitable(f) && Room(s.core, f) && 0 < |f| <= EVAL_CAP
    ensures Run(s, [Arrive(f), Evaluate, Evaluate]) == s.(core := EvalBuf(s.core, f).core, heard := s.heard + f)
  {
    hide EvalBuf, Delimitable, Room, Run, Next;
    assert f[..Accepts([], f)] == f && [] + f == f && f + [] == f;
    FrameIsLocal(s.core, f, []);
    var t := DoArrive(s, f);
    var u := DoEvaluate(t);
    assert f[|f|..] == [];
    assert EvalBuf(u.core, []).used == 0 by { NothingToDo(u.core); }
    assert [Arrive(f)] + [Evaluate, Evaluate] == [Arrive(f), Evaluate, Evaluate];
    assert [Evaluate] + [Evaluate] == [Evaluate, Evaluate] && [Evaluate] + [] == [Evaluate];
    RunFirst(s, Arrive(f), [Evaluate, Evaluate]);
    RunFirst(t, Evaluate, [Evaluate]);
    RunFirst(u, Evaluate, []);
    NextReceives(s, f);
    NextEvaluates(t);
    NextEvaluates(u);
    RunNothing(DoEvaluate(u));
  }

  lemma NothingToDo(c: Core)
    ensures EvalBuf(c, []).used == 0
  {
  }

  lemma RunFirst(s: Sys, a: Step, rest: seq<Step>)
    requires |s.pending| <= EVAL_CAP && |s.packet| == 3
    ensures Run(s, [a] + rest) == Run(Next(s, a), rest)
  {
    hide Next;
    assert ([a] + rest)[1..] == rest;
  }

  lemma RunNothing(s: Sys)
    requires |s.pending| <= EVAL_CAP && |s.packet| == 3
    ensures Run(s, []) == s
  {
  }

  lemma NextReceives(s: Sys, chunk: seq<byte>)
    requires |s.pending| <= EVAL_CAP && |s.packet| == 3 && !s.receiving
    ensures Next(s, Arrive(chunk)) == DoArrive(s, chunk)
  {
    hide DoArrive;
  }

  lemma NextEvaluates(s: Sys)
    requires |s.pending| <= EVAL_CAP && |s.packet| == 3 && s.receiving
    ensures Next(s, Evaluate) == DoEvaluate(s)
  {
    hide DoEvaluate;
  }

  lemma {:induction false} RunReceives(s: Sys, frames: seq<seq<byte>>)
    requires s.pending == [] && !s.receiving && |s.packet| == 3 && AllDelimitable(frames) && AllRoom(s.core, frames)
    ensures var t := Run(s, Receives(frames));
      t == s.(core := Fold(s.core, frames), heard := t.heard)
    decreases |frames|
  {
    hide EvalBuf, Delimitable, Room, Run;
    FramesFit(frames);
    if frames != [] {
      RunReceivesFrame(s, frames[0]);
      var t := Run(s, [Arrive(frames[0]), Evaluate, Evaluate]);
      RunSplit(s, [Arrive(frames[0]), Evaluate, Evaluate], Receives(frames[1..]));
      RunReceives(t, frames[1..]);
    } else {
      RunNothing(s);
    }
  }

  // The run in which a call begins and is answered by 169 RETRY frames before its ACK
  function FloodedRun(before: seq<Step>, rqst: Request, given: Buffer, q: byte): seq<Step> {
    before + [Begin(rqst, true, given)] + Receives(Delayed(169, q, WireSeq(Reach(before).acks)))
  }

  /**
   From every run that leaves the engine idle, the FIFO can run out of room: the response to
   this very request, be it empty, is dropped.
   */
  lemma RoomRunsOut(before: seq<Step>, rqst: Request, given: Buffer, q: byte, s: byte, m: Cmd)
    requires Reach(before).pc.Idle? && !Reach(before).receiving && rqst.snc && |rqst.payload| <= MAX_RQST_PAYLOAD
    requires m.rqid == WireRqid(Reach(before).acks) && |m.payload| <= MAX_RQST_PAYLOAD
    ensures var c := Reach(FloodedRun(before, rqst, given, q)).core;
      Awaited(c, CommandFrame(s, m)) && !Room(c, CommandFrame(s, m))
  {
    hide Run, Fold, Delayed, Awaited, Room, RequestFrame, CommandFrame, Inv, Receives, WireRqid;
    var i := Reach(before);
    ReachIsInv(before);
    IdleBegins(i, rqst, true, given);
    var b := DoBegin(i, rqst, true, given);
    var frames := Delayed(169, q, WireSeq(i.acks));
    RunSplit(INIT, before + [Begin(rqst, true, given)], Receives(frames));
    RunSplit(INIT, before, [Begin(rqst, true, given)]);
    RunOne(i, Begin(rqst, true, given));
    DelayedFold(b.core, 169, q);
    RunReceives(b, frames);
    WireIds(i.acks, i.acks);
    DelayedRoomIff(b.core, 169, q, s, m);
  }

  lemma IdleBegins(s: Sys, rqst: Request, wantsResult: bool, given: Buffer)
    requires Inv(s) && s.pc.Idle? && !s.receiving && |rqst.payload| <= MAX_RQST_PAYLOAD
    ensures |s.pending| <= EVAL_CAP && |s.packet| == 3
    ensures var t := DoBegin(s, rqst, wantsResult, given);
      && Next(s, Begin(rqst, wantsResult, given)) == t
      && t.pending == [] && !t.receiving && t.core.fifo == [] && t.core.accepted == [] && t.core.mode == Control
      && t.core.expectPld == rqst.snc && t.core.expectSeq == WireSeq(s.acks)
      && t.core.expectRqid == WireRqid(s.acks) && t.start == s.acks && t.pc == Flush(0) && Inv(t)
  {
    hide RequestFrame, LogOk, AcksIn, RqidToRqst;
    assert Inv(DoBegin(s, rqst, wantsResult, given)) by { BeginKeeps(s, rqst, wantsResult, given); }
  }
}
