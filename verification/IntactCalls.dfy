/**
 Calls whose ACK and response arrive intact, among whatever else the line brings, in any
 chunks and at any time: they succeed, and bring the payload that was sent.
 */
module IntactCalls {
  import opened Bytes
  import opened Frames
  import opened Receiver
  import opened Streams
  import opened RoundTrip
  import opened SerialWriter
  import opened Window
  import opened FifoRoom
  import opened NoRoom
  import opened Protocol
  import opened RequestInvariant
  import opened RequestSteps
  import opened RequestTheorems
  import opened RequesterMoves
  import opened CrowdedRuns

  // What the receiver accepts if it is handed the frames one by one
  function Outcome(start: Core, fs: seq<seq<byte>>): seq<seq<byte>> { Fold(start, fs).accepted }

  /**
   From a restart on, the receiver accepts at most two RETRY frames, the ACK and, if one is
   wanted, a response; everything else in the stream it handles without accepting it:
   notifications, stale or damaged frames, frames of others.
   */
  predicate Answering(start: Core, fs: seq<seq<byte>>, wanted: bool) {
    && AllDelimitable(fs)
    && var total := Outcome(start, fs);
    && Retries(total) <= 2 && Retries(total) < |total|
    && (wanted ==> |total| == Retries(total) + 2 && IsCommand(Response(total)) && |Response(total)| <= 265)
  }

  function Wants(s: Sys): bool { s.rqst.snc && s.wantsResult }

  // The response is there, and the caller's buffer holds it.
  predicate Fitting(total: seq<seq<byte>>, cap: nat) {
    total != [] && |Response(total)| >= 18 && |PayloadOf(Response(total))| <= cap
  }

  // Two receivers that differ at most in what waits in the FIFO
  predicate Alike(c: Core, d: Core) { c == d.(fifo := c.fifo, signals := c.signals) }

  predicate Roomy(c: Core, f: seq<byte>) { Room(c, f) && (c.mode == Control ==> FifoAvail(c) >= 3) }

  lemma AlikeStep(c: Core, d: Core, f: seq<byte>)
    requires Delimitable(f) && Alike(c, d) && Roomy(c, f) && Roomy(d, f)
    ensures Alike(EvalBuf(c, f).core, EvalBuf(d, f).core)
  {
  }

  lemma {:induction false} FoldShaped(c: Core, frames: seq<seq<byte>>)
    requires AllDelimitable(frames) && Shaped(c) && Fits(c)
    ensures Shaped(Fold(c, frames)) && Fits(Fold(c, frames)) && c.accepted <= Fold(c, frames).accepted
    decreases |frames|
  {
    hide EvalBuf, Shaped, FifoBytes, Delimitable;
    if frames != [] {
      FramesFit(frames);
      StepKeepsBacklog(c, frames[0]);
      var d := EvalBuf(c, frames[0]).core;
      assert Packable(d.accepted) by { ShapedIsPackable(d); }
      FoldShaped(d, frames[1..]);
    }
  }

  // The reference after j frames
  lemma Midway(start: Core, fs: seq<seq<byte>>, j: nat, wanted: bool)
    requires Shaped(start) && Fits(start) && Answering(start, fs, wanted) && j <= |fs|
    ensures var d := Fold(start, fs[..j]);
      && Shaped(d) && Fits(d) && d.accepted <= Outcome(start, fs)
      && Retries(d.accepted) <= NUM_RETRY - 1
      && (j < |fs| ==> Fold(start, fs[..j + 1]) == EvalBuf(d, fs[j]).core && Delimitable(fs[j]) && 0 < |fs[j]| <= EVAL_CAP)
      && (j == |fs| ==> d.accepted == Outcome(start, fs))
  {
    hide EvalBuf, Shaped, Fits, Fold, Retries, Delimitable, IsCommand;
    FramesFit(fs);
    assert fs[..j] + fs[j..] == fs;
    FoldShaped(start, fs[..j]);
    FoldSplit(start, fs[..j], fs[j..]);
    FoldShaped(Fold(start, fs[..j]), fs[j..]);
    RetriesMonotone(Fold(start, fs[..j]).accepted, Outcome(start, fs));
    if j < |fs| {
      assert fs[..j] + [fs[j]] == fs[..j + 1];
      FoldSplit(start, fs[..j], [fs[j]]);
      OneFrame(Fold(start, fs[..j]), fs[j]);
    } else {
      assert fs[..j] == fs;
    }
  }

  // The place in the stream

  // j frames have been handled; the bytes behind them are pending.
  predicate InStream(s: Sys, start: Core, fs: seq<seq<byte>>, j: nat) {
    && j <= |fs|
    && Alike(s.core, Fold(start, fs[..j]))
    && IsPrefix(s.heard, Concat(fs))
    && |Concat(fs[..j])| <= |s.heard|
    && s.pending == Concat(fs)[|Concat(fs[..j])|..|s.heard|]
    && (!s.receiving ==> j == |fs| || |s.pending| < |fs[j]|)
  }

  lemma {:induction false} ConcatSplit(a: seq<seq<byte>>, b: seq<seq<byte>>)
    ensures Concat(a + b) == Concat(a) + Concat(b)
  {
    if a == [] {
      assert a + b == b;
    } else {
      assert (a + b)[1..] == a[1..] + b;
      ConcatSplit(a[1..], b);
    }
  }

  // The stream behind the first j frames begins with the next one.
  lemma StreamAt(fs: seq<seq<byte>>, j: nat)
    requires j <= |fs|
    ensures |Concat(fs[..j])| <= |Concat(fs)|
    ensures j == |fs| ==> |Concat(fs[..j])| == |Concat(fs)|
    ensures j < |fs| ==>
      var off := |Concat(fs[..j])|;
      && |Concat(fs[..j + 1])| == off + |fs[j]| <= |Concat(fs)|
      && Concat(fs)[off..off + |fs[j]|] == fs[j]
  {
    hide Concat;
    ConcatSplit(fs[..j], fs[j..]);
    assert fs[..j] + fs[j..] == fs;
    if j < |fs| {
      ConcatSplit([fs[j]], fs[j + 1..]);
      assert [fs[j]] + fs[j + 1..] == fs[j..];
      OneConcat(fs[j]);
      ConcatSplit(fs[..j], [fs[j]]);
      assert fs[..j] + [fs[j]] == fs[..j + 1];
    } else {
      assert fs[..j] == fs;
    }
  }

  lemma OneConcat(f: seq<byte>)
    ensures Concat([f]) == f
  {
    assert [f][1..] == [];
  }

  lemma ArriveInStream(s: Sys, chunk: seq<byte>, start: Core, fs: seq<seq<byte>>, j: nat)
    requires |s.pending| <= EVAL_CAP && InStream(s, start, fs, j)
    requires IsPrefix(s.heard + chunk[..Accepts(s.pending, chunk)], Concat(fs))
    ensures InStream(DoArrive(s, chunk), start, fs, j)
  {
    hide Fold, Concat;
    var part := chunk[..Accepts(s.pending, chunk)];
    var off := |Concat(fs[..j])|;
    assert part == Concat(fs)[|s.heard|..|s.heard + part|];
    assert Concat(fs)[off..|s.heard|] + part == Concat(fs)[off..|s.heard + part|];
  }

  // The actual receiver has room, for what is accepted in all fits into the FIFO.
  lemma ActualHasRoom(s: Sys, d: Core, f: seq<byte>)
    requires Shaped(s.core) && Fits(s.core) && Shaped(d) && Fits(d) && Alike(s.core, d)
    requires Retries(d.accepted) <= NUM_RETRY - 1 && |f| <= EVAL_CAP
    ensures Roomy(s.core, f) && Roomy(d, f)
  {
    hide Shaped, Retries, FifoBytes, Room;
    BudgetGivesRoom(s.core, f);
    BudgetGivesRoom(d, f);
  }

  lemma EvaluateInStream(s: Sys, start: Core, fs: seq<seq<byte>>, j: nat, wanted: bool) returns (k: nat)
    requires Shaped(s.core) && Fits(s.core) && |s.pending| <= EVAL_CAP
    requires Shaped(start) && Fits(start) && Answering(start, fs, wanted) && InStream(s, start, fs, j)
    ensures InStream(DoEvaluate(s), start, fs, k)
  {
    hide EvalBuf, Shaped, Fits, Fold, Concat, Retries, Delimitable, Room, Alike, Answering, Outcome;
    var d := Fold(start, fs[..j]);
    Midway(start, fs, j, wanted);
    StreamAt(fs, j);
    k := j;
    if j == |fs| {
      assert s.pending == [];
      NothingToDo(s.core);
    } else if |s.pending| < |fs[j]| {
      assert s.pending == fs[j][..|s.pending|];
      PrefixWaits(s.core, fs[j], |s.pending|);
    } else {
      k := j + 1;
      var f, rest := fs[j], s.pending[|fs[j]|..];
      assert s.pending == f + rest;
      FrameIsHandled(s, d, f, rest);
    }
  }

  lemma FrameIsHandled(s: Sys, d: Core, f: seq<byte>, rest: seq<byte>)
    requires Shaped(s.core) && Fits(s.core) && Shaped(d) && Fits(d) && Alike(s.core, d)
    requires Retries(d.accepted) <= NUM_RETRY - 1 && Delimitable(f) && 0 < |f| <= EVAL_CAP && s.pending == f + rest
    ensures var t := DoEvaluate(s);
      Alike(t.core, EvalBuf(d, f).core) && t == s.(core := t.core, pending := rest)
  {
    hide EvalBuf, Shaped, Fits, Retries, Delimitable, Room, Alike;
    ActualHasRoom(s, d, f);
    FrameIsLocal(s.core, f, rest);
    AlikeStep(s.core, d, f);
    assert (f + rest)[|f|..] == rest;
  }

  // A step of the requester leaves the receiver where it is in the stream.
  lemma SamePlaceInStream(s: Sys, t: Sys, start: Core, fs: seq<seq<byte>>, j: nat)
    requires InStream(s, start, fs, j) && SamePlace(s, t)
    ensures InStream(t, start, fs, j)
  {
    hide Concat, Fold;
  }

  // The course of the requester

  // RETRY packets still to come, if `total` is what is accepted in the end
  function RetriesLeft(s: Sys, total: seq<seq<byte>>): nat {
    if s.taken < Retries(total) then Retries(total) - s.taken else 0
  }

  /**
   Nothing goes wrong for good: the bytes received continue the stream, writes succeed, the
   wait for the response does not time out, and the wait for the ACK only while there is an
   attempt left besides those that the RETRY frames to come will cost.
   */
  predicate Smooth(s: Sys, a: Step, total: seq<seq<byte>>, stream: seq<byte>)
    requires |s.pending| <= EVAL_CAP
  {
    match a
    case Arrive(chunk) => IsPrefix(s.heard + chunk[..Accepts(s.pending, chunk)], stream)
    case Evaluate => true
    case EndFlush(status) => status >= 0
    case EndWait =>
      s.core.signals > 0 || (s.pc.AwaitAck? && s.pc.tries + RetriesLeft(s, total) < NUM_RETRY - 1)
    case Take => true
    case _ => false
  }

  predicate SmoothRun(s: Sys, steps: seq<Step>, total: seq<seq<byte>>, stream: seq<byte>)
    requires |s.pending| <= EVAL_CAP && |s.packet| == 3
    decreases |steps|
  {
    steps == [] || (Smooth(s, steps[0], total, stream) && SmoothRun(Next(s, steps[0]), steps[1..], total, stream))
  }

  predicate TriesOk(s: Sys, tries: nat, total: seq<seq<byte>>) {
    s.taken <= Retries(total) && tries + RetriesLeft(s, total) <= NUM_RETRY - 1
  }

  predicate OnCourse(s: Sys, total: seq<seq<byte>>) {
    && (!s.pc.Leave? ==> s.status == 0)
    && match s.pc
       case Flush(tries) => TriesOk(s, tries, total)
       case AwaitAck(tries) => TriesOk(s, tries, total)
       case TakeAck(tries) => TriesOk(s, tries, total)
       case Leave => Ended(s, total)
       case Idle => false
       case _ => true
  }

  // What the call has come to
  predicate Ended(s: Sys, total: seq<seq<byte>>) {
    if !Wants(s) then s.acked && s.status == 0
    else if Fitting(total, |s.given.data|) then s.replied && s.status == 0
    else s.acked && !s.replied && s.status == -EINVAL
  }

  ghost predicate Healthy(s: Sys, start: Core, fs: seq<seq<byte>>) {
    && Inv(s)
    && Shaped(start) && Fits(start) && Answering(start, fs, Wants(s))
    && (exists j: nat :: InStream(s, start, fs, j))
    && OnCourse(s, Outcome(start, fs))
  }

  // What has been accepted so far is the beginning of what will be.
  lemma AcceptedSoFar(s: Sys, start: Core, fs: seq<seq<byte>>)
    requires Healthy(s, start, fs)
    ensures var total := Outcome(start, fs);
      && s.core.accepted <= total && Retries(total) < |total| && Retries(total) <= 2
      && (Wants(s) ==> |total| == Retries(total) + 2)
      && |s.pending| <= EVAL_CAP && |s.packet| == 3
  {
    hide Shaped, Fits, LogOk, Heard, Counters, Expecting, AtPc, Concat, Fold, Retries, IsCommand, OnCourse;
    var j: nat :| InStream(s, start, fs, j);
    Midway(start, fs, j, Wants(s));
  }

  lemma InvAtPc(s: Sys)
    requires Inv(s) && !s.pc.Idle?
    ensures AtPc(s) && Shaped(s.core) && Expecting(s) && |s.packet| == 3
  {
    hide AtPc, Shaped, Expecting, LogOk, Heard, Counters;
  }

  // The next packet is a RETRY as long as RETRY packets are left, and then the ACK.
  lemma AckIsTaken(s: Sys, start: Core, fs: seq<seq<byte>>)
    requires Healthy(s, start, fs) && s.pc.TakeAck?
    ensures |s.packet| == 3 && OnCourse(DoTakeAck(s), Outcome(start, fs))
    ensures var t := DoTakeAck(s);
      || (t.pc.AwaitResponse? && Wants(s)) || (t.pc.Leave? && !Wants(s))
      || (t.pc.Flush? && t.taken == s.taken + 1 <= Retries(Outcome(start, fs)))
  {
    hide Inv, Answering, InStream, Shaped, Expecting, Retries, PacketBytes, FifoBytes, AllAsk, AllSentOk, Asked, IsRetry,
         IsAckFor, Overlay, Outcome;
    var total := Outcome(start, fs);
    AcceptedSoFar(s, start, fs);
    InvAtPc(s);
    ReadsHeader(s);
    NextIsRetryOrAck(s);
    RetriesMonotone(s.core.accepted, total);
    if s.taken == Retries(s.core.accepted) {
      RetriesStable(s.core.accepted, total);
    }
    TakeAckReads(s);
  }

  lemma TakeAckReads(s: Sys)
    requires s.pc.TakeAck? && |s.packet| == 3
    ensures var t := DoTakeAck(s);
      && t.taken == s.taken + 1 && t.packet == ReadPacket(s).packet
      && (t.packet[0] == TYPE_ACK ==>
            t.pc == (if Wants(s) then AwaitResponse else Leave) && t.status == s.status && t.acked)
      && Wants(t) == Wants(s)
      && (t.packet[0] != TYPE_ACK && s.pc.tries + 1 < NUM_RETRY ==> t.pc == Flush(s.pc.tries + 1) && t.status == s.status)
  {
    hide Overlay, FifoOut;
  }

  lemma HeaderIsTaken(s: Sys, start: Core, fs: seq<seq<byte>>)
    requires Healthy(s, start, fs) && s.pc.TakeHeader?
    ensures |s.packet| == 3 && OnCourse(DoTakeHeader(s), Outcome(start, fs))
    ensures DoTakeHeader(s).pc.TakePayload? || DoTakeHeader(s).pc.Leave?
    ensures DoTakeHeader(s).pc.TakePayload? <==> Fitting(Outcome(start, fs), |s.given.data|)
  {
    hide Inv, InStream, Shaped, Expecting, Retries, PacketBytes, FifoBytes, AllAsk, AllSentOk, Asked, IsCommand, Outcome;
    var total := Outcome(start, fs);
    AcceptedSoFar(s, start, fs);
    InvAtPc(s);
    ReadsHeader(s);
    NextIsResponse(s);
    RetriesStable(s.core.accepted, total);
    assert s.core.accepted == total;
    assert |Response(total)| >= 18 by { ResponseLength(total, s.start); }
  }

  lemma ResponseLength(accepted: seq<seq<byte>>, n: nat)
    requires Answers(accepted, n)
    ensures |Response(accepted)| >= 18
  {
  }

  // The payload is only read if it fits.
  lemma PayloadFits(s: Sys, start: Core, fs: seq<seq<byte>>)
    requires Healthy(s, start, fs) && (s.pc.TakePayload? || s.pc.FlushAck?)
    ensures Wants(s) && Fitting(Outcome(start, fs), |s.given.data|)
  {
    hide Inv, InStream, Shaped, Expecting, Retries, AllAsk, AllSentOk, Asked, IsCommand, Outcome;
    AcceptedSoFar(s, start, fs);
    InvAtPc(s);
    RetriesStable(s.core.accepted, Outcome(start, fs));
    ResponseLength(s.core.accepted, s.start);
  }

  lemma FlushOnCourse(s: Sys, status: int, total: seq<seq<byte>>)
    requires OnCourse(s, total) && status >= 0 && (s.pc.Flush? || s.pc.FlushAck?)
    requires s.pc.FlushAck? ==> Wants(s) && Fitting(total, |s.given.data|)
    ensures OnCourse(DoEndFlush(s, status), total)
  {
    hide Retries;
  }

  lemma WaitOnCourse(s: Sys, total: seq<seq<byte>>)
    requires OnCourse(s, total) && (s.pc.AwaitAck? || s.pc.AwaitResponse?)
    requires s.core.signals > 0 || (s.pc.AwaitAck? && s.pc.tries + RetriesLeft(s, total) < NUM_RETRY - 1)
    ensures OnCourse(DoEndWait(s), total)
  {
    hide Retries;
  }

  lemma StaysOnCourse(s: Sys, a: Step, start: Core, fs: seq<seq<byte>>)
    requires Healthy(s, start, fs) && |s.pending| <= EVAL_CAP && |s.packet| == 3
    requires Smooth(s, a, Outcome(start, fs), Concat(fs))
    ensures OnCourse(Next(s, a), Outcome(start, fs))
  {
    hide Inv, InStream, Answering, Outcome, Shaped, Fits, Retries, EvalBuf,
         DoEndFlush, DoEndWait, DoTakeAck, DoTakeHeader, DoReturn, DoBegin;
    match a
    case Arrive(chunk) =>
      if !s.receiving {
        NextReceives(s, chunk);
      }
    case Evaluate =>
      if s.receiving {
        NextEvaluates(s);
      }
    case EndFlush(status) =>
      if s.pc.Flush? || s.pc.FlushAck? {
        if s.pc.FlushAck? {
          PayloadFits(s, start, fs);
        }
        FlushOnCourse(s, status, Outcome(start, fs));
      }
    case EndWait =>
      if s.pc.AwaitAck? || s.pc.AwaitResponse? {
        WaitOnCourse(s, Outcome(start, fs));
      }
    case Take =>
      if s.pc.TakeAck? {
        AckIsTaken(s, start, fs);
      } else if s.pc.TakeHeader? {
        HeaderIsTaken(s, start, fs);
      }
    case _ =>
  }

  lemma SmoothKeepsCall(s: Sys, a: Step, total: seq<seq<byte>>, stream: seq<byte>)
    requires |s.pending| <= EVAL_CAP && |s.packet| == 3 && Smooth(s, a, total, stream)
    ensures SameCall(s, Next(s, a))
  {
    hide DoEndFlush, DoEndWait, DoTakeAck, DoTakeHeader, DoTakePayload, EvalBuf;
    if a.EndFlush? || a.EndWait? || a.Take? {
      RequesterStays(s, a);
    }
  }

  lemma StaysInStream(s: Sys, a: Step, start: Core, fs: seq<seq<byte>>, j: nat) returns (k: nat)
    requires Inv(s) && |s.pending| <= EVAL_CAP && |s.packet| == 3
    requires Shaped(start) && Fits(start) && Answering(start, fs, Wants(s)) && InStream(s, start, fs, j)
    requires Smooth(s, a, Outcome(start, fs), Concat(fs))
    ensures InStream(Next(s, a), start, fs, k)
  {
    hide Inv, Shaped, Fits, Answering, InStream, DoArrive, DoEvaluate, Concat, Outcome;
    k := j;
    if a.Arrive? {
      if !s.receiving {
        NextReceives(s, a.chunk);
        ArriveInStream(s, a.chunk, start, fs, j);
      }
    } else if a.Evaluate? {
      if s.receiving {
        NextEvaluates(s);
        InvShaped(s);
        k := EvaluateInStream(s, start, fs, j, Wants(s));
      }
    } else {
      RequesterStays(s, a);
      SamePlaceInStream(s, Next(s, a), start, fs, j);
    }
  }

  lemma StepStaysHealthy(s: Sys, a: Step, start: Core, fs: seq<seq<byte>>)
    requires Healthy(s, start, fs) && |s.pending| <= EVAL_CAP && |s.packet| == 3
    requires Smooth(s, a, Outcome(start, fs), Concat(fs))
    ensures Healthy(Next(s, a), start, fs) && SameCall(s, Next(s, a))
  {
    hide Inv, InStream, Next, OnCourse, Shaped, Fits, Answering, Outcome, Smooth;
    StepKeeps(s, a);
    StaysOnCourse(s, a, start, fs);
    SmoothKeepsCall(s, a, Outcome(start, fs), Concat(fs));
    var j: nat :| InStream(s, start, fs, j);
    var k := StaysInStream(s, a, start, fs, j);
  }

  lemma {:induction false} RunStaysHealthy(s: Sys, steps: seq<Step>, start: Core, fs: seq<seq<byte>>)
    requires Healthy(s, start, fs) && |s.pending| <= EVAL_CAP && |s.packet| == 3
    requires SmoothRun(s, steps, Outcome(start, fs), Concat(fs))
    ensures Healthy(Run(s, steps), start, fs) && SameCall(s, Run(s, steps))
    decreases |steps|
  {
    hide Healthy, Next, Smooth, Outcome, Concat;
    if steps != [] {
      StepStaysHealthy(s, steps[0], start, fs);
      RunStaysHealthy(Next(s, steps[0]), steps[1..], start, fs);
    }
  }

  lemma BeginsHealthy(s: Sys, rqst: Request, wantsResult: bool, given: Buffer, fs: seq<seq<byte>>)
    requires Inv(s) && s.pc.Idle? && !s.receiving && |rqst.payload| <= MAX_RQST_PAYLOAD
    requires Answering(DoBegin(s, rqst, wantsResult, given).core, fs, rqst.snc && wantsResult)
    ensures Healthy(DoBegin(s, rqst, wantsResult, given), DoBegin(s, rqst, wantsResult, given).core, fs)
  {
    hide Inv, Answering, RequestFrame, Shaped, WireRqid;
    IdleBegins(s, rqst, wantsResult, given);
    var t := DoBegin(s, rqst, wantsResult, given);
    InvShaped(t);
    FewRetries(t.core, fs, rqst.snc && wantsResult);
    AtStart(t, fs);
  }

  lemma AtStart(t: Sys, fs: seq<seq<byte>>)
    requires t.heard == [] && t.pending == [] && AllDelimitable(fs)
    ensures InStream(t, t.core, fs, 0)
  {
    FramesFit(fs);
    assert fs[..0] == [];
  }

  lemma FewRetries(start: Core, fs: seq<seq<byte>>, wanted: bool)
    requires Answering(start, fs, wanted)
    ensures AllDelimitable(fs) && Retries(Outcome(start, fs)) <= NUM_RETRY - 1
  {
    hide Outcome;
  }

  // What is left of the call, once its end is reached
  lemma HealthyEnd(s: Sys, start: Core, fs: seq<seq<byte>>)
    requires Healthy(s, start, fs) && s.pc.Leave?
    ensures Succeeds(Summary(s), Outcome(start, fs))
  {
    hide Inv, InStream, Shaped, Fits, Retries, IsCommand, ControlFrame, Asked, AllAsk, AllSentOk, IsAckFor,
         IsResponseFor, AckHeard, Explained, Outcome;
    AcceptedSoFar(s, start, fs);
    InvAtPc(s);
    if Wants(s) && s.replied {
      assert Answers(s.core.accepted, s.start);
      RetriesStable(s.core.accepted, Outcome(start, fs));
    }
  }

  /**
   The call has succeeded: with the payload of the response, acknowledged last, if one was
   wanted; with an unchanged buffer if none was. A response too long for the buffer is
   refused.
   */
  predicate Succeeds(r: Record, total: seq<seq<byte>>) {
    && r.acked
    && if !(r.rqst.snc && r.wantsResult) then r.status == 0 && r.buffer == r.given
       else if Fitting(total, |r.given.data|) then
         var f := Response(total);
         && r.status == 0
         && r.buffer == Buffer(PayloadOf(f) + r.given.data[|PayloadOf(f)|..], (|f| - 18) % 0x100)
         && r.sent != [] && r.sent[|r.sent| - 1].frame == ControlFrame(0x40, f[5])
       else r.status == -22 && r.buffer == r.given
  }

  /**
   Intact calls succeed. From any run that leaves the engine idle: let the bytes received in
   the window of a call be a stream of delimitable frames from which the receiver accepts at
   most two RETRY frames, the ACK and, if the call wants one, a response. In whatever chunks
   they come and between whatever steps, if no write fails, the wait for the response does
   not time out, and time-outs and RETRY frames together leave an attempt, then the call can
   only end in success.
   */
  lemma IntactCallSucceeds(before: seq<Step>, rqst: Request, wantsResult: bool, given: Buffer, fs: seq<seq<byte>>,
                           steps: seq<Step>)
    requires Reach(before).pc.Idle? && !Reach(before).receiving && |rqst.payload| <= MAX_RQST_PAYLOAD
    requires var s := DoBegin(Reach(before), rqst, wantsResult, given);
      && Answering(s.core, fs, rqst.snc && wantsResult)
      && SmoothRun(s, steps, Outcome(s.core, fs), Concat(fs))
      && Run(s, steps).pc.Leave? && !Run(s, steps).receiving
    ensures var log := Reach(before + [Begin(rqst, wantsResult, given)] + steps + [Return]).log;
      && |log| == |Reach(before).log| + 1
      && var r := log[|log| - 1];
      && r.rqst == rqst && r.wantsResult == wantsResult && r.given == given && r.start == Reach(before).acks
      && Succeeds(r, Outcome(DoBegin(Reach(before), rqst, wantsResult, given).core, fs))
  {
    hide Inv, Run, SmoothRun, Healthy, Concat, ControlFrame, Outcome, Answering, Succeeds;
    var i := Reach(before);
    ReachIsInv(before);
    IdleBegins(i, rqst, wantsResult, given);
    var s := DoBegin(i, rqst, wantsResult, given);
    BeginsHealthy(i, rqst, wantsResult, given, fs);
    RunStaysHealthy(s, steps, s.core, fs);
    var e := Run(s, steps);
    HealthyEnd(e, s.core, fs);
    RunSplit(INIT, before + [Begin(rqst, wantsResult, given)] + steps, [Return]);
    RunSplit(INIT, before + [Begin(rqst, wantsResult, given)], steps);
    RunSplit(INIT, before, [Begin(rqst, wantsResult, given)]);
    RunOne(i, Begin(rqst, wantsResult, given));
    RunOne(e, Return);
  }

  // And they do end

  // The requester's own next step
  function Turn(s: Sys): Step {
    match s.pc
    case Flush(_) => EndFlush(0)
    case FlushAck => EndFlush(0)
    case AwaitAck(_) => EndWait
    case AwaitResponse => EndWait
    case _ => Take
  }

  function StepsLeft(s: Sys, total: seq<seq<byte>>): nat {
    3 * RetriesLeft(s, total)
    + match s.pc
      case Flush(_) => 7
      case AwaitAck(_) => 6
      case TakeAck(_) => 5
      case AwaitResponse => 4
      case TakeHeader => 3
      case TakePayload => 2
      case FlushAck => 1
      case _ => 0
  }

  // Once the whole stream has been evaluated, all that will be accepted has been.
  lemma AllAccepted(s: Sys, start: Core, fs: seq<seq<byte>>)
    requires Healthy(s, start, fs) && s.heard == Concat(fs) && !s.receiving
    ensures s.core.accepted == Outcome(start, fs)
  {
    hide Shaped, Fits, LogOk, Heard, Counters, Expecting, AtPc, Concat, Fold, Retries, IsCommand, OnCourse, Delimitable;
    var j: nat :| InStream(s, start, fs, j);
    StreamAt(fs, j);
    Midway(start, fs, j, Wants(s));
  }

  /** Then a wait has its completion. */
  lemma NoTimeout(s: Sys, start: Core, fs: seq<seq<byte>>)
    requires Healthy(s, start, fs) && s.heard == Concat(fs) && !s.receiving
    requires s.pc.AwaitAck? || s.pc.AwaitResponse?
    ensures s.core.signals > 0
  {
    hide Shaped, Fits, LogOk, Heard, Counters, Expecting, InStream, Retries, IsCommand, FifoBytes, AllAsk, AllSentOk, Asked, Outcome;
    AcceptedSoFar(s, start, fs);
    AllAccepted(s, start, fs);
    BacklogBeforePayload(s);
  }

  lemma TurnAdvances(s: Sys, start: Core, fs: seq<seq<byte>>)
    requires Healthy(s, start, fs) && s.heard == Concat(fs) && !s.receiving && !s.pc.Leave?
    requires |s.pending| <= EVAL_CAP && |s.packet| == 3
    ensures Smooth(s, Turn(s), Outcome(start, fs), Concat(fs))
    ensures var t := Next(s, Turn(s));
      t.heard == s.heard && !t.receiving && StepsLeft(t, Outcome(start, fs)) < StepsLeft(s, Outcome(start, fs))
  {
    hide Inv, InStream, Answering, Outcome, Shaped, Fits, Retries, ReadPacket, DoTakeAck, DoTakeHeader, DoReturn, DoBegin;
    RequesterStays(s, Turn(s));
    if s.pc.AwaitAck? || s.pc.AwaitResponse? {
      NoTimeout(s, start, fs);
    } else if s.pc.TakeAck? {
      AckIsTaken(s, start, fs);
      TakeAckReads(s);
    } else if s.pc.TakeHeader? {
      HeaderIsTaken(s, start, fs);
      TakeHeaderReads(s);
    }
  }

  lemma TakeHeaderReads(s: Sys)
    requires |s.packet| == 3
    ensures DoTakeHeader(s).taken == s.taken + 1
  {
    hide Overlay, FifoOut;
  }

  lemma HealthyBounds(s: Sys, start: Core, fs: seq<seq<byte>>)
    requires Healthy(s, start, fs)
    ensures |s.pending| <= EVAL_CAP && |s.packet| == 3 && AllDelimitable(fs)
    ensures exists j: nat :: InStream(s, start, fs, j)
  {
    hide InStream, Inv, Shaped, Fits, OnCourse, Retries, IsCommand;
    InvBounds(s);
  }

  /** When the stream has been evaluated, the requester's own steps, at most 13, bring the call to its end. */
  lemma {:induction false} IntactCallEnds(s: Sys, start: Core, fs: seq<seq<byte>>) returns (rest: seq<Step>)
    requires Healthy(s, start, fs) && s.heard == Concat(fs) && !s.receiving
    ensures |s.pending| <= EVAL_CAP && |s.packet| == 3
    ensures |rest| <= StepsLeft(s, Outcome(start, fs))
    ensures SmoothRun(s, rest, Outcome(start, fs), Concat(fs))
    ensures Run(s, rest).pc.Leave? && !Run(s, rest).receiving
    decreases StepsLeft(s, Outcome(start, fs))
  {
    hide Healthy, Next, Smooth, Concat, StepsLeft, Turn, Outcome;
    HealthyBounds(s, start, fs);
    if s.pc.Leave? {
      rest := [];
    } else {
      TurnAdvances(s, start, fs);
      StepStaysHealthy(s, Turn(s), start, fs);
      var more := IntactCallEnds(Next(s, Turn(s)), start, fs);
      rest := [Turn(s)] + more;
      assert rest[1..] == more;
    }
  }

  /** Between two receive calls, every chunk that continues the stream is taken at least in part. */
  lemma StreamArrives(s: Sys, start: Core, fs: seq<seq<byte>>, chunk: seq<byte>)
    requires Healthy(s, start, fs) && |s.pending| <= EVAL_CAP && !s.receiving
    requires chunk != [] && IsPrefix(s.heard + chunk, Concat(fs))
    ensures Smooth(s, Arrive(chunk), Outcome(start, fs), Concat(fs))
    ensures |DoArrive(s, chunk).heard| > |s.heard|
  {
    hide Inv, Shaped, Fits, Concat, Fold, OnCourse, Alike, Retries, IsCommand;
    var j: nat :| InStream(s, start, fs, j);
    StreamAt(fs, j);
    FramesFit(fs);
    assert |s.pending| < EVAL_CAP;
    assert s.heard + chunk[..Accepts(s.pending, chunk)] == (s.heard + chunk)[..|s.heard| + Accepts(s.pending, chunk)];
  }

  lemma HealthyHears(s: Sys, start: Core, fs: seq<seq<byte>>)
    requires Healthy(s, start, fs)
    ensures IsPrefix(s.heard, Concat(fs))
  {
    hide Inv, Shaped, Fits, Answering, Fold, Concat, OnCourse;
  }

  // The rest of the stream arrives and is evaluated.
  lemma {:induction false} RestArrives(s: Sys, start: Core, fs: seq<seq<byte>>) returns (steps: seq<Step>)
    requires Healthy(s, start, fs)
    ensures |s.pending| <= EVAL_CAP && |s.packet| == 3
    ensures SmoothRun(s, steps, Outcome(start, fs), Concat(fs))
    ensures Run(s, steps).heard == Concat(fs) && !Run(s, steps).receiving
    decreases |Concat(fs)| - |s.heard|, |s.pending|, s.receiving
  {
    hide Healthy, Next, Concat, Outcome, EvalBuf;
    HealthyBounds(s, start, fs);
    HealthyHears(s, start, fs);
    if s.heard == Concat(fs) && !s.receiving {
      steps := [];
    } else {
      var a := Step.Evaluate;
      if s.receiving {
        NextEvaluates(s);
      } else {
        var chunk := Concat(fs)[|s.heard|..];
        a := Arrive(chunk);
        assert s.heard + chunk == Concat(fs);
        StreamArrives(s, start, fs, chunk);
        NextReceives(s, chunk);
      }
      StepStaysHealthy(s, a, start, fs);
      HealthyHears(Next(s, a), start, fs);
      var more := RestArrives(Next(s, a), start, fs);
      steps := [a] + more;
      assert steps[1..] == more;
    }
  }

  lemma {:induction false} SmoothSplit(s: Sys, a: seq<Step>, b: seq<Step>, total: seq<seq<byte>>, stream: seq<byte>)
    requires |s.pending| <= EVAL_CAP && |s.packet| == 3
    requires SmoothRun(s, a, total, stream) && SmoothRun(Run(s, a), b, total, stream)
    ensures SmoothRun(s, a + b, total, stream)
    decreases |a|
  {
    hide Next, Smooth;
    if a == [] {
      assert a + b == b;
    } else {
      assert (a + b)[1..] == a[1..] + b;
      SmoothSplit(Next(s, a[0]), a[1..], b, total, stream);
    }
  }

  /** So from every run that leaves the engine idle, and for every such stream, there is one in which the call succeeds. */
  lemma IntactCallHappens(before: seq<Step>, rqst: Request, wantsResult: bool, given: Buffer, fs: seq<seq<byte>>)
    returns (steps: seq<Step>)
    requires Reach(before).pc.Idle? && !Reach(before).receiving && |rqst.payload| <= MAX_RQST_PAYLOAD
    requires Answering(DoBegin(Reach(before), rqst, wantsResult, given).core, fs, rqst.snc && wantsResult)
    ensures var s := DoBegin(Reach(before), rqst, wantsResult, given);
      && SmoothRun(s, steps, Outcome(s.core, fs), Concat(fs))
      && Run(s, steps).pc.Leave? && !Run(s, steps).receiving
  {
    hide Inv, Run, SmoothRun, Healthy, Concat, Outcome;
    var i := Reach(before);
    ReachIsInv(before);
    IdleBegins(i, rqst, wantsResult, given);
    var s := DoBegin(i, rqst, wantsResult, given);
    BeginsHealthy(i, rqst, wantsResult, given, fs);
    var first := RestArrives(s, s.core, fs);
    RunStaysHealthy(s, first, s.core, fs);
    var second := IntactCallEnds(Run(s, first), s.core, fs);
    steps := first + second;
    SmoothSplit(s, first, second, Outcome(s.core, fs), Concat(fs));
    RunSplit(s, first, second);
  }

  // Streams that answer

  // n RETRY frames, the ACK, a notification behind it, and the response
  function Reply(n: nat, q: byte, seqno: byte, e: Cmd, m: Cmd): seq<seq<byte>>
    requires |e.payload| <= MAX_RQST_PAYLOAD && |m.payload| <= MAX_RQST_PAYLOAD
  {
    Delayed(n, q, seqno) + [CommandFrame(q, e), CommandFrame(q, m)]
  }

  lemma {:induction false} RetriesOfReply(n: nat, q: byte, more: seq<seq<byte>>)
    requires more != [] && !IsRetry(more[0])
    ensures var fs := Repeat(ControlFrame(TYPE_RETRY, q), n) + more;
      Retries(fs) == n && |fs| == n + |more| && fs[n..] == more
    decreases n
  {
    hide ControlFrame, IsControl;
    if n == 0 {
      assert [] + more == more;
    } else {
      var f := ControlFrame(TYPE_RETRY, q);
      ControlRoundTrip(TYPE_RETRY, q);
      var rest := Repeat(f, n - 1) + more;
      assert Repeat(f, n) + more == [f] + rest;
      assert ([f] + rest)[1..] == rest;
      RetriesOfReply(n - 1, q, more);
    }
  }

  lemma AckIsNoRetry(seqno: byte)
    ensures !IsRetry(ControlFrame(TYPE_ACK, seqno))
  {
    hide ControlFrame;
    ControlRoundTrip(TYPE_ACK, seqno);
  }

  // The notification and the response, behind the ACK
  lemma ReplyFold(c: Core, q: byte, e: Cmd, m: Cmd)
    requires c.mode == Command && c.expectRqid == m.rqid && !RqidIsEvent(m.rqid) && RqidIsEvent(e.rqid)
    requires |e.payload| <= MAX_RQST_PAYLOAD && |m.payload| <= MAX_RQST_PAYLOAD && FifoAvail(c) >= 3 + |m.payload|
    ensures Fold(c, [CommandFrame(q, e), CommandFrame(q, m)]).accepted == c.accepted + [CommandFrame(q, m)]
  {
    hide EvalBuf, CommandFrame;
    var f, g := CommandFrame(q, e), CommandFrame(q, m);
    assert f + [] == f && g + [] == g;
    CommandIsReceived(c, q, e, []);
    CommandIsReceived(EvalBuf(c, f).core, q, m, []);
    OneFrame(c, f);
    OneFrame(EvalBuf(c, f).core, g);
    FoldSplit(c, [f], [g]);
    assert [f] + [g] == [f, g];
  }

  lemma CommandDelimits(q: byte, m: Cmd)
    requires |m.payload| <= MAX_RQST_PAYLOAD
    ensures var f := CommandFrame(q, m);
      Delimitable(f) && IsCommand(f) && |f| == 18 + |m.payload| && PayloadOf(f) == m.payload
  {
    hide CommandFrame, IsCommand;
    CommandRoundTrip(q, m);
    CommandLengths(q, m);
  }

  /** Such streams answer, for every request; the response that counts is the one in them. */
  lemma ReplyAnswers(c: Core, n: nat, q: byte, e: Cmd, m: Cmd)
    requires c.mode == Control && c.expectPld && c.fifo == [] && c.accepted == []
    requires n <= NUM_RETRY - 1 && m.rqid == c.expectRqid && !RqidIsEvent(m.rqid) && RqidIsEvent(e.rqid)
    requires |e.payload| <= MAX_RQST_PAYLOAD && |m.payload| <= MAX_RQST_PAYLOAD
    ensures var fs := Reply(n, q, c.expectSeq, e, m);
      && Answering(c, fs, true) && Response(Outcome(c, fs)) == CommandFrame(q, m)
      && Retries(Outcome(c, fs)) == n < |Outcome(c, fs)|
  {
    hide CommandFrame, ControlFrame, IsCommand, IsRetry, Fold, Delimitable, AllRoom;
    var pre, post := Delayed(n, q, c.expectSeq), [CommandFrame(q, e), CommandFrame(q, m)];
    DelayedFold(c, n, q);
    FoldSplit(c, pre, post);
    ReplyFold(Fold(c, pre), q, e, m);
    CommandDelimits(q, e);
    CommandDelimits(q, m);
    var tail := [ControlFrame(TYPE_ACK, c.expectSeq), CommandFrame(q, m)];
    AckIsNoRetry(c.expectSeq);
    RetriesOfReply(n, q, tail);
    var total := Outcome(c, pre + post);
    assert total == Repeat(ControlFrame(TYPE_RETRY, q), n) + tail;
    assert Response(total) == tail[1];
  }
}
