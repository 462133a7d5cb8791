/**
 The request engine as the driver runs it. What comes from outside is a parameter: the
 chunks that arrive before each of its steps, and the serial device's answer to each write.
 It takes exactly the steps of the transition system that its script says. (Here a receive
 call runs between two steps of the requester; in the transition system they may overlap.)
 */
module SerialHub {
  import opened Bytes
  import opened Frames
  import opened Receiver
  import opened SerialReceiver
  import opened SerialWriter
  import opened Protocol
  import opened RequestInvariant
  import opened RequestSteps
  import opened RequestTheorems
  import opened Script
  import opened ScriptOutcomes
  import opened Evaluation
  import opened CrowdedRuns

  class SamSshEc {
    const receiver: SshReceiver
    const writer: SshWriter
    var seqno: byte
    var rqid: u16
    ghost var sys: Sys
    ghost var trace: seq<Step>

    ghost predicate Valid()
      reads this, receiver, receiver.buf, writer, writer.data
    {
      && receiver.Valid() && writer.Valid() && receiver.buf != writer.data
      && sys == Reach(trace)
      && sys.core == receiver.State() && sys.pending == receiver.Pending()
      && sys.seqno == seqno && sys.rqid == rqid
      && |sys.pending| <= EVAL_CAP && |sys.packet| == 3 && !sys.receiving
    }

    constructor ()
      ensures Valid() && fresh(receiver) && fresh(writer) && fresh(receiver.buf) && fresh(writer.data)
      ensures trace == [] && sys.pc.Idle? && sys.log == []
    {
      receiver := new SshReceiver();
      writer := new SshWriter();
      seqno, rqid := 0, 0;
      sys, trace := INIT, [];
    }

    lemma IdleIsProper()
      requires Valid() && sys.pc.Idle?
      ensures Proper(sys) && sys == Reach(trace)
    {
      hide Reach;
    }

    ghost method Advance(a: Step)
      requires sys == Reach(trace)
      modifies this`sys, this`trace
      ensures sys == Reach(trace) && trace == old(trace) + [a]
      ensures |sys.pending| <= EVAL_CAP && |sys.packet| == 3
      ensures |old(sys).pending| <= EVAL_CAP && |old(sys).packet| == 3 && sys == Next(old(sys), a)
    {
      hide Next, Inv;
      ReachIsInv(trace);
      InvBounds(sys);
      RunOneMore(INIT, trace, a);
      sys := Next(sys, a);
      trace := trace + [a];
    }

    // The rest of a receive call, one message after the other
    ghost method FinishReceive()
      requires sys == Reach(trace) && sys.receiving && |sys.pending| <= EVAL_CAP && |sys.packet| == 3
      modifies this`sys, this`trace
      ensures sys == Reach(trace) && sys == Evaluated(old(sys)) && trace == old(trace) + EvalSteps(old(sys))
      decreases |sys.pending|
    {
      hide Reach, Next, Evaluated, EvalSteps;
      ghost var s := sys;
      Advance(Step.Evaluate);
      EvaluatesOn(s);
      if sys.receiving {
        FinishReceive();
      }
    }

    // The receive callback runs once.
    method InterruptOnce(chunk: seq<byte>)
      requires Valid()
      modifies this`sys, this`trace, receiver, receiver.buf
      ensures Valid() && writer.Written() == old(writer.Written())
      ensures |old(sys).pending| <= EVAL_CAP && |old(sys).packet| == 3
      ensures sys == Received(old(sys), chunk) && trace == old(trace) + ReceiveSteps(old(sys), chunk)
      ensures !old(sys).receiving && !sys.receiving && |sys.pending| <= EVAL_CAP && |sys.packet| == 3
      ensures (receiver.State(), receiver.Pending()) == Receiver.ReceiveBuf(old(receiver.State()), old(receiver.Pending()), chunk)
    {
      hide Reach, Next, DoArrive, Evaluated, EvalSteps, ReceiveBuf;
      ghost var s := sys;
      var used := receiver.ReceiveBuf(chunk);
      Advance(Step.Arrive(chunk));
      NextReceives(s, chunk);
      ArriveReceives(s, chunk);
      FinishReceive();
      assert sys == Received(s, chunk);
    }

    /** The receive callback runs once for each chunk. */
    method Interrupt(chunks: seq<seq<byte>>)
      requires Valid()
      modifies this`sys, this`trace, receiver, receiver.buf
      ensures Valid() && OnlyHeard(old(sys), sys)
      ensures writer.Written() == old(writer.Written())
      ensures |old(sys).pending| <= EVAL_CAP && |old(sys).packet| == 3 && !old(sys).receiving
      ensures sys == Fed(old(sys), chunks) && trace == old(trace) + ChunkSteps(old(sys), chunks)
      ensures (receiver.State(), receiver.Pending()) == ReceiveAll(old(receiver.State()), old(receiver.Pending()), chunks)
      decreases |chunks|
    {
      hide Reach, Received, ReceiveSteps, ReceiveBuf, Fed, ChunkSteps;
      ghost var s, done := sys, trace;
      if chunks == [] {
        FedNothing(s);
      } else {
        FedFirst(s, chunks);
        InterruptOnce(chunks[0]);
        ghost var first := ReceiveSteps(s, chunks[0]);
        Interrupt(chunks[1..]);
        assert done + first + ChunkSteps(Received(s, chunks[0]), chunks[1..])
            == done + (first + ChunkSteps(Received(s, chunks[0]), chunks[1..]));
      }
    }

    method Flush(answer: int) returns (status: int)
      requires Valid() && (sys.pc.Flush? || sys.pc.FlushAck?) && sys.written == writer.Written()
      modifies this`sys, this`trace
      ensures Valid() && sys == DoEndFlush(old(sys), answer) && status == sys.status
      ensures trace == old(trace) + [EndFlush(answer)]
    {
      hide Reach;
      status := if answer >= 0 then 0 else answer;
      Advance(EndFlush(answer));
    }

    method WaitForCompletion() returns (done: bool)
      requires Valid() && (sys.pc.AwaitAck? || sys.pc.AwaitResponse?)
      modifies this`sys, this`trace, receiver`signals
      ensures Valid() && sys == DoEndWait(old(sys)) && done == (old(sys).core.signals > 0)
      ensures trace == old(trace) + [EndWait]
    {
      hide Reach;
      done := receiver.signals > 0;
      if done {
        receiver.signals := receiver.signals - 1;
      }
      Advance(EndWait);
    }

    // Reads the next packet header over the one before; on an ACK the counters advance.
    method ReadAck(packet: seq<byte>) returns (p: seq<byte>, acked: bool)
      requires Valid() && |packet| == 3 && packet == sys.packet && sys.pc.TakeAck?
      modifies this, receiver`fifo
      ensures Valid() && |old(sys).packet| == 3 && sys == DoTakeAck(old(sys))
      ensures p == sys.packet == ReadPacket(old(sys)).packet && acked == (p[0] == TYPE_ACK)
      ensures trace == old(trace) + [Take]
    {
      hide Reach, DoTakeAck;
      TakeAckEffect(sys);
      var out := receiver.FifoOut(3);
      Advance(Step.Take);
      p := Overlay(packet, out);
      acked := p[0] == TYPE_ACK;
      if acked {
        seqno := (seqno + 1) % 0x100;
        rqid := (rqid + 1) % 0x1_0000;
      }
    }

    method ReadHeader(packet: seq<byte>) returns (p: seq<byte>)
      requires Valid() && packet == sys.packet && sys.pc.TakeHeader?
      modifies this`trace, this`sys, receiver`fifo
      ensures Valid() && |old(sys).packet| == 3 && sys == DoTakeHeader(old(sys))
      ensures p == sys.packet == ReadPacket(old(sys)).packet
      ensures trace == old(trace) + [Take]
    {
      hide Reach;
      var out := receiver.FifoOut(3);
      Advance(Step.Take);
      p := Overlay(packet, out);
    }

    // Reads the payload into the caller's buffer and prepares its acknowledgement.
    method ReadPayload(data: array<byte>, p: seq<byte>)
      requires Valid() && p == sys.packet && sys.pc.TakePayload?
      requires |p| == 3 && p[2] <= data.Length
      requires data != receiver.buf && data != writer.data && sys.buffer.data == data[..]
      modifies this`trace, this`sys, receiver`fifo, writer, writer.data, data
      ensures Valid() && sys == DoTakePayload(old(sys))
      ensures sys.buffer == Buffer(data[..], p[2]) && sys.written == writer.Written()
      ensures trace == old(trace) + [Take]
    {
      hide Reach, ControlFrame;
      var out := receiver.FifoOut(p[2]);
      Advance(Step.Take);
      CopyTo(data, out);
      writer.WriteMsgAck(p[1]);
    }

    // Turns of the requester: what arrives before a step, and the step

    method FlushTurn(env: Env, slot: nat, ghost script: seq<Step>) returns (status: int)
      requires Valid() && (sys.pc.Flush? || sys.pc.FlushAck?) && sys.written == writer.Written()
      requires OnScript(script, trace, sys, env) && slot == Slot(sys.pc)
      modifies this`sys, this`trace, receiver, receiver.buf
      ensures Valid() && OnScript(script, trace, sys, env) && writer.Written() == old(writer.Written())
      ensures Flushed(old(sys), sys) && status == sys.status == (if env.answers(slot) >= 0 then 0 else env.answers(slot))
    {
      hide Reach, Valid, OnScript, Fed, ChunkSteps, ReceiveAll, DoEndFlush;
      ghost var s, done := sys, trace;
      assert Proper(s) by { OnScriptIsProper(script, done, s, env); }
      Interrupt(env.arrivals(slot));
      FlushFacts(sys, env.answers(slot));
      status := Flush(env.answers(slot));
      FlushTurned(script, done, s, sys, env);
    }

    method WaitTurn(env: Env, slot: nat, ghost script: seq<Step>) returns (signalled: bool)
      requires Valid() && (sys.pc.AwaitAck? || sys.pc.AwaitResponse?)
      requires OnScript(script, trace, sys, env) && slot == Slot(sys.pc)
      modifies this`sys, this`trace, receiver, receiver.buf
      ensures Valid() && OnScript(script, trace, sys, env) && writer.Written() == old(writer.Written())
      ensures Waited(old(sys), sys, signalled)
    {
      hide Reach, Valid, OnScript, Fed, ChunkSteps, ReceiveAll, DoEndWait;
      ghost var s, done := sys, trace;
      assert Proper(s) by { OnScriptIsProper(script, done, s, env); }
      Interrupt(env.arrivals(slot));
      WaitFacts(sys);
      signalled := WaitForCompletion();
      WaitTurned(script, done, s, sys, env);
    }

    method AckTurn(packet: seq<byte>, env: Env, slot: nat, ghost script: seq<Step>) returns (p: seq<byte>, acked: bool)
      requires Valid() && |packet| == 3 && packet == sys.packet && sys.pc.TakeAck?
      requires OnScript(script, trace, sys, env) && slot == Slot(sys.pc)
      modifies this, receiver, receiver.buf
      ensures Valid() && OnScript(script, trace, sys, env) && writer.Written() == old(writer.Written())
      ensures AckRead(old(sys), sys) && p == sys.packet && |p| == 3 && acked == (p[0] == TYPE_ACK)
    {
      hide Reach, Valid, OnScript, Fed, ChunkSteps, ReceiveAll, DoTakeAck, ReadPacket;
      ghost var s, done := sys, trace;
      assert Proper(s) by { OnScriptIsProper(script, done, s, env); }
      Interrupt(env.arrivals(slot));
      TakeAckFacts(sys);
      p, acked := ReadAck(packet);
      TakeTurned(script, done, s, sys, env);
    }

    method HeaderTurn(packet: seq<byte>, env: Env, slot: nat, ghost script: seq<Step>) returns (p: seq<byte>)
      requires Valid() && packet == sys.packet && sys.pc.TakeHeader?
      requires OnScript(script, trace, sys, env) && slot == Slot(sys.pc)
      modifies this`sys, this`trace, receiver, receiver.buf
      ensures Valid() && OnScript(script, trace, sys, env) && writer.Written() == old(writer.Written())
      ensures HeaderRead(old(sys), sys) && p == sys.packet && |p| == 3
    {
      hide Reach, Valid, OnScript, Fed, ChunkSteps, ReceiveAll, DoTakeHeader, ReadPacket;
      ghost var s, done := sys, trace;
      assert Proper(s) by { OnScriptIsProper(script, done, s, env); }
      Interrupt(env.arrivals(slot));
      TakeHeaderFacts(sys);
      p := ReadHeader(packet);
      TakeTurned(script, done, s, sys, env);
    }

    method PayloadTurn(data: array<byte>, p: seq<byte>, env: Env, slot: nat, ghost script: seq<Step>)
      requires Valid() && p == sys.packet && sys.pc.TakePayload?
      requires |p| == 3 && p[2] <= data.Length
      requires data != receiver.buf && data != writer.data && sys.buffer.data == data[..]
      requires OnScript(script, trace, sys, env) && slot == Slot(sys.pc)
      modifies this`sys, this`trace, receiver, receiver.buf, writer, writer.data, data
      ensures Valid() && OnScript(script, trace, sys, env)
      ensures SameCall(old(sys), sys) && sys.pc.FlushAck?
      ensures sys.buffer == Buffer(data[..], p[2]) && sys.written == writer.Written()
    {
      hide Reach, Valid, OnScript, Fed, ChunkSteps, ReceiveAll, DoTakePayload;
      ghost var s, done := sys, trace;
      assert Proper(s) by { OnScriptIsProper(script, done, s, env); }
      Interrupt(env.arrivals(slot));
      TakePayloadFacts(sys);
      ReadPayload(data, p);
      TakeTurned(script, done, s, sys, env);
    }

    // One transmission of the command, and the wait for its ACK.
    method TryOnce(tries: nat, packet: seq<byte>, env: Env, ghost script: seq<Step>)
      returns (status: int, acked: bool, p: seq<byte>)
      requires Valid() && sys.pc == Protocol.Flush(tries) && sys.written == writer.Written()
      requires |packet| == 3 && sys.packet == packet
      requires OnScript(script, trace, sys, env)
      modifies this, receiver, receiver.buf
      ensures Valid() && SameCall(old(sys), sys) && sys.buffer == old(sys).buffer && sys.written == old(sys).written
      ensures |sys.packet| == 3 && sys.packet == p
      ensures status != 0 ==> !acked && sys.pc.Leave? && sys.status == status
      ensures acked ==> sys.status == status && sys.pc == AfterAck(sys)
      ensures status == 0 && !acked ==> TriesAgain(sys, tries)
      ensures status == (if env.answers(3 * tries) >= 0 then 0 else env.answers(3 * tries))
      ensures OnScript(script, trace, sys, env)
    {
      hide Reach, Valid, OnScript;
      acked, p := false, packet;
      status := FlushTurn(env, 3 * tries, script);
      if status == 0 {
        acked, p := HearAck(tries, packet, env, script);
      }
    }

    // The wait for the ACK, and the reading of what has come.
    method HearAck(tries: nat, packet: seq<byte>, env: Env, ghost script: seq<Step>) returns (acked: bool, p: seq<byte>)
      requires Valid() && sys.pc == AwaitAck(tries) && |packet| == 3 && sys.packet == packet
      requires OnScript(script, trace, sys, env)
      modifies this, receiver, receiver.buf
      ensures Valid() && SameCall(old(sys), sys) && sys.buffer == old(sys).buffer && sys.written == old(sys).written
      ensures |sys.packet| == 3 && sys.packet == p
      ensures if acked then sys.pc == AfterAck(sys) && sys.status == old(sys).status else TriesAgain(sys, tries)
      ensures OnScript(script, trace, sys, env)
      ensures writer.Written() == old(writer.Written())
    {
      hide Reach, Valid, OnScript;
      acked, p := false, packet;
      var signalled := WaitTurn(env, 3 * tries + 1, script);
      if signalled {
        p, acked := AckTurn(packet, env, 3 * tries + 2, script);
      }
    }

    // Sends the command up to three times, until the ACK is read.
    method Ask(env: Env, ghost script: seq<Step>) returns (status: int, acked: bool, packet: seq<byte>)
      requires Valid() && sys.pc == Protocol.Flush(0)
      requires sys.written == writer.Written() && sys.packet == [0, 0, 0]
      requires OnScript(script, trace, sys, env)
      modifies this, receiver, receiver.buf
      ensures Valid() && SameCall(old(sys), sys) && sys.buffer == old(sys).buffer
      ensures sys.status == status && sys.packet == packet
      ensures sys.pc == if acked then AfterAck(sys) else Leave
      ensures env.answers(0) < 0 ==> !acked && status == env.answers(0)
      ensures OnScript(script, trace, sys, env)
    {
      hide Reach, OnScript;
      packet := [0, 0, 0];
      var tries := 0;
      while tries < NUM_RETRY
        invariant tries <= NUM_RETRY && Valid() && SameCall(old(sys), sys) && sys.buffer == old(sys).buffer
        invariant sys.written == writer.Written() && |packet| == 3 && sys.packet == packet
        invariant if tries < NUM_RETRY then sys.pc == Protocol.Flush(tries) else sys.pc.Leave? && sys.status == -EIO
        invariant OnScript(script, trace, sys, env)
        invariant tries > 0 ==> env.answers(0) >= 0
      {
        status, acked, packet := TryOnce(tries, packet, env, script);
        if status != 0 || acked {
          return;
        }
        tries := tries + 1;
      }
      return -EIO, false, packet;
    }

    // Waits for the response, reads it into the caller's buffer and acknowledges it.
    method FetchResponse(data: array<byte>, len: byte, packet: seq<byte>, env: Env, ghost script: seq<Step>)
      returns (status: int, newLen: byte)
      requires Valid() && sys.pc == AwaitResponse && sys.packet == packet
      requires data != receiver.buf && data != writer.data && sys.buffer == Buffer(data[..], len)
      requires OnScript(script, trace, sys, env)
      modifies this, receiver, receiver.buf, writer, writer.data, data
      ensures Valid() && SameCall(old(sys), sys)
      ensures sys.pc.Leave? && sys.status == status && sys.buffer == Buffer(data[..], newLen)
      ensures OnScript(script, trace, sys, env)
    {
      hide Reach, Valid, OnScript;
      newLen := len;
      var signalled := WaitTurn(env, 9, script);
      if !signalled {
        return -EIO, len;
      }
      var p := HeaderTurn(packet, env, 10, script);
      if data.Length < p[2] {
        return -EINVAL, len;
      }
      status, newLen := TakeResponse(data, p, env, script);
    }

    // Reads the payload and sends the acknowledgement.
    method TakeResponse(data: array<byte>, p: seq<byte>, env: Env, ghost script: seq<Step>)
      returns (status: int, newLen: byte)
      requires Valid() && p == sys.packet && sys.pc.TakePayload?
      requires |p| == 3 && p[2] <= data.Length
      requires data != receiver.buf && data != writer.data && sys.buffer.data == data[..]
      requires OnScript(script, trace, sys, env)
      modifies this, receiver, receiver.buf, writer, writer.data, data
      ensures Valid() && SameCall(old(sys), sys)
      ensures sys.pc.Leave? && sys.status == status && sys.buffer == Buffer(data[..], newLen)
      ensures OnScript(script, trace, sys, env)
    {
      hide Reach, Valid, OnScript, ControlFrame, Overlay;
      PayloadTurn(data, p, env, 11, script);
      newLen := p[2];
      status := FlushTurn(env, 12, script);
    }

    method OpenWindow(rqst: Request, wantsResult: bool, ghost given: Buffer)
      requires Valid() && sys.pc.Idle? && |rqst.payload| <= MAX_RQST_PAYLOAD
      modifies this`sys, this`trace, receiver, writer, writer.data
      ensures Valid() && sys == DoBegin(old(sys), rqst, wantsResult, given) && sys.written == writer.Written()
      ensures trace == old(trace) + [Begin(rqst, wantsResult, given)]
    {
      hide Reach, RequestFrame;
      writer.WriteMsgCmd(rqst, seqno, rqid);
      receiver.Restart(rqst.snc, seqno, RqidToRqst(rqid));
      Advance(Begin(rqst, wantsResult, given));
    }

    method CloseWindow()
      requires Valid() && sys.pc.Leave?
      modifies this`sys, this`trace, receiver
      ensures Valid() && sys == DoReturn(old(sys)) && trace == old(trace) + [Return]
    {
      hide Reach;
      receiver.DiscardAll();
      Advance(Return);
    }

    /**
     A request. Its record in the log is what all the theorems about finished calls speak of;
     and the steps it has taken are those of its script: the beginning of the call, what
     arrives before each step of the requester, this step, and the return.
     */
    method RqstUnlocked(rqst: Request, data: array?<byte>, len: byte, env: Env) returns (status: int, newLen: byte)
      requires Valid() && sys.pc.Idle?
      requires data != receiver.buf && data != writer.data
      modifies this, receiver, receiver.buf, writer, writer.data, data
      ensures Valid() && sys.pc.Idle?
      ensures |sys.log| == |old(sys).log| + 1 && old(sys).log < sys.log
      ensures var r := sys.log[|sys.log| - 1];
        && r.rqst == rqst && r.wantsResult == (data != null)
        && r.given == Buffer(old(if data == null then [] else data[..]), len)
        && r.status == status
        && r.buffer == Buffer(if data == null then [] else data[..], newLen)
      ensures var given := Buffer(old(if data == null then [] else data[..]), len);
        && Proper(DoBegin(old(sys), rqst, data != null, given))
        && trace == old(trace) + CallSteps(old(sys), rqst, data != null, given, env)
        && (|rqst.payload| <= 245 ==>
              SucceedsOnTime(old(sys), rqst, data != null, given, env, sys.log[|sys.log| - 1]))
      ensures |rqst.payload| <= 245 && env.answers(0) < 0 ==> status == env.answers(0)
    {
      hide Reach, RequestFrame, Valid, WindowSteps, SucceedsOnTime;
      newLen := len;
      IdleIsProper();
      ghost var s0, before := sys, trace;
      ghost var given := Buffer(if data == null then [] else data[..], len);
      if |rqst.payload| > MAX_RQST_PAYLOAD {
        BeginIsProper(sys, rqst, data != null, given);
        Refuse(rqst, data != null, given);
        return -EINVAL, len;
      }
      BeginIsProper(sys, rqst, data != null, given);
      OpenWindow(rqst, data != null, given);
      ghost var s := sys;
      ghost var script := trace + WindowSteps(s, env);
      status, newLen := Converse(rqst, data, len, env, script);
      CloseWindow();
      IdleIsProper();
      assert trace == before + CallSteps(s0, rqst, data != null, given, env);
      AnswersOnTime(before, rqst, data != null, given, env);
    }

    // What happens in the window
    method Converse(rqst: Request, data: array?<byte>, len: byte, env: Env, ghost script: seq<Step>)
      returns (status: int, newLen: byte)
      requires Valid() && sys.pc == Protocol.Flush(0) && sys.rqst == rqst
      requires sys.written == writer.Written() && sys.packet == [0, 0, 0]
      requires data != receiver.buf && data != writer.data && sys.wantsResult == (data != null)
      requires sys.buffer == Buffer(if data == null then [] else data[..], len)
      requires OnScript(script, trace, sys, env)
      modifies this, receiver, receiver.buf, writer, writer.data, data
      ensures Valid() && SameCall(old(sys), sys)
      ensures sys.pc.Leave? && sys.status == status
      ensures sys.buffer == Buffer(if data == null then [] else data[..], newLen)
      ensures trace == script
      ensures env.answers(0) < 0 ==> status == env.answers(0)
    {
      hide Reach, Valid;
      newLen := len;
      var acked, packet;
      status, acked, packet := Ask(env, script);
      if acked && rqst.snc && data != null {
        status, newLen := FetchResponse(data, len, packet, env, script);
      }
      Interrupt(env.arrivals(13));
    }

    ghost method Refuse(rqst: Request, wantsResult: bool, given: Buffer)
      requires Valid() && sys.pc.Idle? && |rqst.payload| > MAX_RQST_PAYLOAD
      modifies this`sys, this`trace
      ensures Valid() && sys == DoBegin(old(sys), rqst, wantsResult, given)
      ensures trace == old(trace) + [Begin(rqst, wantsResult, given)]
    {
      hide Reach;
      Advance(Begin(rqst, wantsResult, given));
    }
  }

  // What the requester's steps come to, for the method

  predicate SameBuffer(s: Sys, t: Sys) { SameCall(s, t) && t.buffer == s.buffer && t.written == s.written }

  predicate TriesAgain(t: Sys, tries: nat) {
    if tries + 1 < NUM_RETRY then t.pc == Protocol.Flush(tries + 1) else t.pc.Leave? && t.status == -EIO
  }

  predicate Flushed(s: Sys, t: Sys) {
    && SameBuffer(s, t) && t.packet == s.packet
    && t.pc == if s.pc.Flush? && t.status == 0 then AwaitAck(s.pc.tries) else Leave
  }

  predicate Waited(s: Sys, t: Sys, signalled: bool)
    requires s.pc.AwaitAck? || s.pc.AwaitResponse?
  {
    && SameBuffer(s, t) && t.packet == s.packet
    && if signalled then
         t.status == s.status && t.pc == if s.pc.AwaitAck? then Protocol.TakeAck(s.pc.tries) else Protocol.TakeHeader
       else if s.pc.AwaitAck? then TriesAgain(t, s.pc.tries)
       else t.pc.Leave? && t.status == -EIO
  }

  predicate AckRead(s: Sys, t: Sys)
    requires s.pc.TakeAck?
  {
    && SameBuffer(s, t) && |t.packet| == 3
    && if t.packet[0] == TYPE_ACK then t.pc == AfterAck(t) && t.status == s.status else TriesAgain(t, s.pc.tries)
  }

  predicate HeaderRead(s: Sys, t: Sys) {
    && SameBuffer(s, t) && |t.packet| == 3
    && if |t.buffer.data| < t.packet[2] then t.pc.Leave? && t.status == -EINVAL else t.pc.TakePayload?
  }

  lemma FlushFacts(s: Sys, answer: int)
    requires s.pc.Flush? || s.pc.FlushAck?
    ensures Flushed(s, DoEndFlush(s, answer))
    ensures DoEndFlush(s, answer).status == if answer >= 0 then 0 else answer
  {
  }

  lemma WaitFacts(s: Sys)
    requires s.pc.AwaitAck? || s.pc.AwaitResponse?
    ensures Waited(s, DoEndWait(s), s.core.signals > 0)
  {
  }

  lemma TakeAckFacts(s: Sys)
    requires s.pc.TakeAck? && |s.packet| == 3
    ensures AckRead(s, DoTakeAck(s))
  {
    hide Overlay, FifoOut;
  }

  lemma TakeHeaderFacts(s: Sys)
    requires |s.packet| == 3
    ensures HeaderRead(s, DoTakeHeader(s))
  {
    hide Overlay, FifoOut;
  }

  lemma TakePayloadFacts(s: Sys)
    requires |s.packet| == 3
    ensures SameCall(s, DoTakePayload(s)) && DoTakePayload(s).pc.FlushAck?
  {
    hide Overlay, FifoOut;
  }

  lemma TakeAckEffect(s: Sys)
    requires s.pc.TakeAck? && |s.packet| == 3
    ensures var t := DoTakeAck(s);
      var acked := t.packet[0] == TYPE_ACK;
      && t.packet == Overlay(s.packet, FifoOut(s.core.fifo, 3)) == ReadPacket(s).packet
      && t.core == s.core.(fifo := s.core.fifo[|FifoOut(s.core.fifo, 3)|..]) && t.pending == s.pending && t.receiving == s.receiving
      && t.seqno == (if acked then (s.seqno + 1) % 0x100 else s.seqno)
      && t.rqid == (if acked then (s.rqid + 1) % 0x1_0000 else s.rqid)
  {
    hide Overlay, FifoOut;
  }

  // Copies bytes over the front of an array.
  method CopyTo(dst: array<byte>, s: seq<byte>)
    requires |s| <= dst.Length
    modifies dst
    ensures dst[..] == s + old(dst[..])[|s|..]
  {
    var i := 0;
    while i < |s|
      invariant i <= |s|
      invariant forall j :: 0 <= j < i ==> dst[j] == s[j]
      invariant forall j :: i <= j < dst.Length ==> dst[j] == old(dst[j])
    {
      dst[i] := s[i];
      i := i + 1;
    }
  }

  function AfterAck(s: Sys): Pc { if s.rqst.snc && s.wantsResult then AwaitResponse else Leave }

  predicate OnlyHeard(s: Sys, t: Sys) {
    t == s.(core := t.core, pending := t.pending, heard := t.heard)
  }

  lemma {:induction false} RunOneMore(s: Sys, steps: seq<Step>, a: Step)
    requires |s.pending| <= EVAL_CAP && |s.packet| == 3
    ensures Run(s, steps + [a]) == Next(Run(s, steps), a)
    decreases |steps|
  {
    hide Next;
    if steps == [] {
      assert ([] + [a])[1..] == [];
    } else {
      assert (steps + [a])[1..] == steps[1..] + [a];
      RunOneMore(Next(s, steps[0]), steps[1..], a);
    }
  }
}
