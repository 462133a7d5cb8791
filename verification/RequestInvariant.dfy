/** What every step of the request engine keeps. */
module RequestInvariant {
  import opened Bytes
  import opened Frames
  import opened Receiver
  import opened SerialWriter
  import opened Window
  import opened Protocol

  // The id on the wire of the request that follows n acknowledged ones
  function WireSeq(n: nat): byte { n % 0x100 }

  function WireRqid(n: nat): u16 { RqidToRqst(n % 0x1_0000) }

  // What a call asks for
  function Asked(rqst: Request, start: nat): seq<byte>
    requires |rqst.payload| <= MAX_RQST_PAYLOAD
  {
    RequestFrame(rqst, WireSeq(start), start % 0x1_0000)
  }

  predicate AllSentOk(sent: seq<Sent>) { forall x <- sent :: x.status == 0 }

  predicate AllAsk(sent: seq<Sent>, rqst: Request, start: nat) {
    && |rqst.payload| <= MAX_RQST_PAYLOAD
    && forall x <- sent :: x.frame == Asked(rqst, start)
  }

  function Response(accepted: seq<seq<byte>>): seq<byte>
    requires accepted != []
  {
    accepted[|accepted| - 1]
  }

  // accepted is RETRY* ACK response for the request after n acknowledged ones.
  predicate Answers(accepted: seq<seq<byte>>, n: nat) {
    var k := Retries(accepted);
    && |accepted| == k + 2
    && IsAckFor(accepted[k], WireSeq(n))
    && IsResponseFor(Response(accepted), WireRqid(n))
  }

  // How the result buffer is filled by a response
  function Filled(given: Buffer, f: seq<byte>): Buffer
    requires IsCommand(f) && |f| <= 265 && |PayloadOf(f)| <= |given.data|
  {
    Buffer(PayloadOf(f) + given.data[|PayloadOf(f)|..], |PayloadOf(f)|)
  }

  // The requests among what was sent
  function Requests(r: Record): seq<Sent>
    requires r.replied ==> r.sent != []
  {
    if r.replied then r.sent[..|r.sent| - 1] else r.sent
  }

  /** Between one and three transmissions, all of the same bytes; only the last one can have failed. */
  predicate Transmits(r: Record) {
    && r.sent != []
    && 1 <= |Requests(r)| <= NUM_RETRY
    && AllAsk(Requests(r), r.rqst, r.start)
    && AllSentOk(r.sent[..|r.sent| - 1])
    && r.sent[|r.sent| - 1].status <= 0
  }

  /** The response went into the result buffer and was acknowledged with its own sequence id. */
  predicate Replies(r: Record) {
    && r.rqst.snc && r.wantsResult && r.acked
    && Answers(r.accepted, r.start)
    && var f := Response(r.accepted);
    && |PayloadOf(f)| <= |r.given.data|
    && r.buffer == Filled(r.given, f)
    && r.sent != [] && r.sent[|r.sent| - 1].frame == ControlFrame(TYPE_ACK, f[5])
  }

  /** Why the call returned what it returned. */
  predicate Explained(r: Record)
    requires r.sent != []
  {
    var last := r.sent[|r.sent| - 1].status;
    if last != 0 then r.status == last
    else if !r.acked then r.status == -EIO && |r.sent| == NUM_RETRY
    else if r.replied || !(r.rqst.snc && r.wantsResult) then r.status == 0
    else
      || r.status == -EIO
      || (r.status == -EINVAL && Answers(r.accepted, r.start)
          && |r.given.data| < |PayloadOf(Response(r.accepted))|)
  }

  predicate AckHeard(accepted: seq<seq<byte>>, n: nat) {
    var k := Retries(accepted);
    k < |accepted| && IsAckFor(accepted[k], WireSeq(n))
  }

  /** A call that got past the check of the payload size. (Each RETRY before the ACK has cost a transmission.) */
  predicate CallOk(r: Record) {
    && |r.rqst.payload| <= MAX_RQST_PAYLOAD
    && (r.replied ==> Replies(r))
    && (!r.replied ==> r.buffer == r.given)
    && Transmits(r)
    && (r.acked ==> AckHeard(r.accepted, r.start))
    && (r.acked ==> Retries(r.accepted) < |Requests(r)|)
    && Explained(r)
  }

  /** A call that did not. */
  predicate Rejected(r: Record) {
    && |r.rqst.payload| > MAX_RQST_PAYLOAD && r.status == -EINVAL
    && r.sent == [] && !r.acked && !r.replied && r.buffer == r.given
  }

  ghost predicate RecordOk(r: Record) {
    && (CallOk(r) || Rejected(r))
    && forall f <- r.accepted :: OccursIn(f, r.heard)
  }

  function AcksIn(log: seq<Record>): nat {
    if log == [] then 0 else AcksIn(log[..|log| - 1]) + (if log[|log| - 1].acked then 1 else 0)
  }

  // The finished calls, each begun with the counters the ACKs before it have left
  ghost predicate LogOk(log: seq<Record>) {
    forall i :: 0 <= i < |log| ==> RecordOk(log[i]) && log[i].start == AcksIn(log[..i])
  }

  predicate Counters(s: Sys) {
    && s.seqno == s.acks % 0x100 && s.rqid == s.acks % 0x1_0000
    && s.acks == AcksIn(s.log) + (if !s.pc.Idle? && s.acked then 1 else 0)
  }

  predicate Expecting(s: Sys) {
    && |s.rqst.payload| <= MAX_RQST_PAYLOAD
    && s.core.expectPld == s.rqst.snc
    && s.core.expectSeq == WireSeq(s.start)
    && s.core.expectRqid == WireRqid(s.start)
    && s.start == AcksIn(s.log)
  }

  /** Completions match packets: each unread packet is in the FIFO whole and has its completion. */
  predicate Backlog(s: Sys) {
    && Packable(s.core.accepted)
    && s.taken <= |s.core.accepted|
    && s.core.fifo == FifoBytes(s.core.accepted[s.taken..])
    && s.core.signals + (if s.pc.TakeAck? || s.pc.TakeHeader? then 1 else 0) == |s.core.accepted| - s.taken
  }

  // Only RETRY packets have been read so far.
  predicate Asking(s: Sys, tries: nat, flushed: nat) {
    && Backlog(s)
    && s.taken <= Retries(s.core.accepted)
    && tries < NUM_RETRY
    && !s.acked && !s.replied && s.status == 0
    && |s.rqst.payload| <= MAX_RQST_PAYLOAD && s.written == Asked(s.rqst, s.start)
    && |s.sent| == tries + flushed && AllAsk(s.sent, s.rqst, s.start) && AllSentOk(s.sent)
    && s.buffer == s.given
  }

  // The ACK of this request has been read, and a response is wanted.
  predicate Answered(s: Sys) {
    && s.acked && !s.replied && s.status == 0
    && s.rqst.snc && s.wantsResult
    && Retries(s.core.accepted) < |s.core.accepted|
    && Retries(s.core.accepted) < |s.sent|
    && 1 <= |s.sent| <= NUM_RETRY && AllAsk(s.sent, s.rqst, s.start) && AllSentOk(s.sent)
  }

  predicate AwaitsResponse(s: Sys) {
    && Answered(s) && Backlog(s) && s.taken == Retries(s.core.accepted) + 1
    && s.buffer == s.given
  }

  // The header of the response has been read, its payload not yet.
  predicate HasHeader(s: Sys) {
    && Answered(s) && s.buffer == s.given
    && Answers(s.core.accepted, s.start)
    && var f := Response(s.core.accepted);
    && s.packet == [TYPE_CMD, f[5], |PayloadOf(f)|]
    && s.core.fifo == PayloadOf(f) && |PayloadOf(f)| <= |s.given.data|
  }

  predicate HasPayload(s: Sys) {
    && Answered(s)
    && Answers(s.core.accepted, s.start)
    && var f := Response(s.core.accepted);
    && |PayloadOf(f)| <= |s.given.data|
    && s.buffer == Filled(s.given, f)
    && s.written == ControlFrame(TYPE_ACK, f[5])
  }

  predicate AtPc(s: Sys) {
    match s.pc
    case Idle => s.core.mode == Discard && s.core.fifo == []
    case Flush(tries) => Asking(s, tries, 0) && s.taken <= tries    // each RETRY has cost an attempt
    case AwaitAck(tries) => Asking(s, tries, 1) && s.taken <= tries
    case TakeAck(tries) => Asking(s, tries, 1) && s.taken <= tries
    case AwaitResponse => AwaitsResponse(s)
    case TakeHeader => AwaitsResponse(s)
    case TakePayload => HasHeader(s)
    case FlushAck => HasPayload(s)
    case Leave => CallOk(Summary(s))
  }

  ghost predicate Heard(s: Sys) {
    && |s.pending| <= |s.heard| && s.heard[|s.heard| - |s.pending|..] == s.pending
    && forall f <- s.core.accepted :: OccursIn(f, s.heard)
  }

  // What is in the FIFO was queued in this window.
  predicate Fits(c: Core) { Packable(c.accepted) && |c.fifo| <= |FifoBytes(c.accepted)| }

  ghost predicate Inv(s: Sys) {
    && Shaped(s.core) && Fits(s.core)
    && |s.pending| <= EVAL_CAP && |s.packet| == 3
    && Counters(s)
    && LogOk(s.log)
    && (!s.pc.Idle? ==> Expecting(s) && Heard(s))
    && AtPc(s)
  }
}
