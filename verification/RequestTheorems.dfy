/** What holds in every run of the request engine: any requests, bytes, chunks, timeouts and write errors. */
module RequestTheorems {
  import opened Bytes
  import opened Frames
  import opened Receiver
  import opened SerialWriter
  import opened Streams
  import opened RoundTrip
  import opened Window
  import opened FifoRoom
  import opened Protocol
  import opened RequestInvariant
  import opened RequestSteps

  function Reach(steps: seq<Step>): (s: Sys)
  {
    Run(INIT, steps)
  }

  lemma ReachIsInv(steps: seq<Step>)
    ensures Inv(Reach(steps))
  {
    hide Inv;
    InitKeeps();
    RunKeeps(INIT, steps);
  }

  // Completions and packets

  // How many packets the bytes consist of; -1 if the last one is not whole
  function CountPackets(b: seq<byte>): int {
    if b == [] then 0
    else if |b| < 3 || |b| - 3 < b[2] then -1
    else
      var n := CountPackets(b[b[2]..][3..]);
      if n < 0 then -1 else n + 1
  }

  lemma {:induction false} PacketsAreCounted(fs: seq<seq<byte>>)
    requires Packable(fs)
    ensures CountPackets(FifoBytes(fs)) == |fs|
  {
    hide PacketBytes;
    if fs != [] {
      var b := FifoBytes(fs);
      assert b[b[2]..][3..] == FifoBytes(fs[1..]);
      PacketsAreCounted(fs[1..]);
    }
  }

  // A completion that is taken while its packet is still unread
  function TakenCompletions(s: Sys): nat { if s.pc.TakeAck? || s.pc.TakeHeader? then 1 else 0 }

  predicate BeforePayload(s: Sys) {
    s.pc.Flush? || s.pc.AwaitAck? || s.pc.TakeAck? || s.pc.AwaitResponse? || s.pc.TakeHeader?
  }

  /**
   Completion assures a packet. Until the payload is read, the FIFO holds as many whole
   packets as there are completions, counting one that is taken; so no read of the FIFO
   falls short, although the code ignores the lengths returned.
   */
  lemma CompletionAssuresPacket(steps: seq<Step>)
    ensures var s := Reach(steps);
      && (BeforePayload(s) ==> CountPackets(s.core.fifo) == s.core.signals + TakenCompletions(s))
      && (s.pc.TakeAck? ==> |FifoOut(s.core.fifo, 3)| == 3)
      && (s.pc.TakeHeader? ==> |FifoOut(s.core.fifo, 3)| == 3 && s.core.fifo[0] == TYPE_CMD)
      && (s.pc.TakePayload? ==> |s.packet| == 3 && |FifoOut(s.core.fifo, s.packet[2])| == s.packet[2] == |s.core.fifo|)
      && (s.pc.Idle? ==> s.core.fifo == [] && s.core.mode == Discard)
  {
    hide Reach, Inv, FifoBytes, CountPackets;
    ReachIsInv(steps);
    var s := Reach(steps);
    if BeforePayload(s) {
      BacklogBeforePayload(s);
      PacketsAreCounted(s.core.accepted[s.taken..]);
    }
    ReadsAreWhole(s);
  }

  lemma BacklogBeforePayload(s: Sys)
    requires Inv(s) && BeforePayload(s)
    ensures Backlog(s)
    ensures Packable(s.core.accepted[s.taken..])
    ensures s.core.fifo == FifoBytes(s.core.accepted[s.taken..])
    ensures s.core.signals + TakenCompletions(s) == |s.core.accepted[s.taken..]|
  {
    hide Shaped, LogOk, Heard, RequestFrame, Retries, FifoBytes, AllAsk, AllSentOk, Counters;
  }

  lemma ReadsAreWhole(s: Sys)
    requires Inv(s)
    ensures s.pc.TakeAck? ==> |FifoOut(s.core.fifo, 3)| == 3
    ensures s.pc.TakeHeader? ==> |FifoOut(s.core.fifo, 3)| == 3 && s.core.fifo[0] == TYPE_CMD
    ensures s.pc.TakePayload? ==> |s.packet| == 3 && |FifoOut(s.core.fifo, s.packet[2])| == s.packet[2] == |s.core.fifo|
    ensures s.pc.Idle? ==> s.core.fifo == [] && s.core.mode == Discard
  {
    hide Shaped, LogOk, Heard, RequestFrame, Retries, FifoBytes, PacketBytes, AllAsk, AllSentOk, Counters, CallOk;
    if s.pc.TakeAck? {
      BacklogBeforePayload(s);
      ReadsHeader(s);
    } else if s.pc.TakeHeader? {
      BacklogBeforePayload(s);
      ReadsHeader(s);
      NextIsResponse(s);
      assert s.core.fifo[0] == PacketBytes(s.core.accepted[s.taken])[..3][0];
    }
  }

  /**
   Windows are separate. What can be read from the FIFO are packets of frames that were
   received, as contiguous bytes, after the restart of this very call.
   */
  lemma WindowsAreSeparate(steps: seq<Step>)
    ensures var s := Reach(steps);
      BeforePayload(s) ==>
        && s.taken <= |s.core.accepted| && Packable(s.core.accepted)
        && s.core.fifo == FifoBytes(s.core.accepted[s.taken..])
        && forall f <- s.core.accepted :: OccursIn(f, s.heard)
  {
    hide Shaped, LogOk, OccursIn, RequestFrame, Retries, FifoBytes, AllAsk, AllSentOk, Run, Summary;
    ReachIsInv(steps);
  }

  /** Within the budget of 87 accepted RETRY frames, no frame is dropped for want of room in any run. */
  lemma RunHasRoom(steps: seq<Step>, f: seq<byte>)
    requires |f| <= EVAL_CAP && Retries(Reach(steps).core.accepted) <= 87
    ensures var c := Reach(steps).core;
      Room(c, f) && (c.mode == Control ==> FifoAvail(c) >= 3)
  {
    hide Reach, Inv, Retries, FifoBytes, Room;
    ReachIsInv(steps);
    InvShaped(Reach(steps));
    BudgetGivesRoom(Reach(steps).core, f);
  }

  lemma InvShaped(s: Sys)
    requires Inv(s)
    ensures Shaped(s.core) && Fits(s.core)
  {
  }

  // Finished calls

  lemma LogIsOk(steps: seq<Step>, i: nat)
    requires i < |Reach(steps).log|
    ensures RecordOk(Reach(steps).log[i])
    ensures Reach(steps).log[i].start == AcksIn(Reach(steps).log[..i])
  {
    hide AtPc, RecordOk, Shaped, Heard, Run;
    ReachIsInv(steps);
  }

  /**
   End-to-end matching. If a call that wants a result succeeds, then its buffer holds
   exactly the payload of a frame with good checksums that carries the request id of this
   call; this frame was received in this call's window, behind an ACK with the sequence id
   of this call; and the last frame sent is an ACK for it.
   */
  lemma EndToEnd(steps: seq<Step>, i: nat)
    requires i < |Reach(steps).log|
    requires var r := Reach(steps).log[i]; r.status == 0 && r.rqst.snc && r.wantsResult
    ensures var r := Reach(steps).log[i];
      && r.accepted != [] && r.sent != []
      && var k := Retries(r.accepted);
      && var f := Response(r.accepted);
      && IsCommand(f) && RqidOf(f) == WireRqid(r.start) && OccursIn(f, r.heard)
      && r.buffer.len <= |r.buffer.data| && r.buffer.data[..r.buffer.len] == PayloadOf(f)
      && |r.buffer.data| == |r.given.data| && r.buffer.data[r.buffer.len..] == r.given.data[r.buffer.len..]
      && k + 2 == |r.accepted| && IsAckFor(r.accepted[k], WireSeq(r.start))
      && r.sent[|r.sent| - 1] == Sent(ControlFrame(TYPE_ACK, f[5]), 0)
      && r.start == AcksIn(Reach(steps).log[..i])
  {
    hide Reach, RequestFrame, ControlFrame, IsAckFor, IsCommand, OccursIn, Retries, AllAsk, AllSentOk;
    LogIsOk(steps, i);
    var r := Reach(steps).log[i];
    SuccessIsReplied(r);
    assert r.accepted[|r.accepted| - 1] in r.accepted;
    ResponseFits(r);
  }

  lemma SuccessIsReplied(r: Record)
    requires RecordOk(r) && r.status == 0
    ensures r.acked && r.sent != [] && r.sent[|r.sent| - 1].status == 0
    ensures r.rqst.snc && r.wantsResult ==> r.replied && Replies(r)
  {
    hide Replies, AllAsk, AllSentOk, RequestFrame, OccursIn, AckHeard, Answers;
  }

  lemma ResponseFits(r: Record)
    requires Replies(r)
    ensures var f := Response(r.accepted);
      && IsCommand(f) && RqidOf(f) == WireRqid(r.start)
      && r.buffer.data == PayloadOf(f) + r.given.data[|PayloadOf(f)|..] && r.buffer.len == |PayloadOf(f)|
  {
  }

  /**
   What a call leaves behind, whatever its outcome: at most three transmissions, all of the
   same bytes, and more of them than RETRY frames before the ACK; both counters advanced by one exactly if the ACK of this request was read,
   which is the case for every success; and a response overwrites the buffer only if it is
   acknowledged.
   */
  lemma CallDiscipline(steps: seq<Step>, i: nat)
    requires i < |Reach(steps).log|
    ensures var r := Reach(steps).log[i];
      && (r.replied ==> r.sent != [])
      && |Requests(r)| <= 3
      && (Requests(r) == [] <==> |r.rqst.payload| > 245)
      && (|r.rqst.payload| <= 245 ==>
            forall x <- Requests(r) :: x.frame == RequestFrame(r.rqst, WireSeq(r.start), r.start % 0x1_0000))
      && (r.status == 0 ==> r.acked)
      && (r.acked ==> AckHeard(r.accepted, r.start) && Retries(r.accepted) < |Requests(r)|)
      && (r.buffer != r.given ==> r.replied)
      && AcksIn(Reach(steps).log[..i + 1]) == r.start + (if r.acked then 1 else 0)
  {
    hide Reach, RequestFrame, OccursIn, AllSentOk, Replies, AckHeard, Answers;
    LogIsOk(steps, i);
    var r := Reach(steps).log[i];
    var log := Reach(steps).log;
    assert log[..i + 1][..i] == log[..i];
  }

  /**
   Why a call returned what it returned. Its status is -22 if the request is too long, or
   the response for the buffer; the error of the write that failed; -5 if the ACK has not
   come after three transmissions, or the response not in time; and 0 otherwise.
   */
  lemma StatusTells(steps: seq<Step>, i: nat)
    requires i < |Reach(steps).log|
    ensures var r := Reach(steps).log[i];
      if |r.rqst.payload| > 245 then r.status == -22 && r.sent == []
      else
        && r.sent != []
        && (forall x <- r.sent[..|r.sent| - 1] :: x.status == 0)
        && var last := r.sent[|r.sent| - 1].status;
        && if last != 0 then r.status == last < 0
           else if !r.acked then r.status == -5 && |r.sent| == 3
           else if !(r.rqst.snc && r.wantsResult) || r.replied then r.status == 0
           else
             || r.status == -5
             || (r.status == -22 && Answers(r.accepted, r.start)
                 && |r.given.data| < |PayloadOf(Response(r.accepted))|)
  {
    hide Reach, AllAsk, Replies, AckHeard, Answers, OccursIn, Asked, RequestFrame;
    LogIsOk(steps, i);
  }

  // Counters and ids

  /** The sequence id is always the request counter modulo 256, and the counters count the ACKs read. */
  lemma CountersCount(steps: seq<Step>)
    ensures var s := Reach(steps);
      && s.seqno == s.rqid % 0x100
      && s.rqid == s.acks % 0x1_0000
      && (s.pc.Idle? ==> s.acks == AcksIn(s.log))
  {
    hide Reach, Inv;
    ReachIsInv(steps);
    InvCounts(Reach(steps));
  }

  lemma InvCounts(s: Sys)
    requires Inv(s)
    ensures s.seqno == s.acks % 0x100 && s.rqid == s.acks % 0x1_0000
    ensures s.pc.Idle? ==> s.acks == AcksIn(s.log)
  {
    hide AtPc, LogOk, Shaped, Heard, AcksIn;
  }

  lemma WireRqidValue(n: nat)
    ensures WireRqid(n) == EVENT_SPAN * (n % 0x800)
  {
    var x := n % 0x1_0000;
    assert x == 0x800 * (x / 0x800) + x % 0x800;
    assert x * EVENT_SPAN == 0x1_0000 * (x / 0x800) + EVENT_SPAN * (x % 0x800);
    assert n % 0x800 == x % 0x800;
  }

  /** No request id looks like an event, and two requests share one exactly if their positions are 2048 k apart. */
  lemma WireIds(a: nat, b: nat)
    ensures !RqidIsEvent(WireRqid(a))
    ensures WireRqid(a) == WireRqid(b) <==> (a - b) % 0x800 == 0
  {
    hide WireRqid;
    WireRqidValue(a);
    WireRqidValue(b);
    SameRemainder(a, b);
  }

  /** The id 0x0000 is that of the first request and of every 2048th one after it, and of no other. */
  lemma ZeroIdIff(n: nat)
    ensures WireRqid(n) == 0 <==> n % 0x800 == 0
  {
    hide WireRqid;
    WireRqidValue(n);
  }

  lemma AskedCarriesId(rqst: Request, n: nat)
    requires |rqst.payload| <= MAX_RQST_PAYLOAD
    ensures IsCommand(Asked(rqst, n)) && RqidOf(Asked(rqst, n)) == WireRqid(n)
    ensures CommandOf(Asked(rqst, n)) == Cmd(rqst.tc, 1, 0, rqst.iid, WireRqid(n), rqst.cid, rqst.payload)
  {
    hide CommandFrame, IsCommand, RqidToRqst;
    CommandRoundTrip(WireSeq(n), Cmd(rqst.tc, 1, 0, rqst.iid, WireRqid(n), rqst.cid, rqst.payload));
  }

  /** The bytes of a request that follows n acknowledged ones. */
  lemma AskedLayout(rqst: Request, n: nat)
    requires |rqst.payload| <= 245
    ensures var f := Asked(rqst, n);
      var k := |rqst.payload|;
      && |f| == 18 + k
      && f[..6] == [0xaa, 0x55, 0x80, 8 + k, 0, n % 0x100]
      && f[8..16] == [0x80, rqst.tc, 1, 0, rqst.iid, 0x20 * (n % 0x800) % 0x100, 0x20 * (n % 0x800) / 0x100, rqst.cid]
      && f[9] == rqst.tc && f[12] == rqst.iid && f[15] == rqst.cid
      && f[16..16 + k] == rqst.payload
  {
    hide CommandFrame, RqidToRqst;
    var m := Cmd(rqst.tc, 1, 0, rqst.iid, WireRqid(n), rqst.cid, rqst.payload);
    CommandLayout(WireSeq(n), m);
    WireRqidValue(n);
    var f := Asked(rqst, n);
    assert f == CommandFrame(WireSeq(n), m);
    assert f[9] == f[8..16][1] && f[12] == f[8..16][4] && f[15] == f[8..16][7];
  }

  /**
   In every run, each transmission of a call is a frame with good checksums that carries the
   id of this call; this id is 0x0000 exactly if a multiple of 2048 requests has been
   acknowledged before.
   */
  lemma IdsOnTheWire(steps: seq<Step>, i: nat, x: Sent)
    requires i < |Reach(steps).log|
    requires var r := Reach(steps).log[i]; (r.replied ==> r.sent != []) && x in Requests(r)
    ensures var r := Reach(steps).log[i];
      && IsCommand(x.frame)
      && RqidOf(x.frame) == WireRqid(r.start)
      && (RqidOf(x.frame) == 0 <==> AcksIn(Reach(steps).log[..i]) % 0x800 == 0)
  {
    hide Reach, Asked, IsCommand, WireRqid, AcksIn, RecordOk, AckHeard, RequestFrame;
    LogIsOk(steps, i);
    CallDiscipline(steps, i);
    var r := Reach(steps).log[i];
    AskedIsFrame(r, x);
    AskedCarriesId(r.rqst, r.start);
    ZeroIdIff(r.start);
  }

  lemma AskedIsFrame(r: Record, x: Sent)
    requires RecordOk(r) && (r.replied ==> r.sent != []) && x in Requests(r)
    ensures |r.rqst.payload| <= MAX_RQST_PAYLOAD && x.frame == Asked(r.rqst, r.start)
  {
    hide Asked, Replies, AckHeard, Explained, OccursIn, AllSentOk;
  }

  /** The very first frame on the line carries it. */
  lemma FirstIdIsZero(rqst: Request, wantsResult: bool, given: Buffer)
    requires |rqst.payload| <= MAX_RQST_PAYLOAD
    ensures var s := Reach([Begin(rqst, wantsResult, given), EndFlush(0)]);
      |s.sent| == 1 && |s.sent[0].frame| >= 15 && RqidOf(s.sent[0].frame) == 0
  {
    hide RequestFrame;
    var begin := DoBegin(INIT, rqst, wantsResult, given);
    assert Run(begin, [EndFlush(0)]) == Run(DoEndFlush(begin, 0), [EndFlush(0)][1..]);
    assert Reach([Begin(rqst, wantsResult, given), EndFlush(0)])
        == Run(begin, [Begin(rqst, wantsResult, given), EndFlush(0)][1..]);
    assert [Begin(rqst, wantsResult, given), EndFlush(0)][1..] == [EndFlush(0)];
    assert [EndFlush(0)][1..] == [];
    assert begin.written == Asked(rqst, 0);
    AskedCarriesId(rqst, 0);
    ZeroIdIff(0);
  }

  lemma SameRemainder(a: nat, b: nat)
    ensures (a - b) % 0x800 == 0 <==> a % 0x800 == b % 0x800
  {
    assert a - b == 0x800 * (a / 0x800 - b / 0x800) + (a % 0x800 - b % 0x800);
  }

  /**
   Two calls use the same wire id exactly if the ACKs read from the one to the other are a
   multiple of 2048; so a call that follows another directly reuses its id exactly if the
   one before was not acknowledged.
   */
  lemma CallsShareId(steps: seq<Step>, i: nat, j: nat)
    requires i <= j < |Reach(steps).log|
    ensures var log := Reach(steps).log;
      && (WireRqid(log[j].start) == WireRqid(log[i].start) <==> AcksIn(log[i..j]) % 0x800 == 0)
      && (j == i + 1 ==> (WireRqid(log[j].start) == WireRqid(log[i].start) <==> !log[i].acked))
  {
    hide Reach, RecordOk, WireRqid;
    LogIsOk(steps, i);
    LogIsOk(steps, j);
    var log := Reach(steps).log;
    AcksBetween(log[..j], i);
    assert log[..j][..i] == log[..i] && log[..j][i..] == log[i..j];
    WireIds(log[j].start, log[i].start);
    if j == i + 1 {
      assert log[i..j] == [log[i]];
    }
  }

  lemma {:induction false} AcksBetween(log: seq<Record>, i: nat)
    requires i <= |log|
    ensures AcksIn(log) == AcksIn(log[..i]) + AcksIn(log[i..])
    decreases |log|
  {
    var n := |log|;
    if i == n {
      assert log[..i] == log;
    } else {
      AcksBetween(log[..n - 1], i);
      assert log[..n - 1][..i] == log[..i];
      assert log[..n - 1][i..] == log[i..][..n - 1 - i];
    }
  }
}
