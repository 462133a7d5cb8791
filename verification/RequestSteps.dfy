/** Each step of the request engine keeps the invariant. */
module RequestSteps {
  import opened Bytes
  import opened Frames
  import opened Receiver
  import opened SerialWriter
  import opened Window
  import opened FifoRoom
  import opened Protocol
  import opened RequestInvariant

  // Frames accepted later

  lemma {:induction false} RetriesStable(fs: seq<seq<byte>>, gs: seq<seq<byte>>)
    requires fs <= gs && Retries(fs) < |fs|
    ensures Retries(gs) == Retries(fs)
  {
    if IsRetry(fs[0]) {
      RetriesStable(fs[1..], gs[1..]);
    }
  }

  lemma OccursInAppended(f: seq<byte>, a: seq<byte>, more: seq<byte>)
    requires OccursIn(f, a)
    ensures OccursIn(f, a + more)
  {
    var i :| 0 <= i <= |a| - |f| && a[i..][..|f|] == f;
    assert (a + more)[i..][..|f|] == a[i..][..|f|];
  }

  // The receive callback

  lemma ArriveHeard(s: Sys, chunk: seq<byte>)
    requires |s.pending| <= EVAL_CAP && Heard(s)
    ensures Heard(DoArrive(s, chunk))
  {
    hide OccursIn;
    var part := chunk[..Accepts(s.pending, chunk)];
    var t := DoArrive(s, chunk);
    var before := |s.heard| - |s.pending|;
    assert t.heard[before..] == s.heard[before..] + part;
    forall f | f in t.core.accepted ensures OccursIn(f, t.heard) {
      OccursInAppended(f, s.heard, part);
    }
  }

  lemma ArriveKeeps(s: Sys, chunk: seq<byte>)
    requires Inv(s)
    ensures Inv(DoArrive(s, chunk))
  {
    hide Shaped, Fits, Heard, LogOk, AcksIn, OccursIn, RequestFrame, Retries, IsAckFor, IsResponseFor, Filled, FifoBytes,
         AllAsk, AllSentOk, Answers;
    var t := DoArrive(s, chunk);
    if !s.pc.Idle? {
      ArriveHeard(s, chunk);
    }
    if s.pc.Leave? {
      assert Summary(t) == Summary(s).(heard := t.heard);
    }
  }

  // What a step of the evaluation does to the receiver
  lemma EvaluateEffect(s: Sys)
    requires Shaped(s.core) && |s.pending| <= EVAL_CAP
    ensures var t := DoEvaluate(s);
      && Extends(s.core, t.core, s.pending)
      && |t.pending| <= |s.pending| && t.pending == s.pending[|s.pending| - |t.pending|..]
      && t == s.(core := t.core, pending := t.pending, receiving := t.receiving)
  {
    hide EvalBuf, Extends, Shaped;
    StepExtends(s.core, s.pending);
  }

  lemma EvaluateHeard(s: Sys)
    requires Shaped(s.core) && |s.pending| <= EVAL_CAP && Heard(s)
    ensures Heard(DoEvaluate(s))
  {
    hide DoEvaluate, Shaped, OccursIn, FifoBytes;
    var t := DoEvaluate(s);
    EvaluateEffect(s);
    forall f | f in t.core.accepted ensures OccursIn(f, t.heard) {
      if f !in s.core.accepted {
        assert f in t.core.accepted[|s.core.accepted|..];
        OccursInLonger(f, s.heard, |s.heard| - |s.pending|);
      }
    }
  }

  lemma EvaluateBacklog(s: Sys)
    requires Shaped(s.core) && |s.pending| <= EVAL_CAP && Backlog(s)
    ensures Backlog(DoEvaluate(s))
  {
    hide DoEvaluate, Shaped, OccursIn, FifoBytes;
    var t := DoEvaluate(s);
    EvaluateEffect(s);
    var unread, added := s.core.accepted[s.taken..], t.core.accepted[|s.core.accepted|..];
    assert t.core.accepted[s.taken..] == unread + added;
    FifoBytesSplit(unread, added);
  }

  lemma EvaluateFits(s: Sys)
    requires Shaped(s.core) && |s.pending| <= EVAL_CAP && Fits(s.core)
    ensures Fits(DoEvaluate(s).core)
  {
    hide DoEvaluate, Shaped, OccursIn, FifoBytes;
    var t := DoEvaluate(s);
    EvaluateEffect(s);
    var added := t.core.accepted[|s.core.accepted|..];
    assert t.core.accepted == s.core.accepted + added;
    FifoBytesSplit(s.core.accepted, added);
  }

  // A receiver in discard mode accepts nothing.
  lemma DiscardAccepts(s: Sys)
    requires Shaped(s.core) && |s.pending| <= EVAL_CAP && s.core.mode == Discard
    ensures var c := DoEvaluate(s).core;
      && c.accepted == s.core.accepted && c.fifo == s.core.fifo && c.mode == Discard
      && c.signals == s.core.signals
      && (c.expectPld, c.expectSeq, c.expectRqid) == (s.core.expectPld, s.core.expectSeq, s.core.expectRqid)
  {
    hide DoEvaluate, Shaped, OccursIn;
    EvaluateEffect(s);
    var c := DoEvaluate(s).core;
    assert c.accepted[|s.core.accepted|..] == [];
    assert c.accepted == s.core.accepted;
  }

  // Once the response is accepted, the receiver discards.
  lemma FullWindow(c: Core, n: nat)
    requires Shaped(c) && Answers(c.accepted, n)
    ensures c.mode == Discard
  {
  }

  lemma EvaluateStable(s: Sys)
    requires Shaped(s.core) && |s.pending| <= EVAL_CAP
    ensures var t := DoEvaluate(s);
      && Retries(s.core.accepted) <= Retries(t.core.accepted)
      && (Retries(s.core.accepted) < |s.core.accepted| ==> Retries(t.core.accepted) == Retries(s.core.accepted))
      && s.core.accepted <= t.core.accepted
      && Shaped(t.core)
      && (t.core.expectPld, t.core.expectSeq, t.core.expectRqid)
          == (s.core.expectPld, s.core.expectSeq, s.core.expectRqid)
  {
    hide DoEvaluate, Shaped, OccursIn, FifoBytes, Retries;
    var t := DoEvaluate(s);
    EvaluateEffect(s);
    ExtendedIsShaped(s.core, t.core, s.pending);
    RetriesMonotone(s.core.accepted, t.core.accepted);
    if Retries(s.core.accepted) < |s.core.accepted| {
      RetriesStable(s.core.accepted, t.core.accepted);
    }
  }

  // A finished call stays well explained while more frames come in.
  lemma EvaluateSummary(s: Sys)
    requires Shaped(s.core) && |s.pending| <= EVAL_CAP && CallOk(Summary(s))
    ensures CallOk(Summary(DoEvaluate(s)))
  {
    hide DoEvaluate, Shaped, Extends, Retries, RequestFrame, IsAckFor, IsResponseFor, AllAsk, AllSentOk;
    var t := DoEvaluate(s);
    var r := Summary(s);
    EvaluateEffect(s);
    EvaluateStable(s);
    if Answers(r.accepted, r.start) {
      FullWindow(s.core, r.start);
      DiscardAccepts(s);
      assert Summary(t) == r;
    } else {
      assert Summary(t) == r.(accepted := t.core.accepted);
      assert !r.replied;
    }
  }

  lemma EvaluateAtPc(s: Sys)
    requires Shaped(s.core) && |s.pending| <= EVAL_CAP && AtPc(s)
    ensures AtPc(DoEvaluate(s))
  {
    hide DoEvaluate, Shaped, Extends, Retries, RequestFrame, IsAckFor, IsResponseFor, AllAsk, AllSentOk,
         Filled, Backlog, CallOk, Answers;
    EvaluateEffect(s);
    match s.pc
    case Idle =>
      DiscardAccepts(s);
    case Leave =>
      EvaluateSummary(s);
    case TakePayload =>
      FullWindow(s.core, s.start);
      DiscardAccepts(s);
    case FlushAck =>
      FullWindow(s.core, s.start);
      DiscardAccepts(s);
    case _ =>
      EvaluateBacklog(s);
      EvaluateStable(s);
  }

  lemma EvaluateKeeps(s: Sys)
    requires Inv(s)
    ensures Inv(DoEvaluate(s))
  {
    hide DoEvaluate, Shaped, Extends, Fits, AtPc, Heard, LogOk, AcksIn;
    EvaluateEffect(s);
    EvaluateFits(s);
    EvaluateStable(s);
    EvaluateAtPc(s);
    if !s.pc.Idle? {
      EvaluateHeard(s);
    }
  }

  // The log

  lemma LogGrows(log: seq<Record>, r: Record)
    requires LogOk(log) && RecordOk(r) && r.start == AcksIn(log)
    ensures LogOk(log + [r])
    ensures AcksIn(log + [r]) == AcksIn(log) + (if r.acked then 1 else 0)
  {
    hide RecordOk;
    var longer := log + [r];
    assert longer[..|log|] == log;
    forall i | 0 <= i < |longer| ensures RecordOk(longer[i]) && longer[i].start == AcksIn(longer[..i]) {
      assert longer[..i] == log[..i];
    }
  }

  // The requester's steps

  lemma BeginKeeps(s: Sys, rqst: Request, wantsResult: bool, given: Buffer)
    requires Inv(s) && s.pc.Idle?
    ensures Inv(DoBegin(s, rqst, wantsResult, given))
  {
    hide Inv, DoBegin;
    if |rqst.payload| > MAX_RQST_PAYLOAD {
      RefusalKeeps(s, rqst, wantsResult, given);
    } else {
      RestartKeeps(s, rqst, wantsResult, given);
    }
  }

  lemma RefusalKeeps(s: Sys, rqst: Request, wantsResult: bool, given: Buffer)
    requires Inv(s) && s.pc.Idle? && |rqst.payload| > MAX_RQST_PAYLOAD
    ensures Inv(DoBegin(s, rqst, wantsResult, given))
  {
    hide CallOk, OccursIn, LogOk, AcksIn, Shaped, Fits;
    var r := DoBegin(s, rqst, wantsResult, given).log[|s.log|];
    assert Rejected(r);
    LogGrows(s.log, r);
  }

  lemma RestartKeeps(s: Sys, rqst: Request, wantsResult: bool, given: Buffer)
    requires Inv(s) && s.pc.Idle? && |rqst.payload| <= MAX_RQST_PAYLOAD
    ensures Inv(DoBegin(s, rqst, wantsResult, given))
  {
    hide LogOk, AcksIn, Shaped, AtPc, Expecting, RequestFrame;
    RestartIsShaped(s.core, rqst.snc, s.seqno, RqidToRqst(s.rqid));
    RestartAtPc(s, rqst, wantsResult, given);
    assert |s.core.fifo| == 0 by { IdleIsEmpty(s); }
  }

  lemma IdleIsEmpty(s: Sys)
    requires AtPc(s) && s.pc.Idle?
    ensures s.core.fifo == []
  {
  }

  lemma RestartIsShaped(c: Core, expectPld: bool, expectSeq: byte, expectRqid: u16)
    requires Shaped(c)
    ensures Shaped(Restart(c, expectPld, expectSeq, expectRqid))
  {
  }

  lemma RestartAtPc(s: Sys, rqst: Request, wantsResult: bool, given: Buffer)
    requires AtPc(s) && s.pc.Idle? && Counters(s) && |rqst.payload| <= MAX_RQST_PAYLOAD
    ensures AtPc(DoBegin(s, rqst, wantsResult, given)) && Expecting(DoBegin(s, rqst, wantsResult, given))
  {
    hide RequestFrame, AcksIn;
    var t := DoBegin(s, rqst, wantsResult, given);
    assert t.core.accepted[t.taken..] == [];
  }

  lemma ReturnKeeps(s: Sys)
    requires Inv(s) && s.pc.Leave?
    ensures Inv(DoReturn(s))
  {
    hide CallOk, OccursIn, LogOk, AcksIn, IsControl, IsCommand;
    LogGrows(s.log, Summary(s));
  }

  lemma EndAsk(s: Sys, status: int)
    requires AtPc(s) && s.pc.Flush?
    ensures AtPc(DoEndFlush(s, status))
  {
    hide RequestFrame, Retries, Backlog, Answers, AllAsk, AllSentOk;
    var t := DoEndFlush(s, status);
    SentMore(s.sent, t.sent[|s.sent|], s.rqst, s.start);
    if t.status == 0 {
      BacklogAt(s, t);
    }
  }

  lemma SentMore(sent: seq<Sent>, x: Sent, rqst: Request, start: nat)
    requires |rqst.payload| <= MAX_RQST_PAYLOAD
    requires AllAsk(sent, rqst, start) && AllSentOk(sent) && x.frame == Asked(rqst, start)
    ensures var longer := sent + [x];
      AllAsk(longer, rqst, start) && (x.status == 0 ==> AllSentOk(longer)) && longer[..|longer| - 1] == sent
  {
    hide RequestFrame;
  }

  lemma BacklogAt(s: Sys, t: Sys)
    requires Backlog(s) && (s.pc.TakeAck? || s.pc.TakeHeader?) == (t.pc.TakeAck? || t.pc.TakeHeader?)
    requires t.core == s.core && t.taken == s.taken
    ensures Backlog(t)
  {
  }

  lemma EndReply(s: Sys, status: int)
    requires AtPc(s) && s.pc.FlushAck?
    ensures AtPc(DoEndFlush(s, status))
  {
    hide RequestFrame, ControlFrame, Retries, Answers, Filled, AckHeard;
    var t := DoEndFlush(s, status);
    assert t.sent[..|t.sent| - 1] == s.sent == Requests(Summary(t));
    AnsweredIsHeard(s);
  }

  lemma AnsweredIsHeard(s: Sys)
    requires Answers(s.core.accepted, s.start)
    ensures AckHeard(s.core.accepted, s.start)
  {
  }

  lemma GivenUp(s: Sys, tries: nat)
    requires s.pc.AwaitAck? && Asking(s, tries, 1) && s.taken <= tries + 1
    ensures AtPc(NextTry(s, tries))
  {
    hide RequestFrame, Retries, FifoBytes, Answers;
  }

  lemma AckIsHeard(s: Sys)
    requires Shaped(s.core) && Expecting(s) && Retries(s.core.accepted) < |s.core.accepted|
    ensures AckHeard(s.core.accepted, s.start)
  {
  }

  lemma TimeoutAtPc(s: Sys)
    requires Shaped(s.core) && Expecting(s) && AtPc(s) && s.pc.AwaitResponse?
    ensures AtPc(s.(pc := Leave, status := -EIO))
  {
    hide RequestFrame, FifoBytes, Answers, Retries, Shaped;
    AckIsHeard(s);
  }

  lemma EndWaitAtPc(s: Sys)
    requires Shaped(s.core) && Expecting(s)
    requires AtPc(s) && (s.pc.AwaitAck? || s.pc.AwaitResponse?)
    ensures AtPc(DoEndWait(s))
  {
    hide RequestFrame, Retries, FifoBytes, Answers, CallOk, Shaped;
    if s.core.signals == 0 {
      if s.pc.AwaitAck? {
        GivenUp(s, s.pc.tries);
      } else {
        TimeoutAtPc(s);
      }
    }
  }

  // Reading packets

  lemma FirstPacket(accepted: seq<seq<byte>>, taken: nat)
    requires Packable(accepted) && taken < |accepted|
    ensures FifoBytes(accepted[taken..]) == PacketBytes(accepted[taken]) + FifoBytes(accepted[taken + 1..])
  {
    assert accepted[taken..][1..] == accepted[taken + 1..];
  }

  /** The packet header read is the one of the next frame, whole. */
  lemma ReadsHeader(s: Sys)
    requires |s.packet| == 3 && Backlog(s) && s.taken < |s.core.accepted|
    ensures var p := PacketBytes(s.core.accepted[s.taken]);
      var t := ReadPacket(s);
      && |FifoOut(s.core.fifo, 3)| == 3
      && t.packet == p[..3]
      && t.core.fifo == p[3..] + FifoBytes(s.core.accepted[s.taken + 1..])
  {
    hide FifoBytes, PacketBytes;
    FirstPacket(s.core.accepted, s.taken);
  }

  // What the next packet is, while the requester waits for its ACK
  lemma NextIsRetryOrAck(s: Sys)
    requires Shaped(s.core) && Expecting(s) && s.taken <= Retries(s.core.accepted)
    requires s.taken < |s.core.accepted|
    ensures var f := s.core.accepted[s.taken];
      && PacketBytes(f) == [f[2], f[5], 0]
      && (if s.taken < Retries(s.core.accepted) then f[2] == TYPE_RETRY
          else IsAckFor(f, WireSeq(s.start)) && f[2] == TYPE_ACK)
  {
  }

  // A RETRY packet is read: the next attempt follows, or the call gives up.
  lemma RetryTaken(s: Sys)
    requires |s.packet| == 3 && s.pc.TakeAck? && Asking(s, s.pc.tries, 1) && s.taken <= s.pc.tries
    requires s.taken < Retries(s.core.accepted) && |PacketBytes(s.core.accepted[s.taken])| == 3
    ensures AtPc(NextTry(ReadPacket(s), s.pc.tries))
  {
    hide RequestFrame, Retries, FifoBytes, PacketBytes, AllAsk, AllSentOk;
    ReadsHeader(s);
    var u := ReadPacket(s).(pc := AwaitAck(s.pc.tries));
    GivenUp(u, s.pc.tries);
    assert NextTry(ReadPacket(s), s.pc.tries) == NextTry(u, s.pc.tries);
  }

  // The ACK is read.
  lemma AckTaken(s: Sys)
    requires Shaped(s.core) && Expecting(s) && |s.packet| == 3 && s.pc.TakeAck? && Asking(s, s.pc.tries, 1)
    requires s.taken == Retries(s.core.accepted) < |s.core.accepted| && s.taken <= s.pc.tries
    requires PacketBytes(s.core.accepted[s.taken])[..3][0] == TYPE_ACK
    requires |PacketBytes(s.core.accepted[s.taken])| == 3
    ensures AtPc(DoTakeAck(s))
  {
    hide RequestFrame, Retries, FifoBytes, PacketBytes, Answers, Shaped, CallOk, AllAsk, AllSentOk;
    ReadsHeader(s);
    if !(s.rqst.snc && s.wantsResult) {
      AckedCall(s, DoTakeAck(s));
    }
  }

  lemma TakeAckAtPc(s: Sys)
    requires Shaped(s.core) && Expecting(s) && |s.packet| == 3
    requires AtPc(s) && s.pc.TakeAck?
    ensures AtPc(DoTakeAck(s))
  {
    hide RequestFrame, Retries, FifoBytes, PacketBytes, Shaped, Expecting, AllAsk, AllSentOk, CallOk, AwaitsResponse;
    ReadsHeader(s);
    NextIsRetryOrAck(s);
    if s.taken < Retries(s.core.accepted) {
      RetryTaken(s);
    } else {
      AckTaken(s);
    }
  }

  // A call that wants no response is over with the ACK.
  lemma AckedCall(s: Sys, u: Sys)
    requires Shaped(s.core) && Expecting(s) && Retries(s.core.accepted) < |s.core.accepted|
    requires s.pc.TakeAck? && Asking(s, s.pc.tries, 1) && !(s.rqst.snc && s.wantsResult)
    requires s.taken == Retries(s.core.accepted) <= s.pc.tries
    requires Summary(u) == Summary(s).(acked := true)
    ensures CallOk(Summary(u))
  {
    hide RequestFrame, Retries, FifoBytes, Answers, Shaped, AckHeard;
    AckIsHeard(s);
  }

  // The packet behind the ACK is the response.
  lemma NextIsResponse(s: Sys)
    requires Shaped(s.core) && Expecting(s) && s.taken == Retries(s.core.accepted) + 1
    requires s.taken < |s.core.accepted|
    ensures Answers(s.core.accepted, s.start) && s.taken + 1 == |s.core.accepted|
    ensures var f := Response(s.core.accepted);
      f == s.core.accepted[s.taken] && f[2] == TYPE_CMD
      && PacketBytes(f)[..3] == [TYPE_CMD, f[5], |PayloadOf(f)|] && PacketBytes(f)[3..] == PayloadOf(f)
  {
  }

  lemma TakeHeaderAtPc(s: Sys)
    requires Shaped(s.core) && Expecting(s) && |s.packet| == 3
    requires AtPc(s) && s.pc.TakeHeader?
    ensures AtPc(DoTakeHeader(s))
  {
    hide RequestFrame, Retries, PacketBytes, Answers, Shaped, CallOk, AllAsk, AllSentOk;
    ReadsHeader(s);
    NextIsResponse(s);
    var u := DoTakeHeader(s);
    if u.pc.Leave? {
      TooLong(s, u);
    }
  }

  lemma TooLong(s: Sys, u: Sys)
    requires Shaped(s.core) && Expecting(s) && AwaitsResponse(s) && Answers(s.core.accepted, s.start)
    requires |s.given.data| < |PayloadOf(Response(s.core.accepted))|
    requires Summary(u) == Summary(s).(status := -EINVAL)
    ensures CallOk(Summary(u))
  {
    hide RequestFrame, Retries, FifoBytes, Shaped, AckHeard, IsResponseFor, IsAckFor;
    AckIsHeard(s);
  }

  lemma TakePayloadAtPc(s: Sys)
    requires |s.packet| == 3 && AtPc(s) && s.pc.TakePayload?
    ensures AtPc(DoTakePayload(s))
  {
    hide RequestFrame, Retries, ControlFrame, IsAckFor, AllAsk, AllSentOk;
  }

  // All together

  // The requester's steps leave the receiver's mode and what it expects alone.
  predicate Moves(s: Sys, t: Sys) {
    && t == s.(core := s.core.(fifo := t.core.fifo, signals := t.core.signals), written := t.written,
               seqno := t.seqno, rqid := t.rqid, acks := t.acks, acked := t.acked,
               pc := t.pc, buffer := t.buffer, packet := t.packet, status := t.status,
               taken := t.taken, sent := t.sent, replied := t.replied)
    && |t.core.fifo| <= |s.core.fifo| && |t.packet| == 3 && !t.pc.Idle?
  }

  lemma RequesterKeeps(s: Sys, t: Sys)
    requires Inv(s) && !s.pc.Idle? && Moves(s, t) && Counters(t) && AtPc(t)
    ensures Inv(t)
  {
    hide AtPc, Counters, LogOk, OccursIn, IsAckFor, IsResponseFor, AcksIn;
  }

  lemma TakeAckMoves(s: Sys)
    requires s.pc.TakeAck? && |s.packet| == 3 && !s.acked && Counters(s)
    ensures Moves(s, DoTakeAck(s)) && Counters(DoTakeAck(s))
  {
    hide AcksIn, ReadPacket, Counters;
    ReadMoves(s);
    TakeAckCounts(s);
  }

  lemma TakeAckCounts(s: Sys)
    requires s.pc.TakeAck? && |s.packet| == 3 && !s.acked && Counters(s)
    ensures Counters(DoTakeAck(s))
  {
    hide AcksIn, Overlay, FifoOut;
    CounterSteps(s.acks);
  }

  // Counting modulo a power of two
  lemma CounterSteps(n: nat)
    ensures (n % 0x100 + 1) % 0x100 == (n + 1) % 0x100
    ensures (n % 0x1_0000 + 1) % 0x1_0000 == (n + 1) % 0x1_0000
  {
    ByteSteps(n);
    WordSteps(n);
  }

  lemma ByteSteps(n: nat)
    ensures (n % 0x100 + 1) % 0x100 == (n + 1) % 0x100
  {
    var q, r := n / 0x100, n % 0x100;
    assert n + 1 == if r == 0xff then 0x100 * (q + 1) else 0x100 * q + (r + 1);
  }

  lemma WordSteps(n: nat)
    ensures (n % 0x1_0000 + 1) % 0x1_0000 == (n + 1) % 0x1_0000
  {
    var q, r := n / 0x1_0000, n % 0x1_0000;
    assert n + 1 == if r == 0xffff then 0x1_0000 * (q + 1) else 0x1_0000 * q + (r + 1);
  }

  lemma ReadMoves(s: Sys)
    requires !s.pc.Idle? && |s.packet| == 3
    ensures var r := ReadPacket(s);
      |r.core.fifo| <= |s.core.fifo|
      && r == s.(core := s.core.(fifo := r.core.fifo), packet := r.packet, taken := r.taken)
  {
    hide Overlay;
  }

  lemma TakeAckKeeps(s: Sys)
    requires Inv(s) && s.pc.TakeAck?
    ensures Inv(DoTakeAck(s))
  {
    hide Shaped, Fits, LogOk, Heard, AtPc, AcksIn, DoTakeAck, Moves;
    NotAckedYet(s);
    TakeAckMoves(s);
    TakeAckAtPc(s);
    RequesterKeeps(s, DoTakeAck(s));
  }

  lemma NotAckedYet(s: Sys)
    requires AtPc(s) && s.pc.TakeAck?
    ensures !s.acked
  {
  }

  lemma TakeHeaderKeeps(s: Sys)
    requires Inv(s) && s.pc.TakeHeader?
    ensures Inv(DoTakeHeader(s))
  {
    hide Shaped, Fits, LogOk, Heard, AtPc, AcksIn;
    TakeHeaderAtPc(s);
    RequesterKeeps(s, DoTakeHeader(s));
  }

  lemma TakePayloadKeeps(s: Sys)
    requires Inv(s) && s.pc.TakePayload?
    ensures Inv(DoTakePayload(s))
  {
    hide Shaped, Fits, LogOk, Heard, AtPc, AcksIn;
    TakePayloadAtPc(s);
    RequesterKeeps(s, DoTakePayload(s));
  }

  lemma FlushKeeps(s: Sys, status: int)
    requires Inv(s) && (s.pc.Flush? || s.pc.FlushAck?)
    ensures Inv(DoEndFlush(s, status))
  {
    hide Shaped, Fits, LogOk, Heard, AtPc, AcksIn;
    if s.pc.Flush? {
      EndAsk(s, status);
    } else {
      EndReply(s, status);
    }
    RequesterKeeps(s, DoEndFlush(s, status));
  }

  lemma WaitKeeps(s: Sys)
    requires Inv(s) && (s.pc.AwaitAck? || s.pc.AwaitResponse?)
    ensures Inv(DoEndWait(s))
  {
    hide Shaped, Fits, LogOk, Heard, AtPc, AcksIn;
    EndWaitAtPc(s);
    var t := DoEndWait(s);
    if s.core.signals > 0 {
      RequesterKeeps(s, t);
    } else {
      RequesterKeeps(s, t);
    }
  }

  /** Every step keeps the invariant. */
  lemma StepKeeps(s: Sys, a: Step)
    requires Inv(s)
    ensures Inv(Next(s, a))
  {
    hide Inv, DoBegin, DoArrive, DoEvaluate, DoEndFlush, DoEndWait, DoTakeAck, DoTakeHeader, DoTakePayload, DoReturn;
    match a
    case Begin(rqst, wantsResult, given) =>
      if s.pc.Idle? && !s.receiving {
        BeginKeeps(s, rqst, wantsResult, given);
      }
    case Arrive(chunk) =>
      if !s.receiving {
        ArriveKeeps(s, chunk);
      }
    case Evaluate =>
      if s.receiving {
        EvaluateKeeps(s);
      }
    case EndFlush(status) =>
      if s.pc.Flush? || s.pc.FlushAck? {
        FlushKeeps(s, status);
      }
    case EndWait =>
      if s.pc.AwaitAck? || s.pc.AwaitResponse? {
        WaitKeeps(s);
      }
    case Take =>
      if s.pc.TakeAck? {
        TakeAckKeeps(s);
      } else if s.pc.TakeHeader? {
        TakeHeaderKeeps(s);
      } else if s.pc.TakePayload? {
        TakePayloadKeeps(s);
      }
    case Return =>
      if s.pc.Leave? && !s.receiving {
        ReturnKeeps(s);
      }
  }

  lemma {:induction false} RunKeeps(s: Sys, steps: seq<Step>)
    requires Inv(s)
    ensures Inv(Run(s, steps))
    decreases |steps|
  {
    hide Inv, Next;
    InvBounds(s);
    if steps != [] {
      StepKeeps(s, steps[0]);
      RunKeeps(Next(s, steps[0]), steps[1..]);
    }
  }

  lemma InvBounds(s: Sys)
    requires Inv(s)
    ensures |s.pending| <= EVAL_CAP && |s.packet| == 3
  {
  }

  lemma InitKeeps()
    ensures Inv(INIT)
  {
  }
}
