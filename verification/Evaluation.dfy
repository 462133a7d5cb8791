/** What holds of the evaluation of any buffer content, well-formed or not. */
module Evaluation {
  import opened Bytes
  import opened Crc
  import opened Frames
  import opened Receiver
  import opened Streams
  import opened RoundTrip

  // Where the evaluation stops

  /** The loop stops on an empty buffer or on bytes that need more bytes. */
  lemma {:induction false} LoopStops(c: Core, b: seq<byte>)
    ensures var r := EvalLoop(c, b);
      r.1 == [] || EvalBuf(r.0, r.1).used == 0
    decreases |b|
  {
    hide EvalBuf;
    if b != [] && EvalBuf(c, b).used != 0 {
      LoopStops(EvalBuf(c, b).core, b[EvalBuf(c, b).used..]);
    }
  }

  /** A command header that checks out but announces more than the evaluation buffer holds. */
  predicate Oversized(v: seq<byte>) {
    |v| >= 8 && HeaderOk(v) && v[2] == TYPE_CMD && MSG_LEN_CMD_BASE + v[3] > EVAL_CAP
  }

  /** The evaluation waits for more bytes on a full buffer exactly if an oversized header is at its front. */
  lemma FullBufferWaitsIff(c: Core, v: seq<byte>)
    requires |v| == EVAL_CAP
    ensures EvalBuf(c, v).used == 0 <==> Oversized(v)
  {
  }

  lemma OversizedWaits(c: Core, v: seq<byte>)
    requires Oversized(v) && |v| <= EVAL_CAP
    ensures EvalLoop(c, v) == (c, v)
  {
    assert EvalBuf(c, v).used == 0;
  }

  lemma StillOversized(v: seq<byte>, more: seq<byte>)
    requires Oversized(v)
    ensures Oversized(v + more)
  {
    ParseIsLocal(v, more, 2, 6);
  }

  /** No jam, with its one exception: a call leaves the buffer full only with an oversized header at its front. */
  lemma FullOnlyIfOversized(c: Core, pending: seq<byte>, chunk: seq<byte>)
    requires |pending| <= EVAL_CAP
    ensures var r := ReceiveBuf(c, pending, chunk);
      |r.1| == EVAL_CAP ==> Oversized(r.1)
  {
    hide EvalBuf, Oversized;
    var b := pending + chunk[..Accepts(pending, chunk)];
    var r := EvalLoop(c, b);
    LoopStops(c, b);
    if |r.1| == EVAL_CAP {
      FullBufferWaitsIff(r.0, r.1);
    }
  }

  // One call after the other, without a restart or a discard between them
  function ReceiveAll(c: Core, pending: seq<byte>, chunks: seq<seq<byte>>): (Core, seq<byte>)
    requires |pending| <= EVAL_CAP
    decreases |chunks|
  {
    if chunks == [] then (c, pending)
    else
      var r := ReceiveBuf(c, pending, chunks[0]);
      ReceiveAll(r.0, r.1, chunks[1..])
  }

  function Total(chunks: seq<seq<byte>>): nat {
    if chunks == [] then 0 else |chunks[0]| + Total(chunks[1..])
  }

  /**
   Once an oversized header is at the front, calls only pile up bytes behind it, and change
   nothing else; when there are as many as the buffer holds, no call takes any. Only a
   restart or a discard, which empty the buffer, end this.
   */
  lemma {:induction false} OversizedJams(c: Core, pending: seq<byte>, chunks: seq<seq<byte>>)
    requires |pending| <= EVAL_CAP && Oversized(pending)
    ensures var r := ReceiveAll(c, pending, chunks);
      && r.0 == c
      && IsPrefix(pending, r.1) && Oversized(r.1)
      && |r.1| == Min(EVAL_CAP, |pending| + Total(chunks))
    decreases |chunks|
  {
    hide Oversized, EvalLoop;
    if chunks != [] {
      var more := chunks[0][..Accepts(pending, chunks[0])];
      StillOversized(pending, more);
      OversizedWaits(c, pending + more);
      OversizedJams(c, pending + more, chunks[1..]);
    }
  }

  /** A header of eight bytes that does it, for every sequence id. */
  lemma OversizedHeader(seqno: byte)
    ensures Oversized([0xaa, 0x55] + Sealed([TYPE_CMD, 254, 0, seqno]))
  {
    hide Crc16;
    var v := [0xaa, 0x55] + Sealed([TYPE_CMD, 254, 0, seqno]);
    assert v[6..8] == Le(Crc16([TYPE_CMD, 254, 0, seqno]));
    LeIsValid(v, 2, 6, [TYPE_CMD, 254, 0, seqno]);
  }

  /** Of the commands that can be serialized, it does those with 246 or 247 bytes of payload. */
  lemma OversizedIffLongPayload(seqno: byte, m: Cmd)
    requires |m.payload| <= 255 - CMDFRAME
    ensures Oversized(CommandFrame(seqno, m)) <==> |m.payload| > 245
  {
    hide Crc16, CommandFrame;
    CommandRoundTrip(seqno, m);
    FrameLength(seqno, m);
  }

  lemma FrameLength(seqno: byte, m: Cmd)
    requires |m.payload| <= 255 - CMDFRAME
    ensures |CommandFrame(seqno, m)| == MSG_LEN_CMD_BASE + CMDFRAME + |m.payload|
  {
  }

  // Which bytes are read

  /** A command that passes every check although it is shorter than the fixed part of a command. */
  predicate ShortCommand(v: seq<byte>) {
    && |v| >= MSG_LEN_CMD_BASE
    && HeaderOk(v)
    && v[2] == TYPE_CMD
    && v[3] < CMDFRAME
    && |v| >= MSG_LEN_CMD_BASE + v[3]
    && v[8] == TYPE_CMD
    && (var end: nat := CMDFRAME + v[3]; ValidCrc(v, 8, end))
  }

  /**
   The guard under which the code leaves the filled part: a short command whose request id
   is not there, or which is an event, or which is awaited and finds room.
   */
  predicate Overreads(c: Core, v: seq<byte>) {
    && ShortCommand(v)
    && (|v| < 15 || RqidIsEvent(RqidOf(v))
        || (c.mode == Command && RqidOf(v) == c.expectRqid && FifoAvail(c) >= 3 + PayloadLen(v[3])))
  }

  function Max(a: nat, b: nat): nat { if a >= b then a else b }

  // A command with good checksums is read up to its end and its request id; beyond that, the
  // payload of an event (its length is a 16-bit number) or of a response (its length is a byte).
  function ReadEndOfCommand(c: Core, v: seq<byte>): nat
    requires |v| >= MSG_LEN_CMD_BASE
  {
    var len := v[3];
    var end := Max(MSG_LEN_CMD_BASE + len, 15);
    if |v| < 15 then end
    else if RqidIsEvent(RqidOf(v)) then Max(end, 16 + (len + 0x1_0000 - CMDFRAME) % 0x1_0000)
    else if c.mode == Command && RqidOf(v) == c.expectRqid && FifoAvail(c) >= 3 + PayloadLen(len) then
      Max(end, 16 + PayloadLen(len))
    else end
  }

  /** One more than the largest offset the code reads in one evaluation step. */
  function ReadEnd(c: Core, v: seq<byte>): nat {
    if |v| < 6 then 0
    else if !ValidSyn(v) then 2
    else if v[2] == TYPE_ACK || v[2] == TYPE_RETRY then
      if |v| < MSG_LEN_CTRL then 3 else MSG_LEN_CTRL
    else if v[2] != TYPE_CMD || |v| < 8 then 3
    else if !ValidCrc(v, 2, 6) || |v| < MSG_LEN_CMD_BASE + v[3] then 8
    else if v[8] != TYPE_CMD then 9
    else
      var len: nat := v[3];
      if !ValidCrc(v, 8, 8 + len) then MSG_LEN_CMD_BASE + len else ReadEndOfCommand(c, v)
  }

  /** A step reads outside the filled part exactly under that guard, and this is what the flag records. */
  lemma OverreadIff(c: Core, v: seq<byte>)
    requires |v| <= EVAL_CAP
    ensures ReadEnd(c, v) > |v| <==> Overreads(c, v)
    ensures EvalBuf(c, v).core.overread <==> c.overread || Overreads(c, v)
  {
  }

  /** The states in which the loop evaluates, with the bytes it still has before it. */
  function Visits(c: Core, b: seq<byte>): seq<(Core, seq<byte>)>
    decreases |b|
  {
    if b == [] then []
    else
      var r := EvalBuf(c, b);
      [(c, b)] + if r.used == 0 then [] else Visits(r.core, b[r.used..])
  }

  /** A whole evaluation reads outside exactly if that guard holds at one of the places it comes to. */
  lemma {:induction false} LoopOverreadIff(c: Core, b: seq<byte>)
    requires |b| <= EVAL_CAP
    ensures EvalLoop(c, b).0.overread <==> c.overread || exists p <- Visits(c, b) :: Overreads(p.0, p.1)
    decreases |b|
  {
    hide EvalBuf, Overreads;
    if b != [] {
      var r := EvalBuf(c, b);
      OverreadIff(c, b);
      if r.used != 0 {
        var tail := Visits(r.core, b[r.used..]);
        LoopOverreadIff(r.core, b[r.used..]);
        assert Visits(c, b) == [(c, b)] + tail;
        assert forall p :: p in Visits(c, b) <==> p == (c, b) || p in tail;
      } else {
        assert Visits(c, b) == [(c, b)];
      }
    }
  }

  /** Every byte of a stream of delimitable frames that find room is read inside the filled part. */
  lemma {:induction false} StreamReadsInside(c: Core, frames: seq<seq<byte>>)
    requires AllDelimitable(frames) && AllRoom(c, frames) && !c.overread
    ensures !Fold(c, frames).overread
    decreases |frames|
  {
    hide EvalBuf, Delimitable, Room, Overreads;
    if frames != [] {
      FramesFit(frames);
      OverreadIff(c, frames[0]);
      DelimitableIsNotShort(c, frames[0]);
      StreamReadsInside(EvalBuf(c, frames[0]).core, frames[1..]);
    }
  }

  lemma DelimitableIsNotShort(c: Core, f: seq<byte>)
    requires Delimitable(f)
    ensures !Overreads(c, f)
  {
  }

  // A command part that consists of nothing but its type
  function ShortFrame(seqno: byte): seq<byte> {
    [0xaa, 0x55] + Sealed([TYPE_CMD, 1, 0, seqno]) + Sealed([TYPE_CMD])
  }

  lemma ShortFrameIsShort(seqno: byte)
    ensures ShortCommand(ShortFrame(seqno))
  {
    hide Crc16;
    var v := ShortFrame(seqno);
    assert v[2..6] == [TYPE_CMD, 1, 0, seqno] && v[6..8] == Le(Crc16([TYPE_CMD, 1, 0, seqno]));
    LeIsValid(v, 2, 6, [TYPE_CMD, 1, 0, seqno]);
    assert v[8..9] == [TYPE_CMD] && v[9..11] == Le(Crc16([TYPE_CMD]));
    LeIsValid(v, 8, 9, [TYPE_CMD]);
  }

  /** Eleven bytes with good checksums on which every receiver, in every state, reads outside. */
  lemma ShortFrameOverreads(c: Core, seqno: byte)
    ensures ReadEnd(c, ShortFrame(seqno)) > |ShortFrame(seqno)|
    ensures ReceiveBuf(c, [], ShortFrame(seqno)).0.overread
  {
    hide ShortFrame, EvalBuf, ReadEnd, ShortCommand;
    var v := ShortFrame(seqno);
    ShortFrameIsShort(seqno);
    assert |v| == 11 by { ShortFrameLength(seqno); }
    OverreadIff(c, v);
    assert [] + v[..Accepts([], v)] == v;
    LoopOverreadIff(c, v);
    assert (c, v) in Visits(c, v);
  }

  lemma ShortFrameLength(seqno: byte)
    ensures |ShortFrame(seqno)| == 11
  {
  }
}
