/** Frames built by the serializer pass the receiver's checks and decode to what went in, and conversely. */
module RoundTrip {
  import opened Bytes
  import opened Crc
  import opened Frames
  import opened Receiver
  import opened Streams

  lemma LeIsValid(v: seq<byte>, begin: nat, end: nat, body: seq<byte>)
    requires begin <= end && end + 2 <= |v|
    requires v[begin..end] == body && v[end..end + 2] == Le(Crc16(body))
    ensures ValidCrc(v, begin, end)
  {
    assert v[end] == v[end..end + 2][0] && v[end + 1] == v[end..end + 2][1];
  }

  lemma ValidIsLe(v: seq<byte>, begin: nat, end: nat)
    requires begin <= end && end + 2 <= |v| && ValidCrc(v, begin, end)
    ensures v[begin..end + 2] == Sealed(v[begin..end])
  {
    assert v[begin..end + 2] == v[begin..end] + [v[end], v[end + 1]];
  }

  lemma CommandIsNoControl(f: seq<byte>)
    requires IsCommand(f)
    ensures !IsControl(f)
  {
  }

  /** Decoding a serialized control frame. */
  lemma ControlRoundTrip(kind: byte, seqno: byte)
    requires kind == TYPE_ACK || kind == TYPE_RETRY
    ensures var f := ControlFrame(kind, seqno);
      IsControl(f) && f[2] == kind && f[5] == seqno
  {
    var f := ControlFrame(kind, seqno);
    LeIsValid(f, 2, 6, [kind, 0, 0, seqno]);
  }

  /** Decoding a serialized command frame gives back every field and the payload. */
  lemma CommandRoundTrip(seqno: byte, c: Cmd)
    requires |c.payload| <= 255 - CMDFRAME
    ensures var f := CommandFrame(seqno, c);
      IsCommand(f) && f[5] == seqno && CommandOf(f) == c
  {
    hide ValidCrc, Crc16;
    var hdr := [TYPE_CMD, CMDFRAME + |c.payload|, 0, seqno];
    var body := CommandPart(c);
    var f := CommandFrame(seqno, c);
    assert f[2..6] == hdr && f[6..8] == Le(Crc16(hdr));
    assert f[8..|f| - 2] == body && f[|f| - 2..|f| - 2 + 2] == Le(Crc16(body));
    LeIsValid(f, 2, 6, hdr);
    LeIsValid(f, 8, |f| - 2, body);
    assert f[2] == f[2..6][0] && f[3] == f[2..6][1] && f[5] == f[2..6][3];
    BodyFields(f, body, c);
  }

  lemma BodyFields(f: seq<byte>, body: seq<byte>, c: Cmd)
    requires body == CommandPart(c) && |f| == |body| + 10 && f[8..|f| - 2] == body
    ensures f[8] == TYPE_CMD && CommandOf(f) == c
  {
    forall i | 0 <= i < |body| ensures f[8 + i] == body[i] {
      assert f[8..|f| - 2][i] == f[8 + i];
    }
    assert f[16..|f| - 2] == body[8..] == c.payload;
  }

  /** The bytes of a serialized control frame. */
  lemma ControlLayout(kind: byte, seqno: byte)
    ensures var f := ControlFrame(kind, seqno);
      && f[..6] == [0xaa, 0x55, kind, 0, 0, seqno] && f[8..] == [0xff, 0xff]
      && f[6] == Crc16(f[2..6]) % 0x100 && f[7] == Crc16(f[2..6]) / 0x100
  {
    hide Crc16;
    assert ControlFrame(kind, seqno)[2..6] == [kind, 0, 0, seqno];
  }

  /** The bytes of a serialized command. */
  lemma CommandLayout(seqno: byte, m: Cmd)
    requires |m.payload| <= 247
    ensures var f := CommandFrame(seqno, m);
      var n := |m.payload|;
      && |f| == 18 + n
      && f[..6] == [0xaa, 0x55, 0x80, 8 + n, 0, seqno]
      && f[6] == Crc16(f[2..6]) % 0x100 && f[7] == Crc16(f[2..6]) / 0x100
      && f[8..16] == [0x80, m.tc, m.out, m.inc, m.iid, m.rqid % 0x100, m.rqid / 0x100, m.cid]
      && f[16..16 + n] == m.payload
      && f[16 + n] == Crc16(f[8..16 + n]) % 0x100 && f[17 + n] == Crc16(f[8..16 + n]) / 0x100
  {
    hide Crc16;
    var f, n := CommandFrame(seqno, m), |m.payload|;
    assert f[2..6] == [0x80, 8 + n, 0, seqno];
    assert f[8..16 + n] == CommandPart(m);
    assert f[8..16 + n][..8] == f[8..16] && f[8..16 + n][8..] == f[16..16 + n];
  }

  lemma CommandParts(f: seq<byte>)
    requires IsCommand(f) && f[4] == 0
    ensures f[2..8] == Sealed([TYPE_CMD, CMDFRAME + |PayloadOf(f)|, 0, f[5]])
    ensures f[8..] == Sealed(CommandPart(CommandOf(f)))
  {
    hide Crc16;
    ValidIsLe(f, 2, 6);
    ValidIsLe(f, 8, |f| - 2);
    assert f[2..6] == [TYPE_CMD, CMDFRAME + |PayloadOf(f)|, 0, f[5]];
    assert f[8..|f| - 2] == CommandPart(CommandOf(f));
    assert f[8..|f| - 2 + 2] == f[8..];
  }

  /** A command frame with zero padding is the serialization of what it decodes to. */
  lemma CommandRebuilds(f: seq<byte>)
    requires IsCommand(f)
    ensures f == CommandFrame(f[5], CommandOf(f)) <==> f[4] == 0
  {
    hide Crc16, CommandPart, CommandOf, ValidCrc;
    assert CommandOf(f).payload == PayloadOf(f) by { PayloadOfDecoded(f); }
    assert CommandFrame(f[5], CommandOf(f))[4] == 0;
    if f[4] == 0 {
      CommandParts(f);
      assert f == f[..2] + f[2..8] + f[8..];
    }
  }

  lemma PayloadOfDecoded(f: seq<byte>)
    requires |f| >= 18
    ensures CommandOf(f).payload == PayloadOf(f)
  {
  }

  /** A control frame with zero length and padding is the serialization of its type and sequence id. */
  lemma ControlRebuilds(f: seq<byte>)
    requires IsControl(f)
    ensures f == ControlFrame(f[2], f[5]) <==> f[3] == 0 && f[4] == 0
  {
    hide Crc16;
    var g := ControlFrame(f[2], f[5]);
    assert g[3] == 0 && g[4] == 0;
    if f[3] == 0 && f[4] == 0 {
      ValidIsLe(f, 2, 6);
      assert f[2..6] == [f[2], 0, 0, f[5]];
      assert f == f[..2] + f[2..8] + f[8..];
    }
  }

  /**
   Through the receiver: a serialized response that is awaited and finds room is queued with
   its payload, and a serialized event is handed over with its fields, whatever follows.
   */
  lemma CommandIsReceived(c: Core, seqno: byte, m: Cmd, rest: seq<byte>)
    requires |m.payload| <= 245
    ensures var r := EvalBuf(c, CommandFrame(seqno, m) + rest);
      if 1 <= m.rqid <= 31 then
        r == Verdict(18 + |m.payload|,
                     c.(events := c.events + [Event(seqno, m.rqid, m.tc, m.iid, m.cid, m.payload)]))
      else if c.mode == Command && m.rqid == c.expectRqid && |c.fifo| + 3 + |m.payload| <= 512 then
        r == Verdict(18 + |m.payload|,
                     c.(fifo := c.fifo + [0x80, seqno, |m.payload|] + m.payload, mode := Discard,
                        signals := c.signals + 1, accepted := c.accepted + [CommandFrame(seqno, m)]))
      else
        r.core == c
  {
    hide Crc16, CommandFrame;
    CommandRoundTrip(seqno, m);
    CommandIsHandled(c, CommandFrame(seqno, m), rest);
  }

  lemma CommandIsHandled(c: Core, f: seq<byte>, rest: seq<byte>)
    requires IsCommand(f) && |f| <= EVAL_CAP
    ensures var r := EvalBuf(c, f + rest);
      if RqidIsEvent(RqidOf(f)) then r == Verdict(|f|, c.(events := c.events + [EventOf(f)]))
      else if c.mode == Command && RqidOf(f) == c.expectRqid && FifoAvail(c) >= |f| - 15 then
        r == Verdict(|f|, AcceptCmd(c, f))
      else r.core == c
  {
    CmdIsLocal(c, f, rest);
    assert f[..|f|] == f;
  }

  /** A RETRY, whatever its sequence id, is accepted as long as the ACK has not come. */
  lemma RetryIsReceived(c: Core, seqno: byte, rest: seq<byte>)
    ensures var f := ControlFrame(0x04, seqno);
      var r := EvalBuf(c, f + rest);
      && r.used == 10
      && r.core == (if c.mode == Control && |c.fifo| + 3 <= 512
                    then c.(fifo := c.fifo + [0x04, seqno, 0],
                            signals := c.signals + 1, accepted := c.accepted + [f])
                    else c)
  {
    hide Crc16, ControlFrame;
    var f := ControlFrame(TYPE_RETRY, seqno);
    ControlRoundTrip(TYPE_RETRY, seqno);
    CtrlIsLocal(c, f, rest);
    assert f[..MSG_LEN_CTRL] == f;
  }

  /** A serialized command is a notification exactly if its id is one of 1 to 31; then it is handed over, field by field. */
  lemma NoticedIffEventId(c: Core, seqno: byte, m: Cmd, rest: seq<byte>)
    requires |m.payload| <= 245
    ensures EvalBuf(c, CommandFrame(seqno, m) + rest).core.events
         == c.events + (if 1 <= m.rqid <= 31 then [Event(seqno, m.rqid, m.tc, m.iid, m.cid, m.payload)] else [])
  {
    hide EvalBuf, CommandFrame;
    CommandIsReceived(c, seqno, m, rest);
  }

  /** The acknowledgement of a request, received in its window, opens the way for the response. */
  lemma AckIsReceived(c: Core, seqno: byte, rest: seq<byte>)
    ensures var f := ControlFrame(0x40, seqno);
      var r := EvalBuf(c, f + rest);
      && r.used == 10
      && r.core == (if c.mode == Control && seqno == c.expectSeq && |c.fifo| + 3 <= 512
                    then c.(fifo := c.fifo + [0x40, seqno, 0],
                            mode := if c.expectPld then Command else Discard,
                            signals := c.signals + 1, accepted := c.accepted + [f])
                    else c)
  {
    hide Crc16, ControlFrame;
    var f := ControlFrame(TYPE_ACK, seqno);
    ControlRoundTrip(TYPE_ACK, seqno);
    CtrlIsLocal(c, f, rest);
    assert f[..MSG_LEN_CTRL] == f;
  }
}
