/**
 What one call of the receive path does, as functions of the receiver's state and of the
 filled part `v` of the evaluation buffer that it is handed.
 */
module Receiver {
  import opened Bytes
  import opened Frames

  datatype Mode = Discard | Control | Command

  datatype Event = Event(seqno: byte, rqid: u16, tc: byte, iid: byte, cid: byte, payload: seq<byte>)

  /**
   `signals` is the counter of the completion. Two fields are histories, which no branch
   reads: `accepted`, the frames queued since the last restart, and `events`, the
   notifications handed to the event code.
   `overread` says that the code has read a byte outside the filled part of the buffer;
   what it does from there on is unknown.
   */
  datatype Core = Core(mode: Mode, expectPld: bool, expectSeq: byte, expectRqid: u16,
                       fifo: seq<byte>, signals: nat,
                       accepted: seq<seq<byte>>, events: seq<Event>, overread: bool)

  datatype Verdict = Verdict(used: nat, core: Core)

  function FifoAvail(c: Core): int { FIFO_CAP - |c.fifo| }

  function ReceiveCtrl(c: Core, v: seq<byte>): Verdict
    requires |v| >= 6
  {
    if |v| < MSG_LEN_CTRL then Verdict(0, c)
    else if !ValidTer(v, 8) then Verdict(|v|, c)
    else if !ValidCrc(v, 2, 6) then Verdict(MSG_LEN_CTRL, c)
    else if c.mode != Control then Verdict(MSG_LEN_CTRL, c)
    else if v[2] == TYPE_ACK && v[5] != c.expectSeq then Verdict(MSG_LEN_CTRL, c)
    else if FifoAvail(c) < 3 then Verdict(MSG_LEN_CTRL, c)
    else Verdict(MSG_LEN_CTRL, AcceptCtrl(c, v[..MSG_LEN_CTRL]))
  }

  function AcceptCtrl(c: Core, f: seq<byte>): Core
    requires |f| == MSG_LEN_CTRL
  {
    c.(fifo := c.fifo + [f[2], f[5], 0],
       mode := if f[2] != TYPE_ACK then c.mode else if c.expectPld then Command else Discard,
       signals := c.signals + 1,
       accepted := c.accepted + [f])
  }

  // The payload length is a byte: for a command shorter than its fixed part it wraps around.
  function PayloadLen(len: byte): byte { (len + 0x100 - CMDFRAME) % 0x100 }

  function ReceiveCmd(c: Core, v: seq<byte>): Verdict
    requires |v| >= 6
  {
    if |v| < 8 then Verdict(0, c)
    else if !ValidCrc(v, 2, 6) then Verdict(|v|, c)
    else
      var len := v[3];
      var msgLen := MSG_LEN_CMD_BASE + len;
      if |v| < msgLen then Verdict(0, c)
      else if v[8] != TYPE_CMD then Verdict(|v|, c)
      else if !ValidCrc(v, 8, 8 + len) then Verdict(msgLen, c)
      else if |v| < 15 then Verdict(msgLen, c.(overread := true))
      else if RqidIsEvent(RqidOf(v)) then
        if len < CMDFRAME then Verdict(msgLen, c.(overread := true))
        else Verdict(msgLen, c.(events := c.events + [EventOf(v[..msgLen])]))
      else if c.mode != Command then Verdict(msgLen, c)
      else if RqidOf(v) != c.expectRqid then Verdict(msgLen, c)
      else if FifoAvail(c) < 3 + PayloadLen(len) then Verdict(MSG_LEN_CTRL, c)
      else if len < CMDFRAME then Verdict(msgLen, c.(overread := true))
      else Verdict(msgLen, AcceptCmd(c, v[..msgLen]))
  }

  function EventOf(f: seq<byte>): Event
    requires |f| >= 18
  {
    Event(f[5], RqidOf(f), f[9], f[12], f[15], PayloadOf(f))
  }

  function AcceptCmd(c: Core, f: seq<byte>): Core
    requires 18 <= |f| <= 265
  {
    c.(fifo := c.fifo + [f[2], f[5], |f| - 18] + PayloadOf(f),
       mode := Discard,
       signals := c.signals + 1,
       accepted := c.accepted + [f])
  }

  /** One evaluation step: how many bytes are consumed (0: wait for more), and the new state. */
  function EvalBuf(c: Core, v: seq<byte>): (r: Verdict)
    ensures r.used <= |v|
    ensures r.used == 0 ==> r.core == c
  {
    if |v| < 6 then Verdict(0, c)
    else if !ValidSyn(v) then Verdict(|v|, c)
    else if v[2] == TYPE_ACK || v[2] == TYPE_RETRY then ReceiveCtrl(c, v)
    else if v[2] == TYPE_CMD then ReceiveCmd(c, v)
    else Verdict(|v|, c)
  }

  /** The evaluation loop: what is left of the buffer, and the state afterwards. */
  function EvalLoop(c: Core, b: seq<byte>): (r: (Core, seq<byte>))
    ensures |r.1| <= |b| && r.1 == b[|b| - |r.1|..]
    decreases |b|
  {
    if b == [] then (c, b)
    else
      var r := EvalBuf(c, b);
      if r.used == 0 then (c, b) else EvalLoop(r.core, b[r.used..])
  }

  function Accepts(pending: seq<byte>, chunk: seq<byte>): (used: nat)
    requires |pending| <= EVAL_CAP
    ensures used <= |chunk| && |pending| + used <= EVAL_CAP
  {
    Min(|chunk|, EVAL_CAP - |pending|)
  }

  /** One call of the receive callback: new state and new content of the evaluation buffer. */
  function ReceiveBuf(c: Core, pending: seq<byte>, chunk: seq<byte>): (r: (Core, seq<byte>))
    requires |pending| <= EVAL_CAP
    ensures |r.1| <= EVAL_CAP
    ensures var b := pending + chunk[..Accepts(pending, chunk)];
      |r.1| <= |b| && r.1 == b[|b| - |r.1|..]
  {
    EvalLoop(c, pending + chunk[..Accepts(pending, chunk)])
  }

  function Restart(c: Core, expectPld: bool, expectSeq: byte, expectRqid: u16): Core {
    c.(signals := 0, mode := Control, expectPld := expectPld, expectSeq := expectSeq,
       expectRqid := expectRqid, accepted := [])
  }

  function DiscardAll(c: Core): Core {
    c.(mode := Discard, fifo := [])
  }
}
