/**
 The wire format of the Surface Serial Hub.

   control frame:  aa 55 | type len pad seq | crc | ff ff
   command frame:  aa 55 | 80   len pad seq | crc | 80 tc out in iid rqid rqid cid payload | crc

 `len` counts the command part without its checksum; checksums and request ids are little-endian.
 */
module Frames {
  import opened Bytes
  import opened Crc

  const TYPE_CMD: byte := 0x80
  const TYPE_ACK: byte := 0x40
  const TYPE_RETRY: byte := 0x04

  const MSG_LEN_CTRL := 10       // a whole control frame
  const MSG_LEN_CMD_BASE := 10   // a command frame without its command part
  const CMDFRAME := 8            // the command part without payload
  const MAX_RQST_PAYLOAD := 245
  const EVAL_CAP := 263          // 18 + 245, capacity of the write and evaluation buffers
  const FIFO_CAP := 512

  // The low five bits of a request id are reserved for events.
  const EVENT_SPAN := 32

  function RqidToRqst(rqid: u16): u16 { (rqid * EVENT_SPAN) % 0x1_0000 }

  predicate RqidIsEvent(rqid: u16) { 0 < rqid < EVENT_SPAN }

  predicate ValidSyn(v: seq<byte>)
    requires |v| >= 2
  {
    v[0] == 0xaa && v[1] == 0x55
  }

  predicate ValidTer(v: seq<byte>, at: nat)
    requires at + 2 <= |v|
  {
    v[at] == 0xff && v[at + 1] == 0xff
  }

  // The two bytes after v[begin..end] are its checksum.
  predicate ValidCrc(v: seq<byte>, begin: nat, end: nat)
    requires begin <= end && end + 2 <= |v|
  {
    var crc := Crc16(v[begin..end]);
    v[end] == Lo(crc) && v[end + 1] == Hi(crc)
  }

  predicate HeaderOk(v: seq<byte>)
    requires |v| >= 8
  {
    ValidSyn(v) && ValidCrc(v, 2, 6)
  }

  /** A control frame that passes every check. */
  predicate IsControl(f: seq<byte>) {
    && |f| == MSG_LEN_CTRL
    && HeaderOk(f)
    && (f[2] == TYPE_ACK || f[2] == TYPE_RETRY)
    && ValidTer(f, 8)
  }

  /** A command frame that passes every check. */
  predicate IsCommand(f: seq<byte>) {
    && |f| >= MSG_LEN_CMD_BASE + CMDFRAME
    && HeaderOk(f)
    && f[2] == TYPE_CMD
    && |f| == MSG_LEN_CMD_BASE + f[3]
    && f[8] == TYPE_CMD
    && ValidCrc(f, 8, |f| - 2)
  }

  function RqidOf(f: seq<byte>): u16
    requires |f| >= 15
  {
    Le16(f[13], f[14])
  }

  function PayloadOf(f: seq<byte>): seq<byte>
    requires |f| >= 18
  {
    f[16..|f| - 2]
  }

  // Building frames

  function Le(w: u16): seq<byte> { [Lo(w), Hi(w)] }

  function Sealed(body: seq<byte>): (s: seq<byte>)
    ensures |s| == |body| + 2
  {
    body + Le(Crc16(body))
  }

  function ControlFrame(kind: byte, seqno: byte): (f: seq<byte>)
    ensures |f| == MSG_LEN_CTRL
  {
    [0xaa, 0x55] + Sealed([kind, 0, 0, seqno]) + [0xff, 0xff]
  }

  datatype Cmd = Cmd(tc: byte, out: byte, inc: byte, iid: byte, rqid: u16, cid: byte, payload: seq<byte>)

  function CommandPart(c: Cmd): (s: seq<byte>)
    ensures |s| == CMDFRAME + |c.payload|
  {
    [TYPE_CMD, c.tc, c.out, c.inc, c.iid, Lo(c.rqid), Hi(c.rqid), c.cid] + c.payload
  }

  function CommandFrame(seqno: byte, c: Cmd): (f: seq<byte>)
    requires |c.payload| <= 255 - CMDFRAME
    ensures |f| == MSG_LEN_CMD_BASE + CMDFRAME + |c.payload|
  {
    [0xaa, 0x55] + Sealed([TYPE_CMD, CMDFRAME + |c.payload|, 0, seqno]) + Sealed(CommandPart(c))
  }

  function CommandOf(f: seq<byte>): Cmd
    requires |f| >= 18
  {
    Cmd(f[9], f[10], f[11], f[12], RqidOf(f), f[15], PayloadOf(f))
  }
}
