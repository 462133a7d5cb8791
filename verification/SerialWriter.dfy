/** The writer of the driver: a 263-byte array that is filled from the front. */
module SerialWriter {
  import opened Bytes
  import opened Crc
  import opened Frames

  // struct surface_sam_ssh_rqst; the payload length is a byte
  datatype Request = Request(tc: byte, iid: byte, cid: byte, snc: bool, payload: seq<byte>)

  // The bytes of a request under the given counters
  function RequestFrame(rqst: Request, seqno: byte, rqid: u16): (f: seq<byte>)
    requires |rqst.payload| <= MAX_RQST_PAYLOAD
    ensures |f| == 18 + |rqst.payload|
  {
    CommandFrame(seqno, Cmd(rqst.tc, 1, 0, rqst.iid, RqidToRqst(rqid), rqst.cid, rqst.payload))
  }

  class SshWriter {
    const data: array<byte>
    var ptr: nat

    ghost predicate Valid()
      reads this
    {
      data.Length == EVAL_CAP && ptr <= EVAL_CAP
    }

    ghost function Written(): seq<byte>
      reads this, data
      requires Valid()
    {
      data[..ptr]
    }

    constructor ()
      ensures Valid() && Written() == [] && fresh(data)
    {
      data := new byte[EVAL_CAP](_ => 0);
      ptr := 0;
    }

    method Put(b: byte)
      requires Valid() && ptr < EVAL_CAP
      modifies this`ptr, data
      ensures Valid() && Written() == old(Written()) + [b]
    {
      data[ptr] := b;
      ptr := ptr + 1;
    }

    method WriteU16(w: u16)
      requires Valid() && ptr + 2 <= EVAL_CAP
      modifies this`ptr, data
      ensures Valid() && Written() == old(Written()) + Le(w)
    {
      Put(Lo(w));
      Put(Hi(w));
    }

    // Appends the checksum of what was written from `begin` on.
    method WriteCrc(begin: nat)
      requires Valid() && begin <= ptr && ptr + 2 <= EVAL_CAP
      modifies this`ptr, data
      ensures Valid() && Written() == old(Written())[..begin] + Sealed(old(Written())[begin..])
    {
      WriteU16(Crc16(data[begin..ptr]));
    }

    method WriteSyn()
      requires Valid() && ptr + 2 <= EVAL_CAP
      modifies this`ptr, data
      ensures Valid() && Written() == old(Written()) + [0xaa, 0x55]
    {
      Put(0xaa);
      Put(0x55);
    }

    method WriteTer()
      requires Valid() && ptr + 2 <= EVAL_CAP
      modifies this`ptr, data
      ensures Valid() && Written() == old(Written()) + [0xff, 0xff]
    {
      Put(0xff);
      Put(0xff);
    }

    method WriteBuf(s: seq<byte>)
      requires Valid() && ptr + |s| <= EVAL_CAP
      modifies this`ptr, data
      ensures Valid() && Written() == old(Written()) + s
    {
      var i := 0;
      while i < |s|
        invariant i <= |s| && Valid() && ptr == old(ptr) + i
        invariant Written() == old(Written()) + s[..i]
      {
        Put(s[i]);
        i := i + 1;
      }
    }

    method WriteHdr(rqst: Request, seqno: byte)
      requires Valid() && ptr + 6 <= EVAL_CAP && |rqst.payload| <= MAX_RQST_PAYLOAD
      modifies this`ptr, data
      ensures Valid()
      ensures Written() == old(Written()) + Sealed([TYPE_CMD, CMDFRAME + |rqst.payload|, 0, seqno])
    {
      hide Crc16;
      var begin := ptr;
      WriteBuf([TYPE_CMD, CMDFRAME + |rqst.payload|, 0, seqno]);
      assert Written()[begin..] == [TYPE_CMD, CMDFRAME + |rqst.payload|, 0, seqno];
      WriteCrc(begin);
    }

    method WriteCmd(rqst: Request, rqid: u16)
      requires Valid() && ptr + 10 + |rqst.payload| <= EVAL_CAP
      modifies this`ptr, data
      ensures Valid()
      ensures Written() == old(Written())
        + Sealed(CommandPart(Cmd(rqst.tc, 1, 0, rqst.iid, RqidToRqst(rqid), rqst.cid, rqst.payload)))
    {
      hide Crc16;
      var begin := ptr;
      var id := RqidToRqst(rqid);
      WriteBuf([TYPE_CMD, rqst.tc, 0x01, 0x00, rqst.iid, Lo(id), Hi(id), rqst.cid]);
      WriteBuf(rqst.payload);
      assert Written()[begin..] == CommandPart(Cmd(rqst.tc, 1, 0, rqst.iid, id, rqst.cid, rqst.payload));
      WriteCrc(begin);
    }

    method WriteAck(seqno: byte)
      requires Valid() && ptr + 6 <= EVAL_CAP
      modifies this`ptr, data
      ensures Valid()
      ensures Written() == old(Written()) + Sealed([TYPE_ACK, 0, 0, seqno])
    {
      hide Crc16;
      var begin := ptr;
      WriteBuf([TYPE_ACK, 0x00, 0x00, seqno]);
      assert Written()[begin..] == [TYPE_ACK, 0, 0, seqno];
      WriteCrc(begin);
    }

    method Reset()
      requires Valid()
      modifies this`ptr
      ensures Valid() && Written() == []
    {
      ptr := 0;
    }

    method WriteMsgCmd(rqst: Request, seqno: byte, rqid: u16)
      requires Valid() && |rqst.payload| <= MAX_RQST_PAYLOAD
      modifies this`ptr, data
      ensures Valid() && Written() == RequestFrame(rqst, seqno, rqid)
    {
      hide Sealed, CommandPart;
      Reset();
      WriteSyn();
      WriteHdr(rqst, seqno);
      WriteCmd(rqst, rqid);
    }

    method WriteMsgAck(seqno: byte)
      requires Valid()
      modifies this`ptr, data
      ensures Valid() && Written() == ControlFrame(TYPE_ACK, seqno)
    {
      hide Crc16;
      Reset();
      WriteSyn();
      WriteAck(seqno);
      WriteTer();
    }
  }

  /** The acknowledgement of an event, built by hand. */
  method BuildEventAck(seqno: byte) returns (buf: array<byte>)
    ensures fresh(buf) && buf[..] == ControlFrame(TYPE_ACK, seqno)
  {
    hide Crc16;
    buf := new byte[MSG_LEN_CTRL](_ => 0);
    buf[0] := 0xaa;
    buf[1] := 0x55;
    buf[2] := 0x40;
    buf[3] := 0x00;
    buf[4] := 0x00;
    buf[5] := seqno;
    assert buf[2..6] == [0x40, 0, 0, seqno];
    var crc := Crc16(buf[2..6]);
    buf[6] := Lo(crc);
    buf[7] := Hi(crc);
    buf[8] := 0xff;
    buf[9] := 0xff;
  }
}
