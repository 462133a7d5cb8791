/** The receiver as the driver runs it: fields updated in place, and a 263-byte evaluation buffer. */
module SerialReceiver {
  import opened Bytes
  import opened Frames
  import opened Receiver

  class SshReceiver {
    var mode: Mode
    var signals: nat               // the completion's counter
    var fifo: seq<byte>
    var expectPld: bool
    var expectSeq: byte
    var expectRqid: u16
    const buf: array<byte>
    var len: nat
    var events: seq<Event>         // notifications handed over to the event code
    ghost var accepted: seq<seq<byte>>
    ghost var overread: bool

    ghost predicate Valid()
      reads this
    {
      buf.Length == EVAL_CAP && len <= EVAL_CAP
    }

    ghost function State(): Core
      reads this
    {
      Core(mode, expectPld, expectSeq, expectRqid, fifo, signals, accepted, events, overread)
    }

    ghost function Pending(): seq<byte>
      reads this, buf
      requires Valid()
    {
      buf[..len]
    }

    constructor ()
      ensures Valid() && fresh(buf) && Pending() == []
      ensures State() == Core(Discard, false, 0, 0, [], 0, [], [], false)
    {
      buf := new byte[EVAL_CAP](_ => 0);
      mode, signals, fifo, len := Discard, 0, [], 0;
      expectPld, expectSeq, expectRqid := false, 0, 0;
      events, accepted, overread := [], [], false;
    }

    method Restart(pld: bool, seqno: byte, rqid: u16)
      requires Valid()
      modifies this
      ensures Valid() && Pending() == []
      ensures State() == Receiver.Restart(old(State()), pld, seqno, rqid)
    {
      signals := 0;
      mode := Control;
      expectPld, expectSeq, expectRqid := pld, seqno, rqid;
      len := 0;
      accepted := [];
    }

    method DiscardAll()
      requires Valid()
      modifies this
      ensures Valid() && Pending() == []
      ensures State() == Receiver.DiscardAll(old(State()))
    {
      mode := Discard;
      len := 0;
      fifo := [];
    }

    // kfifo_out: at most n bytes, as many as there are
    method FifoOut(n: nat) returns (out: seq<byte>)
      modifies this`fifo
      ensures out + fifo == old(fifo) && |out| == Min(n, |old(fifo)|)
    {
      var k := Min(n, |fifo|);
      out := fifo[..k];
      fifo := fifo[k..];
    }

    method ReceiveMsgCtrl(v: seq<byte>) returns (n: nat)
      requires |v| >= 6
      modifies this`mode, this`signals, this`fifo, this`accepted
      ensures Verdict(n, State()) == ReceiveCtrl(old(State()), v)
    {
      if |v| < MSG_LEN_CTRL {
        return 0;
      }
      if !ValidTer(v, 8) {
        return |v|;
      }
      if !ValidCrc(v, 2, 6) {
        return MSG_LEN_CTRL;
      }
      if mode != Control {
        return MSG_LEN_CTRL;
      }
      if v[2] == TYPE_ACK && v[5] != expectSeq {
        return MSG_LEN_CTRL;
      }
      if FIFO_CAP - |fifo| >= 3 {
        fifo := fifo + [v[2], v[5], 0];
      } else {
        return MSG_LEN_CTRL;
      }
      if v[2] == TYPE_ACK {
        mode := if expectPld then Command else Discard;
      }
      accepted := accepted + [v[..MSG_LEN_CTRL]];
      signals := signals + 1;
      return MSG_LEN_CTRL;
    }

    method ReceiveMsgCmd(v: seq<byte>) returns (n: nat)
      requires |v| >= 6
      modifies this`mode, this`signals, this`fifo, this`accepted, this`events, this`overread
      ensures Verdict(n, State()) == ReceiveCmd(old(State()), v)
    {
      if |v| < 8 {
        return 0;
      }
      if !ValidCrc(v, 2, 6) {
        return |v|;
      }
      var len: nat := v[3];
      var msgLen := MSG_LEN_CMD_BASE + len;
      if |v| < msgLen {
        return 0;
      }
      if v[8] != TYPE_CMD {
        return |v|;
      }
      if !ValidCrc(v, 8, 8 + len) {
        return msgLen;
      }
      if |v| < 15 {
        overread := true;       // the request id is not in the buffer
        return msgLen;
      }
      var rqid := Le16(v[13], v[14]);
      if RqidIsEvent(rqid) {
        if len < CMDFRAME {
          overread := true;     // the payload length has wrapped around
        } else {
          var f := v[..msgLen];
          events := events + [Event(f[5], rqid, f[9], f[12], f[15], f[16..msgLen - 2])];
        }
        return msgLen;
      }
      if mode != Command {
        return msgLen;
      }
      if expectRqid != rqid {
        return msgLen;
      }
      var payloadLen: nat := PayloadLen(len);
      if FIFO_CAP - |fifo| >= 3 + payloadLen {
        if len < CMDFRAME {
          overread := true;     // the payload length has wrapped around
          return msgLen;
        }
        fifo := fifo + [v[2], v[5], payloadLen];
        fifo := fifo + v[..msgLen][16..16 + payloadLen];
      } else {
        return MSG_LEN_CTRL;
      }
      mode := Discard;
      accepted := accepted + [v[..msgLen]];
      signals := signals + 1;
      return msgLen;
    }

    method EvalBuf(v: seq<byte>) returns (n: nat)
      modifies this`mode, this`signals, this`fifo, this`accepted, this`events, this`overread
      ensures Verdict(n, State()) == Receiver.EvalBuf(old(State()), v)
    {
      if |v| < 6 {
        return 0;
      }
      if !ValidSyn(v) {
        return |v|;
      }
      var kind := v[2];
      if kind == TYPE_ACK || kind == TYPE_RETRY {
        n := ReceiveMsgCtrl(v);
      } else if kind == TYPE_CMD {
        n := ReceiveMsgCmd(v);
      } else {
        return |v|;
      }
    }

    method ReceiveBuf(chunk: seq<byte>) returns (used: nat)
      requires Valid()
      modifies this, buf
      ensures Valid()
      ensures used == Accepts(old(Pending()), chunk)
      ensures (State(), Pending()) == Receiver.ReceiveBuf(old(State()), old(Pending()), chunk)
    {
      hide EvalLoop;
      used := Min(|chunk|, buf.Length - len);
      Append(chunk[..used]);
      assert Pending() == old(Pending()) + chunk[..used];
      var offs := Evaluate();
      DropFront(offs);
    }

    // Evaluates the buffer until more bytes are needed or it is empty.
    method Evaluate() returns (offs: nat)
      requires Valid()
      modifies this`mode, this`signals, this`fifo, this`accepted, this`events, this`overread
      ensures offs <= len
      ensures (State(), Pending()[offs..]) == EvalLoop(old(State()), Pending())
    {
      hide Receiver.EvalBuf;
      ghost var all := Pending();
      ghost var start := State();
      offs := 0;
      while offs < len
        invariant offs <= len
        invariant EvalLoop(State(), all[offs..]) == EvalLoop(start, all)
        decreases len - offs
      {
        var v := buf[offs..len];
        assert v == all[offs..];
        ghost var core := State();
        var n := EvalBuf(v);
        if n <= 0 {
          break;
        }
        assert all[offs..][n..] == all[offs + n..];
        offs := offs + n;
      }
    }

    // Copies bytes behind the filled part.
    method Append(s: seq<byte>)
      requires Valid() && len + |s| <= EVAL_CAP
      modifies this`len, buf
      ensures Valid() && Pending() == old(Pending()) + s
    {
      var i := 0;
      while i < |s|
        invariant i <= |s| && len == old(len)
        invariant buf[..len + i] == old(buf[..len]) + s[..i]
      {
        buf[len + i] := s[i];
        i := i + 1;
      }
      len := len + |s|;
    }

    // Moves what is behind the first n bytes to the front.
    method DropFront(n: nat)
      requires Valid() && n <= len
      modifies this`len, buf
      ensures Valid() && Pending() == old(Pending())[n..]
    {
      len := len - n;
      var i := 0;
      while i < len
        invariant i <= len == old(len) - n
        invariant buf[..i] == old(buf[..])[n..n + i]
        invariant forall k :: n + i <= k < EVAL_CAP ==> buf[k] == old(buf[k])
      {
        buf[i] := buf[n + i];
        i := i + 1;
      }
    }
  }
}
