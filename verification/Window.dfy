/**
 What the receiver queues between a restart and the next discard: the FIFO holds exactly
 the packets of the frames accepted in this window and not yet read, and these frames are
 RETRY* ACK response, or a beginning of that.
 */
module Window {
  import opened Bytes
  import opened Frames
  import opened Receiver
  import opened Streams

  predicate IsRetry(f: seq<byte>) { IsControl(f) && f[2] == TYPE_RETRY }

  predicate IsAckFor(f: seq<byte>, seqno: byte) { IsControl(f) && f[2] == TYPE_ACK && f[5] == seqno }

  predicate IsResponseFor(f: seq<byte>, rqid: u16) {
    IsCommand(f) && |f| <= EVAL_CAP && RqidOf(f) == rqid && !RqidIsEvent(rqid)
  }

  // The packet queued for a frame: type, sequence id, payload length, payload
  function PacketBytes(f: seq<byte>): (p: seq<byte>)
    requires MSG_LEN_CTRL <= |f| <= 265
    ensures 3 <= |p| && |p| - 3 == p[2]
  {
    if |f| < 18 then [f[2], f[5], 0] else [f[2], f[5], |f| - 18] + PayloadOf(f)
  }

  predicate Packable(fs: seq<seq<byte>>) { forall f <- fs :: MSG_LEN_CTRL <= |f| <= 265 }

  function FifoBytes(fs: seq<seq<byte>>): (b: seq<byte>)
    requires Packable(fs)
    ensures |b| >= 3 * |fs|
  {
    if fs == [] then [] else PacketBytes(fs[0]) + FifoBytes(fs[1..])
  }

  // The number of RETRY frames at the front
  function Retries(fs: seq<seq<byte>>): (k: nat)
    ensures k <= |fs|
    ensures forall i :: 0 <= i < k ==> IsRetry(fs[i])
    ensures k < |fs| ==> !IsRetry(fs[k])
  {
    if fs == [] || !IsRetry(fs[0]) then 0 else 1 + Retries(fs[1..])
  }

  /** The accepted frames are a beginning of RETRY* ACK response, and the mode says which. */
  predicate Shaped(c: Core) {
    && Packable(c.accepted)
    && |c.fifo| <= FIFO_CAP
    && var k := Retries(c.accepted);
    && var n := |c.accepted| - k;
    && n <= 2
    && (n >= 1 ==> IsAckFor(c.accepted[k], c.expectSeq))
    && (n == 2 ==> c.expectPld && IsResponseFor(c.accepted[k + 1], c.expectRqid))
    && (c.mode == Control ==> n == 0)
    && (c.mode == Command ==> n == 1 && c.expectPld)
  }

  /** The window has got all it waits for. */
  predicate Complete(c: Core) {
    |c.accepted| == Retries(c.accepted) + (if c.expectPld then 2 else 1)
  }

  /** c' comes from c by accepting frames of the bytes b, each queued whole and signalled once. */
  ghost predicate Extends(c: Core, c': Core, b: seq<byte>) {
    && c.accepted <= c'.accepted
    && Packable(c'.accepted)
    && var added := c'.accepted[|c.accepted|..];
    && c'.fifo == c.fifo + FifoBytes(added)
    && c'.signals == c.signals + |added|
    && (c'.expectPld, c'.expectSeq, c'.expectRqid) == (c.expectPld, c.expectSeq, c.expectRqid)
    && (added == [] ==> c'.mode == c.mode)
    && (c.mode == Discard ==> added == [])
    && (c.mode != Discard && c'.mode == Discard ==> Complete(c'))
    && Shaped(c')
    && (forall f <- added :: OccursIn(f, b))
    && c.events <= c'.events
  }

  lemma {:induction false} RetriesOfAppended(fs: seq<seq<byte>>, f: seq<byte>)
    ensures Retries(fs + [f]) == if Retries(fs) == |fs| && IsRetry(f) then |fs| + 1 else Retries(fs)
  {
    if fs != [] {
      assert (fs + [f])[1..] == fs[1..] + [f];
      RetriesOfAppended(fs[1..], f);
    }
  }

  lemma PackableParts(fs: seq<seq<byte>>, gs: seq<seq<byte>>)
    requires Packable(fs) && Packable(gs)
    ensures Packable(fs + gs) && (fs != [] ==> Packable(fs[1..]) && Packable(fs[1..] + gs))
    ensures fs == [] ==> fs + gs == gs
    ensures fs != [] ==> (fs + gs)[0] == fs[0] && (fs + gs)[1..] == fs[1..] + gs
  {
  }

  lemma {:induction false} FifoBytesSplit(fs: seq<seq<byte>>, gs: seq<seq<byte>>)
    requires Packable(fs) && Packable(gs)
    ensures Packable(fs + gs) && FifoBytes(fs + gs) == FifoBytes(fs) + FifoBytes(gs)
  {
    PackableParts(fs, gs);
    if fs != [] {
      hide Packable, PacketBytes, FifoBytes;
      FifoBytesSplit(fs[1..], gs);
      FifoBytesFirst(fs);
      FifoBytesFirst(fs + gs);
    }
  }

  lemma FifoBytesFirst(fs: seq<seq<byte>>)
    requires Packable(fs) && fs != []
    ensures FifoBytes(fs) == PacketBytes(fs[0]) + FifoBytes(fs[1..])
  {
  }

  lemma FifoBytesOne(f: seq<byte>)
    requires MSG_LEN_CTRL <= |f| <= 265
    ensures FifoBytes([f]) == PacketBytes(f)
  {
    assert [f][1..] == [];
  }

  // Accepting nothing, whatever happens to events

  lemma NothingAccepted(c: Core, c': Core, b: seq<byte>)
    requires Shaped(c) && Unaccepting(c, c')
    ensures Extends(c, c', b)
  {
    assert c.accepted[|c.accepted|..] == [];
  }

  lemma CtrlAccepted(c: Core, f: seq<byte>, b: seq<byte>)
    requires Shaped(c) && c.mode == Control && FifoAvail(c) >= 3
    requires IsControl(f) && (f[2] == TYPE_ACK ==> f[5] == c.expectSeq)
    requires OccursIn(f, b)
    ensures Extends(c, AcceptCtrl(c, f), b)
  {
    var c' := AcceptCtrl(c, f);
    assert c'.accepted[|c.accepted|..] == [f];
    RetriesOfAppended(c.accepted, f);
    FifoBytesOne(f);
  }

  lemma CmdAccepted(c: Core, f: seq<byte>, b: seq<byte>)
    requires Shaped(c) && c.mode == Command && FifoAvail(c) >= |f| - 15
    requires IsResponseFor(f, c.expectRqid)
    requires OccursIn(f, b)
    ensures Extends(c, AcceptCmd(c, f), b)
  {
    var c' := AcceptCmd(c, f);
    assert c'.accepted[|c.accepted|..] == [f];
    RetriesOfAppended(c.accepted, f);
    FifoBytesOne(f);
    assert c'.fifo == c.fifo + FifoBytes([f]);
  }

  lemma PrefixOccurs(v: seq<byte>, n: nat)
    requires n <= |v|
    ensures OccursIn(v[..n], v)
  {
    assert v[0..][..n] == v[..n];
  }

  predicate Unaccepting(c: Core, c': Core) {
    c' == c.(events := c'.events, overread := c'.overread) && c.events <= c'.events
  }

  predicate TakesCtrl(c: Core, c': Core, v: seq<byte>) {
    && |v| >= MSG_LEN_CTRL && c.mode == Control && FifoAvail(c) >= 3
    && var f := v[..MSG_LEN_CTRL];
    && c' == AcceptCtrl(c, f) && IsControl(f) && (f[2] == TYPE_ACK ==> f[5] == c.expectSeq)
  }

  predicate TakesCmd(c: Core, c': Core, v: seq<byte>) {
    && |v| >= 18 && c.mode == Command && |v| >= MSG_LEN_CMD_BASE + v[3] >= 18
    && var f := v[..MSG_LEN_CMD_BASE + v[3]];
    && c' == AcceptCmd(c, f) && IsResponseFor(f, c.expectRqid) && FifoAvail(c) >= |f| - 15
  }

  lemma CtrlKinds(c: Core, v: seq<byte>)
    requires |v| >= 6 && ValidSyn(v) && (v[2] == TYPE_ACK || v[2] == TYPE_RETRY)
    ensures var c' := ReceiveCtrl(c, v).core;
      c' == c || TakesCtrl(c, c', v)
  {
    if |v| >= MSG_LEN_CTRL {
      assert v == v[..MSG_LEN_CTRL] + v[MSG_LEN_CTRL..];
      ParseIsLocal(v[..MSG_LEN_CTRL], v[MSG_LEN_CTRL..], 2, 6);
    }
  }

  lemma CmdKinds(c: Core, v: seq<byte>)
    requires 6 <= |v| <= EVAL_CAP && ValidSyn(v) && v[2] == TYPE_CMD
    ensures var c' := ReceiveCmd(c, v).core;
      Unaccepting(c, c') || TakesCmd(c, c', v)
  {
    if |v| >= MSG_LEN_CTRL && |v| >= MSG_LEN_CMD_BASE + v[3] {
      var n := MSG_LEN_CMD_BASE + v[3];
      assert v == v[..n] + v[n..];
      ParseIsLocal(v[..n], v[n..], 2, 6);
      ParseIsLocal(v[..n], v[n..], 8, n - 2);
    }
  }

  /** A step accepts nothing, or the control frame or the response at the front. */
  lemma StepKinds(c: Core, v: seq<byte>)
    requires |v| <= EVAL_CAP
    ensures var c' := EvalBuf(c, v).core;
      Unaccepting(c, c') || TakesCtrl(c, c', v) || TakesCmd(c, c', v)
  {
    hide ReceiveCtrl, ReceiveCmd, TakesCtrl, TakesCmd;
    if |v| >= 6 && ValidSyn(v) {
      if v[2] == TYPE_CMD {
        CmdKinds(c, v);
      } else if v[2] == TYPE_ACK || v[2] == TYPE_RETRY {
        CtrlKinds(c, v);
      }
    }
  }

  lemma StepExtends(c: Core, v: seq<byte>)
    requires Shaped(c) && |v| <= EVAL_CAP
    ensures Extends(c, EvalBuf(c, v).core, v)
  {
    hide EvalBuf, IsControl, IsCommand, Extends, Shaped;
    StepKinds(c, v);
    var c' := EvalBuf(c, v).core;
    if Unaccepting(c, c') {
      NothingAccepted(c, c', v);
    } else if c.mode == Control {
      PrefixOccurs(v, MSG_LEN_CTRL);
      CtrlAccepted(c, v[..MSG_LEN_CTRL], v);
    } else {
      PrefixOccurs(v, MSG_LEN_CMD_BASE + v[3]);
      CmdAccepted(c, v[..MSG_LEN_CMD_BASE + v[3]], v);
    }
  }

  lemma OccursInLonger(f: seq<byte>, b: seq<byte>, n: nat)
    requires n <= |b| && OccursIn(f, b[n..])
    ensures OccursIn(f, b)
  {
    var i :| 0 <= i <= |b[n..]| - |f| && b[n..][i..][..|f|] == f;
    assert b[n + i..][..|f|] == b[n..][i..][..|f|];
  }

  lemma ExtendsTransitive(c: Core, d: Core, e: Core, b: seq<byte>, n: nat)
    requires n <= |b| && Extends(c, d, b) && Extends(d, e, b[n..])
    ensures Extends(c, e, b)
  {
    hide Shaped, OccursIn, FifoBytes, Complete;
    var first, second := d.accepted[|c.accepted|..], e.accepted[|d.accepted|..];
    var both := e.accepted[|c.accepted|..];
    assert both == first + second;
    FifoBytesSplit(first, second);
    assert e.fifo == c.fifo + FifoBytes(both);
    forall f | f in both ensures OccursIn(f, b) {
      if f in second {
        OccursInLonger(f, b, n);
      }
    }
    if d.mode == Discard {
      CompleteSame(d, e);
    }
    assert both == [] ==> first == [] && second == [];
  }

  lemma CompleteSame(c: Core, d: Core)
    requires c.accepted == d.accepted && c.expectPld == d.expectPld
    ensures Complete(c) == Complete(d)
  {
  }

  lemma {:induction false} LoopExtends(c: Core, b: seq<byte>)
    requires Shaped(c) && |b| <= EVAL_CAP
    ensures Extends(c, EvalLoop(c, b).0, b)
    decreases |b|
  {
    hide EvalBuf, Extends, Shaped;
    var r := EvalBuf(c, b);
    if b == [] || r.used == 0 {
      NothingAccepted(c, c, b);
    } else {
      StepExtends(c, b);
      ExtendedIsShaped(c, r.core, b);
      LoopExtends(r.core, b[r.used..]);
      ExtendsTransitive(c, r.core, EvalLoop(c, b).0, b, r.used);
    }
  }

  lemma ExtendedIsShaped(c: Core, c': Core, b: seq<byte>)
    requires Extends(c, c', b)
    ensures Shaped(c')
  {
  }

  /**
   A call of the receive callback: completions match packets, the accepted frames keep the
   shape RETRY* ACK response, and each is a contiguous part of the buffered bytes.
   */
  lemma ReceiveExtends(c: Core, pending: seq<byte>, chunk: seq<byte>)
    requires Shaped(c) && |pending| <= EVAL_CAP
    ensures Extends(c, ReceiveBuf(c, pending, chunk).0, pending + chunk[..Accepts(pending, chunk)])
  {
    LoopExtends(c, pending + chunk[..Accepts(pending, chunk)]);
  }
}
