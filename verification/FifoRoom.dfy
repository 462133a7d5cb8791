/** When the 512 bytes of the FIFO are enough, and what happens when they are not. */
module FifoRoom {
  import opened Bytes
  import opened Frames
  import opened Receiver
  import opened Streams
  import opened Window

  const RETRY_BUDGET := 87

  lemma {:induction false} ControlPackets(fs: seq<seq<byte>>)
    requires forall f <- fs :: IsControl(f)
    ensures Packable(fs) && |FifoBytes(fs)| == 3 * |fs|
  {
    hide IsControl;
    forall f <- fs ensures |f| == MSG_LEN_CTRL {
      ControlLength(f);
    }
    if fs != [] {
      ControlPackets(fs[1..]);
    }
  }

  lemma ControlLength(f: seq<byte>)
    requires IsControl(f)
    ensures |f| == MSG_LEN_CTRL
  {
  }

  lemma AllControlBeforeResponse(c: Core)
    requires Shaped(c) && c.mode != Discard
    ensures |FifoBytes(c.accepted)| == 3 * |c.accepted|
    ensures |c.accepted| == Retries(c.accepted) + if c.mode == Command then 1 else 0
  {
    ControlPackets(c.accepted);
  }

  /**
   With nothing read yet, the largest response of 245 bytes finds room exactly if at most
   87 RETRY packets came before the ACK: 3 * 88 + 3 + 245 == 512.
   */
  lemma RoomIffFewRetries(c: Core)
    requires Shaped(c) && c.mode == Command && c.fifo == FifoBytes(c.accepted)
    ensures |c.fifo| + 3 + 245 <= 512 <==> Retries(c.accepted) <= 87
  {
    AllControlBeforeResponse(c);
  }

  /** Neither branch that drops a frame for want of space is reachable within the budget. */
  lemma BudgetGivesRoom(c: Core, f: seq<byte>)
    requires Shaped(c) && |c.fifo| <= |FifoBytes(c.accepted)|
    requires Retries(c.accepted) <= RETRY_BUDGET && |f| <= EVAL_CAP
    ensures c.mode == Control ==> FifoAvail(c) >= 3
    ensures Room(c, f)
  {
    hide IsCommand, IsControl, Shaped;
    if c.mode != Discard {
      AllControlBeforeResponse(c);
    }
    if Awaited(c, f) {
      CommandLength(f);
    }
  }

  lemma CommandLength(f: seq<byte>)
    requires IsCommand(f)
    ensures |f| >= 18
  {
  }

  lemma {:induction false} RetriesMonotone(fs: seq<seq<byte>>, gs: seq<seq<byte>>)
    requires fs <= gs
    ensures Retries(fs) <= Retries(gs)
  {
    if fs != [] {
      RetriesMonotone(fs[1..], gs[1..]);
    }
  }

  lemma StepKeepsBacklog(c: Core, v: seq<byte>)
    requires Shaped(c) && |v| <= EVAL_CAP && |c.fifo| <= |FifoBytes(c.accepted)|
    ensures var d := EvalBuf(c, v).core;
      Shaped(d) && c.accepted <= d.accepted && |d.fifo| <= |FifoBytes(d.accepted)|
  {
    hide EvalBuf, Shaped, FifoBytes, OccursIn;
    StepExtends(c, v);
    var d := EvalBuf(c, v).core;
    ExtendedIsShaped(c, d, v);
    ShapedIsPackable(c);
    var added := d.accepted[|c.accepted|..];
    assert d.accepted == c.accepted + added;
    FifoBytesSplit(c.accepted, added);
  }

  lemma ShapedIsPackable(c: Core)
    requires Shaped(c)
    ensures Packable(c.accepted)
  {
  }

  /** A window that accepts at most 87 RETRY frames has room for every frame of its stream. */
  lemma {:induction false} WindowHasRoom(c: Core, frames: seq<seq<byte>>)
    requires AllDelimitable(frames)
    requires Shaped(c) && |c.fifo| <= |FifoBytes(c.accepted)|
    requires Retries(Fold(c, frames).accepted) <= RETRY_BUDGET
    ensures AllRoom(c, frames)
    ensures c.accepted <= Fold(c, frames).accepted
    decreases |frames|
  {
    hide EvalBuf, Shaped, Room, FifoBytes, Retries;
    if frames != [] {
      FramesFit(frames);
      var d := EvalBuf(c, frames[0]).core;
      StepKeepsBacklog(c, frames[0]);
      WindowHasRoom(d, frames[1..]);
      RetriesMonotone(c.accepted, Fold(c, frames).accepted);
      BudgetGivesRoom(c, frames[0]);
    }
  }

  /**
   Chunk independence without any hypothesis on the FIFO: from a restart on, as long as
   the stream holds at most 87 RETRY frames that are accepted.
   */
  lemma ChunkIndependenceInWindow(c: Core, pld: bool, seqno: byte, rqid: u16,
                                  frames: seq<seq<byte>>, offers: seq<nat>) returns (k: nat)
    requires c.fifo == [] && AllDelimitable(frames)
    requires Retries(Fold(Restart(c, pld, seqno, rqid), frames).accepted) <= RETRY_BUDGET
    ensures k <= |frames|
    ensures var start := Restart(c, pld, seqno, rqid);
      var d := Deliver(Drive(start, [], 0), Concat(frames), offers);
      && |Concat(frames[..k])| <= d.pos
      && d.core == Fold(start, frames[..k])
      && d.pending == Concat(frames)[|Concat(frames[..k])|..d.pos]
      && (d.pos == |Concat(frames)| ==> d.core == Fold(start, frames) && d.pending == [])
  {
    hide EvalBuf, Fold, AllRoom, Deliver, Concat;
    var start := Restart(c, pld, seqno, rqid);
    WindowHasRoom(start, frames);
    k := ChunkIndependence(start, frames, offers);
  }
}
