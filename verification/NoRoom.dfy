/**
 What happens when an awaited response finds no room in the FIFO: it is cut after ten bytes,
 and then the chunks in which bytes arrive do matter.
 */
module NoRoom {
  import opened Bytes
  import opened Frames
  import opened Receiver
  import opened Streams
  import opened RoundTrip

  /** Without room, an awaited response is cut after ten bytes. */
  lemma NoRoomCutsFrame(c: Core, f: seq<byte>, rest: seq<byte>)
    requires CmdShaped(f) && Awaited(c, f) && !Room(c, f)
    ensures EvalBuf(c, f + rest) == Verdict(MSG_LEN_CTRL, c)
  {
    hide EvalBuf, CmdShaped, Awaited, Room;
    CmdIsLocal(c, f, rest);
    NoRoomVerdict(c, f);
  }

  lemma NoRoomVerdict(c: Core, f: seq<byte>)
    requires CmdShaped(f) && Awaited(c, f) && !Room(c, f)
    ensures EvalBuf(c, f) == Verdict(MSG_LEN_CTRL, c)
  {
  }

  // The bytes of an awaited response that are left when it is cut do not look like a new message.
  // (Its fields `out` and `in` are where the sync bytes would be.)
  predicate CutIsGarbage(f: seq<byte>)
    requires |f| >= 18
  {
    f[10] != 0xaa || f[11] != 0x55
  }

  // A response f that finds no room, and a notification g behind it
  predicate Crowded(c: Core, f: seq<byte>, g: seq<byte>) {
    && CmdShaped(f) && Awaited(c, f) && !Room(c, f)
    && 18 <= |f| && CutIsGarbage(f)
    && IsCommand(g) && |g| <= EVAL_CAP && RqidIsEvent(RqidOf(g))
  }

  function Noticed(c: Core, g: seq<byte>): Core
    requires IsCommand(g)
  {
    c.(events := c.events + [EventOf(g)])
  }

  /**
   So chunks do matter there: if the call that completes the response brings the first byte
   of the notification with it, the notification is lost; if it does not, it is noticed.
   */
  lemma ChunksMatterWithoutRoom(c: Core, f: seq<byte>, g: seq<byte>)
    requires Crowded(c, f, g) && |f| < EVAL_CAP
    ensures Deliver(Drive(c, [], 0), f + g, [|f| + 1, |g| - 1]) == Drive(c, [], |f| + |g|)
    ensures Deliver(Drive(c, [], 0), f + g, [|f|, |g|]) == Drive(Noticed(c, g), [], |f| + |g|)
  {
    hide Offer, Deliver, Noticed, Crowded, IsCommand;
    CrowdedLengths(c, f, g);
    EventCall(c, f, g);
    LostCall(c, f, g);
    FirstCall(c, f, g, []);
    FirstCall(c, f, g, g[..1]);
    TwoOffers(Drive(c, [], 0), f + g, |f|, |g|);
    TwoOffers(Drive(c, [], 0), f + g, |f| + 1, |g| - 1);
  }

  lemma CrowdedLengths(c: Core, f: seq<byte>, g: seq<byte>)
    requires Crowded(c, f, g)
    ensures 18 <= |f| <= EVAL_CAP && 18 <= |g| <= EVAL_CAP && g[1] != 0xaa && IsCommand(g)
  {
  }

  // A call that takes f and a part of what follows, all in vain
  lemma FirstCall(c: Core, f: seq<byte>, g: seq<byte>, rest: seq<byte>)
    requires Crowded(c, f, g) && IsPrefix(rest, g) && |f| + |rest| <= EVAL_CAP
    ensures Offer(Drive(c, [], 0), f + g, |f| + |rest|) == Drive(c, [], |f| + |rest|)
  {
    hide EvalLoop, Offer, Crowded;
    assert (f + g)[0..0 + (|f| + |rest|)] == f + rest;
    LoopWithoutRoom(c, f, g, rest);
    FreshCall(c, f + g, 0, |f| + |rest|);
  }

  lemma EventCall(c: Core, f: seq<byte>, g: seq<byte>)
    requires Crowded(c, f, g)
    ensures Offer(Drive(c, [], |f|), f + g, |g|) == Drive(Noticed(c, g), [], |f| + |g|)
  {
    hide EvalLoop, Offer;
    assert (f + g)[|f|..|f| + |g|] == g;
    EventIsNoticed(c, g);
    FreshCall(c, f + g, |f|, |g|);
  }

  lemma LostCall(c: Core, f: seq<byte>, g: seq<byte>)
    requires Crowded(c, f, g)
    ensures Offer(Drive(c, [], |f| + 1), f + g, |g| - 1) == Drive(c, [], |f| + |g|)
  {
    hide EvalLoop, Offer, Crowded, IsCommand;
    CrowdedLengths(c, f, g);
    assert (f + g)[|f| + 1..|f| + |g|] == g[1..];
    GarbageIsDropped(c, g[1..]);
    FreshCall(c, f + g, |f| + 1, |g| - 1);
  }

  lemma LoopWithoutRoom(c: Core, f: seq<byte>, g: seq<byte>, rest: seq<byte>)
    requires Crowded(c, f, g)
    ensures EvalLoop(c, f + rest) == (c, [])
  {
    hide EvalBuf, CmdShaped, Awaited, Room, IsCommand;
    NoRoomCutsFrame(c, f, rest);
    GarbageIsDropped(c, (f + rest)[MSG_LEN_CTRL..]);
  }

  lemma GarbageIsDropped(c: Core, v: seq<byte>)
    requires |v| >= 6 && (v[0] != 0xaa || v[1] != 0x55)
    ensures EvalLoop(c, v) == (c, [])
  {
    assert EvalBuf(c, v) == Verdict(|v|, c);
  }

  lemma EventIsNoticed(c: Core, g: seq<byte>)
    requires IsCommand(g) && RqidIsEvent(RqidOf(g))
    ensures EvalLoop(c, g) == (c.(events := c.events + [EventOf(g)]), [])
  {
    assert g[..|g|] == g;
    assert EvalBuf(c, g) == Verdict(|g|, c.(events := c.events + [EventOf(g)]));
  }

  // A response as large as the evaluation buffer is always evaluated alone.

  lemma {:induction false} LargestAlone(c: Core, f: seq<byte>, g: seq<byte>, p: nat, offers: seq<nat>)
    requires Crowded(c, f, g) && |f| == EVAL_CAP && p < |f|
    ensures var d := Deliver(Drive(c, f[..p], p), f + g, offers);
      d.pos == |f| + |g| ==> d.core == Noticed(c, g)
    decreases |offers|
  {
    hide EvalLoop, Crowded, Noticed, IsCommand;
    CrowdedLengths(c, f, g);
    if offers != [] {
      var q := Min(EVAL_CAP, p + offers[0]);
      PartialCall(c, f, g, p, offers[0]);
      if q < |f| {
        LargestAlone(c, f, g, q, offers[1..]);
      } else {
        BehindLargest(c, f, g, offers[1..]);
      }
    }
  }

  lemma PartialCall(c: Core, f: seq<byte>, g: seq<byte>, p: nat, n: nat)
    requires Crowded(c, f, g) && |f| == EVAL_CAP && p < |f|
    ensures var q := Min(EVAL_CAP, p + n);
      Offer(Drive(c, f[..p], p), f + g, n) == Drive(c, if q < |f| then f[..q] else [], q)
  {
    hide EvalLoop, Offer, Crowded, IsCommand;
    CrowdedLengths(c, f, g);
    var s := f + g;
    assert s[0..p] == f[..p];
    var q := PieceCall(c, s, 0, p, n);
    assert s[0..q] == f[..q];
    if q < |f| {
      CrowdedWaits(c, f, g, q);
    } else {
      assert f[..q] == f + [];
      LoopWithoutRoom(c, f, g, []);
    }
  }

  lemma CrowdedWaits(c: Core, f: seq<byte>, g: seq<byte>, n: nat)
    requires Crowded(c, f, g) && n < |f|
    ensures EvalLoop(c, f[..n]) == (c, f[..n])
  {
    hide EvalLoop, CmdShaped, Awaited, Room, IsCommand;
    LoopWaits(c, f, n);
  }

  lemma BehindLargest(c: Core, f: seq<byte>, g: seq<byte>, offers: seq<nat>)
    requires Crowded(c, f, g)
    ensures var d := Deliver(Drive(c, [], |f|), f + g, offers);
      d.pos == |f| + |g| ==> d.core == Noticed(c, g)
  {
    hide EvalBuf, Deliver, Fold, Concat, Crowded, Noticed, AllRoom, AllDelimitable;
    EventIsDelimitable(c, f, g);
    DeliverShifts(Drive(c, [], 0), f, g, offers);
    OneFrame(c, g);
    var k := ChunkIndependence(c, [g], offers);
  }

  lemma EventIsDelimitable(c: Core, f: seq<byte>, g: seq<byte>)
    requires Crowded(c, f, g)
    ensures Delimitable(g) && Room(c, g) && EvalBuf(c, g).core == Noticed(c, g)
  {
    hide CmdShaped;
    assert g[..|g|] == g;
    CommandIsShaped(g);
  }

  lemma CommandIsShaped(g: seq<byte>)
    requires IsCommand(g) && |g| <= EVAL_CAP
    ensures CmdShaped(g)
  {
  }

  /** Exactly: chunks matter unless the response fills the evaluation buffer to the last byte. */
  lemma ChunksMatterIff(c: Core, f: seq<byte>, g: seq<byte>)
    requires Crowded(c, f, g)
    ensures |f| < EVAL_CAP <==>
      exists offers :: var d := Deliver(Drive(c, [], 0), f + g, offers);
        d.pos == |f| + |g| && d.core != Noticed(c, g)
  {
    hide EvalLoop, Deliver, Crowded, IsCommand;
    CrowdedLengths(c, f, g);
    if |f| < EVAL_CAP {
      ChunksMatterWithoutRoom(c, f, g);
      assert Deliver(Drive(c, [], 0), f + g, [|f| + 1, |g| - 1]).core != Noticed(c, g);
    } else {
      forall offers: seq<nat> | Deliver(Drive(c, [], 0), f + g, offers).pos == |f| + |g|
        ensures Deliver(Drive(c, [], 0), f + g, offers).core == Noticed(c, g)
      {
        assert f[..0] == [];
        LargestAlone(c, f, g, 0, offers);
      }
    }
  }

  // The state without room is reached

  function Repeat(f: seq<byte>, n: nat): seq<seq<byte>> {
    if n == 0 then [] else [f] + Repeat(f, n - 1)
  }

  // A window that begins with n RETRY frames and the ACK
  function Delayed(n: nat, q: byte, seqno: byte): seq<seq<byte>> {
    Repeat(ControlFrame(TYPE_RETRY, q), n) + [ControlFrame(TYPE_ACK, seqno)]
  }

  // c has accepted n more control frames.
  predicate Queued(c: Core, d: Core, n: nat) {
    d == c.(fifo := d.fifo, signals := d.signals, accepted := d.accepted) && |d.fifo| == |c.fifo| + 3 * n
  }

  lemma ControlFindsRoom(c: Core, kind: byte, q: byte)
    requires kind == TYPE_ACK || kind == TYPE_RETRY
    ensures Delimitable(ControlFrame(kind, q)) && Room(c, ControlFrame(kind, q))
  {
    hide ControlFrame;
    ControlRoundTrip(kind, q);
  }

  lemma {:induction false} RetriesFold(c: Core, n: nat, q: byte)
    requires c.mode == Control && |c.fifo| + 3 * n <= FIFO_CAP
    ensures var frames := Repeat(ControlFrame(TYPE_RETRY, q), n);
      AllDelimitable(frames) && AllRoom(c, frames) && Queued(c, Fold(c, frames), n)
      && Fold(c, frames).accepted == c.accepted + frames
    decreases n
  {
    hide EvalBuf, ControlFrame, Room, Delimitable;
    if n > 0 {
      var f := ControlFrame(TYPE_RETRY, q);
      RetryIsReceived(c, q, []);
      assert f + [] == f;
      ControlFindsRoom(c, TYPE_RETRY, q);
      RetriesFold(EvalBuf(c, f).core, n - 1, q);
    }
  }

  /** A window that begins with n RETRY frames and the ACK leaves 512 - 3 * (n + 1) bytes of the FIFO. */
  lemma DelayedFold(c: Core, n: nat, q: byte)
    requires c.mode == Control && c.expectPld && c.fifo == [] && 3 * n + 3 <= FIFO_CAP
    ensures var frames := Delayed(n, q, c.expectSeq);
      var d := Fold(c, frames);
      && AllDelimitable(frames) && AllRoom(c, frames) && d.accepted == c.accepted + frames
      && d.mode == Command && d.expectRqid == c.expectRqid && FifoAvail(d) == FIFO_CAP - 3 * (n + 1)
  {
    hide EvalBuf, ControlFrame, Room, Delimitable, Fold, AllRoom;
    var retries, ack := Repeat(ControlFrame(TYPE_RETRY, q), n), ControlFrame(TYPE_ACK, c.expectSeq);
    RetriesFold(c, n, q);
    var e := Fold(c, retries);
    AckIsReceived(e, c.expectSeq, []);
    assert ack + [] == ack;
    ControlFindsRoom(e, TYPE_ACK, c.expectSeq);
    OneFrame(e, ack);
    FoldSplit(c, retries, [ack]);
  }

  /** Whether a response finds room behind n RETRY frames and the ACK. */
  lemma DelayedRoomIff(c: Core, n: nat, q: byte, s: byte, m: Cmd)
    requires c.mode == Control && c.expectPld && c.fifo == [] && 3 * n + 3 <= FIFO_CAP
    requires |m.payload| <= MAX_RQST_PAYLOAD && m.rqid == c.expectRqid && !RqidIsEvent(m.rqid)
    ensures var d := Fold(c, Delayed(n, q, c.expectSeq));
      Awaited(d, CommandFrame(s, m))
      && (Room(d, CommandFrame(s, m)) <==> 3 * (n + 1) + 3 + |m.payload| <= 512)
  {
    hide CommandFrame, Fold, IsCommand;
    DelayedFold(c, n, q);
    CommandRoundTrip(s, m);
    CommandLengths(s, m);
  }

  lemma CommandLengths(s: byte, m: Cmd)
    requires |m.payload| <= MAX_RQST_PAYLOAD && IsCommand(CommandFrame(s, m)) && CommandOf(CommandFrame(s, m)) == m
    ensures var f := CommandFrame(s, m);
      CmdShaped(f) && 18 <= |f| <= EVAL_CAP && PayloadOf(f) == m.payload && RqidOf(f) == m.rqid && f[10] == m.out
  {
    hide CommandFrame;
    PayloadOfDecoded(CommandFrame(s, m));
    assert |CommandFrame(s, m)| == 18 + |m.payload|;
  }

  /**
   So from any restart the receiver can be brought to where chunks matter: behind 169 RETRY
   frames and the ACK even an empty response finds no room, and the notification behind it
   is lost or noticed depending on the chunks alone.
   */
  lemma ChunksMatterInWindow(c: Core, q: byte, seqno: byte, rqid: u16, s: byte, m: Cmd, g: seq<byte>)
    requires c.fifo == [] && !RqidIsEvent(rqid)
    requires m.rqid == rqid && m.payload == [] && m.out != 0xaa
    requires IsCommand(g) && |g| <= EVAL_CAP && RqidIsEvent(RqidOf(g))
    ensures var start := Restart(c, true, seqno, rqid);
      var d := Fold(start, Delayed(169, q, seqno));
      var f := CommandFrame(s, m);
      && AllDelimitable(Delayed(169, q, seqno)) && AllRoom(start, Delayed(169, q, seqno))
      && Crowded(d, f, g) && |f| < EVAL_CAP
      && Deliver(Drive(d, [], 0), f + g, [|f| + 1, |g| - 1]).core == d
      && Deliver(Drive(d, [], 0), f + g, [|f|, |g|]).core == Noticed(d, g)
  {
    hide CommandFrame, Delayed, Fold, AllDelimitable, AllRoom, IsCommand, CmdShaped, Awaited, Room, Deliver, Noticed;
    var start := Restart(c, true, seqno, rqid);
    CommandRoundTrip(s, m);
    CommandLengths(s, m);
    DelayedFold(start, 169, q);
    DelayedRoomIff(start, 169, q, s, m);
    ChunksMatterWithoutRoom(Fold(start, Delayed(169, q, seqno)), CommandFrame(s, m), g);
  }
}
