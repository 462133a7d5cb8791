/**
 Chunk independence: however the bytes of a stream of frames are cut into calls of the
 receive callback, the receiver behaves as if it were handed the frames one by one.
 */
module Streams {
  import opened Bytes
  import opened Frames
  import opened Receiver

  // Ten bytes with a terminator where it belongs; the checksum may be wrong.
  predicate CtrlShaped(f: seq<byte>) {
    && |f| == MSG_LEN_CTRL
    && ValidSyn(f)
    && (f[2] == TYPE_ACK || f[2] == TYPE_RETRY)
    && ValidTer(f, 8)
  }

  // An intact header, an intact command type and a length that fits into the evaluation
  // buffer; the checksum of the command part may be wrong.
  predicate CmdShaped(f: seq<byte>) {
    && MSG_LEN_CMD_BASE <= |f| <= EVAL_CAP
    && HeaderOk(f)
    && f[2] == TYPE_CMD
    && |f| == MSG_LEN_CMD_BASE + f[3]
    && f[8] == TYPE_CMD
    && (ValidCrc(f, 8, |f| - 2) ==> f[3] >= CMDFRAME)
  }

  /** Frames whose end the receiver finds without looking at what follows. */
  predicate Delimitable(f: seq<byte>) { CtrlShaped(f) || CmdShaped(f) }

  // A response this receiver waits for
  predicate Awaited(c: Core, f: seq<byte>) {
    IsCommand(f) && !RqidIsEvent(RqidOf(f)) && c.mode == Command && RqidOf(f) == c.expectRqid
  }

  /** The guard of the branch that queues a response: an awaited response fits into the FIFO. */
  predicate Room(c: Core, f: seq<byte>) {
    Awaited(c, f) ==> |c.fifo| + 3 + |PayloadOf(f)| <= FIFO_CAP
  }

  function Fold(c: Core, frames: seq<seq<byte>>): Core
    decreases |frames|
  {
    if frames == [] then c else Fold(EvalBuf(c, frames[0]).core, frames[1..])
  }

  predicate AllRoom(c: Core, frames: seq<seq<byte>>)
    decreases |frames|
  {
    frames == [] || (Room(c, frames[0]) && AllRoom(EvalBuf(c, frames[0]).core, frames[1..]))
  }

  predicate AllDelimitable(frames: seq<seq<byte>>) { forall f <- frames :: Delimitable(f) }

  function Concat(frames: seq<seq<byte>>): seq<byte> {
    if frames == [] then [] else frames[0] + Concat(frames[1..])
  }

  datatype Standing = Standing(core: Core, pending: seq<byte>, left: seq<seq<byte>>)

  /**
   The reference: the first n bytes of a stream of frames, taken frame by frame. The whole
   frames among them are handled one after the other, the unfinished one is pending; `left`
   are the frames not yet handled.
   */
  function Progress(c: Core, frames: seq<seq<byte>>, n: nat): Standing
    requires n <= |Concat(frames)|
    decreases |frames|
  {
    if frames == [] || n < |frames[0]| then Standing(c, Concat(frames)[..n], frames)
    else Progress(EvalBuf(c, frames[0]).core, frames[1..], n - |frames[0]|)
  }

  lemma ParseIsLocal(v: seq<byte>, rest: seq<byte>, begin: nat, end: nat)
    requires begin <= end && end + 2 <= |v|
    ensures ValidCrc(v + rest, begin, end) == ValidCrc(v, begin, end)
  {
    assert (v + rest)[begin..end] == v[begin..end];
  }

  lemma CtrlIsLocal(c: Core, f: seq<byte>, rest: seq<byte>)
    requires CtrlShaped(f)
    ensures EvalBuf(c, f + rest) == EvalBuf(c, f)
    ensures EvalBuf(c, f).used == |f|
  {
    ParseIsLocal(f, rest, 2, 6);
    assert (f + rest)[..MSG_LEN_CTRL] == f[..MSG_LEN_CTRL];
  }

  lemma CmdIsLocal(c: Core, f: seq<byte>, rest: seq<byte>)
    requires CmdShaped(f)
    ensures EvalBuf(c, f + rest) == EvalBuf(c, f)
  {
    ParseIsLocal(f, rest, 2, 6);
    ParseIsLocal(f, rest, 8, |f| - 2);
    assert (f + rest)[..|f|] == f[..|f|];
  }

  lemma CmdConsumption(c: Core, f: seq<byte>)
    requires CmdShaped(f)
    ensures EvalBuf(c, f).used == |f| <==> Room(c, f)
  {
  }

  /** A delimitable frame is handled alike whatever follows it, and is consumed whole exactly if it finds room. */
  lemma FrameIsLocal(c: Core, f: seq<byte>, rest: seq<byte>)
    requires Delimitable(f)
    ensures EvalBuf(c, f + rest) == EvalBuf(c, f)
    ensures EvalBuf(c, f).used == |f| <==> Room(c, f)
  {
    if CtrlShaped(f) {
      CtrlIsLocal(c, f, rest);
    } else {
      CmdIsLocal(c, f, rest);
      CmdConsumption(c, f);
    }
  }

  /** An unfinished frame makes the receiver wait. */
  lemma PrefixWaits(c: Core, f: seq<byte>, n: nat)
    requires Delimitable(f) && n < |f|
    ensures EvalBuf(c, f[..n]) == Verdict(0, c)
  {
    var v := f[..n];
    if CmdShaped(f) && n >= 8 {
      assert v + f[n..] == f;
      ParseIsLocal(v, f[n..], 2, 6);
    }
  }

  lemma LoopWaits(c: Core, f: seq<byte>, n: nat)
    requires Delimitable(f) && n < |f|
    ensures EvalLoop(c, f[..n]) == (c, f[..n])
  {
    hide EvalBuf, Delimitable;
    PrefixWaits(c, f, n);
  }

  lemma LoopTakesFrame(c: Core, f: seq<byte>, rest: seq<byte>)
    requires Delimitable(f) && Room(c, f) && |f| > 0
    ensures EvalLoop(c, f + rest) == EvalLoop(EvalBuf(c, f).core, rest)
  {
    hide EvalBuf, Delimitable, Room;
    FrameIsLocal(c, f, rest);
    assert (f + rest)[|f|..] == rest;
  }

  lemma LoopNothing(c: Core)
    ensures EvalLoop(c, []) == (c, [])
  {
  }

  // The first frame of a stream and the rest
  lemma FirstOf(frames: seq<seq<byte>>, b: seq<byte>)
    requires frames != [] && AllDelimitable(frames) && IsPrefix(b, Concat(frames))
    ensures Delimitable(frames[0]) && 0 < |frames[0]| <= EVAL_CAP && AllDelimitable(frames[1..])
    ensures |b| < |frames[0]| ==> b == frames[0][..|b|]
    ensures |b| >= |frames[0]| ==>
      b == frames[0] + b[|frames[0]|..] && IsPrefix(b[|frames[0]|..], Concat(frames[1..]))
  {
    hide Delimitable;
    FramesFit(frames);
    var f, tail := frames[0], Concat(frames[1..]);
    assert Concat(frames) == f + tail;
    if |b| >= |f| {
      assert b[..|f|] == f;
      assert b[|f|..] == tail[..|b| - |f|];
    }
  }

  /** The evaluation loop on any prefix of a stream comes to where the reference comes. */
  lemma {:induction false} LoopProgresses(c: Core, frames: seq<seq<byte>>, b: seq<byte>)
    requires AllDelimitable(frames) && AllRoom(c, frames) && IsPrefix(b, Concat(frames))
    ensures var p := Progress(c, frames, |b|);
      EvalLoop(c, b) == (p.core, p.pending)
    decreases |frames|
  {
    hide EvalBuf, EvalLoop, Delimitable, AllDelimitable, Room, Concat;
    if frames == [] {
      assert b == [] by { ConcatNothing(); }
      LoopNothing(c);
    } else {
      FirstOf(frames, b);
      if |b| < |frames[0]| {
        LoopWaits(c, frames[0], |b|);
      } else {
        LoopTakesFrame(c, frames[0], b[|frames[0]|..]);
        LoopProgresses(EvalBuf(c, frames[0]).core, frames[1..], b[|frames[0]|..]);
      }
    }
  }

  lemma ConcatNothing()
    ensures Concat([]) == []
  {
  }

  lemma {:induction false} ProgressInvariant(c: Core, frames: seq<seq<byte>>, n: nat)
    requires n <= |Concat(frames)| && AllDelimitable(frames) && AllRoom(c, frames)
    ensures var p := Progress(c, frames, n);
      && AllDelimitable(p.left) && AllRoom(p.core, p.left)
      && p.pending + Concat(frames)[n..] == Concat(p.left)
      && (p.left == [] ==> p.pending == [])
      && (p.left != [] ==> |p.pending| < |p.left[0]|)
    decreases |frames|
  {
    if frames != [] && n >= |frames[0]| {
      var rest := Concat(frames[1..]);
      assert Concat(frames)[n..] == rest[n - |frames[0]|..];
      ProgressInvariant(EvalBuf(c, frames[0]).core, frames[1..], n - |frames[0]|);
    }
  }

  lemma {:induction false} ProgressAdds(c: Core, frames: seq<seq<byte>>, n: nat, more: nat)
    requires n + more <= |Concat(frames)|
    requires var p := Progress(c, frames, n); |p.pending| + more <= |Concat(p.left)|
    ensures var p := Progress(c, frames, n);
      Progress(c, frames, n + more) == Progress(p.core, p.left, |p.pending| + more)
    decreases |frames|
  {
    if frames != [] && n >= |frames[0]| {
      ProgressAdds(EvalBuf(c, frames[0]).core, frames[1..], n - |frames[0]|, more);
    }
  }

  /** What the reference says: k whole frames have been folded, the rest of the bytes is pending. */
  lemma {:induction false} ProgressIsFold(c: Core, frames: seq<seq<byte>>, n: nat) returns (k: nat)
    requires n <= |Concat(frames)|
    ensures k <= |frames| && |Concat(frames[..k])| <= n
    ensures Progress(c, frames, n).core == Fold(c, frames[..k])
    ensures Progress(c, frames, n).pending == Concat(frames)[|Concat(frames[..k])|..n]
    ensures k < |frames| ==> n < |Concat(frames[..k])| + |frames[k]|
    ensures n == |Concat(frames)| && (forall f <- frames :: |f| > 0) ==> k == |frames|
    decreases |frames|
  {
    hide EvalBuf;
    if frames == [] || n < |frames[0]| {
      k := 0;
      assert frames[..0] == [];
    } else {
      var f, tail := frames[0], frames[1..];
      var j := ProgressIsFold(EvalBuf(c, f).core, tail, n - |f|);
      k := j + 1;
      assert frames[..k][1..] == tail[..j];
      assert Concat(frames[..k]) == f + Concat(tail[..j]);
      assert Concat(frames)[|Concat(frames[..k])|..n] == Concat(tail)[|Concat(tail[..j])|..n - |f|];
    }
  }

  datatype Drive = Drive(core: Core, pending: seq<byte>, pos: nat)

  /**
   Offers the bytes of a stream to the receive callback, `offers[i]` of the bytes not yet
   taken at the i-th call (or all there are); what a call does not take is offered again.
   */
  function Deliver(d: Drive, stream: seq<byte>, offers: seq<nat>): (r: Drive)
    requires |d.pending| <= EVAL_CAP && d.pos <= |stream|
    ensures d.pos <= r.pos <= |stream|
    decreases |offers|
  {
    if offers == [] then d else Deliver(Offer(d, stream, offers[0]), stream, offers[1..])
  }

  function Offer(d: Drive, stream: seq<byte>, n: nat): (r: Drive)
    requires |d.pending| <= EVAL_CAP && d.pos <= |stream|
    ensures |r.pending| <= EVAL_CAP && d.pos <= r.pos <= |stream|
  {
    var chunk := stream[d.pos..d.pos + Min(n, |stream| - d.pos)];
    var (core, pending) := ReceiveBuf(d.core, d.pending, chunk);
    Drive(core, pending, d.pos + Accepts(d.pending, chunk))
  }

  predicate StandsAt(d: Drive, c: Core, frames: seq<seq<byte>>) {
    && d.pos <= |Concat(frames)|
    && d.core == Progress(c, frames, d.pos).core
    && d.pending == Progress(c, frames, d.pos).pending
  }

  lemma FramesFit(frames: seq<seq<byte>>)
    requires AllDelimitable(frames)
    ensures forall f <- frames :: 0 < |f| <= EVAL_CAP
  {
    forall f <- frames ensures 0 < |f| <= EVAL_CAP {
      assert Delimitable(f);
    }
  }

  // The loop takes the receiver from one place of the stream to another.
  lemma LoopStands(c: Core, frames: seq<seq<byte>>, pos: nat, used: nat)
    requires AllDelimitable(frames) && AllRoom(c, frames) && pos + used <= |Concat(frames)|
    ensures var p, q := Progress(c, frames, pos), Progress(c, frames, pos + used);
      && EvalLoop(p.core, p.pending + Concat(frames)[pos..pos + used]) == (q.core, q.pending)
      && |p.pending| < EVAL_CAP
  {
    hide EvalBuf, EvalLoop, Progress, Concat, AllRoom, AllDelimitable;
    var p := Progress(c, frames, pos);
    ProgressInvariant(c, frames, pos);
    FramesFit(p.left);
    var b := p.pending + Concat(frames)[pos..pos + used];
    assert b == (p.pending + Concat(frames)[pos..])[..|b|];
    LoopProgresses(p.core, p.left, b);
    ProgressAdds(c, frames, pos, used);
  }

  lemma OfferIsLoop(d: Drive, stream: seq<byte>, n: nat) returns (used: nat)
    requires |d.pending| <= EVAL_CAP && d.pos <= |stream|
    ensures d.pos + used <= |stream|
    ensures var r := EvalLoop(d.core, d.pending + stream[d.pos..d.pos + used]);
      Offer(d, stream, n) == Drive(r.0, r.1, d.pos + used)
    ensures used > 0 <==> n > 0 && d.pos < |stream| && |d.pending| < EVAL_CAP
  {
    hide EvalLoop;
    var chunk := stream[d.pos..d.pos + Min(n, |stream| - d.pos)];
    used := Accepts(d.pending, chunk);
    assert chunk[..used] == stream[d.pos..d.pos + used];
  }

  /** One call keeps the receiver where the reference stands, and takes a byte if one is offered. */
  lemma OfferKeepsStanding(d: Drive, c: Core, frames: seq<seq<byte>>, n: nat)
    requires AllDelimitable(frames) && AllRoom(c, frames)
    requires StandsAt(d, c, frames)
    ensures |d.pending| < EVAL_CAP
    ensures StandsAt(Offer(d, Concat(frames), n), c, frames)
    ensures n > 0 && d.pos < |Concat(frames)| ==> Offer(d, Concat(frames), n).pos > d.pos
  {
    hide EvalLoop, Progress, Concat, AllRoom, AllDelimitable, Offer;
    LoopStands(c, frames, d.pos, 0);
    var used := OfferIsLoop(d, Concat(frames), n);
    LoopStands(c, frames, d.pos, used);
  }

  lemma {:induction false} DeliverKeepsStanding(d: Drive, c: Core, frames: seq<seq<byte>>, offers: seq<nat>)
    requires AllDelimitable(frames) && AllRoom(c, frames)
    requires StandsAt(d, c, frames) && |d.pending| <= EVAL_CAP
    ensures StandsAt(Deliver(d, Concat(frames), offers), c, frames)
    decreases |offers|
  {
    if offers != [] {
      OfferKeepsStanding(d, c, frames, offers[0]);
      DeliverKeepsStanding(Offer(d, Concat(frames), offers[0]), c, frames, offers[1..]);
    }
  }

  /**
   Chunk independence. After any calls that start on an empty evaluation buffer, k whole
   frames have been handled as if one by one, and the buffer holds exactly the bytes taken
   from the unfinished one; after all bytes, every frame has been handled and nothing is left.
   */
  lemma ChunkIndependence(c: Core, frames: seq<seq<byte>>, offers: seq<nat>) returns (k: nat)
    requires AllDelimitable(frames) && AllRoom(c, frames)
    ensures k <= |frames|
    ensures var d := Deliver(Drive(c, [], 0), Concat(frames), offers);
      && |Concat(frames[..k])| <= d.pos
      && d.core == Fold(c, frames[..k])
      && d.pending == Concat(frames)[|Concat(frames[..k])|..d.pos]
      && (k < |frames| ==> d.pos < |Concat(frames[..k])| + |frames[k]|)
      && (d.pos == |Concat(frames)| ==> d.core == Fold(c, frames) && d.pending == [])
  {
    FramesFit(frames);
    var start := Drive(c, [], 0);
    DeliverKeepsStanding(start, c, frames, offers);
    var d := Deliver(start, Concat(frames), offers);
    k := ProgressIsFold(c, frames, d.pos);
    if d.pos == |Concat(frames)| {
      assert frames[..k] == frames;
    }
  }

  // Single frames and calls, and streams cut in two

  lemma OneFrame(c: Core, g: seq<byte>)
    ensures Concat([g]) == g && Fold(c, [g]) == EvalBuf(c, g).core
    ensures AllRoom(c, [g]) <==> Room(c, g)
    ensures AllDelimitable([g]) <==> Delimitable(g)
  {
    hide EvalBuf, Room, Delimitable;
    assert [g][1..] == [];
    assert g in [g];
  }

  lemma {:induction false} FoldSplit(c: Core, a: seq<seq<byte>>, b: seq<seq<byte>>)
    ensures Fold(c, a + b) == Fold(Fold(c, a), b)
    ensures AllRoom(c, a + b) <==> AllRoom(c, a) && AllRoom(Fold(c, a), b)
    decreases |a|
  {
    hide EvalBuf, Room;
    if a == [] {
      assert a + b == b;
    } else {
      assert (a + b)[1..] == a[1..] + b;
      FoldSplit(EvalBuf(c, a[0]).core, a[1..], b);
    }
  }

  lemma OneOffer(d: Drive, stream: seq<byte>, a: nat)
    requires |d.pending| <= EVAL_CAP && d.pos <= |stream|
    ensures Deliver(d, stream, [a]) == Offer(d, stream, a)
  {
    hide Offer;
    assert [a][1..] == [];
  }

  lemma TwoOffers(d: Drive, stream: seq<byte>, a: nat, b: nat)
    requires |d.pending| <= EVAL_CAP && d.pos <= |stream|
    ensures Deliver(d, stream, [a, b]) == Offer(Offer(d, stream, a), stream, b)
  {
    hide Offer;
    assert [a, b][1..] == [b];
    OneOffer(Offer(d, stream, a), stream, b);
  }

  // A call on an empty evaluation buffer that takes all it is offered
  lemma FreshCall(c: Core, stream: seq<byte>, pos: nat, n: nat)
    requires pos + n <= |stream| && n <= EVAL_CAP
    ensures Offer(Drive(c, [], pos), stream, n)
         == (var r := EvalLoop(c, stream[pos..pos + n]); Drive(r.0, r.1, pos + n))
  {
    hide EvalLoop;
    var chunk := stream[pos..pos + n];
    assert [] + chunk[..n] == chunk;
  }

  // Delivering the rest of a stream is delivering a stream.

  lemma OfferShifts(d: Drive, f: seq<byte>, g: seq<byte>, n: nat)
    requires |d.pending| <= EVAL_CAP && d.pos <= |g|
    ensures var e := Offer(d, g, n);
      Offer(d.(pos := |f| + d.pos), f + g, n) == e.(pos := |f| + e.pos)
  {
    hide ReceiveBuf;
    var k := Min(n, |g| - d.pos);
    assert (f + g)[|f| + d.pos..|f| + d.pos + k] == g[d.pos..d.pos + k];
  }

  lemma {:induction false} DeliverShifts(d: Drive, f: seq<byte>, g: seq<byte>, offers: seq<nat>)
    requires |d.pending| <= EVAL_CAP && d.pos <= |g|
    ensures var e := Deliver(d, g, offers);
      Deliver(d.(pos := |f| + d.pos), f + g, offers) == e.(pos := |f| + e.pos)
    decreases |offers|
  {
    hide Offer;
    if offers != [] {
      OfferShifts(d, f, g, offers[0]);
      DeliverShifts(Offer(d, g, offers[0]), f, g, offers[1..]);
    }
  }

  // A call in the middle of a stream, with the bytes from a to p pending
  lemma PieceCall(c: Core, s: seq<byte>, a: nat, p: nat, offer: nat) returns (q: nat)
    requires a <= p <= |s| && p - a <= EVAL_CAP
    ensures q == Min(p + Min(offer, |s| - p), a + EVAL_CAP) && p <= q <= |s|
    ensures var r := EvalLoop(c, s[a..q]);
      Offer(Drive(c, s[a..p], p), s, offer) == Drive(r.0, r.1, q)
  {
    hide EvalLoop;
    var chunk := s[p..p + Min(offer, |s| - p)];
    q := p + Accepts(s[a..p], chunk);
    assert chunk[..q - p] == s[p..q];
    assert s[a..p] + s[p..q] == s[a..q];
  }
}
