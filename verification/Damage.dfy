/**
 Damage detection: what becomes of a frame in which one byte is altered, when it is evaluated
 as a whole and when it arrives in pieces.
 */
module Damage {
  import opened Bytes
  import opened Crc
  import opened Frames
  import opened Receiver
  import opened Streams
  import opened RoundTrip

  lemma CrcDetects(f: seq<byte>, i: nat, x: byte, begin: nat, end: nat)
    requires begin <= i < end + 2 <= |f| && x != f[i]
    requires begin <= end && ValidCrc(f, begin, end)
    ensures !ValidCrc(f[i := x], begin, end)
  {
    var g := f[i := x];
    if i < end {
      assert g[begin..end] == f[begin..end][i - begin := x];
      OneByteChangesCrc(f[begin..end], i - begin, x);
    } else {
      assert g[begin..end] == f[begin..end];
    }
  }

  // Where a changed byte leaves the end of a control frame recognisable
  predicate ContainedInCtrl(i: nat, x: byte) {
    3 <= i < 8 || (i == 2 && (x == TYPE_ACK || x == TYPE_RETRY))
  }

  lemma DamagedControl(c: Core, f: seq<byte>, i: nat, x: byte, rest: seq<byte>)
    requires IsControl(f) && i < |f| && x != f[i]
    ensures var v := f[i := x] + rest;
      EvalBuf(c, v) == Verdict(if ContainedInCtrl(i, x) then |f| else |v|, c)
  {
    var g := f[i := x];
    if 2 <= i < 8 {
      CrcDetects(f, i, x, 2, 6);
      ParseIsLocal(g, rest, 2, 6);
    }
  }

  lemma DamagedCommand(c: Core, f: seq<byte>, i: nat, x: byte, rest: seq<byte>)
    requires IsCommand(f) && i < |f| && x != f[i]
    ensures var v := f[i := x] + rest;
      EvalBuf(c, v) == Verdict(if i >= 9 then |f| else |v|, c)
  {
    var g := f[i := x];
    ParseIsLocal(g, rest, 2, 6);
    if 2 <= i < 8 {
      CrcDetects(f, i, x, 2, 6);
    } else if 8 < i {
      assert g[2..6] == f[2..6];
      CrcDetects(f, i, x, 8, |f| - 2);
      ParseIsLocal(g, rest, 8, |f| - 2);
    }
  }

  /**
   Damage detection. A frame in which any one byte is altered has no effect at all, and
   costs the frames behind it exactly if its extent can no longer be trusted: the altered
   byte is in the sync bytes, the type, the terminator, or the header of a command.
   */
  lemma DamageIsDetected(c: Core, f: seq<byte>, i: nat, x: byte, rest: seq<byte>)
    requires (IsControl(f) || IsCommand(f)) && i < |f| && x != f[i]
    ensures var r := EvalBuf(c, f[i := x] + rest);
      && r.core == c
      && r.used == (if (if IsControl(f) then ContainedInCtrl(i, x) else i >= 9) then |f| else |f| + |rest|)
  {
    hide EvalBuf, ValidCrc;
    if IsControl(f) {
      DamagedControl(c, f, i, x, rest);
    } else {
      DamagedCommand(c, f, i, x, rest);
    }
  }

  // In any chunks: where the end of the frame stays recognisable

  // The altered frame can still be told from what follows.
  predicate Contained(f: seq<byte>, i: nat, x: byte) {
    if IsControl(f) then ContainedInCtrl(i, x) else i >= 9
  }

  lemma ContainedIsDelimitable(c: Core, f: seq<byte>, i: nat, x: byte)
    requires (IsControl(f) || IsCommand(f)) && |f| <= EVAL_CAP && i < |f| && x != f[i] && Contained(f, i, x)
    ensures var g := f[i := x];
      Delimitable(g) && Room(c, g) && EvalBuf(c, g).core == c
  {
    var g := f[i := x];
    assert g + [] == g;
    DamageIsDetected(c, f, i, x, []);
    if IsCommand(f) {
      assert g[2..6] == f[2..6];
      CrcDetects(f, i, x, 8, |f| - 2);
    }
  }

  /**
   Then it is as if the frame had not been sent, at any place in a stream and in whatever
   chunks the stream arrives.
   */
  lemma DamagedFrameIsSkipped(c: Core, pre: seq<seq<byte>>, f: seq<byte>, i: nat, x: byte,
                              post: seq<seq<byte>>, offers: seq<nat>)
    requires AllDelimitable(pre) && AllDelimitable(post) && AllRoom(c, pre + post)
    requires (IsControl(f) || IsCommand(f)) && |f| <= EVAL_CAP && i < |f| && x != f[i] && Contained(f, i, x)
    ensures var stream := Concat(pre + [f[i := x]] + post);
      var d := Deliver(Drive(c, [], 0), stream, offers);
      d.pos == |stream| ==> d.core == Fold(c, pre + post) && d.pending == []
  {
    hide EvalBuf, Delimitable, Room, Fold, Contained, Deliver, Concat, AllRoom;
    var g := f[i := x];
    var d := Fold(c, pre);
    ContainedIsDelimitable(d, f, i, x);
    FoldSplit(c, pre, post);
    FoldSplit(c, pre + [g], post);
    FoldSplit(c, pre, [g]);
    OneFrame(d, g);
    var k := ChunkIndependence(c, pre + [g] + post, offers);
  }

  // In any chunks: where it does not

  /**
   The receiver waits until it has n bytes of the frame g, and then drops whatever it has
   of it.
   */
  predicate Swallows(c: Core, g: seq<byte>, n: nat) {
    && 0 < n <= |g| <= EVAL_CAP
    && (forall k :: 0 <= k < n ==> EvalBuf(c, g[..k]).used == 0)
    && (forall k :: n <= k <= |g| ==> EvalBuf(c, g[..k]) == Verdict(k, c))
  }

  // How many bytes it takes until a damaged header is noticed
  function NoticedAt(f: seq<byte>, i: nat, x: byte): nat {
    if IsControl(f) then (if i == 2 && x == TYPE_CMD then 8 else if i < 3 then 6 else MSG_LEN_CTRL)
    else if i == 2 && (x == TYPE_ACK || x == TYPE_RETRY) then MSG_LEN_CTRL
    else if i < 3 then 6
    else if i < 8 then 8
    else |f|
  }

  lemma DamagedPrefix(c: Core, f: seq<byte>, i: nat, x: byte, k: nat)
    requires IsCommand(f) && |f| <= EVAL_CAP && i <= 8 && x != f[i] && k <= |f|
    ensures var v := f[i := x][..k];
      EvalBuf(c, v) == if k < NoticedAt(f, i, x) then Verdict(0, c) else Verdict(k, c)
  {
    var g := f[i := x];
    assert g[..k] + g[k..] == g;
    if k >= 8 {
      ParseIsLocal(g[..k], g[k..], 2, 6);
      if 2 <= i < 8 {
        CrcDetects(f, i, x, 2, 6);
      } else if i == 8 {
        assert g[2..6] == f[2..6];
      }
    }
  }

  lemma DamagedCtrlPrefix(c: Core, f: seq<byte>, i: nat, x: byte, k: nat)
    requires IsControl(f) && i < |f| && x != f[i] && !ContainedInCtrl(i, x) && k <= |f|
    ensures var v := f[i := x][..k];
      EvalBuf(c, v) == if k < NoticedAt(f, i, x) then Verdict(0, c) else Verdict(k, c)
  {
    var g := f[i := x];
    assert g[..k] + g[k..] == g;
    if k >= 8 {
      ParseIsLocal(g[..k], g[k..], 2, 6);
      if i == 2 {
        CrcDetects(f, i, x, 2, 6);
      }
    }
  }

  lemma DamageSwallows(c: Core, f: seq<byte>, i: nat, x: byte)
    requires i < |f| <= EVAL_CAP && x != f[i]
    requires (IsControl(f) && !ContainedInCtrl(i, x)) || (IsCommand(f) && i <= 8)
    ensures Swallows(c, f[i := x], NoticedAt(f, i, x))
  {
    hide EvalBuf, HeaderOk, ValidCrc;
    var g, n := f[i := x], NoticedAt(f, i, x);
    forall k | 0 <= k <= |g| ensures EvalBuf(c, g[..k]) == if k < n then Verdict(0, c) else Verdict(k, c) {
      if IsControl(f) {
        DamagedCtrlPrefix(c, f, i, x, k);
      } else {
        DamagedPrefix(c, f, i, x, k);
      }
    }
  }

  lemma SwallowsLoop(c: Core, g: seq<byte>, n: nat, q: nat)
    requires Swallows(c, g, n) && q <= |g|
    ensures EvalLoop(c, g[..q]) == (c, if q < n then g[..q] else [])
  {
    hide EvalBuf;
    assert g[..q][q..] == [];
    assert EvalBuf(c, g[..q]).used == (if q < n then 0 else q);
  }

  // A call while bytes of a swallowed frame come in
  lemma SwallowingCall(c: Core, g: seq<byte>, n: nat, p: nat, offer: nat)
    requires Swallows(c, g, n) && p < n
    ensures var q := Min(|g|, p + offer);
      Offer(Drive(c, g[..p], p), g, offer) == Drive(c, if q < n then g[..q] else [], q)
  {
    hide EvalLoop, Offer, Swallows;
    SwallowsBounds(c, g, n);
    assert g[0..p] == g[..p];
    var q := PieceCall(c, g, 0, p, offer);
    assert g[0..q] == g[..q];
    SwallowsLoop(c, g, n, q);
  }

  // Whether some way of delivering the bytes changes the receiver
  ghost predicate Acts(c: Core, s: seq<byte>) {
    exists offers :: Deliver(Drive(c, [], 0), s, offers).core != c
  }

  // Behind the call that drops the frame, its rest is a stream of its own.
  lemma {:induction false} OnlyRestActs(c: Core, g: seq<byte>, n: nat, p: nat, offers: seq<nat>)
    requires Swallows(c, g, n) && p < n
    ensures Deliver(Drive(c, g[..p], p), g, offers).core != c ==> exists k :: n <= k <= |g| && Acts(c, g[k..])
    decreases |offers|
  {
    hide Swallows, Offer;
    SwallowsBounds(c, g, n);
    if offers != [] {
      var q := Min(|g|, p + offers[0]);
      SwallowingCall(c, g, n, p, offers[0]);
      if q < n {
        OnlyRestActs(c, g, n, q, offers[1..]);
      } else {
        RestIsStream(c, g, q, offers[1..]);
      }
    }
  }

  lemma SwallowsBounds(c: Core, g: seq<byte>, n: nat)
    requires Swallows(c, g, n)
    ensures 0 < n <= |g| <= EVAL_CAP
  {
  }

  lemma RestIsStream(c: Core, g: seq<byte>, k: nat, offers: seq<nat>)
    requires k <= |g|
    ensures Deliver(Drive(c, [], k), g, offers).core == Deliver(Drive(c, [], 0), g[k..], offers).core
  {
    hide Deliver;
    assert g[..k] + g[k..] == g;
    DeliverShifts(Drive(c, [], 0), g[..k], g[k..], offers);
  }

  /** A swallowed frame has an effect in some chunks exactly if one of the rests it can leave has one. */
  lemma SwallowedActsIff(c: Core, g: seq<byte>, n: nat)
    requires Swallows(c, g, n)
    ensures Acts(c, g) <==> exists k :: n <= k <= |g| && Acts(c, g[k..])
  {
    hide Swallows, Deliver, Offer;
    SwallowsBounds(c, g, n);
    assert g[..0] == [];
    if Acts(c, g) {
      var offers :| Deliver(Drive(c, [], 0), g, offers).core != c;
      OnlyRestActs(c, g, n, 0, offers);
    }
    if k :| n <= k <= |g| && Acts(c, g[k..]) {
      var offers :| Deliver(Drive(c, [], 0), g[k..], offers).core != c;
      SwallowingCall(c, g, n, 0, k);
      RestIsStream(c, g, k, offers);
      OneMoreOffer(Drive(c, [], 0), g, k, offers);
      assert Deliver(Drive(c, [], 0), g, [k] + offers).core != c;
    }
  }

  lemma OneMoreOffer(d: Drive, stream: seq<byte>, n: nat, offers: seq<nat>)
    requires |d.pending| <= EVAL_CAP && d.pos <= |stream|
    ensures Deliver(d, stream, [n] + offers) == Deliver(Offer(d, stream, n), stream, offers)
  {
    hide Offer;
    assert ([n] + offers)[1..] == offers;
  }

  predicate HasSync(s: seq<byte>) { exists k :: 0 <= k < |s| - 1 && s[k] == 0xaa && s[k + 1] == 0x55 }

  // A part of a stream without sync bytes is waited on or dropped.
  lemma SilentPart(c: Core, s: seq<byte>, a: nat, b: nat)
    requires a <= b <= |s| && !HasSync(s)
    ensures EvalLoop(c, s[a..b]) == (c, if b - a < 6 then s[a..b] else [])
  {
    var v := s[a..b];
    if b - a >= 6 {
      assert !(s[a] == 0xaa && s[a + 1] == 0x55);
      assert EvalBuf(c, v) == Verdict(|v|, c);
    }
  }

  lemma SilentCall(c: Core, s: seq<byte>, a: nat, p: nat, offer: nat) returns (q: nat, a': nat)
    requires a <= p <= |s| && p - a < 6 && !HasSync(s)
    ensures a' <= q <= |s| && q - a' < 6
    ensures Offer(Drive(c, s[a..p], p), s, offer) == Drive(c, s[a'..q], q)
  {
    hide EvalLoop, Offer, HasSync;
    q := PieceCall(c, s, a, p, offer);
    a' := if q - a < 6 then a else q;
    SilentPart(c, s, a, q);
    assert s[q..q] == [];
  }

  lemma {:induction false} SilentStream(c: Core, s: seq<byte>, a: nat, p: nat, offers: seq<nat>)
    requires a <= p <= |s| && p - a < 6 && !HasSync(s)
    ensures Deliver(Drive(c, s[a..p], p), s, offers).core == c
    decreases |offers|
  {
    hide Offer, HasSync;
    if offers != [] {
      var q, a' := SilentCall(c, s, a, p, offers[0]);
      SilentStream(c, s, a', q, offers[1..]);
    }
  }

  lemma NoSyncIsSilent(c: Core, s: seq<byte>)
    requires !HasSync(s)
    ensures !Acts(c, s)
  {
    hide Deliver, HasSync;
    forall offers: seq<nat> ensures Deliver(Drive(c, [], 0), s, offers).core == c {
      assert s[0..0] == [];
      SilentStream(c, s, 0, 0, offers);
    }
  }

  /**
   A damaged frame whose end is lost has an effect, in some chunks, exactly if something
   behind the place where the damage is noticed has one on its own.
   */
  lemma LostFrameActsIff(c: Core, f: seq<byte>, i: nat, x: byte)
    requires i < |f| <= EVAL_CAP && x != f[i]
    requires (IsControl(f) && !ContainedInCtrl(i, x)) || (IsCommand(f) && i <= 8)
    ensures Acts(c, f[i := x]) <==> exists k :: NoticedAt(f, i, x) <= k <= |f| && Acts(c, f[k..])
  {
    hide Swallows, EvalBuf, Acts, HeaderOk, ValidCrc, ValidTer;
    var g := f[i := x];
    DamageSwallows(c, f, i, x);
    SwallowedActsIff(c, g, NoticedAt(f, i, x));
    forall k | NoticedAt(f, i, x) <= k <= |f| ensures Acts(c, g[k..]) == Acts(c, f[k..]) {
      assert g[k..] == f[k..];
    }
    if Acts(c, g) {
      var k :| NoticedAt(f, i, x) <= k <= |g| && Acts(c, g[k..]);
      assert Acts(c, f[k..]);
    }
    if k :| NoticedAt(f, i, x) <= k <= |f| && Acts(c, f[k..]) {
      assert Acts(c, g[k..]);
    }
  }

  /**
   So in whatever chunks it arrives, a damaged control frame has no effect, nor a command
   whose type behind the header is damaged, nor one damaged in its header that carries no
   sync bytes behind it.
   */
  lemma LostFrameIsSilent(c: Core, f: seq<byte>, i: nat, x: byte)
    requires i < |f| <= EVAL_CAP && x != f[i]
    requires (IsControl(f) && !ContainedInCtrl(i, x)) || (IsCommand(f) && i <= 8)
    requires IsControl(f) || i == 8 || !HasSync(f[6..])
    ensures !Acts(c, f[i := x])
  {
    hide EvalBuf, Acts, HeaderOk, ValidCrc, ValidTer, HasSync;
    LostFrameActsIff(c, f, i, x);
    forall k | NoticedAt(f, i, x) <= k <= |f| ensures !Acts(c, f[k..]) {
      if IsControl(f) || i == 8 {
        ShortHasNoEffect(c, f[k..]);
      } else {
        NoSyncBehind(f, k);
        NoSyncIsSilent(c, f[k..]);
      }
    }
  }

  lemma NoSyncBehind(f: seq<byte>, k: nat)
    requires 6 <= k <= |f| && !HasSync(f[6..])
    ensures !HasSync(f[k..])
  {
    forall j | 0 <= j < |f[k..]| - 1 ensures !(f[k..][j] == 0xaa && f[k..][j + 1] == 0x55) {
      assert f[k..][j] == f[6..][k - 6 + j] && f[k..][j + 1] == f[6..][k - 6 + j + 1];
    }
  }

  lemma TinyCall(c: Core, s: seq<byte>, p: nat, offer: nat)
    requires p <= |s| < 6
    ensures var q := p + Min(offer, |s| - p);
      Offer(Drive(c, s[..p], p), s, offer) == Drive(c, s[..q], q)
  {
    hide Offer;
    assert s[0..p] == s[..p];
    var q := PieceCall(c, s, 0, p, offer);
    assert s[0..q] == s[..q];
    assert EvalBuf(c, s[..q]) == Verdict(0, c);
  }

  lemma {:induction false} TinyStream(c: Core, s: seq<byte>, p: nat, offers: seq<nat>)
    requires p <= |s| < 6
    ensures Deliver(Drive(c, s[..p], p), s, offers).core == c
    decreases |offers|
  {
    hide Offer;
    if offers != [] {
      TinyCall(c, s, p, offers[0]);
      TinyStream(c, s, p + Min(offers[0], |s| - p), offers[1..]);
    }
  }

  lemma ShortHasNoEffect(c: Core, s: seq<byte>)
    requires |s| < 6
    ensures !Acts(c, s)
  {
    hide Deliver;
    forall offers: seq<nat> ensures Deliver(Drive(c, [], 0), s, offers).core == c {
      assert s[..0] == [];
      TinyStream(c, s, 0, offers);
    }
  }

  // A command that carries a serialized notification as its payload
  function Carrier(q: byte, m: Cmd, e: Cmd): seq<byte>
    requires e.payload == []
  {
    CommandFrame(q, m.(payload := CommandFrame(q, e)))
  }

  /** If the header of such a command is damaged, at any place, and the payload comes in a second chunk, it is taken for a notification. */
  lemma CarriedFrameActs(c: Core, q: byte, m: Cmd, e: Cmd, i: nat, x: byte)
    requires e.payload == [] && RqidIsEvent(e.rqid)
    requires i < 8 && x != Carrier(q, m, e)[i]
    ensures IsCommand(Carrier(q, m, e)) && |Carrier(q, m, e)| == 36
    ensures Deliver(Drive(c, [], 0), Carrier(q, m, e)[i := x], [16, 20]).core
         == c.(events := c.events + [Event(q, e.rqid, e.tc, e.iid, e.cid, [])])
  {
    hide EvalLoop, CommandFrame, Carrier, Deliver, Offer, IsCommand;
    var f := Carrier(q, m, e);
    CarrierParts(q, m, e);
    var g := f[i := x];
    FirstPartLost(c, f, i, x);
    TwoOffers(Drive(c, [], 0), g, 16, 20);
    assert g[16..16 + 20] == f[16..34] + f[34..];
    FreshCall(c, g, 16, 20);
    CarriedIsNoticed(c, q, e, f[34..]);
  }

  lemma FirstPartLost(c: Core, f: seq<byte>, i: nat, x: byte)
    requires IsCommand(f) && |f| == 36 && i < 8 && x != f[i]
    ensures Offer(Drive(c, [], 0), f[i := x], 16) == Drive(c, [], 16)
  {
    hide EvalLoop, Offer, IsCommand, Swallows, HeaderOk, ValidCrc;
    var g := f[i := x];
    CommandIsNoControl(f);
    DamageSwallows(c, f, i, x);
    assert g[..0] == [];
    SwallowingCall(c, g, NoticedAt(f, i, x), 0, 16);
  }

  lemma CarriedIsNoticed(c: Core, q: byte, e: Cmd, rest: seq<byte>)
    requires e.payload == [] && RqidIsEvent(e.rqid) && |rest| == 2
    ensures EvalLoop(c, CommandFrame(q, e) + rest)
         == (c.(events := c.events + [Event(q, e.rqid, e.tc, e.iid, e.cid, [])]), rest)
  {
    hide EvalBuf, CommandFrame;
    CommandIsReceived(c, q, e, rest);
    EventThenWaits(c, CommandFrame(q, e), rest);
  }

  lemma CarrierParts(q: byte, m: Cmd, e: Cmd)
    requires e.payload == []
    ensures var f := Carrier(q, m, e);
      IsCommand(f) && |f| == 36 && f[16..34] == CommandFrame(q, e) && |CommandFrame(q, e)| == 18
  {
    hide CommandFrame, IsCommand;
    var big := m.(payload := CommandFrame(q, e));
    CommandRoundTrip(q, big);
    PayloadOfDecoded(CommandFrame(q, big));
  }

  lemma EventThenWaits(c: Core, f: seq<byte>, rest: seq<byte>)
    requires |rest| == 2 && EvalBuf(c, f + rest).used == |f| > 0
    ensures EvalLoop(c, f + rest) == (EvalBuf(c, f + rest).core, rest)
  {
    hide EvalBuf;
    assert (f + rest)[|f|..] == rest;
    assert EvalBuf(EvalBuf(c, f + rest).core, rest).used == 0 by { TwoBytesWait(EvalBuf(c, f + rest).core, rest); }
  }

  lemma TwoBytesWait(c: Core, v: seq<byte>)
    requires |v| < 6
    ensures EvalBuf(c, v).used == 0
  {
  }

  /**
   Damage in any chunks: a control frame with one byte altered, at any place, has no effect
   however it is cut into calls; nor has a command altered behind its header.
   */
  lemma DamageInChunks(c: Core, f: seq<byte>, i: nat, x: byte)
    requires IsControl(f) || (IsCommand(f) && |f| <= EVAL_CAP && i >= 8)
    requires i < |f| && x != f[i]
    ensures !Acts(c, f[i := x])
  {
    hide Acts, IsCommand, Delimitable, Room, EvalBuf, HeaderOk, ValidTer;
    if IsCommand(f) {
      CommandIsNoControl(f);
    }
    if Contained(f, i, x) {
      ContainedIsDelimitable(c, f, i, x);
      FrameAloneIsSilent(c, f[i := x]);
    } else {
      LostFrameIsSilent(c, f, i, x);
    }
  }

  ghost predicate HarmlessTo(c: Core, f: seq<byte>, i: nat, x: byte) {
    IsCommand(f) && i < |f| <= EVAL_CAP && x != f[i] ==> !Acts(c, f[i := x])
  }

  // At this position, an altered byte of a command never has an effect, in any chunks.
  ghost predicate Harmless(i: nat) { forall c: Core, f: seq<byte>, x: byte :: HarmlessTo(c, f, i, x) }

  /** Exactly: from the ninth byte on, where the checksum of the header vouches for the length. */
  lemma HarmlessIff(i: nat)
    ensures Harmless(i) <==> i >= 8
  {
    hide EvalBuf, Deliver, CommandFrame, IsCommand, Carrier;
    if i >= 8 {
      forall c: Core, f: seq<byte>, x: byte ensures HarmlessTo(c, f, i, x) {
        if IsCommand(f) && i < |f| <= EVAL_CAP && x != f[i] {
          DamageInChunks(c, f, i, x);
        }
      }
    } else {
      var c := Core(Discard, false, 0, 0, [], 0, [], [], false);
      var e := Cmd(0, 0, 0, 0, 1, 0, []);
      CarrierParts(0, e, e);
      var f := Carrier(0, e, e);
      var x := if f[i] == 0 then 1 else 0;
      CarriedFrameActs(c, 0, e, e, i, x);
      assert Acts(c, f[i := x]);
      assert !HarmlessTo(c, f, i, x);
    }
  }

  lemma FrameAloneIsSilent(c: Core, g: seq<byte>)
    requires Delimitable(g) && Room(c, g) && EvalBuf(c, g).core == c
    ensures !Acts(c, g)
  {
    hide EvalBuf, Delimitable, Room, Deliver, Fold, Concat, AllRoom;
    OneFrame(c, g);
    NoFrame(c);
    forall offers: seq<nat> ensures Deliver(Drive(c, [], 0), g, offers).core == c {
      var k := ChunkIndependence(c, [g], offers);
      assert [g][..k] == if k == 0 then [] else [g];
    }
  }

  lemma NoFrame(c: Core)
    ensures Fold(c, []) == c
  {
  }
}
