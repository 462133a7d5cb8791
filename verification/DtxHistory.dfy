/**
 What happens to one client of the detachment driver, as a history: every event is pushed to
 it, and it can read the last 15 that it has not dequeued.
 */
module DtxHistory {
  import opened Bytes

  const BUF_SIZE := 16
  const EVENT_LEN := 4
  const EAGAIN := 11
  const ENODEV := 19
  const EINVAL := 22
  const EFAULT := 14

  datatype DtxEvent = DtxEvent(kind: byte, code: byte, arg0: byte, arg1: byte)

  /**
   What has happened to a client since it opened: the events pushed, the positions of those
   it dequeued, in that order, and the position of the oldest event it can still read.
   */
  datatype History = History(pushed: seq<DtxEvent>, got: seq<nat>, oldest: nat)

  const START := History([], [], 0)

  function Unread(h: History): nat
    requires h.oldest <= |h.pushed|
  {
    |h.pushed| - h.oldest
  }

  function Pushed(h: History, e: DtxEvent): History {
    h.(pushed := h.pushed + [e],
       oldest := if |h.pushed| - h.oldest == BUF_SIZE - 1 then h.oldest + 1 else h.oldest)
  }

  // Dequeues up to n events, as many as there are.
  function Dequeued(h: History, n: nat): (r: History)
    requires h.oldest <= |h.pushed|
    ensures r.oldest <= |r.pushed|
  {
    var k := Min(n, Unread(h));
    h.(got := h.got + seq(k, j requires 0 <= j < k => h.oldest + j), oldest := h.oldest + k)
  }

  datatype Op = Push(event: DtxEvent) | Read(events: nat)

  function Apply(h: History, op: Op): History
    requires h.oldest <= |h.pushed|
  {
    match op
    case Push(e) => Pushed(h, e)
    case Read(n) => Dequeued(h, n)
  }

  function Replay(h: History, ops: seq<Op>): (r: History)
    requires h.oldest <= |h.pushed|
    ensures r.oldest <= |r.pushed|
    decreases |ops|
  {
    if ops == [] then h else Replay(Apply(h, ops[0]), ops[1..])
  }

  // The position behind the event dequeued last
  function Front(h: History): nat { if h.got == [] then 0 else h.got[|h.got| - 1] + 1 }

  predicate Increasing(s: seq<nat>) { forall i, j :: 0 <= i < j < |s| ==> s[i] < s[j] }

  /** The ring holds the last 15 events behind the one dequeued last, or as many as there are. */
  predicate Orderly(h: History) {
    && h.oldest <= |h.pushed|
    && h.oldest == (if Front(h) + BUF_SIZE - 1 < |h.pushed| then |h.pushed| - (BUF_SIZE - 1) else Front(h))
    && Increasing(h.got)
    && (forall i <- h.got :: i < h.oldest)
    && (forall i :: 0 <= i < h.oldest && i !in h.got ==> i + BUF_SIZE <= |h.pushed|)
  }

  lemma PushIsOrderly(h: History, e: DtxEvent)
    requires Orderly(h)
    ensures Orderly(Pushed(h, e))
  {
  }

  lemma GotGrows(h: History, n: nat)
    requires h.oldest <= |h.pushed|
    ensures var r := Dequeued(h, n);
      && (forall i <- h.got :: i in r.got)
      && (forall i :: h.oldest <= i < r.oldest ==> i in r.got)
      && (forall i <- r.got :: i in h.got || h.oldest <= i < r.oldest)
  {
    var r := Dequeued(h, n);
    forall i | h.oldest <= i < r.oldest ensures i in r.got {
      assert r.got[|h.got| + (i - h.oldest)] == i;
    }
    forall i <- h.got ensures i in r.got {
      assert r.got[..|h.got|] == h.got;
    }
  }

  lemma GotIncreases(h: History, n: nat)
    requires h.oldest <= |h.pushed| && Increasing(h.got) && forall i <- h.got :: i < h.oldest
    ensures var r := Dequeued(h, n);
      Increasing(r.got) && Front(r) == if r.oldest > h.oldest then r.oldest else Front(h)
  {
    var r := Dequeued(h, n);
    forall i, j | 0 <= i < j < |r.got| ensures r.got[i] < r.got[j] {
      if i < |h.got| {
        assert r.got[i] in h.got;
      }
    }
  }

  lemma DequeueIsOrderly(h: History, n: nat)
    requires Orderly(h)
    ensures Orderly(Dequeued(h, n))
  {
    hide Dequeued, Front, Increasing;
    GotGrows(h, n);
    GotIncreases(h, n);
    DequeueBounds(h, n);
  }

  lemma DequeueBounds(h: History, n: nat)
    requires h.oldest <= |h.pushed|
    ensures var r := Dequeued(h, n);
      r.pushed == h.pushed && h.oldest <= r.oldest <= |h.pushed|
  {
  }

  lemma {:induction false} ReplayIsOrderly(h: History, ops: seq<Op>)
    requires Orderly(h)
    ensures Orderly(Replay(h, ops))
    decreases |ops|
  {
    hide Orderly;
    OrderlyBounds(h);
    if ops != [] {
      match ops[0] {
        case Push(e) => PushIsOrderly(h, e);
        case Read(n) => DequeueIsOrderly(h, n);
      }
      ReplayIsOrderly(Apply(h, ops[0]), ops[1..]);
    }
  }

  lemma OrderlyBounds(h: History)
    requires Orderly(h)
    ensures h.oldest <= |h.pushed| && Unread(h) <= BUF_SIZE - 1
  {
  }

  /**
   For any run of pushes and reads since a client opened: what it can read are the last at
   most 15 events behind the one it dequeued last; it dequeues in the order of the pushes,
   no event twice; and it loses an event exactly if 15 newer ones are pushed before it is
   dequeued.
   */
  lemma RingHistory(ops: seq<Op>, i: nat)
    requires i < |Replay(START, ops).pushed|
    ensures var h := Replay(START, ops);
      && Front(h) <= |h.pushed| && Unread(h) == Min(15, |h.pushed| - Front(h))
      && Increasing(h.got)
      && (i < h.oldest && i !in h.got <==> i !in h.got && |h.pushed| - 1 - i >= 15)
  {
    ReplayIsOrderly(START, ops);
  }

  // Reading, with pushes at every point where the lock is free

  // What goes on during a read: the events pushed before its i-th look at the ring, and
  // whether the i-th event can be copied to user space.
  datatype Meanwhile = Meanwhile(pushes: nat -> seq<DtxEvent>, copies: nat -> bool)

  // How a wait for events ends: with an error, or with events pushed or the device gone
  datatype Wake = Interrupted(error: nat) | Woken(pushes: seq<DtxEvent>, active: bool)

  datatype ReadResult = Took(events: seq<DtxEvent>) | Failed(error: nat) | Waits

  function PushedAll(h: History, events: seq<DtxEvent>): (r: History)
    requires h.oldest <= |h.pushed|
    ensures r.oldest <= |r.pushed| && r.got == h.got
    decreases |events|
  {
    if events == [] then h else PushedAll(Pushed(h, events[0]), events[1..])
  }

  // Up to n events more are dequeued, from the i-th look on.
  function Drained(h: History, n: nat, i: nat, m: Meanwhile): (r: History)
    requires h.oldest <= |h.pushed|
    ensures r.oldest <= |r.pushed| && |h.got| <= |r.got| <= |h.got| + n
    decreases n
  {
    if n == 0 then h
    else
      var g := PushedAll(h, m.pushes(i));
      if Unread(g) == 0 then g
      else if !m.copies(i) then Dequeued(g, 1)
      else Drained(Dequeued(g, 1), n - 1, i + 1, m)
  }

  // Whether an event cannot be copied; it is dequeued all the same.
  predicate Faults(h: History, n: nat, i: nat, m: Meanwhile)
    requires h.oldest <= |h.pushed|
    decreases n
  {
    n > 0 && (
      var g := PushedAll(h, m.pushes(i));
      Unread(g) > 0 && (m.copies(i) ==> Faults(Dequeued(g, 1), n - 1, i + 1, m)))
  }

  // What the reader finds in its buffer, in units of events: each one is copied to the front.
  function Shown(user: seq<DtxEvent>, taken: seq<DtxEvent>): seq<DtxEvent>
    requires |taken| <= |user|
  {
    if taken == [] then user else user[0 := taken[|taken| - 1]]
  }

  /** So the reader can rely on finding all the events that a read has dequeued exactly if that is at most one. */
  lemma ShownIff(taken: seq<DtxEvent>, n: nat)
    requires |taken| <= n
    ensures |taken| <= 1 <==> forall user: seq<DtxEvent> | |user| == n :: Shown(user, taken)[..|taken|] == taken
  {
    if |taken| > 1 {
      var other := DtxEvent((taken[1].kind + 1) % 0x100, 0, 0, 0);
      var user := seq(n, _ => other);
      assert Shown(user, taken)[..|taken|][1] == other;
    }
  }

  // The events dequeued after the first `from`
  function Picked(h: History, from: nat): seq<DtxEvent>
    requires Orderly(h) && from <= |h.got|
  {
    seq(|h.got| - from, j requires 0 <= j < |h.got| - from => PickedAt(h, from + j))
  }

  function PickedAt(h: History, j: nat): DtxEvent
    requires Orderly(h) && j < |h.got|
  {
    assert h.got[j] in h.got;
    h.pushed[h.got[j]]
  }

  lemma {:induction false} PushedAllOrderly(h: History, events: seq<DtxEvent>)
    requires Orderly(h)
    ensures Orderly(PushedAll(h, events))
    ensures h.pushed <= PushedAll(h, events).pushed
    ensures h.oldest <= |h.pushed| && Unread(h) <= Unread(PushedAll(h, events))
    decreases |events|
  {
    hide Orderly, Pushed;
    OrderlyBounds(h);
    if events != [] {
      PushIsOrderly(h, events[0]);
      PushAppends(h, events[0]);
      PushedAllOrderly(Pushed(h, events[0]), events[1..]);
    }
  }

  lemma PushAppends(h: History, e: DtxEvent)
    ensures h.oldest <= |h.pushed| ==> Pushed(h, e).oldest <= |Pushed(h, e).pushed| && Unread(h) <= Unread(Pushed(h, e))
    ensures Pushed(h, e).pushed == h.pushed + [e] && Pushed(h, e).got == h.got
  {
  }

  // What has been dequeued is not changed by later pushes, and grows by the oldest event.
  lemma PickedStays(h: History, g: History, from: nat)
    requires Orderly(h) && Orderly(g) && g.got == h.got && h.pushed <= g.pushed && from <= |h.got|
    ensures Picked(g, from) == Picked(h, from)
  {
    forall j | 0 <= j < |h.got| ensures PickedAt(g, j) == PickedAt(h, j) {
      assert h.got[j] in h.got;
    }
  }

  lemma PickedGrows(h: History, from: nat)
    requires Orderly(h) && Orderly(Dequeued(h, 1)) && from <= |h.got| && Unread(h) > 0
    ensures Picked(Dequeued(h, 1), from) == Picked(h, from) + [h.pushed[h.oldest]]
  {
    hide Orderly;
    var r := Dequeued(h, 1);
    assert r.got == h.got + [h.oldest] && r.pushed == h.pushed;
    assert PickedAt(r, |h.got|) == h.pushed[h.oldest];
    forall j | 0 <= j < |h.got| ensures PickedAt(r, j) == PickedAt(h, j) {
      assert r.got[j] == h.got[j];
    }
  }

  // A history of single operations that comes to the same
  function Pushes(events: seq<DtxEvent>): seq<Op> {
    if events == [] then [] else [Push(events[0])] + Pushes(events[1..])
  }

  lemma {:induction false} ReplaySplit(h: History, a: seq<Op>, b: seq<Op>)
    requires h.oldest <= |h.pushed|
    ensures Replay(h, a + b) == Replay(Replay(h, a), b)
    decreases |a|
  {
    hide Apply;
    if a == [] {
      assert a + b == b;
    } else {
      assert (a + b)[1..] == a[1..] + b;
      ReplayBounds(h, a[0]);
      ReplaySplit(Apply(h, a[0]), a[1..], b);
    }
  }

  lemma ReplayBounds(h: History, op: Op)
    requires h.oldest <= |h.pushed|
    ensures Apply(h, op).oldest <= |Apply(h, op).pushed|
  {
  }

  lemma {:induction false} PushesReplay(h: History, events: seq<DtxEvent>)
    requires h.oldest <= |h.pushed|
    ensures Replay(h, Pushes(events)) == PushedAll(h, events)
    decreases |events|
  {
    hide Pushed;
    if events != [] {
      ReplayBounds(h, Push(events[0]));
      assert Pushes(events)[1..] == Pushes(events[1..]);
      PushesReplay(Pushed(h, events[0]), events[1..]);
    }
  }

  /**
   Whatever is pushed while a read is under way, the ring goes through a run of pushes and
   reads of single events; so what holds of every such run holds here.
   */
  lemma {:induction false} DrainedIsRun(h: History, n: nat, i: nat, m: Meanwhile) returns (ops: seq<Op>)
    requires h.oldest <= |h.pushed|
    ensures Replay(h, ops) == Drained(h, n, i, m)
    ensures forall op <- ops :: op.Read? ==> op.events == 1
    decreases n
  {
    hide Pushed, Dequeued, Apply;
    if n == 0 {
      ops := [];
    } else {
      var pushes := Pushes(m.pushes(i));
      var g := PushedAll(h, m.pushes(i));
      PushesReplay(h, m.pushes(i));
      OnlyPushes(m.pushes(i));
      if Unread(g) == 0 {
        ops := pushes;
      } else {
        var rest := [];
        if m.copies(i) {
          rest := DrainedIsRun(Dequeued(g, 1), n - 1, i + 1, m);
        }
        ops := pushes + ([Read(1)] + rest);
        ReplaySplit(h, pushes, [Read(1)] + rest);
        ReadFirst(g, rest);
      }
    }
  }

  lemma ReadFirst(g: History, rest: seq<Op>)
    requires g.oldest <= |g.pushed|
    ensures Replay(g, [Read(1)] + rest) == Replay(Dequeued(g, 1), rest)
  {
    assert ([Read(1)] + rest)[1..] == rest;
  }

  lemma {:induction false} OnlyPushes(events: seq<DtxEvent>)
    ensures forall op <- Pushes(events) :: op.Push?
  {
    if events != [] {
      OnlyPushes(events[1..]);
    }
  }

  /** Without pushes and copying errors in between, up to n events are dequeued at once. */
  lemma {:induction false} DrainedUndisturbed(h: History, n: nat, i: nat, m: Meanwhile)
    requires h.oldest <= |h.pushed| && forall j :: i <= j < i + n ==> m.pushes(j) == [] && m.copies(j)
    ensures Drained(h, n, i, m) == Dequeued(h, n) && !Faults(h, n, i, m)
    decreases n
  {
    if n > 0 {
      assert PushedAll(h, m.pushes(i)) == h;
      if Unread(h) > 0 {
        DrainedUndisturbed(Dequeued(h, 1), n - 1, i + 1, m);
        DequeueAfterOne(h, n);
      }
    }
  }

  lemma DequeueAfterOne(h: History, n: nat)
    requires h.oldest <= |h.pushed| && n > 0 && Unread(h) > 0
    ensures Dequeued(Dequeued(h, 1), n - 1) == Dequeued(h, n)
  {
  }

  /**
   What a read does: the error of its first failing check; or it waits; or it has
   dequeued events, at most as many as fit, and returns their length.
   */
  function Outcome(h: History, count: nat, active: bool, nonblock: bool, wake: Wake, m: Meanwhile): (ReadResult, History)
    requires Orderly(h)
  {
    if 0 < count < EVENT_LEN then (Failed(EINVAL), h)
    else if !active then (Failed(ENODEV), h)
    else if Unread(h) > 0 then Taking(h, count, m)
    else if nonblock then (Failed(EAGAIN), h)
    else if wake.Interrupted? then (Failed(wake.error), h)
    else
      PushedAllOrderly(h, wake.pushes);
      var g := PushedAll(h, wake.pushes);
      if !wake.active then (Failed(ENODEV), g)
      else if Unread(g) == 0 then (Waits, g)
      else Taking(g, count, m)
  }

  function Taking(h: History, count: nat, m: Meanwhile): (ReadResult, History)
    requires Orderly(h)
  {
    var n := count / EVENT_LEN;
    DrainedOrderly(h, n, 0, m);
    var r := Drained(h, n, 0, m);
    (if Faults(h, n, 0, m) then Failed(EFAULT) else Took(Picked(r, |h.got|)), r)
  }

  lemma {:induction false} DrainedOrderly(h: History, n: nat, i: nat, m: Meanwhile)
    requires Orderly(h)
    ensures Orderly(Drained(h, n, i, m))
    decreases n
  {
    hide Orderly, Pushed, Dequeued;
    OrderlyBounds(h);
    if n > 0 {
      var g := PushedAll(h, m.pushes(i));
      PushedAllOrderly(h, m.pushes(i));
      DequeueIsOrderly(g, 1);
      if Unread(g) > 0 && m.copies(i) {
        DrainedOrderly(Dequeued(g, 1), n - 1, i + 1, m);
      }
    }
  }

  // One look at the ring
  lemma PickedByLook(h: History, events: seq<DtxEvent>, from: nat)
    requires Orderly(h) && from <= |h.got|
    ensures var g := PushedAll(h, events);
      && Orderly(g) && Picked(g, from) == Picked(h, from)
      && (Unread(g) > 0 ==>
            var d := Dequeued(g, 1);
            Orderly(d) && |d.got| == |h.got| + 1 && Picked(d, from) == Picked(h, from) + [g.pushed[g.oldest]])
  {
    hide Orderly, Picked, Pushed;
    OrderlyBounds(h);
    var g := PushedAll(h, events);
    PushedAllOrderly(h, events);
    PickedStays(h, g, from);
    if Unread(g) > 0 {
      DequeueIsOrderly(g, 1);
      PickedGrows(g, from);
    }
  }

  lemma DequeueAppends(h: History)
    requires h.oldest <= |h.pushed| && Unread(h) > 0
    ensures var d := Dequeued(h, 1);
      h.got <= d.got && d.pushed == h.pushed && |d.got| == |h.got| + 1
  {
  }

  lemma {:induction false} DrainedGrows(h: History, n: nat, i: nat, m: Meanwhile)
    requires Orderly(h)
    ensures h.oldest <= |h.pushed|
    ensures var r := Drained(h, n, i, m);
      && Orderly(r) && r.oldest <= |r.pushed| && h.got <= r.got && h.pushed <= r.pushed
      && |r.got| <= |h.got| + n
      && (n > 0 && Unread(h) > 0 ==> |r.got| > |h.got|)
      && (!Faults(h, n, i, m) && |r.got| < |h.got| + n ==> Unread(r) == 0)
    decreases n
  {
    hide Orderly, Pushed, Dequeued, PushedAll;
    OrderlyBounds(h);
    if n > 0 {
      var g := PushedAll(h, m.pushes(i));
      PushedAllOrderly(h, m.pushes(i));
      OrderlyBounds(g);
      if Unread(g) > 0 {
        DequeueAppends(g);
        DequeueIsOrderly(g, 1);
        if m.copies(i) {
          DrainedGrows(Dequeued(g, 1), n - 1, i + 1, m);
        }
      }
    }
  }

  /**
   What a read dequeues: some of the events the client could read, in the order of the pushes,
   none of them a second time; at least one and at most as many as fit; and fewer than fit
   only if there is no further one.
   */
  lemma ReadTakes(h: History, count: nat, active: bool, nonblock: bool, wake: Wake, m: Meanwhile)
    requires Orderly(h)
    ensures var (r, g) := Outcome(h, count, active, nonblock, wake, m);
      && Orderly(g) && g.oldest <= |g.pushed| && h.got <= g.got && h.pushed <= g.pushed
      && match r
         case Took(events) =>
           && |g.got| == |h.got| + |events|
           && events == Picked(g, |h.got|)
           && (count > 0 ==> events != []) && EVENT_LEN * |events| <= count
           && (EVENT_LEN * (|events| + 1) <= count ==> Unread(g) == 0)
         case Failed(_) => g.got == h.got || (Unread(h) > 0 && active) || wake.Woken?
         case Waits => g.got == h.got && Unread(g) == 0
  {
    hide Orderly, Pushed, Dequeued, PushedAll, Drained, Faults;
    OrderlyBounds(h);
    if 0 < count < EVENT_LEN || !active {
    } else if Unread(h) > 0 {
      DrainedGrows(h, count / EVENT_LEN, 0, m);
    } else if !nonblock && wake.Woken? {
      var g := PushedAll(h, wake.pushes);
      PushedAllOrderly(h, wake.pushes);
      OrderlyBounds(g);
      DrainedGrows(g, count / EVENT_LEN, 0, m);
    }
  }

  // How far the copying has come tells whether it has failed.
  lemma {:induction false} DrainedCopies(h: History, n: nat, i: nat, m: Meanwhile)
    requires Orderly(h)
    ensures h.oldest <= |h.pushed|
    ensures var taken := |Drained(h, n, i, m).got| - |h.got|;
      && 0 <= taken <= n
      && (Faults(h, n, i, m) <==> taken > 0 && !m.copies(i + taken - 1))
      && (forall k :: i <= k < i + taken - 1 ==> m.copies(k))
    decreases n
  {
    hide Orderly, Pushed, Dequeued, PushedAll;
    OrderlyBounds(h);
    if n > 0 {
      var g := PushedAll(h, m.pushes(i));
      PushedAllOrderly(h, m.pushes(i));
      OrderlyBounds(g);
      if Unread(g) > 0 {
        DequeueAppends(g);
        DequeueIsOrderly(g, 1);
        if m.copies(i) {
          DrainedCopies(Dequeued(g, 1), n - 1, i + 1, m);
        }
      }
    }
  }

  lemma PushedIsUnread(h: History, e: DtxEvent)
    requires h.oldest <= |h.pushed|
    ensures Pushed(h, e).oldest < |Pushed(h, e).pushed|
  {
  }

  lemma SomethingPushed(h: History, events: seq<DtxEvent>)
    requires Orderly(h) && events != []
    ensures h.oldest <= |h.pushed| && Unread(PushedAll(h, events)) > 0
  {
    hide Orderly, Pushed;
    OrderlyBounds(h);
    var g := Pushed(h, events[0]);
    PushIsOrderly(h, events[0]);
    PushedIsUnread(h, events[0]);
    PushedAllOrderly(g, events[1..]);
  }

  /**
   Exactly what a read answers. 22 for a buffer that is too short, 19 if the device is gone
   (before, or while it waits), 11 for a ring that is empty and a reader that does not want
   to wait, the error of an interrupted wait; it waits on while nothing comes. Otherwise,
   whatever the reader wants, it takes at least one event if one fits, and returns them
   unless the last one taken could not be copied, which is answered by 14.
   */
  lemma ReadAnswers(h: History, count: nat, active: bool, nonblock: bool, wake: Wake, m: Meanwhile)
    requires Orderly(h)
    ensures h.oldest <= |h.pushed|
    ensures var (r, g) := Outcome(h, count, active, nonblock, wake, m);
      var empty := h.oldest == |h.pushed|;
      var taken := |g.got| - |h.got|;
      if 0 < count < 4 then r == Failed(22) && g == h
      else if !active then r == Failed(19) && g == h
      else if empty && nonblock then r == Failed(11) && g == h
      else if empty && wake.Interrupted? then r == Failed(wake.error) && g == h
      else if empty && !wake.active then r == Failed(19) && g.got == h.got
      else if empty && wake.pushes == [] then r == Waits && g == h
      else
        && 0 <= 4 * taken <= count && (count >= 4 ==> taken >= 1)
        && (forall k :: 0 <= k < taken - 1 ==> m.copies(k))
        && if taken > 0 && !m.copies(taken - 1) then r == Failed(14) else r.Took? && |r.events| == taken
  {
    hide Orderly, Pushed, Dequeued, PushedAll, Drained, Faults;
    OrderlyBounds(h);
    if 0 < count < EVENT_LEN || !active {
    } else if Unread(h) > 0 {
      DrainedGrows(h, count / EVENT_LEN, 0, m);
      DrainedCopies(h, count / EVENT_LEN, 0, m);
    } else if !nonblock && wake.Woken? {
      var g := PushedAll(h, wake.pushes);
      PushedAllOrderly(h, wake.pushes);
      OrderlyBounds(g);
      DrainedGrows(g, count / EVENT_LEN, 0, m);
      DrainedCopies(g, count / EVENT_LEN, 0, m);
      if wake.pushes == [] {
        NothingPushed(h);
      } else {
        SomethingPushed(h, wake.pushes);
      }
    }
  }

  lemma NothingPushed(h: History)
    requires h.oldest <= |h.pushed|
    ensures PushedAll(h, []) == h
  {
  }
}
