/**
 The event rings of the detachment driver: one ring of 16 slots per client, to which every
 event is broadcast, and which gives up its oldest event when it is full.
 */
module DtxEvents {
  import opened DtxHistory

  class Client {
    const buffer: array<DtxEvent>
    var head: nat
    var tail: nat
    ghost var history: History

    // The slot of a position is its remainder modulo 16.
    ghost predicate Valid()
      reads this, buffer
    {
      && buffer.Length == BUF_SIZE
      && Orderly(history)
      && history.oldest <= |history.pushed| < history.oldest + BUF_SIZE
      && head == |history.pushed| % BUF_SIZE
      && tail == history.oldest % BUF_SIZE
      && forall i :: history.oldest <= i < |history.pushed| ==> buffer[i % BUF_SIZE] == history.pushed[i]
    }

    constructor ()
      ensures Valid() && fresh(buffer) && history == START
    {
      buffer := new DtxEvent[BUF_SIZE](_ => DtxEvent(0, 0, 0, 0));
      head, tail := 0, 0;
      history := START;
    }

    method PushEvent(e: DtxEvent)
      requires Valid()
      modifies this, buffer
      ensures Valid() && history == Pushed(old(history), e)
    {
      hide Orderly;
      ghost var h, n := history, |history.pushed|;
      PushIsOrderly(h, e);
      SlotsDiffer(h.oldest, n);
      SlotsFollow(n);
      SlotsFollow(h.oldest);
      buffer[head] := e;
      head := (head + 1) % BUF_SIZE;
      if head == tail {
        tail := (tail + 1) % BUF_SIZE;
      }
      history := Pushed(h, e);
      forall i | history.oldest <= i < |history.pushed| ensures buffer[i % BUF_SIZE] == history.pushed[i] {
        if i < n {
          SlotsDiffer(i, n);
        }
      }
    }

    // Takes the oldest event.
    method Pop() returns (e: DtxEvent)
      requires Valid() && head != tail
      modifies this`tail, this`history
      ensures Valid() && Unread(old(history)) > 0 && history == Dequeued(old(history), 1)
      ensures e == old(history).pushed[old(history).oldest]
    {
      hide Orderly;
      SlotsDiffer(history.oldest, |history.pushed|);
      SlotsFollow(history.oldest);
      DequeueIsOrderly(history, 1);
      e := buffer[tail];
      tail := (tail + 1) % BUF_SIZE;
      history := Dequeued(history, 1);
    }

    lemma ValidBounds()
      requires Valid()
      ensures Orderly(history) && history.oldest <= |history.pushed|
      ensures head == tail <==> Unread(history) == 0
    {
      hide Orderly;
      SlotsDiffer(history.oldest, |history.pushed|);
    }

    method PushEvents(events: seq<DtxEvent>)
      requires Valid()
      modifies this, buffer
      ensures Valid() && history == PushedAll(old(history), events)
    {
      hide Valid, Pushed, Orderly;
      ValidBounds();
      var i := 0;
      while i < |events|
        invariant i <= |events| && Valid() && history.oldest <= |history.pushed|
        invariant PushedAll(history, events[i..]) == PushedAll(old(history), events)
      {
        PushEvent(events[i]);
        ValidBounds();
        assert events[i..][1..] == events[i + 1..];
        i := i + 1;
      }
    }

    // read(2) with a buffer of `count` bytes, in units of events `user`
    method Read(count: nat, user: array<DtxEvent>, active: bool, nonblock: bool, wake: Wake, m: Meanwhile)
      returns (r: ReadResult)
      requires Valid() && user != buffer && user.Length == count / EVENT_LEN
      modifies this, buffer, user
      ensures Valid()
      ensures r.Took? ==> |r.events| <= user.Length && user[..] == Shown(old(user[..]), r.events)
      ensures r == Outcome(old(history), count, active, nonblock, wake, m).0
      ensures history == Outcome(old(history), count, active, nonblock, wake, m).1
    {
      hide Valid, Orderly, Drained, Faults, Picked, PushedAll;
      ValidBounds();
      if count != 0 && count < EVENT_LEN {
        return Failed(EINVAL);
      }
      if !active {
        return Failed(ENODEV);
      }
      if head == tail {
        if nonblock {
          return Failed(EAGAIN);
        }
        if wake.Interrupted? {
          return Failed(wake.error);
        }
        PushEvents(wake.pushes);
        ValidBounds();
        if !wake.active {
          return Failed(ENODEV);
        }
        if head == tail {
          return Waits;
        }
      }
      var events, fault := Drain(count, user, m);
      return if fault then Failed(EFAULT) else Took(events);
    }

    // One look at the ring, under its lock
    method Look(ghost h: History, pushes: seq<DtxEvent>) returns (found: bool, e: DtxEvent)
      requires Valid() && h == history && h.oldest <= |h.pushed|
      modifies this, buffer
      ensures Valid()
      ensures var g := PushedAll(h, pushes);
        && found == (Unread(g) > 0)
        && history == (if found then Dequeued(g, 1) else g)
        && (found ==> e == g.pushed[g.oldest])
    {
      hide Valid, Orderly, Dequeued;
      PushEvents(pushes);
      ValidBounds();
      found, e := head != tail, DtxEvent(0, 0, 0, 0);
      if found {
        e := Pop();
      }
    }

    // Copies events one by one while there is room for one more.
    method Drain(count: nat, user: array<DtxEvent>, m: Meanwhile) returns (events: seq<DtxEvent>, fault: bool)
      requires Valid() && user != buffer && user.Length == count / EVENT_LEN
      modifies this, buffer, user
      ensures |events| <= user.Length && user[..] == Shown(old(user[..]), events)
      ensures Valid() && history == Drained(old(history), count / EVENT_LEN, 0, m)
      ensures fault == Faults(old(history), count / EVENT_LEN, 0, m)
      ensures Orderly(history) && (!fault ==> events == Picked(history, |old(history).got|))
    {
      hide Valid, Orderly, Dequeued, Picked, PushedAll;
      ValidBounds();
      events, fault := [], false;
      var read := 0;
      ghost var h, n := history, count / EVENT_LEN;
      assert Picked(h, |h.got|) == [] by { NothingPicked(h); }
      while read + EVENT_LEN <= count
        invariant Valid() && read == EVENT_LEN * |events| && |events| <= n
        invariant user[..] == Shown(old(user[..]), events)
        invariant Orderly(history) && history.oldest <= |history.pushed|
        invariant |h.got| <= |history.got| && events == Picked(history, |h.got|) && !fault
        invariant Drained(h, n, 0, m) == Drained(history, n - |events|, |events|, m)
        invariant Faults(h, n, 0, m) == Faults(history, n - |events|, |events|, m)
        decreases count - read
      {
        PickedByLook(history, m.pushes(|events|), |h.got|);
        var found, e := Look(history, m.pushes(|events|));
        ValidBounds();
        if !found {
          break;
        }
        if !m.copies(|events|) {
          fault := true;
          break;
        }
        user[0] := e;         // the destination never moves on
        events := events + [e];
        read := read + EVENT_LEN;
      }
    }
  }

  lemma NothingPicked(h: History)
    requires Orderly(h)
    ensures Picked(h, |h.got|) == []
  {
  }

  // Two positions less than 16 apart have the same slot only if they are the same.
  lemma SlotsDiffer(i: nat, j: nat)
    requires i <= j < i + BUF_SIZE
    ensures i % BUF_SIZE == j % BUF_SIZE <==> i == j
    ensures (j + 1) % BUF_SIZE == i % BUF_SIZE <==> j + 1 == i + BUF_SIZE
  {
  }

  lemma SlotsFollow(i: nat)
    ensures (i % BUF_SIZE + 1) % BUF_SIZE == (i + 1) % BUF_SIZE
  {
  }

  class Device {
    var clients: seq<Client>

    ghost predicate Valid()
      reads this, clients, set c | c in clients :: c.buffer
    {
      && (forall c <- clients :: c.Valid())
      && forall i, j :: 0 <= i < j < |clients| ==> clients[i] != clients[j] && clients[i].buffer != clients[j].buffer
    }

    constructor ()
      ensures Valid() && clients == []
    {
      clients := [];
    }

    method Open() returns (c: Client)
      requires Valid()
      modifies this
      ensures Valid() && fresh(c) && clients == old(clients) + [c] && c.history == START
      ensures forall d <- old(clients) :: d.history == old(d.history)
    {
      c := new Client();
      clients := clients + [c];
    }

    /** A client that is released gets no further event; the others keep their place and their events. */
    method Release(k: nat)
      requires Valid() && k < |clients|
      modifies this
      ensures Valid() && clients == old(clients)[..k] + old(clients)[k + 1..]
      ensures old(clients)[k] !in clients
    {
      clients := clients[..k] + clients[k + 1..];
    }

    /** An event reaches every open client, each exactly once. */
    method PushEvent(e: DtxEvent)
      requires Valid()
      modifies clients, set c | c in clients :: c.buffer
      ensures Valid()
      ensures forall c <- clients :: c.history == Pushed(old(c.history), e)
    {
      var i := 0;
      while i < |clients|
        invariant i <= |clients| && Valid()
        invariant forall k :: 0 <= k < |clients| ==>
          clients[k].history == if k < i then Pushed(old(clients[k].history), e) else old(clients[k].history)
      {
        hide Orderly, Pushed;
        clients[i].PushEvent(e);
        i := i + 1;
      }
    }
  }
}
