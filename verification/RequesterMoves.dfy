/** What the requester's own steps leave alone, and where they lead. */
module RequesterMoves {
  import opened Frames
  import opened Protocol
  import opened RequestSteps

  // A step of the requester changes nothing of the receiver's but the FIFO and the completions it takes from.
  predicate SamePlace(s: Sys, t: Sys) {
    && t.core == s.core.(fifo := t.core.fifo, signals := t.core.signals) && |t.core.fifo| <= |s.core.fifo|
    && t.pending == s.pending && t.heard == s.heard && t.receiving == s.receiving && SameCall(s, t)
  }

  lemma FlushStays(s: Sys, status: int)
    ensures SamePlace(s, DoEndFlush(s, status))
  {
  }

  lemma NextTryStays(s: Sys, tries: nat)
    ensures SamePlace(s, NextTry(s, tries))
  {
  }

  lemma WaitStays(s: Sys)
    requires s.pc.AwaitAck? || s.pc.AwaitResponse?
    ensures SamePlace(s, DoEndWait(s))
  {
    hide NextTry;
    if s.pc.AwaitAck? {
      NextTryStays(s, s.pc.tries);
    }
  }

  lemma TakeStays(s: Sys)
    requires |s.pending| <= EVAL_CAP && |s.packet| == 3
    ensures s.pc.TakeAck? ==> SamePlace(s, DoTakeAck(s))
    ensures s.pc.TakeHeader? ==> SamePlace(s, DoTakeHeader(s))
    ensures s.pc.TakePayload? ==> SamePlace(s, DoTakePayload(s))
  {
    hide ReadPacket, Overlay, ControlFrame;
    if !s.pc.Idle? {
      ReadMoves(s);
    }
  }

  lemma RequesterStays(s: Sys, a: Step)
    requires |s.pending| <= EVAL_CAP && |s.packet| == 3 && (a.EndFlush? || a.EndWait? || a.Take?)
    ensures SamePlace(s, Next(s, a))
  {
    hide DoTakeAck, DoTakeHeader, DoTakePayload, DoEndFlush, DoEndWait, SamePlace;
    assert SamePlace(s, s) by { StaysPut(s); }
    match a
    case EndFlush(status) =>
      FlushStays(s, status);
    case EndWait =>
      if s.pc.AwaitAck? || s.pc.AwaitResponse? {
        WaitStays(s);
      }
    case Take =>
      TakeStays(s);
  }

  lemma StaysPut(s: Sys)
    ensures SamePlace(s, s)
  {
  }

  // Where they lead

  lemma FlushLeads(s: Sys, status: int)
    ensures var t := DoEndFlush(s, status);
      && t.packet == s.packet
      && t.pc == (if s.pc.Flush? && status >= 0 then AwaitAck(s.pc.tries) else Leave)
  {
  }

  lemma NextTryLeads(s: Sys, tries: nat)
    ensures var t := NextTry(s, tries);
      t.packet == s.packet && t.pc == if tries + 1 < NUM_RETRY then Flush(tries + 1) else Leave
  {
  }

  lemma WaitLeads(s: Sys)
    requires s.pc.AwaitAck? || s.pc.AwaitResponse?
    ensures var t := DoEndWait(s);
      && t.packet == s.packet
      && t.pc == (if s.core.signals > 0 then if s.pc.AwaitAck? then TakeAck(s.pc.tries) else TakeHeader
                  else if s.pc.AwaitAck? && s.pc.tries + 1 < NUM_RETRY then Flush(s.pc.tries + 1)
                  else Leave)
  {
    hide NextTry;
    if s.pc.AwaitAck? {
      NextTryLeads(s, s.pc.tries);
    }
  }

  lemma TakeLeads(s: Sys)
    requires |s.packet| == 3
    ensures s.pc.TakeAck? ==>
      var pc := DoTakeAck(s).pc;
      pc.AwaitResponse? || pc.Leave? || (s.pc.tries + 1 < NUM_RETRY && pc == Flush(s.pc.tries + 1))
    ensures s.pc.TakeHeader? ==> DoTakeHeader(s).pc.TakePayload? || DoTakeHeader(s).pc.Leave?
    ensures s.pc.TakePayload? ==> DoTakePayload(s).pc.FlushAck?
  {
    hide ReadPacket, Overlay, ControlFrame;
  }
}
