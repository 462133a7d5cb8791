/**
 The request engine as a transition system. The requester (under the mutex of the
 controller) takes its steps one at a time. Beside it the receive callback runs, any number
 of times and with any bytes; it takes in a chunk and then evaluates, one message at a step.
 It holds the lock of the receiver all the time, and so do the restart and the discard;
 waits and FIFO reads do not, so they may fall between two messages of one call.
 */
module Protocol {
  import opened Bytes
  import opened Frames
  import opened Receiver
  import opened SerialWriter

  const NUM_RETRY := 3
  const EIO := 5
  const EINVAL := 22

  // Where the requester stands: about to take the step named. `tries` counts finished attempts.
  datatype Pc =
    | Idle
    | Flush(tries: nat)
    | AwaitAck(tries: nat)
    | TakeAck(tries: nat)
    | AwaitResponse
    | TakeHeader
    | TakePayload
    | FlushAck
    | Leave

  // What was handed to the serial device, and its answer (0, or a negative error)
  datatype Sent = Sent(frame: seq<byte>, status: int)

  // The caller's result buffer: its bytes and its length field
  datatype Buffer = Buffer(data: seq<byte>, len: byte)

  // A finished call. `start` is the number of acknowledged requests before it.
  datatype Record = Record(rqst: Request, wantsResult: bool, given: Buffer, start: nat, status: int,
                           buffer: Buffer, sent: seq<Sent>, acked: bool, replied: bool,
                           accepted: seq<seq<byte>>, heard: seq<byte>)

  /**
   `receiving` says that a receive call is under way.
   `packet` holds the three bytes of the packet header read last. The histories: `acks`, the
   ACKs read so far; `start`, what it was when the call began; `given`, the result buffer
   then; `taken`, the packets read in this window; `sent`, `acked` and `replied` (the
   response is acknowledged) of this call; `heard`, the bytes received in this window;
   `log`, the finished calls.
   */
  datatype Sys = Sys(core: Core, pending: seq<byte>, receiving: bool, seqno: byte, rqid: u16, written: seq<byte>,
                     pc: Pc, rqst: Request, wantsResult: bool, buffer: Buffer,
                     packet: seq<byte>, status: int,
                     acks: nat, start: nat, given: Buffer, taken: nat, sent: seq<Sent>,
                     acked: bool, replied: bool, heard: seq<byte>, log: seq<Record>)

  datatype Step =
    | Begin(rqst: Request, wantsResult: bool, given: Buffer)
    | Arrive(chunk: seq<byte>)
    | Evaluate
    | EndFlush(status: int)
    | EndWait
    | Take
    | Return

  // kfifo_out: the bytes read overwrite the front of the destination
  function FifoOut(fifo: seq<byte>, n: nat): seq<byte> { fifo[..Min(n, |fifo|)] }

  function Overlay(dst: seq<byte>, out: seq<byte>): seq<byte> {
    if |out| <= |dst| then out + dst[|out|..] else out
  }

  function NextTry(s: Sys, tries: nat): Sys {
    if tries + 1 < NUM_RETRY then s.(pc := Flush(tries + 1))
    else s.(pc := Leave, status := -EIO)
  }

  function DoBegin(s: Sys, rqst: Request, wantsResult: bool, given: Buffer): (t: Sys)
    ensures |t.pending| <= |s.pending| && (t.packet == s.packet || |t.packet| == 3)
  {
    if |rqst.payload| > MAX_RQST_PAYLOAD then
      s.(log := s.log + [Record(rqst, wantsResult, given, s.acks, -EINVAL, given, [], false, false, [], [])])
    else
      s.(written := RequestFrame(rqst, s.seqno, s.rqid),
         core := Restart(s.core, rqst.snc, s.seqno, RqidToRqst(s.rqid)), pending := [],
         pc := Flush(0), rqst := rqst, wantsResult := wantsResult, buffer := given,
         packet := [0, 0, 0], status := 0,
         start := s.acks, given := given, taken := 0, sent := [], acked := false, replied := false, heard := [])
  }

  // A receive call begins.
  function DoArrive(s: Sys, chunk: seq<byte>): (t: Sys)
    requires |s.pending| <= EVAL_CAP
    ensures |t.pending| <= EVAL_CAP && t.packet == s.packet
  {
    var part := chunk[..Accepts(s.pending, chunk)];
    s.(pending := s.pending + part, heard := s.heard + part, receiving := true)
  }

  // It evaluates the next message, or ends because it needs more bytes.
  function DoEvaluate(s: Sys): (t: Sys)
    ensures |t.pending| <= |s.pending| && t.packet == s.packet
  {
    var r := EvalBuf(s.core, s.pending);
    if r.used == 0 then s.(receiving := false)
    else s.(core := r.core, pending := s.pending[r.used..])
  }

  function DoEndFlush(s: Sys, status: int): (t: Sys)
    ensures t.pending == s.pending && t.packet == s.packet
  {
    var st := if status >= 0 then 0 else status;
    var t := s.(sent := s.sent + [Sent(s.written, st)], status := st);
    if s.pc.FlushAck? then t.(pc := Leave, replied := true)
    else if s.pc.Flush? && st == 0 then t.(pc := AwaitAck(s.pc.tries))
    else t.(pc := Leave)
  }

  // The wait ends with the completion if it was signalled, else in a timeout.
  function DoEndWait(s: Sys): (t: Sys)
    requires s.pc.AwaitAck? || s.pc.AwaitResponse?
    ensures t.pending == s.pending && t.packet == s.packet
  {
    if s.core.signals > 0 then
      s.(core := s.core.(signals := s.core.signals - 1),
         pc := if s.pc.AwaitAck? then TakeAck(s.pc.tries) else TakeHeader)
    else if s.pc.AwaitAck? then NextTry(s, s.pc.tries)
    else s.(pc := Leave, status := -EIO)
  }

  function ReadPacket(s: Sys): (t: Sys)
    requires |s.packet| == 3
    ensures t.pending == s.pending && |t.packet| == 3
  {
    var out := FifoOut(s.core.fifo, 3);
    s.(core := s.core.(fifo := s.core.fifo[|out|..]), packet := Overlay(s.packet, out), taken := s.taken + 1)
  }

  function DoTakeAck(s: Sys): (t: Sys)
    requires s.pc.TakeAck? && |s.packet| == 3
    ensures t.pending == s.pending && |t.packet| == 3
  {
    var t := ReadPacket(s);
    if t.packet[0] != TYPE_ACK then NextTry(t, s.pc.tries)
    else
      t.(seqno := (s.seqno + 1) % 0x100, rqid := (s.rqid + 1) % 0x1_0000,
         acks := s.acks + 1, acked := true,
         pc := if s.rqst.snc && s.wantsResult then AwaitResponse else Leave)
  }

  function DoTakeHeader(s: Sys): (t: Sys)
    requires |s.packet| == 3
    ensures t.pending == s.pending && |t.packet| == 3
  {
    var t := ReadPacket(s);
    if |s.buffer.data| < t.packet[2] then t.(pc := Leave, status := -EINVAL) else t.(pc := TakePayload)
  }

  function DoTakePayload(s: Sys): (t: Sys)
    requires |s.packet| == 3
    ensures t.pending == s.pending && t.packet == s.packet
  {
    var out := FifoOut(s.core.fifo, s.packet[2]);
    s.(core := s.core.(fifo := s.core.fifo[|out|..]),
       buffer := Buffer(Overlay(s.buffer.data, out), s.packet[2]),
       written := ControlFrame(TYPE_ACK, s.packet[1]), pc := FlushAck)
  }

  function Summary(s: Sys): Record {
    Record(s.rqst, s.wantsResult, s.given, s.start, s.status, s.buffer, s.sent, s.acked, s.replied,
           s.core.accepted, s.heard)
  }

  function DoReturn(s: Sys): (t: Sys)
    ensures t.pending == [] && t.packet == s.packet
  {
    s.(core := DiscardAll(s.core), pending := [], pc := Idle, log := s.log + [Summary(s)])
  }

  /** One step; a step that is not the requester's turn leaves everything as it is. */
  function Next(s: Sys, a: Step): (t: Sys)
    requires |s.pending| <= EVAL_CAP && |s.packet| == 3
    ensures |t.pending| <= EVAL_CAP && |t.packet| == 3
  {
    hide DoBegin, DoArrive, DoEvaluate, DoEndFlush, DoEndWait, DoTakeAck, DoTakeHeader, DoTakePayload, DoReturn;
    match a
    case Begin(rqst, wantsResult, given) => if s.pc.Idle? && !s.receiving then DoBegin(s, rqst, wantsResult, given) else s
    case Arrive(chunk) => if !s.receiving then DoArrive(s, chunk) else s
    case Evaluate => if s.receiving then DoEvaluate(s) else s
    case EndFlush(status) => if s.pc.Flush? || s.pc.FlushAck? then DoEndFlush(s, status) else s
    case EndWait => if s.pc.AwaitAck? || s.pc.AwaitResponse? then DoEndWait(s) else s
    case Take =>
      if s.pc.TakeAck? then DoTakeAck(s)
      else if s.pc.TakeHeader? then DoTakeHeader(s)
      else if s.pc.TakePayload? then DoTakePayload(s)
      else s
    case Return => if s.pc.Leave? && !s.receiving then DoReturn(s) else s
  }

  // t is at the same call as s.
  predicate SameCall(s: Sys, t: Sys) {
    && t.rqst == s.rqst && t.wantsResult == s.wantsResult && t.given == s.given && t.start == s.start && t.log == s.log
  }

  const EMPTY_RQST := Request(0, 0, 0, false, [])

  // The controller after probing
  const INIT := Sys(Core(Discard, false, 0, 0, [], 0, [], [], false), [], false, 0, 0, [], Idle, EMPTY_RQST, false,
                    Buffer([], 0), [0, 0, 0], 0, 0, 0, Buffer([], 0), 0, [], false, false, [], [])

  function Run(s: Sys, steps: seq<Step>): (t: Sys)
    requires |s.pending| <= EVAL_CAP && |s.packet| == 3
    ensures |t.pending| <= EVAL_CAP && |t.packet| == 3
    decreases |steps|
  {
    if steps == [] then s else Run(Next(s, steps[0]), steps[1..])
  }
}
