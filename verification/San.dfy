/** ACPI requests: their validation, the retry loop around the controller, and the encoding of the result. */
module San {
  import opened Bytes
  import opened Frames
  import opened SerialWriter
  import opened Window
  import opened Protocol
  import opened RequestInvariant
  import opened RequestTheorems
  import opened Script
  import opened Controller

  const RQST_RETRY := 5
  const MAX_RQST_RESPONSE: byte := 251
  const GSB_LEN := 255

  // Offsets in the data of a request package: cv tc tid iid snc cid cdl pad payload

  predicate ValidRqsx(len: byte, data: seq<byte>)
    requires |data| == GSB_LEN
  {
    len >= 8 && data[6] == len - 8 && data[2] == 0x01
  }

  function RqstOf(len: byte, data: seq<byte>): Request
    requires |data| == GSB_LEN && ValidRqsx(len, data)
  {
    Request(data[1], data[3], data[5], data[4] != 0, data[8..len])
  }

  // The base state may be asked for while the controller is suspended.
  predicate BaseStateQuery(rqst: Request) { rqst.tc == 0x11 && rqst.cid == 0x0d }

  // The package that answers: a status, a length, a payload; what is behind them stays.
  function Encoded(status: byte, payload: seq<byte>, data: seq<byte>): seq<byte>
    requires |data| == GSB_LEN && |payload| + 2 <= GSB_LEN
  {
    [status, |payload|] + payload + data[|payload| + 2..]
  }

  // What the serial line does during each attempt, and the calls others make before it,
  // while the controller is free
  datatype World = World(envs: nat -> Env, others: nat -> seq<Op>)

  class GsbBuffer {
    var status: byte
    var len: byte
    const data: array<byte>

    ghost predicate Valid()
      reads this
    {
      data.Length == GSB_LEN
    }

    constructor (status: byte, len: byte, content: seq<byte>)
      requires |content| == GSB_LEN
      ensures Valid() && fresh(data) && data[..] == content && this.status == status && this.len == len
    {
      this.status, this.len := status, len;
      data := new byte[GSB_LEN](i requires 0 <= i < GSB_LEN => content[i]);
    }

    method Answer(status: byte, payload: seq<byte>)
      requires Valid() && |payload| + 2 <= GSB_LEN
      modifies this, data
      ensures Valid() && this.status == 0 && this.len == |payload| + 2
      ensures data[..] == Encoded(status, payload, old(data[..]))
    {
      ghost var was := data[..];
      data[0] := status;
      data[1] := |payload|;
      var i := 0;
      while i < |payload|
        invariant i <= |payload|
        invariant data[0] == status && data[1] == |payload|
        invariant forall j :: 0 <= j < i ==> data[2 + j] == payload[j]
        invariant forall j :: i + 2 <= j < GSB_LEN ==> data[j] == was[j]
      {
        data[2 + i] := payload[i];
        i := i + 1;
      }
      assert data[2..2 + |payload|] == payload;
      assert data[2 + |payload|..] == was[2 + |payload|..];
      this.status := 0x00;
      this.len := |payload| + 2;
    }
  }

  // An attempt either reached the request engine, which left a record, or was refused; `at`
  // is the length of the log when it began.
  datatype Attempt = Reached(at: nat) | Refused(at: nat, status: int)

  function StatusOf(log: seq<Record>, a: Attempt): int {
    match a
    case Reached(i) => if i < |log| then log[i].status else 0
    case Refused(_, status) => status
  }

  function After(a: Attempt): nat { if a.Reached? then a.at + 1 else a.at }

  // The length of the log when the k-th attempt could begin
  function Before(from: nat, tries: seq<Attempt>, k: nat): nat
    requires k <= |tries|
  {
    if k == 0 then from else After(tries[k - 1])
  }

  // Between the attempt before and the k-th, others have made calls, and nothing else has happened.
  predicate FollowsOthers(log: seq<Record>, from: nat, tries: seq<Attempt>, world: World, k: nat)
    requires k < |tries|
  {
    && Before(from, tries, k) <= tries[k].at && After(tries[k]) <= |log|
    && Issues(world.others(k), log[Before(from, tries, k)..tries[k].at])
  }

  /** What was logged since `from`: the attempts, in order, and before each of them what others have called. */
  predicate Interleaved(log: seq<Record>, from: nat, tries: seq<Attempt>, world: World) {
    && |log| == Before(from, tries, |tries|)
    && forall k :: 0 <= k < |tries| ==> FollowsOthers(log, from, tries, world, k)
  }

  function Transmissions(r: Record): nat { if r.replied ==> r.sent != [] then |Requests(r)| else 0 }

  /** The transmissions of the command in those records, from `i` on, that belong to an attempt. */
  function Volume(log: seq<Record>, i: nat, tries: seq<Attempt>): nat
    decreases |log| - i
  {
    if i >= |log| then 0
    else (if Reached(i) in tries then Transmissions(log[i]) else 0) + Volume(log, i + 1, tries)
  }

  /** An attempt reached the engine with this request, or was refused for the state of the controller. */
  predicate AttemptOk(log: seq<Record>, a: Attempt, rqst: Request) {
    match a
    case Reached(i) =>
      i < |log| && log[i].rqst == rqst && log[i].wantsResult && |log[i].given.data| == MAX_RQST_RESPONSE
      && Transmissions(log[i]) <= NUM_RETRY
    case Refused(_, status) => status == -1 || status == -6
  }

  // The payload a successful attempt has brought
  predicate Brings(log: seq<Record>, a: Attempt, payload: seq<byte>)
  {
    && a.Reached? && a.at < |log|
    && var r := log[a.at];
    if r.rqst.snc then
      && r.replied && Answers(r.accepted, r.start)
      && payload == PayloadOf(Response(r.accepted))
    else payload == []
  }

  /**
   What an attempt has sent for a package of n bytes: each transmission of it is a frame with
   the target controller, the instance, the command and the payload of the package at their
   places, and a response is asked for exactly if the package says so.
   */
  predicate OnTheWire(log: seq<Record>, a: Attempt, n: nat, d: seq<byte>) {
    a.Reached? ==>
      && a.at < |log| && 8 <= n <= |d|
      && var r := log[a.at];
      && r.rqst.snc == (d[4] != 0)
      && (r.replied ==> r.sent != [])
      && forall x <- Requests(r) ::
           && |x.frame| == 10 + n
           && x.frame[9] == d[1] && x.frame[12] == d[3] && x.frame[15] == d[5]
           && x.frame[16..8 + n] == d[8..n]
  }

  lemma AttemptOnTheWire(steps: seq<Step>, a: Attempt, n: byte, d: seq<byte>)
    requires |d| == GSB_LEN && ValidRqsx(n, d) && AttemptOk(Reach(steps).log, a, RqstOf(n, d))
    ensures OnTheWire(Reach(steps).log, a, n, d)
  {
    hide Reach, Asked, AckHeard, RequestFrame, AcksIn;
    if a.Reached? {
      var r := Reach(steps).log[a.at];
      CallDiscipline(steps, a.at);
      LogIsOk(steps, a.at);
      if |r.rqst.payload| <= MAX_RQST_PAYLOAD {
        AskedLayout(r.rqst, r.start);
      }
      forall x <- Requests(r)
        ensures |x.frame| == 10 + n && x.frame[9] == d[1] && x.frame[12] == d[3] && x.frame[15] == d[5]
                && x.frame[16..8 + n] == d[8..n]
      {
        AskedIsFrame(r, x);
      }
    }
  }

  method MakeAttempt(sam: SamController, rqst: Request, res: array<byte>, len: byte, env: Env)
    returns (status: int, newLen: byte, ghost a: Attempt)
    requires sam.Valid() && res !in sam.Repr() && res.Length == MAX_RQST_RESPONSE as int
    requires !rqst.snc ==> len == 0
    modifies sam.Repr(), res
    ensures sam.Valid() && old(sam.Log()) <= sam.Log()
    ensures a.at == |old(sam.Log())| && |sam.Log()| == After(a)
    ensures AttemptOk(sam.Log(), a, rqst) && status == StatusOf(sam.Log(), a)
    ensures !rqst.snc ==> newLen == 0
    ensures status == 0 ==> newLen <= MAX_RQST_RESPONSE && Brings(sam.Log(), a, res[..newLen])
  {
    ghost var before := |sam.Log()|;
    status, newLen := sam.Rqst(rqst, res, len, env);
    if sam.state == Initialized {
      a := Reached(before);
      RecordFacts(sam.ec.trace, before);
    } else {
      a := Refused(before, status);
    }
  }

  lemma RecordFacts(steps: seq<Step>, i: nat)
    requires i < |Reach(steps).log|
    ensures var r := Reach(steps).log[i];
      && Transmissions(r) <= NUM_RETRY
      && (!r.replied ==> r.buffer == r.given)
      && (r.replied ==> r.rqst.snc)
      && (r.status == 0 && r.rqst.snc && r.wantsResult ==>
            && r.replied && Answers(r.accepted, r.start)
            && r.buffer.len <= |r.given.data| && r.buffer.len <= |r.buffer.data|
            && r.buffer.data[..r.buffer.len] == PayloadOf(Response(r.accepted)))
  {
    hide Reach, RequestFrame, OccursIn, AllAsk, AllSentOk, Retries, IsAckFor, ControlFrame;
    LogIsOk(steps, i);
    CallDiscipline(steps, i);
    var r := Reach(steps).log[i];
    if r.status == 0 {
      SuccessIsReplied(r);
    }
  }

  lemma AttemptsStay(log: seq<Record>, longer: seq<Record>, tries: seq<Attempt>, rqst: Request)
    requires log <= longer && forall a <- tries :: AttemptOk(log, a, rqst)
    ensures forall a <- tries :: AttemptOk(longer, a, rqst) && StatusOf(longer, a) == StatusOf(log, a)
  {
  }

  // The log after further calls by others and one more attempt
  lemma InterleavesMore(log: seq<Record>, mid: seq<Record>, end: seq<Record>,
                        from: nat, tries: seq<Attempt>, a: Attempt, world: World)
    requires Interleaved(log, from, tries, world)
    requires log <= mid <= end && Issues(world.others(|tries|), mid[|log|..])
    requires a.at == |mid| && |end| == After(a)
    ensures Interleaved(end, from, tries + [a], world)
  {
    hide FollowsOthers;
    forall k | 0 <= k < |tries| + 1 ensures FollowsOthers(end, from, tries + [a], world, k) {
      if k < |tries| {
        StillFollows(log, end, from, tries, a, world, k);
      } else {
        LastFollows(mid, end, from, tries, a, world, |log|);
      }
    }
  }

  lemma StillFollows(log: seq<Record>, end: seq<Record>, from: nat, tries: seq<Attempt>, a: Attempt, world: World, k: nat)
    requires log <= end && k < |tries| && FollowsOthers(log, from, tries, world, k)
    ensures FollowsOthers(end, from, tries + [a], world, k)
  {
    hide Issues;
    var lo, hi := Before(from, tries, k), tries[k].at;
    assert Before(from, tries + [a], k) == lo;
    assert end[lo..hi] == log[lo..hi];
  }

  lemma LastFollows(mid: seq<Record>, end: seq<Record>, from: nat, tries: seq<Attempt>, a: Attempt, world: World, n: nat)
    requires mid <= end && n == Before(from, tries, |tries|) <= |mid| && Issues(world.others(|tries|), mid[n..])
    requires a.at == |mid| && |end| == After(a)
    ensures FollowsOthers(end, from, tries + [a], world, |tries|)
  {
    hide Issues;
    assert Before(from, tries + [a], |tries|) == n;
    assert end[n..|mid|] == mid[n..];
  }

  lemma FollowsBounds(log: seq<Record>, from: nat, tries: seq<Attempt>, world: World, k: nat)
    requires Interleaved(log, from, tries, world) && k < |tries|
    ensures Before(from, tries, k) <= tries[k].at && After(tries[k]) <= |log|
    ensures Issues(world.others(k), log[Before(from, tries, k)..tries[k].at])
  {
    hide Issues;
    assert FollowsOthers(log, from, tries, world, k);
  }

  lemma {:induction false} AttemptsAscend(log: seq<Record>, from: nat, tries: seq<Attempt>, world: World, j: nat, k: nat)
    requires Interleaved(log, from, tries, world) && j < k < |tries|
    ensures After(tries[j]) <= tries[k].at && After(tries[k]) <= |log|
    decreases k
  {
    hide Issues, Interleaved;
    FollowsBounds(log, from, tries, world, k);
    if j < k - 1 {
      AttemptsAscend(log, from, tries, world, j, k - 1);
    }
  }

  // A record between two attempts is none of them.
  lemma BetweenAttempts(log: seq<Record>, from: nat, tries: seq<Attempt>, world: World, i: nat, k: nat)
    requires Interleaved(log, from, tries, world)
    requires k <= |tries| && Before(from, tries, k) <= i && (k < |tries| ==> i < tries[k].at)
    ensures Reached(i) !in tries
  {
    hide Interleaved;
    forall j | 0 <= j < |tries| ensures tries[j] != Reached(i) {
      if j < k - 1 {
        AttemptsAscend(log, from, tries, world, j, k - 1);
      } else if k < j {
        AttemptsAscend(log, from, tries, world, k, j);
      }
    }
  }

  // The attempts from the k-th on account for all that is counted from record i on.
  lemma {:induction false} VolumeFrom(log: seq<Record>, from: nat, tries: seq<Attempt>, world: World,
                                      rqst: Request, i: nat, k: nat)
    requires Interleaved(log, from, tries, world) && (forall a <- tries :: AttemptOk(log, a, rqst))
    requires k <= |tries| && Before(from, tries, k) <= i && (k < |tries| ==> i <= tries[k].at)
    ensures Volume(log, i, tries) <= NUM_RETRY * (|tries| - k)
    decreases |log| - i, |tries| - k
  {
    hide Interleaved, Transmissions;
    if i < |log| {
      if k < |tries| && tries[k].at == i {
        assert AttemptOk(log, tries[k], rqst);
        if k + 1 < |tries| {
          AttemptsAscend(log, from, tries, world, k, k + 1);
        }
        VolumeFrom(log, from, tries, world, rqst, After(tries[k]), k + 1);
      } else {
        BetweenAttempts(log, from, tries, world, i, k);
        VolumeFrom(log, from, tries, world, rqst, i + 1, k);
      }
    }
  }

  /**
   The ids of the attempts: two of them carry the same one exactly if the ACKs read from the
   one to the other, by whomever, are a multiple of 2048; so a retry that follows at once
   reuses the id exactly if the attempt before was not acknowledged.
   */
  predicate IdsFollowAcks(log: seq<Record>, tries: seq<Attempt>) {
    forall j, k :: 0 <= j < k < |tries| && tries[j].Reached? && tries[k].Reached? ==>
      var p, q := tries[j].at, tries[k].at;
      && p < q < |log|
      && (WireRqid(log[q].start) == WireRqid(log[p].start) <==> AcksIn(log[p..q]) % 0x800 == 0)
      && (q == p + 1 ==> (WireRqid(log[q].start) == WireRqid(log[p].start) <==> !log[p].acked))
  }

  lemma AttemptIds(steps: seq<Step>, from: nat, tries: seq<Attempt>, world: World)
    requires Interleaved(Reach(steps).log, from, tries, world)
    ensures IdsFollowAcks(Reach(steps).log, tries)
  {
    hide Reach, Interleaved, WireRqid, AcksIn;
    var log := Reach(steps).log;
    forall j, k | 0 <= j < k < |tries| && tries[j].Reached? && tries[k].Reached?
      ensures var p, q := tries[j].at, tries[k].at;
        && p < q < |log|
        && (WireRqid(log[q].start) == WireRqid(log[p].start) <==> AcksIn(log[p..q]) % 0x800 == 0)
        && (q == p + 1 ==> (WireRqid(log[q].start) == WireRqid(log[p].start) <==> !log[p].acked))
    {
      AttemptsAscend(log, from, tries, world, j, k);
      CallsShareId(steps, tries[j].at, tries[k].at);
    }
  }

  lemma {:induction false} AcksAtMost(log: seq<Record>)
    ensures AcksIn(log) <= |log|
  {
    if log != [] {
      AcksAtMost(log[..|log| - 1]);
    }
  }

  lemma {:induction false} IssuesAtMost(ops: seq<Op>, added: seq<Record>)
    requires Issues(ops, added)
    ensures |added| <= |ops|
    decreases |ops|
  {
    if ops != [] {
      var n, k := |ops| - 1, |added| - 1;
      if Issues(ops[..n], added) {
        IssuesAtMost(ops[..n], added);
      } else {
        IssuesAtMost(ops[..n], added[..k]);
      }
    }
  }

  /**
   As long as fewer than 2047 calls of others come between two attempts, the second one
   reuses the id exactly if neither the first nor any call between has been acknowledged.
   */
  lemma RetryReusesIdIff(log: seq<Record>, from: nat, tries: seq<Attempt>, world: World, k: nat)
    requires Interleaved(log, from, tries, world) && IdsFollowAcks(log, tries)
    requires 0 < k < |tries| && tries[k - 1].Reached? && tries[k].Reached? && |world.others(k)| < 0x7ff
    ensures var p, q := tries[k - 1].at, tries[k].at;
      p < q < |log| && (WireRqid(log[q].start) == WireRqid(log[p].start) <==> AcksIn(log[p..q]) == 0)
  {
    hide Interleaved, IdsFollowAcks, Issues, WireRqid, AcksIn;
    var p, q := tries[k - 1].at, tries[k].at;
    IdsAt(log, tries, k - 1, k);
    FollowsBounds(log, from, tries, world, k);
    IssuesAtMost(world.others(k), log[Before(from, tries, k)..q]);
    AcksAtMost(log[p..q]);
  }

  lemma IdsAt(log: seq<Record>, tries: seq<Attempt>, j: nat, k: nat)
    requires IdsFollowAcks(log, tries) && j < k < |tries| && tries[j].Reached? && tries[k].Reached?
    ensures var p, q := tries[j].at, tries[k].at;
      p < q < |log| && (WireRqid(log[q].start) == WireRqid(log[p].start) <==> AcksIn(log[p..q]) % 0x800 == 0)
  {
    hide WireRqid, AcksIn;
  }

  /** Retries happen exactly after an I/O error, at most five attempts in all. */
  predicate Retried(log: seq<Record>, tries: seq<Attempt>, rqst: Request) {
    && 1 <= |tries| <= 5
    && (forall a <- tries :: AttemptOk(log, a, rqst))
    && (forall k :: 0 <= k < |tries| - 1 ==> StatusOf(log, tries[k]) == -5)
    && (|tries| < 5 ==> StatusOf(log, tries[|tries| - 1]) != -5)
  }

  // The attempts, until one does not fail with an I/O error
  method TryAll(sam: SamController, rqst: Request, res: array<byte>, world: World)
    returns (status: int, len: byte, ghost tries: seq<Attempt>)
    requires sam.Valid() && res !in sam.Repr() && res.Length == MAX_RQST_RESPONSE as int
    modifies sam.Repr(), res
    ensures sam.Valid() && old(sam.Log()) <= sam.Log()
    ensures Interleaved(sam.Log(), |old(sam.Log())|, tries, world) && Retried(sam.Log(), tries, rqst)
    ensures status == StatusOf(sam.Log(), tries[|tries| - 1])
    ensures status == 0 ==> len <= MAX_RQST_RESPONSE && Brings(sam.Log(), tries[|tries| - 1], res[..len])
  {
    hide AttemptOk, StatusOf, Brings, Interleaved, Issues, SamController.Valid;
    status, len, tries := 0, 0, [];
    ghost var from := |sam.Log()|;
    assert Interleaved(sam.Log(), from, tries, world) by { NothingYet(sam.Log(), world); }
    var i := 0;
    while i < RQST_RETRY
      invariant i <= RQST_RETRY && i == |tries| && sam.Valid() && old(sam.Log()) <= sam.Log()
      invariant Interleaved(sam.Log(), from, tries, world)
      invariant forall a <- tries :: AttemptOk(sam.Log(), a, rqst) && StatusOf(sam.Log(), a) == -EIO
      invariant i > 0 ==> status == -EIO
      invariant !rqst.snc ==> len == 0
    {
      ghost var log := sam.Log();
      ghost var path := sam.Operate(world.others(i));
      ghost var mid := sam.Log();
      PlayedIssues(world.others(i), path, mid, sam.states, |log|);
      ghost var a;
      status, len, a := MakeAttempt(sam, rqst, res, len, world.envs(i));
      AttemptsStay(log, sam.Log(), tries, rqst);
      InterleavesMore(log, mid, sam.Log(), from, tries, a, world);
      tries := tries + [a];
      if status != -EIO {
        break;
      }
      i := i + 1;
    }
  }

  lemma NothingYet(log: seq<Record>, world: World)
    ensures Interleaved(log, |log|, [], world)
  {
  }

  // The answer to a request, by what its last attempt has returned
  method Respond(buffer: GsbBuffer, rqst: Request, status: int, res: array<byte>, len: byte)
    returns (ghost payload: seq<byte>)
    requires buffer.Valid() && res.Length == MAX_RQST_RESPONSE as int && res != buffer.data
    requires status == 0 ==> len <= MAX_RQST_RESPONSE
    modifies buffer, buffer.data
    ensures buffer.Valid() && |payload| <= MAX_RQST_RESPONSE
    ensures payload == if BaseStateQuery(rqst) && status == -EPERM then [0x01]
                       else if status == 0 then res[..len] else []
    ensures buffer.status == 0 && buffer.len == |payload| + 2
    ensures buffer.data[..] == Encoded(if status == 0 || payload != [] then 0 else 1, payload, old(buffer.data[..]))
  {
    payload := [];
    if rqst.tc == 0x11 && rqst.cid == 0x0d && status == -EPERM {
      payload := [0x01];
      buffer.Answer(0x00, [0x01]);
    } else if status == 0 {
      payload := res[..len];
      buffer.Answer(0x00, res[..len]);
    } else {
      buffer.Answer(0x01, []);
    }
  }

  /**
   A request package is left alone if it is not valid. Otherwise it is answered with a
   package whose length is that of the payload plus two: the base-state quirk, the
   payload of the response, or the mark of an error. The log has grown by the attempts, at
   most five, and by what others have called between them; the attempts have sent the
   command at most 15 times.
   */
  method SanRqst(sam: SamController, buffer: GsbBuffer, world: World)
    returns (ghost tries: seq<Attempt>, ghost payload: seq<byte>)
    requires sam.Valid() && buffer.Valid() && buffer !in sam.Repr() && buffer.data !in sam.Repr()
    modifies sam.Repr(), buffer, buffer.data
    ensures sam.Valid() && buffer.Valid() && old(sam.Log()) <= sam.Log()
    ensures var n: nat, d := old(buffer.len), old(buffer.data[..]);
      if n < 8 || d[6] != n - 8 || d[2] != 0x01 then
        && tries == [] && sam.Log() == old(sam.Log())
        && (buffer.status, buffer.len, buffer.data[..]) == (old(buffer.status), n, d)
      else
        && (exists rqst :: Retried(sam.Log(), tries, rqst))
        && Interleaved(sam.Log(), |old(sam.Log())|, tries, world)
        && Volume(sam.Log(), |old(sam.Log())|, tries) <= 15
        && IdsFollowAcks(sam.Log(), tries)
        && (forall a <- tries :: OnTheWire(sam.Log(), a, n, d))
        && var last := tries[|tries| - 1];
        && var status := StatusOf(sam.Log(), last);
        && (if d[1] == 0x11 && d[5] == 0x0d && status == -1 then payload == [0x01]
            else if status == 0 then Brings(sam.Log(), last, payload)
            else payload == [])
        && |payload| <= 251
        && buffer.status == 0 && buffer.len == |payload| + 2
        && buffer.data[0] == (if status == 0 || payload != [] then 0x00 else 0x01)
        && buffer.data[1] == |payload|
        && buffer.data[2..2 + |payload|] == payload && buffer.data[2 + |payload|..] == d[2 + |payload|..]
  {
    hide AttemptOk, StatusOf, Brings, Interleaved, IdsFollowAcks, Volume, Encoded;
    tries, payload := [], [];
    if !ValidRqsx(buffer.len, buffer.data[..]) {
      return;
    }
    var rqst := RqstOf(buffer.len, buffer.data[..]);
    var res := new byte[MAX_RQST_RESPONSE as int](_ => 0);
    var status, len;
    status, len, tries := TryAll(sam, rqst, res, world);
    VolumeBound(sam.Log(), |old(sam.Log())|, tries, world, rqst);
    assert sam.Log() == Reach(sam.ec.trace).log by { LogIsReached(sam); }
    AttemptIds(sam.ec.trace, |old(sam.Log())|, tries, world);
    ghost var d := buffer.data[..];
    forall a <- tries ensures OnTheWire(sam.Log(), a, buffer.len, d) {
      AttemptOnTheWire(sam.ec.trace, a, buffer.len, d);
    }
    payload := Respond(buffer, rqst, status, res, len);
    EncodedParts(if status == 0 || payload != [] then 0 else 1, payload, d);
  }

  lemma EncodedParts(status: byte, payload: seq<byte>, data: seq<byte>)
    requires |data| == GSB_LEN && |payload| + 2 <= GSB_LEN
    ensures var e := Encoded(status, payload, data);
      && |e| == |data| && e[0] == status && e[1] == |payload|
      && e[2..2 + |payload|] == payload && e[2 + |payload|..] == data[2 + |payload|..]
  {
  }

  lemma LogIsReached(sam: SamController)
    requires sam.Valid()
    ensures sam.Log() == Reach(sam.ec.trace).log
  {
    hide Reach;
  }

  /** All the records since `from` that are attempts hold at most three transmissions each. */
  lemma VolumeBound(log: seq<Record>, from: nat, tries: seq<Attempt>, world: World, rqst: Request)
    requires Interleaved(log, from, tries, world) && Retried(log, tries, rqst)
    ensures Volume(log, from, tries) <= 15
  {
    hide AttemptOk, StatusOf, Volume, Interleaved;
    FollowsBounds(log, from, tries, world, 0);
    VolumeFrom(log, from, tries, world, rqst, from, 0);
  }
}
