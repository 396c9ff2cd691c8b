/** What every run of the control worker keeps: the queues in lockstep, one
    heartbeat at most and at the front, and every request resolved exactly once,
    in the order of submission. */
module WorkerRuns {
  import opened Gvsp
  import opened Gvcp
  import opened Worker

  // ---------------------------------------------------------- the invariant

  /** The operation carries out its request, as far as it has come. */
  predicate Serves(requests: seq<Request>, op: Op) {
    op.Heartbeat? ||
    (op.handle < |requests| &&
     match op
     case ReadReg(h) => requests[h].GetRegister?
     case ReadRegs(h, addrs, values) => requests[h] == GetRegisters(addrs) && |values| <= |addrs|
     case WriteRegs(h, pairs, done) => requests[h] == SetRegisters(pairs) && done <= |pairs|
     case ReadMem(h, bytes, want, nextAddr) =>
       requests[h].GetMemory? && requests[h].len == want && |bytes| <= want
       && nextAddr == AddWrapping(requests[h].addr, |bytes|)
     case WriteMem(h, data, offset, baseAddr) => requests[h] == SetMemory(baseAddr, data) && offset <= |data|)
  }

  /** What has to be sent for an operation. */
  function SendOf(requests: seq<Request>, op: Op): PendingSend
    requires Serves(requests, op)
  {
    if op.Heartbeat? then ReadRegsOf([CONTROL_CHANNEL_PRIVILEGE]) else SendFor(requests[op.handle])
  }

  /** Units of the request that are done: registers or bytes. */
  function Progress(op: Op): nat {
    match op
    case ReadReg(_) => 0
    case ReadRegs(_, _, values) => |values|
    case WriteRegs(_, _, done) => done
    case ReadMem(_, bytes, _, _) => |bytes|
    case WriteMem(_, _, offset, _) => offset
    case Heartbeat => 0
  }

  ghost predicate Lockstep(s: State) {
    && |s.queue| == |s.payloads|
    && (forall i | 0 <= i < |s.queue| ::
          Serves(s.requests, s.queue[i]) && s.payloads[i] == SendOf(s.requests, s.queue[i]))
  }

  /** At most one heartbeat is pending, and a queued one is at the front. */
  ghost predicate OneHeartbeat(queue: seq<Op>, current: Option<Op>) {
    && (forall i | 1 <= i < |queue| :: !queue[i].Heartbeat?)
    && (current == Some(Heartbeat) && queue != [] ==> !queue[0].Heartbeat?)
  }

  function HandleOf(op: Op): seq<nat> { if op.Heartbeat? then [] else [op.handle] }

  function HandlesOf(ops: seq<Op>): seq<nat> { if ops == [] then [] else HandleOf(ops[0]) + HandlesOf(ops[1..]) }

  /** The requests not yet resolved, the one being carried out first. */
  function PendingHandles(queue: seq<Op>, current: Option<Op>): seq<nat> {
    (if current.Some? then HandleOf(current.value) else []) + HandlesOf(queue)
  }

  /** Resolved and pending requests are all the requests, each once and in order. */
  ghost predicate InOrder(s: State, current: Option<Op>) {
    var pending := PendingHandles(s.queue, current);
    && |s.resolved| + |pending| == |s.requests|
    && (forall i | 0 <= i < |s.resolved| :: s.resolved[i].handle == i)
    && (forall i | 0 <= i < |pending| :: pending[i] == |s.resolved| + i)
  }

  /** A value of the kind and size the request asks for. */
  predicate Fits(request: Request, value: Value) {
    match request
    case GetRegister(_) => value.Register?
    case GetRegisters(addrs) => value.Registers? && |value.values| == |addrs|
    case GetMemory(_, len) => value.Memory? && |value.bytes| == len
    case SetRegisters(_) => value.Written?
    case SetMemory(_, _) => value.Written?
  }

  predicate Sound(requests: seq<Request>, r: Resolution) {
    r.handle < |requests| && r.outcome != Failed(Mismatch) && (r.outcome.Ok? ==> Fits(requests[r.handle], r.outcome.value))
  }

  ghost predicate AllSound(s: State) { forall r | r in s.resolved :: Sound(s.requests, r) }

  /** Only the request first in line has begun. */
  ghost predicate OthersFresh(s: State) {
    forall op | op in s.queue && !op.Heartbeat? && op.handle > |s.resolved| :: Progress(op) == 0
  }

  /** The invariant, with `current` the operation taken off the queue. */
  ghost predicate Holding(s: State, current: Option<Op>) {
    && Lockstep(s) && OneHeartbeat(s.queue, current) && InOrder(s, current) && AllSound(s) && OthersFresh(s)
    && (current.Some? ==> Serves(s.requests, current.value))
    && s.nextId == IdOf(s.serial)
  }

  function Current(s: State): Option<Op> { if s.inflight.Some? then Some(s.inflight.value.op) else None }

  /** The transaction in flight is the latest, and what it sent is its operation's. */
  ghost predicate Transacting(cfg: Config, s: State) {
    s.inflight.Some? ==>
      var i := s.inflight.value;
      && i.serial == s.serial && i.id == i.sent.id == s.nextId && Serves(s.requests, i.op)
      && Encode(cfg, i.op, SendOf(s.requests, i.op)) == Some(i.sent.command)
  }

  ghost predicate Inv(cfg: Config, s: State) {
    && Holding(s, Current(s)) && Transacting(cfg, s)
    && (s.stopped ==> s.queue == [] && s.inflight.None?)
  }

  // ------------------------------------------------------ taking and resolving

  lemma FirstInLine(s: State, op: Op)
    requires InOrder(s, Some(op)) && !op.Heartbeat?
    ensures op.handle == |s.resolved| && |s.requests| > |s.resolved|
  {
    assert PendingHandles(s.queue, Some(op))[0] == op.handle;
  }

  lemma ResolveKeeps(s: State, op: Op, outcome: Outcome)
    requires Holding(s, Some(op)) && !op.Heartbeat?
    requires outcome != Failed(Mismatch) && (outcome.Ok? ==> Fits(s.requests[op.handle], outcome.value))
    ensures Holding(Resolve(s, op.handle, outcome), None)
  {
    FirstInLine(s, op);
    var t := Resolve(s, op.handle, outcome);
    var pending, rest := PendingHandles(s.queue, Some(op)), PendingHandles(s.queue, None);
    assert pending == [op.handle] + rest;
    forall i | 0 <= i < |rest| ensures rest[i] == |t.resolved| + i { assert rest[i] == pending[i + 1]; }
  }

  lemma FailKeeps(s: State, op: Op, error: Error)
    requires Holding(s, Some(op)) && !error.Mismatch?
    ensures Holding(Fail(s, op, error), None)
  {
    if op.Heartbeat? { HeartbeatDone(s); } else { ResolveKeeps(s, op, Failed(error)); }
  }

  lemma HeartbeatDone(s: State)
    requires Holding(s, Some(Heartbeat))
    ensures Holding(s, None)
  {
    assert PendingHandles(s.queue, Some(Heartbeat)) == PendingHandles(s.queue, None);
  }

  // ---------------------------------------------------------------- sending

  lemma EncodeServes(cfg: Config, requests: seq<Request>, op: Op)
    requires Serves(requests, op)
    ensures Encode(cfg, op, SendOf(requests, op)).Some?
  {
  }

  lemma SendKeeps(cfg: Config, s: State, op: Op, now: int, canSend: bool)
    requires Holding(s, Some(op)) && s.inflight.None? && !s.stopped
    ensures Inv(cfg, SendOp(cfg, s, op, SendOf(s.requests, op), now, canSend))
  {
    hide Lockstep, InOrder, Encode;
    EncodeServes(cfg, s.requests, op);
    NextIdCounts(s.serial);
    var t := s.(nextId := NextId(s.nextId), serial := s.serial + 1);
    SameQueues(s, t, Some(op));
    FailKeeps(t, op, Io);
    var u := SendOp(cfg, s, op, SendOf(s.requests, op), now, canSend);
    if u.inflight.Some? { SameQueues(s, u, Some(op)); }
  }

  lemma SameQueues(s: State, t: State, current: Option<Op>)
    requires s.queue == t.queue && s.payloads == t.payloads && s.requests == t.requests && s.resolved == t.resolved
    ensures Lockstep(s) == Lockstep(t) && InOrder(s, current) == InOrder(t, current)
    ensures AllSound(s) == AllSound(t) && OthersFresh(s) == OthersFresh(t)
  {
  }

  /** The next chunk waits behind the heartbeat, still the first in line. */
  lemma WaitsKeeps(s: State, op: Op)
    requires Holding(s, Some(op)) && !op.Heartbeat? && s.queue != [] && s.queue[0].Heartbeat?
    ensures Holding(s.(queue := InsertSecond(s.queue, op), payloads := InsertSecond(s.payloads, SendOf(s.requests, op))), None)
  {
    hide Serves;
    FirstInLine(s, op);
    var queue := InsertSecond(s.queue, op);
    var t := s.(queue := queue, payloads := InsertSecond(s.payloads, SendOf(s.requests, op)));
    assert Lockstep(t) by {
      forall i | 0 <= i < |t.queue|
        ensures Serves(t.requests, t.queue[i]) && t.payloads[i] == SendOf(t.requests, t.queue[i])
      {
        if i >= 2 { assert t.queue[i] == s.queue[i - 1] && t.payloads[i] == s.payloads[i - 1]; }
      }
    }
    WaitsInOrder(s, op);
  }

  lemma WaitsInOrder(s: State, op: Op)
    requires InOrder(s, Some(op)) && !op.Heartbeat? && s.queue != [] && s.queue[0].Heartbeat?
    ensures InOrder(s.(queue := InsertSecond(s.queue, op)), None)
  {
    hide HandlesOf;
    var queue := InsertSecond(s.queue, op);
    var rest := s.queue[1..];
    assert queue == [Heartbeat] + ([op] + rest) && s.queue == [Heartbeat] + rest;
    HeartbeatNoHandle([op] + rest);
    HeartbeatNoHandle(rest);
    HandleFirst(op, rest);
    assert PendingHandles(queue, None) == PendingHandles(s.queue, Some(op));
  }

  lemma HandleFirst(op: Op, rest: seq<Op>)
    ensures HandlesOf([op] + rest) == HandleOf(op) + HandlesOf(rest)
  {
    assert ([op] + rest)[1..] == rest;
  }

  lemma ContinueKeeps(cfg: Config, s: State, op: Op, now: int, canSend: bool)
    requires Holding(s, Some(op)) && !op.Heartbeat? && s.inflight.None? && !s.stopped
    ensures Inv(cfg, ContinueOp(cfg, s, op, SendOf(s.requests, op), now, canSend))
  {
    if s.queue != [] && s.queue[0].Heartbeat? {
      WaitsKeeps(s, op);
    } else {
      SendKeeps(cfg, s, op, now, canSend);
    }
  }

  lemma FrontTaken(s: State)
    requires Holding(s, None) && s.queue != []
    ensures |s.payloads| == |s.queue| && s.payloads[0] == SendOf(s.requests, s.queue[0])
    ensures Holding(s.(queue := s.queue[1..], payloads := s.payloads[1..]), Some(s.queue[0]))
  {
    hide Serves, SendOf, Progress;
    assert PendingHandles(s.queue[1..], Some(s.queue[0])) == PendingHandles(s.queue, None);
  }

  lemma PumpKeeps(cfg: Config, s: State, now: int, canSend: bool)
    requires Inv(cfg, s) && !s.stopped
    ensures Inv(cfg, Pump(cfg, s, now, canSend))
  {
    hide Lockstep, InOrder, OthersFresh, AllSound, Encode, SendOp;
    if s.inflight.None? && s.queue != [] {
      FrontTaken(s);
      SendKeeps(cfg, s.(queue := s.queue[1..], payloads := s.payloads[1..]), s.queue[0], now, canSend);
    } else if s.inflight.None? {
      assert Lockstep(s);
      EmptyQueue(s);
    }
  }

  lemma EmptyQueue(s: State)
    requires Lockstep(s) && s.queue == []
    ensures s.(queue := Drop(s.queue, 1), payloads := Drop(s.payloads, 1)) == s
  {
  }

  // ------------------------------------------------------------ acknowledges

  /** The payload does not hold what the operation's command asked for: not so many
      words, or no memory though more is wanted. */
  predicate Lacking(cfg: Config, op: Op, payload: Bytes) {
    match op
    case ReadReg(_) => |payload| < 4
    case ReadRegs(_, addrs, values) => |payload| / 4 != RegsPerCommand(cfg, Left(|addrs|, |values|))
    case ReadMem(_, bytes, want, _) => |payload| < 4 || (|payload| == 4 && |bytes| < want)
    case _ => false
  }

  /** An acknowledge completes its request or takes it further, and is refused just
      when its payload lacks what was asked for. */
  lemma AnsweredServes(cfg: Config, requests: seq<Request>, op: Op, payload: Bytes)
    requires Serves(requests, op)
    ensures match Answered(cfg, op, payload)
            case Done(value) => !op.Heartbeat? && Fits(requests[op.handle], value)
            case Refused => !op.Heartbeat?
            case More(next, send) =>
              !op.Heartbeat? && !next.Heartbeat? && next.handle == op.handle && Serves(requests, next)
              && send == SendOf(requests, next) && Progress(next) > Progress(op)
            case Alive(_) => op.Heartbeat?
    ensures Answered(cfg, op, payload).Refused? <==> Lacking(cfg, op, payload)
  {
    if op.ReadMem? && |payload| >= 4 {
      var addr := requests[op.handle].addr;
      var taken := Take(payload[4..], Left(op.want, |op.bytes|));
      AddsUp(addr, |op.bytes|, |taken|);
    }
  }

  lemma AddsUp(a: U32, m: nat, n: nat)
    ensures AddWrapping(AddWrapping(a, m), n) == AddWrapping(a, m + n)
  {
    var k := 0x1_0000_0000;
    var q := (a + m) / k;
    assert a + m + n == (a + m) % k + n + q * k;
    Modulo((a + m) % k + n, q, k);
  }

  lemma Modulo(x: nat, q: nat, k: Pos)
    ensures (x + q * k) % k == x % k
  {
    assert (x + q * k) / k == x / k + q by { DivisionUnique(x + q * k, k, x / k + q, x % k); }
  }

  lemma AckKeeps(cfg: Config, s: State, op: Op, ack: Ack, now: int, canSend: bool)
    requires Holding(s, Some(op)) && s.inflight.None? && !s.stopped
    ensures Inv(cfg, OnAck(cfg, s, op, ack, now, canSend))
  {
    hide Lockstep, InOrder, OthersFresh, Answered, AllSound;
    if op.Heartbeat? {
      HeartbeatDone(s);
      SameQueues(s, s.(controlLost := true), None);
      AnsweredServes(cfg, s.requests, op, ack.payload);
    } else {
      FailKeeps(s, op, Protocol);
      FailKeeps(s, op, Nak(ExpectedAck(op) - 1, ack.status));
      AnsweredServes(cfg, s.requests, op, ack.payload);
      match Answered(cfg, op, ack.payload)
      case Done(value) => ResolveKeeps(s, op, Ok(value));
      case More(next, send) =>
        NextHolds(s, op, next);
        ContinueKeeps(cfg, s, next, now, canSend);
      case _ =>
    }
  }

  /** The operation moves on; it is still the first in line. */
  lemma NextHolds(s: State, op: Op, next: Op)
    requires Holding(s, Some(op)) && !op.Heartbeat? && !next.Heartbeat? && next.handle == op.handle
    requires Serves(s.requests, next)
    ensures Holding(s, Some(next))
  {
  }

  lemma DatagramKeeps(cfg: Config, s: State, datagram: Option<Ack>, now: int, canSend: bool)
    requires Inv(cfg, s) && !s.stopped
    ensures Inv(cfg, OnDatagram(cfg, s, datagram, now, canSend))
  {
    hide Lockstep, InOrder, OthersFresh, AllSound, Encode, OnAck;
    if datagram.Some? && s.inflight.Some? && datagram.value.ackId == s.inflight.value.id {
      var inflight := s.inflight.value;
      if PendingMs(datagram.value).None? {
        var t := s.(inflight := None, acked := inflight.serial);
        SameQueues(s, t, Some(inflight.op));
        AckKeeps(cfg, t, inflight.op, datagram.value, now, canSend);
      } else {
        SameQueues(s, OnDatagram(cfg, s, datagram, now, canSend), Some(inflight.op));
      }
    }
  }

  // ---------------------------------------------------- deadlines and the rest

  lemma DeadlineKeeps(cfg: Config, s: State, now: int, canSend: bool)
    requires Inv(cfg, s) && !s.stopped
    ensures Inv(cfg, CheckDeadline(cfg, s, now, canSend))
  {
    hide Lockstep, InOrder, OthersFresh, AllSound, Encode;
    if s.inflight.Some? {
      var op := s.inflight.value.op;
      var t := s.(inflight := None);
      SameQueues(s, t, Some(op));
      FailKeeps(t, op, Timeout);
      SameQueues(t, t.(controlLost := true), None);
      var u := CheckDeadline(cfg, s, now, canSend);
      if u.inflight.Some? { SameQueues(s, u, Some(op)); }
    }
  }

  lemma HeartbeatKeeps(cfg: Config, s: State, now: int)
    requires Inv(cfg, s) && !s.stopped
    ensures Inv(cfg, CheckHeartbeat(cfg, s, now))
  {
    hide Encode, Holding;
    var t := CheckHeartbeat(cfg, s, now);
    assert Current(t) == Current(s) && t.requests == s.requests;
    if now >= s.heartbeatDue {
      if HeartbeatPending(s) { OnlyDue(s, t); } else { HeartbeatQueued(s, t); }
    }
  }

  lemma OnlyDue(s: State, t: State)
    requires Holding(s, Current(s)) && t == s.(heartbeatDue := t.heartbeatDue)
    ensures Holding(t, Current(s))
  {
    hide Lockstep, InOrder, AllSound, OthersFresh;
    SameQueues(s, t, Current(s));
  }

  lemma HeartbeatQueued(s: State, t: State)
    requires Holding(s, Current(s)) && !HeartbeatPending(s)
    requires t == s.(heartbeatDue := t.heartbeatDue, queue := [Heartbeat] + s.queue,
                     payloads := [ReadRegsOf([CONTROL_CHANNEL_PRIVILEGE])] + s.payloads)
    ensures Holding(t, Current(s))
  {
    hide HandlesOf, AllSound;
    assert AllSound(t) by { SameResolved(s, t); }
    assert t.queue[1..] == s.queue;
    HeartbeatNoHandle(s.queue);
    assert Lockstep(t) by {
      forall i | 0 <= i < |t.queue| ensures Serves(t.requests, t.queue[i]) && t.payloads[i] == SendOf(t.requests, t.queue[i]) {
        if i > 0 { assert t.queue[i] == s.queue[i - 1] && t.payloads[i] == s.payloads[i - 1]; }
      }
    }
  }

  lemma SameResolved(s: State, t: State)
    requires AllSound(s) && t.requests == s.requests && t.resolved == s.resolved
    ensures AllSound(t)
  {
  }

  lemma HeartbeatNoHandle(queue: seq<Op>)
    ensures HandlesOf([Heartbeat] + queue) == HandlesOf(queue)
  {
    assert ([Heartbeat] + queue)[1..] == queue;
  }

  lemma {:induction false} HandlesAppend(ops: seq<Op>, op: Op)
    requires !op.Heartbeat?
    ensures HandlesOf(ops + [op]) == HandlesOf(ops) + [op.handle]
  {
    if ops == [] {
      assert [] + [op] == [op] && [op][1..] == [];
    } else {
      HandlesAppend(ops[1..], op);
      assert (ops + [op])[1..] == ops[1..] + [op];
    }
  }

  lemma SubmitKeeps(cfg: Config, s: State, request: Request)
    requires Inv(cfg, s)
    ensures Inv(cfg, Submit(s, request))
  {
    hide Encode, Lockstep, InOrder, OthersFresh, Serves, AllSound;
    MoreRequests(s, request);
    assert Submit(s, request).inflight == s.inflight;
    if s.stopped {
      LateKeeps(s, request);
    } else {
      QueuedKeeps(s, request);
    }
  }

  /** A request after the end: resolved at once, and nothing else is pending. */
  lemma LateKeeps(s: State, request: Request)
    requires Holding(s, None) && s.stopped && s.queue == []
    ensures Holding(Submit(s, request), None)
  {
    MoreRequests(s, request);
  }

  lemma QueuedKeeps(s: State, request: Request)
    requires Holding(s, Current(s)) && !s.stopped
    ensures Holding(Submit(s, request), Current(s))
  {
    MoreRequests(s, request);
    hide InOrder, Serves;
    var t := Submit(s, request);
    assert Serves(t.requests, OpFor(request, |s.requests|)) by { NewServes(s.requests, request); }
    assert SendOf(t.requests, OpFor(request, |s.requests|)) == SendFor(request);
    QueuedInOrder(s, request);
  }

  lemma NewServes(requests: seq<Request>, request: Request)
    ensures Serves(requests + [request], OpFor(request, |requests|))
  {
  }

  lemma QueuedInOrder(s: State, request: Request)
    requires InOrder(s, Current(s)) && !s.stopped
    ensures InOrder(Submit(s, request), Current(s))
  {
    hide HandlesOf;
    var t := Submit(s, request);
    var op := OpFor(request, |s.requests|);
    HandlesAppend(s.queue, op);
    assert PendingHandles(t.queue, Current(s)) == PendingHandles(s.queue, Current(s)) + [op.handle];
  }

  lemma MoreRequests(s: State, request: Request)
    ensures forall op | Serves(s.requests, op) :: Serves(s.requests + [request], op)
                                                  && SendOf(s.requests + [request], op) == SendOf(s.requests, op)
    ensures forall r | Sound(s.requests, r) :: Sound(s.requests + [request], r)
  {
  }

  /** Failing the queue in order resolves every request left. */
  lemma {:induction false} FailAllKeeps(s: State, ops: seq<Op>, payloads: seq<PendingSend>, error: Error)
    requires Holding(s.(queue := ops, payloads := payloads), None) && !error.Mismatch?
    requires s.queue == [] && s.payloads == []
    ensures Holding(FailAll(s, ops, error), None)
    ensures FailAll(s, ops, error) == s.(resolved := FailAll(s, ops, error).resolved)
    decreases |ops|
  {
    var a := s.(queue := ops, payloads := payloads);
    if ops == [] {
      assert payloads == [] && a == s;
    } else {
      hide Holding;
      var b := s.(queue := ops[1..], payloads := payloads[1..]);
      FrontTaken(a);
      FailKeeps(b, ops[0], error);
      var t := Fail(s, ops[0], error);
      assert t.(queue := ops[1..], payloads := payloads[1..]) == Fail(b, ops[0], error);
      FailAllKeeps(t, ops[1..], payloads[1..], error);
    }
  }

  lemma ShutdownKeeps(cfg: Config, s: State, canSend: bool)
    requires Inv(cfg, s)
    ensures Inv(cfg, Shutdown(s, canSend))
  {
    hide Lockstep, InOrder, OthersFresh, AllSound, Encode;
    if !s.stopped {
      var a := if s.inflight.Some? then Fail(s.(inflight := None), s.inflight.value.op, EndError(s)) else s;
      if s.inflight.Some? {
        SameQueues(s, s.(inflight := None), Current(s));
        FailKeeps(s.(inflight := None), s.inflight.value.op, EndError(s));
      }
      var c := a.(queue := [], payloads := [], stopped := true);
      SameQueues(a, c.(queue := s.queue, payloads := s.payloads), None);
      FailAllKeeps(c, s.queue, s.payloads, EndError(s));
      var b := FailAll(c, s.queue, EndError(s));
      NextIdCounts(s.serial);
      SameQueues(b, Shutdown(s, canSend), None);
    }
  }

  lemma StepKeeps(cfg: Config, s: State, e: Timed)
    requires Inv(cfg, s)
    ensures Inv(cfg, Step(cfg, s, e))
  {
    hide Holding, Transacting, OnDatagram, CheckDeadline, CheckHeartbeat, Pump, Submit, Shutdown;
    match e.event
    case Submitted(request) => SubmitKeeps(cfg, s, request);
    case Stopped => ShutdownKeeps(cfg, s, e.canSend);
    case Received(d) => if !s.stopped { DatagramKeeps(cfg, s, d, e.now, e.canSend); }
    case Deadlines => if !s.stopped { DeadlineKeeps(cfg, s, e.now, e.canSend); }
    case Heartbeats => if !s.stopped { HeartbeatKeeps(cfg, s, e.now); }
    case Pumped => if !s.stopped { PumpKeeps(cfg, s, e.now, e.canSend); }
  }

  lemma {:induction false} EveryRun(cfg: Config, heartbeatDue: int, events: seq<Timed>)
    ensures Inv(cfg, Run(cfg, Initial(heartbeatDue), events))
    decreases |events|
  {
    hide Holding, Step;
    if events == [] {
      Begins(cfg, heartbeatDue);
    } else {
      EveryRun(cfg, heartbeatDue, events[..|events| - 1]);
      StepKeeps(cfg, Run(cfg, Initial(heartbeatDue), events[..|events| - 1]), events[|events| - 1]);
    }
  }

  lemma Begins(cfg: Config, heartbeatDue: int)
    ensures Inv(cfg, Initial(heartbeatDue))
  {
  }

  /** In every run the requests are resolved in the order of submission, each at
      most once and with a value of its kind; the pending ones follow in order;
      the two queues agree; and after the end every request is resolved. */
  lemma ResolvedInOrder(cfg: Config, heartbeatDue: int, events: seq<Timed>)
    ensures var s := Run(cfg, Initial(heartbeatDue), events);
            && |s.resolved| <= |s.requests| && (s.stopped ==> |s.resolved| == |s.requests|)
            && (forall i | 0 <= i < |s.resolved| :: s.resolved[i].handle == i && Sound(s.requests, s.resolved[i]))
            && Lockstep(s) && OneHeartbeat(s.queue, Current(s))
            && (forall i | 0 <= i < |PendingHandles(s.queue, Current(s))| ::
                  PendingHandles(s.queue, Current(s))[i] == |s.resolved| + i)
  {
    hide Lockstep, Run, Initial, OneHeartbeat;
    EveryRun(cfg, heartbeatDue, events);
    var s := Run(cfg, Initial(heartbeatDue), events);
    forall i | 0 <= i < |s.resolved| ensures Sound(s.requests, s.resolved[i]) { assert s.resolved[i] in s.resolved; }
  }
}
