/** The GVCP control worker as a state machine: one transaction in flight, the
    queue of operations with what to send for each, chunked operations, the
    heartbeat, retries and shutdown. */
module Worker {
  import opened Gvsp
  import opened Gvcp

  /** Longest PENDING_ACKs may hold one transaction past its send, in ms. */
  const PENDING_ACK_BUDGET: nat := 120_000

  datatype Config = Config(timeout: nat, retries: nat, heartbeatPeriod: nat, concatenation: bool)

  datatype Request =
    | GetRegister(addr: U32)
    | GetRegisters(addrs: seq<U32>)
    | SetRegisters(pairs: seq<(U32, U32)>)
    | GetMemory(addr: U32, len: nat)
    | SetMemory(addr: U32, data: Bytes)

  datatype Error = Nak(command: nat, status: nat) | Protocol | Mismatch | Io | Timeout | Disconnected | ControlLost

  datatype Value = Register(value: U32) | Registers(values: seq<U32>) | Memory(bytes: Bytes) | Written

  datatype Outcome = Ok(value: Value) | Failed(error: Error)

  /** A request being carried out, or the heartbeat. Handles number the requests. */
  datatype Op =
    | ReadReg(handle: nat)
    | ReadRegs(handle: nat, addrs: seq<U32>, values: seq<U32>)
    | WriteRegs(handle: nat, pairs: seq<(U32, U32)>, done: nat)
    | ReadMem(handle: nat, bytes: Bytes, want: nat, nextAddr: U32)
    | WriteMem(handle: nat, data: Bytes, offset: nat, baseAddr: U32)
    | Heartbeat

  /** What to encode when an operation reaches the head of the queue. */
  datatype PendingSend = ReadRegsOf(addrs: seq<U32>) | ReadRegsChunk | WriteRegsChunk | ReadMemChunk | WriteMemChunk

  /** `serial` and `firstSent` only record: the transaction's number and its begin. */
  datatype Inflight = Inflight(
    sent: Datagram, id: nat, deadline: int, pendingLimit: int, triesLeft: nat, op: Op, serial: Pos, firstSent: int)

  /** A datagram put on the wire, with its transaction and the request it serves. */
  datatype Sent = Sent(serial: Pos, owner: Option<nat>, datagram: Datagram)

  datatype Resolution = Resolution(handle: nat, outcome: Outcome)

  /** `requests`, `serial`, `acked`, `wire` and `resolved` record the run: the
      requests accepted, the number of transactions begun and the last one ended
      by an acknowledge, the datagrams sent, and the handles fulfilled. */
  datatype State = State(
    queue: seq<Op>, payloads: seq<PendingSend>, inflight: Option<Inflight>, nextId: nat,
    heartbeatDue: int, controlLost: bool, stopped: bool,
    requests: seq<Request>, serial: nat, acked: nat, wire: seq<Sent>, resolved: seq<Resolution>)

  function Initial(heartbeatDue: int): State {
    State([], [], None, 0, heartbeatDue, false, false, [], 0, 0, [], [])
  }

  function Owner(op: Op): Option<nat> { if op.Heartbeat? then None else Some(op.handle) }

  function Resolve(s: State, handle: nat, outcome: Outcome): State {
    s.(resolved := s.resolved + [Resolution(handle, outcome)])
  }

  function Fail(s: State, op: Op, error: Error): State {
    if op.Heartbeat? then s else Resolve(s, op.handle, Failed(error))
  }

  function ExpectedAck(op: Op): nat {
    match op
    case ReadReg(_) => 0x81
    case ReadRegs(_, _, _) => 0x81
    case Heartbeat => 0x81
    case WriteRegs(_, _, _) => 0x83
    case ReadMem(_, _, _, _) => 0x85
    case WriteMem(_, _, _, _) => 0x87
  }

  function Drop<T>(s: seq<T>, n: nat): seq<T> { if n <= |s| then s[n..] else [] }
  function Take<T>(s: seq<T>, n: nat): seq<T> { if n <= |s| then s[..n] else s }

  function Left(want: nat, have: nat): nat { if have <= want then want - have else 0 }

  function RegsPerCommand(cfg: Config, remaining: nat): nat {
    if cfg.concatenation then remaining else Min(remaining, 1)
  }

  function ChunkLen(remaining: nat): nat { Min(remaining, DATA_SIZE_MAX) }

  function RoundUp(n: nat): nat { (n + 3) / 4 * 4 }

  function AddWrapping(a: U32, n: nat): U32 { (a + n) % 0x1_0000_0000 }

  // ---------------------------------------------------------------- sending

  /** The command for an operation; None when the two queues disagree. */
  function Encode(cfg: Config, op: Op, send: PendingSend): Option<Command> {
    match (op, send)
    case (_, ReadRegsOf(addrs)) => Some(ReadRegister(addrs))
    case (ReadRegs(_, addrs, values), ReadRegsChunk) =>
      var rest := Drop(addrs, |values|);
      Some(ReadRegister(Take(rest, RegsPerCommand(cfg, |rest|))))
    case (WriteRegs(_, pairs, done), WriteRegsChunk) =>
      var rest := Drop(pairs, done);
      Some(WriteRegister(Take(rest, RegsPerCommand(cfg, |rest|))))
    case (ReadMem(_, bytes, want, nextAddr), ReadMemChunk) =>
      Some(ReadMemory(nextAddr, ChunkLen(RoundUp(Left(want, |bytes|)))))
    case (WriteMem(_, data, offset, baseAddr), WriteMemChunk) =>
      var rest := Drop(data, offset);
      Some(WriteMemory(AddWrapping(baseAddr, offset), Take(rest, ChunkLen(|rest|))))
    case _ => None
  }

  /** Begins a transaction. `canSend` is whether the socket takes a datagram. */
  function SendOp(cfg: Config, s: State, op: Op, send: PendingSend, now: int, canSend: bool): State
    requires s.inflight.None?
  {
    var t := s.(nextId := NextId(s.nextId), serial := s.serial + 1);
    match Encode(cfg, op, send)
    case None => Fail(t, op, Mismatch)
    case Some(command) =>
      if !canSend || Size(command) > MAX_DATAGRAM then Fail(t, op, Io)
      else
        var datagram := Datagram(t.nextId, command);
        t.(wire := t.wire + [Sent(t.serial, Owner(op), datagram)],
           inflight := Some(Inflight(datagram, t.nextId, now + cfg.timeout, now + PENDING_ACK_BUDGET, cfg.retries, op, t.serial, now)))
  }

  function InsertSecond<T>(s: seq<T>, x: T): seq<T>
    requires s != []
  {
    [s[0], x] + s[1..]
  }

  /** Sends the next chunk, after a heartbeat that is waiting. */
  function ContinueOp(cfg: Config, s: State, op: Op, send: PendingSend, now: int, canSend: bool): State
    requires s.inflight.None?
  {
    if s.queue != [] && s.queue[0].Heartbeat? && s.payloads != [] then
      s.(queue := InsertSecond(s.queue, op), payloads := InsertSecond(s.payloads, send))
    else SendOp(cfg, s, op, send, now, canSend)
  }

  /** Starts the next queued operation if nothing is in flight. */
  function Pump(cfg: Config, s: State, now: int, canSend: bool): State {
    if s.inflight.Some? then s
    else if s.queue == [] || s.payloads == [] then s.(queue := Drop(s.queue, 1), payloads := Drop(s.payloads, 1))
    else SendOp(cfg, s.(queue := s.queue[1..], payloads := s.payloads[1..]), s.queue[0], s.payloads[0], now, canSend)
  }

  // ------------------------------------------------------------ acknowledges

  /** What an acknowledge that reports success means for its operation. */
  datatype Answer = Done(value: Value) | Refused | More(op: Op, send: PendingSend) | Alive(controlled: bool)

  predicate Controlled(ccp: U32) { ccp / 2 % 2 == 1 }

  function Answered(cfg: Config, op: Op, payload: Bytes): Answer {
    match op
    case ReadReg(_) => if |payload| < 4 then Refused else Done(Register(Words(payload)[0]))
    case ReadRegs(handle, addrs, values) =>
      var want := RegsPerCommand(cfg, |Drop(addrs, |values|)|);
      var all := values + Words(payload);
      if |Words(payload)| != want then Refused
      else if |all| == |addrs| then Done(Registers(all))
      else More(ReadRegs(handle, addrs, all), ReadRegsChunk)
    case WriteRegs(handle, pairs, done) =>
      var d := done + RegsPerCommand(cfg, |Drop(pairs, done)|);
      if d >= |pairs| then Done(Written) else More(WriteRegs(handle, pairs, d), WriteRegsChunk)
    case ReadMem(handle, bytes, want, nextAddr) =>
      if |payload| < 4 then Refused
      else
        var data := payload[4..];
        var taken := Take(data, Left(want, |bytes|));
        var all := bytes + taken;
        if |all| >= want then Done(Memory(all))
        else if data == [] then Refused
        else More(ReadMem(handle, all, want, AddWrapping(nextAddr, |taken|)), ReadMemChunk)
    case WriteMem(handle, data, offset, baseAddr) =>
      var o := offset + ChunkLen(|Drop(data, offset)|);
      if o >= |data| then Done(Written) else More(WriteMem(handle, data, o, baseAddr), WriteMemChunk)
    case Heartbeat => Alive(|payload| >= 4 && Controlled(Words(payload)[0]))
  }

  /** The acknowledge of the transaction that was in flight. */
  function OnAck(cfg: Config, s: State, op: Op, ack: Ack, now: int, canSend: bool): State
    requires s.inflight.None?
  {
    if IsError(ack.status) then
      (if op.Heartbeat? then s.(controlLost := true) else Fail(s, op, Nak(ExpectedAck(op) - 1, ack.status)))
    else if ack.answer != ExpectedAck(op) then Fail(s, op, Protocol)
    else
      match Answered(cfg, op, ack.payload)
      case Done(value) => if op.Heartbeat? then s else Resolve(s, op.handle, Ok(value))
      case Refused => Fail(s, op, Protocol)
      case More(next, send) => ContinueOp(cfg, s, next, send, now, canSend)
      case Alive(controlled) => if controlled then s else s.(controlLost := true)
  }

  /** A received acknowledge; None when the datagram does not decode to one. */
  function OnDatagram(cfg: Config, s: State, datagram: Option<Ack>, now: int, canSend: bool): State {
    if datagram.None? || s.inflight.None? || datagram.value.ackId != s.inflight.value.id then s
    else
      var (ack, inflight) := (datagram.value, s.inflight.value);
      match PendingMs(ack)
      case Some(ms) =>
        s.(inflight := Some(inflight.(deadline := Min(now + ms, Max(inflight.pendingLimit, inflight.deadline)))))
      case None =>
        OnAck(cfg, s.(inflight := None, acked := inflight.serial), inflight.op, ack, now, canSend)
  }

  // ---------------------------------------------------------------- deadlines

  function CheckDeadline(cfg: Config, s: State, now: int, canSend: bool): State {
    if s.inflight.None? || now < s.inflight.value.deadline then s
    else
      var inflight := s.inflight.value;
      if inflight.triesLeft > 0 then
        s.(inflight := Some(inflight.(triesLeft := inflight.triesLeft - 1, deadline := now + cfg.timeout)),
           wire := if canSend then s.wire + [Sent(inflight.serial, Owner(inflight.op), inflight.sent)] else s.wire)
      else
        var t := s.(inflight := None);
        if inflight.op.Heartbeat? then t.(controlLost := true) else Fail(t, inflight.op, Timeout)
  }

  predicate HeartbeatPending(s: State) {
    (s.inflight.Some? && s.inflight.value.op.Heartbeat?) || Heartbeat in s.queue
  }

  function CheckHeartbeat(cfg: Config, s: State, now: int): State {
    if now < s.heartbeatDue then s
    else
      var t := s.(heartbeatDue := now + cfg.heartbeatPeriod);
      if HeartbeatPending(s) then t
      else t.(queue := [Heartbeat] + s.queue, payloads := [ReadRegsOf([CONTROL_CHANNEL_PRIVILEGE])] + s.payloads)
  }

  // ----------------------------------------------------- requests and the end

  function OpFor(request: Request, handle: nat): Op {
    match request
    case GetRegister(_) => ReadReg(handle)
    case GetRegisters(addrs) => ReadRegs(handle, addrs, [])
    case SetRegisters(pairs) => WriteRegs(handle, pairs, 0)
    case GetMemory(addr, len) => ReadMem(handle, [], len, addr)
    case SetMemory(addr, data) => WriteMem(handle, data, 0, addr)
  }

  function SendFor(request: Request): PendingSend {
    match request
    case GetRegister(addr) => ReadRegsOf([addr])
    case GetRegisters(_) => ReadRegsChunk
    case SetRegisters(_) => WriteRegsChunk
    case GetMemory(_, _) => ReadMemChunk
    case SetMemory(_, _) => WriteMemChunk
  }

  function EndError(s: State): Error { if s.controlLost then ControlLost else Disconnected }

  /** A request arrives; after the end it is failed at once. */
  function Submit(s: State, request: Request): State {
    var handle := |s.requests|;
    var t := s.(requests := s.requests + [request]);
    if s.stopped then Resolve(t, handle, Failed(EndError(s)))
    else t.(queue := s.queue + [OpFor(request, handle)], payloads := s.payloads + [SendFor(request)])
  }

  /** Fails the operations in order. */
  function FailAll(s: State, ops: seq<Op>, error: Error): State
    decreases |ops|
  {
    if ops == [] then s else FailAll(Fail(s, ops[0], error), ops[1..], error)
  }

  function Shutdown(s: State, canSend: bool): State {
    if s.stopped then s
    else
      var a := if s.inflight.Some? then Fail(s.(inflight := None), s.inflight.value.op, EndError(s)) else s;
      var b := FailAll(a.(queue := [], payloads := [], stopped := true), s.queue, EndError(s));
      if s.controlLost then b
      else
        var release := Datagram(NextId(s.nextId), WriteRegister([(CONTROL_CHANNEL_PRIVILEGE, 0)]));
        b.(nextId := release.id, serial := s.serial + 1,
           wire := if canSend then s.wire + [Sent(s.serial + 1, None, release)] else s.wire)
  }

  // --------------------------------------------------------------------- runs

  datatype Event =
    | Received(datagram: Option<Ack>) | Submitted(request: Request) | Deadlines | Heartbeats | Pumped | Stopped

  /** An event, when it happens, and whether the socket takes a datagram then. */
  datatype Timed = Timed(event: Event, now: int, canSend: bool)

  function Step(cfg: Config, s: State, e: Timed): State {
    match e.event
    case Submitted(request) => Submit(s, request)
    case Stopped => Shutdown(s, e.canSend)
    case Received(d) => if s.stopped then s else OnDatagram(cfg, s, d, e.now, e.canSend)
    case Deadlines => if s.stopped then s else CheckDeadline(cfg, s, e.now, e.canSend)
    case Heartbeats => if s.stopped then s else CheckHeartbeat(cfg, s, e.now)
    case Pumped => if s.stopped then s else Pump(cfg, s, e.now, e.canSend)
  }

  function Run(cfg: Config, s: State, events: seq<Timed>): State
    decreases |events|
  {
    if events == [] then s else Step(cfg, Run(cfg, s, events[..|events| - 1]), events[|events| - 1])
  }
}
