/** The control worker in place: fields updated method by method, each method
    doing exactly one step of the state machine. */
module ControlRunner {
  import opened Gvsp
  import opened Gvcp
  import opened Worker
  import opened WorkerRuns

  /** What arrives from the submitting threads. */
  datatype Message = Ask(request: Request) | Quit

  /** The requests up to the first Quit are submitted. */
  function Drained(s: State, messages: seq<Message>): State
    decreases |messages|
  {
    if messages == [] || messages[0].Quit? then s else Drained(Submit(s, messages[0].request), messages[1..])
  }

  predicate Quits(messages: seq<Message>) { Quit in messages }

  class Runner {
    const cfg: Config

    var queue: seq<Op>
    var payloads: seq<PendingSend>
    var inflight: Option<Inflight>
    var nextId: nat
    var heartbeatDue: int
    var controlLost: bool
    var stopped: bool
    // what has gone out, and the numbering of requests and transactions
    var requests: seq<Request>
    var serial: nat
    var acked: nat
    var wire: seq<Sent>
    var resolved: seq<Resolution>

    function Model(): State
      reads this
    {
      State(queue, payloads, inflight, nextId, heartbeatDue, controlLost, stopped, requests, serial, acked, wire, resolved)
    }

    constructor (cfg: Config, heartbeatDue: int)
      ensures this.cfg == cfg && Model() == Initial(heartbeatDue) && Inv(cfg, Model())
    {
      this.cfg := cfg;
      queue, payloads, inflight, nextId := [], [], None, 0;
      this.heartbeatDue, controlLost, stopped := heartbeatDue, false, false;
      requests, serial, acked, wire, resolved := [], 0, 0, [], [];
      new;
      Begins(cfg, heartbeatDue);
    }

    method Fulfil(handle: nat, outcome: Outcome)
      modifies this
      ensures Model() == Resolve(old(Model()), handle, outcome)
    {
      resolved := resolved + [Resolution(handle, outcome)];
    }

    method FailOp(op: Op, error: Error)
      modifies this
      ensures Model() == Fail(old(Model()), op, error)
    {
      match op
      case Heartbeat =>
      case _ => Fulfil(op.handle, Failed(error));
    }

    method RegsPer(remaining: nat) returns (n: nat)
      ensures n == RegsPerCommand(cfg, remaining) && n <= remaining && (remaining > 0 ==> n > 0)
    {
      if cfg.concatenation { n := remaining; } else { n := if remaining < 1 then remaining else 1; }
    }

    /** The command an operation sends next; None when the queues disagree. */
    method Command(op: Op, send: PendingSend) returns (command: Option<Command>)
      requires Serves(requests, op)
      ensures command == Encode(cfg, op, send)
    {
      match (op, send)
      case (_, ReadRegsOf(addrs)) => command := Some(ReadRegister(addrs));
      case (ReadRegs(_, addrs, values), ReadRegsChunk) =>
        var take := RegsPer(|addrs| - |values|);
        assert addrs[|values|..][..take] == addrs[|values|..|values| + take];
        command := Some(ReadRegister(addrs[|values|..|values| + take]));
      case (WriteRegs(_, pairs, done), WriteRegsChunk) =>
        var take := RegsPer(|pairs| - done);
        assert pairs[done..][..take] == pairs[done..done + take];
        command := Some(WriteRegister(pairs[done..done + take]));
      case (ReadMem(_, bytes, want, nextAddr), ReadMemChunk) =>
        command := Some(ReadMemory(nextAddr, ChunkLen(RoundUp(want - |bytes|))));
      case (WriteMem(_, data, offset, baseAddr), WriteMemChunk) =>
        var take := ChunkLen(|data| - offset);
        assert data[offset..][..take] == data[offset..offset + take];
        command := Some(WriteMemory(AddWrapping(baseAddr, offset), data[offset..offset + take]));
      case _ => command := None;
    }

    method Send(op: Op, send: PendingSend, now: int, canSend: bool)
      requires inflight.None? && Serves(requests, op)
      modifies this
      ensures Model() == SendOp(cfg, old(Model()), op, send, now, canSend)
    {
      nextId := NextId(nextId);
      serial := serial + 1;
      var command := Command(op, send);
      if command.None? {
        FailOp(op, Mismatch);
        return;
      }
      if !canSend || Size(command.value) > MAX_DATAGRAM {
        FailOp(op, Io);
        return;
      }
      var datagram := Datagram(nextId, command.value);
      wire := wire + [Sent(serial, Owner(op), datagram)];
      inflight := Some(Inflight(datagram, nextId, now + cfg.timeout, now + PENDING_ACK_BUDGET, cfg.retries, op, serial, now));
    }

    method Continue(op: Op, send: PendingSend, now: int, canSend: bool)
      requires inflight.None? && Serves(requests, op) && |queue| == |payloads|
      modifies this
      ensures Model() == ContinueOp(cfg, old(Model()), op, send, now, canSend)
    {
      if queue != [] && queue[0].Heartbeat? {
        queue := queue[..1] + [op] + queue[1..];
        payloads := payloads[..1] + [send] + payloads[1..];
        assert queue == InsertSecond(old(queue), op) && payloads == InsertSecond(old(payloads), send);
      } else {
        Send(op, send, now, canSend);
      }
    }

    method Pump(now: int, canSend: bool)
      requires Inv(cfg, Model()) && !stopped
      modifies this
      ensures Model() == Worker.Pump(cfg, old(Model()), now, canSend) && Inv(cfg, Model())
    {
      PumpKeeps(cfg, Model(), now, canSend);
      if inflight.Some? || queue == [] {
        return;
      }
      var op, send := queue[0], payloads[0];
      queue, payloads := queue[1..], payloads[1..];
      Send(op, send, now, canSend);
    }

    /** What a successful acknowledge means: done, refused, or the next chunk. */
    method Digest(op: Op, payload: Bytes) returns (answer: Answer)
      requires Serves(requests, op)
      ensures answer == Answered(cfg, op, payload)
    {
      match op
      case ReadReg(handle) =>
        var values := Words(payload);
        answer := if values != [] then Done(Register(values[0])) else Refused;
      case ReadRegs(handle, addrs, values) =>
        var want := RegsPer(|addrs| - |values|);
        var all := values + Words(payload);
        if |all| - |values| != want {
          answer := Refused;
        } else if |all| == |addrs| {
          answer := Done(Registers(all));
        } else {
          answer := More(ReadRegs(handle, addrs, all), ReadRegsChunk);
        }
      case WriteRegs(handle, pairs, done) =>
        var n := RegsPer(|pairs| - done);
        answer := if done + n >= |pairs| then Done(Written) else More(WriteRegs(handle, pairs, done + n), WriteRegsChunk);
      case ReadMem(handle, bytes, want, nextAddr) =>
        if |payload| < 4 {
          return Refused;
        }
        var data := payload[4..];
        var take := Min(|data|, want - |bytes|);
        var all := bytes + data[..take];
        assert data[..take] == Take(data, Left(want, |bytes|));
        if |all| >= want {
          answer := Done(Memory(all));
        } else if data == [] {
          answer := Refused;
        } else {
          answer := More(ReadMem(handle, all, want, AddWrapping(nextAddr, take)), ReadMemChunk);
        }
      case WriteMem(handle, data, offset, baseAddr) =>
        var next := offset + ChunkLen(|data| - offset);
        answer := if next >= |data| then Done(Written) else More(WriteMem(handle, data, next, baseAddr), WriteMemChunk);
      case Heartbeat =>
        var values := Words(payload);
        answer := Alive(values != [] && Controlled(values[0]));
    }

    method Accept(op: Op, ack: Ack, now: int, canSend: bool)
      requires Holding(Model(), Some(op)) && inflight.None? && !stopped
      modifies this
      ensures Model() == OnAck(cfg, old(Model()), op, ack, now, canSend) && Inv(cfg, Model())
    {
      assert Serves(requests, op) && |queue| == |payloads|;
      hide Inv, Holding, SendOf, Encode, ContinueOp, Answered, Serves;
      AckKeeps(cfg, Model(), op, ack, now, canSend);
      AnsweredServes(cfg, requests, op, ack.payload);
      if IsError(ack.status) {
        if op.Heartbeat? { controlLost := true; } else { FailOp(op, Nak(ExpectedAck(op) - 1, ack.status)); }
        return;
      }
      if ack.answer != ExpectedAck(op) {
        FailOp(op, Protocol);
        return;
      }
      var answer := Digest(op, ack.payload);
      match answer
      case Done(value) => Fulfil(op.handle, Ok(value));
      case Refused => FailOp(op, Protocol);
      case More(next, send) => Continue(next, send, now, canSend);
      case Alive(controlled) => if !controlled { controlLost := true; }
    }

    method Receive(datagram: Option<Ack>, now: int, canSend: bool)
      requires Inv(cfg, Model()) && !stopped
      modifies this
      ensures Model() == OnDatagram(cfg, old(Model()), datagram, now, canSend) && Inv(cfg, Model())
    {
      DatagramKeeps(cfg, Model(), datagram, now, canSend);
      if datagram.None? || inflight.None? || datagram.value.ackId != inflight.value.id {
        return;
      }
      var ack, i := datagram.value, inflight.value;
      match PendingMs(ack)
      case Some(ms) =>
        inflight := Some(i.(deadline := Min(now + ms, Max(i.pendingLimit, i.deadline))));
      case None =>
        ghost var before := Model();
        inflight, acked := None, i.serial;
        SameQueues(before, Model(), Some(i.op));
        Accept(i.op, ack, now, canSend);
    }

    method CheckDeadlines(now: int, canSend: bool)
      requires Inv(cfg, Model()) && !stopped
      modifies this
      ensures Model() == CheckDeadline(cfg, old(Model()), now, canSend) && Inv(cfg, Model())
    {
      hide Inv;
      DeadlineKeeps(cfg, Model(), now, canSend);
      if inflight.None? || now < inflight.value.deadline {
        return;
      }
      var i := inflight.value;
      if i.triesLeft > 0 {
        inflight := Some(i.(triesLeft := i.triesLeft - 1, deadline := now + cfg.timeout));
        if canSend { wire := wire + [Sent(i.serial, Owner(i.op), i.sent)]; }
        return;
      }
      inflight := None;
      if i.op.Heartbeat? { controlLost := true; } else { FailOp(i.op, Timeout); }
    }

    method CheckHeartbeats(now: int)
      requires Inv(cfg, Model()) && !stopped
      modifies this
      ensures Model() == CheckHeartbeat(cfg, old(Model()), now) && Inv(cfg, Model())
    {
      hide Inv;
      HeartbeatKeeps(cfg, Model(), now);
      if now < heartbeatDue {
        return;
      }
      var pending := inflight.Some? && inflight.value.op.Heartbeat?;
      for k := 0 to |queue|
        invariant pending <==> (inflight.Some? && inflight.value.op.Heartbeat?) || Heartbeat in queue[..k]
      {
        if queue[k].Heartbeat? { pending := true; }
        assert queue[..k + 1] == queue[..k] + [queue[k]];
      }
      assert queue[..|queue|] == queue;
      heartbeatDue := now + cfg.heartbeatPeriod;
      if !pending {
        queue := [Heartbeat] + queue;
        payloads := [ReadRegsOf([CONTROL_CHANNEL_PRIVILEGE])] + payloads;
      }
    }

    method Enqueue(request: Request)
      requires Inv(cfg, Model()) && !stopped
      modifies this
      ensures Model() == Submit(old(Model()), request) && Inv(cfg, Model())
    {
      SubmitKeeps(cfg, Model(), request);
      var handle := |requests|;
      requests := requests + [request];
      queue := queue + [OpFor(request, handle)];
      payloads := payloads + [SendFor(request)];
    }

    /** Takes the messages waiting, up to one that asks to quit. */
    method DrainCommands(messages: seq<Message>) returns (quit: bool)
      requires Inv(cfg, Model()) && !stopped
      modifies this
      ensures Model() == Drained(old(Model()), messages) && Inv(cfg, Model()) && !stopped
      ensures quit <==> Quits(messages)
    {
      var rest := messages;
      while rest != []
        invariant Inv(cfg, Model()) && !stopped
        invariant Drained(Model(), rest) == Drained(old(Model()), messages)
        invariant Quits(messages) <==> Quits(rest)
        decreases |rest|
      {
        if rest[0].Quit? {
          return true;
        }
        Enqueue(rest[0].request);
        rest := rest[1..];
      }
      return false;
    }

    /** Fails the operations in order. */
    method FailEach(ops: seq<Op>, error: Error)
      modifies this
      ensures Model() == FailAll(old(Model()), ops, error)
    {
      var rest := ops;
      while rest != []
        invariant FailAll(Model(), rest, error) == FailAll(old(Model()), ops, error)
        decreases |rest|
      {
        FailOp(rest[0], error);
        rest := rest[1..];
      }
    }

    /** Fails everything in order and gives control back. */
    method Stop(canSend: bool)
      requires Inv(cfg, Model()) && !stopped
      modifies this
      ensures Model() == Shutdown(old(Model()), canSend) && Inv(cfg, Model())
    {
      hide Inv, FailAll, NextId;
      ShutdownKeeps(cfg, Model(), canSend);
      ghost var s := Model();
      var error := if controlLost then ControlLost else Disconnected;
      if inflight.Some? {
        var op := inflight.value.op;
        inflight := None;
        FailOp(op, error);
      }
      var ops := queue;
      queue, payloads, stopped := [], [], true;
      FailAllFrame(Model(), ops, error);
      FailEach(ops, error);
      if !controlLost {
        nextId := NextId(nextId);
        serial := serial + 1;
        if canSend { wire := wire + [Sent(serial, None, Datagram(nextId, WriteRegister([(CONTROL_CHANNEL_PRIVILEGE, 0)])))]; }
      }
    }
  }

  lemma {:induction false} FailAllFrame(s: State, ops: seq<Op>, error: Error)
    ensures FailAll(s, ops, error) == s.(resolved := FailAll(s, ops, error).resolved)
    decreases |ops|
  {
    if ops != [] { FailAllFrame(Fail(s, ops[0], error), ops[1..], error); }
  }
}
