/** Why requests fail and control is lost: every reason the worker gives is true of the
    step that gives it, and the device refuses just what it cannot carry out. */
module Failures {
  import opened Gvsp
  import opened Gvcp
  import opened Worker
  import opened WorkerRuns
  import opened Transactions
  import opened Device
  import opened SmoothRuns

  // ------------------------------------------------------------------- reasons

  /** The acknowledge of the transaction in flight has come. */
  predicate Acknowledged(s: State, e: Event) {
    && e.Received? && e.datagram.Some? && s.inflight.Some? && e.datagram.value.ackId == s.inflight.value.id
    && PendingMs(e.datagram.value).None?
  }

  /** The outcome is what happened. */
  predicate Reasonable(cfg: Config, s: State, e: Timed, outcome: Outcome) {
    match outcome
    case Ok(_) =>
      && Acknowledged(s, e.event)
      && var (ack, i) := (e.event.datagram.value, s.inflight.value);
      !IsError(ack.status) && ack.answer == Code(i.sent.command) + 1 && !Lacking(cfg, i.op, ack.payload)
    case Failed(Nak(command, status)) =>
      && Acknowledged(s, e.event)
      && status == e.event.datagram.value.status && IsError(status) && command == Code(s.inflight.value.sent.command)
    case Failed(Protocol) =>
      && Acknowledged(s, e.event)
      && var (ack, i) := (e.event.datagram.value, s.inflight.value);
      !IsError(ack.status) && (ack.answer != Code(i.sent.command) + 1 || Lacking(cfg, i.op, ack.payload))
    case Failed(Timeout) =>
      e.event.Deadlines? && s.inflight.Some? && e.now >= s.inflight.value.deadline && s.inflight.value.triesLeft == 0
    case Failed(Io) => (e.event.Pumped? || Acknowledged(s, e.event)) && (e.canSend ==> exists q | q in s.requests :: !Sendable(cfg, q))
    case Failed(Disconnected) => (e.event.Stopped? || (e.event.Submitted? && s.stopped)) && !s.controlLost
    case Failed(ControlLost) => (e.event.Stopped? || (e.event.Submitted? && s.stopped)) && s.controlLost
    case Failed(Mismatch) => false
  }

  /** All results new since there were `n` are reasonable. */
  ghost predicate AllReasonable(cfg: Config, s: State, e: Timed, t: State, n: nat) {
    forall k | n <= k < |t.resolved| :: Reasonable(cfg, s, e, t.resolved[k].outcome)
  }

  /** A send fails only where the socket does, or for a command that never fits. */
  lemma SendReasons(cfg: Config, u: State, op: Op, now: int, canSend: bool)
    requires Serves(u.requests, op) && u.inflight.None?
    ensures var t := SendOp(cfg, u, op, SendOf(u.requests, op), now, canSend);
            && |u.resolved| <= |t.resolved| && t.resolved[..|u.resolved|] == u.resolved
            && (forall k | |u.resolved| <= k < |t.resolved| ::
                  t.resolved[k].outcome == Failed(Io) && (canSend ==> exists q | q in u.requests :: !Sendable(cfg, q)))
  {
    hide Encode, Serves, SendOf, Sendable;
    EncodeServes(cfg, u.requests, op);
    if forall q | q in u.requests :: Sendable(cfg, q) { Fitting(cfg, u.requests, op); }
  }

  lemma AckReasons(cfg: Config, s: State, e: Timed)
    requires Inv(cfg, s) && !s.stopped && Acknowledged(s, e.event)
    ensures var t := Step(cfg, s, e); |s.resolved| <= |t.resolved| && AllReasonable(cfg, s, e, t, |s.resolved|)
  {
    hide Answered, SendOp, Lockstep, InOrder, AllSound, OthersFresh, Encode, Lacking, Sendable, SendOf;
    var i, ack := s.inflight.value, e.event.datagram.value;
    var u := s.(inflight := None, acked := i.serial);
    AnsweredServes(cfg, s.requests, i.op, ack.payload);
    RightAnswer(cfg, s.requests, i.op);
    var answer := Answered(cfg, i.op, ack.payload);
    if answer.More? { SendReasons(cfg, u, answer.op, e.now, e.canSend); }
  }

  lemma {:induction false} FailAllReasons(s: State, ops: seq<Op>, error: Error)
    ensures var t := FailAll(s, ops, error);
            && |s.resolved| <= |t.resolved| && t.resolved[..|s.resolved|] == s.resolved
            && (forall k | |s.resolved| <= k < |t.resolved| :: t.resolved[k].outcome == Failed(error))
    decreases |ops|
  {
    if ops != [] {
      var a := Fail(s, ops[0], error);
      FailAllReasons(a, ops[1..], error);
      var t := FailAll(s, ops, error);
      assert t.resolved[..|s.resolved|] == t.resolved[..|a.resolved|][..|s.resolved|];
      forall k | |s.resolved| <= k < |t.resolved| ensures t.resolved[k].outcome == Failed(error) {
        if k < |a.resolved| { assert t.resolved[k] == t.resolved[..|a.resolved|][k]; }
      }
    }
  }

  lemma StopReasons(cfg: Config, s: State, e: Timed)
    requires e.event.Stopped?
    ensures var t := Step(cfg, s, e); |s.resolved| <= |t.resolved| && AllReasonable(cfg, s, e, t, |s.resolved|)
  {
    if !s.stopped {
      var a := if s.inflight.Some? then Fail(s.(inflight := None), s.inflight.value.op, EndError(s)) else s;
      var c := a.(queue := [], payloads := [], stopped := true);
      FailAllReasons(c, s.queue, EndError(s));
      var t := Step(cfg, s, e);
      forall k | |s.resolved| <= k < |t.resolved| ensures t.resolved[k].outcome == Failed(EndError(s)) {
        if k < |a.resolved| { assert t.resolved[k] == t.resolved[..|a.resolved|][k]; }
      }
    }
  }

  lemma PumpReasons(cfg: Config, s: State, e: Timed)
    requires Inv(cfg, s) && e.event.Pumped?
    ensures var t := Step(cfg, s, e); |s.resolved| <= |t.resolved| && AllReasonable(cfg, s, e, t, |s.resolved|)
  {
    hide SendOp, InOrder, AllSound, OthersFresh, Encode, Sendable, SendOf, Serves;
    if !s.stopped && s.inflight.None? && s.queue != [] && s.payloads != [] {
      SendReasons(cfg, s.(queue := s.queue[1..], payloads := s.payloads[1..]), s.queue[0], e.now, e.canSend);
    }
  }

  /** In every run, each outcome given in a step is true of that step: a success is an
      acknowledge without error that holds what was asked for; a refusal, its status and
      the command refused; a protocol error, a wrong or short answer; a timeout, a last
      deadline passed; a socket error, a send that failed; the rest, the worker's end. */
  lemma OutcomesTell(cfg: Config, heartbeatDue: int, events: seq<Timed>, e: Timed)
    ensures var s := Run(cfg, Initial(heartbeatDue), events); var t := Step(cfg, s, e);
            |s.resolved| <= |t.resolved| && AllReasonable(cfg, s, e, t, |s.resolved|)
  {
    hide Run, Initial, Inv, OnDatagram, Pump, Shutdown, Reasonable;
    EveryRun(cfg, heartbeatDue, events);
    var s := Run(cfg, Initial(heartbeatDue), events);
    match e.event
    case Received(_) => if !s.stopped && Acknowledged(s, e.event) { AckReasons(cfg, s, e); } else { NothingResolved(cfg, s, e); }
    case Stopped => StopReasons(cfg, s, e);
    case Pumped => PumpReasons(cfg, s, e);
    case _ => PlainReasons(cfg, s, e);
  }

  lemma NothingResolved(cfg: Config, s: State, e: Timed)
    requires e.event.Received? && (s.stopped || !Acknowledged(s, e.event))
    ensures Step(cfg, s, e).resolved == s.resolved
  {
  }

  lemma PlainReasons(cfg: Config, s: State, e: Timed)
    requires e.event.Submitted? || e.event.Deadlines? || e.event.Heartbeats?
    ensures var t := Step(cfg, s, e); |s.resolved| <= |t.resolved| && AllReasonable(cfg, s, e, t, |s.resolved|)
  {
  }

  // -------------------------------------------------------------------- control

  /** Bit 1 of the control channel privilege, a big-endian word, says the device is
      still controlled. */
  predicate SaysControlled(payload: Bytes) { |payload| >= 4 && (payload[3] as nat) / 2 % 2 == 1 }

  lemma LowByte(rest: nat, b: nat)
    ensures (0x100 * rest + b) / 2 % 2 == b / 2 % 2
  {
    assert (0x100 * rest + b) / 2 == 2 * (0x40 * rest) + b / 2;
  }

  lemma WordLow(b: Bytes) returns (rest: nat)
    requires |b| == 4
    ensures Word(b) == 0x100 * rest + (b[3] as nat)
  {
    rest := 0x1_0000 * (b[0] as nat) + 0x100 * (b[1] as nat) + (b[2] as nat);
  }

  lemma ControlBit(payload: Bytes)
    ensures |payload| >= 4 && Controlled(Words(payload)[0]) <==> SaysControlled(payload)
  {
    hide Word;
    if |payload| >= 4 {
      var rest := WordLow(payload[..4]);
      LowByte(rest, payload[3] as nat);
    }
  }

  /** The heartbeat in flight fails: refused, answered by a device no longer controlled,
      or unanswered to the last try. */
  predicate HeartbeatFails(s: State, e: Timed) {
    && s.inflight.Some? && s.inflight.value.op.Heartbeat?
    && var i := s.inflight.value;
       || (Acknowledged(s, e.event) &&
           var ack := e.event.datagram.value;
           IsError(ack.status) || (ack.answer == 0x81 && !SaysControlled(ack.payload)))
       || (e.event.Deadlines? && e.now >= i.deadline && i.triesLeft == 0)
  }

  lemma SendControl(cfg: Config, u: State, op: Op, send: PendingSend, now: int, canSend: bool)
    requires u.inflight.None?
    ensures SendOp(cfg, u, op, send, now, canSend).controlLost == u.controlLost
  {
    hide Encode;
  }

  lemma {:induction false} FailAllControl(s: State, ops: seq<Op>, error: Error)
    ensures FailAll(s, ops, error).controlLost == s.controlLost
    decreases |ops|
  {
    if ops != [] { FailAllControl(Fail(s, ops[0], error), ops[1..], error); }
  }

  /** Control is lost exactly when the heartbeat fails, and stays lost. */
  lemma ControlLostExactly(cfg: Config, heartbeatDue: int, events: seq<Timed>, e: Timed)
    ensures var s := Run(cfg, Initial(heartbeatDue), events);
            Step(cfg, s, e).controlLost <==> s.controlLost || (!s.stopped && HeartbeatFails(s, e))
  {
    hide Run, Initial, Answered, SendOp, Lockstep, InOrder, AllSound, OthersFresh, Encode, Lacking, SendOf, FailAll;
    EveryRun(cfg, heartbeatDue, events);
    var s := Run(cfg, Initial(heartbeatDue), events);
    match e.event
    case Received(d) =>
      if !s.stopped && Acknowledged(s, e.event) {
        var i, ack := s.inflight.value, d.value;
        AnsweredServes(cfg, s.requests, i.op, ack.payload);
        var answer := Answered(cfg, i.op, ack.payload);
        if answer.More? { SendControl(cfg, s.(inflight := None, acked := i.serial), answer.op, answer.send, e.now, e.canSend); }
        if i.op.Heartbeat? { HeartbeatAnswered(cfg, ack.payload); }
      }
    case Stopped =>
      if !s.stopped {
        var a := if s.inflight.Some? then Fail(s.(inflight := None), s.inflight.value.op, EndError(s)) else s;
        FailAllControl(a.(queue := [], payloads := [], stopped := true), s.queue, EndError(s));
      }
    case Pumped =>
      if !s.stopped && s.inflight.None? && s.queue != [] && s.payloads != [] {
        SendControl(cfg, s.(queue := s.queue[1..], payloads := s.payloads[1..]), s.queue[0], s.payloads[0], e.now, e.canSend);
      }
    case _ =>
  }

  lemma HeartbeatAnswered(cfg: Config, payload: Bytes)
    ensures Answered(cfg, Heartbeat, payload) == Alive(SaysControlled(payload))
  {
    ControlBit(payload);
  }

  // ------------------------------------------------------------------- the end

  /** Stopping sends one last command unless control is lost: the privilege register
      is written to 0, which, where the device has that register, is then its value. */
  lemma StopReleases(cfg: Config, heartbeatDue: int, events: seq<Timed>, now: int, maxPacket: Option<nat>, mem: Bytes, short: Pos)
    requires !Run(cfg, Initial(heartbeatDue), events).stopped && Inside(mem, CONTROL_CHANNEL_PRIVILEGE, 4)
    ensures var s := Run(cfg, Initial(heartbeatDue), events);
            var t := Step(cfg, s, Timed(Event.Stopped, now, true));
            if s.controlLost then t.wire == s.wire
            else
              && |t.wire| == |s.wire| + 1 && t.wire[..|s.wire|] == s.wire
              && var last := t.wire[|s.wire|];
              && last.serial == s.serial + 1 && last.datagram.id == IdOf(s.serial + 1) && last.owner.None?
              && var effect := Execute(maxPacket, mem, last.datagram, short);
              !IsError(effect.ack.status) && WordAt(effect.mem, CONTROL_CHANNEL_PRIVILEGE) == 0
  {
    hide Run, Initial, Lockstep, InOrder, AllSound, OthersFresh, Transacting;
    EveryRun(cfg, heartbeatDue, events);
    var s := Run(cfg, Initial(heartbeatDue), events);
    NextIdCounts(s.serial);
    var a := if s.inflight.Some? then Fail(s.(inflight := None), s.inflight.value.op, EndError(s)) else s;
    FailAllWire(a.(queue := [], payloads := [], stopped := true), s.queue, EndError(s));
    Released(maxPacket, mem);
  }

  lemma Released(maxPacket: Option<nat>, mem: Bytes)
    requires Inside(mem, CONTROL_CHANNEL_PRIVILEGE, 4)
    ensures var w := WriteAll(maxPacket, mem, [(CONTROL_CHANNEL_PRIVILEGE, 0)]); w.complete && WordAt(w.mem, CONTROL_CHANNEL_PRIVILEGE) == 0
  {
    var pairs: seq<(U32, U32)> := [(CONTROL_CHANNEL_PRIVILEGE, 0)];
    var bytes := WordBytes(0);
    var next := Spliced(mem, CONTROL_CHANNEL_PRIVILEGE, bytes);
    assert WriteAll(maxPacket, mem, pairs) == WriteAll(maxPacket, next, pairs[1..]) == Writes(next, true);
    assert next[CONTROL_CHANNEL_PRIVILEGE..CONTROL_CHANNEL_PRIVILEGE + 4] == bytes;
  }

  // ---------------------------------------------------------- commands and answers

  /** A memory read asks for whole words, at most 512 bytes, reaching at least as far
      as the request has to go, or 512, and less than a word further. */
  lemma ReadsWholeWords(cfg: Config, requests: seq<Request>, op: Op)
    requires Serves(requests, op) && op.ReadMem?
    ensures var c, left := Encode(cfg, op, SendOf(requests, op)), op.want - |op.bytes|;
            && c.Some? && c.value.ReadMemory? && c.value.addr == AddWrapping(requests[op.handle].addr, |op.bytes|)
            && c.value.count % 4 == 0 && Min(left, 512) <= c.value.count <= 512 && c.value.count < left + 4
  {
  }

  /** The command lies inside a memory of that size, and a memory read is not over
      512 bytes. */
  predicate Allowed(size: nat, c: Command) {
    match c
    case ReadRegister(addrs) => forall i | 0 <= i < |addrs| :: addrs[i] + 4 <= size
    case WriteRegister(pairs) => forall i | 0 <= i < |pairs| :: pairs[i].0 + 4 <= size
    case ReadMemory(addr, count) => addr + count <= size && count <= 512
    case WriteMemory(addr, data) => addr + |data| <= size
  }

  lemma {:induction false} RegistersExactly(mem: Bytes, addrs: seq<U32>)
    ensures RegisterBytes(mem, addrs).Some? <==> Allowed(|mem|, ReadRegister(addrs))
    decreases |addrs|
  {
    if addrs != [] {
      RegistersExactly(mem, addrs[1..]);
      assert forall i | 1 <= i < |addrs| :: addrs[i] == addrs[1..][i - 1];
    }
  }

  lemma {:induction false} WritesExactly(maxPacket: Option<nat>, mem: Bytes, pairs: seq<(U32, U32)>)
    ensures WriteAll(maxPacket, mem, pairs).complete <==> Allowed(|mem|, WriteRegister(pairs))
    decreases |pairs|
  {
    hide Stored, WordBytes;
    if pairs != [] && Inside(mem, pairs[0].0, 4) {
      WritesExactly(maxPacket, Spliced(mem, pairs[0].0, WordBytes(Stored(maxPacket, pairs[0].0, pairs[0].1))), pairs[1..]);
      assert forall i | 1 <= i < |pairs| :: pairs[i] == pairs[1..][i - 1];
    }
  }

  /** The device refuses a command if and only if it reaches outside, or asks for too
      much at once; then nothing but registers written before the first outside has
      changed, and an acknowledge answers the command's own kind and id. */
  lemma RefusesExactly(maxPacket: Option<nat>, mem: Bytes, d: Datagram, short: Pos)
    ensures var effect := Execute(maxPacket, mem, d, short);
            && (IsError(effect.ack.status) <==> !Allowed(|mem|, d.command))
            && (IsError(effect.ack.status) && !d.command.WriteRegister? ==> effect.mem == mem)
            && effect.ack.answer == Code(d.command) + 1 && effect.ack.ackId == d.id && PendingMs(effect.ack).None?
  {
    hide RegisterBytes, WriteAll, Spliced, WordBytes;
    match d.command
    case ReadRegister(addrs) => RegistersExactly(mem, addrs);
    case WriteRegister(pairs) => WritesExactly(maxPacket, mem, pairs);
    case _ =>
  }

  lemma LowHalf(a: nat, b: nat, c: nat, d: nat)
    requires c < 0x100 && d < 0x100
    ensures (0x100_0000 * a + 0x1_0000 * b + 0x100 * c + d) % 0x1_0000 == 0x100 * c + d
  {
    assert 0x100_0000 * a + 0x1_0000 * b == 0x1_0000 * (0x100 * a + b);
  }

  lemma WordHalf(b: Bytes)
    requires |b| == 4
    ensures Word(b) % 0x1_0000 == 0x100 * (b[2] as nat) + (b[3] as nat)
  {
    LowHalf(b[0] as nat, b[1] as nat, b[2] as nat, b[3] as nat);
  }

  /** A PENDING_ACK carries its time in ms as the low half of a big-endian word. */
  lemma PendingTime(ack: Ack)
    requires ack.answer == PENDING_ACK && |ack.payload| >= 4
    ensures PendingMs(ack) == Some(Word(ack.payload[..4]) % 0x1_0000)
  {
    hide Word;
    WordHalf(ack.payload[..4]);
  }
}
