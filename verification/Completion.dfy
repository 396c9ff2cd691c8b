/** On links that lose nothing every request comes to its end, and the requests come
    out as if each were one step, in the order they were made. */
module Completion {
  import opened Gvsp
  import opened Gvcp
  import opened Worker
  import opened WorkerRuns
  import opened Transactions
  import opened Device
  import opened Chunks
  import opened Link
  import opened LinkRuns
  import opened SmoothRuns

  // ------------------------------------------------------- what is not refused

  /** The request, its last read rounded up to whole words wherever it begins, lies
      inside a memory of that size. */
  predicate Covers(size: nat, request: Request) {
    match request
    case GetRegister(addr) => addr + 4 <= size
    case GetRegisters(addrs) => forall i | 0 <= i < |addrs| :: addrs[i] + 4 <= size
    case SetRegisters(pairs) => forall i | 0 <= i < |pairs| :: pairs[i].0 + 4 <= size
    case GetMemory(addr, len) => addr + (if len == 0 then 0 else len + 3) <= size
    case SetMemory(addr, data) => addr + |data| <= size
  }

  lemma {:induction false} RegistersInside(mem: Bytes, addrs: seq<U32>)
    requires forall i | 0 <= i < |addrs| :: addrs[i] + 4 <= |mem|
    ensures RegisterBytes(mem, addrs).Some?
    decreases |addrs|
  {
    if addrs != [] { RegistersInside(mem, addrs[1..]); }
  }

  lemma {:induction false} WritesInside(maxPacket: Option<nat>, mem: Bytes, pairs: seq<(U32, U32)>)
    requires forall i | 0 <= i < |pairs| :: pairs[i].0 + 4 <= |mem|
    ensures WriteAll(maxPacket, mem, pairs).complete
    decreases |pairs|
  {
    hide Stored, WordBytes;
    if pairs != [] {
      WritesInside(maxPacket, Spliced(mem, pairs[0].0, WordBytes(Stored(maxPacket, pairs[0].0, pairs[0].1))), pairs[1..]);
    }
  }

  /** No command of a covered request is refused, however the reads are cut short. */
  lemma NotRefused(cfg: Config, maxPacket: Option<nat>, mem: Bytes, requests: seq<Request>, op: Op, d: Datagram, short: Pos)
    requires Serves(requests, op) && !op.Heartbeat? && |mem| < ADDRESS_SPACE && Covers(|mem|, requests[op.handle])
    requires Encode(cfg, op, SendOf(requests, op)) == Some(d.command)
    ensures !IsError(Execute(maxPacket, mem, d, short).ack.status)
  {
    hide RegisterBytes, WriteAll, Spliced, WordBytes, AddWrapping;
    match op
    case ReadReg(h) => RegistersInside(mem, d.command.addrs);
    case ReadRegs(h, addrs, values) => RegistersInside(mem, d.command.addrs);
    case WriteRegs(h, pairs, done) => WritesInside(maxPacket, mem, d.command.pairs);
    case ReadMem(h, bytes, want, nextAddr) => NoWrap(requests[h].addr, |bytes|);
    case WriteMem(h, data, offset, baseAddr) => NoWrap(baseAddr, offset);
  }

  // ---------------------------------------------------------------- one by one

  datatype Sequence = Sequence(mem: Bytes, values: seq<Value>)

  /** The requests performed one after the other, each in one step. */
  function Sequenced(maxPacket: Option<nat>, mem: Bytes, requests: seq<Request>): Option<Sequence> {
    if requests == [] then Some(Sequence(mem, []))
    else
      match Sequenced(maxPacket, mem, requests[..|requests| - 1])
      case None => None
      case Some(q) =>
        match Perform(maxPacket, q.mem, requests[|requests| - 1])
        case None => None
        case Some(r) => Some(Sequence(r.mem, q.values + [r.value]))
  }

  /** No covered request has been refused anything. */
  ghost predicate Unrefused(w: State, p: Peer) {
    forall i | 0 <= i < |p.replies| && i < |w.wire| && w.wire[i].owner.Some? && w.wire[i].owner.value < |w.requests| ::
      Covers(|p.mem|, w.requests[w.wire[i].owner.value]) ==> !IsError(p.replies[i].ack.status)
  }

  /** The requests resolved so far are done, one after the other; the device holds
      what they left, or began the next one on it. */
  ghost predicate InStep(maxPacket: Option<nat>, mem: Bytes, w: State, p: Peer) {
    var r := |w.resolved|;
    && p.maxPacket == maxPacket && |p.mem| == |mem|
    && ((forall q | q in w.requests :: Covers(|mem|, q)) ==>
          && r <= |w.requests|
          && var q := Sequenced(maxPacket, mem, w.requests[..r]);
          && q.Some? && |q.value.values| == r && (forall k | 0 <= k < r :: w.resolved[k].outcome == Ok(q.value.values[k]))
          && q.value.mem == if p.client == Some(r) then p.base else p.mem)
  }

  ghost predicate Served(cfg: Config, maxPacket: Option<nat>, mem: Bytes, s: System, commands: nat, acks: nat) {
    Steady(cfg, s, commands, acks) && Unrefused(s.worker, s.peer) && InStep(maxPacket, mem, s.worker, s.peer)
  }

  lemma WorksServed(cfg: Config, maxPacket: Option<nat>, mem: Bytes, s: System, commands: nat, acks: nat, e: Timed)
    requires Served(cfg, maxPacket, mem, s, commands, acks) && Smoothly(cfg, s, commands, acks, Works(e))
    ensures Served(cfg, maxPacket, mem, Next(cfg, s, Works(e)), commands, acks)
  {
    hide Smoothly, Steady, Step, Covers, Sequenced;
    WorksSteady(cfg, s, commands, acks, e);
    var w, v := s.worker, Next(cfg, s, Works(e)).worker;
    SteadyFacts(cfg, s, commands, acks);
    var r := |w.resolved|;
    assert Next(cfg, s, Works(e)).peer == s.peer;
    if forall q | q in v.requests :: Covers(|mem|, q) {
      forall q | q in w.requests ensures Covers(|mem|, q) { assert q in v.requests; }
      assert v.requests[..r] == w.requests[..r];
    }
    WiderUnrefused(w, v, s.peer);
  }

  lemma WiderUnrefused(w: State, v: State, p: Peer)
    requires Unrefused(w, p) && w.requests <= v.requests && w.wire <= v.wire && |p.replies| <= |w.wire|
    requires forall e | e in w.wire && e.owner.Some? :: e.owner.value < |w.requests|
    ensures Unrefused(v, p)
  {
    hide Covers;
    forall i | 0 <= i < |p.replies| && i < |v.wire| && v.wire[i].owner.Some? && v.wire[i].owner.value < |v.requests|
      ensures Covers(|p.mem|, v.requests[v.wire[i].owner.value]) ==> !IsError(p.replies[i].ack.status)
    {
      assert w.wire[i] == v.wire[i] && w.wire[i] in w.wire;
    }
  }

  lemma SteadyFacts(cfg: Config, s: System, commands: nat, acks: nat)
    requires Steady(cfg, s, commands, acks)
    ensures |s.worker.resolved| <= |s.worker.requests| && |s.peer.replies| <= |s.worker.wire|
    ensures forall e | e in s.worker.wire && e.owner.Some? :: e.owner.value < |s.worker.requests|
    ensures |s.peer.mem| < ADDRESS_SPACE && |s.peer.base| == |s.peer.mem|
  {
    hide Replied, Delivered, CarriedOut, Wired, Increasing, Answering, Lockstep, AllSound, OthersFresh, Encode, Transacting, Serving;
  }

  // ------------------------------------------------------------- the device

  /** The datagram about to arrive is that of the transaction in flight. */
  lemma NextArrival(cfg: Config, s: System, commands: nat, acks: nat)
    requires Steady(cfg, s, commands, acks) && commands < |s.worker.wire|
    ensures var w, e := s.worker, s.worker.wire[commands];
            && w.inflight.Some? && e == Sent(w.serial, Owner(w.inflight.value.op), w.inflight.value.sent)
            && Serves(w.requests, w.inflight.value.op)
            && Encode(cfg, w.inflight.value.op, SendOf(w.requests, w.inflight.value.op)) == Some(e.datagram.command)
            && (!w.inflight.value.op.Heartbeat? ==> w.inflight.value.op.handle == |w.resolved| < |w.requests|)
  {
    hide Replied, Delivered, CarriedOut, Owned, Placed, Increasing, Answering, Lockstep, AllSound, OthersFresh, Encode, Serves, SendOf, Orderly, Counted;
    var w := s.worker;
    assert w.wire[commands] in w.wire && w.wire[commands].serial == w.serial;
    if !w.inflight.value.op.Heartbeat? { FirstInLine(w, w.inflight.value.op); }
  }

  lemma CommandServed(cfg: Config, maxPacket: Option<nat>, mem: Bytes, s: System, commands: nat, acks: nat, i: nat, short: Pos)
    requires Served(cfg, maxPacket, mem, s, commands, acks) && Smoothly(cfg, s, commands, acks, CommandArrives(i, short))
    ensures Served(cfg, maxPacket, mem, Next(cfg, s, CommandArrives(i, short)), commands + 1, acks)
  {
    hide Steady, Covers, Sequenced, Execute, Encode, Serves, SendOf, Repeats;
    CommandSteady(cfg, s, commands, acks, i, short);
    NextArrival(cfg, s, commands, acks);
    SteadyFacts(cfg, s, commands, acks);
    var w, p, e := s.worker, s.peer, s.worker.wire[i];
    var op := w.inflight.value.op;
    var q := Handle(p, e, short);
    if op.Heartbeat? { HeartbeatReads(cfg, w.requests); }
    if !op.Heartbeat? && Covers(|p.mem|, w.requests[op.handle]) {
      NotRefused(cfg, p.maxPacket, p.mem, w.requests, op, e.datagram, short);
    }
    SteadyCount(cfg, s, commands, acks);
    assert q.replies == p.replies + [Reply(e.serial, Execute(p.maxPacket, p.mem, e.datagram, short).ack)];
  }

  lemma SteadyCount(cfg: Config, s: System, commands: nat, acks: nat)
    requires Steady(cfg, s, commands, acks)
    ensures commands == |s.peer.replies| && acks == s.worker.acked && s.commandPos <= commands && s.ackPos <= acks && !s.worker.stopped
  {
    hide LinkInv, Numbered, Answering;
  }

  // ------------------------------------------------------------ acknowledges

  lemma SendResolves(cfg: Config, u: State, op: Op, send: PendingSend, now: int)
    requires u.inflight.None?
    ensures var v := SendOp(cfg, u, op, send, now, true);
            && v.requests == u.requests && u.wire <= v.wire
            && (v.resolved == u.resolved || (|v.resolved| == |u.resolved| + 1 && v.resolved[..|u.resolved|] == u.resolved))
  {
    hide Encode;
  }

  lemma AckResolves(cfg: Config, u: State, op: Op, ack: Ack, now: int)
    requires u.inflight.None?
    ensures var v := OnAck(cfg, u, op, ack, now, true);
            && v.requests == u.requests && u.wire <= v.wire
            && (v.resolved == u.resolved || (|v.resolved| == |u.resolved| + 1 && v.resolved[..|u.resolved|] == u.resolved))
  {
    hide Answered, SendOp;
    var answer := Answered(cfg, op, ack.payload);
    if answer.More? { SendResolves(cfg, u, answer.op, answer.send, now); }
  }

  lemma AckServed(cfg: Config, maxPacket: Option<nat>, mem: Bytes, s: System, commands: nat, acks: nat, i: nat, now: int)
    requires Served(cfg, maxPacket, mem, s, commands, acks) && Smoothly(cfg, s, commands, acks, AckArrives(i, now, true))
    ensures Served(cfg, maxPacket, mem, Next(cfg, s, AckArrives(i, now, true)), commands, acks + 1)
  {
    hide Steady, Covers, OnAck, Perform, Unrefused, InStep;
    AckSteady(cfg, s, commands, acks, i, now);
    SteadyCount(cfg, s, commands, acks);
    Awaited(cfg, s, commands, acks);
    var w, p, ack := s.worker, s.peer, s.peer.replies[i].ack;
    var u := w.(inflight := None, acked := w.inflight.value.serial);
    var v := OnAck(cfg, u, w.inflight.value.op, ack, now, true);
    assert Next(cfg, s, AckArrives(i, now, true)).worker == v;
    AckResolves(cfg, u, w.inflight.value.op, ack, now);
    SteadyFacts(cfg, s, commands, acks);
    WiderUnrefused(w, v, p);
    if |v.resolved| == |w.resolved| {
      SameInStep(maxPacket, mem, w, p, v);
    } else {
      var t := Next(cfg, s, AckArrives(i, now, true));
      SteadyFacts(cfg, t, commands, acks + 1);
      SteadyAnswering(cfg, t, commands, acks + 1);
      SteadyFresh(cfg, s, commands, acks);
      SteadyLink(cfg, s, commands, acks);
      AckPerforms(cfg, s, i, now, true);
      OneStep(maxPacket, mem, w, p, v);
    }
  }

  lemma SteadyAnswering(cfg: Config, s: System, commands: nat, acks: nat)
    requires Steady(cfg, s, commands, acks)
    ensures Answering(s.worker, s.peer)
  {
    hide LinkInv, Numbered, Answering;
  }

  lemma SteadyLink(cfg: Config, s: System, commands: nat, acks: nat)
    requires Steady(cfg, s, commands, acks)
    ensures LinkInv(cfg, s)
  {
    hide LinkInv, Numbered, Answering;
  }

  lemma SameInStep(maxPacket: Option<nat>, mem: Bytes, w: State, p: Peer, v: State)
    requires InStep(maxPacket, mem, w, p) && v.requests == w.requests && v.resolved == w.resolved
    ensures InStep(maxPacket, mem, v, p)
  {
  }

  /** The next request is done: it was not refused, so it succeeded. */
  lemma OneStep(maxPacket: Option<nat>, mem: Bytes, w: State, p: Peer, v: State)
    requires InStep(maxPacket, mem, w, p) && v.requests == w.requests && |w.resolved| < |v.requests|
    requires |v.resolved| == |w.resolved| + 1 && v.resolved[..|w.resolved|] == w.resolved
    requires Answering(v, p) && Unrefused(v, p)
    requires var r := |w.resolved|;
             v.resolved[r].outcome.Ok? ==>
               p.client == Some(r) && Perform(p.maxPacket, p.base, v.requests[r]) == Some(Performed(p.mem, v.resolved[r].outcome.value))
    ensures InStep(maxPacket, mem, v, p)
  {
    hide Covers, Perform;
    var r := |w.resolved|;
    if forall q | q in v.requests :: Covers(|mem|, q) {
      assert Covers(|mem|, v.requests[r]);
      assert !Turned(v, p, r);
      assert v.requests[..r + 1][..r] == w.requests[..r];
      forall k | 0 <= k < r ensures v.resolved[k] == w.resolved[k] { assert v.resolved[k] == v.resolved[..r][k]; }
    }
  }

  // -------------------------------------------------------------------- runs

  lemma StartServed(cfg: Config, heartbeatDue: int, maxPacket: Option<nat>, mem: Bytes)
    requires |mem| < ADDRESS_SPACE
    ensures Served(cfg, maxPacket, mem, Start(heartbeatDue, maxPacket, mem), 0, 0)
  {
    hide Steady;
    StartSteady(cfg, heartbeatDue, maxPacket, mem);
  }

  lemma NextServed(cfg: Config, maxPacket: Option<nat>, mem: Bytes, s: System, commands: nat, acks: nat, h: Happening)
    requires Served(cfg, maxPacket, mem, s, commands, acks) && Smoothly(cfg, s, commands, acks, h)
    ensures Served(cfg, maxPacket, mem, Next(cfg, s, h), commands + (if h.CommandArrives? then 1 else 0), acks + if h.AckArrives? then 1 else 0)
  {
    hide Served, Next;
    match h
    case Works(e) => WorksServed(cfg, maxPacket, mem, s, commands, acks, e);
    case CommandArrives(i, short) => CommandServed(cfg, maxPacket, mem, s, commands, acks, i, short);
    case AckArrives(i, now, canSend) => AckServed(cfg, maxPacket, mem, s, commands, acks, i, now);
  }

  lemma {:induction false} EveryRunServed(cfg: Config, heartbeatDue: int, maxPacket: Option<nat>, mem: Bytes, hs: seq<Happening>)
    requires |mem| < ADDRESS_SPACE && Smooth(cfg, Start(heartbeatDue, maxPacket, mem), hs)
    ensures Served(cfg, maxPacket, mem, After(cfg, Start(heartbeatDue, maxPacket, mem), hs), Commands(hs), Acks(hs))
    decreases |hs|
  {
    hide Served, Smoothly, Next;
    if hs == [] {
      StartServed(cfg, heartbeatDue, maxPacket, mem);
    } else {
      var init, h := hs[..|hs| - 1], hs[|hs| - 1];
      EveryRunServed(cfg, heartbeatDue, maxPacket, mem, init);
      NextServed(cfg, maxPacket, mem, After(cfg, Start(heartbeatDue, maxPacket, mem), init), Commands(init), Acks(init), h);
    }
  }

  /** The moment a request is resolved on smooth links: unless the device refused one
      of its commands it succeeds, with the answer, and leaving the memory, that one
      step on the memory it found would give. */
  lemma SucceedsUnlessRefused(cfg: Config, heartbeatDue: int, maxPacket: Option<nat>, mem: Bytes, hs: seq<Happening>, h: Happening)
    requires |mem| < ADDRESS_SPACE && Smooth(cfg, Start(heartbeatDue, maxPacket, mem), hs + [h])
    ensures var s, t := After(cfg, Start(heartbeatDue, maxPacket, mem), hs), After(cfg, Start(heartbeatDue, maxPacket, mem), hs + [h]);
            forall k | |s.worker.resolved| <= k < |t.worker.resolved| && !Turned(t.worker, t.peer, k) ::
              && k < |t.worker.requests| && t.worker.resolved[k].outcome.Ok?
              && Perform(t.peer.maxPacket, t.peer.base, t.worker.requests[k])
                 == Some(Performed(t.peer.mem, t.worker.resolved[k].outcome.value))
  {
    hide Steady, Smoothly, Next, Start, Perform, Turned;
    assert (hs + [h])[..|hs|] == hs;
    EverySmoothRun(cfg, heartbeatDue, maxPacket, mem, hs);
    EverySmoothRun(cfg, heartbeatDue, maxPacket, mem, hs + [h]);
    var s, t := After(cfg, Start(heartbeatDue, maxPacket, mem), hs), After(cfg, Start(heartbeatDue, maxPacket, mem), hs + [h]);
    SteadyFresh(cfg, s, Commands(hs), Acks(hs));
    SteadyLink(cfg, s, Commands(hs), Acks(hs));
    SteadyAnswering(cfg, t, Commands(hs + [h]), Acks(hs + [h]));
    NextPerforms(cfg, s, h);
  }

  /** Nothing is queued, and all that was sent either way has arrived. */
  predicate Settled(s: System, hs: seq<Happening>) {
    s.worker.queue == [] && Commands(hs) == |s.worker.wire| && Acks(hs) == |s.peer.replies|
  }

  /** Requests inside the device's memory, on smooth links: those resolved have come
      out as if performed one by one, each in one step; and when all has arrived, all
      are resolved, and the device holds what they leave. */
  lemma OneByOne(cfg: Config, heartbeatDue: int, maxPacket: Option<nat>, mem: Bytes, hs: seq<Happening>)
    requires |mem| < ADDRESS_SPACE && Smooth(cfg, Start(heartbeatDue, maxPacket, mem), hs)
    requires forall q | q in After(cfg, Start(heartbeatDue, maxPacket, mem), hs).worker.requests :: Covers(|mem|, q)
    ensures var s := After(cfg, Start(heartbeatDue, maxPacket, mem), hs);
            var r := |s.worker.resolved|;
            && r <= |s.worker.requests|
            && var q := Sequenced(maxPacket, mem, s.worker.requests[..r]);
            && q.Some? && |q.value.values| == r && (forall k | 0 <= k < r :: s.worker.resolved[k] == Resolution(k, Ok(q.value.values[k])))
            && (Settled(s, hs) ==> r == |s.worker.requests| && s.peer.mem == q.value.mem)
  {
    hide Steady, Smooth, After, Start, Covers, Sequenced, Commands, Acks, Unrefused;
    EveryRunServed(cfg, heartbeatDue, maxPacket, mem, hs);
    var s := After(cfg, Start(heartbeatDue, maxPacket, mem), hs);
    var w, p := s.worker, s.peer;
    SteadyFacts(cfg, s, Commands(hs), Acks(hs));
    SteadyOrder(cfg, s, Commands(hs), Acks(hs));
    if Settled(s, hs) { SettledDone(cfg, s, hs); }
  }

  lemma SteadyOrder(cfg: Config, s: System, commands: nat, acks: nat)
    requires Steady(cfg, s, commands, acks)
    ensures forall k | 0 <= k < |s.worker.resolved| :: s.worker.resolved[k].handle == k
  {
    hide Replied, Delivered, CarriedOut, Wired, Increasing, Answering, Lockstep, AllSound, OthersFresh, Transacting, Placed, Owned, Numbered;
  }

  lemma SettledDone(cfg: Config, s: System, hs: seq<Happening>)
    requires Steady(cfg, s, Commands(hs), Acks(hs)) && Settled(s, hs)
    ensures s.worker.inflight.None? && |s.worker.resolved| == |s.worker.requests| && s.peer.client != Some(|s.worker.resolved|)
  {
    hide Replied, Delivered, CarriedOut, Wired, Increasing, Answering, Lockstep, InOrder, AllSound, OthersFresh, Transacting, Serving, Owned;
    HeadFirst(cfg, s.worker);
  }

  // ------------------------------------------------------------------ progress

  /** Units of the request the operation is for: registers or bytes. */
  function Units(op: Op): nat {
    match op
    case ReadRegs(_, addrs, _) => |addrs|
    case WriteRegs(_, pairs, _) => |pairs|
    case ReadMem(_, _, want, _) => want
    case WriteMem(_, data, _, _) => |data|
    case _ => 0
  }

  /** The most transactions the operation can still take. */
  function Cost(op: Op): nat { Left(Units(op), Progress(op)) + 1 }

  function Load(ops: seq<Op>): nat { if ops == [] then 0 else Cost(ops[0]) + Load(ops[1..]) }

  function Work(w: State): nat { Load(w.queue) + if w.inflight.Some? then Cost(w.inflight.value.op) else 0 }

  lemma SecondLoad(ops: seq<Op>, op: Op)
    requires ops != []
    ensures Load(InsertSecond(ops, op)) == Load(ops) + Cost(op)
  {
    var all := InsertSecond(ops, op);
    assert all[1..][1..] == ops[1..] && all[1..][0] == op;
  }

  lemma CheaperNext(cfg: Config, requests: seq<Request>, op: Op, payload: Bytes)
    requires Serves(requests, op) && Answered(cfg, op, payload).More?
    ensures Cost(Answered(cfg, op, payload).op) < Cost(op)
  {
    AnsweredServes(cfg, requests, op, payload);
  }

  /** An acknowledge takes work off the worker. */
  lemma AckWorks(cfg: Config, w: State, ack: Ack, now: int)
    requires Inv(cfg, w) && w.inflight.Some? && (forall q | q in w.requests :: Sendable(cfg, q))
    ensures var u := w.(inflight := None, acked := w.inflight.value.serial);
            Work(OnAck(cfg, u, w.inflight.value.op, ack, now, true)) < Work(w)
  {
    hide Answered, SendOp, Lockstep, InOrder, AllSound, OthersFresh, Encode, Cost, Load, Sendable, SendOf;
    var op := w.inflight.value.op;
    var u := w.(inflight := None, acked := w.inflight.value.serial);
    var answer := Answered(cfg, op, ack.payload);
    AnsweredServes(cfg, w.requests, op, ack.payload);
    CostPositive(op);
    if !IsError(ack.status) && ack.answer == ExpectedAck(op) && answer.More? {
      CheaperNext(cfg, w.requests, op, ack.payload);
      if u.queue != [] && u.queue[0].Heartbeat? && u.payloads != [] {
        SecondLoad(u.queue, answer.op);
      } else {
        SendsIt(cfg, u, answer.op, now);
      }
    }
  }

  lemma CostPositive(op: Op)
    ensures Cost(op) > 0
  {
  }

  lemma SendsIt(cfg: Config, u: State, op: Op, now: int)
    requires Serves(u.requests, op) && u.inflight.None? && (forall q | q in u.requests :: Sendable(cfg, q))
    ensures var v := SendOp(cfg, u, op, SendOf(u.requests, op), now, true);
            v.inflight.Some? && v.inflight.value.op == op && v.queue == u.queue && v.requests == u.requests
  {
    hide Encode, Serves, SendOf, Sendable;
    Fitting(cfg, u.requests, op);
  }

  /** What can happen next where something is left to do. */
  function Onwards(s: System, now: int): Happening {
    if s.worker.inflight.None? then Works(Timed(Pumped, now, true))
    else if |s.peer.replies| < |s.worker.wire| then CommandArrives(|s.peer.replies|, 1)
    else AckArrives(s.worker.acked, now, true)
  }

  function Stage(s: System): nat {
    if s.worker.inflight.None? then 2 else if |s.peer.replies| < |s.worker.wire| then 1 else 0
  }

  lemma OnwardsSmooth(cfg: Config, s: System, commands: nat, acks: nat, now: int)
    requires Steady(cfg, s, commands, acks) && (s.worker.inflight.Some? || s.worker.queue != [])
    ensures Smoothly(cfg, s, commands, acks, Onwards(s, now))
    ensures var t := Next(cfg, s, Onwards(s, now));
            t.worker.requests == s.worker.requests && (Work(t.worker) < Work(s.worker) || (Work(t.worker) == Work(s.worker) && Stage(t) < Stage(s)))
  {
    hide LinkInv, Answering, Handle, Sendable, OnAck, SendOp, SendOf, Cost, Load;
    var w, p := s.worker, s.peer;
    LinkHolds(cfg, s);
    HolderServes(cfg, w);
    if w.inflight.None? {
      SendsIt(cfg, w.(queue := w.queue[1..], payloads := w.payloads[1..]), w.queue[0], now);
      assert Load(w.queue) == Cost(w.queue[0]) + Load(w.queue[1..]) by { LoadFirst(w.queue); }
    } else if |p.replies| < |w.wire| {
      CommandSteady(cfg, s, commands, acks, |p.replies|, 1);
    } else {
      Awaited(cfg, s, commands, acks);
      AckWorks(cfg, w, p.replies[acks].ack, now);
      var u := w.(inflight := None, acked := w.inflight.value.serial);
      AckResolves(cfg, u, w.inflight.value.op, p.replies[acks].ack, now);
    }
  }

  lemma LoadFirst(ops: seq<Op>)
    requires ops != []
    ensures Load(ops) == Cost(ops[0]) + Load(ops[1..])
  {
  }

  /** Every smooth run goes on smoothly to a point where all has arrived and, with
      no more requests made, every request is resolved. */
  lemma {:induction false} Completes(cfg: Config, heartbeatDue: int, maxPacket: Option<nat>, mem: Bytes, hs: seq<Happening>, now: int)
    returns (more: seq<Happening>)
    requires |mem| < ADDRESS_SPACE && Smooth(cfg, Start(heartbeatDue, maxPacket, mem), hs)
    ensures Smooth(cfg, Start(heartbeatDue, maxPacket, mem), hs + more)
    ensures var start := Start(heartbeatDue, maxPacket, mem);
            var s, t := After(cfg, start, hs), After(cfg, start, hs + more);
            Settled(t, hs + more) && t.worker.requests == s.worker.requests && |t.worker.resolved| == |t.worker.requests|
    decreases Work(After(cfg, Start(heartbeatDue, maxPacket, mem), hs).worker), Stage(After(cfg, Start(heartbeatDue, maxPacket, mem), hs))
  {
    hide Steady, Smoothly, Next, Start, Work, Stage, Onwards;
    var start := Start(heartbeatDue, maxPacket, mem);
    var s := After(cfg, start, hs);
    EverySmoothRun(cfg, heartbeatDue, maxPacket, mem, hs);
    if s.worker.inflight.None? && s.worker.queue == [] {
      more := [];
      assert hs + more == hs;
      AllArrived(cfg, s, hs);
      SettledDone(cfg, s, hs);
    } else {
      var h := Onwards(s, now);
      OnwardsSmooth(cfg, s, Commands(hs), Acks(hs), now);
      assert (hs + [h])[..|hs|] == hs;
      var rest := Completes(cfg, heartbeatDue, maxPacket, mem, hs + [h], now);
      more := [h] + rest;
      assert hs + more == hs + [h] + rest;
    }
  }

  lemma AllArrived(cfg: Config, s: System, hs: seq<Happening>)
    requires Steady(cfg, s, Commands(hs), Acks(hs)) && s.worker.inflight.None? && s.worker.queue == []
    ensures Settled(s, hs)
  {
    hide LinkInv, Answering;
  }
}
