/** Worker and device over links that lose nothing, with no timeout: every request
    is answered with what it means in one step, unless the device refuses it. */
module SmoothRuns {
  import opened Gvsp
  import opened Gvcp
  import opened Worker
  import opened WorkerRuns
  import opened Transactions
  import opened Device
  import opened Chunks
  import opened Link
  import opened LinkRuns

  // -------------------------------------------------------------- smooth runs

  /** The datagrams that have reached the device, and the acknowledges that have
      reached the worker. */
  function Commands(hs: seq<Happening>): nat {
    if hs == [] then 0 else Commands(hs[..|hs| - 1]) + if hs[|hs| - 1].CommandArrives? then 1 else 0
  }

  function Acks(hs: seq<Happening>): nat {
    if hs == [] then 0 else Acks(hs[..|hs| - 1]) + if hs[|hs| - 1].AckArrives? then 1 else 0
  }

  /** Every command for the request fits a datagram. */
  predicate Sendable(cfg: Config, request: Request) {
    cfg.concatenation ==>
      match request
      case GetRegisters(addrs) => Size(ReadRegister(addrs)) <= MAX_DATAGRAM
      case SetRegisters(pairs) => Size(WriteRegister(pairs)) <= MAX_DATAGRAM
      case _ => true
  }

  /** The socket takes every datagram, no deadline passes, nobody stops the worker,
      and each link delivers all that is sent, once and in order. */
  predicate Smoothly(cfg: Config, s: System, commands: nat, acks: nat, h: Happening) {
    && Possible(s, h)
    && match h
       case CommandArrives(i, _) => i == commands
       case AckArrives(i, _, canSend) => canSend && i == acks
       case Works(e) =>
         e.canSend &&
         match e.event
         case Submitted(request) => Sendable(cfg, request)
         case Deadlines => s.worker.inflight.Some? ==> e.now < s.worker.inflight.value.deadline
         case Stopped => false
         case _ => true
  }

  predicate Smooth(cfg: Config, s: System, hs: seq<Happening>)
    decreases |hs|
  {
    hs == [] ||
    var init := hs[..|hs| - 1];
    Smooth(cfg, s, init) && Smoothly(cfg, After(cfg, s, init), Commands(init), Acks(init), hs[|hs| - 1])
  }

  // ------------------------------------------------------------ the invariant

  /** Each transaction is one datagram, and the device's answers follow them. */
  ghost predicate Numbered(w: State, p: Peer) {
    && |w.wire| == w.serial && (forall i | 0 <= i < |w.wire| :: w.wire[i].serial == i + 1)
    && |p.replies| <= |w.wire| && (forall i | 0 <= i < |p.replies| :: p.replies[i].of == i + 1)
    && (forall r | r in p.replies :: r.ack.answer != PENDING_ACK)
    && (if p.last.Some? then p.last.value.of == |p.replies| else p.replies == [])
    && w.acked <= |p.replies| && w.serial == w.acked + if w.inflight.Some? then 1 else 0
  }

  /** The device refused a command of the request. */
  predicate RefusedAt(w: State, p: Peer, k: nat, i: nat) {
    i < |p.replies| && i < |w.wire| && w.wire[i].owner == Some(k) && IsError(p.replies[i].ack.status)
  }

  ghost predicate Turned(w: State, p: Peer, k: nat) { exists i: nat :: RefusedAt(w, p, k, i) }

  /** A request that failed was refused. */
  ghost predicate Answering(w: State, p: Peer) {
    forall k | 0 <= k < |w.resolved| :: w.resolved[k].outcome.Failed? ==> Turned(w, p, k)
  }

  ghost predicate Steady(cfg: Config, s: System, commands: nat, acks: nat) {
    && LinkInv(cfg, s) && !s.worker.stopped && Numbered(s.worker, s.peer) && Answering(s.worker, s.peer)
    && (forall q | q in s.worker.requests :: Sendable(cfg, q))
    && commands == |s.peer.replies| && acks == s.worker.acked && s.commandPos <= commands && s.ackPos <= acks
  }

  lemma SteadyFresh(cfg: Config, s: System, commands: nat, acks: nat)
    requires Steady(cfg, s, commands, acks)
    ensures Fresh(s.worker, LAST_ID)
  {
    hide LinkInv, Answering;
  }

  // ------------------------------------------------------------- the worker

  lemma Fitting(cfg: Config, requests: seq<Request>, op: Op)
    requires Serves(requests, op) && (forall q | q in requests :: Sendable(cfg, q))
    ensures Encode(cfg, op, SendOf(requests, op)).Some? && Size(Encode(cfg, op, SendOf(requests, op)).value) <= MAX_DATAGRAM
  {
    if !op.Heartbeat? { assert Sendable(cfg, requests[op.handle]); }
  }

  /** Where nothing was turned down before, nothing is now: no request failed. */
  lemma SameAnswers(w: State, p: Peer, v: State, q: Peer)
    requires Answering(w, p) && v.resolved == w.resolved && w.wire <= v.wire && p.replies <= q.replies
    ensures Answering(v, q)
  {
    forall k | 0 <= k < |v.resolved| && v.resolved[k].outcome.Failed? ensures Turned(v, q, k) {
      assert Turned(w, p, k);
      var i: nat :| RefusedAt(w, p, k, i);
      assert RefusedAt(v, q, k, i);
    }
  }

  lemma Launches(cfg: Config, w: State, p: Peer, op: Op, now: int)
    requires Serves(w.requests, op) && w.inflight.None? && Numbered(w, p) && Answering(w, p)
    requires forall q | q in w.requests :: Sendable(cfg, q)
    ensures var v := SendOp(cfg, w, op, SendOf(w.requests, op), now, true);
            && Numbered(v, p) && Answering(v, p) && v.requests == w.requests && v.stopped == w.stopped && v.acked == w.acked
            && v.inflight.Some? && v.inflight.value.op == op && v.queue == w.queue && v.resolved == w.resolved && w.wire <= v.wire
  {
    hide Encode, Answering, SendOf, Serves, Sendable;
    Fitting(cfg, w.requests, op);
    var v := SendOp(cfg, w, op, SendOf(w.requests, op), now, true);
    SameAnswers(w, p, v, p);
  }

  lemma HolderServes(cfg: Config, w: State)
    requires Inv(cfg, w)
    ensures Lockstep(w) && (w.inflight.Some? ==> Serves(w.requests, w.inflight.value.op))
  {
    hide Lockstep, InOrder, AllSound, OthersFresh, Encode;
  }

  lemma WorksSteady(cfg: Config, s: System, commands: nat, acks: nat, e: Timed)
    requires Steady(cfg, s, commands, acks) && Smoothly(cfg, s, commands, acks, Works(e))
    ensures Steady(cfg, Next(cfg, s, Works(e)), commands, acks)
    ensures var v := Next(cfg, s, Works(e)).worker; v.resolved == s.worker.resolved && s.worker.requests <= v.requests && s.worker.wire <= v.wire
  {
    hide LinkInv, Answering, Submit, CheckHeartbeat, SendOp, Sendable;
    SteadyFresh(cfg, s, commands, acks);
    NextKeeps(cfg, s, Works(e));
    var w, p := s.worker, s.peer;
    var v := Step(cfg, w, e);
    LinkHolds(cfg, s);
    HolderServes(cfg, w);
    match e.event
    case Submitted(request) => SubmitSame(w, request); SameAnswers(w, p, v, p);
    case Heartbeats => HeartbeatSame(cfg, w, e.now); SameAnswers(w, p, v, p);
    case Pumped =>
      if w.inflight.None? && w.queue != [] && w.payloads != [] {
        var u := w.(queue := w.queue[1..], payloads := w.payloads[1..]);
        SameAnswers(w, p, u, p);
        Launches(cfg, u, p, w.queue[0], e.now);
      } else {
        SameAnswers(w, p, v, p);
      }
    case Deadlines => assert v == w;
    case _ =>
  }

  lemma LinkHolds(cfg: Config, s: System)
    requires LinkInv(cfg, s)
    ensures Inv(cfg, s.worker)
  {
  }

  lemma SubmitSame(w: State, request: Request)
    requires !w.stopped
    ensures var v := Submit(w, request);
            && v == w.(requests := w.requests + [request], queue := w.queue + [OpFor(request, |w.requests|)], payloads := v.payloads)
  {
  }

  lemma HeartbeatSame(cfg: Config, w: State, now: int)
    ensures var v := CheckHeartbeat(cfg, w, now);
            v == w.(heartbeatDue := v.heartbeatDue, queue := v.queue, payloads := v.payloads)
  {
  }

  // ------------------------------------------------------------- the device

  lemma CommandSteady(cfg: Config, s: System, commands: nat, acks: nat, i: nat, short: Pos)
    requires Steady(cfg, s, commands, acks) && Smoothly(cfg, s, commands, acks, CommandArrives(i, short))
    ensures Steady(cfg, Next(cfg, s, CommandArrives(i, short)), commands + 1, acks)
    ensures var e, q := s.worker.wire[i], Next(cfg, s, CommandArrives(i, short)).peer;
            !Repeats(s.peer, e.datagram) && e.serial == i + 1 == |q.replies|
  {
    hide LinkInv, Answering, Repeats, Execute, Sendable;
    SteadyFresh(cfg, s, commands, acks);
    NextKeeps(cfg, s, CommandArrives(i, short));
    var w, p, e := s.worker, s.peer, s.worker.wire[i];
    assert e.serial == i + 1;
    NotRepeated(cfg, s, i);
    var q := Handle(p, e, short);
    SameAnswers(w, p, w, q);
    HandleAnswer(p, e, short);
  }

  lemma HandleAnswer(p: Peer, e: Sent, short: Pos)
    requires !Repeats(p, e.datagram)
    ensures var q := Handle(p, e, short);
            && |q.replies| == |p.replies| + 1 && p.replies <= q.replies && q.last.Some? && q.last.value.of == e.serial
            && q.replies[|p.replies|].of == e.serial && q.replies[|p.replies|].ack.answer != PENDING_ACK
  {
    hide Execute;
  }

  // ------------------------------------------------------------ acknowledges

  /** The device answers a command with the acknowledge its operation expects. */
  lemma RightAnswer(cfg: Config, requests: seq<Request>, op: Op)
    requires Serves(requests, op) && Encode(cfg, op, SendOf(requests, op)).Some?
    ensures Code(Encode(cfg, op, SendOf(requests, op)).value) + 1 == ExpectedAck(op)
  {
  }

  /** What the acknowledge does to the request in flight. */
  lemma Accepts(cfg: Config, w: State, p: Peer)
    requires Inv(cfg, w) && Together(w, p, Head(w)) && Reached(w, p) && !IsError(p.last.value.ack.status)
    ensures var op, ack := w.inflight.value.op, p.last.value.ack;
            && ack.answer == ExpectedAck(op)
            && (Answered(cfg, op, ack.payload).Done? || Answered(cfg, op, ack.payload).More?)
  {
    AnswerCarried(cfg, w, p);
    hide DoneSoFar, Execute, Encode, Lockstep, InOrder, AllSound, OthersFresh, Answered, Perform, Owned, CarriedOut;
    var op := w.inflight.value.op;
    assert Serving(w, p, op);
    RightAnswer(cfg, w.requests, op);
  }

  lemma LinkTogether(cfg: Config, s: System)
    requires LinkInv(cfg, s)
    ensures Inv(cfg, s.worker) && Together(s.worker, s.peer, Head(s.worker))
  {
  }

  lemma LinkOwns(cfg: Config, s: System)
    requires LinkInv(cfg, s)
    ensures OwnDatagram(s.worker)
  {
  }

  /** The acknowledge on its way is the one the transaction in flight awaits. */
  lemma Awaited(cfg: Config, s: System, commands: nat, acks: nat)
    requires Steady(cfg, s, commands, acks) && acks < |s.peer.replies|
    ensures var w, p, ack := s.worker, s.peer, s.peer.replies[acks].ack;
            && w.inflight.Some? && ack.ackId == w.inflight.value.id && PendingMs(ack).None?
            && p.last.Some? && p.last.value.of == w.serial == |p.replies| && ack == p.last.value.ack && acks == w.serial - 1
  {
    hide Answering, Owned, CarriedOut, Placed, Lockstep, InOrder, AllSound, OthersFresh, Encode, Counted, Delivered;
    var r := s.peer.replies[acks];
    assert r in s.peer.replies;
  }

  lemma AckSteady(cfg: Config, s: System, commands: nat, acks: nat, i: nat, now: int)
    requires Steady(cfg, s, commands, acks) && Smoothly(cfg, s, commands, acks, AckArrives(i, now, true))
    ensures Steady(cfg, Next(cfg, s, AckArrives(i, now, true)), commands, acks + 1)
  {
    hide LinkInv, Answering, OnAck, Sendable, Together;
    SteadyFresh(cfg, s, commands, acks);
    NextKeeps(cfg, s, AckArrives(i, now, true));
    Awaited(cfg, s, commands, acks);
    LinkTogether(cfg, s);
    LinkOwns(cfg, s);
    AckTaken(cfg, s.worker, s.peer, now);
  }

  lemma AckTaken(cfg: Config, w: State, p: Peer, now: int)
    requires Inv(cfg, w) && OwnDatagram(w) && Together(w, p, Head(w)) && Numbered(w, p) && Answering(w, p) && !w.stopped
    requires forall q | q in w.requests :: Sendable(cfg, q)
    requires w.inflight.Some? && p.last.Some? && p.last.value.of == w.serial == |p.replies| && p.replies[w.serial - 1].ack == p.last.value.ack
    ensures var u := w.(inflight := None, acked := w.serial);
            var v := OnAck(cfg, u, w.inflight.value.op, p.last.value.ack, now, true);
            && Numbered(v, p) && Answering(v, p) && v.acked == w.serial && !v.stopped && v.requests == w.requests
  {
    hide Together, Encode, Answered, SendOp, Sendable, Lockstep, AllSound, OthersFresh, SendOf, Answering, Numbered;
    var op, ack := w.inflight.value.op, p.last.value.ack;
    var u := w.(inflight := None, acked := w.serial);
    var v := OnAck(cfg, u, op, ack, now, true);
    AckedNumbers(w, p, u);
    AnsweredServes(cfg, w.requests, op, ack.payload);
    if op.Heartbeat? {
      SameNumbers(u, p, v);
      SameAnswers(w, p, v, p);
    } else {
      FirstInLine(w, op);
      if IsError(ack.status) {
        SameNumbers(u, p, v);
        RefusedNow(w, p, v);
      } else {
        Accepts(cfg, w, p);
        SameAnswers(w, p, u, p);
        match Answered(cfg, op, ack.payload)
        case Done(value) =>
          SameNumbers(u, p, v);
          OneMoreOk(u, p, v);
        case More(next, send) => Continues(cfg, u, p, next, now);
        case _ =>
      }
    }
  }

  lemma AckedNumbers(w: State, p: Peer, u: State)
    requires Numbered(w, p) && w.serial <= |p.replies| && u == w.(inflight := None, acked := w.serial)
    ensures Numbered(u, p)
  {
  }

  lemma SameNumbers(u: State, p: Peer, v: State)
    requires Numbered(u, p) && v.wire == u.wire && v.serial == u.serial && v.acked == u.acked && v.inflight == u.inflight
    ensures Numbered(v, p)
  {
  }

  lemma OneMoreOk(u: State, p: Peer, v: State)
    requires Answering(u, p) && v.wire == u.wire && |v.resolved| == |u.resolved| + 1
    requires v.resolved[..|u.resolved|] == u.resolved && v.resolved[|u.resolved|].outcome.Ok?
    ensures Answering(v, p)
  {
    forall k | 0 <= k < |v.resolved| && v.resolved[k].outcome.Failed? ensures Turned(v, p, k) {
      assert v.resolved[k] == u.resolved[k];
      assert Turned(u, p, k);
      var i: nat :| RefusedAt(u, p, k, i);
      assert RefusedAt(v, p, k, i);
    }
  }

  /** The request fails with the acknowledge that refused its command. */
  lemma RefusedNow(w: State, p: Peer, v: State)
    requires Numbered(w, p) && Answering(w, p) && OwnDatagram(w) && v.wire == w.wire && w.inflight.Some?
    requires !w.inflight.value.op.Heartbeat? && w.inflight.value.op.handle == |w.resolved|
    requires 0 < w.serial <= |p.replies| && IsError(p.replies[w.serial - 1].ack.status)
    requires |v.resolved| == |w.resolved| + 1 && v.resolved[..|w.resolved|] == w.resolved
    ensures Answering(v, p)
  {
    assert w.wire[w.serial - 1] in w.wire;
    assert RefusedAt(v, p, |w.resolved|, w.serial - 1);
    forall k | 0 <= k < |w.resolved| && v.resolved[k].outcome.Failed? ensures Turned(v, p, k) {
      assert v.resolved[k] == w.resolved[k];
      assert Turned(w, p, k);
      var i: nat :| RefusedAt(w, p, k, i);
      assert RefusedAt(v, p, k, i);
    }
  }

  lemma Continues(cfg: Config, u: State, p: Peer, next: Op, now: int)
    requires Serves(u.requests, next) && u.inflight.None? && Numbered(u, p) && Answering(u, p)
    requires forall q | q in u.requests :: Sendable(cfg, q)
    ensures var v := ContinueOp(cfg, u, next, SendOf(u.requests, next), now, true);
            && Numbered(v, p) && Answering(v, p) && v.requests == u.requests && v.stopped == u.stopped && v.acked == u.acked
            && v.resolved == u.resolved
  {
    hide SendOp, Serves, SendOf, Numbered, Answering, Sendable;
    var v := ContinueOp(cfg, u, next, SendOf(u.requests, next), now, true);
    if u.queue != [] && u.queue[0].Heartbeat? && u.payloads != [] {
      SameNumbers(u, p, v);
      SameAnswers(u, p, v, p);
    } else {
      Launches(cfg, u, p, next, now);
    }
  }

  // -------------------------------------------------------------------- runs

  lemma StartSteady(cfg: Config, heartbeatDue: int, maxPacket: Option<nat>, mem: Bytes)
    requires |mem| < ADDRESS_SPACE
    ensures Steady(cfg, Start(heartbeatDue, maxPacket, mem), 0, 0)
  {
    hide LinkInv;
    StartInv(cfg, heartbeatDue, maxPacket, mem);
  }

  lemma {:induction false} EverySmoothRun(cfg: Config, heartbeatDue: int, maxPacket: Option<nat>, mem: Bytes, hs: seq<Happening>)
    requires |mem| < ADDRESS_SPACE && Smooth(cfg, Start(heartbeatDue, maxPacket, mem), hs)
    ensures Steady(cfg, After(cfg, Start(heartbeatDue, maxPacket, mem), hs), Commands(hs), Acks(hs))
    decreases |hs|
  {
    hide Steady, Smoothly, Next;
    if hs == [] {
      StartSteady(cfg, heartbeatDue, maxPacket, mem);
    } else {
      var init, h := hs[..|hs| - 1], hs[|hs| - 1];
      EverySmoothRun(cfg, heartbeatDue, maxPacket, mem, init);
      NextSteady(cfg, After(cfg, Start(heartbeatDue, maxPacket, mem), init), Commands(init), Acks(init), h);
    }
  }

  lemma NextSteady(cfg: Config, s: System, commands: nat, acks: nat, h: Happening)
    requires Steady(cfg, s, commands, acks) && Smoothly(cfg, s, commands, acks, h)
    ensures Steady(cfg, Next(cfg, s, h), commands + (if h.CommandArrives? then 1 else 0), acks + if h.AckArrives? then 1 else 0)
  {
    hide Steady, Next;
    match h
    case Works(e) => WorksSteady(cfg, s, commands, acks, e);
    case CommandArrives(i, short) => CommandSteady(cfg, s, commands, acks, i, short);
    case AckArrives(i, now, canSend) => AckSteady(cfg, s, commands, acks, i, now);
  }
}
