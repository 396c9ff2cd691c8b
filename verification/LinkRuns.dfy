/** What every run of worker, device and links keeps: no transaction is carried
    out twice, an acknowledge completes only its own transaction, and a request
    that succeeds has done to the device exactly what one step would do. */
module LinkRuns {
  import opened Gvsp
  import opened Gvcp
  import opened Worker
  import opened WorkerRuns
  import opened Transactions
  import opened Device
  import opened Chunks
  import opened Link

  // ------------------------------------------------------------ first in line

  function FirstRequest(queue: seq<Op>): Option<Op> {
    if queue == [] then None
    else if !queue[0].Heartbeat? then Some(queue[0])
    else if |queue| >= 2 then Some(queue[1])
    else None
  }

  /** The operation of a request is in flight, not a heartbeat. */
  predicate Flying(w: State) { w.inflight.Some? && !w.inflight.value.op.Heartbeat? }

  /** The operation first in line. */
  function Head(w: State): Option<Op> { if Flying(w) then Some(w.inflight.value.op) else FirstRequest(w.queue) }

  predicate Started(head: Option<Op>) { head.Some? && Progress(head.value) > 0 }

  lemma HeadFirst(cfg: Config, w: State)
    requires Inv(cfg, w)
    ensures Head(w).Some? ==> !Head(w).value.Heartbeat? && Head(w).value.handle == |w.resolved| < |w.requests|
                              && Serves(w.requests, Head(w).value)
    ensures Head(w).None? ==> |w.resolved| == |w.requests|
  {
    hide Serves, SendOf, Encode, AllSound, OthersFresh;
    var pending := PendingHandles(w.queue, Current(w));
    if Flying(w) {
      FirstInLine(w, w.inflight.value.op);
    } else {
      var q := w.queue;
      assert HandleOf(Heartbeat) == [];
      assert pending == HandlesOf(q);
      if q != [] {
        assert q[0].Heartbeat? ==> HandlesOf(q) == HandlesOf(q[1..]);
        if |q| >= 2 { assert q[1..][0] == q[1]; }
        if Head(w).Some? { assert pending[0] == Head(w).value.handle; }
      }
    }
  }

  // ------------------------------------------------------------ the invariant

  ghost predicate Increasing(xs: seq<nat>) { forall i, j | 0 <= i < j < |xs| :: xs[i] < xs[j] }

  /** The device answers each transaction in order, as its latest or an earlier. */
  ghost predicate Replied(p: Peer) {
    if p.last.None? then p.replies == [] && p.executed == []
    else
      var last := p.last.value;
      && p.executed != [] && p.executed[|p.executed| - 1] == last.of
      && (forall i, j | 0 <= i < j < |p.replies| :: p.replies[i].of <= p.replies[j].of)
      && (forall r | r in p.replies :: r.of <= last.of && r.ack.ackId == IdOf(r.of) && (r.of == last.of ==> r.ack == last.ack))
      && last.ack.ackId == IdOf(last.of)
  }

  /** Where the links stand: the device's latest transaction is the latest
      delivered, and no acknowledge older than the last accepted is left. */
  ghost predicate Delivered(w: State, p: Peer, commandPos: nat, ackPos: nat) {
    && (p.last.Some? ==>
          && commandPos < |w.wire| && w.wire[commandPos].serial == p.last.value.of && p.last.value.of >= w.acked
          && p.last.value.code == Code(w.wire[commandPos].datagram.command)
          && p.last.value.id == w.wire[commandPos].datagram.id)
    && (p.last.None? ==> w.acked == 0)
    && (forall j | ackPos <= j < |p.replies| :: p.replies[j].of >= w.acked)
  }

  /** The datagram belongs to the transaction in flight. */
  predicate InFlight(w: State, e: Sent) { w.inflight.Some? && e.serial == w.serial }

  /** A datagram neither acknowledged nor in flight is a heartbeat's, or of a
      request already failed while the one first in line has not begun. */
  ghost predicate Owned(w: State, head: Option<Op>) {
    forall e | e in w.wire ::
      && (e.owner.Some? ==> e.owner.value <= |w.resolved| && e.owner.value < |w.requests|)
      && (e.owner.None? ==> e.datagram.command.ReadRegister? || w.stopped)
      && (e.serial > w.acked && !InFlight(w, e) && e.owner.Some? ==> e.owner.value < |w.resolved| && !Started(head))
  }

  /** The request has run, or is running, to its end. */
  predicate Succeeds(w: State, handle: nat) {
    if handle < |w.resolved| then w.resolved[handle].outcome.Ok? else handle == |w.resolved|
  }

  /** Every transaction of a successful request was carried out. */
  ghost predicate CarriedOut(w: State, p: Peer) {
    forall e | e in w.wire && e.owner.Some? && Succeeds(w, e.owner.value) && !InFlight(w, e) :: e.serial in p.executed
  }

  /** The device has carried out the transaction in flight. */
  predicate Reached(w: State, p: Peer) { Flying(w) && p.last.Some? && p.last.value.of == w.serial }

  /** How far the device is with the request first in line. */
  ghost predicate Serving(w: State, p: Peer, op: Op)
    requires Serves(w.requests, op) && !op.Heartbeat?
  {
    var request := w.requests[op.handle];
    if Reached(w, p) then
      var last := p.last.value;
      && p.client == Some(op.handle) && |last.before| == |p.base|
      && DoneSoFar(p.maxPacket, p.base, last.before, request, op)
      && Effect(p.mem, last.ack) == Execute(p.maxPacket, last.before, w.inflight.value.sent, last.short)
    else if Progress(op) > 0 then p.client == Some(op.handle) && DoneSoFar(p.maxPacket, p.base, p.mem, request, op)
    else p.client != Some(op.handle)
  }

  ghost predicate Placed(w: State, p: Peer, head: Option<Op>) {
    && |p.mem| == |p.base| < ADDRESS_SPACE
    && (p.client.Some? ==> p.client.value < |w.requests| && p.client.value <= |w.resolved|)
    && (head.Some? ==> Serves(w.requests, head.value) && !head.value.Heartbeat? && Serving(w, p, head.value))
  }

  ghost predicate LinkInv(cfg: Config, s: System) {
    && Inv(cfg, s.worker) && Wired(cfg, s.worker)
    && Increasing(s.peer.executed) && Replied(s.peer)
    && Delivered(s.worker, s.peer, s.commandPos, s.ackPos)
    && Owned(s.worker, Head(s.worker)) && CarriedOut(s.worker, s.peer) && Placed(s.worker, s.peer, Head(s.worker))
  }

  // ------------------------------------------------------------- the device

  /** A command that is not the latest transaction's again is a new one. */
  lemma NotRepeated(cfg: Config, s: System, i: nat)
    requires LinkInv(cfg, s) && Fresh(s.worker, LAST_ID) && s.commandPos <= i < |s.worker.wire|
    ensures Repeats(s.peer, s.worker.wire[i].datagram) <==>
            s.peer.last.Some? && s.peer.last.value.of == s.worker.wire[i].serial
    ensures s.peer.last.Some? ==> s.peer.last.value.of <= s.worker.wire[i].serial
  {
    hide Inv, Owned, CarriedOut, Placed, Replied, OwnDatagram, Counted;
    if s.peer.last.Some? {
      var m, e := s.peer.last.value.of, s.worker.wire[i];
      assert m <= e.serial <= s.worker.serial;
      if e.datagram.id == s.peer.last.value.id {
        SameId(m, e.serial);
      }
    }
  }

  lemma HandleReplied(p: Peer, e: Sent, short: Pos)
    requires Replied(p) && Increasing(p.executed) && e.datagram.id == IdOf(e.serial)
    requires p.last.Some? ==> p.last.value.of <= e.serial
    requires Repeats(p, e.datagram) <==> p.last.Some? && p.last.value.of == e.serial
    ensures var q := Handle(p, e, short);
            Replied(q) && Increasing(q.executed) && q.last.Some? && q.last.value.of == e.serial
            && |q.replies| == |p.replies| + 1 && q.replies[..|p.replies|] == p.replies && q.replies[|p.replies|].of == e.serial
  {
    hide Execute;
    var q := Handle(p, e, short);
    forall r | r in q.replies ensures r.of <= q.last.value.of && r.ack.ackId == IdOf(r.of) && (r.of == q.last.value.of ==> r.ack == q.last.value.ack) {
      if r in p.replies { } else { assert r == q.replies[|p.replies|]; }
    }
  }

  /** The device's side of the request first in line, after a new transaction. */
  lemma HandlePlaced(cfg: Config, s: System, i: nat, short: Pos)
    requires LinkInv(cfg, s) && s.commandPos <= i < |s.worker.wire|
    requires !Repeats(s.peer, s.worker.wire[i].datagram)
    requires s.peer.last.Some? ==> s.peer.last.value.of < s.worker.wire[i].serial
    ensures Placed(s.worker, Handle(s.peer, s.worker.wire[i], short), Head(s.worker))
  {
    hide Execute, DoneSoFar, Encode, Replied, CarriedOut, Lockstep, InOrder, OthersFresh, AllSound, Counted;
    var w, p, e := s.worker, s.peer, s.worker.wire[i];
    var q := Handle(p, e, short);
    assert e in w.wire && e.serial > w.acked;
    HeadFirst(cfg, w);
    if Head(w).Some? {
      var op := Head(w).value;
      if InFlight(w, e) {
        assert e == Sent(w.serial, Owner(w.inflight.value.op), w.inflight.value.sent);
        if Flying(w) && Progress(op) == 0 { NothingDone(p.maxPacket, p.mem, w.requests, op); }
      }
    }
  }

  lemma CommandKeeps(cfg: Config, s: System, i: nat, short: Pos)
    requires LinkInv(cfg, s) && Fresh(s.worker, LAST_ID) && s.commandPos <= i < |s.worker.wire|
    ensures LinkInv(cfg, Next(cfg, s, CommandArrives(i, short)))
  {
    hide Inv, Wired, Owned, Placed, Replied, Handle, Repeats;
    var w, p, e := s.worker, s.peer, s.worker.wire[i];
    NotRepeated(cfg, s, i);
    WireId(cfg, w, i);
    HandleReplied(p, e, short);
    if Repeats(p, e.datagram) {
      RepeatKeeps(w, p, Head(w), e, short);
    } else {
      HandlePlaced(cfg, s, i, short);
      HandleDelivered(p, e, short);
    }
    HandleCode(p, e, short);
  }

  lemma WireId(cfg: Config, w: State, i: nat)
    requires Wired(cfg, w) && i < |w.wire|
    ensures w.wire[i].datagram.id == IdOf(w.wire[i].serial)
  {
  }

  lemma RepeatKeeps(w: State, p: Peer, head: Option<Op>, e: Sent, short: Pos)
    requires Repeats(p, e.datagram)
    ensures var q := Handle(p, e, short); q.executed == p.executed && Placed(w, q, head) == Placed(w, p, head)
  {
  }

  lemma HandleDelivered(p: Peer, e: Sent, short: Pos)
    requires !Repeats(p, e.datagram)
    ensures forall x | x in p.executed :: x in Handle(p, e, short).executed
  {
  }

  lemma HandleCode(p: Peer, e: Sent, short: Pos)
    ensures var q := Handle(p, e, short);
            q.last.Some? && q.last.value.code == Code(e.datagram.command) && q.last.value.id == e.datagram.id
  {
  }

  // --------------------------------------------------------------- the worker

  /** The worker's and the device's parts of the invariant. */
  ghost predicate Together(w: State, p: Peer, head: Option<Op>) {
    Owned(w, head) && CarriedOut(w, p) && Placed(w, p, head)
  }

  /** The request first in line is resolved, and the next has not begun. */
  lemma HeadMoved(cfg: Config, w: State, p: Peer, head: Option<Op>, v: State)
    requires Together(w, p, head) && Inv(cfg, v)
    requires v.requests == w.requests && v.inflight.None? && v.acked >= w.acked && (w.stopped ==> v.stopped)
    requires |v.resolved| > |w.resolved| && v.resolved[..|w.resolved|] == w.resolved
    requires forall e | e in v.wire :: e in w.wire || (e.owner.None? && v.stopped)
    requires forall op | op in v.queue && !op.Heartbeat? :: Progress(op) == 0
    requires v.resolved[|w.resolved|].outcome.Ok? ==> w.inflight.Some? && w.serial in p.executed
    requires forall e | e in w.wire && InFlight(w, e) :: e.owner.None? || e.owner.value == |w.resolved|
    ensures Together(v, p, Head(v))
  {
    hide Inv, DoneSoFar, Execute, Encode;
    HeadFirst(cfg, v);
    forall e | e in v.wire && e.owner.Some? && Succeeds(v, e.owner.value) && !InFlight(v, e) ensures e.serial in p.executed {
      assert e in w.wire;
      var c := e.owner.value;
      if c < |w.resolved| { assert v.resolved[c] == w.resolved[c]; }
    }
  }

  /** A transaction begins for the operation first in line, or a heartbeat. */
  lemma Launched(w: State, p: Peer, head: Option<Op>, v: State, e: Sent)
    requires Together(w, p, head) && w.inflight.None? && v.inflight.Some?
    requires v.requests == w.requests && v.resolved == w.resolved && v.acked == w.acked && v.stopped == w.stopped
    requires v.serial == w.serial + 1 && v.wire == w.wire + [e] && (p.last.Some? ==> p.last.value.of <= w.serial)
    requires e.serial == v.serial && e.owner == Owner(v.inflight.value.op)
    requires e.owner.Some? ==> e.owner.value == |w.resolved| < |w.requests|
    requires e.owner.None? ==> e.datagram.command.ReadRegister?
    ensures Together(v, p, head)
  {
    hide DoneSoFar, Execute;
    assert !Reached(w, p) && !Reached(v, p);
    forall x | x in v.wire && !InFlight(v, x) ensures x in w.wire {}
    if head.Some? {
      assert Serving(w, p, head.value) == Serving(v, p, head.value);
    }
  }

  /** Nothing is sent and nothing resolved: only numbers move on. */
  lemma Rests(w: State, p: Peer, head: Option<Op>, v: State)
    requires Together(w, p, head)
    requires v.requests == w.requests && v.resolved == w.resolved && v.acked >= w.acked && v.stopped == w.stopped
    requires v.wire == w.wire && !Flying(w) && !Flying(v) && v.inflight.None?
    requires forall e | e in w.wire && InFlight(w, e) :: e.owner.None?
    ensures Together(v, p, head)
  {
    hide DoneSoFar, Execute;
    if head.Some? {
      assert Serving(w, p, head.value) == Serving(v, p, head.value);
    }
  }

  /** Beginning a transaction, whether or not the socket takes it. */
  lemma SendTogether(cfg: Config, w: State, p: Peer, head: Option<Op>, op: Op, now: int, canSend: bool)
    requires Together(w, p, head) && Holding(w, Some(op)) && w.inflight.None? && !w.stopped
    requires p.last.Some? ==> p.last.value.of <= w.serial
    requires if op.Heartbeat? then head == FirstRequest(w.queue) else head == Some(op)
    requires forall o | o in w.queue && !o.Heartbeat? && !op.Heartbeat? :: Progress(o) == 0
    ensures var v := SendOp(cfg, w, op, SendOf(w.requests, op), now, canSend); Together(v, p, Head(v))
  {
    hide Together, Encode, Lockstep, InOrder, OthersFresh, AllSound, Transacting;
    var v := SendOp(cfg, w, op, SendOf(w.requests, op), now, canSend);
    SendKeeps(cfg, w, op, now, canSend);
    EncodeServes(cfg, w.requests, op);
    if !op.Heartbeat? { FirstInLine(w, op); }
    if v.inflight.Some? {
      assert op.Heartbeat? ==> v.inflight.value.sent.command.ReadRegister? by { HeartbeatReads(cfg, w.requests); }
      Launched(w, p, head, v, v.wire[|w.wire|]);
    } else if op.Heartbeat? {
      Rests(w, p, head, v);
    } else {
      HeadMoved(cfg, w, p, head, v);
    }
  }

  lemma HeartbeatReads(cfg: Config, requests: seq<Request>)
    ensures Encode(cfg, Heartbeat, SendOf(requests, Heartbeat)) == Some(ReadRegister([CONTROL_CHANNEL_PRIVILEGE]))
  {
  }

  lemma PumpTogether(cfg: Config, w: State, p: Peer, now: int, canSend: bool)
    requires Inv(cfg, w) && Together(w, p, Head(w)) && !w.stopped && (p.last.Some? ==> p.last.value.of <= w.serial)
    ensures var v := Pump(cfg, w, now, canSend); Together(v, p, Head(v))
  {
    hide Together, Encode, Lockstep, InOrder, AllSound, Transacting, SendOp, SendOf;
    if w.inflight.None? && w.queue != [] {
      FrontTaken(w);
      HeadFirst(cfg, w);
      var u := w.(queue := w.queue[1..], payloads := w.payloads[1..]);
      SameTogether(w, p, Head(w), u);
      RestFresh(cfg, w);
      SendTogether(cfg, u, p, Head(w), w.queue[0], now, canSend);
    } else if w.inflight.None? {
      assert Lockstep(w);
      EmptyQueue(w);
    }
  }

  lemma {:induction false} Listed(ops: seq<Op>, op: Op) returns (k: nat)
    requires op in ops && !op.Heartbeat?
    ensures k < |HandlesOf(ops)| && HandlesOf(ops)[k] == op.handle
  {
    if ops[0] == op {
      k := 0;
    } else {
      var j := Listed(ops[1..], op);
      k := j + |HandleOf(ops[0])|;
    }
  }

  /** Behind the first in line nothing has begun. */
  lemma RestFresh(cfg: Config, w: State)
    requires Inv(cfg, w)
    ensures Flying(w) ==> forall o | o in w.queue && !o.Heartbeat? :: Progress(o) == 0
    ensures w.inflight.None? && w.queue != [] && !w.queue[0].Heartbeat? ==>
              forall o | o in w.queue[1..] && !o.Heartbeat? :: Progress(o) == 0
  {
    hide HandlesOf, Lockstep, Transacting, AllSound;
    if Flying(w) {
      forall o | o in w.queue && !o.Heartbeat? ensures Progress(o) == 0 {
        var k := Listed(w.queue, o);
        assert PendingHandles(w.queue, Current(w))[k + 1] == o.handle;
      }
    } else if w.inflight.None? && w.queue != [] && !w.queue[0].Heartbeat? {
      assert w.queue == [w.queue[0]] + w.queue[1..];
      forall o | o in w.queue[1..] && !o.Heartbeat? ensures Progress(o) == 0 {
        var k := Listed(w.queue[1..], o);
        HandlesSplit(w.queue);
        assert PendingHandles(w.queue, Current(w))[k + 1] == o.handle;
      }
    }
  }

  lemma HandlesSplit(ops: seq<Op>)
    requires ops != []
    ensures HandlesOf(ops) == HandleOf(ops[0]) + HandlesOf(ops[1..])
  {
  }

  /** Only the records and the transaction in flight matter, not the queues. */
  lemma SameTogether(w: State, p: Peer, head: Option<Op>, v: State)
    requires Together(w, p, head)
    requires v.requests == w.requests && v.resolved == w.resolved && v.acked == w.acked && v.stopped == w.stopped
    requires v.wire == w.wire && v.serial == w.serial && v.inflight == w.inflight
    ensures Together(v, p, head)
  {
  }

  lemma SubmitTogether(cfg: Config, w: State, p: Peer, request: Request)
    requires Inv(cfg, w) && Together(w, p, Head(w))
    ensures var v := Submit(w, request); Together(v, p, Head(v))
  {
    hide DoneSoFar, Execute, Lockstep, InOrder, AllSound, Transacting, Encode, Serves;
    var v := Submit(w, request);
    SubmitKeeps(cfg, w, request);
    HeadFirst(cfg, w);
    HeadFirst(cfg, v);
    MoreRequests(w, request);
    if w.stopped {
      assert Head(v).None? && Head(w).None?;
    } else if Head(w).Some? {
      assert Head(v) == Head(w);
      assert v.requests[Head(w).value.handle] == w.requests[Head(w).value.handle];
    } else {
      assert Head(v) == Some(OpFor(request, |w.requests|));
      assert !Flying(v);
    }
  }

  lemma HeartbeatTogether(cfg: Config, w: State, p: Peer, now: int)
    requires Inv(cfg, w) && Together(w, p, Head(w))
    ensures var v := CheckHeartbeat(cfg, w, now); Together(v, p, Head(v))
  {
    hide Together, Lockstep, InOrder, AllSound, Transacting, Encode, OthersFresh;
    var v := CheckHeartbeat(cfg, w, now);
    assert Head(v) == Head(w);
    SameTogether(w, p, Head(w), v);
  }

  /** A retry repeats a datagram already sent. */
  lemma RetryTogether(cfg: Config, w: State, p: Peer, v: State)
    requires Inv(cfg, w) && OwnDatagram(w) && Together(w, p, Head(w))
    requires w.inflight.Some? && v == w.(inflight := v.inflight, wire := v.wire) && v.inflight.Some?
    requires v.inflight.value.op == w.inflight.value.op && v.inflight.value.sent == w.inflight.value.sent
    requires v.wire == w.wire || v.wire == w.wire + [Sent(w.serial, Owner(w.inflight.value.op), w.inflight.value.sent)]
    ensures Together(v, p, Head(v))
  {
    hide DoneSoFar, Execute, Lockstep, InOrder, AllSound, Transacting, Encode, OthersFresh;
    assert forall e | e in v.wire :: e in w.wire;
    assert Head(v) == Head(w);
    if Head(w).Some? {
      assert Serving(v, p, Head(w).value) == Serving(w, p, Head(w).value);
    }
  }

  /** What is in flight belongs to the first in line, or to a heartbeat. */
  lemma FlightOwner(cfg: Config, w: State)
    requires Inv(cfg, w) && OwnDatagram(w)
    ensures forall e | e in w.wire && InFlight(w, e) :: e.owner.None? || (Flying(w) && e.owner.value == |w.resolved|)
  {
    hide Lockstep, AllSound, Transacting, Encode, OthersFresh;
    if Flying(w) { FirstInLine(w, w.inflight.value.op); }
  }

  lemma DeadlineTogether(cfg: Config, w: State, p: Peer, now: int, canSend: bool)
    requires Inv(cfg, w) && Wired(cfg, w) && Together(w, p, Head(w)) && !w.stopped
    ensures var v := CheckDeadline(cfg, w, now, canSend); Together(v, p, Head(v))
  {
    hide Together, Holding, Encode, Orderly, Counted;
    var v := CheckDeadline(cfg, w, now, canSend);
    if w.inflight.Some? && now >= w.inflight.value.deadline {
      FlightOwner(cfg, w);
      if v.inflight.Some? {
        RetryTogether(cfg, w, p, v);
      } else if w.inflight.value.op.Heartbeat? {
        Rests(w, p, Head(w), v);
      } else {
        DeadlineKeeps(cfg, w, now, canSend);
        RestFresh(cfg, w);
        HeadMoved(cfg, w, p, Head(w), v);
      }
    }
  }

  lemma {:induction false} FailAllRecords(s: State, ops: seq<Op>, error: Error)
    ensures var t := FailAll(s, ops, error);
            && t == s.(resolved := t.resolved)
            && |t.resolved| >= |s.resolved| && t.resolved[..|s.resolved|] == s.resolved
            && (forall r | r in t.resolved[|s.resolved|..] :: r.outcome.Failed?)
    decreases |ops|
  {
    if ops != [] {
      var a := Fail(s, ops[0], error);
      FailAllRecords(a, ops[1..], error);
      var t := FailAll(s, ops, error);
      assert t.resolved[..|s.resolved|] == t.resolved[..|a.resolved|][..|s.resolved|];
      forall r | r in t.resolved[|s.resolved|..] ensures r.outcome.Failed? {
        if r !in t.resolved[|a.resolved|..] {
          assert r == a.resolved[|s.resolved|] == t.resolved[|s.resolved|];
        }
      }
    }
  }

  lemma ShutdownTogether(cfg: Config, w: State, p: Peer, canSend: bool)
    requires Inv(cfg, w) && Wired(cfg, w) && Together(w, p, Head(w))
    ensures var v := Shutdown(w, canSend); Together(v, p, Head(v))
  {
    hide Together, Holding, Encode, Orderly, Counted, Transacting;
    if !w.stopped {
      var a := if w.inflight.Some? then Fail(w.(inflight := None), w.inflight.value.op, EndError(w)) else w;
      FailAllRecords(a.(queue := [], payloads := [], stopped := true), w.queue, EndError(w));
      var v := Shutdown(w, canSend);
      ShutdownKeeps(cfg, w, canSend);
      FlightOwner(cfg, w);
      if |v.resolved| > |w.resolved| {
        assert v.resolved[|w.resolved|].outcome.Failed?;
        HeadMoved(cfg, w, p, Head(w), v);
      } else {
        HeadFirst(cfg, v);
        HeadFirst(cfg, w);
        assert v.resolved == w.resolved && Head(w).None?;
        EndsIdle(cfg, w, p, v);
      }
    }
  }

  /** The end with no request left: only the release follows. */
  lemma EndsIdle(cfg: Config, w: State, p: Peer, v: State)
    requires Together(w, p, None) && v.stopped && v.inflight.None? && v.queue == []
    requires v.resolved == w.resolved && v.requests == w.requests && |w.resolved| == |w.requests| && v.acked == w.acked
    requires forall e | e in v.wire :: e in w.wire || e.owner.None?
    requires forall e | e in w.wire && InFlight(w, e) :: e.owner.None?
    ensures Together(v, p, Head(v))
  {
    hide DoneSoFar, Execute;
    assert Head(v).None?;
  }

  // ------------------------------------------------------------ acknowledges

  /** An acknowledge the worker accepts answers the transaction in flight. */
  lemma Accepted(cfg: Config, s: System, i: nat)
    requires LinkInv(cfg, s) && Fresh(s.worker, LAST_ID) && s.ackPos <= i < |s.peer.replies|
    requires s.worker.inflight.Some? && s.peer.replies[i].ack.ackId == s.worker.inflight.value.id
    ensures s.peer.replies[i].of == s.worker.serial == s.worker.inflight.value.serial
    ensures s.peer.last.Some? && s.peer.last.value.of == s.worker.serial && s.peer.replies[i].ack == s.peer.last.value.ack
    ensures s.worker.serial in s.peer.executed && s.worker.acked <= s.worker.serial
  {
    hide Owned, CarriedOut, Placed, Lockstep, InOrder, AllSound, OthersFresh, Encode, Counted;
    var w, p, r := s.worker, s.peer, s.peer.replies[i];
    assert r in p.replies;
    assert w.wire[s.commandPos] in w.wire && p.last.value.of <= w.serial;
    SameId(r.of, w.serial);
  }

  /** The chunk in flight is acknowledged: done, or one chunk further. */
  lemma AnswerCarried(cfg: Config, w: State, p: Peer)
    requires Inv(cfg, w) && Together(w, p, Head(w)) && Reached(w, p) && !IsError(p.last.value.ack.status)
    ensures var op := w.inflight.value.op;
            && op.handle < |w.requests| && p.client == Some(op.handle)
            && Carried(p.maxPacket, p.base, p.mem, w.requests[op.handle], Answered(cfg, op, p.last.value.ack.payload))
  {
    hide DoneSoFar, Execute, Encode, Lockstep, InOrder, AllSound, OthersFresh, Answered, Carried, Owned, CarriedOut;
    var op := w.inflight.value.op;
    assert Serving(w, p, op);
    ChunkCarried(cfg, p.maxPacket, p.base, p.last.value.before, w.requests, op, w.inflight.value.sent, p.last.value.short);
  }

  /** The worker has taken the acknowledge; the next chunk is first in line. */
  lemma NextTogether(cfg: Config, w: State, p: Peer, next: Op, u: State)
    requires Inv(cfg, w) && Wired(cfg, w) && Together(w, p, Head(w)) && Reached(w, p) && w.serial in p.executed
    requires u == w.(inflight := None, acked := w.serial)
    requires Serves(w.requests, next) && !next.Heartbeat? && next.handle == w.inflight.value.op.handle && Progress(next) > 0
    requires p.client == Some(next.handle) && DoneSoFar(p.maxPacket, p.base, p.mem, w.requests[next.handle], next)
    ensures Together(u, p, Some(next))
  {
    hide DoneSoFar, Execute, Encode, Lockstep, InOrder, AllSound, OthersFresh;
    assert forall e | e in u.wire :: e.serial <= u.acked;
    assert !Reached(u, p);
    assert Serving(u, p, next);
  }

  lemma ContinueTogether(cfg: Config, u: State, p: Peer, next: Op, now: int, canSend: bool)
    requires Holding(u, Some(next)) && u.inflight.None? && !u.stopped && !next.Heartbeat?
    requires Together(u, p, Some(next)) && (p.last.Some? ==> p.last.value.of <= u.serial)
    requires forall o | o in u.queue && !o.Heartbeat? :: Progress(o) == 0
    ensures var v := ContinueOp(cfg, u, next, SendOf(u.requests, next), now, canSend); Together(v, p, Head(v))
  {
    hide Together, Encode, InOrder, AllSound, OthersFresh, SendOp, SendOf;
    if u.queue != [] && u.queue[0].Heartbeat? && u.payloads != [] {
      var v := ContinueOp(cfg, u, next, SendOf(u.requests, next), now, canSend);
      assert Head(v) == Some(next);
      SameTogether(u, p, Some(next), v);
    } else {
      SendTogether(cfg, u, p, Some(next), next, now, canSend);
    }
  }

  lemma AckTogether(cfg: Config, w: State, p: Peer, now: int, canSend: bool)
    requires Inv(cfg, w) && Wired(cfg, w) && Together(w, p, Head(w)) && !w.stopped && w.inflight.Some?
    requires p.last.Some? && p.last.value.of == w.serial && w.serial in p.executed && w.acked <= w.serial
    ensures var u := w.(inflight := None, acked := w.serial);
            var v := OnAck(cfg, u, w.inflight.value.op, p.last.value.ack, now, canSend);
            Together(v, p, Head(v))
  {
    hide Together, Lockstep, InOrder, AllSound, OthersFresh, Encode, Answered, Carried, Orderly, Counted, ContinueOp, Perform, SendOf;
    var op, ack := w.inflight.value.op, p.last.value.ack;
    var u := w.(inflight := None, acked := w.serial);
    var v := OnAck(cfg, u, op, ack, now, canSend);
    SameQueues(w, u, Some(op));
    AckKeeps(cfg, u, op, ack, now, canSend);
    FlightOwner(cfg, w);
    AnsweredServes(cfg, w.requests, op, ack.payload);
    if op.Heartbeat? {
      Rests(w, p, Head(w), v);
    } else {
      RestFresh(cfg, w);
      if !IsError(ack.status) && ack.answer == ExpectedAck(op) && Answered(cfg, op, ack.payload).More? {
        var next := Answered(cfg, op, ack.payload).op;
        AnswerCarried(cfg, w, p);
        MoreCarried(p, w.requests[op.handle], Answered(cfg, op, ack.payload));
        NextTogether(cfg, w, p, next, u);
        NextHolds(u, op, next);
        ContinueTogether(cfg, u, p, next, now, canSend);
      } else {
        HeadMoved(cfg, w, p, Head(w), v);
      }
    }
  }

  lemma MoreCarried(p: Peer, request: Request, answer: Answer)
    requires Carried(p.maxPacket, p.base, p.mem, request, answer) && answer.More?
    ensures DoneSoFar(p.maxPacket, p.base, p.mem, request, answer.op)
  {
  }

  // -------------------------------------------------------------------- runs

  lemma SerialBound(cfg: Config, s: System)
    requires LinkInv(cfg, s)
    ensures s.peer.last.Some? ==> s.peer.last.value.of <= s.worker.serial
  {
    hide Inv, Owned, CarriedOut, Placed, Replied, Counted, OwnDatagram;
  }

  lemma StillDelivered(w: State, p: Peer, commandPos: nat, ackPos: nat, v: State)
    requires Delivered(w, p, commandPos, ackPos) && w.wire <= v.wire && v.acked == w.acked
    ensures Delivered(v, p, commandPos, ackPos)
  {
  }

  lemma WireGrows(cfg: Config, w: State, e: Timed)
    ensures w.wire <= Step(cfg, w, e).wire
    ensures !e.event.Received? ==> Step(cfg, w, e).acked == w.acked
  {
    hide Encode, Answered;
    if e.event.Stopped? && !w.stopped {
      var a := if w.inflight.Some? then Fail(w.(inflight := None), w.inflight.value.op, EndError(w)) else w;
      FailAllRecords(a.(queue := [], payloads := [], stopped := true), w.queue, EndError(w));
    }
  }

  lemma WorksKeeps(cfg: Config, s: System, e: Timed)
    requires LinkInv(cfg, s) && !e.event.Received?
    ensures LinkInv(cfg, Next(cfg, s, Works(e)))
  {
    hide Inv, Wired, Owned, CarriedOut, Placed, Replied, Delivered, CheckDeadline, CheckHeartbeat, Pump, Submit, Shutdown;
    var w, p := s.worker, s.peer;
    StepKeeps(cfg, w, e);
    StepWired(cfg, w, e);
    WireGrows(cfg, w, e);
    StillDelivered(w, p, s.commandPos, s.ackPos, Step(cfg, w, e));
    SerialBound(cfg, s);
    match e.event
    case Submitted(request) => SubmitTogether(cfg, w, p, request);
    case Stopped => ShutdownTogether(cfg, w, p, e.canSend);
    case Deadlines => if !w.stopped { DeadlineTogether(cfg, w, p, e.now, e.canSend); }
    case Heartbeats => if !w.stopped { HeartbeatTogether(cfg, w, p, e.now); }
    case Pumped => if !w.stopped { PumpTogether(cfg, w, p, e.now, e.canSend); }
  }

  lemma AckKeepsLink(cfg: Config, s: System, i: nat, now: int, canSend: bool)
    requires LinkInv(cfg, s) && Fresh(s.worker, LAST_ID) && s.ackPos <= i < |s.peer.replies|
    ensures LinkInv(cfg, Next(cfg, s, AckArrives(i, now, canSend)))
  {
    hide Inv, Wired, Owned, CarriedOut, Placed, Replied, OnAck;
    var w, p, r := s.worker, s.peer, s.peer.replies[i];
    var e := Timed(Received(Some(r.ack)), now, canSend);
    var v := Step(cfg, w, e);
    StepKeeps(cfg, w, e);
    StepWired(cfg, w, e);
    WireGrows(cfg, w, e);
    if !w.stopped && w.inflight.Some? && r.ack.ackId == w.inflight.value.id {
      Accepted(cfg, s, i);
      if PendingMs(r.ack).Some? {
        WiredOwn(cfg, w);
        RetryTogether(cfg, w, p, v);
      } else {
        AckTogether(cfg, w, p, now, canSend);
        AckedNow(cfg, w.(inflight := None, acked := w.serial), w.inflight.value.op, r.ack, now, canSend);
        RepliesOrdered(p, i);
      }
    }
  }

  lemma WiredOwn(cfg: Config, w: State)
    requires Wired(cfg, w)
    ensures OwnDatagram(w)
  {
  }

  lemma AckedNow(cfg: Config, u: State, op: Op, ack: Ack, now: int, canSend: bool)
    requires u.inflight.None?
    ensures OnAck(cfg, u, op, ack, now, canSend).acked == u.acked
  {
    hide Answered, Encode;
  }

  lemma RepliesOrdered(p: Peer, i: nat)
    requires Replied(p) && i < |p.replies|
    ensures forall j | i <= j < |p.replies| :: p.replies[j].of >= p.replies[i].of
  {
  }

  lemma NextKeeps(cfg: Config, s: System, h: Happening)
    requires LinkInv(cfg, s) && Fresh(s.worker, LAST_ID)
    ensures LinkInv(cfg, Next(cfg, s, h))
  {
    hide LinkInv, Step, Handle;
    if Possible(s, h) {
      match h
      case Works(e) => WorksKeeps(cfg, s, e);
      case CommandArrives(i, short) => CommandKeeps(cfg, s, i, short);
      case AckArrives(i, now, canSend) => AckKeepsLink(cfg, s, i, now, canSend);
    }
  }

  lemma StartInv(cfg: Config, heartbeatDue: int, maxPacket: Option<nat>, mem: Bytes)
    requires |mem| < ADDRESS_SPACE
    ensures LinkInv(cfg, Start(heartbeatDue, maxPacket, mem))
  {
    hide Inv, Wired;
    Begins(cfg, heartbeatDue);
    StartOnward(cfg, heartbeatDue, maxPacket, mem);
  }

  lemma {:induction false} EveryLinkedRun(cfg: Config, heartbeatDue: int, maxPacket: Option<nat>, mem: Bytes, hs: seq<Happening>)
    requires |mem| < ADDRESS_SPACE && StaysFresh(cfg, Start(heartbeatDue, maxPacket, mem), hs, LAST_ID)
    ensures LinkInv(cfg, After(cfg, Start(heartbeatDue, maxPacket, mem), hs))
    decreases |hs|
  {
    hide LinkInv, Next;
    if hs == [] {
      StartInv(cfg, heartbeatDue, maxPacket, mem);
    } else {
      EveryLinkedRun(cfg, heartbeatDue, maxPacket, mem, hs[..|hs| - 1]);
      NextKeeps(cfg, After(cfg, Start(heartbeatDue, maxPacket, mem), hs[..|hs| - 1]), hs[|hs| - 1]);
    }
  }

  /** An acknowledge of an earlier transaction never completes a later one: what
      the worker accepts answers the transaction in flight, carried out already. */
  lemma OwnAcknowledge(cfg: Config, heartbeatDue: int, maxPacket: Option<nat>, mem: Bytes, hs: seq<Happening>, i: nat)
    requires |mem| < ADDRESS_SPACE && StaysFresh(cfg, Start(heartbeatDue, maxPacket, mem), hs, LAST_ID)
    requires var s := After(cfg, Start(heartbeatDue, maxPacket, mem), hs);
             s.ackPos <= i < |s.peer.replies| && s.worker.inflight.Some?
             && s.peer.replies[i].ack.ackId == s.worker.inflight.value.id
    ensures var s := After(cfg, Start(heartbeatDue, maxPacket, mem), hs);
            s.peer.replies[i].of == s.worker.inflight.value.serial && s.worker.inflight.value.serial in s.peer.executed
  {
    hide LinkInv, After, Start;
    EveryLinkedRun(cfg, heartbeatDue, maxPacket, mem, hs);
    Accepted(cfg, After(cfg, Start(heartbeatDue, maxPacket, mem), hs), i);
  }

  /** Each transaction of a request that succeeded was carried out exactly once. */
  lemma ExactlyOnce(cfg: Config, heartbeatDue: int, maxPacket: Option<nat>, mem: Bytes, hs: seq<Happening>, e: Sent)
    requires |mem| < ADDRESS_SPACE && StaysFresh(cfg, Start(heartbeatDue, maxPacket, mem), hs, LAST_ID)
    requires var w := After(cfg, Start(heartbeatDue, maxPacket, mem), hs).worker;
             e in w.wire && e.owner.Some? && e.owner.value < |w.resolved| && w.resolved[e.owner.value].outcome.Ok?
    ensures multiset(After(cfg, Start(heartbeatDue, maxPacket, mem), hs).peer.executed)[e.serial] == 1
  {
    hide Inv, Wired, Replied, Delivered, Owned, Placed, After, Start;
    var s := After(cfg, Start(heartbeatDue, maxPacket, mem), hs);
    EveryLinkedRun(cfg, heartbeatDue, maxPacket, mem, hs);
    if InFlight(s.worker, e) {
      WiredOwn(cfg, s.worker);
      FlightOwner(cfg, s.worker);
    }
    OnceIn(s.peer.executed, e.serial);
  }

  lemma {:induction false} OnceIn(xs: seq<nat>, x: nat)
    requires Increasing(xs)
    ensures multiset(xs)[x] == if x in xs then 1 else 0
    decreases |xs|
  {
    if xs != [] {
      var init, last := xs[..|xs| - 1], xs[|xs| - 1];
      assert xs == init + [last] && multiset(xs) == multiset(init) + multiset{last};
      OnceIn(init, x);
    }
  }

  /** The moment a request succeeds, the device was last serving that request, and
      since it began with it the device has done, and the worker has been
      answered, exactly what the request means in one step; for every split into
      chunks, with concatenated registers or without. */
  lemma OkMeansPerformed(cfg: Config, heartbeatDue: int, maxPacket: Option<nat>, mem: Bytes, hs: seq<Happening>, h: Happening)
    requires |mem| < ADDRESS_SPACE && StaysFresh(cfg, Start(heartbeatDue, maxPacket, mem), hs, LAST_ID)
    ensures var s := After(cfg, Start(heartbeatDue, maxPacket, mem), hs);
            var t := Next(cfg, s, h);
            forall k | |s.worker.resolved| <= k < |t.worker.resolved| && t.worker.resolved[k].outcome.Ok? ::
              && k < |t.worker.requests| && t.peer.client == Some(k)
              && Perform(t.peer.maxPacket, t.peer.base, t.worker.requests[k])
                 == Some(Performed(t.peer.mem, t.worker.resolved[k].outcome.value))
  {
    hide LinkInv, After, Start, Next;
    EveryLinkedRun(cfg, heartbeatDue, maxPacket, mem, hs);
    NextPerforms(cfg, After(cfg, Start(heartbeatDue, maxPacket, mem), hs), h);
  }

  lemma NextPerforms(cfg: Config, s: System, h: Happening)
    requires LinkInv(cfg, s) && Fresh(s.worker, LAST_ID)
    ensures var t := Next(cfg, s, h);
            forall k | |s.worker.resolved| <= k < |t.worker.resolved| && t.worker.resolved[k].outcome.Ok? ::
              && k < |t.worker.requests| && t.peer.client == Some(k)
              && Perform(t.peer.maxPacket, t.peer.base, t.worker.requests[k])
                 == Some(Performed(t.peer.mem, t.worker.resolved[k].outcome.value))
  {
    hide LinkInv, Handle, Step, Perform;
    if Possible(s, h) {
      match h
      case Works(e) => OthersFail(cfg, s.worker, e);
      case CommandArrives(_, _) =>
      case AckArrives(i, now, canSend) => AckPerforms(cfg, s, i, now, canSend);
    }
  }

  /** No request succeeds but by an acknowledge. */
  lemma OthersFail(cfg: Config, w: State, e: Timed)
    requires !e.event.Received?
    ensures var v := Step(cfg, w, e);
            forall k | |w.resolved| <= k < |v.resolved| :: v.resolved[k].outcome.Failed?
  {
    hide Encode;
    if e.event.Stopped? && !w.stopped {
      var a := if w.inflight.Some? then Fail(w.(inflight := None), w.inflight.value.op, EndError(w)) else w;
      FailAllRecords(a.(queue := [], payloads := [], stopped := true), w.queue, EndError(w));
      var v := Step(cfg, w, e);
      forall k | |w.resolved| <= k < |v.resolved| ensures v.resolved[k].outcome.Failed? {
        if k >= |a.resolved| {
          assert v.resolved[k] in v.resolved[|a.resolved|..];
        } else {
          assert v.resolved[k] == v.resolved[..|a.resolved|][k] == a.resolved[k];
        }
      }
    }
  }

  lemma AckPerforms(cfg: Config, s: System, i: nat, now: int, canSend: bool)
    requires LinkInv(cfg, s) && Fresh(s.worker, LAST_ID) && s.ackPos <= i < |s.peer.replies|
    ensures var p, v := s.peer, Step(cfg, s.worker, Timed(Received(Some(s.peer.replies[i].ack)), now, canSend));
            forall k | |s.worker.resolved| <= k < |v.resolved| && v.resolved[k].outcome.Ok? ::
              && k < |v.requests| && p.client == Some(k)
              && Perform(p.maxPacket, p.base, v.requests[k]) == Some(Performed(p.mem, v.resolved[k].outcome.value))
  {
    hide Wired, Owned, CarriedOut, Placed, Replied, Delivered, Increasing, Lockstep, AllSound, OthersFresh, Encode, Answered, SendOp, Perform;
    var w, p, ack := s.worker, s.peer, s.peer.replies[i].ack;
    if !w.stopped && w.inflight.Some? && ack.ackId == w.inflight.value.id && PendingMs(ack).None? && Flying(w) {
      Accepted(cfg, s, i);
      var op := w.inflight.value.op;
      FirstInLine(w, op);
      OthersContinue(cfg, w.(inflight := None, acked := w.serial), op, ack, now, canSend);
      if !IsError(ack.status) && ack.answer == ExpectedAck(op) && Answered(cfg, op, ack.payload).Done? {
        AnswerCarried(cfg, w, p);
        DoneCarried(p, w.requests[op.handle], Answered(cfg, op, ack.payload));
      }
    } else if !w.stopped && w.inflight.Some? && !Flying(w) {
      AnsweredServes(cfg, w.requests, Heartbeat, ack.payload);
    }
  }

  lemma DoneCarried(p: Peer, request: Request, answer: Answer)
    requires Carried(p.maxPacket, p.base, p.mem, request, answer) && answer.Done?
    ensures Perform(p.maxPacket, p.base, request) == Some(Performed(p.mem, answer.value))
  {
  }

  lemma OthersContinue(cfg: Config, u: State, op: Op, ack: Ack, now: int, canSend: bool)
    requires u.inflight.None? && !op.Heartbeat?
    ensures var v := OnAck(cfg, u, op, ack, now, canSend);
            && v.requests == u.requests && |v.resolved| <= |u.resolved| + 1
            && forall k | |u.resolved| <= k < |v.resolved| ::
                 v.resolved[k].outcome.Failed? ||
                 (!IsError(ack.status) && ack.answer == ExpectedAck(op) && Answered(cfg, op, ack.payload).Done?
                  && v.resolved[k] == Resolution(op.handle, Ok(Answered(cfg, op, ack.payload).value)))
  {
    hide Answered, Encode;
  }

  // ----------------------------------------------------------- at most once

  /** The device never goes back: what holds however many ids were used. */
  ghost predicate Onward(w: State, p: Peer, commandPos: nat) {
    && Increasing(p.executed) && commandPos <= |w.wire|
    && (p.last.None? ==> p.executed == [])
    && (p.last.Some? ==>
          && p.executed != [] && p.executed[|p.executed| - 1] == p.last.value.of
          && exists i | 0 <= i <= commandPos < |w.wire| :: AnsweredFor(p.last.value, w.wire[i]))
  }

  predicate AnsweredFor(last: Last, e: Sent) {
    e.serial == last.of && last.code == Code(e.datagram.command) && last.id == e.datagram.id
  }

  lemma HandleOnward(cfg: Config, w: State, p: Peer, commandPos: nat, k: nat, short: Pos)
    requires Wired(cfg, w) && Onward(w, p, commandPos) && commandPos <= k < |w.wire|
    ensures Onward(w, Handle(p, w.wire[k], short), k)
  {
    hide Execute, OwnDatagram, Counted;
    var e, q := w.wire[k], Handle(p, w.wire[k], short);
    if p.last.Some? {
      var i :| 0 <= i <= commandPos && AnsweredFor(p.last.value, w.wire[i]);
      assert w.wire[i].serial <= e.serial;
      if e.serial == p.last.value.of { assert e == w.wire[i]; }
    }
    if !Repeats(p, e.datagram) { assert AnsweredFor(q.last.value, w.wire[k]); }
  }

  lemma {:induction false} EveryRunOnward(cfg: Config, heartbeatDue: int, maxPacket: Option<nat>, mem: Bytes, hs: seq<Happening>)
    ensures var s := After(cfg, Start(heartbeatDue, maxPacket, mem), hs);
            Increasing(s.peer.executed) && Inv(cfg, s.worker) && Wired(cfg, s.worker) && Onward(s.worker, s.peer, s.commandPos)
    decreases |hs|
  {
    hide Inv, Wired, Onward, Handle, Step, Increasing;
    if hs == [] {
      Begins(cfg, heartbeatDue);
      StartOnward(cfg, heartbeatDue, maxPacket, mem);
    } else {
      EveryRunOnward(cfg, heartbeatDue, maxPacket, mem, hs[..|hs| - 1]);
      var s, h := After(cfg, Start(heartbeatDue, maxPacket, mem), hs[..|hs| - 1]), hs[|hs| - 1];
      if Possible(s, h) {
        match h
        case Works(e) => WorkerOnward(cfg, s, e);
        case CommandArrives(i, short) =>
          HandleOnward(cfg, s.worker, s.peer, s.commandPos, i, short);
          OnwardMeans(s.worker, Handle(s.peer, s.worker.wire[i], short), i);
        case AckArrives(i, now, canSend) => WorkerOnward(cfg, s, Timed(Received(Some(s.peer.replies[i].ack)), now, canSend));
      }
    }
  }

  lemma OnwardMeans(w: State, p: Peer, commandPos: nat)
    requires Onward(w, p, commandPos)
    ensures Increasing(p.executed)
  {
  }

  lemma StartOnward(cfg: Config, heartbeatDue: int, maxPacket: Option<nat>, mem: Bytes)
    ensures var s := Start(heartbeatDue, maxPacket, mem);
            Wired(cfg, s.worker) && Onward(s.worker, s.peer, s.commandPos) && Increasing(s.peer.executed)
  {
  }

  lemma WorkerOnward(cfg: Config, s: System, e: Timed)
    requires Inv(cfg, s.worker) && Wired(cfg, s.worker) && Onward(s.worker, s.peer, s.commandPos)
    ensures var v := Step(cfg, s.worker, e); Inv(cfg, v) && Wired(cfg, v) && Onward(v, s.peer, s.commandPos)
  {
    hide Inv, Wired, Step, Increasing;
    StepKeeps(cfg, s.worker, e);
    StepWired(cfg, s.worker, e);
    WireGrows(cfg, s.worker, e);
    var v := Step(cfg, s.worker, e);
    if s.peer.last.Some? {
      var i :| 0 <= i <= s.commandPos && AnsweredFor(s.peer.last.value, s.worker.wire[i]);
      assert AnsweredFor(s.peer.last.value, v.wire[i]);
    }
  }

  /** Whatever is lost or repeated, and however many transactions were begun, none
      is carried out twice. */
  lemma AtMostOnce(cfg: Config, heartbeatDue: int, maxPacket: Option<nat>, mem: Bytes, hs: seq<Happening>, serial: nat)
    ensures multiset(After(cfg, Start(heartbeatDue, maxPacket, mem), hs).peer.executed)[serial] <= 1
  {
    hide After, Start, Inv, Wired, Onward;
    EveryRunOnward(cfg, heartbeatDue, maxPacket, mem, hs);
    OnceIn(After(cfg, Start(heartbeatDue, maxPacket, mem), hs).peer.executed, serial);
  }
}
