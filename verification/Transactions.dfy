/** What a transaction of the control worker can cost: how often its datagram is
    sent, and how long PENDING_ACKs can keep it open. */
module Transactions {
  import opened Gvsp
  import opened Gvcp
  import opened Worker
  import opened WorkerRuns

  // ------------------------------------------------------------ on the wire

  function CountOf(wire: seq<Sent>, serial: nat): nat
    decreases |wire|
  {
    if wire == [] then 0
    else CountOf(wire[..|wire| - 1], serial) + if wire[|wire| - 1].serial == serial then 1 else 0
  }

  /** Transactions follow one another on the wire, each repeating one datagram
      under its own id and for one request. */
  ghost predicate Orderly(wire: seq<Sent>, serial: nat) {
    && (forall i | 0 <= i < |wire| :: wire[i].serial <= serial && wire[i].datagram.id == IdOf(wire[i].serial))
    && (forall i, j | 0 <= i < j < |wire| :: wire[i].serial <= wire[j].serial)
    && (forall i, j | 0 <= i < |wire| && 0 <= j < |wire| && wire[i].serial == wire[j].serial :: wire[i] == wire[j])
  }

  /** What the transaction in flight has sent is its own datagram. */
  ghost predicate OwnDatagram(s: State) {
    s.inflight.Some? ==>
      var i := s.inflight.value;
      && i.serial == s.serial && Sent(i.serial, Owner(i.op), i.sent) in s.wire
      && forall e | e in s.wire && e.serial == s.serial :: e == Sent(i.serial, Owner(i.op), i.sent)
  }

  ghost predicate Counted(cfg: Config, s: State) {
    && (forall n: nat :: CountOf(s.wire, n) <= cfg.retries + 1)
    && (s.inflight.Some? ==>
          s.inflight.value.triesLeft <= cfg.retries
          && CountOf(s.wire, s.serial) + s.inflight.value.triesLeft <= cfg.retries + 1)
  }

  ghost predicate Wired(cfg: Config, s: State) { Orderly(s.wire, s.serial) && OwnDatagram(s) && Counted(cfg, s) }

  lemma CountAppend(wire: seq<Sent>, e: Sent, n: nat)
    ensures CountOf(wire + [e], n) == CountOf(wire, n) + if e.serial == n then 1 else 0
  {
    assert (wire + [e])[..|wire|] == wire;
  }

  lemma {:induction false} CountNone(wire: seq<Sent>, n: nat)
    requires forall e | e in wire :: e.serial < n
    ensures CountOf(wire, n) == 0
    decreases |wire|
  {
    if wire != [] { CountNone(wire[..|wire| - 1], n); }
  }

  /** A datagram follows on the wire: of a new transaction, or the latest's again. */
  lemma Appended(wire: seq<Sent>, serial: nat, e: Sent)
    requires Orderly(wire, serial) && e.serial >= serial && e.datagram.id == IdOf(e.serial)
    requires forall x | x in wire && x.serial == e.serial :: x == e
    ensures Orderly(wire + [e], e.serial)
  {
    var w := wire + [e];
    forall i | 0 <= i < |w| ensures w[i].serial <= e.serial && (w[i].serial == e.serial ==> w[i] == e) {
      if i < |wire| { assert w[i] in wire; }
    }
  }

  lemma CountAppends(wire: seq<Sent>, e: Sent, limit: nat)
    requires (forall n: nat :: CountOf(wire, n) <= limit) && CountOf(wire, e.serial) < limit
    ensures forall n: nat :: CountOf(wire + [e], n) <= limit
    ensures CountOf(wire + [e], e.serial) == CountOf(wire, e.serial) + 1
  {
    forall n: nat ensures CountOf(wire + [e], n) <= limit { CountAppend(wire, e, n); }
    CountAppend(wire, e, e.serial);
  }

  lemma NewOnWire(wire: seq<Sent>, serial: nat, e: Sent)
    requires Orderly(wire, serial) && e.serial == serial + 1
    ensures (forall x | x in wire :: x.serial < e.serial) && CountOf(wire, e.serial) == 0
  {
    CountNone(wire, e.serial);
  }

  lemma SendWired(cfg: Config, s: State, op: Op, send: PendingSend, now: int, canSend: bool)
    requires Wired(cfg, s) && s.inflight.None? && s.nextId == IdOf(s.serial)
    ensures Wired(cfg, SendOp(cfg, s, op, send, now, canSend))
  {
    hide Encode, CountOf, Orderly;
    NextIdCounts(s.serial);
    var t := SendOp(cfg, s, op, send, now, canSend);
    if t.inflight.Some? {
      var e := Sent(t.serial, Owner(op), t.inflight.value.sent);
      NewOnWire(s.wire, s.serial, e);
      Appended(s.wire, s.serial, e);
      CountAppends(s.wire, e, cfg.retries + 1);
    } else {
      Later(s.wire, s.serial);
    }
  }

  lemma Later(wire: seq<Sent>, serial: nat)
    requires Orderly(wire, serial)
    ensures Orderly(wire, serial + 1)
  {
  }

  lemma RetryWired(cfg: Config, s: State, now: int, canSend: bool)
    requires Inv(cfg, s) && Wired(cfg, s)
    ensures Wired(cfg, CheckDeadline(cfg, s, now, canSend))
  {
    hide Holding, CountOf, Orderly, Encode;
    var t := CheckDeadline(cfg, s, now, canSend);
    if t.inflight.Some? && t.wire != s.wire {
      var e := Sent(s.serial, Owner(s.inflight.value.op), s.inflight.value.sent);
      assert Holding(s, Current(s));
      NumberedId(s);
      Appended(s.wire, s.serial, e);
      CountAppends(s.wire, e, cfg.retries + 1);
    }
  }

  lemma NumberedId(s: State)
    requires Holding(s, Current(s))
    ensures s.nextId == IdOf(s.serial)
  {
  }

  lemma AckWired(cfg: Config, s: State, op: Op, ack: Ack, now: int, canSend: bool)
    requires Wired(cfg, s) && s.inflight.None? && s.nextId == IdOf(s.serial)
    ensures Wired(cfg, OnAck(cfg, s, op, ack, now, canSend))
  {
    hide Answered, Encode, SendOp, Orderly, Counted;
    if !IsError(ack.status) && ack.answer == ExpectedAck(op) {
      match Answered(cfg, op, ack.payload)
      case More(next, send) => SendWired(cfg, s, next, send, now, canSend);
      case _ =>
    }
    SameWire(cfg, s, OnAck(cfg, s, op, ack, now, canSend));
  }

  /** Only the wire, the serial and the transaction in flight matter. */
  lemma SameWire(cfg: Config, s: State, t: State)
    requires Wired(cfg, s)
    ensures t.wire == s.wire && t.serial == s.serial && (t.inflight == s.inflight || t.inflight.None?) ==> Wired(cfg, t)
  {
  }

  lemma DatagramWired(cfg: Config, s: State, datagram: Option<Ack>, now: int, canSend: bool)
    requires Inv(cfg, s) && Wired(cfg, s)
    ensures Wired(cfg, OnDatagram(cfg, s, datagram, now, canSend))
  {
    hide OnAck, Lockstep, InOrder, OthersFresh, AllSound, Transacting, Orderly;
    if datagram.Some? && s.inflight.Some? && datagram.value.ackId == s.inflight.value.id && PendingMs(datagram.value).None? {
      var t := s.(inflight := None, acked := s.inflight.value.serial);
      SameWire(cfg, s, t);
      AckWired(cfg, t, s.inflight.value.op, datagram.value, now, canSend);
    }
  }

  lemma {:induction false} FailAllWire(s: State, ops: seq<Op>, error: Error)
    ensures var t := FailAll(s, ops, error); t.wire == s.wire && t.serial == s.serial && t.inflight == s.inflight
    decreases |ops|
  {
    if ops != [] { FailAllWire(Fail(s, ops[0], error), ops[1..], error); }
  }

  lemma ShutdownWired(cfg: Config, s: State, canSend: bool)
    requires Inv(cfg, s) && Wired(cfg, s)
    ensures Wired(cfg, Shutdown(s, canSend))
  {
    hide CountOf, Orderly, Lockstep, InOrder, OthersFresh, AllSound, Transacting;
    if !s.stopped {
      var a := if s.inflight.Some? then Fail(s.(inflight := None), s.inflight.value.op, EndError(s)) else s;
      FailAllWire(a.(queue := [], payloads := [], stopped := true), s.queue, EndError(s));
      var t := Shutdown(s, canSend);
      NextIdCounts(s.serial);
      Later(s.wire, s.serial);
      if t.wire != s.wire {
        var e := t.wire[|s.wire|];
        NewOnWire(s.wire, s.serial, e);
        Appended(s.wire, s.serial, e);
        CountAppends(s.wire, e, cfg.retries + 1);
      }
    }
  }

  lemma StepWired(cfg: Config, s: State, e: Timed)
    requires Inv(cfg, s) && Wired(cfg, s)
    ensures Wired(cfg, Step(cfg, s, e))
  {
    hide Wired, OnDatagram, CheckDeadline, Shutdown, SendOp, Lockstep, InOrder, OthersFresh, AllSound, Transacting;
    SameWire(cfg, s, Step(cfg, s, e));
    match e.event
    case Stopped => ShutdownWired(cfg, s, e.canSend);
    case Received(d) => DatagramWired(cfg, s, d, e.now, e.canSend);
    case Deadlines => RetryWired(cfg, s, e.now, e.canSend);
    case Pumped =>
      if !s.stopped && s.inflight.None? && s.queue != [] && s.payloads != [] {
        var t := s.(queue := s.queue[1..], payloads := s.payloads[1..]);
        SameWire(cfg, s, t);
        SendWired(cfg, t, s.queue[0], s.payloads[0], e.now, e.canSend);
      }
    case _ =>
  }

  lemma {:induction false} EveryWire(cfg: Config, heartbeatDue: int, events: seq<Timed>)
    ensures Wired(cfg, Run(cfg, Initial(heartbeatDue), events))
    decreases |events|
  {
    hide Step, Inv;
    if events != [] {
      EveryWire(cfg, heartbeatDue, events[..|events| - 1]);
      EveryRun(cfg, heartbeatDue, events[..|events| - 1]);
      StepWired(cfg, Run(cfg, Initial(heartbeatDue), events[..|events| - 1]), events[|events| - 1]);
    }
  }

  /** A transaction puts at most one datagram per try on the wire, all the same. */
  lemma IdenticalTries(cfg: Config, heartbeatDue: int, events: seq<Timed>, serial: nat)
    ensures var wire := Run(cfg, Initial(heartbeatDue), events).wire;
            && CountOf(wire, serial) <= cfg.retries + 1
            && (forall i, j | 0 <= i < |wire| && 0 <= j < |wire| && wire[i].serial == wire[j].serial :: wire[i] == wire[j])
  {
    EveryWire(cfg, heartbeatDue, events);
  }

  // ------------------------------------------------------------------- time

  function Now(start: int, events: seq<Timed>): int {
    if events == [] then start else events[|events| - 1].now
  }

  /** When the worker last looked at the deadline. */
  function LastCheck(start: int, events: seq<Timed>): int
    decreases |events|
  {
    if events == [] then start
    else if events[|events| - 1].event.Deadlines? then events[|events| - 1].now
    else LastCheck(start, events[..|events| - 1])
  }

  /** Time does not run back, and the worker looks at the deadline every `d`. */
  ghost predicate Wakes(d: nat, start: int, events: seq<Timed>)
    decreases |events|
  {
    events == [] ||
    var (init, last) := (events[..|events| - 1], events[|events| - 1]);
    Wakes(d, start, init) && Now(start, init) <= last.now <= LastCheck(start, init) + d
  }

  /** How long after its first send a transaction can wait in its k-th retry. */
  function Bound(cfg: Config, d: nat, k: nat): nat {
    Max(PENDING_ACK_BUDGET, cfg.timeout) + k * (cfg.timeout + d)
  }

  ghost predicate Timely(cfg: Config, d: nat, s: State, checked: int) {
    s.inflight.Some? ==>
      var i := s.inflight.value;
      && i.triesLeft <= cfg.retries && i.pendingLimit == i.firstSent + PENDING_ACK_BUDGET
      && i.deadline <= i.firstSent + Bound(cfg, d, cfg.retries - i.triesLeft)
      && checked <= i.firstSent + Bound(cfg, d, cfg.retries - i.triesLeft)
  }

  lemma BoundGrows(cfg: Config, d: nat, k: nat)
    ensures Bound(cfg, d, k + 1) == Bound(cfg, d, k) + cfg.timeout + d
    ensures Bound(cfg, d, k) >= PENDING_ACK_BUDGET && Bound(cfg, d, k) >= cfg.timeout
  {
    Multiples(0, k, cfg.timeout + d);
  }

  lemma {:induction false} BoundMonotone(cfg: Config, d: nat, k: nat, m: nat)
    requires k <= m
    ensures Bound(cfg, d, k) <= Bound(cfg, d, m)
    decreases m - k
  {
    if k < m {
      BoundMonotone(cfg, d, k, m - 1);
      BoundGrows(cfg, d, m - 1);
    }
  }

  lemma FreshTimely(cfg: Config, d: nat, s: State, op: Op, send: PendingSend, now: int, canSend: bool, checked: int)
    requires s.inflight.None? && checked <= now
    ensures Timely(cfg, d, SendOp(cfg, s, op, send, now, canSend), checked)
  {
    hide Encode;
    BoundGrows(cfg, d, 0);
  }

  lemma ReceivedTimely(cfg: Config, d: nat, s: State, datagram: Option<Ack>, now: int, canSend: bool, checked: int)
    requires Timely(cfg, d, s, checked) && checked <= now
    ensures Timely(cfg, d, OnDatagram(cfg, s, datagram, now, canSend), checked)
  {
    hide SendOp, Answered, Bound;
    if datagram.Some? && s.inflight.Some? && datagram.value.ackId == s.inflight.value.id {
      var i, ack := s.inflight.value, datagram.value;
      if PendingMs(ack).Some? {
        BoundGrows(cfg, d, cfg.retries - i.triesLeft);
      } else if !IsError(ack.status) && ack.answer == ExpectedAck(i.op) {
        match Answered(cfg, i.op, ack.payload)
        case More(next, send) =>
          FreshTimely(cfg, d, s.(inflight := None, acked := i.serial), next, send, now, canSend, checked);
        case _ =>
      }
    }
  }

  lemma CheckTimely(cfg: Config, d: nat, s: State, now: int, canSend: bool, checked: int)
    requires Timely(cfg, d, s, checked) && checked <= now <= checked + d
    ensures Timely(cfg, d, CheckDeadline(cfg, s, now, canSend), now)
  {
    hide Bound;
    if s.inflight.Some? {
      BoundGrows(cfg, d, cfg.retries - s.inflight.value.triesLeft);
    }
  }

  lemma {:induction false} FailAllIdle(s: State, ops: seq<Op>, error: Error)
    ensures FailAll(s, ops, error).inflight == s.inflight
    decreases |ops|
  {
    if ops != [] { FailAllIdle(Fail(s, ops[0], error), ops[1..], error); }
  }

  lemma StepTimely(cfg: Config, d: nat, s: State, e: Timed, checked: int)
    requires Timely(cfg, d, s, checked) && checked <= e.now <= checked + d && (s.stopped ==> s.inflight.None?)
    ensures Timely(cfg, d, Step(cfg, s, e), if e.event.Deadlines? then e.now else checked)
  {
    hide Bound, SendOp, OnDatagram, CheckDeadline;
    match e.event
    case Received(datagram) => ReceivedTimely(cfg, d, s, datagram, e.now, e.canSend, checked);
    case Deadlines => CheckTimely(cfg, d, s, e.now, e.canSend, checked);
    case Stopped =>
      if !s.stopped {
        var a := if s.inflight.Some? then Fail(s.(inflight := None), s.inflight.value.op, EndError(s)) else s;
        FailAllIdle(a.(queue := [], payloads := [], stopped := true), s.queue, EndError(s));
      }
    case Pumped =>
      if s.inflight.None? && s.queue != [] && s.payloads != [] {
        FreshTimely(cfg, d, s.(queue := s.queue[1..], payloads := s.payloads[1..]), s.queue[0], s.payloads[0], e.now, e.canSend, checked);
      }
    case _ =>
  }

  lemma {:induction false} RunTimely(cfg: Config, d: nat, start: int, heartbeatDue: int, events: seq<Timed>)
    requires Wakes(d, start, events)
    ensures Timely(cfg, d, Run(cfg, Initial(heartbeatDue), events), LastCheck(start, events))
    ensures LastCheck(start, events) <= Now(start, events)
    decreases |events|
  {
    hide Step, Timely, Lockstep, Holding, Transacting;
    if events == [] {
      assert Timely(cfg, d, Initial(heartbeatDue), start) by { StartTimely(cfg, d, start, heartbeatDue); }
    } else {
      var init, last := events[..|events| - 1], events[|events| - 1];
      RunTimely(cfg, d, start, heartbeatDue, init);
      EveryRun(cfg, heartbeatDue, init);
      StepTimely(cfg, d, Run(cfg, Initial(heartbeatDue), init), last, LastCheck(start, init));
    }
  }

  lemma StartTimely(cfg: Config, d: nat, start: int, heartbeatDue: int)
    ensures Timely(cfg, d, Initial(heartbeatDue), start)
  {
  }

  /** However many PENDING_ACKs arrive, whatever happens while a transaction is in
      flight happens within its budget plus the retries. */
  lemma TransactionEnds(cfg: Config, d: nat, start: int, heartbeatDue: int, events: seq<Timed>, e: Timed)
    requires Wakes(d, start, events + [e])
    ensures var s := Run(cfg, Initial(heartbeatDue), events);
            s.inflight.Some? ==>
              e.now <= s.inflight.value.firstSent
                       + Max(PENDING_ACK_BUDGET, cfg.timeout) + cfg.retries * (cfg.timeout + d) + d
  {
    hide Run, Initial;
    assert (events + [e])[..|events|] == events;
    RunTimely(cfg, d, start, heartbeatDue, events);
    var s := Run(cfg, Initial(heartbeatDue), events);
    if s.inflight.Some? {
      BoundMonotone(cfg, d, cfg.retries - s.inflight.value.triesLeft, cfg.retries);
    }
  }
}
