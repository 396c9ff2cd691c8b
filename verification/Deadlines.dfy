/** What deadlines and heartbeats do in every run of the control worker: how often an
    unanswered transaction is sent, when its deadline moves, when the heartbeat goes. */
module Deadlines {
  import opened Gvsp
  import opened Gvcp
  import opened Worker
  import opened WorkerRuns
  import opened Transactions

  predicate AllSent(events: seq<Timed>) { forall e | e in events :: e.canSend }

  /** The sends of the transaction in flight and the tries it has left make one more
      than the retries. */
  ghost predicate Tried(cfg: Config, s: State) {
    s.inflight.Some? ==> CountOf(s.wire, s.serial) + s.inflight.value.triesLeft == cfg.retries + 1
  }

  lemma SendTried(cfg: Config, s: State, op: Op, send: PendingSend, now: int)
    requires Wired(cfg, s) && s.inflight.None?
    ensures Tried(cfg, SendOp(cfg, s, op, send, now, true))
  {
    hide Encode, CountOf, Orderly;
    var t := SendOp(cfg, s, op, send, now, true);
    if t.inflight.Some? {
      var e := t.wire[|s.wire|];
      NewOnWire(s.wire, s.serial, e);
      CountAppend(s.wire, e, e.serial);
    }
  }

  lemma AckTried(cfg: Config, s: State, op: Op, ack: Ack, now: int)
    requires Wired(cfg, s) && s.inflight.None?
    ensures Tried(cfg, OnAck(cfg, s, op, ack, now, true))
  {
    hide Answered, SendOp, Wired;
    var answer := Answered(cfg, op, ack.payload);
    if answer.More? { SendTried(cfg, s, answer.op, answer.send, now); }
  }

  lemma StepTried(cfg: Config, s: State, e: Timed)
    requires Inv(cfg, s) && Wired(cfg, s) && Tried(cfg, s) && e.canSend
    ensures Tried(cfg, Step(cfg, s, e))
  {
    hide Holding, Transacting, Wired, SendOp, OnAck, CountOf, Shutdown;
    match e.event
    case Pumped =>
      if !s.stopped && s.inflight.None? && s.queue != [] && s.payloads != [] {
        var u := s.(queue := s.queue[1..], payloads := s.payloads[1..]);
        SameWire(cfg, s, u);
        SendTried(cfg, u, s.queue[0], s.payloads[0], e.now);
      }
    case Received(d) =>
      if !s.stopped && d.Some? && s.inflight.Some? && d.value.ackId == s.inflight.value.id && PendingMs(d.value).None? {
        var u := s.(inflight := None, acked := s.inflight.value.serial);
        SameWire(cfg, s, u);
        AckTried(cfg, u, s.inflight.value.op, d.value, e.now);
      }
    case Deadlines =>
      if s.inflight.Some? {
        SerialOf(cfg, s);
        CountAppend(s.wire, Sent(s.inflight.value.serial, Owner(s.inflight.value.op), s.inflight.value.sent), s.serial);
      }
    case Stopped => ShutdownKeeps(cfg, s, true); StopsIdle(cfg, s);
    case _ =>
  }

  lemma SerialOf(cfg: Config, s: State)
    requires Inv(cfg, s) && s.inflight.Some?
    ensures s.inflight.value.serial == s.serial
  {
    hide Holding, Encode;
  }

  lemma StopsIdle(cfg: Config, s: State)
    requires Inv(cfg, s)
    ensures Shutdown(s, true).inflight.None?
  {
    hide Holding, Encode;
    if !s.stopped {
      var a := if s.inflight.Some? then Fail(s.(inflight := None), s.inflight.value.op, EndError(s)) else s;
      FailAllIdle(a.(queue := [], payloads := [], stopped := true), s.queue, EndError(s));
    }
  }

  lemma {:induction false} RunTried(cfg: Config, heartbeatDue: int, events: seq<Timed>)
    requires AllSent(events)
    ensures Tried(cfg, Run(cfg, Initial(heartbeatDue), events))
    decreases |events|
  {
    hide Step, Inv, Wired, CountOf;
    if events != [] {
      var init := events[..|events| - 1];
      RunTried(cfg, heartbeatDue, init);
      EveryRun(cfg, heartbeatDue, init);
      EveryWire(cfg, heartbeatDue, init);
      StepTried(cfg, Run(cfg, Initial(heartbeatDue), init), events[|events| - 1]);
    }
  }

  /** A deadline passes unanswered, the socket having taken every datagram: with fewer
      than retries + 1 sends the same datagram is sent again and waited for anew; after
      exactly retries + 1 the transaction ends, its request timed out, or, for the
      heartbeat, control lost. Before the deadline nothing happens. */
  lemma SentRetriesPlusOne(cfg: Config, heartbeatDue: int, events: seq<Timed>, now: int)
    requires AllSent(events) && Run(cfg, Initial(heartbeatDue), events).inflight.Some?
    ensures var s := Run(cfg, Initial(heartbeatDue), events);
            var t, i, n := Step(cfg, s, Timed(Event.Deadlines, now, true)), s.inflight.value, CountOf(s.wire, s.serial);
            && i.serial == s.serial && 1 <= n <= cfg.retries + 1
            && if now < i.deadline then t == s
               else if n <= cfg.retries then
                 && t.wire == s.wire + [Sent(i.serial, Owner(i.op), i.sent)] && t.inflight.Some? && t.resolved == s.resolved
                 && t.inflight.value == i.(triesLeft := t.inflight.value.triesLeft, deadline := now + cfg.timeout)
               else
                 && t.wire == s.wire && t.inflight.None?
                 && if i.op.Heartbeat? then t.controlLost && t.resolved == s.resolved
                    else t.resolved == s.resolved + [Resolution(i.op.handle, Failed(Timeout))]
  {
    hide Run, Initial, CountOf, Holding, Encode, Orderly;
    RunTried(cfg, heartbeatDue, events);
    EveryRun(cfg, heartbeatDue, events);
    EveryWire(cfg, heartbeatDue, events);
  }

  ghost predicate Budgeted(s: State) { s.inflight.Some? ==> s.inflight.value.pendingLimit == s.inflight.value.firstSent + PENDING_ACK_BUDGET }

  lemma StepBudgeted(cfg: Config, s: State, e: Timed)
    requires Budgeted(s) && Inv(cfg, s)
    ensures Budgeted(Step(cfg, s, e))
  {
    hide Answered, Encode, Lockstep, InOrder, AllSound, OthersFresh, Transacting;
    if e.event.Stopped? && !s.stopped {
      var a := if s.inflight.Some? then Fail(s.(inflight := None), s.inflight.value.op, EndError(s)) else s;
      FailAllIdle(a.(queue := [], payloads := [], stopped := true), s.queue, EndError(s));
    }
  }

  lemma {:induction false} RunBudgeted(cfg: Config, heartbeatDue: int, events: seq<Timed>)
    ensures Budgeted(Run(cfg, Initial(heartbeatDue), events))
    decreases |events|
  {
    hide Step, Inv;
    if events != [] {
      var init := events[..|events| - 1];
      RunBudgeted(cfg, heartbeatDue, init);
      EveryRun(cfg, heartbeatDue, init);
      StepBudgeted(cfg, Run(cfg, Initial(heartbeatDue), init), events[|events| - 1]);
    }
  }

  /** A PENDING_ACK moves the deadline to the time it asks for, as long as that is
      within the budget from the transaction's first send, and past the budget no
      deadline is moved further out; nothing else changes. */
  lemma PendingAckExtends(cfg: Config, heartbeatDue: int, events: seq<Timed>, ack: Ack, now: int, canSend: bool)
    requires var s := Run(cfg, Initial(heartbeatDue), events);
             s.inflight.Some? && !s.stopped && ack.ackId == s.inflight.value.id && PendingMs(ack).Some?
    ensures var s := Run(cfg, Initial(heartbeatDue), events);
            var t, i, until := Step(cfg, s, Timed(Received(Some(ack)), now, canSend)), s.inflight.value, now + PendingMs(ack).value;
            && t.inflight.Some? && t == s.(inflight := Some(i.(deadline := t.inflight.value.deadline)))
            && var deadline, budget := t.inflight.value.deadline, i.firstSent + PENDING_ACK_BUDGET;
            && (until <= budget ==> deadline == until)
            && (until > budget ==> deadline == Min(until, Max(budget, i.deadline)))
  {
    hide Run, Initial;
    RunBudgeted(cfg, heartbeatDue, events);
  }

  // ----------------------------------------------------------------- heartbeat

  lemma FrontHeartbeat(cfg: Config, s: State)
    requires Inv(cfg, s) && Heartbeat in s.queue
    ensures s.queue[0] == Heartbeat
  {
    hide Lockstep, InOrder, AllSound, OthersFresh, Encode;
  }

  /** When the heartbeat is due it goes to the front of the queue, unless one is under
      way already, and the next is due a period later. */
  lemma HeartbeatDue(cfg: Config, heartbeatDue: int, events: seq<Timed>, now: int, canSend: bool)
    requires !Run(cfg, Initial(heartbeatDue), events).stopped
    ensures var s := Run(cfg, Initial(heartbeatDue), events);
            var t := Step(cfg, s, Timed(Heartbeats, now, canSend));
            if now < s.heartbeatDue then t == s
            else
              && t.heartbeatDue == now + cfg.heartbeatPeriod && t.inflight == s.inflight
              && ((t.inflight.Some? && t.inflight.value.op.Heartbeat?) || (t.queue != [] && t.queue[0] == Heartbeat))
              && (t.queue == s.queue || t.queue == [Heartbeat] + s.queue)
  {
    hide Run, Initial, Inv;
    EveryRun(cfg, heartbeatDue, events);
    var s := Run(cfg, Initial(heartbeatDue), events);
    if Heartbeat in s.queue { FrontHeartbeat(cfg, s); }
  }

  /** And with nothing in flight it is what the worker sends next: a read of the
      control channel privilege. */
  lemma HeartbeatSent(cfg: Config, heartbeatDue: int, events: seq<Timed>, now: int)
    requires var s := Run(cfg, Initial(heartbeatDue), events);
             !s.stopped && s.inflight.None? && Heartbeat in s.queue
    ensures var s := Run(cfg, Initial(heartbeatDue), events);
            var t := Step(cfg, s, Timed(Pumped, now, true));
            && t.inflight.Some? && t.inflight.value.op == Heartbeat && t.queue == s.queue[1..]
            && t.wire == s.wire + [Sent(t.serial, None, Datagram(t.nextId, ReadRegister([CONTROL_CHANNEL_PRIVILEGE])))]
  {
    hide Run, Initial;
    EveryRun(cfg, heartbeatDue, events);
    var s := Run(cfg, Initial(heartbeatDue), events);
    FrontHeartbeat(cfg, s);
    HeartbeatFront(cfg, s);
  }

  lemma HeartbeatFront(cfg: Config, s: State)
    requires Inv(cfg, s) && s.queue != [] && s.queue[0] == Heartbeat
    ensures s.payloads != [] && s.payloads[0] == ReadRegsOf([CONTROL_CHANNEL_PRIVILEGE])
  {
    hide InOrder, AllSound, OthersFresh, Encode;
  }
}
