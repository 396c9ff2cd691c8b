/** Why the worker must stay current: once a whole round of ids has been used
    without an acknowledge, a late one of the first transaction completes the
    last, which the device never saw. */
module StaleAcks {
  import opened Gvsp
  import opened Gvcp
  import opened Worker
  import opened Device
  import opened Link
  import LinkRuns
  import Chunks

  /** No retries; any acknowledge timeout. */
  function Impatient(timeout: nat): Config { Config(timeout, 0, 1000, false) }

  const SomeRegister: U32 := 0x2000

  function Ask(value: U32): Request { SetRegisters([(SomeRegister, value)]) }

  /** A request is submitted and begun. */
  function Begun(value: U32): seq<Happening> {
    [Works(Timed(Submitted(Ask(value)), 0, true)), Works(Timed(Pumped, 0, true))]
  }

  /** The acknowledge is overdue. */
  function Overdue(timeout: nat): seq<Happening> { [Works(Timed(Deadlines, timeout, true))] }

  /** Requests whose datagrams are all lost. */
  function Lost(timeout: nat, n: nat): seq<Happening> {
    if n == 0 then [] else Lost(timeout, n - 1) + Begun(0) + Overdue(timeout)
  }

  /** The first request is carried out and its acknowledge is late; a round of
      lost ones follows; then one more is begun and the acknowledge arrives. */
  function Stale(timeout: nat, value: U32): seq<Happening> {
    Begun(0) + [CommandArrives(0, 1)] + Overdue(timeout) + Lost(timeout, LAST_ID - 1) + Begun(value) + [AckArrives(0, 0, true)]
  }

  lemma {:induction false} AfterJoins(cfg: Config, s: System, a: seq<Happening>, b: seq<Happening>)
    ensures After(cfg, s, a + b) == After(cfg, After(cfg, s, a), b)
    decreases |b|
  {
    hide Next;
    if b == [] {
      assert a + b == a;
    } else {
      AfterJoins(cfg, s, a, b[..|b| - 1]);
      assert (a + b)[..|a + b| - 1] == a + b[..|b| - 1];
    }
  }

  /** Nothing queued or in flight after `n` transactions, none acknowledged. */
  predicate Idle(w: State, n: nat) {
    && w.queue == [] && w.payloads == [] && w.inflight.None? && !w.stopped
    && w.serial == n && w.nextId == IdOf(n) && |w.requests| == |w.resolved| == n
  }

  /** One more request is in flight. */
  predicate Waiting(w: State, timeout: nat, n: nat, value: U32) {
    && w.queue == [] && w.payloads == [] && !w.stopped && w.serial == n && w.nextId == IdOf(n)
    && |w.requests| == n && |w.resolved| == n - 1 && n >= 1 && w.requests[n - 1] == Ask(value)
    && w.inflight.Some? && w.inflight.value.op == WriteRegs(n - 1, [(SomeRegister, value)], 0)
    && w.inflight.value.id == IdOf(n) && w.inflight.value.triesLeft == 0 && w.inflight.value.deadline == timeout
  }

  lemma Begins(timeout: nat, s: System, n: nat, value: U32)
    requires Idle(s.worker, n)
    ensures var t := After(Impatient(timeout), s, Begun(value));
            && Waiting(t.worker, timeout, n + 1, value)
            && t == s.(worker := t.worker)
            && t.worker.wire == s.worker.wire
               + [Sent(n + 1, Some(n), Datagram(IdOf(n + 1), WriteRegister([(SomeRegister, value)])))]
  {
    hide IdOf, NextId;
    var cfg, hs := Impatient(timeout), Begun(value);
    NextIdCounts(n);
    var a := Next(cfg, s, hs[0]);
    assert hs[..1] == [hs[0]] && [hs[0]][..0] == [];
    assert After(cfg, s, []) == s;
    assert After(cfg, s, [hs[0]]) == a;
    var u := a.worker;
    assert u.queue == [WriteRegs(n, [(SomeRegister, value)], 0)] && u.payloads == [WriteRegsChunk];
    assert u.queue[1..] == [] && u.payloads[1..] == [];
    FirstChunk(cfg, n, value);
    assert After(cfg, s, hs) == Next(cfg, a, hs[1]);
  }

  lemma FirstChunk(cfg: Config, n: nat, value: U32)
    ensures Encode(cfg, WriteRegs(n, [(SomeRegister, value)], 0), WriteRegsChunk)
            == Some(WriteRegister([(SomeRegister, value)]))
  {
    var pairs: seq<(U32, U32)> := [(SomeRegister, value)];
    assert pairs[0..] == pairs && pairs[..1] == pairs;
  }

  lemma Ends(timeout: nat, s: System, n: nat)
    requires Waiting(s.worker, timeout, n, 0)
    ensures var t := After(Impatient(timeout), s, Overdue(timeout));
            Idle(t.worker, n) && t == s.(worker := t.worker) && t.worker.wire == s.worker.wire
  {
    var cfg, hs := Impatient(timeout), Overdue(timeout);
    assert hs[..0] == [] && After(cfg, s, []) == s;
    assert After(cfg, s, hs) == Next(cfg, s, hs[0]);
  }

  lemma {:induction false} LostRound(timeout: nat, s: System, n: nat, k: nat)
    requires Idle(s.worker, n)
    ensures var t := After(Impatient(timeout), s, Lost(timeout, k));
            Idle(t.worker, n + k) && t == s.(worker := t.worker)
    decreases k
  {
    hide Idle, Waiting, Begun, Overdue;
    if k > 0 {
      var cfg := Impatient(timeout);
      LostRound(timeout, s, n, k - 1);
      AfterJoins(cfg, s, Lost(timeout, k - 1) + Begun(0), Overdue(timeout));
      AfterJoins(cfg, s, Lost(timeout, k - 1), Begun(0));
      var a := After(cfg, s, Lost(timeout, k - 1));
      Begins(timeout, a, n + k - 1, 0);
      Ends(timeout, After(cfg, a, Begun(0)), n + k);
    }
  }

  /** The device after the first request. */
  predicate Done1(p: Peer) {
    && p.executed == [1]
    && |p.replies| == 1 && p.replies[0].ack.ackId == 1 && p.replies[0].ack.answer == 0x83 && p.replies[0].ack.status == 0
  }

  lemma FirstReply(mem: Bytes, maxPacket: Option<nat>)
    requires SomeRegister + 4 <= |mem|
    ensures var p := Peer(maxPacket, mem, None, 0, [], [], None, mem);
            var e := Sent(1, Some(0), Datagram(1, WriteRegister([(SomeRegister, 0)])));
            Done1(Handle(p, e, 1))
  {
    var pairs: seq<(U32, U32)> := [(SomeRegister, 0)];
    assert pairs[1..] == [];
    assert WriteAll(maxPacket, mem, pairs).complete;
  }

  lemma LateAck(timeout: nat, s: System, value: U32)
    requires Waiting(s.worker, timeout, LAST_ID + 1, value) && Done1(s.peer) && s.ackPos == 0
    ensures var t := After(Impatient(timeout), s, [AckArrives(0, 0, true)]);
            && t.worker.requests == s.worker.requests
            && t.worker.resolved == s.worker.resolved + [Resolution(LAST_ID, Ok(Written))] && t.peer == s.peer
            && t.worker.serial == s.worker.serial && t.worker.wire == s.worker.wire
  {
    var cfg, hs := Impatient(timeout), [AckArrives(0, 0, true)];
    assert hs[..0] == [] && After(cfg, s, []) == s && After(cfg, s, hs) == Next(cfg, s, hs[0]);
    var ack := s.peer.replies[0].ack;
    assert PendingMs(ack).None? && ack.ackId == s.worker.inflight.value.id;
    var w := s.worker.(inflight := None, acked := s.worker.inflight.value.serial);
    var op := s.worker.inflight.value.op;
    assert Answered(cfg, op, ack.payload) == Answer.Done(Written);
    assert OnAck(cfg, w, op, ack, 0, true) == Resolve(w, LAST_ID, Ok(Written));
  }

  /** The last request succeeds, and the device has carried out only the first. */
  lemma StaleAckCompletes(timeout: nat, heartbeatDue: int, maxPacket: Option<nat>, mem: Bytes, value: U32)
    requires SomeRegister + 4 <= |mem|
    ensures var s := After(Impatient(timeout), Link.Start(heartbeatDue, maxPacket, mem), Stale(timeout, value));
            && |s.worker.resolved| == |s.worker.requests| == LAST_ID + 1 && s.worker.requests[LAST_ID] == Ask(value)
            && s.worker.resolved[LAST_ID].outcome == Ok(Written) && s.peer.executed == [1]
            && s.worker.serial == LAST_ID + 1
            && Sent(LAST_ID + 1, Some(LAST_ID), Datagram(1, WriteRegister([(SomeRegister, value)]))) in s.worker.wire
  {
    hide After, Lost, Begun, Overdue, Idle, Waiting, Handle, Done1, IdOf;
    var cfg := Impatient(timeout);
    var s0 := Link.Start(heartbeatDue, maxPacket, mem);
    assert Idle(s0.worker, 0) by { StartIdle(heartbeatDue, maxPacket, mem); }
    var b0, c, o, l, b1, a := Begun(0), [CommandArrives(0, 1)], Overdue(timeout), Lost(timeout, LAST_ID - 1), Begun(value), [AckArrives(0, 0, true)];
    AfterJoins(cfg, s0, b0 + c + o + l + b1, a);
    AfterJoins(cfg, s0, b0 + c + o + l, b1);
    AfterJoins(cfg, s0, b0 + c + o, l);
    AfterJoins(cfg, s0, b0 + c, o);
    AfterJoins(cfg, s0, b0, c);
    Begins(timeout, s0, 0, 0);
    var s1 := After(cfg, s0, b0);
    var s2 := After(cfg, s1, c);
    Carries(cfg, s1, maxPacket, mem);
    Ends(timeout, s2, 1);
    var s3 := After(cfg, s2, o);
    LostRound(timeout, s3, 1, LAST_ID - 1);
    var s4 := After(cfg, s3, l);
    Begins(timeout, s4, LAST_ID, value);
    var s5 := After(cfg, s4, b1);
    LateAck(timeout, s5, value);
    WaitingRecords(s5.worker, timeout, LAST_ID + 1, value);
    OnlyFirst(s5.peer);
    assert IdOf(LAST_ID + 1) == 1 by { FirstAgain(); }
  }

  lemma FirstAgain()
    ensures IdOf(LAST_ID + 1) == 1
  {
  }

  lemma StartIdle(heartbeatDue: int, maxPacket: Option<nat>, mem: Bytes)
    ensures Idle(Link.Start(heartbeatDue, maxPacket, mem).worker, 0)
  {
  }

  lemma Carries(cfg: Config, s: System, maxPacket: Option<nat>, mem: Bytes)
    requires SomeRegister + 4 <= |mem| && s.peer == Peer(maxPacket, mem, None, 0, [], [], None, mem) && s.commandPos == 0
    requires s.worker.wire == [Sent(1, Some(0), Datagram(IdOf(1), WriteRegister([(SomeRegister, 0)])))]
    ensures var t := After(cfg, s, [CommandArrives(0, 1)]); t.worker == s.worker && Done1(t.peer) && t.ackPos == s.ackPos
  {
    hide Handle, Done1;
    var hs := [CommandArrives(0, 1)];
    assert hs[..0] == [] && After(cfg, s, []) == s && After(cfg, s, hs) == Next(cfg, s, hs[0]);
    assert IdOf(1) == 1;
    FirstReply(mem, maxPacket);
  }

  lemma WaitingRecords(w: State, timeout: nat, n: nat, value: U32)
    requires Waiting(w, timeout, n, value)
    ensures |w.requests| == n >= 1 && |w.resolved| == n - 1 && w.requests[n - 1] == Ask(value) && w.serial == n
  {
  }

  lemma OnlyFirst(p: Peer)
    requires Done1(p)
    ensures p.executed == [1]
  {
  }

  // ------------------------------------------------------------- the bound

  /** Transactions are only ever added. */
  lemma SerialGrows(cfg: Config, s: System, h: Happening)
    ensures Next(cfg, s, h).worker.serial >= s.worker.serial
  {
    hide Handle, Encode, Answered;
    match h
    case Works(e) =>
      if e.event.Stopped? && !s.worker.stopped {
        var w := s.worker;
        var a := if w.inflight.Some? then Fail(w.(inflight := None), w.inflight.value.op, EndError(w)) else w;
        LinkRuns.FailAllRecords(a.(queue := [], payloads := [], stopped := true), w.queue, EndError(w));
      }
    case _ =>
  }

  lemma {:induction false} FewTransactions(cfg: Config, s: System, hs: seq<Happening>, round: nat)
    requires After(cfg, s, hs).worker.serial <= round
    ensures StaysFresh(cfg, s, hs, round)
    decreases |hs|
  {
    hide Next;
    if hs != [] {
      SerialGrows(cfg, After(cfg, s, hs[..|hs| - 1]), hs[|hs| - 1]);
      FewTransactions(cfg, s, hs[..|hs| - 1], round);
    }
  }

  /** A run of the worker and the device. */
  datatype Case = Case(cfg: Config, heartbeatDue: int, maxPacket: Option<nat>, mem: Bytes, hs: seq<Happening>)

  function Outcome(c: Case): System { After(c.cfg, Link.Start(c.heartbeatDue, c.maxPacket, c.mem), c.hs) }

  ghost predicate Within(c: Case, round: nat) {
    |c.mem| < Chunks.ADDRESS_SPACE && StaysFresh(c.cfg, Link.Start(c.heartbeatDue, c.maxPacket, c.mem), c.hs, round)
  }

  /** Every transaction of every request that succeeded was carried out. */
  ghost predicate Honest(s: System) {
    forall e | e in s.worker.wire && e.owner.Some? && e.owner.value < |s.worker.resolved|
               && s.worker.resolved[e.owner.value].outcome.Ok? :: e.serial in s.peer.executed
  }

  /** Success means carried out, in every run in which one of the latest `round`
      transactions is always acknowledged, exactly when a round is no longer than
      the ids last. */
  lemma ExactRound(round: nat)
    ensures (forall c: Case | Within(c, round) :: Honest(Outcome(c))) <==> round <= LAST_ID
  {
    if round <= LAST_ID {
      forall c: Case | Within(c, round) ensures Honest(Outcome(c)) { HonestRun(c, round); }
    } else {
      var c := StaleCase();
      WithinMore(c, LAST_ID + 1, round);
      assert Within(c, round) && !Honest(Outcome(c));
    }
  }

  lemma WithinMore(c: Case, less: nat, more: nat)
    requires Within(c, less) && less <= more
    ensures Within(c, more)
  {
    FresherRun(c.cfg, Link.Start(c.heartbeatDue, c.maxPacket, c.mem), c.hs, less, more);
  }

  lemma {:induction false} FresherRun(cfg: Config, s: System, hs: seq<Happening>, less: nat, more: nat)
    requires StaysFresh(cfg, s, hs, less) && less <= more
    ensures StaysFresh(cfg, s, hs, more)
    decreases |hs|
  {
    hide After;
    if hs != [] { FresherRun(cfg, s, hs[..|hs| - 1], less, more); }
  }

  lemma HonestRun(c: Case, round: nat)
    requires Within(c, round) && round <= LAST_ID
    ensures Honest(Outcome(c))
  {
    hide After, Link.Start;
    FresherRun(c.cfg, Link.Start(c.heartbeatDue, c.maxPacket, c.mem), c.hs, round, LAST_ID);
    var s := Outcome(c);
    forall e | e in s.worker.wire && e.owner.Some? && e.owner.value < |s.worker.resolved|
               && s.worker.resolved[e.owner.value].outcome.Ok?
      ensures e.serial in s.peer.executed
    {
      LinkRuns.ExactlyOnce(c.cfg, c.heartbeatDue, c.maxPacket, c.mem, c.hs, e);
      assert multiset(s.peer.executed)[e.serial] == 1;
    }
  }

  lemma StaleCase() returns (c: Case)
    ensures Within(c, LAST_ID + 1) && !Honest(Outcome(c))
  {
    hide After, Link.Start, Stale;
    var mem: Bytes := seq(0x1_0000, _ => 0 as bv8);
    c := Case(Impatient(0), 1, None, mem, Stale(0, 7));
    StaleAckCompletes(0, 1, None, mem, 7);
    var s := Outcome(c);
    FewTransactions(c.cfg, Link.Start(1, None, mem), c.hs, LAST_ID + 1);
    var e := Sent(LAST_ID + 1, Some(LAST_ID), Datagram(1, WriteRegister([(SomeRegister, 7)])));
    assert e in s.worker.wire && e.serial !in s.peer.executed;
  }
}
