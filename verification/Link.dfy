/** The control worker and the device over two links that keep the order of
    datagrams but may lose or repeat them. */
module Link {
  import opened Gvsp
  import opened Gvcp
  import opened Worker
  import Device

  /** The last command carried out, which the device answers again when it comes
      again. `of`, `before` and `short` record the transaction, the memory it
      found and the length limit of its answer. */
  datatype Last = Last(code: nat, id: nat, ack: Ack, of: Pos, before: Bytes, short: Pos)

  /** An acknowledge on its way back, and the transaction it answers. */
  datatype Reply = Reply(of: Pos, ack: Ack)

  /** The device. `executed` records the transactions carried out; `client` the
      request served last, and `base` the memory it found when first served. */
  datatype Peer = Peer(
    maxPacket: Option<nat>, mem: Bytes, last: Option<Last>, duplicates: nat,
    executed: seq<nat>, replies: seq<Reply>, client: Option<nat>, base: Bytes)

  /** Each link delivers what was sent at a position that never goes back: later
      positions are skipped datagrams, the same position a repeated one. */
  datatype System = System(worker: State, peer: Peer, commandPos: nat, ackPos: nat)

  function Start(heartbeatDue: int, maxPacket: Option<nat>, mem: Bytes): System {
    System(Initial(heartbeatDue), Peer(maxPacket, mem, None, 0, [], [], None, mem), 0, 0)
  }

  predicate Repeats(p: Peer, d: Datagram) {
    p.last.Some? && p.last.value.code == Code(d.command) && p.last.value.id == d.id
  }

  /** A command reaches the device. */
  function Handle(p: Peer, e: Sent, short: Pos): Peer {
    if Repeats(p, e.datagram) then
      p.(duplicates := p.duplicates + 1, replies := p.replies + [Reply(p.last.value.of, p.last.value.ack)])
    else
      var effect := Device.Execute(p.maxPacket, p.mem, e.datagram, short);
      var found := e.owner.Some? && p.client != e.owner;
      p.(mem := effect.mem, executed := p.executed + [e.serial], replies := p.replies + [Reply(e.serial, effect.ack)],
         last := Some(Last(Code(e.datagram.command), e.datagram.id, effect.ack, e.serial, p.mem, short)),
         client := if found then e.owner else p.client, base := if found then p.mem else p.base)
  }

  datatype Happening =
    | Works(e: Timed)
    | CommandArrives(index: nat, short: Pos)
    | AckArrives(index: nat, now: int, canSend: bool)

  /** What the links can deliver; the worker hears only from the device. */
  predicate Possible(s: System, h: Happening) {
    match h
    case Works(e) => !e.event.Received?
    case CommandArrives(i, _) => s.commandPos <= i < |s.worker.wire|
    case AckArrives(i, _, _) => s.ackPos <= i < |s.peer.replies|
  }

  /** What cannot happen changes nothing. */
  function Next(cfg: Config, s: System, h: Happening): System {
    if !Possible(s, h) then s
    else
      match h
      case Works(e) => s.(worker := Step(cfg, s.worker, e))
      case CommandArrives(i, short) => s.(peer := Handle(s.peer, s.worker.wire[i], short), commandPos := i)
      case AckArrives(i, now, canSend) =>
        s.(worker := Step(cfg, s.worker, Timed(Received(Some(s.peer.replies[i].ack)), now, canSend)), ackPos := i)
  }

  function After(cfg: Config, s: System, hs: seq<Happening>): System
    decreases |hs|
  {
    if hs == [] then s else Next(cfg, After(cfg, s, hs[..|hs| - 1]), hs[|hs| - 1])
  }

  /** One of the latest `round` transactions has been acknowledged. */
  predicate Fresh(w: State, round: nat) { w.serial < Max(1, w.acked) + round }

  /** The same, all through the run. */
  predicate StaysFresh(cfg: Config, s: System, hs: seq<Happening>, round: nat)
    decreases |hs|
  {
    Fresh(After(cfg, s, hs).worker, round) && (hs == [] || StaysFresh(cfg, s, hs[..|hs| - 1], round))
  }
}
