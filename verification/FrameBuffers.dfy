/** A frame in flight in place: packet data goes straight into its pooled buffer. */
module FrameBuffers {
  import opened Gvsp
  import opened Reassembly
  import opened Holes
  import opened Receiver

  class FrameInFlight {
    const serial: nat
    const frameId: nat
    const extended: bool
    const data: array<bv8>

    var packets: seq<PacketState>
    var blockSize: Pos
    var blockKnown: bool
    var held: seq<(Pos, Bytes)>
    var heldBytes: nat
    var trailerSeen: bool
    var prefix: nat
    var receivedSize: nat
    var dataEnd: nat
    var lastTime: int
    var leader: Option<Bytes>
    var error: Option<Status>
    var resend: Resend
    var prints: Fingerprints
    var replayOf: Option<Fingerprints>
    ghost var accepted: seq<(Pos, Bytes)>

    ghost function Value(): Frame
      reads this, data
    {
      Frame(serial, frameId, extended, data[..], packets, blockSize, blockKnown, held, heldBytes, trailerSeen, prefix,
            receivedSize, dataEnd, lastTime, leader, error, resend, prints, replayOf, accepted)
    }

    constructor (serial: nat, view: View, buffer: array<bv8>, block: Pos, count: nat, now: int, replayOf: Option<Fingerprints>)
      ensures data == buffer
      ensures Value() == Frame(serial, view.frameId, view.extended, buffer[..], seq(count, _ => Unseen), block, false, [], 0,
                               false, 0, 0, 0, now, None, None, Resend(replayOf.Some?, false, 0), NoPrints, replayOf, [])
    {
      this.serial, frameId, extended, data := serial, view.frameId, view.extended, buffer;
      packets := seq(count, _ => Unseen);
      blockSize, blockKnown, held, heldBytes, trailerSeen := block, false, [], 0, false;
      prefix, receivedSize, dataEnd, lastTime := 0, 0, 0, now;
      leader, error, resend := None, None, Resend(replayOf.Some?, false, 0);
      prints, this.replayOf := NoPrints, replayOf;
      accepted := [];
    }

    method SetCount(n: nat)
      modifies this
      ensures Value() == SetPackets(old(Value()), n)
    {
      packets := Resized(packets, n);
      if prefix > n { prefix := n; }
    }

    /** Writes one payload packet's data at its block's offset. */
    method PlaceData(id: Pos, bytes: Bytes)
      modifies this, data
      ensures Value() == Place(old(Value()), id, bytes)
    {
      if |bytes| > blockSize || Offset(id, blockSize) > USIZE_MAX {
        error := Some(WrongPacketId);
        return;
      }
      var offset := Offset(id, blockSize);
      var d := bytes;
      if offset + |d| > data.Length {
        if offset >= data.Length {
          return;
        }
        d := d[..data.Length - offset];
      }
      forall i | 0 <= i < |d| { data[offset + i] := d[i]; }
      receivedSize := receivedSize + |d|;
      dataEnd := Max(dataEnd, offset + |d|);
      assert data[..] == old(data[..])[..offset] + d + old(data[..])[offset + |d|..];
    }

    /** Places what was held back, up to the first that does not fit. */
    method PlaceAll(ids: seq<(Pos, Bytes)>)
      modifies this, data
      ensures Value() == PlaceHeld(old(Value()), ids)
    {
      hide Place;
      var rest := ids;
      while rest != []
        invariant PlaceHeld(Value(), rest) == PlaceHeld(old(Value()), ids)
        decreases |rest|
      {
        if error.Some? {
          break;
        }
        if rest[0].0 + 2 > |packets| {
          error := Some(WrongPacketId);
          return;
        }
        PlaceData(rest[0].0, rest[0].1);
        rest := rest[1..];
      }
    }

    /** Payload packet 1 fixes the block size and, before a trailer, the count. */
    method Learn(cfg: Config, bytes: Bytes)
      requires !blockKnown
      modifies this
      ensures Value() == LearnBlock(cfg, old(Value()), bytes)
    {
      blockKnown := true;
      if bytes != [] { blockSize := |bytes|; }
      var fits := DivCeil(cfg.payloadSize, blockSize) + 2;
      if !trailerSeen {
        SetCount(Min(fits, MAX_FRAME_PACKETS));
      } else if |packets| > fits {
        error := Some(WrongPacketId);
      }
    }

    method HoldBack(id: Pos, bytes: Bytes)
      modifies this
      ensures Value() == Hold(old(Value()), id, bytes)
    {
      heldBytes := heldBytes + |bytes|;
      if heldBytes > data.Length + MAXIMUM_PACKET_SIZE {
        error := Some(WrongPacketId);
        return;
      }
      if id + 2 > |packets| { SetCount(id + 2); }
      held := held + [(id, bytes)];
    }

    method TakePayload(cfg: Config, id: nat, bytes: Bytes)
      modifies this, data
      ensures Value() == ProcessPayload(cfg, old(Value()), id, bytes)
    {
      hide Place, PlaceHeld, LearnBlock, Hold, DivCeil;
      if error.Some? {
        return;
      }
      if id == 1 && !blockKnown {
        Learn(cfg, bytes);
        LearnFrame(cfg, old(Value()), bytes);
        if error.Some? {
          return;
        }
      }
      var last := if blockKnown || trailerSeen then Max(|packets| - 2, 0) else PacketLimit(cfg) - 2;
      if id < 1 || id > last {
        error := Some(WrongPacketId);
        return;
      }
      accepted := accepted + [(id, bytes)];
      if !blockKnown {
        HoldBack(id, bytes);
        return;
      }
      Settle(id, bytes);
    }

    /** Places the packet, then what was held back for it. */
    method Settle(id: Pos, bytes: Bytes)
      modifies this, data
      ensures var f := old(Value()); Value() == PlaceHeld(Place(f, id, bytes).(held := []), f.held).(heldBytes := 0)
    {
      hide Place, PlaceHeld;
      var waiting := held;
      PlaceData(id, bytes);
      held := [];
      PlaceAll(waiting);
      heldBytes := 0;
    }

    method TakeLeader(id: nat, bytes: Bytes)
      modifies this
      ensures Value() == ProcessLeader(old(Value()), id, bytes)
    {
      if error.Some? {
        return;
      }
      if id != 0 {
        error := Some(WrongPacketId);
        return;
      }
      leader := if |bytes| < 12 then None else Some(bytes);
    }

    method TakeTrailer(cfg: Config, id: nat)
      modifies this
      ensures Value() == ProcessTrailer(cfg, old(Value()), id)
    {
      hide DivCeil;
      trailerSeen := true;
      if error.Some? {
        return;
      }
      var bound := if blockKnown then Min(DivCeil(cfg.payloadSize, blockSize) + 2, MAX_FRAME_PACKETS) else PacketLimit(cfg);
      var contradicted := false;
      for i := id to Max(id, |packets|)
        invariant contradicted <==> exists k | id <= k < i :: k < |packets| && packets[k].received
      {
        if packets[i].received { contradicted := true; }
      }
      assert contradicted <==> ReceivedFrom(packets, id);
      if id < 1 || id >= bound || contradicted {
        error := Some(WrongPacketId);
        return;
      }
      if |packets| != id + 1 { SetCount(id + 1); }
    }

    /** Flags the packet and moves on over all received without a gap. */
    method Mark(id: nat)
      modifies this
      ensures Value() == MarkReceived(old(Value()), id)
    {
      if id < |packets| { packets := packets[id := packets[id].(received := true)]; }
      while prefix < |packets| && packets[prefix].received
        invariant Value() == MarkReceived(old(Value()), id).(prefix := prefix)
        invariant FirstMissing(packets, prefix) == MarkReceived(old(Value()), id).prefix
        decreases |packets| - prefix
      {
        prefix := prefix + 1;
      }
    }

    method Take(cfg: Config, view: View)
      requires Assembled(view)
      modifies this, data
      ensures Value() == TakeInto(cfg, old(Value()), view)
    {
      hide ProcessPayload, ProcessTrailer, ProcessLeader, MarkReceived, Recorded;
      match view.content {
        case Leader => TakeLeader(view.packetId, view.data);
        case Payload => TakePayload(cfg, view.packetId, view.data);
        case Trailer => TakeTrailer(cfg, view.packetId);
      }
      Mark(view.packetId);
      prints := Recorded(prints, view);
    }

    /** Walks the holes behind `packetId` and says what to ask for again. */
    method FindHoles(cfg: Config, packetId: nat, now: int) returns (ranges: seq<Range>)
      modifies this
      ensures (Value(), ranges) == MissingCheck(cfg, old(Value()), packetId, now)
    {
      hide StepWalk, MaxRequests;
      ghost var f := Value();
      if !cfg.resendEnabled || resend.disabled || resend.ratioReached {
        return [];
      }
      var max := MaxRequests(cfg, |packets|);
      if max == 0 || packetId >= |packets| {
        return [];
      }
      var w, i := Walk(packets, resend.requests, [], None, false), prefix;
      while i <= packetId + 1 && !w.reached
        invariant Value() == f
        invariant packetId < |w.packets| && (w.first.Some? ==> w.first.value < i)
        invariant WalkHoles(cfg, max, w, i, packetId, now) == FullWalk(cfg, f, packetId, now)
        decreases packetId + 2 - i
      {
        StepKeeps(cfg, max, w, i, packetId, now);
        w := Turn(cfg, max, w, i, packetId, now);
        i := i + 1;
      }
      packets := w.packets;
      resend := resend.(requests := w.requests, ratioReached := w.reached);
      ranges := w.ranges;
    }
  }

  lemma LearnFrame(cfg: Config, f: Frame, bytes: Bytes)
    ensures var g := LearnBlock(cfg, f, bytes); g.blockKnown && g.trailerSeen == f.trailerSeen
  {
  }
}
