/** One GVSP frame being put together from its packets. */
module Reassembly {
  import opened Gvsp

  const MAX_FRAME_PACKETS: nat := 0x10_0000
  const FINGERPRINTED_PACKETS: nat := 4
  const USIZE_MAX: nat := 0xffff_ffff_ffff_ffff

  datatype Config = Config(
    scps: nat, payloadSize: nat, buffers: nat, resendEnabled: bool,
    initialTimeout: nat, packetTimeout: nat, retention: nat, ratio: real)

  datatype Status = Complete | MissingPackets | Timeout | Aborted | WrongPacketId | PayloadUnsupported

  datatype PacketState = PacketState(received: bool, requested: bool, deadline: Option<int>)

  const Unseen := PacketState(false, false, None)

  /** The hash of a packet, taken as injective: the content itself. */
  datatype Print = Print(content: ContentType, data: Bytes)
  datatype Fingerprints = Fingerprints(head: seq<Option<Print>>, trailer: Option<(nat, Print)>)

  const NoPrints := Fingerprints([None, None, None, None], None)

  datatype Resend = Resend(disabled: bool, ratioReached: bool, requests: nat)

  /** A frame in flight. Its packet count is the length of `packets`; `prefix`
      counts the packets received without a gap from packet 0, one more than the
      last valid packet id. `serial` and `accepted` only record: the opening
      order, and the payload data taken for reassembly in arrival order. */
  datatype Frame = Frame(
    serial: nat, frameId: nat, extended: bool,
    data: Bytes, packets: seq<PacketState>,
    blockSize: Pos, blockKnown: bool, held: seq<(Pos, Bytes)>, heldBytes: nat,
    trailerSeen: bool, prefix: nat, receivedSize: nat, dataEnd: nat,
    lastTime: int, leader: Option<Bytes>, error: Option<Status>,
    resend: Resend, prints: Fingerprints, replayOf: Option<Fingerprints>,
    accepted: seq<(Pos, Bytes)>)

  function EstimatedBlock(cfg: Config, extended: bool): nat {
    if cfg.scps < Overhead(extended) then 0 else cfg.scps - Overhead(extended)
  }

  /** Most packets a frame can have before its block size is known. */
  function PacketLimit(cfg: Config): (r: nat)
    ensures r >= 2
  {
    Min(cfg.payloadSize + 2, MAX_FRAME_PACKETS)
  }

  /** Expected packets of a frame, judged from whichever packet arrives first. */
  function ExpectedPackets(cfg: Config, view: View): nat {
    var block := EstimatedBlock(cfg, view.extended);
    if block == 0 then 0 else
    var estimate := Min(DivCeil(cfg.payloadSize, block) + 2, MAX_FRAME_PACKETS);
    match view.content
    case Leader => if Reassembled(view.data) then estimate else 0
    case Payload => estimate
    case Trailer => if 2 <= view.packetId + 1 <= PacketLimit(cfg) then view.packetId + 1 else estimate
    case AllIn => 1
    case Other => 0
  }

  function Resized(packets: seq<PacketState>, n: nat): (r: seq<PacketState>)
    ensures |r| == n
    ensures forall i | 0 <= i < n :: r[i] == if i < |packets| then packets[i] else Unseen
  {
    if n <= |packets| then packets[..n] else packets + seq(n - |packets|, _ => Unseen)
  }

  function SetPackets(f: Frame, n: nat): Frame {
    f.(packets := Resized(f.packets, n), prefix := Min(f.prefix, n))
  }

  function Offset(id: Pos, block: nat): nat { (id - 1) * block }

  /** Writes one payload packet's data at its block's offset. */
  function Place(f: Frame, id: Pos, data: Bytes): Frame {
    if |data| > f.blockSize || Offset(id, f.blockSize) > USIZE_MAX then f.(error := Some(WrongPacketId))
    else
      var offset := Offset(id, f.blockSize);
      if offset + |data| > |f.data| && offset >= |f.data| then f
      else
        var d := if offset + |data| > |f.data| then data[..|f.data| - offset] else data;
        f.(data := f.data[..offset] + d + f.data[offset + |d|..],
           receivedSize := f.receivedSize + |d|,
           dataEnd := Max(f.dataEnd, offset + |d|))
  }

  function PlaceHeld(f: Frame, held: seq<(Pos, Bytes)>): Frame
    decreases |held|
  {
    if held == [] || f.error.Some? then f
    else if held[0].0 + 2 > |f.packets| then f.(error := Some(WrongPacketId))
    else PlaceHeld(Place(f, held[0].0, held[0].1), held[1..])
  }

  /** Payload packet 1 fixes the block size and, before a trailer, the count. */
  function LearnBlock(cfg: Config, f: Frame, data: Bytes): Frame {
    var block: Pos := if data != [] then |data| else f.blockSize;
    var g := f.(blockKnown := true, blockSize := block);
    var fits := DivCeil(cfg.payloadSize, block) + 2;
    if !f.trailerSeen then SetPackets(g, Min(fits, MAX_FRAME_PACKETS))
    else if |f.packets| > fits then g.(error := Some(WrongPacketId))
    else g
  }

  /** A payload packet ahead of packet 1 is kept until its offset is known. */
  function Hold(f: Frame, id: Pos, data: Bytes): Frame {
    var g := f.(heldBytes := f.heldBytes + |data|);
    if g.heldBytes > |f.data| + MAXIMUM_PACKET_SIZE then g.(error := Some(WrongPacketId))
    else (if id + 2 > |g.packets| then SetPackets(g, id + 2) else g).(held := f.held + [(id, data)])
  }

  function LastPayload(cfg: Config, f: Frame): int {
    if f.blockKnown || f.trailerSeen then Max(|f.packets| - 2, 0) else PacketLimit(cfg) - 2
  }

  function ProcessPayload(cfg: Config, f: Frame, id: nat, data: Bytes): Frame {
    if f.error.Some? then f else
    var g := if id == 1 && !f.blockKnown then LearnBlock(cfg, f, data) else f;
    if g.error.Some? then g
    else if id < 1 || id > LastPayload(cfg, g) then g.(error := Some(WrongPacketId))
    else
      var h := g.(accepted := g.accepted + [(id, data)]);
      if !h.blockKnown then Hold(h, id, data)
      else PlaceHeld(Place(h, id, data).(held := []), h.held).(heldBytes := 0)
  }

  function ProcessLeader(f: Frame, id: nat, data: Bytes): Frame {
    if f.error.Some? then f
    else if id != 0 then f.(error := Some(WrongPacketId))
    else f.(leader := if |data| < 12 then None else Some(data))
  }

  predicate ReceivedFrom(packets: seq<PacketState>, id: nat) {
    exists i | id <= i < |packets| :: packets[i].received
  }

  function ProcessTrailer(cfg: Config, f: Frame, id: nat): Frame {
    var g := f.(trailerSeen := true);
    if f.error.Some? then g else
    var bound := if f.blockKnown then Min(DivCeil(cfg.payloadSize, f.blockSize) + 2, MAX_FRAME_PACKETS)
                 else PacketLimit(cfg);
    if id < 1 || id >= bound || ReceivedFrom(f.packets, id) then g.(error := Some(WrongPacketId))
    else if |f.packets| != id + 1 then SetPackets(g, id + 1)
    else g
  }

  function Process(cfg: Config, f: Frame, view: View): Frame
    requires view.content.Leader? || view.content.Payload? || view.content.Trailer?
  {
    match view.content
    case Leader => ProcessLeader(f, view.packetId, view.data)
    case Payload => ProcessPayload(cfg, f, view.packetId, view.data)
    case Trailer => ProcessTrailer(cfg, f, view.packetId)
  }

  /** The first packet at or after `i` that is still missing. */
  function FirstMissing(packets: seq<PacketState>, i: nat): (r: nat)
    ensures i <= r <= Max(i, |packets|)
    ensures forall k | i <= k < r :: packets[k].received
    ensures r < |packets| ==> !packets[r].received
    decreases |packets| - i
  {
    if i < |packets| && packets[i].received then FirstMissing(packets, i + 1) else i
  }

  function MarkReceived(f: Frame, id: nat): Frame {
    var packets := if id < |f.packets| then f.packets[id := f.packets[id].(received := true)] else f.packets;
    f.(packets := packets, prefix := FirstMissing(packets, f.prefix))
  }

  function Recorded(prints: Fingerprints, view: View): Fingerprints {
    var p := Print(view.content, view.data);
    if view.content.Trailer? then prints.(trailer := Some((view.packetId, p)))
    else if view.packetId < |prints.head| then prints.(head := prints.head[view.packetId := Some(p)])
    else prints
  }

  /** The reference remembers a different packet in this packet's place. */
  predicate Diverges(reference: Fingerprints, view: View) {
    var p := Print(view.content, view.data);
    if view.content.Trailer? then reference.trailer.Some? && reference.trailer != Some((view.packetId, p))
    else view.packetId < |reference.head| && reference.head[view.packetId].Some?
         && reference.head[view.packetId] != Some(p)
  }

  predicate AllReceived(f: Frame) { f.prefix == |f.packets| }

  // --------------------------------------------------- structural invariant

  ghost predicate Sized(cfg: Config, f: Frame) {
    && |f.data| == cfg.payloadSize
    && 1 <= |f.packets| <= PacketLimit(cfg) && f.prefix <= |f.packets|
    && (forall i | 0 <= i < f.prefix :: f.packets[i].received)
    && |f.prints.head| == FINGERPRINTED_PACKETS
    && (f.error.Some? ==> f.error.value == WrongPacketId)
  }

  lemma PlaceSized(cfg: Config, f: Frame, id: Pos, data: Bytes)
    requires Sized(cfg, f)
    ensures Sized(cfg, Place(f, id, data))
    ensures Place(f, id, data) == f.(data := Place(f, id, data).data, receivedSize := Place(f, id, data).receivedSize,
                                     dataEnd := Place(f, id, data).dataEnd, error := Place(f, id, data).error)
  {
  }

  /** Replaying held data touches the buffer, its sums and the error, no more. */
  lemma {:induction false} PlaceHeldSized(cfg: Config, f: Frame, held: seq<(Pos, Bytes)>)
    requires Sized(cfg, f)
    ensures var g := PlaceHeld(f, held);
            && Sized(cfg, g)
            && g == f.(data := g.data, receivedSize := g.receivedSize, dataEnd := g.dataEnd, error := g.error)
    decreases |held|
  {
    hide Place;
    if held != [] && f.error.None? && held[0].0 + 2 <= |f.packets| {
      PlaceSized(cfg, f, held[0].0, held[0].1);
      PlaceHeldSized(cfg, Place(f, held[0].0, held[0].1), held[1..]);
    }
  }

  lemma PayloadSized(cfg: Config, f: Frame, id: nat, data: Bytes)
    requires Sized(cfg, f)
    ensures Sized(cfg, ProcessPayload(cfg, f, id, data))
    ensures ProcessPayload(cfg, f, id, data).prints == f.prints
  {
    hide PlaceHeld, Place, DivCeil;
    var g := if id == 1 && !f.blockKnown then LearnBlock(cfg, f, data) else f;
    DivCeilAtMost(cfg.payloadSize, g.blockSize);
    if f.error.None? && g.error.None? && 1 <= id <= LastPayload(cfg, g) && g.blockKnown {
      var h := g.(accepted := g.accepted + [(id, data)]);
      PlaceSized(cfg, h, id, data);
      PlaceHeldSized(cfg, Place(h, id, data).(held := []), g.held);
    }
  }

  lemma DivCeilAtMost(a: nat, b: Pos)
    ensures DivCeil(a, b) <= a
  {
    var q := DivCeil(a, b);
    assert q * b <= a + b - 1;
    Multiples(a + 1, q, b);
  }

  lemma ProcessSized(cfg: Config, f: Frame, view: View)
    requires Sized(cfg, f) && (view.content.Leader? || view.content.Payload? || view.content.Trailer?)
    ensures Sized(cfg, Process(cfg, f, view))
    ensures Process(cfg, f, view).prints == f.prints
  {
    hide ProcessPayload, DivCeil;
    DivCeilAtMost(cfg.payloadSize, f.blockSize);
    if view.content.Payload? { PayloadSized(cfg, f, view.packetId, view.data); }
  }

  lemma MarkSized(cfg: Config, f: Frame, id: nat)
    requires Sized(cfg, f)
    ensures Sized(cfg, MarkReceived(f, id))
  {
  }
}
