/** A device's burst for one frame, and what a receiver frame looks like after
    any part of the burst has arrived, in any order. */
module Bursts {
  import opened Gvsp
  import opened Reassembly
  import opened FrameContent
  import opened Receiver

  /** One image cut into blocks, between a leader and a trailer. */
  datatype Burst = Burst(id: nat, extended: bool, leader: Bytes, trailer: Bytes, image: Bytes, block: Pos) {
    /** Payload packets. */
    function Count(): nat { DivCeil(|image|, block) }

    /** The trailer's packet id. */
    function Last(): nat { Count() + 1 }

    function Chunk(k: Pos): Bytes
      requires k <= Count()
    {
      CutBlock(image, block, k)
    }

    function Content(k: nat): ContentType {
      if k == 0 then Leader else if k <= Count() then Payload else Trailer
    }

    function Body(k: nat): Bytes {
      if k == 0 then leader else if k <= Count() then Chunk(k) else trailer
    }

    /** The datagram is packet `packetId` of this burst, sent or sent again. */
    ghost predicate Sends(view: View) {
      && !IsError(view.status) && view.extended == extended && view.frameId == id && view.packetId <= Last()
      && view.content == Content(view.packetId) && view.data == Body(view.packetId)
    }
  }

  /** Block `k`, counted from 1; every one but the last is full. */
  function CutBlock(image: Bytes, block: Pos, k: Pos): Bytes
    requires k <= DivCeil(|image|, block)
  {
    OffsetInside(k, block, |image|);
    image[Offset(k, block)..Min(Offset(k, block) + block, |image|)]
  }

  /** The receiver is set up for the device's bursts. */
  ghost predicate Suits(cfg: Config, b: Burst) {
    && cfg.payloadSize <= USIZE_MAX && EstimatedBlock(cfg, b.extended) >= 1
    && |b.image| <= cfg.payloadSize && Reassembled(b.leader) && b.Count() + 2 <= MAX_FRAME_PACKETS
    && 1 <= b.id <= MaxId(b.extended)
  }

  // ---------------------------------------------------- cutting an image

  lemma ChunkSizes(image: Bytes, block: Pos, k: Pos)
    requires k <= DivCeil(|image|, block)
    ensures var c := CutBlock(image, block, k);
            && 1 <= |c| <= block && Offset(k, block) + |c| <= |image|
            && (k < DivCeil(|image|, block) ==> |c| == block)
            && (k == DivCeil(|image|, block) ==> Offset(k, block) + |c| == |image|)
  {
    OffsetInside(k, block, |image|);
    var n := DivCeil(|image|, block);
    if k < n {
      OffsetInside(k + 1, block, |image|);
    } else {
      assert n * block >= |image|;
    }
  }

  lemma CountAtMost(b: Burst, cfg: Config)
    requires |b.image| <= cfg.payloadSize
    ensures b.Count() <= cfg.payloadSize
    ensures b.image == [] <==> b.Count() == 0
  {
    DivCeilAtMost(|b.image|, b.block);
    if b.image != [] { DivCeilPositive(|b.image|, b.block); }
  }

  lemma DivCeilPositive(a: nat, b: Pos)
    requires a > 0
    ensures DivCeil(a, b) >= 1
  {
    Multiples(1, DivCeil(a, b), b);
  }

  /** Cutting at a larger capacity gives at least as many blocks. */
  lemma DivCeilGrows(a: nat, c: nat, block: Pos)
    requires a <= c
    ensures DivCeil(a, block) <= DivCeil(c, block)
  {
    var x, y := DivCeil(a, block), DivCeil(c, block);
    assert x * block <= a + block - 1 && c + block - 1 < (y + 1) * block;
    Multiples(y + 1, x, block);
  }

  /** The block size the receiver learns from packet 1 leaves room for the burst. */
  lemma LearnedRoom(cfg: Config, b: Burst)
    requires Suits(cfg, b) && b.Count() >= 1
    ensures |b.Chunk(1)| >= 1 && DivCeil(cfg.payloadSize, |b.Chunk(1)|) >= b.Count()
    ensures forall k: Pos | k <= b.Count() :: |b.Chunk(k)| <= |b.Chunk(1)|
  {
    hide CutBlock, DivCeil;
    var n := b.Count();
    ChunkSizes(b.image, b.block, 1);
    forall k: Pos | k <= n ensures |b.Chunk(k)| <= |b.Chunk(1)| { ChunkSizes(b.image, b.block, k); }
    if n > 1 {
      DivCeilGrows(|b.image|, cfg.payloadSize, b.block);
    } else {
      DivCeilPositive(cfg.payloadSize, |b.Chunk(1)|);
    }
  }

  // ------------------------------------------------ a frame being filled

  ghost predicate FlagsAre(packets: seq<PacketState>, got: set<nat>) {
    && (forall i | 0 <= i < |packets| :: packets[i].received <==> i in got)
    && (forall i | i in got :: i < |packets|)
  }

  /** Payload data taken is the burst's own, for exactly the ids received. */
  ghost predicate Taken(b: Burst, acc: Accepted, got: set<nat>) {
    && (forall a | a in acc :: a.0 <= b.Count() && a.0 in got && a.1 == b.Chunk(a.0))
    && (forall k: Pos | k in got && k <= b.Count() :: (k, b.Chunk(k)) in acc)
  }

  ghost predicate SizedFor(b: Burst, f: Frame, got: set<nat>) {
    && (f.trailerSeen <==> b.Last() in got)
    && (f.blockKnown <==> b.Count() >= 1 && 1 in got)
    && |f.packets| >= (if b.Count() >= 1 then 3 else 2)
    && (f.trailerSeen ==> |f.packets| == b.Count() + 2)
    && (f.blockKnown ==> |f.packets| >= b.Count() + 2 && f.blockSize == |b.Chunk(1)|)
    && f.prefix == FirstMissing(f.packets, 0)
  }

  /** `f` is the burst's frame after exactly the packets in `got`. */
  ghost predicate Filling(cfg: Config, b: Burst, f: Frame, got: set<nat>) {
    && Reliable(cfg, f) && f.error.None? && (forall i | i in got :: i <= b.Last())
    && FlagsAre(f.packets, got) && Taken(b, f.accepted, got) && SizedFor(b, f, got)
  }

  lemma NewFilling(cfg: Config, b: Burst, s: State, view: View, now: int, buffer: Bytes, replayOf: Option<Fingerprints>)
    requires Suits(cfg, b) && b.Sends(view) && |buffer| == cfg.payloadSize
    ensures var n := ExpectedPackets(cfg, view);
            && n >= 1 && n <= PacketLimit(cfg)
            && Filling(cfg, b, NewFrame(cfg, s, view, now, buffer, n, replayOf), {})
  {
    hide CutBlock, DivCeil;
    CountAtMost(b, cfg);
    var e := EstimatedBlock(cfg, b.extended);
    DivCeilAtMost(cfg.payloadSize, e);
    if b.Count() >= 1 { DivCeilPositive(cfg.payloadSize, e); }
  }

  // ----------------------------------------------------- taking a packet

  lemma {:induction false} FirstMissingFrom(packets: seq<PacketState>, i: nat, j: nat)
    requires i <= j && j <= |packets| && forall k | i <= k < j :: packets[k].received
    ensures FirstMissing(packets, i) == FirstMissing(packets, j)
    decreases j - i
  {
    if i < j { FirstMissingFrom(packets, i + 1, j); }
  }

  /** The frame between reassembly and flagging of packet `id`. */
  ghost predicate Halfway(cfg: Config, b: Burst, g: Frame, got: set<nat>, id: nat) {
    && Sized(cfg, g) && g.error.None? && FlagsAre(g.packets, got) && id < |g.packets|
    && Taken(b, g.accepted, got + {id})
    && (g.trailerSeen <==> b.Last() in got + {id})
    && (g.blockKnown <==> b.Count() >= 1 && 1 in got + {id})
    && |g.packets| >= (if b.Count() >= 1 then 3 else 2)
    && (g.trailerSeen ==> |g.packets| == b.Count() + 2)
    && (g.blockKnown ==> |g.packets| >= b.Count() + 2 && g.blockSize == |b.Chunk(1)|)
  }

  lemma MarkFills(cfg: Config, b: Burst, g: Frame, got: set<nat>, id: nat)
    requires Halfway(cfg, b, g, got, id)
    ensures var h := MarkReceived(g, id);
            FlagsAre(h.packets, got + {id}) && Taken(b, h.accepted, got + {id}) && SizedFor(b, h, got + {id})
  {
    hide Taken, DivCeil, CutBlock;
    var h := MarkReceived(g, id);
    FirstMissingFrom(h.packets, 0, g.prefix);
  }

  lemma LeaderHalfway(cfg: Config, b: Burst, f: Frame, got: set<nat>, view: View)
    requires Filling(cfg, b, f, got) && b.Sends(view) && view.packetId == 0
    ensures Halfway(cfg, b, Process(cfg, f, view), got, 0)
  {
    hide Reliable, CutBlock, DivCeil;
    ReliableSized(cfg, f);
    assert got + {0} == got || forall i | i in got + {0} :: i in got || i == 0;
  }

  lemma ReliableSized(cfg: Config, f: Frame)
    requires Reliable(cfg, f)
    ensures Sized(cfg, f)
  {
  }

  lemma TrailerHalfway(cfg: Config, b: Burst, f: Frame, got: set<nat>, view: View)
    requires Suits(cfg, b) && Filling(cfg, b, f, got) && b.Sends(view) && view.packetId == b.Last() && b.Last() !in got
    ensures Halfway(cfg, b, Process(cfg, f, view), got, b.Last())
  {
    hide Reliable, CutBlock, DivCeil, Taken;
    ReliableSized(cfg, f);
    CountAtMost(b, cfg);
    if f.blockKnown { LearnedRoom(cfg, b); }
    ProcessSized(cfg, f, view);
    TakenMore(b, f.accepted, got, b.Last());
    assert !ReceivedFrom(f.packets, b.Last());
  }

  lemma TakenMore(b: Burst, acc: Accepted, got: set<nat>, id: nat)
    requires Taken(b, acc, got) && (id == 0 || id > b.Count())
    ensures Taken(b, acc, got + {id})
  {
  }

  lemma TakenPayload(b: Burst, acc: Accepted, got: set<nat>, id: Pos)
    requires Taken(b, acc, got) && id <= b.Count()
    ensures Taken(b, acc + [(id, b.Chunk(id))], got + {id})
  {
    hide DivCeil, CutBlock;
    var more := acc + [(id, b.Chunk(id))];
    forall k: Pos | k in got + {id} && k <= b.Count() ensures (k, b.Chunk(k)) in more {
      if k == id { assert more[|acc|] == (id, b.Chunk(id)); }
    }
  }

  /** Chunks of the learned size or less go in without error. */
  lemma {:induction false} PlaceHeldClean(f: Frame, held: Accepted)
    requires f.error.None? && |f.data| <= USIZE_MAX && |f.packets| <= DivCeil(|f.data|, f.blockSize) + 2
    requires forall h | h in held :: |h.1| <= f.blockSize && h.0 + 2 <= |f.packets|
    ensures PlaceHeld(f, held).error.None?
    decreases |held|
  {
    hide Offset, DivCeil;
    if held != [] {
      assert held[0] in held;
      PlaceClean(f, held[0].0, held[0].1);
      assert forall h | h in held[1..] :: h in held;
      PlaceHeldClean(Place(f, held[0].0, held[0].1), held[1..]);
    }
  }

  lemma PlaceClean(f: Frame, id: Pos, data: Bytes)
    requires f.error.None? && |f.data| <= USIZE_MAX && id <= DivCeil(|f.data|, f.blockSize) && |data| <= f.blockSize
    ensures var g := Place(f, id, data);
            && g == f.(data := g.data, receivedSize := g.receivedSize, dataEnd := g.dataEnd) && |g.data| == |f.data|
  {
    hide Offset, DivCeil;
    OffsetInside(id, f.blockSize, |f.data|);
  }

  /** Less is held than the image has. */
  lemma HeldFits(b: Burst, acc: Accepted, got: set<nat>)
    requires Taken(b, acc, got) && DistinctIds(acc)
    ensures HeldSize(acc) <= |b.image|
  {
    hide HeldSize, Joined, CutBlock, DivCeil;
    JoinedSize(acc, b.Count()) by {
      assert forall i | 0 <= i < |acc| :: acc[i] in acc;
    }
    JoinedFits(b, acc, got, b.Count());
  }

  lemma {:induction false} JoinedFits(b: Burst, acc: Accepted, got: set<nat>, m: nat)
    requires Taken(b, acc, got) && m <= b.Count()
    ensures |Joined(acc, m)| <= Min(m * b.block, |b.image|)
  {
    hide CutBlock, DivCeil, Taken;
    if m > 0 {
      JoinedFits(b, acc, got, m - 1);
      ChunkSizes(b.image, b.block, m);
      FirstIn(acc, m);
      if First(acc, m) != [] { TakenChunk(b, acc, got, m, First(acc, m)); }
      assert m * b.block == (m - 1) * b.block + b.block;
    }
  }

  lemma TakenChunk(b: Burst, acc: Accepted, got: set<nat>, k: Pos, data: Bytes)
    requires Taken(b, acc, got) && (k, data) in acc
    ensures k <= b.Count() && data == b.Chunk(k)
  {
  }

  lemma HoldHalfway(cfg: Config, b: Burst, f: Frame, got: set<nat>, id: Pos)
    requires Suits(cfg, b) && Filling(cfg, b, f, got) && id !in got && id <= b.Count() && id != 1 && !f.blockKnown
    ensures Halfway(cfg, b, ProcessPayload(cfg, f, id, b.Chunk(id)), got, id)
  {
    hide CutBlock, DivCeil, Taken, HeldSize, Laid, Total, Extent;
    var data := b.Chunk(id);
    CountAtMost(b, cfg);
    MissingNotAccepted(cfg, f, id);
    MoreDistinct(f.accepted, (id, data));
    TakenPayload(b, f.accepted, got, id);
    HeldFits(b, f.accepted + [(id, data)], got + {id});
    MoreHeld(f.accepted, (id, data));
    PayloadSized(cfg, f, id, data);
    assert id <= LastPayload(cfg, f);
  }

  lemma PlaceHalfway(cfg: Config, b: Burst, f: Frame, got: set<nat>, id: Pos)
    requires Suits(cfg, b) && Filling(cfg, b, f, got) && id !in got && id <= b.Count() && f.blockKnown
    ensures Halfway(cfg, b, ProcessPayload(cfg, f, id, b.Chunk(id)), got, id)
  {
    hide CutBlock, DivCeil, Taken, HeldSize, Laid, Total, Extent, Place, PlaceHeld;
    var data := b.Chunk(id);
    LearnedRoom(cfg, b);
    TakenPayload(b, f.accepted, got, id);
    PayloadSized(cfg, f, id, data);
    KnownHoldsNothing(cfg, f);
    var h := f.(accepted := f.accepted + [(id, data)]);
    PlaceClean(h, id, data);
    PlaceNone(Place(h, id, data));
  }

  lemma LearnHalfway(cfg: Config, b: Burst, f: Frame, got: set<nat>)
    requires Suits(cfg, b) && Filling(cfg, b, f, got) && 1 !in got && 1 <= b.Count()
    ensures Halfway(cfg, b, ProcessPayload(cfg, f, 1, b.Chunk(1)), got, 1)
  {
    hide CutBlock, DivCeil, HeldSize, Laid, Total, Extent, Place, PlaceHeld, Taken;
    var data := b.Chunk(1);
    LearnedRoom(cfg, b);
    TakenPayload(b, f.accepted, got, 1);
    PayloadSized(cfg, f, 1, data);
    var g := LearnBlock(cfg, f, data);
    assert g.error.None? && g.blockSize == |data| && |g.packets| >= b.Count() + 2;
    LearnedFits(cfg, f, data);
    var h := g.(accepted := g.accepted + [(1, data)]);
    PlaceClean(h, 1, data);
    var p := Place(h, 1, data).(held := []);
    HeldIsAccepted(cfg, f);
    forall a | a in f.held ensures |a.1| <= g.blockSize && a.0 + 2 <= |g.packets| {
      TakenChunk(b, f.accepted, got, a.0, a.1);
    }
    PlaceHeldClean(p, f.held);
    SizedPlace(cfg, f, g, h, data);
    PlaceHeldSized(cfg, p, f.held);
    FlagsResized(f.packets, g.packets, got, b.Last());
  }

  lemma SizedPlace(cfg: Config, f: Frame, g: Frame, h: Frame, data: Bytes)
    requires Sized(cfg, f) && g == LearnBlock(cfg, f, data) && g.error.None? && |g.packets| >= 1
    requires h == g.(accepted := g.accepted + [(1, data)])
    ensures Sized(cfg, Place(h, 1, data).(held := []))
  {
    hide Place, DivCeil;
    DivCeilAtMost(cfg.payloadSize, g.blockSize);
    PlaceSized(cfg, h, 1, data);
  }

  lemma FlagsResized(before: seq<PacketState>, after: seq<PacketState>, got: set<nat>, last: nat)
    requires FlagsAre(before, got) && (forall i | i in got :: i <= last) && last < |after|
    requires after == before || after == Resized(before, |after|)
    ensures FlagsAre(after, got)
  {
  }

  /** Any packet of the burst not yet taken is taken without fault. */
  lemma TakeFills(cfg: Config, b: Burst, f: Frame, got: set<nat>, view: View)
    requires Suits(cfg, b) && Filling(cfg, b, f, got) && b.Sends(view) && view.packetId !in got
    ensures Takes(f, view) && Filling(cfg, b, TakeInto(cfg, f, view), got + {view.packetId})
  {
    hide Sound, CutBlock, DivCeil, Taken, ProcessPayload, ProcessTrailer, FirstMissing, Recorded;
    var id := view.packetId;
    if id == 0 {
      LeaderHalfway(cfg, b, f, got, view);
    } else if id == b.Last() {
      TrailerHalfway(cfg, b, f, got, view);
    } else if id == 1 {
      LearnHalfway(cfg, b, f, got);
    } else if f.blockKnown {
      PlaceHalfway(cfg, b, f, got, id);
    } else {
      HoldHalfway(cfg, b, f, got, id);
    }
    var g := Process(cfg, f, view);
    MarkFills(cfg, b, g, got, id);
    PacketReliable(cfg, f, view);
    var h := MarkReceived(g, id);
    assert Filling(cfg, b, h, got + {id});
    RecordedSize(h.prints, view);
    PrintsFill(cfg, b, h, got + {id}, Recorded(h.prints, view));
  }

  lemma RecordedSize(prints: Fingerprints, view: View)
    ensures |Recorded(prints, view).head| == |prints.head|
  {
  }

  /** What a frame remembers besides its data has no part in filling it. */
  lemma PrintsFill(cfg: Config, b: Burst, f: Frame, got: set<nat>, prints: Fingerprints)
    requires Filling(cfg, b, f, got) && |prints.head| == |f.prints.head|
    ensures Filling(cfg, b, f.(prints := prints), got)
  {
  }

  // ------------------------------------------------------ a filled frame

  /** Packet ids 0 to n. */
  function Through(n: nat): (r: set<nat>)
    ensures forall i: nat :: i in r <==> i <= n
  {
    if n == 0 then {0} else Through(n - 1) + {n}
  }

  /** The frame counts as complete exactly when the whole burst has arrived. */
  lemma FilledExactly(cfg: Config, b: Burst, f: Frame, got: set<nat>)
    requires Filling(cfg, b, f, got)
    ensures AllReceived(f) <==> got == Through(b.Last())
  {
    hide Reliable, Taken, CutBlock, DivCeil;
    if AllReceived(f) {
      assert forall i | 0 <= i < |f.packets| :: i in got;
      assert 1 in got;
      assert got == Through(b.Last());
    }
    if got == Through(b.Last()) {
      assert b.Last() in got;
    }
  }

  lemma {:induction false} JoinedChunks(b: Burst, acc: Accepted, got: set<nat>, m: nat)
    requires Taken(b, acc, got) && DistinctIds(acc) && m <= b.Count() && Through(b.Last()) <= got
    ensures Joined(acc, m) == b.image[..Min(m * b.block, |b.image|)]
  {
    hide DivCeil, Taken;
    if m > 0 {
      JoinedChunks(b, acc, got, m - 1);
      ChunkSizes(b.image, b.block, m);
      TakenIn(b, acc, got, m);
      FirstOf(acc, m, b.Chunk(m));
      assert m * b.block == Offset(m, b.block) + b.block;
    }
  }

  lemma TakenIn(b: Burst, acc: Accepted, got: set<nat>, k: Pos)
    requires Taken(b, acc, got) && k <= b.Count() && k in got
    ensures (k, b.Chunk(k)) in acc
  {
  }

  lemma {:induction false} FirstOf(acc: Accepted, k: Pos, data: Bytes)
    requires DistinctIds(acc) && (k, data) in acc
    ensures First(acc, k) == data
  {
    if acc[0].0 != k {
      FirstOf(acc[1..], k, data);
    } else {
      var i :| 0 <= i < |acc| && acc[i] == (k, data);
    }
  }

  lemma {:induction false} ExtentAtMost(b: Burst, acc: Accepted, got: set<nat>, block: nat, cap: nat, n: nat)
    requires n <= |acc| && Taken(b, acc, got) && |b.image| <= cap && (b.Count() > 1 ==> block == b.block)
    ensures Extent(acc[..n], block, cap) <= |b.image|
    ensures Total(acc[..n], block, cap) == HeldSize(acc[..n])
  {
    hide DivCeil, CutBlock, Taken, Offset;
    if n > 0 {
      ExtentAtMost(b, acc, got, block, cap, n - 1);
      var a := acc[n - 1];
      assert a in acc && acc[..n][..n - 1] == acc[..n - 1];
      TakenChunk(b, acc, got, a.0, a.1);
      ChunkSizes(b.image, b.block, a.0);
      if b.Count() == 1 { OffsetOne(block, b.block); }
    }
  }

  lemma OffsetOne(x: nat, y: nat)
    ensures Offset(1, x) == Offset(1, y) == 0
  {
  }

  /** A frame filled with the whole burst shows the device's image, byte for byte. */
  lemma FilledData(cfg: Config, b: Burst, f: Frame)
    requires Suits(cfg, b) && Filling(cfg, b, f, Through(b.Last()))
    ensures FinalStatus(f) == Complete && f.dataEnd == |b.image| && f.data[..f.dataEnd] == b.image
  {
    hide DivCeil, CutBlock, Taken, Laid, Joined, HeldSize, Total, Extent;
    var n, acc, got := b.Count(), f.accepted, Through(b.Last());
    assert acc[..|acc|] == acc;
    JoinedChunks(b, acc, got, n);
    ChunksCover(b);
    assert |f.packets| == n + 2 by { assert b.Last() in got; }
    JoinedSize(acc, n);
    if n >= 1 {
      assert 1 in got;
      SumsAgree(cfg, b, f);
    }
    CompletedData(cfg, f);
    if n == 0 { CountAtMost(b, cfg); }
  }

  lemma ChunksCover(b: Burst)
    ensures b.image[..Min(b.Count() * b.block, |b.image|)] == b.image
  {
    var q := b.Count();
    assert q * b.block >= |b.image|;
  }

  lemma SumsAgree(cfg: Config, b: Burst, f: Frame)
    requires Suits(cfg, b) && Filling(cfg, b, f, Through(b.Last())) && b.Count() >= 1
    requires HeldSize(f.accepted) == |b.image|
    ensures f.receivedSize == f.dataEnd == |b.image| && f.heldBytes == 0
  {
    hide DivCeil, CutBlock, Taken, Laid, HeldSize, Total, Extent, SumIds;
    var acc, block, got := f.accepted, f.blockSize, Through(b.Last());
    assert 1 in got && b.Last() in got;
    assert acc[..|acc|] == acc;
    if b.Count() > 1 { ChunkSizes(b.image, b.block, 1); }
    ExtentAtMost(b, acc, got, block, |f.data|, |acc|);
    TotalBySums(acc, block, |f.data|, b.Count());
    SumIdsBound(acc, block, f.data, b.Count());
    TiledAtMost(b.Count(), block, f.dataEnd);
  }
}
