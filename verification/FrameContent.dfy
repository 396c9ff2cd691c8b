/** What a completed frame's bytes are: the accepted payload data in packet-id
    order, cut at the payload size. */
module FrameContent {
  import opened Gvsp
  import opened Reassembly

  type Accepted = seq<(Pos, Bytes)>

  // ------------------------------------------------ the content promised

  /** Data first accepted for payload packet `k`; empty when there is none. */
  function First(acc: Accepted, k: nat): Bytes {
    if acc == [] then [] else if acc[0].0 == k then acc[0].1 else First(acc[1..], k)
  }

  /** The data of payload packets 1..m, in packet-id order. */
  function Joined(acc: Accepted, m: nat): Bytes {
    if m == 0 then [] else Joined(acc, m - 1) + First(acc, m)
  }

  function Cut(data: Bytes, size: nat): Bytes {
    if |data| <= size then data else data[..size]
  }

  predicate DistinctIds(acc: Accepted) {
    forall i, j | 0 <= i < j < |acc| :: acc[i].0 != acc[j].0
  }

  // -------------------------------------------- how it lies in the buffer

  /** Bytes of packet `id`'s data that fit the buffer. */
  function Clip(id: Pos, size: nat, block: nat, cap: nat): nat {
    if Offset(id, block) + size <= cap then size
    else if Offset(id, block) >= cap then 0 else cap - Offset(id, block)
  }

  predicate InRange(acc: Accepted, m: int) {
    forall i | 0 <= i < |acc| :: acc[i].0 <= m
  }

  function Total(acc: Accepted, block: nat, cap: nat): nat
    decreases |acc|
  {
    if acc == [] then 0
    else Total(acc[..|acc| - 1], block, cap) + Clip(acc[|acc| - 1].0, |acc[|acc| - 1].1|, block, cap)
  }

  function Extent(acc: Accepted, block: nat, cap: nat): nat
    decreases |acc|
  {
    if acc == [] then 0
    else
      var last := acc[|acc| - 1];
      Max(Extent(acc[..|acc| - 1], block, cap), Offset(last.0, block) + Clip(last.0, |last.1|, block, cap))
  }

  /** Every accepted block is in the buffer at its offset. */
  ghost predicate Laid(acc: Accepted, block: nat, data: Bytes) {
    forall a | a in acc :: LaidAt(a, block, data)
  }

  ghost predicate LaidAt(a: (Pos, Bytes), block: nat, data: Bytes) {
    && |a.1| <= block && Offset(a.0, block) < |data|
    && data[Offset(a.0, block)..Offset(a.0, block) + Clip(a.0, |a.1|, block, |data|)]
       == a.1[..Clip(a.0, |a.1|, block, |data|)]
  }

  /** Payload packet 1 is among those accepted. */
  predicate HasFirst(acc: Accepted) { exists a | a in acc :: a.0 == 1 }

  lemma HasFirstMore(acc: Accepted, a: (Pos, Bytes))
    ensures HasFirst(acc + [a]) <==> HasFirst(acc) || a.0 == 1
  {
    assert a in acc + [a];
    assert forall x | x in acc + [a] :: x in acc || x == a;
    assert forall x | x in acc :: x in acc + [a];
  }

  /** A frame without error: either payload packet 1 was accepted and all accepted
      data is laid, or it was not and all is held. */
  ghost predicate Sound(cfg: Config, f: Frame, marked: int) {
    && DistinctIds(f.accepted)
    && InRange(f.accepted, |f.packets| - 2)
    && (forall a | a in f.accepted :: f.packets[a.0].received || a.0 == marked)
    && (f.blockKnown <==> HasFirst(f.accepted))
    && if f.blockKnown
       then
         && f.held == [] && f.heldBytes == 0
         && |f.packets| <= DivCeil(cfg.payloadSize, f.blockSize) + 2
         && Laid(f.accepted, f.blockSize, f.data)
         && f.receivedSize == Total(f.accepted, f.blockSize, |f.data|)
         && f.dataEnd == Extent(f.accepted, f.blockSize, |f.data|)
       else
         && f.held == f.accepted && f.receivedSize == 0 && f.dataEnd == 0
         && f.heldBytes == HeldSize(f.held)
  }

  function HeldSize(held: Accepted): nat
    decreases |held|
  {
    if held == [] then 0 else HeldSize(held[..|held| - 1]) + |held[|held| - 1].1|
  }

  ghost predicate Reliable(cfg: Config, f: Frame) {
    Sized(cfg, f) && (f.error.None? ==> Sound(cfg, f, -1))
  }

  // --------------------------------------------------------- arithmetic

  lemma BlocksApart(i: Pos, j: Pos, block: nat)
    requires i < j
    ensures Offset(i, block) + block <= Offset(j, block)
  {
    Multiples(i, j - 1, block);
  }

  /** Packets up to the count that fits start inside the buffer. */
  lemma OffsetInside(id: Pos, block: Pos, cap: nat)
    requires id <= DivCeil(cap, block)
    ensures Offset(id, block) < cap
  {
    var n := DivCeil(cap, block);
    assert n * block <= cap + block - 1;
    Multiples(id, n, block);
  }

  // ------------------------------------------------------ placing a block

  lemma TotalMore(acc: Accepted, a: (Pos, Bytes), block: nat, cap: nat)
    ensures Total(acc + [a], block, cap) == Total(acc, block, cap) + Clip(a.0, |a.1|, block, cap)
    ensures Extent(acc + [a], block, cap)
            == Max(Extent(acc, block, cap), Offset(a.0, block) + Clip(a.0, |a.1|, block, cap))
  {
    assert (acc + [a])[..|acc|] == acc;
  }

  lemma PlaceOne(f: Frame, acc: Accepted, id: Pos, data: Bytes)
    requires id <= DivCeil(|f.data|, f.blockSize) && |f.data| <= USIZE_MAX
    requires |data| <= f.blockSize
    requires (forall a | a in acc :: a.0 != id) && Laid(acc, f.blockSize, f.data)
    requires f.receivedSize == Total(acc, f.blockSize, |f.data|) && f.dataEnd == Extent(acc, f.blockSize, |f.data|)
    ensures var g := Place(f, id, data);
            && g.error == f.error && |g.data| == |f.data|
            && Laid(acc + [(id, data)], f.blockSize, g.data)
            && g.receivedSize == Total(acc + [(id, data)], f.blockSize, |f.data|)
            && g.dataEnd == Extent(acc + [(id, data)], f.blockSize, |f.data|)
  {
    hide Offset, Total, Extent;
    OffsetInside(id, f.blockSize, |f.data|);
    TotalMore(acc, (id, data), f.blockSize, |f.data|);
    var block, g, more := f.blockSize, Place(f, id, data), acc + [(id, data)];
    var at, n := Offset(id, block), Clip(id, |data|, block, |f.data|);
    assert g.data == f.data[..at] + data[..n] + f.data[at + n..];
    forall a | a in more ensures LaidAt(a, block, g.data) {
      if a in acc {
        assert LaidAt(a, block, f.data);
        OthersKept(f.data, data[..n], at, block, a, id);
      }
    }
  }

  lemma OthersKept(buffer: Bytes, d: Bytes, at: nat, block: nat, a: (Pos, Bytes), id: Pos)
    requires at == Offset(id, block) && at + |d| <= |buffer| && |d| <= block
    requires a.0 != id && LaidAt(a, block, buffer)
    ensures LaidAt(a, block, buffer[..at] + d + buffer[at + |d|..])
  {
    hide Offset;
    if a.0 < id { BlocksApart(a.0, id, block); } else { BlocksApart(id, a.0, block); }
    var after := buffer[..at] + d + buffer[at + |d|..];
    var o, n := Offset(a.0, block), Clip(a.0, |a.1|, block, |buffer|);
    SliceKept(buffer, d, at, o, n);
    assert |after| == |buffer|;
  }

  lemma SliceKept(buffer: Bytes, d: Bytes, at: nat, o: nat, n: nat)
    requires at + |d| <= |buffer| && o + n <= |buffer| && (o + n <= at || at + |d| <= o)
    ensures (buffer[..at] + d + buffer[at + |d|..])[o..o + n] == buffer[o..o + n]
  {
    var after := buffer[..at] + d + buffer[at + |d|..];
    forall i | o <= i < o + n ensures after[i] == buffer[i] {}
  }

  // ------------------------------------- from held data to data in place

  /** The order of acceptance does not matter to the sums. */
  lemma {:induction false} TotalFront(a: (Pos, Bytes), acc: Accepted, block: nat, cap: nat)
    ensures Total([a] + acc, block, cap) == Total(acc + [a], block, cap)
    ensures Extent([a] + acc, block, cap) == Extent(acc + [a], block, cap)
    decreases |acc|
  {
    hide Clip, Offset, Total, Extent;
    if acc == [] {
      assert [a] + acc == acc + [a];
    } else {
      var init, last := acc[..|acc| - 1], acc[|acc| - 1];
      assert acc == init + [last] && [a] + acc == ([a] + init) + [last];
      TotalFront(a, init, block, cap);
      TotalMore([a] + init, last, block, cap);
      TotalMore(init, a, block, cap);
      TotalMore(init, last, block, cap);
      TotalMore(acc, a, block, cap);
    }
  }

  /** Replaying held data either fails or lays every block. */
  lemma {:induction false} PlaceHeldLays(f: Frame, acc: Accepted, held: Accepted)
    requires f.error.None? && |f.data| <= USIZE_MAX
    requires |f.packets| <= DivCeil(|f.data|, f.blockSize) + 2
    requires DistinctIds(acc + held)
    requires Laid(acc, f.blockSize, f.data)
    requires f.receivedSize == Total(acc, f.blockSize, |f.data|) && f.dataEnd == Extent(acc, f.blockSize, |f.data|)
    ensures var g := PlaceHeld(f, held);
            g.error.None? ==>
              && InRange(held, |f.packets| - 2) && |g.data| == |f.data|
              && Laid(acc + held, f.blockSize, g.data)
              && g.receivedSize == Total(acc + held, f.blockSize, |f.data|)
              && g.dataEnd == Extent(acc + held, f.blockSize, |f.data|)
    decreases |held|
  {
    hide Offset, Total, Extent, Laid, DivCeil;
    if held == [] {
      assert acc + held == acc;
    } else if held[0].0 + 2 <= |f.packets| && |held[0].1| <= f.blockSize {
      var h, rest := held[0], held[1..];
      assert acc + held == (acc + [h]) + rest;
      NotYet(acc, h, rest);
      PlaceOne(f, acc, h.0, h.1);
      PlaceHeldLays(Place(f, h.0, h.1), acc + [h], rest);
      assert held == [h] + rest;
    }
  }

  lemma NotYet(acc: Accepted, h: (Pos, Bytes), rest: Accepted)
    requires DistinctIds((acc + [h]) + rest)
    ensures forall a | a in acc :: a.0 != h.0
  {
    var all := (acc + [h]) + rest;
    forall a | a in acc ensures a.0 != h.0 {
      var i :| 0 <= i < |acc| && acc[i] == a;
      assert all[i] == a && all[|acc|] == h;
    }
  }

  // ------------------------------------------- every packet keeps it so

  predicate Missing(f: Frame, id: nat) { id < |f.packets| ==> !f.packets[id].received }

  lemma MissingNotAccepted(cfg: Config, f: Frame, id: nat)
    requires Sound(cfg, f, -1) && Missing(f, id)
    ensures forall a | a in f.accepted :: a.0 != id
  {
    forall a | a in f.accepted ensures a.0 != id {
      var i :| 0 <= i < |f.accepted| && f.accepted[i] == a;
    }
  }

  lemma MoreDistinct(acc: Accepted, a: (Pos, Bytes))
    requires DistinctIds(acc) && forall b | b in acc :: b.0 != a.0
    ensures DistinctIds(acc + [a]) && DistinctIds([a] + acc)
  {
  }

  lemma MoreHeld(acc: Accepted, a: (Pos, Bytes))
    ensures HeldSize(acc + [a]) == HeldSize(acc) + |a.1|
  {
    assert (acc + [a])[..|acc|] == acc;
  }

  lemma HoldSound(cfg: Config, f: Frame, id: Pos, data: Bytes)
    requires Reliable(cfg, f) && f.error.None? && Missing(f, id) && !f.blockKnown && id != 1
    ensures var g := Hold(f.(accepted := f.accepted + [(id, data)]), id, data);
            g.error.None? ==> Sound(cfg, g, id)
  {
    hide HeldSize, DivCeil, Laid, Total, Extent, HasFirst;
    HasFirstMore(f.accepted, (id, data));
    MissingNotAccepted(cfg, f, id);
    MoreDistinct(f.accepted, (id, data));
    MoreHeld(f.accepted, (id, data));
    var g := Hold(f.(accepted := f.accepted + [(id, data)]), id, data);
    if g.error.None? {
      assert |f.packets| <= |g.packets| && id <= |g.packets| - 2;
      assert forall i | 0 <= i < |f.packets| :: g.packets[i] == f.packets[i];
    }
  }

  lemma PlaceSound(cfg: Config, f: Frame, id: Pos, data: Bytes)
    requires Reliable(cfg, f) && f.error.None? && Missing(f, id) && f.blockKnown && cfg.payloadSize <= USIZE_MAX
    requires id <= |f.packets| - 2
    ensures var g := Place(f.(accepted := f.accepted + [(id, data)]), id, data);
            g.error.None? ==> Sound(cfg, g, id)
  {
    hide Offset, Total, Extent, Laid, DivCeil, HasFirst;
    HasFirstMore(f.accepted, (id, data));
    MissingNotAccepted(cfg, f, id);
    MoreDistinct(f.accepted, (id, data));
    if |data| <= f.blockSize {
      PlaceOne(f, f.accepted, id, data);
      PlaceSized(cfg, f, id, data);
    }
  }

  lemma LearnSound(cfg: Config, f: Frame, g: Frame, data: Bytes)
    requires Reliable(cfg, f) && f.error.None? && Missing(f, 1) && !f.blockKnown && cfg.payloadSize <= USIZE_MAX
    requires g == LearnBlock(cfg, f, data).(accepted := f.accepted + [(1, data)])
    requires g.error.None? && 1 <= |g.packets| - 2
    ensures var r := PlaceHeld(Place(g, 1, data).(held := []), f.held).(heldBytes := 0);
            r.error.None? ==> Sound(cfg, r, 1)
  {
    hide Offset, Total, Extent, DivCeil, PlaceHeld, Place, HasFirst;
    MissingNotAccepted(cfg, f, 1);
    MoreDistinct(f.accepted, (1, data));
    var h := Place(g, 1, data).(held := []);
    TotalNone(g.blockSize, |g.data|);
    LearnedFits(cfg, f, data);
    PlaceOne(g, [], 1, data);
    assert [] + [(1 as Pos, data)] == [(1, data)];
    DivCeilAtMost(cfg.payloadSize, g.blockSize);
    PlaceSized(cfg, g, 1, data);
    PlaceHeldLays(h, [(1, data)], f.accepted);
    PlaceHeldSized(cfg, h, f.accepted);
    TotalFront((1, data), f.accepted, g.blockSize, |g.data|);
    var r := PlaceHeld(h, f.accepted);
    if r.error.None? { LearnedSound(cfg, f, g, r, data); }
  }

  lemma LearnedFits(cfg: Config, f: Frame, data: Bytes)
    requires LearnBlock(cfg, f, data).error.None?
    ensures var g := LearnBlock(cfg, f, data);
            && |g.packets| <= DivCeil(cfg.payloadSize, g.blockSize) + 2 && |data| <= g.blockSize && g.blockKnown
            && g == f.(blockSize := g.blockSize, blockKnown := true, packets := g.packets, prefix := g.prefix)
            && forall i | 0 <= i < |g.packets| && i < |f.packets| :: g.packets[i] == f.packets[i]
  {
  }

  lemma LearnedSound(cfg: Config, f: Frame, g: Frame, r: Frame, data: Bytes)
    requires Sound(cfg, f, -1) && !f.blockKnown
    requires LearnBlock(cfg, f, data).error.None? && g == LearnBlock(cfg, f, data).(accepted := f.accepted + [(1, data)])
    requires r == g.(held := [], data := r.data, receivedSize := r.receivedSize, dataEnd := r.dataEnd, error := r.error)
    requires DistinctIds(g.accepted) && InRange(f.accepted, |g.packets| - 2) && 1 <= |g.packets| - 2
    requires Laid([(1, data)] + f.accepted, g.blockSize, r.data)
    requires r.receivedSize == Total(g.accepted, g.blockSize, |r.data|)
    requires r.dataEnd == Extent(g.accepted, g.blockSize, |r.data|)
    ensures Sound(cfg, r.(heldBytes := 0), 1)
  {
    hide Total, Extent, DivCeil, LaidAt, HasFirst;
    HasFirstMore(f.accepted, (1, data));
    LearnedFits(cfg, f, data);
    assert forall a | a in g.accepted :: a in [(1 as Pos, data)] + f.accepted;
    forall a | a in g.accepted ensures a.0 <= |g.packets| - 2 && (g.packets[a.0].received || a.0 == 1) {
      var i :| 0 <= i < |g.accepted| && g.accepted[i] == a;
    }
  }

  lemma TotalNone(block: nat, cap: nat)
    ensures Total([], block, cap) == 0 && Extent([], block, cap) == 0
  {
  }

  lemma PayloadSound(cfg: Config, f: Frame, id: nat, data: Bytes)
    requires Reliable(cfg, f) && f.error.None? && Missing(f, id) && cfg.payloadSize <= USIZE_MAX
    ensures var g := ProcessPayload(cfg, f, id, data);
            g.error.None? ==> Sound(cfg, g, id)
  {
    hide Sound, Hold, Place, PlaceHeld, DivCeil;
    var g := if id == 1 && !f.blockKnown then LearnBlock(cfg, f, data) else f;
    if g.error.None? && 1 <= id <= LastPayload(cfg, g) {
      var h := g.(accepted := g.accepted + [(id, data)]);
      if id == 1 && !f.blockKnown {
        LearnedFits(cfg, f, data);
        HeldIsAccepted(cfg, f);
        LearnSound(cfg, f, h, data);
      } else if f.blockKnown {
        KnownHoldsNothing(cfg, f);
        PlaceSound(cfg, f, id, data);
        PlaceSized(cfg, h, id, data);
        PlaceNone(Place(h, id, data));
      } else {
        HoldSound(cfg, f, id, data);
      }
    }
  }

  lemma HeldIsAccepted(cfg: Config, f: Frame)
    requires Sound(cfg, f, -1) && !f.blockKnown
    ensures f.held == f.accepted
  {
  }

  lemma KnownHoldsNothing(cfg: Config, f: Frame)
    requires Sound(cfg, f, -1) && f.blockKnown
    ensures f.held == [] && f.heldBytes == 0
  {
  }

  lemma PlaceNone(f: Frame)
    ensures PlaceHeld(f, []) == f
  {
  }

  lemma TrailerSound(cfg: Config, f: Frame, id: nat)
    requires Reliable(cfg, f) && f.error.None? && Missing(f, id)
    ensures var g := ProcessTrailer(cfg, f, id);
            g.error.None? ==> Sound(cfg, g, -1)
  {
    hide Total, Extent, Laid, DivCeil;
    var g := ProcessTrailer(cfg, f, id);
    if g.error.None? {
      forall a | a in f.accepted ensures a.0 < id && g.packets[a.0].received {
        var i :| 0 <= i < |f.accepted| && f.accepted[i] == a;
      }
    }
  }

  lemma MarkSound(cfg: Config, f: Frame, id: nat)
    requires Sized(cfg, f) && f.error.None? && (Sound(cfg, f, id) || Sound(cfg, f, -1))
    ensures Sound(cfg, MarkReceived(f, id), -1)
  {
    hide Total, Extent, Laid, DivCeil;
    var g := MarkReceived(f, id);
    forall a | a in f.accepted ensures g.packets[a.0].received {
      var i :| 0 <= i < |f.accepted| && f.accepted[i] == a;
    }
  }

  lemma LeaderSound(cfg: Config, f: Frame, id: nat, data: Bytes)
    requires Reliable(cfg, f) && f.error.None?
    ensures ProcessLeader(f, id, data).error.None? ==> Sound(cfg, ProcessLeader(f, id, data), -1)
  {
  }

  lemma ErrorSticks(cfg: Config, f: Frame, view: View)
    requires f.error.Some?
    requires view.content.Leader? || view.content.Payload? || view.content.Trailer?
    ensures Process(cfg, f, view).error == f.error
  {
  }

  /** Any packet the receiver hands to a frame keeps the frame reliable. */
  lemma PacketReliable(cfg: Config, f: Frame, view: View)
    requires Reliable(cfg, f) && Missing(f, view.packetId) && cfg.payloadSize <= USIZE_MAX
    requires view.content.Leader? || view.content.Payload? || view.content.Trailer?
    ensures Reliable(cfg, MarkReceived(Process(cfg, f, view), view.packetId))
  {
    hide Sound, ProcessPayload, ProcessTrailer, FirstMissing;
    var g := Process(cfg, f, view);
    ProcessSized(cfg, f, view);
    MarkSized(cfg, g, view.packetId);
    if f.error.Some? {
      ErrorSticks(cfg, f, view);
    } else if g.error.None? {
      match view.content {
        case Leader => LeaderSound(cfg, f, view.packetId, view.data);
        case Payload => PayloadSound(cfg, f, view.packetId, view.data);
        case Trailer => TrailerSound(cfg, f, view.packetId);
      }
      MarkSound(cfg, g, view.packetId);
    }
  }

  // ------------------------------------------------ a completed frame

  /** Bytes of packet `k` in the buffer. */
  function Size(acc: Accepted, k: Pos, block: nat, cap: nat): nat { Clip(k, |First(acc, k)|, block, cap) }

  function SumIds(acc: Accepted, block: nat, cap: nat, m: nat): nat {
    if m == 0 then 0 else SumIds(acc, block, cap, m - 1) + Size(acc, m, block, cap)
  }

  lemma {:induction false} FirstMore(acc: Accepted, a: (Pos, Bytes), k: nat)
    requires forall b | b in acc :: b.0 != a.0
    ensures First(acc + [a], k) == if k == a.0 then a.1 else First(acc, k)
    ensures k == a.0 ==> First(acc, k) == []
  {
    if acc != [] {
      assert (acc + [a])[1..] == acc[1..] + [a];
      assert forall b | b in acc[1..] :: b in acc;
      FirstMore(acc[1..], a, k);
    }
  }

  lemma {:induction false} FirstIn(acc: Accepted, k: Pos)
    ensures First(acc, k) == [] || (k, First(acc, k)) in acc
  {
    if acc != [] && acc[0].0 != k {
      FirstIn(acc[1..], k);
      assert forall b | b in acc[1..] :: b in acc;
    }
  }

  lemma {:induction false} SumIdsMore(acc: Accepted, a: (Pos, Bytes), block: nat, cap: nat, m: nat)
    requires forall b | b in acc :: b.0 != a.0
    ensures SumIds(acc + [a], block, cap, m)
            == SumIds(acc, block, cap, m) + if a.0 <= m then Clip(a.0, |a.1|, block, cap) else 0
  {
    hide Offset;
    if m > 0 {
      SumIdsMore(acc, a, block, cap, m - 1);
      FirstMore(acc, a, m);
    }
  }

  lemma {:induction false} SumIdsNone(block: nat, cap: nat, m: nat)
    ensures SumIds([], block, cap, m) == 0
  {
    hide Offset;
    if m > 0 { SumIdsNone(block, cap, m - 1); }
  }

  lemma {:induction false} TotalBySums(acc: Accepted, block: nat, cap: nat, m: nat)
    requires DistinctIds(acc) && InRange(acc, m)
    ensures Total(acc, block, cap) == SumIds(acc, block, cap, m)
    decreases |acc|
  {
    hide Clip, SumIds;
    if acc == [] {
      SumIdsNone(block, cap, m);
    } else {
      var init, last := acc[..|acc| - 1], acc[|acc| - 1];
      assert acc == init + [last];
      TotalBySums(init, block, cap, m);
      NotYet(init, last, []);
      SumIdsMore(init, last, block, cap, m);
    }
  }

  lemma {:induction false} ExtentBounds(acc: Accepted, a: (Pos, Bytes), block: nat, cap: nat)
    requires a in acc
    ensures Offset(a.0, block) + Clip(a.0, |a.1|, block, cap) <= Extent(acc, block, cap)
    decreases |acc|
  {
    hide Clip, Offset;
    var init, last := acc[..|acc| - 1], acc[|acc| - 1];
    if a != last {
      assert acc == init + [last];
      ExtentBounds(init, a, block, cap);
    }
  }

  /** A block holds at most what lies between its offset and the data's end. */
  lemma SizeBounds(acc: Accepted, k: Pos, block: nat, data: Bytes)
    requires Laid(acc, block, data)
    ensures var n, end := Size(acc, k, block, |data|), Extent(acc, block, |data|);
            n <= block && (n > 0 ==> Offset(k, block) + n <= end)
  {
    hide Offset, Extent;
    FirstIn(acc, k);
    if First(acc, k) != [] {
      assert LaidAt((k, First(acc, k)), block, data);
      ExtentBounds(acc, (k, First(acc, k)), block, |data|);
    }
  }

  function Tiled(k: nat, block: nat, end: nat): nat { Min(k * block, end) }

  lemma TileStep(k: Pos, block: nat, end: nat, n: nat)
    requires n <= block && (n > 0 ==> Offset(k, block) + n <= end)
    ensures Tiled(k - 1, block, end) + n <= Tiled(k, block, end)
  {
    assert k * block == Offset(k, block) + block;
  }

  lemma {:induction false} SumIdsBound(acc: Accepted, block: nat, data: Bytes, m: nat)
    requires Laid(acc, block, data)
    ensures SumIds(acc, block, |data|, m) <= Tiled(m, block, Extent(acc, block, |data|))
  {
    hide Laid, Extent, Size, Tiled, Offset;
    if m == 0 {
      TiledNone(block, Extent(acc, block, |data|));
    } else {
      SumIdsBound(acc, block, data, m - 1);
      SizeBounds(acc, m, block, data);
      TileStep(m, block, Extent(acc, block, |data|), Size(acc, m, block, |data|));
    }
  }

  lemma TiledNone(block: nat, end: nat)
    ensures Tiled(0, block, end) == 0
  {
  }

  /** When the sizes add up to the extent, the blocks tile it without a gap. */
  lemma {:induction false} NoGap(acc: Accepted, block: nat, data: Bytes, m: nat, k: nat)
    requires Laid(acc, block, data) && k <= m
    requires SumIds(acc, block, |data|, m) == Extent(acc, block, |data|)
    ensures SumIds(acc, block, |data|, k) == Tiled(k, block, Extent(acc, block, |data|))
    decreases m - k
  {
    hide Laid, Extent, Size, Offset;
    var end := Extent(acc, block, |data|);
    SumIdsBound(acc, block, data, k);
    if k < m {
      NoGap(acc, block, data, m, k + 1);
      SizeBounds(acc, k + 1, block, data);
      TileStep(k + 1, block, end, Size(acc, k + 1, block, |data|));
    }
  }

  /** The buffer's start is the joined data, as far as it was cut to fit. */
  lemma {:induction false} JoinedInBuffer(acc: Accepted, block: nat, data: Bytes, m: nat, k: nat)
    requires Laid(acc, block, data) && k <= m && Extent(acc, block, |data|) <= |data|
    requires SumIds(acc, block, |data|, m) == Extent(acc, block, |data|)
    requires forall i: Pos | i <= m :: Offset(i, block) < |data|
    ensures var n := SumIds(acc, block, |data|, k);
            && n <= |data| && n <= |Joined(acc, k)| && data[..n] == Joined(acc, k)[..n]
            && (n < |Joined(acc, k)| ==> n == |data|)
  {
    hide Laid, Extent, Offset, Tiled, Clip;
    NoGap(acc, block, data, m, k);
    TiledAtMost(k, block, Extent(acc, block, |data|));
    if k > 0 {
      JoinedInBuffer(acc, block, data, m, k - 1);
      NoGap(acc, block, data, m, k - 1);
      var before, n := SumIds(acc, block, |data|, k - 1), SumIds(acc, block, |data|, k);
      var d, size := First(acc, k), Size(acc, k, block, |data|);
      BlockInBuffer(acc, block, data, k);
      if size > 0 {
        SizeBounds(acc, k, block, data);
        StartsAt(k, block, Extent(acc, block, |data|), size);
        JoinStep(data, Joined(acc, k - 1), d, before, size);
      }
    }
  }

  /** A block that follows a full prefix extends it. */
  lemma JoinStep(data: Bytes, joined: Bytes, d: Bytes, before: nat, size: nat)
    requires before + size <= |data| && before <= |joined| && size <= |d|
    requires data[..before] == joined[..before] && data[before..before + size] == d[..size] && before == |joined|
    ensures data[..before + size] == (joined + d)[..before + size]
  {
    assert data[..before + size] == data[..before] + data[before..before + size];
  }

  lemma TiledAtMost(k: nat, block: nat, end: nat)
    ensures Tiled(k, block, end) <= end
  {
  }

  lemma StartsAt(k: Pos, block: nat, end: nat, n: nat)
    requires n > 0 && Offset(k, block) + n <= end
    ensures Tiled(k - 1, block, end) == Offset(k, block)
  {
  }

  lemma BlockInBuffer(acc: Accepted, block: nat, data: Bytes, k: Pos)
    requires Laid(acc, block, data) && Offset(k, block) < |data|
    ensures var d, n := First(acc, k), Size(acc, k, block, |data|);
            && n <= |d| && (n < |d| ==> Offset(k, block) + n == |data|) && (n == 0 ==> d == [])
            && Offset(k, block) + n <= |data| && data[Offset(k, block)..Offset(k, block) + n] == d[..n]
  {
    hide Offset;
    FirstIn(acc, k);
    if First(acc, k) != [] { assert LaidAt((k, First(acc, k)), block, data); }
  }

  // -------------------------------------------------------- the theorem

  lemma {:induction false} JoinedMore(acc: Accepted, a: (Pos, Bytes), m: nat)
    requires forall b | b in acc :: b.0 != a.0
    ensures |Joined(acc + [a], m)| == |Joined(acc, m)| + if a.0 <= m then |a.1| else 0
  {
    if m > 0 {
      JoinedMore(acc, a, m - 1);
      FirstMore(acc, a, m);
    }
  }

  lemma {:induction false} JoinedNone(m: nat)
    ensures Joined([], m) == []
  {
    if m > 0 { JoinedNone(m - 1); }
  }

  /** No accepted byte is lost by joining. */
  lemma {:induction false} JoinedSize(acc: Accepted, m: nat)
    requires DistinctIds(acc) && InRange(acc, m)
    ensures |Joined(acc, m)| == HeldSize(acc)
    decreases |acc|
  {
    hide Joined;
    if acc == [] {
      JoinedNone(m);
    } else {
      var init, last := acc[..|acc| - 1], acc[|acc| - 1];
      assert acc == init + [last];
      JoinedSize(init, m);
      NotYet(init, last, []);
      JoinedMore(init, last, m);
    }
  }

  lemma {:induction false} ExtentInside(acc: Accepted, block: nat, data: Bytes)
    requires Laid(acc, block, data)
    ensures Extent(acc, block, |data|) <= |data|
    decreases |acc|
  {
    hide Offset;
    if acc != [] {
      var init, last := acc[..|acc| - 1], acc[|acc| - 1];
      assert forall a | a in init :: a in acc;
      ExtentInside(init, block, data);
      assert LaidAt(last, block, data);
    }
  }

  function Payloads(f: Frame): nat { Max(|f.packets| - 2, 0) }

  /** What the frame's accepted packets say its data is. */
  function Promised(cfg: Config, f: Frame): Bytes { Cut(Joined(f.accepted, Payloads(f)), cfg.payloadSize) }

  /** A frame that counts as complete holds exactly its accepted data, joined in
      packet-id order and cut at the payload size, if and only if no data is
      still held back for want of a block size. */
  lemma CompletedData(cfg: Config, f: Frame)
    requires Reliable(cfg, f) && f.error.None? && f.receivedSize == f.dataEnd && cfg.payloadSize <= USIZE_MAX
    ensures f.dataEnd <= |f.data| && DistinctIds(f.accepted)
    ensures f.data[..f.dataEnd] == Promised(cfg, f) <==> f.heldBytes == 0
  {
    hide Total, Extent, Laid, DivCeil, HeldSize;
    if f.blockKnown {
      PlacedData(cfg, f);
    } else {
      JoinedSize(f.accepted, Payloads(f));
    }
  }

  lemma {:induction false} NothingHeld(held: Accepted)
    ensures HeldSize(held) == 0 <==> forall a | a in held :: a.1 == []
    decreases |held|
  {
    if held != [] {
      var init, last := held[..|held| - 1], held[|held| - 1];
      assert held == init + [last];
      NothingHeld(init);
      assert forall a | a in held :: a in init || a == last;
      assert last in held && forall a | a in init :: a in held;
    }
  }

  /** Data is held back exactly while payload packet 1 has not been accepted. */
  lemma HeldWithoutBlock(cfg: Config, f: Frame)
    requires Reliable(cfg, f) && f.error.None?
    ensures f.heldBytes == 0 <==> HasFirst(f.accepted) || forall a | a in f.accepted :: a.1 == []
  {
    hide Laid, DivCeil, HeldSize;
    NothingHeld(f.held);
  }

  lemma PlacedData(cfg: Config, f: Frame)
    requires Reliable(cfg, f) && f.error.None? && f.receivedSize == f.dataEnd && cfg.payloadSize <= USIZE_MAX
    requires f.blockKnown
    ensures f.dataEnd <= |f.data| && f.data[..f.dataEnd] == Promised(cfg, f)
  {
    hide Total, Extent, Laid, DivCeil, Joined, SumIds, Offset;
    var m := Payloads(f);
    TotalBySums(f.accepted, f.blockSize, |f.data|, m);
    ExtentInside(f.accepted, f.blockSize, f.data);
    forall i: Pos | i <= m ensures Offset(i, f.blockSize) < |f.data| { OffsetInside(i, f.blockSize, |f.data|); }
    JoinedInBuffer(f.accepted, f.blockSize, f.data, m, m);
  }
}
