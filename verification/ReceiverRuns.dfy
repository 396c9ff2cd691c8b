/** What holds in every state the receiver can reach, whatever datagrams arrive
    in whatever order, and whenever consumers drop their frames. */
module ReceiverRuns {
  import opened Gvsp
  import opened Reassembly
  import opened FrameContent
  import opened Holes
  import opened Receiver

  // ----------------------------------------------------- the invariant

  /** Every buffer is in the pool, in an open frame or in a delivered one. */
  ghost predicate Conserved(cfg: Config, s: State) {
    && |s.free| + |s.frames| + |s.loaned| == cfg.buffers && |s.loaned| <= |s.delivered|
    && (forall b | b in s.free :: |b| == cfg.payloadSize)
    && (forall b | b in s.loaned :: |b| == cfg.payloadSize)
  }

  /** Open frames have distinct ids and stand in opening order; at most one is
      provisional, it has the restart id and it is last. */
  ghost predicate Lined(frames: seq<Frame>, serial: nat) {
    && (forall i, j | 0 <= i < j < |frames| ::
          frames[i].serial < frames[j].serial && frames[i].frameId != frames[j].frameId)
    && (forall i | 0 <= i < |frames| :: frames[i].serial < serial)
    && (forall i | 0 <= i < |frames| && Provisional(frames[i]) ::
          i == |frames| - 1 && frames[i].frameId == RESTART_BLOCK_ID)
  }

  /** Frames were delivered in opening order. */
  ghost predicate InOrder(delivered: seq<Delivered>, serial: nat) {
    && (forall i, j | 0 <= i < j < |delivered| :: delivered[i].frame.serial < delivered[j].frame.serial)
    && (forall d | d in delivered :: d.frame.serial < serial)
  }

  /** Every open frame was opened after every delivered one. */
  ghost predicate Ahead(delivered: seq<Delivered>, frames: seq<Frame>) {
    forall d, f | d in delivered && f in frames :: d.frame.serial < f.serial
  }

  /** A delivered frame; one that says Complete counts as complete. */
  ghost predicate Genuine(cfg: Config, d: Delivered) {
    && Reliable(cfg, d.frame) && !Provisional(d.frame)
    && (d.status.Complete? ==> d.frame.error.None? && d.frame.receivedSize == d.frame.dataEnd && AllReceived(d.frame))
  }

  ghost predicate AllReliable(cfg: Config, frames: seq<Frame>) { forall f | f in frames :: Reliable(cfg, f) }
  ghost predicate AllGenuine(cfg: Config, delivered: seq<Delivered>) { forall d | d in delivered :: Genuine(cfg, d) }

  function Closures(stats: Stats): nat { stats.completed + stats.failed + stats.aborted }

  /** Packets of frame `serial` asked for by these requests. */
  function AskedOf(requests: seq<Request>, serial: nat): nat
    decreases |requests|
  {
    if requests == [] then 0
    else
      var r := requests[|requests| - 1];
      AskedOf(requests[..|requests| - 1], serial) + if r.serial == serial then RangeSize((r.first, r.last)) else 0
  }

  /** No request took its frame over the budget of its moment. */
  ghost predicate WithinBudget(requests: seq<Request>, serial: nat) {
    forall k | 0 <= k < |requests| ::
      AskedOf(requests[..k + 1], requests[k].serial) <= requests[k].limit && requests[k].serial < serial
  }

  /** Every open frame's counter covers what was asked for it. */
  ghost predicate CountsCover(requests: seq<Request>, frames: seq<Frame>) {
    forall f | f in frames :: AskedOf(requests, f.serial) <= f.resend.requests
  }

  ghost predicate Inv(cfg: Config, s: State) {
    && cfg.payloadSize <= USIZE_MAX && Conserved(cfg, s)
    && Lined(s.frames, s.serial) && InOrder(s.delivered, s.serial) && Ahead(s.delivered, s.frames)
    && AllReliable(cfg, s.frames) && AllGenuine(cfg, s.delivered)
    && Closures(s.stats) == |s.delivered|
    && WithinBudget(s.requests, s.serial) && CountsCover(s.requests, s.frames)
  }

  // ------------------------------------- what follows for delivered frames

  /** Whatever was received, a frame delivered as complete shows exactly its
      accepted payload data in packet-id order, each id once, cut at the payload
      size: if and only if none of it was still held back when it closed. */
  lemma DeliveredData(cfg: Config, s: State, d: Delivered)
    requires Inv(cfg, s) && d in s.delivered && d.status.Complete?
    ensures DistinctIds(d.frame.accepted)
    ensures Data(d) == Promised(cfg, d.frame) <==> d.frame.heldBytes == 0
  {
    hide Reliable, Promised;
    assert Genuine(cfg, d);
    ReliableSize(cfg, d.frame);
    CompletedData(cfg, d.frame);
  }

  lemma ReliableSize(cfg: Config, f: Frame)
    requires Reliable(cfg, f)
    ensures |f.data| == cfg.payloadSize && |f.packets| >= 1
  {
  }

  // ------------------------------------------- changing a frame in place

  /** A frame changed in place without losing anything. */
  ghost predicate Kept(cfg: Config, f: Frame, g: Frame) {
    && g.serial == f.serial && g.frameId == f.frameId && Reliable(cfg, g)
    && (Provisional(g) ==> Provisional(f)) && f.resend.requests <= g.resend.requests
  }

  lemma ReplaceKeeps(cfg: Config, s: State, i: nat, g: Frame)
    requires Inv(cfg, s) && i < |s.frames| && Kept(cfg, s.frames[i], g)
    ensures Inv(cfg, s.(frames := s.frames[i := g]))
  {
    hide Reliable, AskedOf, Genuine, WithinBudget, InOrder, AllGenuine, Lined;
    var frames := s.frames[i := g];
    ReplaceLined(s.frames, s.serial, i, g);
    forall f | f in frames
      ensures Reliable(cfg, f) && AskedOf(s.requests, f.serial) <= f.resend.requests
      ensures exists e | e in s.frames :: e.serial == f.serial
    {
      var k :| 0 <= k < |frames| && frames[k] == f;
      assert s.frames[k] in s.frames;
    }
  }

  lemma ReplaceLined(frames: seq<Frame>, serial: nat, i: nat, g: Frame)
    requires Lined(frames, serial) && i < |frames| && g.serial == frames[i].serial && g.frameId == frames[i].frameId
    requires Provisional(g) ==> Provisional(frames[i])
    ensures Lined(frames[i := g], serial)
  {
  }

  // ---------------------------------------------------- removing a frame

  lemma WithoutAt<T>(s: seq<T>, i: nat)
    requires i < |s|
    ensures |Without(s, i)| == |s| - 1
    ensures forall k | 0 <= k < |s| - 1 :: Without(s, i)[k] == s[if k < i then k else k + 1]
    ensures forall x | x in Without(s, i) :: x in s
  {
    forall x | x in Without(s, i) ensures x in s {
      var k :| 0 <= k < |s| - 1 && Without(s, i)[k] == x;
      assert s[if k < i then k else k + 1] == x;
    }
  }

  lemma LinedWithout(frames: seq<Frame>, serial: nat, i: nat)
    requires i < |frames| && Lined(frames, serial)
    ensures Lined(Without(frames, i), serial)
  {
    WithoutAt(frames, i);
  }

  lemma RemoveKeeps(cfg: Config, s: State, i: nat)
    requires Inv(cfg, s) && i < |s.frames|
    ensures var rest := Without(s.frames, i);
            && |rest| == |s.frames| - 1 && Lined(rest, s.serial) && Ahead(s.delivered, rest)
            && AllReliable(cfg, rest) && CountsCover(s.requests, rest)
  {
    hide Reliable, AskedOf, Lined, Without;
    LinedWithout(s.frames, s.serial, i);
    WithoutAt(s.frames, i);
  }

  lemma DiscardKeeps(cfg: Config, s: State, i: nat)
    requires Inv(cfg, s) && i < |s.frames|
    ensures Inv(cfg, DiscardFrame(cfg, s, i))
    ensures DiscardFrame(cfg, s, i) == s.(frames := Without(s.frames, i), free := s.free + [s.frames[i].data])
  {
    hide Lined, InOrder, Ahead, AllGenuine, AllReliable, WithinBudget, CountsCover, Without;
    RemoveKeeps(cfg, s, i);
    FrameSize(cfg, s, i);
  }

  lemma FrameSize(cfg: Config, s: State, i: nat)
    requires AllReliable(cfg, s.frames) && i < |s.frames|
    ensures |s.frames[i].data| == cfg.payloadSize && |s.frames[i].packets| >= 1
  {
    assert s.frames[i] in s.frames;
  }

  lemma {:induction false} DiscardProvisionalKeeps(cfg: Config, s: State)
    requires Inv(cfg, s)
    ensures Inv(cfg, DiscardProvisional(cfg, s))
    ensures forall f | f in DiscardProvisional(cfg, s).frames :: !Provisional(f) && f in s.frames
    ensures var t := DiscardProvisional(cfg, s); t == s.(frames := t.frames, free := t.free)
    decreases |s.frames|
  {
    hide Inv, DiscardFrame, Without;
    var i := FirstProvisional(s.frames);
    if i < |s.frames| {
      DiscardKeeps(cfg, s, i);
      WithoutAt(s.frames, i);
      DiscardProvisionalKeeps(cfg, DiscardFrame(cfg, s, i));
    }
  }

  lemma DeliverInOrder(delivered: seq<Delivered>, frames: seq<Frame>, serial: nat, status: Status)
    requires frames != [] && InOrder(delivered, serial) && Ahead(delivered, frames) && Lined(frames, serial)
    ensures var more := delivered + [Delivered(status, frames[0])];
            InOrder(more, serial) && Ahead(more, Without(frames, 0))
  {
    hide Without, Ahead;
    HeadFollows(delivered, frames, serial);
    var more := delivered + [Delivered(status, frames[0])];
    forall i, j | 0 <= i < j < |more| ensures more[i].frame.serial < more[j].frame.serial {
      if j == |delivered| { assert delivered[i] in delivered; }
    }
    RestAhead(delivered, frames, serial, status);
  }

  lemma HeadFollows(delivered: seq<Delivered>, frames: seq<Frame>, serial: nat)
    requires frames != [] && Ahead(delivered, frames) && Lined(frames, serial)
    ensures frames[0].serial < serial && forall d | d in delivered :: d.frame.serial < frames[0].serial
  {
    assert frames[0] in frames;
  }

  lemma RestAhead(delivered: seq<Delivered>, frames: seq<Frame>, serial: nat, status: Status)
    requires frames != [] && Ahead(delivered, frames) && Lined(frames, serial)
    ensures Ahead(delivered + [Delivered(status, frames[0])], Without(frames, 0))
  {
    WithoutAt(frames, 0);
    var rest := Without(frames, 0);
    hide Without;
    forall g | g in rest ensures g in frames && frames[0].serial < g.serial {
      var k :| 0 <= k < |rest| && rest[k] == g;
      assert rest[k] == frames[k + 1];
    }
  }

  lemma CloseKeeps(cfg: Config, s: State, status: Status)
    requires Inv(cfg, s) && s.frames != [] && !Provisional(s.frames[0])
    requires status.Complete? ==> s.frames[0].error.None? && s.frames[0].receivedSize == s.frames[0].dataEnd
                                  && AllReceived(s.frames[0])
    ensures Inv(cfg, CloseFrame(s, 0, status))
  {
    hide AskedOf, WithinBudget, CountsCover, Reliable, InOrder, Ahead, Lined, Without;
    RemoveKeeps(cfg, s, 0);
    FrameSize(cfg, s, 0);
    DeliverInOrder(s.delivered, s.frames, s.serial, status);
    assert s.frames[0] in s.frames;
    assert Genuine(cfg, Delivered(status, s.frames[0]));
  }

  // -------------------------------------------------- asking for packets

  lemma AskedOfOther(requests: seq<Request>, serial: nat)
    requires forall r | r in requests :: r.serial != serial
    ensures AskedOf(requests, serial) == 0
  {
  }

  lemma {:induction false} AskedOfSent(requests: seq<Request>, f: Frame, ranges: seq<Range>, limit: nat, serial: nat)
    ensures AskedOf(requests + Sent(f, ranges, limit), serial)
            == AskedOf(requests, serial) + if serial == f.serial then AskedFor(ranges) else 0
    decreases |ranges|
  {
    var all := requests + Sent(f, ranges, limit);
    if ranges == [] {
      assert all == requests;
    } else {
      var last := |ranges| - 1;
      AskedOfSent(requests, f, ranges[..last], limit, serial);
      assert all[..|all| - 1] == requests + Sent(f, ranges[..last], limit);
    }
  }

  lemma {:induction false} AskedForPrefix(ranges: seq<Range>, k: nat)
    requires k <= |ranges|
    ensures AskedFor(ranges[..k]) <= AskedFor(ranges)
    decreases |ranges|
  {
    if k < |ranges| {
      AskedForPrefix(ranges[..|ranges| - 1], k);
      assert ranges[..|ranges| - 1][..k] == ranges[..k];
    } else {
      assert ranges[..k] == ranges;
    }
  }

  lemma SentWithinBudget(requests: seq<Request>, serial: nat, f: Frame, ranges: seq<Range>, limit: nat)
    requires WithinBudget(requests, serial) && f.serial < serial
    requires ranges != [] ==> AskedOf(requests, f.serial) + AskedFor(ranges) <= limit
    ensures WithinBudget(requests + Sent(f, ranges, limit), serial)
  {
    hide AskedOf, AskedFor;
    var sent := Sent(f, ranges, limit);
    var all := requests + sent;
    forall k | 0 <= k < |all|
      ensures AskedOf(all[..k + 1], all[k].serial) <= all[k].limit && all[k].serial < serial
    {
      if k < |requests| {
        assert all[..k + 1] == requests[..k + 1] && all[k] == requests[k];
      } else {
        var n := k + 1 - |requests|;
        assert all[..k + 1] == requests + Sent(f, ranges[..n], limit);
        AskedOfSent(requests, f, ranges[..n], limit, f.serial);
        AskedForPrefix(ranges, n);
      }
    }
  }

  lemma SentCovered(requests: seq<Request>, frames: seq<Frame>, i: nat, g: Frame, ranges: seq<Range>, limit: nat)
    requires CountsCover(requests, frames) && i < |frames| && g.serial == frames[i].serial
    requires frames[i].resend.requests + AskedFor(ranges) <= g.resend.requests
    requires forall j, k | 0 <= j < k < |frames| :: frames[j].serial != frames[k].serial
    ensures CountsCover(requests + Sent(frames[i], ranges, limit), frames[i := g])
  {
    hide AskedOf, AskedFor, Sent;
    forall f | f in frames[i := g]
      ensures AskedOf(requests + Sent(frames[i], ranges, limit), f.serial) <= f.resend.requests
    {
      var k :| 0 <= k < |frames| && frames[i := g][k] == f;
      assert frames[k] in frames && frames[i] in frames;
      AskedOfSent(requests, frames[i], ranges, limit, f.serial);
    }
  }

  lemma FlagsReliable(cfg: Config, f: Frame, g: Frame)
    requires Reliable(cfg, f) && SameFlags(f.packets, g.packets) && g == f.(packets := g.packets, resend := g.resend)
    ensures Reliable(cfg, g)
  {
    hide Total, Extent, Laid, DivCeil, HeldSize;
    if f.error.None? {
      forall a | a in f.accepted ensures a.0 < |g.packets| && g.packets[a.0].received {
        var i :| 0 <= i < |f.accepted| && f.accepted[i] == a;
      }
    }
  }

  lemma AskKeeps(cfg: Config, s: State, i: nat, packetId: nat, now: int)
    requires Inv(cfg, s) && i < |s.frames|
    ensures Inv(cfg, AskAgain(cfg, s, i, packetId, now))
    ensures var t := AskAgain(cfg, s, i, packetId, now);
            && |t.frames| == |s.frames| && t == s.(frames := t.frames, requests := t.requests)
            && (forall k | 0 <= k < |s.frames| :: Provisional(t.frames[k]) == Provisional(s.frames[k]))
  {
    hide AskedOf, AskedFor, MissingCheck, Reliable, InOrder, AllGenuine, Sent;
    var f := s.frames[i];
    assert f in s.frames;
    RequestsAreHoles(cfg, f, packetId, now);
    var (g, ranges) := MissingCheck(cfg, f, packetId, now);
    FlagsReliable(cfg, f, g);
    ReplaceKeeps(cfg, s, i, g);
    SentWithinBudget(s.requests, s.serial, f, ranges, MaxRequests(cfg, |f.packets|));
    SentCovered(s.requests, s.frames, i, g, ranges, MaxRequests(cfg, |f.packets|));
  }

  // --------------------------------------------------- completion check

  lemma {:induction false} CheckKeeps(cfg: Config, s: State, now: int, current: Option<nat>, i: nat, canClose: bool)
    requires Inv(cfg, s) && (canClose ==> forall j | 0 <= j < i && j < |s.frames| :: Provisional(s.frames[j]))
    ensures Inv(cfg, CheckCompletion(cfg, s, now, current, i, canClose))
    decreases |s.frames| - i
  {
    hide Inv, DiscardFrame, CloseFrame, AskAgain;
    if i < |s.frames| {
      var f := s.frames[i];
      match Judge(cfg, s, i, canClose, now)
      case Discard =>
        DiscardKeeps(cfg, s, i);
        WithoutAt(s.frames, i);
        CheckKeeps(cfg, DiscardFrame(cfg, s, i), now, current, i, canClose);
      case Skip => CheckKeeps(cfg, s, now, current, i + 1, canClose);
      case Close(status) =>
        ClosesHead(cfg, s, i, canClose, now);
        CloseKeeps(cfg, s, status);
        CheckKeeps(cfg, CloseFrame(s, i, status), now, current, i, canClose);
      case Wait =>
        AskKeeps(cfg, s, i, Max(|f.packets| - 1, 0), now);
        var t := if current != Some(f.frameId) && Since(now, f.lastTime) >= cfg.packetTimeout
                 then AskAgain(cfg, s, i, Max(|f.packets| - 1, 0), now) else s;
        CheckKeeps(cfg, t, now, current, i + 1, false);
    }
  }

  lemma HeadReal(frames: seq<Frame>, serial: nat, i: nat)
    requires Lined(frames, serial) && 0 < i < |frames|
    ensures !Provisional(frames[0])
  {
  }

  /** Only the head frame closes, and as complete only if it is. */
  lemma ClosesHead(cfg: Config, s: State, i: nat, canClose: bool, now: int)
    requires Inv(cfg, s) && i < |s.frames| && Judge(cfg, s, i, canClose, now).Close?
    requires canClose ==> forall j | 0 <= j < i :: Provisional(s.frames[j])
    ensures i == 0 && !Provisional(s.frames[0]) && |CloseFrame(s, i, Judge(cfg, s, i, canClose, now).status).frames| < |s.frames|
    ensures Judge(cfg, s, i, canClose, now).status.Complete? ==>
              s.frames[0].error.None? && s.frames[0].receivedSize == s.frames[0].dataEnd && AllReceived(s.frames[0])
  {
    hide AskedOf, WithinBudget, InOrder, Ahead, AllGenuine, Conserved, CountsCover;
    assert s.frames[i] in s.frames;
    if i > 0 { HeadReal(s.frames, s.serial, i); }
    WithoutAt(s.frames, i);
  }

  lemma {:induction false} CloseAllKeeps(cfg: Config, s: State)
    requires Inv(cfg, s) && forall f | f in s.frames :: !Provisional(f)
    ensures Inv(cfg, CloseAll(s))
    decreases |s.frames|
  {
    hide Inv, Without;
    if s.frames != [] {
      assert s.frames[0] in s.frames;
      CloseKeeps(cfg, s, Aborted);
      WithoutAt(s.frames, 0);
      CloseAllKeeps(cfg, CloseFrame(s, 0, Aborted));
    }
  }

  lemma FlushKeeps(cfg: Config, s: State)
    requires Inv(cfg, s)
    ensures Inv(cfg, FlushFrames(cfg, s))
  {
    hide Inv, DiscardProvisional, CloseAll;
    DiscardProvisionalKeeps(cfg, s);
    CloseAllKeeps(cfg, DiscardProvisional(cfg, s));
  }

  // ------------------------------------------------------- opening frames

  lemma ExpectedWithinLimit(cfg: Config, view: View)
    ensures ExpectedPackets(cfg, view) <= PacketLimit(cfg)
    ensures ExpectedPackets(cfg, view) > 0 ==> EstimatedBlock(cfg, view.extended) >= 1
  {
    hide DivCeil, Reassembled;
    if EstimatedBlock(cfg, view.extended) >= 1 {
      DivCeilAtMost(cfg.payloadSize, EstimatedBlock(cfg, view.extended));
    }
  }

  lemma NewReliable(cfg: Config, s: State, view: View, now: int, buffer: Bytes, n: nat, replayOf: Option<Fingerprints>)
    requires EstimatedBlock(cfg, view.extended) >= 1 && 1 <= n <= PacketLimit(cfg) && |buffer| == cfg.payloadSize
    ensures Reliable(cfg, NewFrame(cfg, s, view, now, buffer, n, replayOf))
  {
  }

  lemma AppendKeeps(cfg: Config, s: State, f: Frame)
    requires Inv(cfg, s) && s.free != [] && Reliable(cfg, f) && f.serial == s.serial && f.resend.requests == 0
    requires forall g | g in s.frames :: g.frameId != f.frameId && !Provisional(g)
    requires Provisional(f) ==> f.frameId == RESTART_BLOCK_ID
    ensures Inv(cfg, s.(frames := s.frames + [f], free := s.free[1..], serial := s.serial + 1))
  {
    hide Reliable, AskedOf, AllGenuine;
    forall r | r in s.requests ensures r.serial != s.serial {
      var k :| 0 <= k < |s.requests| && s.requests[k] == r;
    }
    AskedOfOther(s.requests, s.serial);
    AppendLined(s.frames, s.serial, f);
    AppendBudget(s.requests, s.serial);
    assert forall b | b in s.free[1..] :: b in s.free;
  }

  lemma AppendLined(frames: seq<Frame>, serial: nat, f: Frame)
    requires Lined(frames, serial) && f.serial == serial
    requires forall g | g in frames :: g.frameId != f.frameId && !Provisional(g)
    requires Provisional(f) ==> f.frameId == RESTART_BLOCK_ID
    ensures Lined(frames + [f], serial + 1)
  {
    assert forall i | 0 <= i < |frames| :: frames[i] in frames;
  }

  lemma AppendBudget(requests: seq<Request>, serial: nat)
    requires WithinBudget(requests, serial)
    ensures WithinBudget(requests, serial + 1)
  {
  }

  /** Fields the invariant does not speak about. */
  lemma Unwatched(cfg: Config, s: State, lastId: nat, first: bool, history: seq<Closed>, missing: nat)
    requires Inv(cfg, s)
    ensures Inv(cfg, s.(lastId := lastId, first := first, history := history,
                        stats := s.stats.(missingFrames := missing)))
  {
  }

  lemma NoneHasId(cfg: Config, s: State, id: nat)
    requires Inv(cfg, s) && id == RESTART_BLOCK_ID && FindFrame(s.frames, id) == |s.frames|
    ensures forall g | g in s.frames :: g.frameId != id && !Provisional(g)
  {
    hide Conserved, InOrder, Ahead, AllReliable, AllGenuine, WithinBudget, CountsCover, Closures;
    forall g | g in s.frames ensures g.frameId != id && !Provisional(g) {
      var k :| 0 <= k < |s.frames| && s.frames[k] == g;
    }
  }

  lemma OpenProvisionalKeeps(cfg: Config, s: State, view: View, now: int, prints: Fingerprints)
    requires Inv(cfg, s) && view.frameId == RESTART_BLOCK_ID && FindFrame(s.frames, view.frameId) == |s.frames|
    ensures Inv(cfg, OpenProvisional(cfg, s, view, now, prints).state)
  {
    hide Inv, Reliable, ExpectedPackets, EstimatedBlock;
    var n := ExpectedPackets(cfg, view);
    if n > 0 && s.free != [] {
      ExpectedWithinLimit(cfg, view);
      FreeSize(cfg, s);
      NewReliable(cfg, s, view, now, s.free[0], n, Some(prints));
      NoneHasId(cfg, s, view.frameId);
      AppendKeeps(cfg, s, NewFrame(cfg, s, view, now, s.free[0], n, Some(prints)));
    }
  }

  lemma OpenNewKeeps(cfg: Config, s: State, view: View, now: int)
    requires Inv(cfg, s) && FindFrame(s.frames, view.frameId) == |s.frames|
    ensures Inv(cfg, OpenNew(cfg, s, view, now).state)
  {
    hide Inv, DiscardProvisional, ExpectedPackets, EstimatedBlock, BlockIdDistance, Reliable;
    DiscardProvisionalKeeps(cfg, s);
    var t := DiscardProvisional(cfg, s);
    var n := ExpectedPackets(cfg, view);
    var routed := OpenNew(cfg, s, view, now).state;
    if n > 0 && t.free != [] {
      ExpectedWithinLimit(cfg, view);
      FreeSize(cfg, t);
      NewReliable(cfg, t, view, now, t.free[0], n, None);
      var f := NewFrame(cfg, t, view, now, t.free[0], n, None);
      forall g | g in t.frames ensures g.frameId != f.frameId && !Provisional(g) {
        var k :| 0 <= k < |s.frames| && s.frames[k] == g;
      }
      AppendKeeps(cfg, t, f);
      var u := t.(frames := t.frames + [f], free := t.free[1..], serial := t.serial + 1);
      Unwatched(cfg, u, view.frameId, u.first, u.history, routed.stats.missingFrames);
      assert routed == u.(lastId := view.frameId, first := u.first, history := u.history,
                          stats := u.stats.(missingFrames := routed.stats.missingFrames));
    } else {
      Unwatched(cfg, t, view.frameId, t.first, routed.history, t.stats.missingFrames);
    }
  }

  lemma FreeSize(cfg: Config, s: State)
    requires Inv(cfg, s) && s.free != []
    ensures |s.free[0]| == cfg.payloadSize
  {
    assert s.free[0] in s.free;
  }

  lemma RouteKeeps(cfg: Config, s: State, view: View, now: int)
    requires Inv(cfg, s)
    ensures Inv(cfg, FindOrCreate(cfg, s, view, now).state)
  {
    hide Inv, OpenNew, OpenProvisional, BlockIdDistance, Reliable;
    var i := FindFrame(s.frames, view.frameId);
    if i < |s.frames| {
      TouchReliable(cfg, s, i, now);
      ReplaceKeeps(cfg, s, i, s.frames[i].(lastTime := now));
    } else {
      match Classify(s, view)
      case Late =>
      case New => OpenNewKeeps(cfg, s, view, now);
      case MaybeReplay(prints) => OpenProvisionalKeeps(cfg, s, view, now, prints);
    }
  }

  lemma TouchReliable(cfg: Config, s: State, i: nat, now: int)
    requires Inv(cfg, s) && i < |s.frames|
    ensures Kept(cfg, s.frames[i], s.frames[i].(lastTime := now))
  {
    assert s.frames[i] in s.frames;
  }

  // ------------------------------------------------------ taking a packet

  lemma TakeIntoKept(cfg: Config, f: Frame, view: View)
    requires Reliable(cfg, f) && cfg.payloadSize <= USIZE_MAX && Takes(f, view)
    ensures Kept(cfg, f, TakeInto(cfg, f, view))
    ensures TakeInto(cfg, f, view).replayOf == f.replayOf
  {
    hide Reliable, Process, FirstMissing;
    PacketReliable(cfg, f, view);
    ProcessIdentity(cfg, f, view);
    PrintsReliable(cfg, MarkReceived(Process(cfg, f, view), view.packetId), view);
  }

  lemma PrintsReliable(cfg: Config, f: Frame, view: View)
    requires Reliable(cfg, f)
    ensures Reliable(cfg, f.(prints := Recorded(f.prints, view)))
  {
  }

  /** Reassembly leaves a frame's identity and resend bookkeeping alone. */
  lemma ProcessIdentity(cfg: Config, f: Frame, view: View)
    requires Assembled(view)
    ensures var g := Process(cfg, f, view);
            && g.serial == f.serial && g.frameId == f.frameId && g.extended == f.extended && g.replayOf == f.replayOf
            && g.resend == f.resend && g.prints == f.prints && g.lastTime == f.lastTime
  {
    hide PlaceHeld, Place, DivCeil;
    if view.content.Payload? && f.error.None? {
      var id, data := view.packetId, view.data;
      var g := if id == 1 && !f.blockKnown then LearnBlock(cfg, f, data) else f;
      if g.error.None? && 1 <= id <= LastPayload(cfg, g) && g.blockKnown {
        var h := g.(accepted := g.accepted + [(id, data)]);
        PlaceIdentity(h, id, data);
        PlaceHeldIdentity(Place(h, id, data).(held := []), g.held);
      }
    }
  }

  lemma PlaceIdentity(f: Frame, id: Pos, data: Bytes)
    ensures var g := Place(f, id, data);
            g == f.(data := g.data, receivedSize := g.receivedSize, dataEnd := g.dataEnd, error := g.error)
  {
  }

  lemma {:induction false} PlaceHeldIdentity(f: Frame, held: seq<(Pos, Bytes)>)
    ensures var g := PlaceHeld(f, held);
            g == f.(data := g.data, receivedSize := g.receivedSize, dataEnd := g.dataEnd, error := g.error)
    decreases |held|
  {
    hide Place;
    if held != [] && f.error.None? && held[0].0 + 2 <= |f.packets| {
      PlaceIdentity(f, held[0].0, held[0].1);
      PlaceHeldIdentity(Place(f, held[0].0, held[0].1), held[1..]);
    }
  }

  lemma TakeKeeps(cfg: Config, s: State, i: nat, view: View, now: int)
    requires Inv(cfg, s) && i < |s.frames|
    ensures Inv(cfg, Take(cfg, s, i, view, now))
  {
    hide Inv, TakeInto, CheckCompletion, AskAgain, Reliable, Takes, Diverges;
    var f := s.frames[i];
    FrameReliable(cfg, s, i);
    if IsError(view.status) {
      DisabledKept(cfg, f, true);
      ReplaceKeeps(cfg, s, i, f.(resend := f.resend.(disabled := true)));
    } else if Takes(f, view) {
      TakesAssembled(f, view);
      TakeIntoKept(cfg, f, view);
      var g := TakeInto(cfg, f, view);
      ReplaceKeeps(cfg, s, i, g);
      var t := s.(frames := s.frames[i := g]);
      var u := if Provisional(f) && Diverges(f.replayOf.value, view) then AdoptRestart(t, i) else t;
      AdoptKeeps(cfg, t, i);
      AskKeeps(cfg, u, i, view.packetId, now);
      CheckKeeps(cfg, AskAgain(cfg, u, i, view.packetId, now), now, Some(f.frameId), 0, true);
    }
  }

  lemma TakesAssembled(f: Frame, view: View)
    requires Takes(f, view)
    ensures Assembled(view)
  {
  }

  lemma FrameReliable(cfg: Config, s: State, i: nat)
    requires Inv(cfg, s) && i < |s.frames|
    ensures Reliable(cfg, s.frames[i]) && cfg.payloadSize <= USIZE_MAX
  {
    assert s.frames[i] in s.frames;
  }

  lemma DisabledKept(cfg: Config, f: Frame, disabled: bool)
    requires Reliable(cfg, f)
    ensures Kept(cfg, f, f.(resend := f.resend.(disabled := disabled)))
    ensures Kept(cfg, f, f.(replayOf := None, resend := f.resend.(disabled := disabled)))
  {
  }

  lemma AdoptKeeps(cfg: Config, s: State, i: nat)
    requires Inv(cfg, s) && i < |s.frames|
    ensures Inv(cfg, AdoptRestart(s, i))
  {
    hide Inv, Reliable;
    var f := s.frames[i];
    FrameReliable(cfg, s, i);
    DisabledKept(cfg, f, false);
    var g := f.(replayOf := None, resend := f.resend.(disabled := false));
    ReplaceKeeps(cfg, s, i, g);
    var t := s.(frames := s.frames[i := g]);
    Unwatched(cfg, t, f.frameId, t.first, t.history, t.stats.missingFrames);
  }

  lemma StartKeeps(cfg: Config, s: State, view: View)
    requires Inv(cfg, s)
    ensures Inv(cfg, Start(s, view))
  {
    hide Inv;
    var t := Start(s, view);
    Unwatched(cfg, s, t.lastId, t.first, s.history, s.stats.missingFrames);
    assert t == s.(lastId := t.lastId, first := t.first, history := s.history,
                   stats := s.stats.(missingFrames := s.stats.missingFrames));
  }

  lemma PacketKeeps(cfg: Config, s: State, datagram: Option<View>, now: int)
    requires Inv(cfg, s)
    ensures Inv(cfg, ProcessPacket(cfg, s, datagram, now))
  {
    hide Inv, FindOrCreate, Take;
    match datagram
    case None =>
    case Some(view) =>
      var t := Start(s, view);
      StartKeeps(cfg, s, view);
      RouteKeeps(cfg, t, view, now);
      var routed := FindOrCreate(cfg, t, view, now);
      if routed.index.Some? && routed.index.value < |routed.state.frames| {
        TakeKeeps(cfg, routed.state, routed.index.value, view, now);
      }
  }

  // -------------------------------------------------------------- runs

  lemma DropKeeps(cfg: Config, s: State, i: nat)
    requires Inv(cfg, s) && i < |s.loaned|
    ensures Inv(cfg, DropFrame(cfg, s, i))
    ensures |DropFrame(cfg, s, i).free| == |s.free| + 1
  {
    hide Lined, InOrder, Ahead, AllGenuine, AllReliable, WithinBudget, CountsCover, Without;
    WithoutAt(s.loaned, i);
    assert s.loaned[i] in s.loaned;
  }

  lemma StepKeeps(cfg: Config, s: State, e: Event)
    requires Inv(cfg, s)
    ensures Inv(cfg, Step(cfg, s, e))
  {
    hide Inv, ProcessPacket, CheckCompletion, DropFrame, FlushFrames;
    match e
    case Packet(d, now) => PacketKeeps(cfg, s, d, now);
    case Idle(now) => CheckKeeps(cfg, s, now, None, 0, true);
    case Dropped(i) => if i < |s.loaned| { DropKeeps(cfg, s, i); }
    case Shutdown => FlushKeeps(cfg, s);
  }

  lemma InitialInv(cfg: Config)
    requires cfg.payloadSize <= USIZE_MAX
    ensures Inv(cfg, Initial(cfg))
  {
  }

  /** The invariant holds after every sequence of datagrams, idle passes,
      dropped frames and shutdowns. */
  lemma {:induction false} EveryRun(cfg: Config, events: seq<Event>)
    requires cfg.payloadSize <= USIZE_MAX
    ensures Inv(cfg, Run(cfg, Initial(cfg), events))
    decreases |events|
  {
    hide Inv, Step, Initial;
    if events == [] {
      InitialInv(cfg);
    } else {
      EveryRun(cfg, events[..|events| - 1]);
      StepKeeps(cfg, Run(cfg, Initial(cfg), events[..|events| - 1]), events[|events| - 1]);
    }
  }

  /** In particular: no buffer is lost or made up; only the last open frame may be
      provisional; frames are delivered in opening order and each is counted once;
      and no request ever takes a frame over its resend budget. */
  lemma RunAccounts(cfg: Config, events: seq<Event>)
    requires cfg.payloadSize <= USIZE_MAX
    ensures var s := Run(cfg, Initial(cfg), events);
            && |s.free| + |s.frames| + |s.loaned| == cfg.buffers
            && (forall i | 0 <= i < |s.frames| && Provisional(s.frames[i]) :: i == |s.frames| - 1)
            && (forall i, j | 0 <= i < j < |s.delivered| :: s.delivered[i].frame.serial < s.delivered[j].frame.serial)
            && s.stats.completed + s.stats.failed + s.stats.aborted == |s.delivered|
            && (forall k | 0 <= k < |s.requests| :: AskedOf(s.requests[..k + 1], s.requests[k].serial) <= s.requests[k].limit)
  {
    hide Run, Initial, AllReliable, AllGenuine, AskedOf;
    EveryRun(cfg, events);
  }

  /** In every run, a frame delivered as complete shows exactly its accepted payload
      data, in packet-id order, each id once and cut at the payload size, if and
      only if payload packet 1 was accepted or no accepted packet carried data. Where
      it fails a trailer with id 1 has taken packet 1's place (module Provenance). */
  lemma CompleteFrames(cfg: Config, events: seq<Event>, d: Delivered)
    requires cfg.payloadSize <= USIZE_MAX && d in Run(cfg, Initial(cfg), events).delivered && d.status.Complete?
    ensures DistinctIds(d.frame.accepted)
    ensures Data(d) == Promised(cfg, d.frame) <==> HasFirst(d.frame.accepted) || forall a | a in d.frame.accepted :: a.1 == []
  {
    hide Run, Initial, Reliable, Promised;
    var s := Run(cfg, Initial(cfg), events);
    EveryRun(cfg, events);
    DeliveredData(cfg, s, d);
    assert Genuine(cfg, d);
    HeldWithoutBlock(cfg, d.frame);
  }
}
