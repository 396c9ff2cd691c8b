/** Where a frame's flags come from: every packet counted as received came while the
    frame was open, and was a leader, a payload packet it accepted, or a trailer. */
module Provenance {
  import opened Gvsp
  import opened Reassembly
  import opened FrameContent
  import opened Holes
  import opened Receiver
  import opened ReceiverRuns

  predicate Accepts(f: Frame, k: nat) { exists a | a in f.accepted :: a.0 == k }

  /** What is kept of a leader: all of it, if it is long enough to be one. */
  function LeaderKept(data: Bytes): Option<Bytes> { if |data| >= 12 then Some(data) else None }

  /** The packet accounts for flag `k` of the frame: the leader, whose data the frame
      keeps, a trailer, or a payload packet it accepted. */
  predicate Explains(v: View, f: Frame, k: nat) {
    && v.packetId == k && v.frameId == f.frameId && !IsError(v.status)
    && if k == 0 then v.content.Leader? && f.leader == LeaderKept(v.data)
       else v.content.Trailer? || (v.content.Payload? && Accepts(f, k))
  }

  /** Event `i` came before frame `serial` was delivered, and not before it opened. */
  ghost predicate WhileOpen(cfg: Config, events: seq<Event>, i: nat, serial: nat)
    requires i < |events|
  {
    && (forall d | d in Run(cfg, Initial(cfg), events[..i]).delivered :: d.frame.serial != serial)
    && serial < Run(cfg, Initial(cfg), events[..i + 1]).serial
  }

  ghost predicate Cause(cfg: Config, events: seq<Event>, i: nat, f: Frame, k: nat) {
    && i < |events| && events[i].Packet? && events[i].datagram.Some?
    && Explains(events[i].datagram.value, f, k) && WhileOpen(cfg, events, i, f.serial)
  }

  /** Every flag of the frame has its packet. */
  ghost predicate Backed(cfg: Config, events: seq<Event>, f: Frame) {
    f.error.None? ==> forall k | 0 <= k < |f.packets| && f.packets[k].received :: exists i: nat :: Cause(cfg, events, i, f, k)
  }

  ghost predicate AllBacked(cfg: Config, events: seq<Event>, s: State) {
    (forall f | f in s.frames :: Backed(cfg, events, f)) && (forall d | d in s.delivered :: Backed(cfg, events, d.frame))
  }

  // --------------------------------------------------------- frames that evolve

  /** The same frame later, with no flag but `k` added, and the leader it had unless
      that flag is the leader's. */
  ghost predicate Grown(f: Frame, g: Frame, k: int) {
    && g.serial == f.serial && g.frameId == f.frameId && (g.error.None? ==> f.error.None?)
    && (forall a | a in f.accepted :: a in g.accepted) && (k != 0 ==> g.leader == f.leader)
    && (forall i | 0 <= i < |g.packets| && g.packets[i].received && i != k :: i < |f.packets| && f.packets[i].received)
  }

  lemma GrownBacked(cfg: Config, events: seq<Event>, f: Frame, g: Frame)
    requires Grown(f, g, -1) && Backed(cfg, events, f)
    ensures Backed(cfg, events, g)
  {
    hide WhileOpen;
    if g.error.None? {
      forall k | 0 <= k < |g.packets| && g.packets[k].received ensures exists i: nat :: Cause(cfg, events, i, g, k) {
        var i: nat :| Cause(cfg, events, i, f, k);
        assert Cause(cfg, events, i, g, k);
      }
    }
  }

  lemma LaterBacked(cfg: Config, events: seq<Event>, e: Event, f: Frame)
    requires Backed(cfg, events, f)
    ensures Backed(cfg, events + [e], f)
  {
    hide Explains, Run, Initial;
    if f.error.None? {
      forall k | 0 <= k < |f.packets| && f.packets[k].received ensures exists i: nat :: Cause(cfg, events + [e], i, f, k) {
        var i: nat :| Cause(cfg, events, i, f, k);
        assert (events + [e])[..i] == events[..i] && (events + [e])[..i + 1] == events[..i + 1];
        assert Cause(cfg, events + [e], i, f, k);
      }
    }
  }

  lemma {:induction false} HeldGrows(f: Frame, held: Accepted)
    ensures var g := PlaceHeld(f, held);
            g == f.(data := g.data, receivedSize := g.receivedSize, dataEnd := g.dataEnd, error := g.error)
            && (g.error.None? ==> f.error.None?)
    decreases |held|
  {
    hide Place;
    if held != [] && f.error.None? && held[0].0 + 2 <= |f.packets| {
      PlaceIdentity(f, held[0].0, held[0].1);
      HeldGrows(Place(f, held[0].0, held[0].1), held[1..]);
    }
  }

  lemma PayloadGrows(cfg: Config, f: Frame, id: nat, data: Bytes)
    ensures var g := ProcessPayload(cfg, f, id, data); Grown(f, g, -1) && (g.error.None? ==> Accepts(g, id))
  {
    hide PlaceHeld, Place, DivCeil;
    if f.error.None? {
      var g := if id == 1 && !f.blockKnown then LearnBlock(cfg, f, data) else f;
      if g.error.None? && 1 <= id <= LastPayload(cfg, g) {
        var h := g.(accepted := g.accepted + [(id, data)]);
        assert (id as Pos, data) in h.accepted;
        if g.blockKnown {
          PlaceIdentity(h, id, data);
          HeldGrows(Place(h, id, data).(held := []), h.held);
        }
      }
    }
  }

  lemma ProcessGrows(cfg: Config, f: Frame, view: View)
    requires Assembled(view)
    ensures var g := Process(cfg, f, view);
            Grown(f, g, view.packetId) && (forall i | 0 <= i < |g.packets| && g.packets[i].received :: i < |f.packets| && f.packets[i].received)
            && (g.error.None? && !IsError(view.status) && view.frameId == f.frameId ==> Explains(view, g, view.packetId))
  {
    hide ProcessPayload, DivCeil;
    if view.content.Payload? { PayloadGrows(cfg, f, view.packetId, view.data); }
  }

  /** A packet that is taken explains the flag it sets. */
  lemma TakeGrows(cfg: Config, f: Frame, view: View)
    requires Takes(f, view) && view.frameId == f.frameId
    ensures var g := TakeInto(cfg, f, view);
            Grown(f, g, view.packetId) && (g.error.None? ==> Explains(view, g, view.packetId))
  {
    hide Process, FirstMissing, Recorded;
    ProcessGrows(cfg, f, view);
  }

  lemma TakenBacked(cfg: Config, events: seq<Event>, f: Frame, g: Frame, view: View, now: int)
    requires Backed(cfg, events, f) && Grown(f, g, view.packetId) && (g.error.None? ==> Explains(view, g, view.packetId))
    requires events != [] && events[|events| - 1] == Packet(Some(view), now) && WhileOpen(cfg, events, |events| - 1, f.serial)
    ensures Backed(cfg, events, g)
  {
    hide WhileOpen;
    if g.error.None? {
      forall k | 0 <= k < |g.packets| && g.packets[k].received ensures exists i: nat :: Cause(cfg, events, i, g, k) {
        if k == view.packetId {
          assert Cause(cfg, events, |events| - 1, g, k);
        } else {
          var i: nat :| Cause(cfg, events, i, f, k);
          assert Cause(cfg, events, i, g, k);
        }
      }
    }
  }

  // --------------------------------------------------------- states that evolve

  lemma ClosedBacked(cfg: Config, events: seq<Event>, s: State, i: nat, status: Status)
    requires AllBacked(cfg, events, s) && i < |s.frames|
    ensures AllBacked(cfg, events, CloseFrame(s, i, status))
  {
    hide Backed;
    FewerFrames(s.frames, i);
  }

  lemma FewerFrames(frames: seq<Frame>, i: nat)
    requires i < |frames|
    ensures frames[i] in frames && forall f | f in Without(frames, i) :: f in frames
  {
  }

  lemma DiscardBacked(cfg: Config, events: seq<Event>, s: State, i: nat)
    requires AllBacked(cfg, events, s) && i < |s.frames|
    ensures AllBacked(cfg, events, DiscardFrame(cfg, s, i))
  {
    hide Backed;
    FewerFrames(s.frames, i);
  }

  /** One frame replaced by what it has become. */
  lemma SetBacked(cfg: Config, events: seq<Event>, s: State, i: nat, g: Frame)
    requires AllBacked(cfg, events, s) && i < |s.frames| && Backed(cfg, events, g)
    ensures AllBacked(cfg, events, s.(frames := s.frames[i := g]))
  {
    hide Backed;
    assert forall f | f in s.frames[i := g] :: f in s.frames || f == g;
  }

  lemma AskBacked(cfg: Config, events: seq<Event>, s: State, i: nat, packetId: nat, now: int)
    requires AllBacked(cfg, events, s) && i < |s.frames|
    ensures AllBacked(cfg, events, AskAgain(cfg, s, i, packetId, now))
  {
    hide Backed, MissingCheck, AllBacked;
    var f := s.frames[i];
    RequestsAreHoles(cfg, f, packetId, now);
    var g := MissingCheck(cfg, f, packetId, now).0;
    BackedAt(cfg, events, s, i);
    GrownBacked(cfg, events, f, g);
    SetBacked(cfg, events, s, i, g);
    RecordsBacked(cfg, events, s.(frames := s.frames[i := g]), AskAgain(cfg, s, i, packetId, now));
  }

  lemma BackedAt(cfg: Config, events: seq<Event>, s: State, i: nat)
    requires AllBacked(cfg, events, s) && i < |s.frames|
    ensures Backed(cfg, events, s.frames[i])
  {
    hide Backed;
  }

  lemma RecordsBacked(cfg: Config, events: seq<Event>, s: State, t: State)
    requires AllBacked(cfg, events, s) && t.frames == s.frames && t.delivered == s.delivered
    ensures AllBacked(cfg, events, t)
  {
  }

  lemma {:induction false} CheckBacked(cfg: Config, events: seq<Event>, s: State, now: int, current: Option<nat>, i: nat, canClose: bool)
    requires AllBacked(cfg, events, s)
    ensures AllBacked(cfg, events, CheckCompletion(cfg, s, now, current, i, canClose))
    decreases |s.frames| - i
  {
    hide AllBacked, Judge, AskAgain;
    if i < |s.frames| {
      match Judge(cfg, s, i, canClose, now)
      case Discard =>
        DiscardBacked(cfg, events, s, i);
        CheckBacked(cfg, events, DiscardFrame(cfg, s, i), now, current, i, canClose);
      case Skip => CheckBacked(cfg, events, s, now, current, i + 1, canClose);
      case Close(status) =>
        ClosedBacked(cfg, events, s, i, status);
        CheckBacked(cfg, events, CloseFrame(s, i, status), now, current, i, canClose);
      case Wait =>
        var f := s.frames[i];
        var last := Max(|f.packets| - 1, 0);
        var t := if current != Some(f.frameId) && Since(now, f.lastTime) >= cfg.packetTimeout
                 then AskAgain(cfg, s, i, last, now) else s;
        AskBacked(cfg, events, s, i, last, now);
        SameCount(cfg, s, i, last, now);
        CheckBacked(cfg, events, t, now, current, i + 1, false);
    }
  }

  lemma SameCount(cfg: Config, s: State, i: nat, packetId: nat, now: int)
    requires i < |s.frames|
    ensures |AskAgain(cfg, s, i, packetId, now).frames| == |s.frames|
  {
    hide MissingCheck;
  }

  lemma {:induction false} DiscardAllBacked(cfg: Config, events: seq<Event>, s: State)
    requires AllBacked(cfg, events, s)
    ensures AllBacked(cfg, events, DiscardProvisional(cfg, s))
    decreases |s.frames|
  {
    hide AllBacked;
    var i := FirstProvisional(s.frames);
    if i < |s.frames| {
      DiscardBacked(cfg, events, s, i);
      DiscardAllBacked(cfg, events, DiscardFrame(cfg, s, i));
    }
  }

  lemma {:induction false} CloseAllBacked(cfg: Config, events: seq<Event>, s: State)
    requires AllBacked(cfg, events, s)
    ensures AllBacked(cfg, events, CloseAll(s))
    decreases |s.frames|
  {
    hide AllBacked;
    if s.frames != [] {
      ClosedBacked(cfg, events, s, 0, Aborted);
      CloseAllBacked(cfg, events, CloseFrame(s, 0, Aborted));
    }
  }

  lemma NewBacked(cfg: Config, events: seq<Event>, s: State, view: View, now: int, buffer: Bytes, n: nat, replayOf: Option<Fingerprints>)
    requires EstimatedBlock(cfg, view.extended) >= 1
    ensures Backed(cfg, events, NewFrame(cfg, s, view, now, buffer, n, replayOf))
  {
  }

  lemma MoreBacked(cfg: Config, events: seq<Event>, s: State, t: State, f: Frame)
    requires AllBacked(cfg, events, s) && Backed(cfg, events, f) && t.frames == s.frames + [f] && t.delivered == s.delivered
    ensures AllBacked(cfg, events, t)
  {
    hide Backed;
    assert forall g | g in s.frames + [f] :: g in s.frames || g == f;
  }

  /** Routing a packet: its frame, if any, has its id. */
  lemma RouteBacked(cfg: Config, events: seq<Event>, s: State, view: View, now: int)
    requires AllBacked(cfg, events, s)
    ensures var r := FindOrCreate(cfg, s, view, now);
            && AllBacked(cfg, events, r.state) && r.state.delivered == s.delivered
            && (r.index.Some? && r.index.value < |r.state.frames| ==> r.state.frames[r.index.value].frameId == view.frameId)
  {
    hide AllBacked, Backed, Classify, DiscardProvisional, ExpectedPackets, BlockIdDistance;
    var i := FindFrame(s.frames, view.frameId);
    if i < |s.frames| {
      var f := s.frames[i];
      BackedAt(cfg, events, s, i);
      GrownBacked(cfg, events, f, f.(lastTime := now));
      SetBacked(cfg, events, s, i, f.(lastTime := now));
    } else {
      match Classify(s, view)
      case Late =>
      case New => OpenNewBacked(cfg, events, s, view, now);
      case MaybeReplay(prints) => OpenProvisionalBacked(cfg, events, s, view, now, prints);
    }
  }

  lemma OpenProvisionalBacked(cfg: Config, events: seq<Event>, s: State, view: View, now: int, prints: Fingerprints)
    requires AllBacked(cfg, events, s)
    ensures var r := OpenProvisional(cfg, s, view, now, prints);
            && AllBacked(cfg, events, r.state) && r.state.delivered == s.delivered
            && (r.index.Some? && r.index.value < |r.state.frames| ==> r.state.frames[r.index.value].frameId == view.frameId)
  {
    hide AllBacked, Backed;
    var n := ExpectedPackets(cfg, view);
    if n > 0 && s.free != [] {
      NewBacked(cfg, events, s, view, now, s.free[0], n, Some(prints));
      MoreBacked(cfg, events, s, OpenProvisional(cfg, s, view, now, prints).state, NewFrame(cfg, s, view, now, s.free[0], n, Some(prints)));
    }
  }

  lemma OpenNewBacked(cfg: Config, events: seq<Event>, s: State, view: View, now: int)
    requires AllBacked(cfg, events, s)
    ensures var r := OpenNew(cfg, s, view, now);
            && AllBacked(cfg, events, r.state) && r.state.delivered == s.delivered
            && (r.index.Some? && r.index.value < |r.state.frames| ==> r.state.frames[r.index.value].frameId == view.frameId)
  {
    hide AllBacked, Backed, DiscardProvisional, BlockIdDistance;
    var t := DiscardProvisional(cfg, s);
    DiscardAllBacked(cfg, events, s);
    DiscardDelivers(cfg, s);
    var n := ExpectedPackets(cfg, view);
    if n > 0 && t.free != [] {
      NewBacked(cfg, events, t, view, now, t.free[0], n, None);
      MoreBacked(cfg, events, t, OpenNew(cfg, s, view, now).state, NewFrame(cfg, t, view, now, t.free[0], n, None));
    } else {
      RecordsBacked(cfg, events, t, OpenNew(cfg, s, view, now).state);
    }
  }

  lemma {:induction false} DiscardDelivers(cfg: Config, s: State)
    ensures DiscardProvisional(cfg, s).delivered == s.delivered
    decreases |s.frames|
  {
    var i := FirstProvisional(s.frames);
    if i < |s.frames| { DiscardDelivers(cfg, DiscardFrame(cfg, s, i)); }
  }

  lemma TakeBacked(cfg: Config, events: seq<Event>, s: State, i: nat, view: View, now: int)
    requires AllBacked(cfg, events, s) && i < |s.frames| && s.frames[i].frameId == view.frameId
    requires events != [] && events[|events| - 1] == Packet(Some(view), now) && WhileOpen(cfg, events, |events| - 1, s.frames[i].serial)
    ensures AllBacked(cfg, events, Take(cfg, s, i, view, now))
  {
    hide AllBacked, Backed, Takes, TakeInto, Diverges, CheckCompletion, WhileOpen, AskAgain, Grown, Explains;
    var f := s.frames[i];
    BackedAt(cfg, events, s, i);
    if IsError(view.status) {
      DisabledBacked(cfg, events, s, i);
    } else if Takes(f, view) {
      TakesAssembled(f, view);
      TakeGrows(cfg, f, view);
      var g := TakeInto(cfg, f, view);
      TakenBacked(cfg, events, f, g, view, now);
      var t := s.(frames := s.frames[i := g]);
      SetBacked(cfg, events, s, i, g);
      AdoptBacked(cfg, events, t, i);
      var u := if Provisional(f) && Diverges(f.replayOf.value, view) then AdoptRestart(t, i) else t;
      AskBacked(cfg, events, u, i, view.packetId, now);
      CheckBacked(cfg, events, AskAgain(cfg, u, i, view.packetId, now), now, Some(f.frameId), 0, true);
    }
  }

  lemma DisabledBacked(cfg: Config, events: seq<Event>, s: State, i: nat)
    requires AllBacked(cfg, events, s) && i < |s.frames|
    ensures AllBacked(cfg, events, s.(frames := s.frames[i := s.frames[i].(resend := s.frames[i].resend.(disabled := true))]))
  {
    hide AllBacked, Backed;
    BackedAt(cfg, events, s, i);
    var g := s.frames[i].(resend := s.frames[i].resend.(disabled := true));
    GrownBacked(cfg, events, s.frames[i], g);
    SetBacked(cfg, events, s, i, g);
  }

  lemma AdoptBacked(cfg: Config, events: seq<Event>, s: State, i: nat)
    requires AllBacked(cfg, events, s) && i < |s.frames|
    ensures AllBacked(cfg, events, AdoptRestart(s, i))
  {
    hide AllBacked, Backed;
    BackedAt(cfg, events, s, i);
    var g := AdoptRestart(s, i).frames[i];
    GrownBacked(cfg, events, s.frames[i], g);
    SetBacked(cfg, events, s, i, g);
    RecordsBacked(cfg, events, s.(frames := s.frames[i := g]), AdoptRestart(s, i));
  }

  // ------------------------------------------------------------------ runs

  lemma LaterAllBacked(cfg: Config, events: seq<Event>, e: Event, s: State)
    requires AllBacked(cfg, events, s)
    ensures AllBacked(cfg, events + [e], s)
  {
    hide Backed;
    forall f | f in s.frames ensures Backed(cfg, events + [e], f) { LaterBacked(cfg, events, e, f); }
    forall d | d in s.delivered ensures Backed(cfg, events + [e], d.frame) { LaterBacked(cfg, events, e, d.frame); }
  }

  /** The frame a packet is routed to was not delivered before, and is open. */
  lemma RoutedOpen(cfg: Config, s: State, r: State, t: State, i: nat)
    requires Inv(cfg, r) && r.delivered == s.delivered && i < |r.frames| && t.serial >= r.serial
    ensures (forall d | d in s.delivered :: d.frame.serial != r.frames[i].serial) && r.frames[i].serial < t.serial
  {
    hide Conserved, AllReliable, AllGenuine, WithinBudget, CountsCover;
    assert r.frames[i] in r.frames;
  }

  lemma {:induction false} CheckSerial(cfg: Config, s: State, now: int, current: Option<nat>, i: nat, canClose: bool)
    ensures CheckCompletion(cfg, s, now, current, i, canClose).serial == s.serial
    decreases |s.frames| - i
  {
    hide Judge, MissingCheck;
    if i < |s.frames| {
      match Judge(cfg, s, i, canClose, now)
      case Discard => CheckSerial(cfg, DiscardFrame(cfg, s, i), now, current, i, canClose);
      case Skip => CheckSerial(cfg, s, now, current, i + 1, canClose);
      case Close(status) => CheckSerial(cfg, CloseFrame(s, i, status), now, current, i, canClose);
      case Wait =>
        var f := s.frames[i];
        var t := if current != Some(f.frameId) && Since(now, f.lastTime) >= cfg.packetTimeout
                 then AskAgain(cfg, s, i, Max(|f.packets| - 1, 0), now) else s;
        CheckSerial(cfg, t, now, current, i + 1, false);
    }
  }

  lemma TakeSerial(cfg: Config, s: State, i: nat, view: View, now: int)
    requires i < |s.frames|
    ensures Take(cfg, s, i, view, now).serial == s.serial
  {
    hide TakeInto, Diverges, CheckCompletion, MissingCheck, Takes;
    var f := s.frames[i];
    if Takes(f, view) {
      TakesAssembled(f, view);
      var t := s.(frames := s.frames[i := TakeInto(cfg, f, view)]);
      var u := if Provisional(f) && Diverges(f.replayOf.value, view) then AdoptRestart(t, i) else t;
      CheckSerial(cfg, AskAgain(cfg, u, i, view.packetId, now), now, Some(f.frameId), 0, true);
    }
  }

  lemma PacketBacked(cfg: Config, before: seq<Event>, view: View, now: int)
    requires Inv(cfg, Run(cfg, Initial(cfg), before)) && AllBacked(cfg, before, Run(cfg, Initial(cfg), before))
    ensures var events := before + [Packet(Some(view), now)]; AllBacked(cfg, events, Run(cfg, Initial(cfg), events))
  {
    hide AllBacked, Inv, FindOrCreate, Take, Initial, Explains;
    var e := Packet(Some(view), now);
    var events, s := before + [e], Run(cfg, Initial(cfg), before);
    assert events[..|before|] == before && events[..|before| + 1] == events;
    var t := Run(cfg, Initial(cfg), events);
    assert t == ProcessPacket(cfg, s, Some(view), now);
    var s1 := Start(s, view);
    LaterAllBacked(cfg, before, e, s);
    RecordsBacked(cfg, events, s, s1);
    RouteBacked(cfg, events, s1, view, now);
    StartKeeps(cfg, s, view);
    RouteKeeps(cfg, s1, view, now);
    var r := FindOrCreate(cfg, s1, view, now);
    if r.index.Some? && r.index.value < |r.state.frames| {
      TakeSerial(cfg, r.state, r.index.value, view, now);
      RoutedOpen(cfg, s, r.state, t, r.index.value);
      TakeBacked(cfg, events, r.state, r.index.value, view, now);
    }
  }

  lemma StepBacked(cfg: Config, before: seq<Event>, e: Event)
    requires Inv(cfg, Run(cfg, Initial(cfg), before)) && AllBacked(cfg, before, Run(cfg, Initial(cfg), before))
    ensures AllBacked(cfg, before + [e], Run(cfg, Initial(cfg), before + [e]))
  {
    hide AllBacked, Inv, ProcessPacket, CheckCompletion, DiscardProvisional, CloseAll, Initial;
    var s, events := Run(cfg, Initial(cfg), before), before + [e];
    assert events[..|before|] == before;
    assert Run(cfg, Initial(cfg), events) == Step(cfg, s, e);
    LaterAllBacked(cfg, before, e, s);
    match e
    case Packet(d, now) => if d.Some? { PacketBacked(cfg, before, d.value, now); } else { Undecoded(cfg, s, now); }
    case Idle(now) => CheckBacked(cfg, events, s, now, None, 0, true);
    case Dropped(i) => RecordsBacked(cfg, events, s, Step(cfg, s, e));
    case Shutdown =>
      DiscardAllBacked(cfg, events, s);
      CloseAllBacked(cfg, events, DiscardProvisional(cfg, s));
  }

  lemma Undecoded(cfg: Config, s: State, now: int)
    ensures ProcessPacket(cfg, s, None, now) == s
  {
  }

  /** In every run, every packet a frame counts as received has its cause. */
  lemma {:induction false} EveryFlagBacked(cfg: Config, events: seq<Event>)
    requires cfg.payloadSize <= USIZE_MAX
    ensures AllBacked(cfg, events, Run(cfg, Initial(cfg), events))
    decreases |events|
  {
    hide Backed, Step, Inv;
    if events != [] {
      hide Initial, AllBacked;
      var n := |events| - 1;
      EveryFlagBacked(cfg, events[..n]);
      EveryRun(cfg, events[..n]);
      StepBacked(cfg, events[..n], events[n]);
      assert events[..n] + [events[n]] == events;
    }
  }

  /** In every run, a frame delivered as complete fails to show its accepted data only
      if it accepted data but not payload packet 1, and a trailer with id 1 came for
      it while it was open. */
  lemma ShadowedFirst(cfg: Config, events: seq<Event>, d: Delivered) returns (i: nat)
    requires cfg.payloadSize <= USIZE_MAX && d in Run(cfg, Initial(cfg), events).delivered && d.status.Complete?
    requires Data(d) != Promised(cfg, d.frame)
    ensures !HasFirst(d.frame.accepted) && exists a | a in d.frame.accepted :: a.1 != []
    ensures i < |events| && events[i].Packet? && events[i].datagram.Some? && WhileOpen(cfg, events, i, d.frame.serial)
    ensures var v := events[i].datagram.value; v.content.Trailer? && v.packetId == 1 && v.frameId == d.frame.frameId
  {
    hide Run, Initial, Promised, WhileOpen, Sized;
    CompleteFrames(cfg, events, d);
    EveryFlagBacked(cfg, events);
    var f := d.frame;
    assert f.packets[1].received && f.error.None? by { AllFlagged(cfg, events, d); }
    assert Backed(cfg, events, f);
    i :| Cause(cfg, events, i, f, 1);
  }

  /** In every run, a faultless frame, open or delivered, that counts its leader as
      received keeps the data of a leader that came for it while it was open. */
  lemma LeaderShown(cfg: Config, events: seq<Event>, f: Frame) returns (i: nat)
    requires cfg.payloadSize <= USIZE_MAX && f.error.None? && |f.packets| > 0 && f.packets[0].received
    requires var s := Run(cfg, Initial(cfg), events); f in s.frames || exists d | d in s.delivered :: d.frame == f
    ensures i < |events| && events[i].Packet? && events[i].datagram.Some? && WhileOpen(cfg, events, i, f.serial)
    ensures var v := events[i].datagram.value;
            v.content.Leader? && v.packetId == 0 && v.frameId == f.frameId && f.leader == LeaderKept(v.data)
  {
    hide Run, Initial, WhileOpen;
    EveryFlagBacked(cfg, events);
    assert Backed(cfg, events, f);
    i :| Cause(cfg, events, i, f, 0);
  }

  lemma AllFlagged(cfg: Config, events: seq<Event>, d: Delivered)
    requires cfg.payloadSize <= USIZE_MAX && d in Run(cfg, Initial(cfg), events).delivered && d.status.Complete?
    requires d.frame.accepted != []
    ensures |d.frame.packets| > 1 && d.frame.packets[1].received && d.frame.error.None?
  {
    hide Run, Initial, Laid, DivCeil, HasFirst;
    EveryRun(cfg, events);
    assert Genuine(cfg, d);
    assert d.frame.accepted[0] in d.frame.accepted;
  }
}
