/** A device whose block-id counter starts again at 1 while frame 1 is still
    remembered: the new frame is told from late copies of the old one. */
module Restart {
  import opened Gvsp
  import opened Reassembly
  import opened FrameContent
  import opened Holes
  import opened Receiver
  import opened ReceiverRuns
  import opened Bursts
  import opened Fingerprinting
  import opened Streaming
  import Delivery

  /** How the receiver takes a packet with the first block id now. */
  function Recognised(s: State, extended: bool): Arrival { Classify(s, View(0, extended, RESTART_BLOCK_ID, 0, Leader, [])) }

  lemma SameArrival(s: State, view: View)
    requires view.frameId == RESTART_BLOCK_ID
    ensures Classify(s, view) == Recognised(s, view.extended)
  {
  }

  /** The packets received show a frame that is no copy of a remembered one. */
  ghost predicate Told(a: Arrival, b: Burst, got: set<nat>) {
    a.New? || (a.MaybeReplay? && exists k | k in got :: Contradicts(a.prints, b, k))
  }

  /** The frame of the new burst: provisional until a packet tells. */
  ghost predicate FrameIs(cfg: Config, a: Arrival, b: Burst, f: Frame, got: set<nat>, at: int) {
    && Filling(cfg, b, f, got) && f.prints == PrintsOf(b, got)
    && f.frameId == b.id && f.extended == b.extended && f.lastTime == at
    && !a.Late? && f.replayOf == if Told(a, b, got) then None else Some(a.prints)
  }

  /** The burst delivered, or dropped as a copy. */
  ghost predicate Outcome(a: Arrival, b: Burst, s0: State, s: State) {
    if Told(a, b, Through(b.Last())) then
      && s.lastId == RESTART_BLOCK_ID && |s.delivered| == |s0.delivered| + 1
      && s.delivered[..|s0.delivered|] == s0.delivered && Delivery.Shows(s.delivered[|s0.delivered|], b)
    else s.lastId == s0.lastId && s.delivered == s0.delivered
  }

  /** Fingerprints no packet of the burst contradicts. */
  ghost predicate Known(ref: Fingerprints, b: Burst) { forall view: View | b.Sends(view) :: !Diverges(ref, view) }

  /** At most one frame is open, and it is taken for a copy of the burst. */
  ghost predicate Echoing(b: Burst, s: State) {
    && Recognised(s, b.extended).MaybeReplay? && Known(Recognised(s, b.extended).prints, b)
    && (s.frames == [] || (|s.frames| == 1 && Echo(s.frames[0], Recognised(s, b.extended).prints)))
  }

  ghost predicate Echo(f: Frame, ref: Fingerprints) { f.frameId == RESTART_BLOCK_ID && f.replayOf == Some(ref) }

  /** The receiver after the packets in `got` of the new burst, from state `s0`. */
  ghost predicate Restarting(cfg: Config, b: Burst, s0: State, s: State, got: set<nat>, at: int) {
    var a := Recognised(s0, b.extended);
    && Inv(cfg, s) && !s.first && (forall i | i in got :: i <= b.Last())
    && if got == Through(b.Last()) then Outcome(a, b, s0, s) && Echoing(b, s)
       else if got == {} then s == s0
       else
         && s.delivered == s0.delivered && s.lastId == (if Told(a, b, got) then RESTART_BLOCK_ID else s0.lastId)
         && s.history == s0.history && |s.frames| == 1 && FrameIs(cfg, a, b, s.frames[0], got, at)
  }

  lemma ToldMore(a: Arrival, b: Burst, got: set<nat>, id: nat)
    requires a.MaybeReplay?
    ensures Told(a, b, got + {id}) <==> Told(a, b, got) || Contradicts(a.prints, b, id)
  {
    hide Contradicts;
  }

  // ------------------------------------------------ completion, provisional

  lemma CheckProvisionalFrame(cfg: Config, s: State, now: int, current: Option<nat>, b: Burst, got: set<nat>, at: int)
    requires |s.frames| == 1 && Filling(cfg, b, s.frames[0], got) && Provisional(s.frames[0]) && s.frames[0].lastTime == at
    requires Since(now, at) < cfg.retention
    ensures var t := CheckCompletion(cfg, s, now, current, 0, true);
            && t.delivered == s.delivered && t.lastId == s.lastId && t.first == s.first && t.history == s.history
            && t.frames == if got == Through(b.Last()) then [] else s.frames
  {
    hide Filling, Through, CloseFrame;
    FilledExactly(cfg, b, s.frames[0], got);
    if got == Through(b.Last()) {
      var t := DiscardFrame(cfg, s, 0);
      assert t.frames == [];
      assert CheckCompletion(cfg, t, now, current, 0, true) == t;
    }
  }

  // ----------------------------------------------------- taking a packet

  lemma NextFrame(cfg: Config, a: Arrival, b: Burst, f: Frame, got: set<nat>, at: int, view: View)
    requires Suits(cfg, b) && FrameIs(cfg, a, b, f, got, at) && b.Sends(view) && view.packetId !in got
    ensures Takes(f, view)
    ensures var g := TakeInto(cfg, f, view);
            && g.replayOf == f.replayOf
            && FrameIs(cfg, a, b, g.(replayOf := if Told(a, b, got + {view.packetId}) then None else f.replayOf),
                       got + {view.packetId}, at)
            && (Provisional(f) && Diverges(f.replayOf.value, view) <==> Provisional(f) && Told(a, b, got + {view.packetId}))
  {
    hide Filling, Process, FirstMissing, PrintsOf, Recorded, Contradicts, Diverges;
    TakeFills(cfg, b, f, got, view);
    ProcessIdentity(cfg, f, view);
    PrintsRecorded(b, got, view);
    if a.MaybeReplay? {
      ToldMore(a, b, got, view.packetId);
      SentContradicts(a.prints, b, view);
    }
    ReplayFill(cfg, b, TakeInto(cfg, f, view), got + {view.packetId});
  }

  lemma ReplayFill(cfg: Config, b: Burst, f: Frame, got: set<nat>)
    requires Filling(cfg, b, f, got)
    ensures Filling(cfg, b, f.(replayOf := None), got)
  {
  }

  lemma ResendFill(cfg: Config, a: Arrival, b: Burst, f: Frame, g: Frame, got: set<nat>, at: int)
    requires FrameIs(cfg, a, b, f, got, at)
    requires SameFlags(f.packets, g.packets) && g == f.(packets := g.packets, resend := g.resend)
    ensures FrameIs(cfg, a, b, g, got, at)
  {
    hide Reliable, Taken, CutBlock, DivCeil, PrintsOf, Told;
    FlagsReliable(cfg, f, g);
    SameFirstMissing(f.packets, g.packets, 0);
  }

  /** The frame of the burst when it is asked to be checked for completion. */
  lemma TakeNext(cfg: Config, a: Arrival, b: Burst, s: State, got: set<nat>, view: View, now: int) returns (u: State)
    requires Suits(cfg, b) && |s.frames| == 1 && FrameIs(cfg, a, b, s.frames[0], got, now)
    requires b.Sends(view) && view.packetId !in got
    ensures |u.frames| == 1 && FrameIs(cfg, a, b, u.frames[0], got + {view.packetId}, now)
    ensures u.delivered == s.delivered && u.first == s.first && u.history == s.history
    ensures u.lastId == if Provisional(s.frames[0]) && Told(a, b, got + {view.packetId}) then b.id else s.lastId
    ensures Take(cfg, s, 0, view, now) == CheckCompletion(cfg, u, now, Some(b.id), 0, true)
  {
    hide Filling, TakeInto, Told, CheckCompletion, MissingCheck, Takes, Diverges, PrintsOf, Holes.SameFlags;
    var f := s.frames[0];
    NextFrame(cfg, a, b, f, got, now, view);
    TakesNoError(f, view);
    var g := TakeInto(cfg, f, view);
    var t := s.(frames := s.frames[0 := g]);
    var v := if Provisional(f) && Diverges(f.replayOf.value, view) then AdoptRestart(t, 0) else t;
    var h := v.frames[0];
    ResendIrrelevant(cfg, a, b, g, h, got + {view.packetId}, now);
    RequestsAreHoles(cfg, h, view.packetId, now);
    ResendFill(cfg, a, b, h, MissingCheck(cfg, h, view.packetId, now).0, got + {view.packetId}, now);
    u := AskAgain(cfg, v, 0, view.packetId, now);
  }

  lemma TakesNoError(f: Frame, view: View)
    requires Takes(f, view)
    ensures !IsError(view.status) && Assembled(view)
  {
  }

  lemma ResendIrrelevant(cfg: Config, a: Arrival, b: Burst, g: Frame, h: Frame, got: set<nat>, at: int)
    requires FrameIs(cfg, a, b, g.(replayOf := h.replayOf), got, at)
    requires h == g.(replayOf := h.replayOf, resend := h.resend)
    ensures FrameIs(cfg, a, b, h, got, at)
  {
  }

  lemma RealMeans(cfg: Config, a: Arrival, b: Burst, f: Frame, got: set<nat>, at: int)
    requires Told(a, b, got) && !a.Late?
    ensures FrameIs(cfg, a, b, f, got, at) <==> RealIs(cfg, b, f, got, at)
  {
    hide Filling, Told, PrintsOf;
  }

  lemma CheckNext(cfg: Config, b: Burst, s0: State, u: State, got: set<nat>, at: int, now: int, current: Option<nat>)
    requires Suits(cfg, b) && b.id == RESTART_BLOCK_ID
    requires var a := Recognised(s0, b.extended);
             && |u.frames| == 1 && FrameIs(cfg, a, b, u.frames[0], got, at) && Since(now, at) < cfg.retention
             && u.delivered == s0.delivered && !u.first && got != {} && u.history == s0.history
             && u.lastId == if Told(a, b, got) then RESTART_BLOCK_ID else s0.lastId
    requires Inv(cfg, CheckCompletion(cfg, u, now, current, 0, true))
    ensures Restarting(cfg, b, s0, CheckCompletion(cfg, u, now, current, 0, true), got, at)
  {
    hide Inv, Told, CheckCompletion, Remember, Through, Filling, PrintsOf, Suits, Echoing, Recognised;
    var a, t := Recognised(s0, b.extended), CheckCompletion(cfg, u, now, current, 0, true);
    FillingIds(cfg, b, u.frames[0], got);
    if Told(a, b, got) {
      RealMeans(cfg, a, b, u.frames[0], got, at);
      Delivery.OneReal(cfg, u.frames, b, got, at);
      CheckSettles(cfg, u, now, current, b, got, at, true);
      if got == Through(b.Last()) {
        Delivery.ShowsBurst(cfg, b, u.frames[0], at);
        assert t.delivered[..|s0.delivered|] == s0.delivered;
        OwnRemembered(b, u.history, t);
      } else {
        RealMeans(cfg, a, b, t.frames[0], got, at);
      }
    } else {
      CheckProvisionalFrame(cfg, u, now, current, b, got, at);
      if got == Through(b.Last()) { StillRemembered(b, s0, t); }
    }
  }

  /** Once the burst is delivered, its packets are taken for copies of it. */
  lemma OwnRemembered(b: Burst, before: seq<Closed>, t: State)
    requires b.id == RESTART_BLOCK_ID && t.lastId == RESTART_BLOCK_ID && t.frames == []
    requires t.history == Remember(before, Closed(b.id, b.extended, Some(PrintsOf(b, Through(b.Last())))))
    ensures Echoing(b, t)
  {
    hide PrintsOf, Through, Diverges;
    assert BlockIdDistance(RESTART_BLOCK_ID, RESTART_BLOCK_ID, b.extended) == 0;
    forall view: View | b.Sends(view) ensures !Diverges(FullPrints(b), view) { OwnPrints(b, view); }
  }

  /** A burst dropped as a copy is taken for one again. */
  lemma StillRemembered(b: Burst, s0: State, t: State)
    requires t.lastId == s0.lastId && t.history == s0.history && t.frames == []
    requires var a := Recognised(s0, b.extended); !a.Late? && !Told(a, b, Through(b.Last()))
    ensures Echoing(b, t)
  {
    hide BlockIdDistance, FindClosed, Contradicts, Diverges;
    var a := Recognised(s0, b.extended);
    assert Recognised(t, b.extended) == a;
    forall view: View | b.Sends(view) ensures !Diverges(a.prints, view) {
      SentContradicts(a.prints, b, view);
      assert view.packetId in Through(b.Last());
    }
  }

  lemma FillingIds(cfg: Config, b: Burst, f: Frame, got: set<nat>)
    requires Filling(cfg, b, f, got)
    ensures forall i | i in got :: i <= b.Last()
  {
  }

  /** A packet of the new burst routed to its frame. */
  lemma RestartTakes(cfg: Config, b: Burst, s0: State, s: State, got: set<nat>, view: View, now: int)
    requires Suits(cfg, b) && b.id == RESTART_BLOCK_ID && cfg.retention >= 1 && Inv(cfg, s) && !s.first
    requires var a := Recognised(s0, b.extended);
             && |s.frames| == 1 && FrameIs(cfg, a, b, s.frames[0], got, now) && b.Sends(view) && got != Through(b.Last())
             && s.delivered == s0.delivered && s.lastId == (if Told(a, b, got) then RESTART_BLOCK_ID else s0.lastId)
             && s.history == s0.history
    ensures Restarting(cfg, b, s0, Take(cfg, s, 0, view, now), got + {view.packetId}, now)
  {
    hide Inv, Take, Told, CheckCompletion, Filling, Through, PrintsOf, Suits, Recognised;
    var a := Recognised(s0, b.extended);
    TakeKeeps(cfg, s, 0, view, now);
    FillingIds(cfg, b, s.frames[0], got);
    if view.packetId in got {
      assert got + {view.packetId} == got;
      RepeatIgnored(cfg, b, s, got, view, now);
    } else {
      var u := TakeNext(cfg, a, b, s, got, view, now);
      ToldLater(a, b, got, view.packetId);
      CheckNext(cfg, b, s0, u, got + {view.packetId}, now, now, Some(b.id));
    }
  }

  lemma ToldLater(a: Arrival, b: Burst, got: set<nat>, id: nat)
    ensures Told(a, b, got) ==> Told(a, b, got + {id})
  {
  }

  lemma RepeatIgnored(cfg: Config, b: Burst, s: State, got: set<nat>, view: View, now: int)
    requires |s.frames| == 1 && Filling(cfg, b, s.frames[0], got) && b.Sends(view) && view.packetId in got
    ensures Take(cfg, s, 0, view, now) == s
  {
    hide Reliable, Taken, SizedFor, CheckCompletion;
  }

  lemma RestartOpens(cfg: Config, b: Burst, s: State, view: View, now: int)
    requires Inv(cfg, s) && s.frames == [] && !s.first && s.free != [] && Suits(cfg, b) && b.id == RESTART_BLOCK_ID && b.Sends(view)
    requires !Recognised(s, b.extended).Late?
    ensures var routed, a := FindOrCreate(cfg, s, view, now), Recognised(s, b.extended);
            && routed.index == Some(0) && |routed.state.frames| == 1
            && FrameIs(cfg, a, b, routed.state.frames[0], {}, now)
            && routed.state.delivered == s.delivered && routed.state.history == s.history && !routed.state.first
            && routed.state.lastId == if Told(a, b, {}) then RESTART_BLOCK_ID else s.lastId
  {
    hide Inv, BlockIdDistance, ExpectedPackets, Filling, Suits, PrintsOf, Classify;
    var a := Recognised(s, b.extended);
    SameArrival(s, view);
    FreeSize(cfg, s);
    NewFilling(cfg, b, s, view, now, s.free[0], if a.New? then None else Some(a.prints));
    PrintsNone(b);
    assert DiscardProvisional(cfg, s) == s;
  }

  lemma TouchedFrame(cfg: Config, a: Arrival, b: Burst, f: Frame, got: set<nat>, at: int, now: int)
    requires FrameIs(cfg, a, b, f, got, at)
    ensures FrameIs(cfg, a, b, f.(lastTime := now), got, now)
  {
  }

  lemma RestartStep(cfg: Config, b: Burst, s0: State, s: State, got: set<nat>, at: int, view: View, now: int)
    requires s0.frames == [] && s0.free != [] && Suits(cfg, b) && cfg.retention >= 1
    requires b.id == RESTART_BLOCK_ID && b.Sends(view) && !Recognised(s0, b.extended).Late?
    requires Restarting(cfg, b, s0, s, got, at) && got != Through(b.Last())
    ensures Restarting(cfg, b, s0, ProcessPacket(cfg, s, Some(view), now), got + {view.packetId}, now)
  {
    hide Inv, Take, Told, FrameIs, Suits, Through, FindOrCreate, Recognised, Outcome, Echoing;
    assert Start(s, view) == s;
    RouteKeeps(cfg, s, view, now);
    var routed, a := FindOrCreate(cfg, s, view, now), Recognised(s0, b.extended);
    if got == {} {
      RestartOpens(cfg, b, s, view, now);
    } else {
      FrameId(cfg, a, b, s.frames[0], got, at);
      FoundFirst(cfg, s, view, now);
      TouchedFrame(cfg, a, b, s.frames[0], got, at, now);
    }
    RestartTakes(cfg, b, s0, routed.state, got, view, now);
  }

  // -------------------------------------------------- after the last packet

  lemma EchoTaken(cfg: Config, f: Frame, ref: Fingerprints, view: View)
    requires Echo(f, ref) && Assembled(view)
    ensures Echo(TakeInto(cfg, f, view), ref)
  {
    hide Process, FirstMissing;
    ProcessIdentity(cfg, f, view);
  }

  /** A repeat routed to the provisional frame: only that frame changes or goes. */
  lemma EchoTakes(cfg: Config, b: Burst, s: State, ref: Fingerprints, view: View, now: int)
    requires |s.frames| == 1 && Echo(s.frames[0], ref) && Known(ref, b) && b.Sends(view)
    ensures var t := Take(cfg, s, 0, view, now);
            && t.delivered == s.delivered && t.lastId == s.lastId && t.history == s.history && t.first == s.first
            && (t.frames == [] || (|t.frames| == 1 && Echo(t.frames[0], ref)))
  {
    hide TakeInto, CheckCompletion, AskAgain, Takes, Diverges;
    var f := s.frames[0];
    if Takes(f, view) {
      TakesNoError(f, view);
      EchoTaken(cfg, f, ref, view);
      var t := s.(frames := s.frames[0 := TakeInto(cfg, f, view)]);
      AskEcho(cfg, t, 0, view.packetId, now);
      CheckProvisional(cfg, AskAgain(cfg, t, 0, view.packetId, now), now, Some(f.frameId), 0, true);
    }
  }

  lemma EchoOpens(cfg: Config, b: Burst, s: State, view: View, now: int)
    requires Echoing(b, s) && b.id == RESTART_BLOCK_ID && b.Sends(view)
    ensures var routed := FindOrCreate(cfg, s, view, now);
            && routed.state.delivered == s.delivered && routed.state.lastId == s.lastId && routed.state.history == s.history
            && routed.state.first == s.first
            && (if routed.index == Some(0) then |routed.state.frames| == 1 && Echo(routed.state.frames[0], Recognised(s, b.extended).prints)
                else routed == Routed(s, None))
  {
    hide Classify, Known, ExpectedPackets;
    SameArrival(s, view);
  }

  lemma RepeatStep(cfg: Config, b: Burst, s0: State, s: State, at: int, view: View, now: int)
    requires b.id == RESTART_BLOCK_ID && b.Sends(view) && Restarting(cfg, b, s0, s, Through(b.Last()), at)
    ensures Restarting(cfg, b, s0, ProcessPacket(cfg, s, Some(view), now), Through(b.Last()), now)
  {
    hide Inv, Take, Told, Through, FindOrCreate, Classify, Known, Delivery.Shows;
    assert Start(s, view) == s;
    PacketKeeps(cfg, s, Some(view), now);
    EchoOpens(cfg, b, s, view, now);
    var routed := FindOrCreate(cfg, s, view, now);
    if routed.index == Some(0) {
      EchoTakes(cfg, b, routed.state, Recognised(s, b.extended).prints, view, now);
      SameRecognised(s, Take(cfg, routed.state, 0, view, now), b.extended);
    }
  }

  lemma SameRecognised(s: State, t: State, extended: bool)
    requires t.lastId == s.lastId && t.history == s.history
    ensures Recognised(t, extended) == Recognised(s, extended)
  {
  }

  lemma RepeatPass(cfg: Config, b: Burst, s0: State, s: State, at: int, now: int)
    requires Restarting(cfg, b, s0, s, Through(b.Last()), at)
    ensures Restarting(cfg, b, s0, Tick(cfg, s, now), Through(b.Last()), at)
  {
    hide Inv, Told, Through, Classify, Known, CheckCompletion, Delivery.Shows;
    CheckKeeps(cfg, s, now, None, 0, true);
    CheckProvisional(cfg, s, now, None, 0, true);
    SameRecognised(s, Tick(cfg, s, now), b.extended);
  }

  lemma FrameId(cfg: Config, a: Arrival, b: Burst, f: Frame, got: set<nat>, at: int)
    requires FrameIs(cfg, a, b, f, got, at)
    ensures f.frameId == b.id
  {
  }

  lemma FoundFirst(cfg: Config, s: State, view: View, now: int)
    requires |s.frames| == 1 && s.frames[0].frameId == view.frameId
    ensures FindOrCreate(cfg, s, view, now) == Routed(s.(frames := [s.frames[0].(lastTime := now)]), Some(0))
  {
    assert s.frames[0 := s.frames[0].(lastTime := now)] == [s.frames[0].(lastTime := now)];
  }

  /** An idle pass of the worker while the burst is coming in. */
  lemma RestartPass(cfg: Config, b: Burst, s0: State, s: State, got: set<nat>, at: int, now: int)
    requires s0.frames == [] && Suits(cfg, b) && b.id == RESTART_BLOCK_ID && Restarting(cfg, b, s0, s, got, at)
    requires got != Through(b.Last()) && (got != {} ==> Since(now, at) < cfg.retention)
    ensures Restarting(cfg, b, s0, Tick(cfg, s, now), got, at)
  {
    hide Inv, Told, FrameIs, Suits, Through, CheckCompletion, Recognised, Echoing, Outcome;
    CheckKeeps(cfg, s, now, None, 0, true);
    if got == {} {
      Delivery.NoFrames(cfg, s, now, None);
    } else {
      CheckNext(cfg, b, s0, s, got, at, now, None);
    }
  }

  // ---------------------------------------------------------- the theorem

  /** What reaches the worker: packets of the burst, and idle passes. */
  datatype Moment = Arrives(view: View, at: int) | Waits(at: int)

  function Ids(moments: seq<Moment>): set<nat> { set m | m in moments && m.Arrives? :: m.view.packetId }

  function Events(moments: seq<Moment>): seq<Event> {
    seq(|moments|, i requires 0 <= i < |moments| =>
      if moments[i].Arrives? then Packet(Some(moments[i].view), moments[i].at) else Idle(moments[i].at))
  }

  function LastArrival(moments: seq<Moment>): int
    decreases |moments|
  {
    if moments == [] then 0
    else if moments[|moments| - 1].Arrives? then moments[|moments| - 1].at
    else LastArrival(moments[..|moments| - 1])
  }

  /** The burst comes in, in any order and with any repeats, and no idle pass falls
      a retention time after the packet before it while packets are missing. */
  ghost predicate ComesIn(cfg: Config, b: Burst, moments: seq<Moment>) {
    && (forall m | m in moments && m.Arrives? :: b.Sends(m.view))
    && (forall k | 0 <= k < |moments| && moments[k].Waits? ::
          Ids(moments[..k]) != {} && Ids(moments[..k]) != Through(b.Last()) ==>
            Since(moments[k].at, LastArrival(moments[..k])) < cfg.retention)
  }

  lemma ComesInPrefix(cfg: Config, b: Burst, moments: seq<Moment>, n: nat)
    requires ComesIn(cfg, b, moments) && n <= |moments|
    ensures ComesIn(cfg, b, moments[..n])
  {
    hide Ids, LastArrival, Through;
    forall k | 0 <= k < n ensures moments[..n][..k] == moments[..k] {}
  }

  lemma {:induction false} RestartRun(cfg: Config, b: Burst, s0: State, moments: seq<Moment>)
    requires Inv(cfg, s0) && s0.frames == [] && !s0.first && s0.free != [] && Suits(cfg, b) && cfg.retention >= 1
    requires b.id == RESTART_BLOCK_ID && ComesIn(cfg, b, moments) && !Recognised(s0, b.extended).Late?
    ensures Restarting(cfg, b, s0, Run(cfg, s0, Events(moments)), Ids(moments), LastArrival(moments))
    decreases |moments|
  {
    hide Inv, Recognised, Suits, Through, ProcessPacket, Tick, Restarting, Ids, Events, LastArrival, ComesIn, DropFrame, FlushFrames;
    if moments == [] {
      NoMoments(moments);
      NothingYet(cfg, b, s0);
    } else {
      var n := |moments| - 1;
      var init, last := moments[..n], moments[n];
      MomentsSplit(cfg, b, moments);
      ComesInPrefix(cfg, b, moments, n);
      RestartRun(cfg, b, s0, init);
      var s := Run(cfg, s0, Events(init));
      if Ids(init) != Through(b.Last()) {
        if last.Arrives? {
          RestartStep(cfg, b, s0, s, Ids(init), LastArrival(init), last.view, last.at);
        } else {
          RestartPass(cfg, b, s0, s, Ids(init), LastArrival(init), last.at);
        }
      } else if last.Arrives? {
        WholeAlready(b, Ids(init), last.view);
        RepeatStep(cfg, b, s0, s, LastArrival(init), last.view, last.at);
      } else {
        RepeatPass(cfg, b, s0, s, LastArrival(init), last.at);
      }
    }
  }

  lemma WholeAlready(b: Burst, got: set<nat>, view: View)
    requires got == Through(b.Last()) && b.Sends(view)
    ensures got + {view.packetId} == got
  {
  }

  lemma NoMoments(moments: seq<Moment>)
    requires moments == []
    ensures Events(moments) == [] && Ids(moments) == {} && LastArrival(moments) == 0
  {
  }

  lemma MomentsSplit(cfg: Config, b: Burst, moments: seq<Moment>)
    requires moments != [] && ComesIn(cfg, b, moments)
    ensures var n, last := |moments| - 1, moments[|moments| - 1];
            && |Events(moments)| == n + 1 && Events(moments)[..n] == Events(moments[..n])
            && Events(moments)[n] == (if last.Arrives? then Packet(Some(last.view), last.at) else Idle(last.at))
            && (last.Arrives? ==> b.Sends(last.view) && Ids(moments) == Ids(moments[..n]) + {last.view.packetId}
                                  && LastArrival(moments) == last.at)
            && (last.Waits? ==> Ids(moments) == Ids(moments[..n]) && LastArrival(moments) == LastArrival(moments[..n])
                                && (Ids(moments[..n]) != {} && Ids(moments[..n]) != Through(b.Last()) ==>
                                      Since(last.at, LastArrival(moments[..n])) < cfg.retention))
  {
    var n, last := |moments| - 1, moments[|moments| - 1];
    EventsMore(moments);
    assert moments == moments[..n] + [last] && last in moments;
    IdsMore(moments[..n], last);
    hide Through, Events, Ids;
    assert last.Waits? && Ids(moments[..n]) != {} && Ids(moments[..n]) != Through(b.Last()) ==>
             Since(moments[n].at, LastArrival(moments[..n])) < cfg.retention;
  }

  lemma EventsMore(moments: seq<Moment>)
    requires moments != []
    ensures var n, last := |moments| - 1, moments[|moments| - 1];
            && |Events(moments)| == n + 1 && Events(moments)[..n] == Events(moments[..n])
            && Events(moments)[n] == (if last.Arrives? then Packet(Some(last.view), last.at) else Idle(last.at))
  {
  }

  lemma IdsMore(moments: seq<Moment>, last: Moment)
    ensures Ids(moments + [last]) == Ids(moments) + if last.Arrives? then {last.view.packetId} else {}
  {
    assert forall m | m in moments + [last] :: m in moments || m == last;
    assert last in moments + [last];
    assert forall m | m in moments :: m in moments + [last];
  }

  lemma NothingYet(cfg: Config, b: Burst, s: State)
    requires Inv(cfg, s) && s.frames == [] && !s.first
    ensures Restarting(cfg, b, s, s, {}, 0)
  {
    hide Inv, Recognised;
    Delivery.ThroughSome(b.Last());
  }

  /** Packets of a block that was dropped unopened are ignored. */
  lemma {:induction false} LateRun(cfg: Config, b: Burst, s: State, moments: seq<Moment>)
    requires s.frames == [] && !s.first && b.id == RESTART_BLOCK_ID && Recognised(s, b.extended).Late?
    requires forall m | m in moments && m.Arrives? :: b.Sends(m.view)
    ensures Run(cfg, s, Events(moments)) == s
    decreases |moments|
  {
    hide Classify;
    if moments != [] {
      var n := |moments| - 1;
      EventsMore(moments);
      LateRun(cfg, b, s, moments[..n]);
      hide Events, CheckCompletion;
      if moments[n].Arrives? {
        assert moments[n] in moments;
        SameArrival(s, moments[n].view);
      } else {
        Delivery.NoFrames(cfg, s, moments[n].at, None);
      }
    }
  }

  /** From any state with no open frame and a free buffer, a frame with the first
      block id that comes in, in any order and with any repeats, is delivered intact
      and the id sequence continues from it, if and only if its id is taken for a new
      one or some packet of it contradicts the fingerprints remembered; otherwise
      nothing is delivered and the sequence stays. */
  lemma RestartDetected(cfg: Config, b: Burst, s: State, moments: seq<Moment>)
    requires Inv(cfg, s) && s.frames == [] && !s.first && s.free != [] && Suits(cfg, b) && cfg.retention >= 1
    requires b.id == RESTART_BLOCK_ID && ComesIn(cfg, b, moments) && Ids(moments) == Through(b.Last())
    ensures var t, a := Run(cfg, s, Events(moments)), Recognised(s, b.extended);
            var told := a.New? || (a.MaybeReplay? && exists k | 0 <= k <= b.Last() :: Contradicts(a.prints, b, k));
            && !AnyReal(t.frames)
            && (told ==> t.lastId == RESTART_BLOCK_ID && |t.delivered| == |s.delivered| + 1
                         && t.delivered[..|s.delivered|] == s.delivered
                         && Delivery.Shows(t.delivered[|s.delivered|], b))
            && (!told ==> t.lastId == s.lastId && t.delivered == s.delivered)
  {
    hide Inv, Suits, Run, Contradicts, Delivery.Shows, Ids, LastArrival, Classify;
    var a := Recognised(s, b.extended);
    if a.Late? {
      LateRun(cfg, b, s, moments);
    } else {
      RestartRun(cfg, b, s, moments);
      Delivery.ThroughSome(b.Last());
      assert Told(a, b, Through(b.Last())) <==> a.New? || exists k | 0 <= k <= b.Last() :: Contradicts(a.prints, b, k);
    }
  }
}
