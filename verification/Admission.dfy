/** Which packets open a frame, which are late, and which may belong to a restarted
    device; and that a packet reported gone ends its frame's resends. */
module Admission {
  import opened Gvsp
  import opened Reassembly
  import opened Holes
  import opened Receiver
  import opened ResendWalk
  import opened ReceiverRuns

  // ------------------------------------------------------------ classification

  predicate Matches(c: Closed, view: View) { c.frameId == view.frameId && c.extended == view.extended }

  /** Entry `i` is the latest remembered block with the packet's id and id mode. */
  predicate LatestAt(history: seq<Closed>, view: View, i: nat) {
    i < |history| && Matches(history[i], view) && forall j | i < j < |history| :: !Matches(history[j], view)
  }

  ghost predicate Remembered(history: seq<Closed>, view: View, prints: Option<Fingerprints>) {
    exists i: nat :: LatestAt(history, view, i) && history[i].prints == prints
  }

  lemma {:induction false} FoundLatest(history: seq<Closed>, view: View)
    ensures match FindClosed(history, view.frameId, view.extended)
            case None => forall i | 0 <= i < |history| :: !Matches(history[i], view)
            case Some(c) => exists i: nat :: LatestAt(history, view, i) && history[i] == c
    decreases |history|
  {
    if history != [] {
      var n := |history| - 1;
      if Matches(history[n], view) {
        assert LatestAt(history, view, n);
      } else {
        FoundLatest(history[..n], view);
        if FindClosed(history[..n], view.frameId, view.extended).Some? {
          var i: nat :| LatestAt(history[..n], view, i) && history[..n][i] == FindClosed(history[..n], view.frameId, view.extended).value;
          assert LatestAt(history, view, i);
        }
      }
    }
  }

  lemma LatestUnique(history: seq<Closed>, view: View, i: nat, j: nat)
    requires LatestAt(history, view, i) && LatestAt(history, view, j)
    ensures i == j
  {
  }

  /** The latest 128 blocks closed or dropped are remembered, in order. */
  lemma Latest128(history: seq<Closed>, c: Closed)
    requires |history| <= 128
    ensures |Remember(history, c)| <= 128 && Remember(history, c) == (history + [c])[|history| + 1 - Min(|history| + 1, 128)..]
  {
  }

  /** The packet's block is the newest or up to 99 ids behind it. */
  predicate Behind(s: State, view: View) { -99 <= BlockIdDistance(view.frameId, s.lastId, view.extended) <= 0 }

  /** A block that is neither the newest nor up to 99 ids behind is new, and so is
      block 1 when none is remembered. Block 1 remembered with fingerprints may be
      a copy or a restart. All else is late. */
  lemma ClassifiedExactly(s: State, view: View)
    ensures Classify(s, view).New? <==>
            !Behind(s, view) || (view.frameId == 1 && forall i | 0 <= i < |s.history| :: !Matches(s.history[i], view))
    ensures Classify(s, view).Late? <==> Behind(s, view) && (view.frameId != 1 || Remembered(s.history, view, None))
    ensures forall p :: Classify(s, view) == MaybeReplay(p) <==> Behind(s, view) && view.frameId == 1 && Remembered(s.history, view, Some(p))
  {
    hide BlockIdDistance, FindClosed;
    FoundLatest(s.history, view);
    forall i: nat, j: nat | LatestAt(s.history, view, i) && LatestAt(s.history, view, j) ensures i == j {
      LatestUnique(s.history, view, i, j);
    }
  }

  /** A device counter 100 to 32767 ids behind the newest block counts as new. */
  lemma FarBehindIsNew(s: State, view: View, steps: nat)
    requires 1 <= view.frameId <= MaxId(view.extended) && 100 <= steps <= 0x7fff
    requires s.lastId == Advance(view.frameId, steps, view.extended)
    ensures Classify(s, view).New?
  {
    hide BlockIdDistance, Advance;
    DistanceOfAdvance(view.frameId, steps, view.extended);
    ClassifiedExactly(s, view);
  }

  // ------------------------------------------------------------------- opening

  /** The packet tells enough of its frame to start one. */
  predicate Starts(cfg: Config, view: View) {
    && cfg.scps > Overhead(view.extended)
    && (view.content.Payload? || view.content.Trailer? || view.content.AllIn? || (view.content.Leader? && Reassembled(view.data)))
  }

  lemma StartsExactly(cfg: Config, view: View)
    ensures ExpectedPackets(cfg, view) > 0 <==> Starts(cfg, view)
  {
    hide DivCeil;
  }

  lemma {:induction false} ProvisionalsGone(cfg: Config, s: State)
    ensures forall f | f in DiscardProvisional(cfg, s).frames :: f in s.frames && !Provisional(f)
    ensures DiscardProvisional(cfg, s).history == s.history && DiscardProvisional(cfg, s).lastId == s.lastId
    decreases |s.frames|
  {
    var i := FirstProvisional(s.frames);
    if i < |s.frames| {
      ProvisionalsGone(cfg, DiscardFrame(cfg, s, i));
    } else {
      forall f | f in s.frames ensures !Provisional(f) {
        var j :| 0 <= j < |s.frames| && s.frames[j] == f;
      }
    }
  }

  predicate Absent(frames: seq<Frame>, id: nat) { forall f | f in frames :: f.frameId != id }

  lemma NotFound(frames: seq<Frame>, id: nat)
    requires Absent(frames, id)
    ensures FindFrame(frames, id) == |frames|
  {
    assert forall j | 0 <= j < |frames| :: frames[j] in frames;
  }

  /** A packet of a new block ends every provisional frame and moves the newest id on.
      It opens a frame if and only if it tells enough and a buffer is free then; else
      the block is dropped for good: no packet of it changes anything any more. */
  lemma OpensOrDrops(cfg: Config, s: State, view: View, now: int, again: View, later: int)
    requires !s.first && Absent(s.frames, view.frameId) && Classify(s, view).New?
    requires again.frameId == view.frameId && again.extended == view.extended
    ensures var r, reals := FindOrCreate(cfg, s, view, now), DiscardProvisional(cfg, s);
            && r.state.lastId == view.frameId
            && (r.index.Some? <==> Starts(cfg, view) && reals.free != [])
            && (r.index.Some? ==>
                  && r.index.value == |reals.frames| && |r.state.frames| == |reals.frames| + 1
                  && r.state.frames[..|reals.frames|] == reals.frames
                  && var f := r.state.frames[|reals.frames|];
                  && f.frameId == view.frameId && f.extended == view.extended && !Provisional(f) && f.data == reals.free[0]
                  && f.accepted == [] && f.lastTime == now && forall p | p in f.packets :: p == Unseen)
            && (r.index.None? ==> r.state.frames == reals.frames && ProcessPacket(cfg, r.state, Some(again), later) == r.state)
  {
    hide BlockIdDistance, DiscardProvisional, ExpectedPackets, Classify, FindClosed;
    NotFound(s.frames, view.frameId);
    StartsExactly(cfg, view);
    ProvisionalsGone(cfg, s);
    var t := DiscardProvisional(cfg, s);
    var r := FindOrCreate(cfg, s, view, now);
    assert r == OpenedNew(cfg, t, view, now);
    if r.index.None? {
      assert !r.state.first by { FirstKept(cfg, s); }
      NotFound(t.frames, view.frameId);
      DroppedIsLate(s.lastId, t, view, again);
    }
  }

  lemma {:induction false} FirstKept(cfg: Config, s: State)
    ensures DiscardProvisional(cfg, s).first == s.first
    decreases |s.frames|
  {
    var i := FirstProvisional(s.frames);
    if i < |s.frames| { FirstKept(cfg, DiscardFrame(cfg, s, i)); }
  }

  lemma DroppedIsLate(lastId: nat, t: State, view: View, again: View)
    requires again.frameId == view.frameId && again.extended == view.extended
    ensures Classify(t.(lastId := view.frameId, history := Remember(t.history, Closed(view.frameId, view.extended, None))), again).Late?
  {
    hide BlockIdDistance, FindClosed;
    var u := t.(lastId := view.frameId, history := Remember(t.history, Closed(view.frameId, view.extended, None)));
    var n := |u.history| - 1;
    assert u.history[n] == Closed(view.frameId, view.extended, None);
    assert LatestAt(u.history, again, n) && u.history[n].prints == None;
    NoDistance(view.frameId, view.extended);
    ClassifiedExactly(u, again);
  }

  lemma NoDistance(id: nat, extended: bool)
    ensures BlockIdDistance(id, id, extended) == 0
  {
  }

  // ---------------------------------------------------------------- packets gone

  function RequestsFor(requests: seq<Request>, serial: nat): seq<Request> {
    if requests == [] then []
    else RequestsFor(requests[..|requests| - 1], serial) + if requests[|requests| - 1].serial == serial then [requests[|requests| - 1]] else []
  }

  /** The frame, if open, is real and asks for nothing; what it asked for is `asked`. */
  ghost predicate Silent(s: State, serial: nat, asked: seq<Request>) {
    && (forall f | f in s.frames && f.serial == serial :: !Provisional(f) && f.resend.disabled)
    && RequestsFor(s.requests, serial) == asked && serial < s.serial
  }

  lemma {:induction false} OthersAsk(requests: seq<Request>, more: seq<Request>, serial: nat)
    requires forall r | r in more :: r.serial != serial
    ensures RequestsFor(requests + more, serial) == RequestsFor(requests, serial)
    decreases |more|
  {
    if more == [] {
      assert requests + more == requests;
    } else {
      var n := |more| - 1;
      OthersAsk(requests, more[..n], serial);
      assert (requests + more)[..|requests| + n] == requests + more[..n];
    }
  }

  lemma AskSilent(cfg: Config, s: State, i: nat, packetId: nat, now: int, serial: nat, asked: seq<Request>)
    requires Silent(s, serial, asked) && i < |s.frames|
    ensures Silent(AskAgain(cfg, s, i, packetId, now), serial, asked) && |AskAgain(cfg, s, i, packetId, now).frames| == |s.frames|
  {
    hide MissingCheck, MaxRequests, RequestsFor;
    var f := s.frames[i];
    assert f in s.frames;
    var (g, ranges) := MissingCheck(cfg, f, packetId, now);
    RequestsAreHoles(cfg, f, packetId, now);
    if f.serial == serial { NotAllowed(cfg, f, packetId, now); }
    OthersAsk(s.requests, Sent(f, ranges, MaxRequests(cfg, |f.packets|)), serial);
    assert forall x | x in s.frames[i := g] :: x in s.frames || x == g;
  }

  lemma FewerSilent(s: State, t: State, serial: nat, asked: seq<Request>)
    requires Silent(s, serial, asked) && t.requests == s.requests && t.serial == s.serial
    requires forall f | f in t.frames :: f in s.frames
    ensures Silent(t, serial, asked)
  {
  }

  lemma FewerFrames(frames: seq<Frame>, i: nat)
    requires i < |frames|
    ensures forall f | f in Without(frames, i) :: f in frames
  {
  }

  lemma {:induction false} CheckSilent(cfg: Config, s: State, now: int, current: Option<nat>, i: nat, canClose: bool, serial: nat, asked: seq<Request>)
    requires Silent(s, serial, asked)
    ensures Silent(CheckCompletion(cfg, s, now, current, i, canClose), serial, asked)
    decreases |s.frames| - i
  {
    hide Silent, Judge, AskAgain, Without;
    if i < |s.frames| {
      FewerFrames(s.frames, i);
      match Judge(cfg, s, i, canClose, now)
      case Discard =>
        FewerSilent(s, DiscardFrame(cfg, s, i), serial, asked);
        OneFewer(s.frames, i);
        CheckSilent(cfg, DiscardFrame(cfg, s, i), now, current, i, canClose, serial, asked);
      case Skip => CheckSilent(cfg, s, now, current, i + 1, canClose, serial, asked);
      case Close(status) =>
        FewerSilent(s, CloseFrame(s, i, status), serial, asked);
        OneFewer(s.frames, i);
        CheckSilent(cfg, CloseFrame(s, i, status), now, current, i, canClose, serial, asked);
      case Wait =>
        var f := s.frames[i];
        var last := Max(|f.packets| - 1, 0);
        var t := if current != Some(f.frameId) && Since(now, f.lastTime) >= cfg.packetTimeout then AskAgain(cfg, s, i, last, now) else s;
        AskSilent(cfg, s, i, last, now, serial, asked);
        CheckSilent(cfg, t, now, current, i + 1, false, serial, asked);
    }
  }

  lemma OneFewer(frames: seq<Frame>, i: nat)
    requires i < |frames|
    ensures |Without(frames, i)| == |frames| - 1
  {
  }

  lemma {:induction false} DiscardSilent(cfg: Config, s: State, serial: nat, asked: seq<Request>)
    requires Silent(s, serial, asked)
    ensures Silent(DiscardProvisional(cfg, s), serial, asked) && DiscardProvisional(cfg, s).serial == s.serial
    decreases |s.frames|
  {
    hide Silent;
    var i := FirstProvisional(s.frames);
    if i < |s.frames| {
      FewerSilent(s, DiscardFrame(cfg, s, i), serial, asked);
      DiscardSilent(cfg, DiscardFrame(cfg, s, i), serial, asked);
    }
  }

  lemma {:induction false} CloseAllSilent(s: State, serial: nat, asked: seq<Request>)
    requires Silent(s, serial, asked)
    ensures Silent(CloseAll(s), serial, asked)
    decreases |s.frames|
  {
    hide Silent;
    if s.frames != [] {
      FewerSilent(s, CloseFrame(s, 0, Aborted), serial, asked);
      CloseAllSilent(CloseFrame(s, 0, Aborted), serial, asked);
    }
  }

  /** A frame replaced by a later state of it that is as real and as silent. */
  lemma SetSilent(s: State, i: nat, g: Frame, serial: nat, asked: seq<Request>)
    requires Silent(s, serial, asked) && i < |s.frames| && g.serial == s.frames[i].serial
    requires !Provisional(s.frames[i]) && s.frames[i].resend.disabled ==> !Provisional(g) && g.resend.disabled
    ensures Silent(s.(frames := s.frames[i := g]), serial, asked)
  {
    assert s.frames[i] in s.frames;
    assert forall x | x in s.frames[i := g] :: x in s.frames || x == g;
  }

  lemma RouteSilent(cfg: Config, s: State, view: View, now: int, serial: nat, asked: seq<Request>)
    requires Silent(s, serial, asked)
    ensures Silent(FindOrCreate(cfg, s, view, now).state, serial, asked)
  {
    hide Classify, DiscardProvisional, ExpectedPackets, BlockIdDistance, RequestsFor;
    DiscardSilent(cfg, s, serial, asked);
    var i := FindFrame(s.frames, view.frameId);
    if i < |s.frames| { SetSilent(s, i, s.frames[i].(lastTime := now), serial, asked); }
  }

  lemma {:induction false} HeldSame(f: Frame, held: seq<(Pos, Bytes)>)
    ensures Same(f, PlaceHeld(f, held))
    decreases |held|
  {
    if held != [] && f.error.None? && held[0].0 + 2 <= |f.packets| { HeldSame(Place(f, held[0].0, held[0].1), held[1..]); }
  }

  predicate Same(f: Frame, g: Frame) { g.serial == f.serial && g.replayOf == f.replayOf && g.resend == f.resend }

  lemma LearnSame(cfg: Config, f: Frame, data: Bytes)
    ensures Same(f, LearnBlock(cfg, f, data))
  {
    hide DivCeil, Resized;
  }

  lemma PayloadSame(cfg: Config, f: Frame, id: nat, data: Bytes)
    ensures Same(f, ProcessPayload(cfg, f, id, data))
  {
    hide PlaceHeld, Place, LearnBlock, Resized, LastPayload;
    if f.error.None? {
      LearnSame(cfg, f, data);
      var g := if id == 1 && !f.blockKnown then LearnBlock(cfg, f, data) else f;
      if g.error.None? && 1 <= id <= LastPayload(cfg, g) && g.blockKnown {
        var h := g.(accepted := g.accepted + [(id, data)]);
        PlaceSame(h, id, data);
        HeldSame(Place(h, id, data).(held := []), h.held);
      }
    }
  }

  lemma TakenSame(cfg: Config, f: Frame, view: View)
    requires Assembled(view)
    ensures Same(f, TakeInto(cfg, f, view))
  {
    hide ProcessPayload, DivCeil, Recorded, FirstMissing, Resized;
    if view.content.Payload? { PayloadSame(cfg, f, view.packetId, view.data); }
  }

  lemma PlaceSame(f: Frame, id: Pos, data: Bytes)
    ensures Same(f, Place(f, id, data))
  {
  }

  lemma TakeSilent(cfg: Config, s: State, i: nat, view: View, now: int, serial: nat, asked: seq<Request>)
    requires Silent(s, serial, asked) && i < |s.frames|
    ensures Silent(Take(cfg, s, i, view, now), serial, asked)
  {
    hide Silent, TakeInto, Diverges, AskAgain, CheckCompletion;
    var f := s.frames[i];
    if IsError(view.status) {
      SetSilent(s, i, f.(resend := f.resend.(disabled := true)), serial, asked);
    } else if Takes(f, view) {
      TakenSame(cfg, f, view);
      var g := TakeInto(cfg, f, view);
      var t := s.(frames := s.frames[i := g]);
      SetSilent(s, i, g, serial, asked);
      var u := if Provisional(f) && Diverges(f.replayOf.value, view) then AdoptRestart(t, i) else t;
      if u != t {
        SetSilent(t, i, g.(replayOf := None, resend := g.resend.(disabled := false)), serial, asked);
        FewerSilent(t.(frames := u.frames), u, serial, asked);
      }
      AskSilent(cfg, u, i, view.packetId, now, serial, asked);
      CheckSilent(cfg, AskAgain(cfg, u, i, view.packetId, now), now, Some(f.frameId), 0, true, serial, asked);
    }
  }

  lemma StepSilent(cfg: Config, s: State, e: Event, serial: nat, asked: seq<Request>)
    requires Silent(s, serial, asked)
    ensures Silent(Step(cfg, s, e), serial, asked)
  {
    hide Silent, FindOrCreate, Take, CheckCompletion, DiscardProvisional, CloseAll;
    match e
    case Packet(d, now) =>
      if d.Some? {
        FewerSilent(s, Receiver.Start(s, d.value), serial, asked);
        RouteSilent(cfg, Receiver.Start(s, d.value), d.value, now, serial, asked);
        var routed := FindOrCreate(cfg, Receiver.Start(s, d.value), d.value, now);
        if routed.index.Some? && routed.index.value < |routed.state.frames| {
          TakeSilent(cfg, routed.state, routed.index.value, d.value, now, serial, asked);
        }
      }
    case Idle(now) => CheckSilent(cfg, s, now, None, 0, true, serial, asked);
    case Dropped(i) => FewerSilent(s, Step(cfg, s, e), serial, asked);
    case Shutdown =>
      DiscardSilent(cfg, s, serial, asked);
      CloseAllSilent(DiscardProvisional(cfg, s), serial, asked);
  }

  lemma {:induction false} RunSilent(cfg: Config, s: State, events: seq<Event>, serial: nat, asked: seq<Request>)
    requires Silent(s, serial, asked)
    ensures Silent(Run(cfg, s, events), serial, asked)
    decreases |events|
  {
    hide Silent, Step;
    if events != [] {
      RunSilent(cfg, s, events[..|events| - 1], serial, asked);
      StepSilent(cfg, Run(cfg, s, events[..|events| - 1]), events[|events| - 1], serial, asked);
    }
  }

  /** In every run: once the device reports a packet of a real frame as gone, whatever
      happens next nothing more is asked for of that frame. */
  lemma GoneEndsResends(cfg: Config, before: seq<Event>, i: nat, view: View, now: int, after: seq<Event>)
    requires cfg.payloadSize <= USIZE_MAX
    requires var s := Run(cfg, Initial(cfg), before);
             i < |s.frames| && !Provisional(s.frames[i]) && view.frameId == s.frames[i].frameId && IsGone(view.status)
    ensures var s := Run(cfg, Initial(cfg), before);
            var serial, t := s.frames[i].serial, Step(cfg, s, Packet(Some(view), now));
            RequestsFor(Run(cfg, t, after).requests, serial) == RequestsFor(s.requests, serial)
  {
    hide Run, Initial, RequestsFor, Conserved, InOrder, Ahead, AllReliable, AllGenuine, WithinBudget, CountsCover;
    EveryRun(cfg, before);
    var s := Run(cfg, Initial(cfg), before);
    assert FindFrame(s.frames, view.frameId) == i;
    var t := Step(cfg, s, Packet(Some(view), now));
    RunSilent(cfg, t, after, s.frames[i].serial, RequestsFor(s.requests, s.frames[i].serial));
  }
}
