/** How frames end: the status a frame is delivered with says what it held. */
module Endings {
  import opened Gvsp
  import opened Reassembly
  import opened FrameContent
  import opened Holes
  import opened Receiver
  import opened ReceiverRuns
  import opened Retention

  // ------------------------------------------------------------------ statuses

  /** Shutdown aborts a frame whatever it holds. Otherwise a fault is reported; a
      faultless frame with all its packets is complete, or has gaps in its data; and
      one without all of them timed out. Where there are no resends, a frame that
      newer ones overtake is just given up. */
  predicate StatusFits(cfg: Config, d: Delivered) {
    || d.status == Aborted
    || (d.status == MissingPackets && !AllReceived(d.frame) && !cfg.resendEnabled)
    || (d.frame.error == Some(d.status))
    || (d.frame.error.None? &&
        d.status == if !AllReceived(d.frame) then Timeout else if d.frame.receivedSize == d.frame.dataEnd then Complete else MissingPackets)
  }

  ghost predicate AllFit(cfg: Config, delivered: seq<Delivered>) { forall d | d in delivered :: StatusFits(cfg, d) }

  lemma JudgedFits(cfg: Config, s: State, i: nat, canClose: bool, now: int)
    requires i < |s.frames| && Judge(cfg, s, i, canClose, now).Close?
    ensures StatusFits(cfg, Delivered(Judge(cfg, s, i, canClose, now).status, s.frames[i]))
  {
  }

  lemma {:induction false} CheckFits(cfg: Config, s: State, now: int, current: Option<nat>, i: nat, canClose: bool)
    requires AllFit(cfg, s.delivered)
    ensures AllFit(cfg, CheckCompletion(cfg, s, now, current, i, canClose).delivered)
    decreases |s.frames| - i
  {
    hide StatusFits, Judge, MissingCheck;
    if i < |s.frames| {
      match Judge(cfg, s, i, canClose, now)
      case Discard => CheckFits(cfg, DiscardFrame(cfg, s, i), now, current, i, canClose);
      case Skip => CheckFits(cfg, s, now, current, i + 1, canClose);
      case Close(status) =>
        JudgedFits(cfg, s, i, canClose, now);
        CheckFits(cfg, CloseFrame(s, i, status), now, current, i, canClose);
      case Wait =>
        var f := s.frames[i];
        var t := if current != Some(f.frameId) && Since(now, f.lastTime) >= cfg.packetTimeout
                 then AskAgain(cfg, s, i, Max(|f.packets| - 1, 0), now) else s;
        CheckFits(cfg, t, now, current, i + 1, false);
    }
  }

  lemma {:induction false} DiscardDelivers(cfg: Config, s: State)
    ensures DiscardProvisional(cfg, s).delivered == s.delivered
    decreases |s.frames|
  {
    var i := FirstProvisional(s.frames);
    if i < |s.frames| { DiscardDelivers(cfg, DiscardFrame(cfg, s, i)); }
  }

  lemma {:induction false} CloseAllFits(cfg: Config, s: State)
    requires AllFit(cfg, s.delivered)
    ensures AllFit(cfg, CloseAll(s).delivered)
    decreases |s.frames|
  {
    if s.frames != [] { CloseAllFits(cfg, CloseFrame(s, 0, Aborted)); }
  }

  lemma RouteDelivers(cfg: Config, s: State, view: View, now: int)
    ensures FindOrCreate(cfg, s, view, now).state.delivered == s.delivered
  {
    hide FindFrame, Classify, DiscardProvisional, ExpectedPackets, BlockIdDistance;
    DiscardDelivers(cfg, s);
  }

  lemma TakeFits(cfg: Config, s: State, i: nat, view: View, now: int)
    requires AllFit(cfg, s.delivered) && i < |s.frames|
    ensures AllFit(cfg, Take(cfg, s, i, view, now).delivered)
  {
    hide AllFit, TakeInto, Diverges, MissingCheck, CheckCompletion;
    if Takes(s.frames[i], view) {
      var f := s.frames[i];
      var t := s.(frames := s.frames[i := TakeInto(cfg, f, view)]);
      var u := if Provisional(f) && Diverges(f.replayOf.value, view) then AdoptRestart(t, i) else t;
      CheckFits(cfg, AskAgain(cfg, u, i, view.packetId, now), now, Some(f.frameId), 0, true);
    }
  }

  lemma StepFits(cfg: Config, s: State, e: Event)
    requires AllFit(cfg, s.delivered)
    ensures AllFit(cfg, Step(cfg, s, e).delivered)
  {
    hide AllFit, FindOrCreate, Take, CheckCompletion, DiscardProvisional, CloseAll;
    match e
    case Packet(d, now) =>
      if d.Some? {
        var routed := FindOrCreate(cfg, Start(s, d.value), d.value, now);
        RouteDelivers(cfg, Start(s, d.value), d.value, now);
        if routed.index.Some? && routed.index.value < |routed.state.frames| {
          TakeFits(cfg, routed.state, routed.index.value, d.value, now);
        }
      }
    case Idle(now) => CheckFits(cfg, s, now, None, 0, true);
    case Dropped(_) =>
    case Shutdown =>
      DiscardDelivers(cfg, s);
      CloseAllFits(cfg, DiscardProvisional(cfg, s));
  }

  /** In every run the status of each delivered frame fits what it held. */
  lemma {:induction false} RunStatuses(cfg: Config, events: seq<Event>)
    ensures AllFit(cfg, Run(cfg, Initial(cfg), events).delivered)
    decreases |events|
  {
    hide Step;
    if events != [] {
      hide AllFit, Initial;
      RunStatuses(cfg, events[..|events| - 1]);
      StepFits(cfg, Run(cfg, Initial(cfg), events[..|events| - 1]), events[|events| - 1]);
    }
  }

  // --------------------------------------------------------- provisional frames

  /** The frame is not whole and not stale: it may yet turn out to be real. */
  predicate Undecided(cfg: Config, f: Frame, now: int) { !AllReceived(f) && !Stale(cfg, f, now) }

  ghost predicate Decided(cfg: Config, frames: seq<Frame>, n: nat, now: int)
    requires n <= |frames|
  {
    forall j | 0 <= j < n && Provisional(frames[j]) :: Undecided(cfg, frames[j], now)
  }

  lemma {:induction false} ProvisionalsFresh(cfg: Config, s: State, now: int, current: Option<nat>, i: nat, canClose: bool)
    requires i <= |s.frames| && Decided(cfg, s.frames, i, now)
    ensures var t := CheckCompletion(cfg, s, now, current, i, canClose); Decided(cfg, t.frames, |t.frames|, now)
    decreases |s.frames| - i
  {
    hide AskAgain;
    if i < |s.frames| {
      match Judge(cfg, s, i, canClose, now)
      case Discard => ProvisionalsFresh(cfg, DiscardFrame(cfg, s, i), now, current, i, canClose);
      case Skip => ProvisionalsFresh(cfg, s, now, current, i + 1, canClose);
      case Close(status) => ProvisionalsFresh(cfg, CloseFrame(s, i, status), now, current, i, canClose);
      case Wait =>
        var f := s.frames[i];
        AskedSame(cfg, s, i, Max(|f.packets| - 1, 0), now);
        var t := if current != Some(f.frameId) && Since(now, f.lastTime) >= cfg.packetTimeout
                 then AskAgain(cfg, s, i, Max(|f.packets| - 1, 0), now) else s;
        ProvisionalsFresh(cfg, t, now, current, i + 1, false);
    }
  }

  /** After a completion check every provisional frame left misses packets and heard
      from the device within the retention time. */
  lemma CopiesGo(cfg: Config, s: State, now: int, current: Option<nat>)
    ensures forall f | f in CheckCompletion(cfg, s, now, current, 0, true).frames && Provisional(f) :: Undecided(cfg, f, now)
  {
    ProvisionalsFresh(cfg, s, now, current, 0, true);
  }

  // --------------------------------------------------------------- held back data

  /** In every run, while payload packet 1 has not come, another payload packet is
      taken without fault if and only if what was accepted and it together are at most
      one packet over the payload size. */
  lemma HeldUpToOnePacketOver(cfg: Config, events: seq<Event>, f: Frame, id: nat, data: Bytes)
    requires cfg.payloadSize <= USIZE_MAX && f in Run(cfg, Initial(cfg), events).frames
    requires f.error.None? && !HasFirst(f.accepted) && 1 < id <= LastPayload(cfg, f)
    ensures ProcessPayload(cfg, f, id, data).error.None? <==> HeldSize(f.accepted) + |data| <= cfg.payloadSize + MAXIMUM_PACKET_SIZE
  {
    hide Run, Initial, Step, PlaceHeld, Place, DivCeil, LastPayload, HasFirst;
    EveryRun(cfg, events);
  }
}
