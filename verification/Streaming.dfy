/** A device that sends frame after frame, composed with the receiver: every
    burst in any packet order and with repeats, copies of recent bursts mixed in
    anywhere, ids skipped and the counter wrapping. */
module Streaming {
  import opened Gvsp
  import opened Reassembly
  import opened FrameContent
  import opened Holes
  import opened Receiver
  import opened ReceiverRuns
  import opened Bursts
  import opened Fingerprinting

  // -------------------------------------------- the frame being received

  /** The open frame of burst `b`, after the packets in `got`. */
  ghost predicate RealIs(cfg: Config, b: Burst, f: Frame, got: set<nat>, at: int) {
    && Filling(cfg, b, f, got) && f.prints == PrintsOf(b, got) && !Provisional(f)
    && f.frameId == b.id && f.extended == b.extended && f.lastTime == at
  }

  /** The burst's frame, if it is open, then at most one provisional frame. */
  ghost predicate Lineup(cfg: Config, frames: seq<Frame>, b: Burst, got: set<nat>, at: int, open: bool) {
    var k := if open then 1 else 0;
    && k <= |frames| <= k + 1
    && (open ==> RealIs(cfg, b, frames[0], got, at))
    && (|frames| == k + 1 ==> Provisional(frames[k]))
  }

  lemma {:induction false} SameFirstMissing(a: seq<PacketState>, c: seq<PacketState>, i: nat)
    requires SameFlags(a, c)
    ensures FirstMissing(a, i) == FirstMissing(c, i)
    decreases |a| - i
  {
    if i < |a| && a[i].received { SameFirstMissing(a, c, i + 1); }
  }

  lemma RealKept(cfg: Config, b: Burst, f: Frame, g: Frame, got: set<nat>, at: int)
    requires RealIs(cfg, b, f, got, at)
    requires SameFlags(f.packets, g.packets) && g == f.(packets := g.packets, resend := g.resend)
    ensures RealIs(cfg, b, g, got, at)
  {
    hide Reliable, Taken, CutBlock, DivCeil, PrintsOf;
    FlagsReliable(cfg, f, g);
    SameFirstMissing(f.packets, g.packets, 0);
  }

  // --------------------------------------------------- completion check

  lemma CheckProvisional(cfg: Config, s: State, now: int, current: Option<nat>, i: nat, canClose: bool)
    requires |s.frames| <= i + 1 && (i < |s.frames| ==> Provisional(s.frames[i]))
    ensures var t := CheckCompletion(cfg, s, now, current, i, canClose);
            && t == s.(frames := t.frames, free := t.free)
            && (t.frames == s.frames || (i < |s.frames| && t.frames == s.frames[..i]))
  {
    if i < |s.frames| && Judge(cfg, s, i, canClose, now).Discard? {
      var t := DiscardFrame(cfg, s, i);
      assert t.frames == s.frames[..i];
      assert CheckCompletion(cfg, t, now, current, i, canClose) == t;
    }
  }

  /** How the check leaves the receiver: the burst's frame closed exactly when the
      burst is complete, a provisional frame kept or dropped. */
  ghost predicate Settled(cfg: Config, s: State, t: State, b: Burst, got: set<nat>, at: int, open: bool) {
    var closes := open && got == Through(b.Last());
    && Lineup(cfg, t.frames, b, got, at, open && !closes)
    && (|t.frames| > (if open && !closes then 1 else 0) ==>
          |s.frames| > (if open then 1 else 0) && t.frames[|t.frames| - 1] == s.frames[|s.frames| - 1])
    && (closes ==> s.frames != [])
    && t.delivered == s.delivered + (if closes then [Delivered(Complete, s.frames[0])] else [])
    && t.history == (if closes then Remember(s.history, Closed(b.id, b.extended, Some(s.frames[0].prints))) else s.history)
    && t.lastId == s.lastId && t.first == s.first && t.stats.missingFrames == s.stats.missingFrames
  }

  lemma CheckCloses(cfg: Config, s: State, now: int, current: Option<nat>, b: Burst, at: int)
    requires Suits(cfg, b) && Lineup(cfg, s.frames, b, Through(b.Last()), at, true)
    ensures Settled(cfg, s, CheckCompletion(cfg, s, now, current, 0, true), b, Through(b.Last()), at, true)
  {
    hide Filling, PrintsOf, Remember, AskAgain, Through;
    var f := s.frames[0];
    FilledExactly(cfg, b, f, Through(b.Last()));
    FilledData(cfg, b, f);
    assert Judge(cfg, s, 0, true, now) == Close(Complete);
    var t := CloseFrame(s, 0, Complete);
    assert t.frames == s.frames[1..];
    CheckProvisional(cfg, t, now, current, 0, true);
  }

  lemma CheckWaits(cfg: Config, s: State, now: int, current: Option<nat>, b: Burst, got: set<nat>, at: int)
    requires Suits(cfg, b) && Lineup(cfg, s.frames, b, got, at, true) && Since(now, at) < cfg.retention
    requires got != Through(b.Last())
    ensures Settled(cfg, s, CheckCompletion(cfg, s, now, current, 0, true), b, got, at, true)
  {
    hide Filling, PrintsOf, Remember, MissingCheck, Judge, Through, CloseFrame, DiscardFrame;
    var f := s.frames[0];
    FilledExactly(cfg, b, f, got);
    NotStale(cfg, s, now);
    var last := Max(|f.packets| - 1, 0);
    var ask := current != Some(f.frameId) && Since(now, f.lastTime) >= cfg.packetTimeout;
    var t := if ask then AskAgain(cfg, s, 0, last, now) else s;
    RequestsAreHoles(cfg, f, last, now);
    RealKept(cfg, b, f, MissingCheck(cfg, f, last, now).0, got, at);
    assert CheckCompletion(cfg, s, now, current, 0, true) == CheckCompletion(cfg, t, now, current, 1, false);
    CheckProvisional(cfg, t, now, current, 1, false);
  }

  lemma CheckSettles(cfg: Config, s: State, now: int, current: Option<nat>, b: Burst, got: set<nat>, at: int, open: bool)
    requires Lineup(cfg, s.frames, b, got, at, open)
    requires open ==> Suits(cfg, b) && Since(now, at) < cfg.retention
    ensures Settled(cfg, s, CheckCompletion(cfg, s, now, current, 0, true), b, got, at, open)
  {
    hide RealIs, CheckCompletion, Remember, Through;
    if !open {
      CheckProvisional(cfg, s, now, current, 0, true);
    } else if got == Through(b.Last()) {
      CheckCloses(cfg, s, now, current, b, at);
    } else {
      CheckWaits(cfg, s, now, current, b, got, at);
    }
  }

  lemma NotStale(cfg: Config, s: State, now: int)
    requires s.frames != [] && !Provisional(s.frames[0]) && !AllReceived(s.frames[0])
    requires Since(now, s.frames[0].lastTime) < cfg.retention
    requires forall i | 1 <= i < |s.frames| :: Provisional(s.frames[i])
    ensures Judge(cfg, s, 0, true, now) == Wait
  {
    assert forall f | f in s.frames[1..] :: Provisional(f);
  }

  // ------------------------------------------------------ taking packets

  lemma AskReal(cfg: Config, s: State, b: Burst, got: set<nat>, at: int, i: nat, packetId: nat, now: int)
    requires Lineup(cfg, s.frames, b, got, at, true) && i < |s.frames|
    ensures var t := AskAgain(cfg, s, i, packetId, now);
            && Lineup(cfg, t.frames, b, got, at, true) && |t.frames| == |s.frames|
            && (forall k | 0 <= k < |s.frames| :: t.frames[k].replayOf == s.frames[k].replayOf
                                                  && t.frames[k].frameId == s.frames[k].frameId)
            && t == s.(frames := t.frames, requests := t.requests)
            && t.frames[0].prints == s.frames[0].prints && t.frames[0].data == s.frames[0].data
            && t.frames[0].dataEnd == s.frames[0].dataEnd
  {
    hide RealIs, MissingCheck, Sent;
    var f := s.frames[i];
    RequestsAreHoles(cfg, f, packetId, now);
    if i == 0 { RealKept(cfg, b, f, MissingCheck(cfg, f, packetId, now).0, got, at); }
  }

  lemma TakeReal(cfg: Config, b: Burst, f: Frame, got: set<nat>, at: int, view: View)
    requires Suits(cfg, b) && RealIs(cfg, b, f, got, at) && b.Sends(view) && view.packetId !in got
    ensures Takes(f, view) && RealIs(cfg, b, TakeInto(cfg, f, view), got + {view.packetId}, at)
  {
    hide Filling, Process, FirstMissing, PrintsOf, Recorded;
    TakeFills(cfg, b, f, got, view);
    ProcessIdentity(cfg, f, view);
    PrintsRecorded(b, got, view);
  }

  /** A packet of the open burst, new or repeated. */
  lemma TakeOwn(cfg: Config, s: State, b: Burst, got: set<nat>, view: View, now: int) returns (u: State)
    requires Suits(cfg, b) && Lineup(cfg, s.frames, b, got, now, true) && b.Sends(view) && cfg.retention >= 1
    ensures view.packetId in got ==> Take(cfg, s, 0, view, now) == s
    ensures view.packetId !in got ==>
              && u == s.(frames := u.frames, requests := u.requests) && |u.frames| == |s.frames|
              && Lineup(cfg, u.frames, b, got + {view.packetId}, now, true)
              && (forall k | 1 <= k < |s.frames| :: u.frames[k].replayOf == s.frames[k].replayOf
                                                    && u.frames[k].frameId == s.frames[k].frameId)
              && Settled(cfg, u, Take(cfg, s, 0, view, now), b, got + {view.packetId}, now, true)
  {
    hide RealIs, TakeInto, CheckCompletion, AskAgain, Settled;
    u := s;
    var f := s.frames[0];
    RealBasics(cfg, b, f, got, now);
    if view.packetId !in got {
      TakeReal(cfg, b, f, got, now, view);
      var t := s.(frames := s.frames[0 := TakeInto(cfg, f, view)]);
      assert Lineup(cfg, t.frames, b, got + {view.packetId}, now, true);
      AskReal(cfg, t, b, got + {view.packetId}, now, 0, view.packetId, now);
      u := AskAgain(cfg, t, 0, view.packetId, now);
      CheckSettles(cfg, u, now, Some(f.frameId), b, got + {view.packetId}, now, true);
    }
  }

  lemma RealBasics(cfg: Config, b: Burst, f: Frame, got: set<nat>, at: int)
    requires RealIs(cfg, b, f, got, at)
    ensures !Provisional(f) && f.frameId == b.id && forall i | i in got :: i < |f.packets| && f.packets[i].received
  {
    hide Reliable, Taken, SizedFor;
  }

  /** A provisional frame taken for copies of burst `e`. */
  ghost predicate EchoIs(f: Frame, e: Burst) { f.frameId == RESTART_BLOCK_ID && f.replayOf == Some(FullPrints(e)) }

  lemma TakeIntoEcho(cfg: Config, f: Frame, e: Burst, view: View)
    requires EchoIs(f, e) && Assembled(view)
    ensures EchoIs(TakeInto(cfg, f, view), e)
  {
    hide Process, FirstMissing, FullPrints;
    ProcessIdentity(cfg, f, view);
  }

  lemma AskEcho(cfg: Config, s: State, i: nat, packetId: nat, now: int)
    requires i < |s.frames|
    ensures var t := AskAgain(cfg, s, i, packetId, now);
            && |t.frames| == |s.frames| && t == s.(frames := t.frames, requests := t.requests)
            && (forall k | 0 <= k < |s.frames| && k != i :: t.frames[k] == s.frames[k])
            && t.frames[i].frameId == s.frames[i].frameId && t.frames[i].replayOf == s.frames[i].replayOf
  {
    hide MissingCheck, Sent;
    RequestsAreHoles(cfg, s.frames[i], packetId, now);
  }

  /** A copy routed to the provisional frame changes nothing else. */
  lemma TakeEcho(cfg: Config, s: State, b: Burst, got: set<nat>, at: int, open: bool, e: Burst, view: View, now: int)
    returns (u: State)
    requires Lineup(cfg, s.frames, b, got, at, open) && (open ==> Suits(cfg, b) && Since(now, at) < cfg.retention)
    requires |s.frames| == (if open then 2 else 1) && EchoIs(s.frames[|s.frames| - 1], e) && e.Sends(view)
    ensures |u.frames| == |s.frames| && u == s.(frames := u.frames, requests := u.requests)
    ensures open ==> u.frames[0] == s.frames[0]
    ensures EchoIs(u.frames[|u.frames| - 1], e) && Lineup(cfg, u.frames, b, got, at, open)
    ensures Take(cfg, s, |s.frames| - 1, view, now) == u
         || Settled(cfg, u, Take(cfg, s, |s.frames| - 1, view, now), b, got, at, open)
  {
    hide RealIs, TakeInto, CheckCompletion, AskAgain, Settled, Takes, FullPrints;
    u := s;
    var i := |s.frames| - 1;
    var f := s.frames[i];
    if Takes(f, view) {
      TakesAssembled(f, view);
      TakeIntoEcho(cfg, f, e, view);
      OwnPrints(e, view);
      var t := s.(frames := s.frames[i := TakeInto(cfg, f, view)]);
      AskEcho(cfg, t, i, view.packetId, now);
      u := AskAgain(cfg, t, i, view.packetId, now);
      CheckSettles(cfg, u, now, Some(f.frameId), b, got, at, open);
    }
  }
}
