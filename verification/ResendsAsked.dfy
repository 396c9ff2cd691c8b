/** When missing packets are asked for: with every packet taken, those due behind it,
    and with every pass, those due in frames that have heard nothing for a while. */
module ResendsAsked {
  import opened Gvsp
  import opened Reassembly
  import opened FrameContent
  import opened Holes
  import opened Receiver
  import opened ReceiverRuns
  import opened ResendWalk

  /** One of these requests asks for packet `k` of the frame. */
  ghost predicate AsksFor(requests: seq<Request>, f: Frame, k: nat) {
    exists r | r in requests :: r.serial == f.serial && r.frameId == f.frameId && r.first <= k <= r.last
  }

  /** The frame may ask, and what is due behind `packetId` fits its budget. */
  predicate MayAsk(cfg: Config, f: Frame, packetId: nat, now: int) {
    && cfg.resendEnabled && !f.resend.disabled && !f.resend.ratioReached && packetId < |f.packets|
    && MaxRequests(cfg, |f.packets|) != 0
    && f.resend.requests + DueCount(f, packetId, now) <= MaxRequests(cfg, |f.packets|)
  }

  lemma SentCovers(f: Frame, ranges: seq<Range>, limit: nat, k: nat)
    ensures AsksFor(Sent(f, ranges, limit), f, k) <==> InSome(ranges, k)
  {
    var made := Sent(f, ranges, limit);
    if AsksFor(made, f, k) {
      var r :| r in made && r.first <= k <= r.last;
      var j :| 0 <= j < |made| && made[j] == r;
      assert ranges[j] in ranges && Spans(ranges[j], k);
    }
    if InSome(ranges, k) {
      var r :| r in ranges && Spans(r, k);
      var j :| 0 <= j < |ranges| && ranges[j] == r;
      assert made[j] in made;
    }
  }

  /** The requests made for a frame that may ask are for exactly the packets due. */
  lemma AskedExactly(cfg: Config, s: State, i: nat, packetId: nat, now: int, k: nat)
    requires i < |s.frames| && MayAsk(cfg, s.frames[i], packetId, now)
    ensures var t := AskAgain(cfg, s, i, packetId, now);
            && s.requests <= t.requests
            && (AsksFor(t.requests[|s.requests|..], s.frames[i], k) <==> Due(s.frames[i], packetId, now, k))
  {
    hide MissingCheck, MaxRequests, Due, DueCount, Sent, AsksFor, InSome, Apart, PassedTo;
    var f, t := s.frames[i], AskAgain(cfg, s, i, packetId, now);
    AsksForDue(cfg, f, packetId, now);
    var ranges, limit := MissingCheck(cfg, f, packetId, now).1, MaxRequests(cfg, |f.packets|);
    SentCovers(f, ranges, limit, k);
    assert t.requests[|s.requests|..] == Sent(f, ranges, limit);
  }

  // ------------------------------------------------------- requests are kept

  lemma AskMore(cfg: Config, s: State, i: nat, packetId: nat, now: int)
    requires i < |s.frames|
    ensures s.requests <= AskAgain(cfg, s, i, packetId, now).requests
  {
    hide MissingCheck;
  }

  lemma {:induction false} CheckMore(cfg: Config, s: State, now: int, current: Option<nat>, i: nat, canClose: bool)
    ensures s.requests <= CheckCompletion(cfg, s, now, current, i, canClose).requests
    decreases |s.frames| - i
  {
    hide Judge, MissingCheck;
    if i < |s.frames| {
      match Judge(cfg, s, i, canClose, now)
      case Discard => CheckMore(cfg, DiscardFrame(cfg, s, i), now, current, i, canClose);
      case Skip => CheckMore(cfg, s, now, current, i + 1, canClose);
      case Close(status) => CheckMore(cfg, CloseFrame(s, i, status), now, current, i, canClose);
      case Wait =>
        var f := s.frames[i];
        var t := if current != Some(f.frameId) && Since(now, f.lastTime) >= cfg.packetTimeout
                 then AskAgain(cfg, s, i, Max(|f.packets| - 1, 0), now) else s;
        CheckMore(cfg, t, now, current, i + 1, false);
    }
  }

  lemma MoreAsks(a: seq<Request>, b: seq<Request>, n: nat, f: Frame, k: nat)
    requires n <= |a| && a <= b && AsksFor(a[n..], f, k)
    ensures AsksFor(b[n..], f, k)
  {
    var r :| r in a[n..] && r.serial == f.serial && r.frameId == f.frameId && r.first <= k <= r.last;
    var j :| n <= j < |a| && a[j] == r;
    assert b[n..][j - n] == r;
  }

  // ------------------------------------------------------------- on arrival

  /** The frame as a packet leaves it: taken in, and adopted if it is no copy. */
  function Joined(cfg: Config, f: Frame, view: View): Frame
    requires Assembled(view)
  {
    var g := TakeInto(cfg, f, view);
    if Provisional(f) && Diverges(f.replayOf.value, view) then g.(replayOf := None, resend := g.resend.(disabled := false)) else g
  }

  /** A packet that is taken has everything due behind it asked for. */
  lemma AskedOnArrival(cfg: Config, s: State, i: nat, view: View, now: int, k: nat)
    requires i < |s.frames| && Takes(s.frames[i], view)
    requires var g := Joined(cfg, s.frames[i], view); MayAsk(cfg, g, view.packetId, now) && Due(g, view.packetId, now, k)
    ensures var t := Take(cfg, s, i, view, now);
            s.requests <= t.requests && AsksFor(t.requests[|s.requests|..], Joined(cfg, s.frames[i], view), k)
  {
    hide TakeInto, Diverges, AskAgain, CheckCompletion, MayAsk, Due;
    var f := s.frames[i];
    var t := s.(frames := s.frames[i := TakeInto(cfg, f, view)]);
    var u := if Provisional(f) && Diverges(f.replayOf.value, view) then AdoptRestart(t, i) else t;
    assert u.frames[i] == Joined(cfg, f, view) && u.requests == s.requests;
    AskedExactly(cfg, u, i, view.packetId, now, k);
    var v := AskAgain(cfg, u, i, view.packetId, now);
    CheckMore(cfg, v, now, Some(f.frameId), 0, true);
    MoreAsks(v.requests, CheckCompletion(cfg, v, now, Some(f.frameId), 0, true).requests, |s.requests|, Joined(cfg, f, view), k);
  }

  // ----------------------------------------------------------------- on a pass

  ghost predicate Distinctly(frames: seq<Frame>) {
    forall i, j | 0 <= i < j < |frames| :: frames[i].serial != frames[j].serial
  }

  ghost predicate StillOpen(s: State, serial: nat) { exists f | f in s.frames :: f.serial == serial }

  lemma {:induction false} CheckKeepsFrames(cfg: Config, s: State, now: int, current: Option<nat>, i: nat, canClose: bool)
    ensures var t := CheckCompletion(cfg, s, now, current, i, canClose);
            forall f | f in t.frames :: StillOpen(s, f.serial)
    decreases |s.frames| - i
  {
    hide Judge, AskAgain;
    if i < |s.frames| {
      match Judge(cfg, s, i, canClose, now)
      case Discard => CheckKeepsFrames(cfg, DiscardFrame(cfg, s, i), now, current, i, canClose);
      case Skip => CheckKeepsFrames(cfg, s, now, current, i + 1, canClose);
      case Close(status) => CheckKeepsFrames(cfg, CloseFrame(s, i, status), now, current, i, canClose);
      case Wait =>
        var f := s.frames[i];
        var last := Max(|f.packets| - 1, 0);
        var t := if current != Some(f.frameId) && Since(now, f.lastTime) >= cfg.packetTimeout then AskAgain(cfg, s, i, last, now) else s;
        AskedSame(cfg, s, i, last, now);
        forall x: nat | StillOpen(t, x) ensures StillOpen(s, x) {
          var g :| g in t.frames && g.serial == x;
          var j :| 0 <= j < |t.frames| && t.frames[j] == g;
          assert s.frames[j] in s.frames;
        }
        CheckKeepsFrames(cfg, t, now, current, i + 1, false);
    }
  }

  lemma AskedSame(cfg: Config, s: State, i: nat, packetId: nat, now: int)
    requires i < |s.frames|
    ensures var t := AskAgain(cfg, s, i, packetId, now);
            && |t.frames| == |s.frames| && t.frames[i].serial == s.frames[i].serial
            && (forall j | 0 <= j < |s.frames| && j != i :: t.frames[j] == s.frames[j])
  {
    hide MissingCheck;
    RequestsAreHoles(cfg, s.frames[i], packetId, now);
  }

  /** A frame the check has yet to come to, real, open after it, and silent for the
      packet timeout, has everything due asked for. */
  lemma {:induction false} CheckAsks(cfg: Config, s: State, now: int, i: nat, canClose: bool, j: nat, k: nat)
    requires i <= j < |s.frames| && Distinctly(s.frames) && !Provisional(s.frames[j])
    requires Since(now, s.frames[j].lastTime) >= cfg.packetTimeout
    requires var last := Max(|s.frames[j].packets| - 1, 0); MayAsk(cfg, s.frames[j], last, now) && Due(s.frames[j], last, now, k)
    ensures var t := CheckCompletion(cfg, s, now, None, i, canClose);
            s.requests <= t.requests && (StillOpen(t, s.frames[j].serial) ==> AsksFor(t.requests[|s.requests|..], s.frames[j], k))
    decreases |s.frames| - i
  {
    hide AskAgain, MayAsk, Due, AsksFor, StillOpen, Judge, Without, Distinctly, CloseFrame, DiscardFrame;
    var f := s.frames[i];
    CheckMore(cfg, s, now, None, i, canClose);
    RealJudged(cfg, s, i, canClose, now);
    match Judge(cfg, s, i, canClose, now)
    case Discard =>
      Removal(cfg, s, i, Aborted);
      RemovedAt(s.frames, i, j);
      CheckAsks(cfg, DiscardFrame(cfg, s, i), now, i, canClose, j - 1, k);
    case Skip => CheckAsks(cfg, s, now, i + 1, canClose, j, k);
    case Close(status) =>
      var u := CloseFrame(s, i, status);
      if j > i {
        Removal(cfg, s, i, status);
        RemovedAt(s.frames, i, j);
        CheckAsks(cfg, u, now, i, canClose, j - 1, k);
      } else {
        ClosedGone(cfg, s, now, i, canClose, status);
      }
    case Wait =>
      var last := Max(|f.packets| - 1, 0);
      var u := if Since(now, f.lastTime) >= cfg.packetTimeout then AskAgain(cfg, s, i, last, now) else s;
      var t := CheckCompletion(cfg, u, now, None, i + 1, false);
      if j > i {
        AskedSame(cfg, s, i, last, now);
        AskMore(cfg, s, i, last, now);
        SameSerials(s.frames, u.frames);
        CheckAsks(cfg, u, now, i + 1, false, j, k);
        if StillOpen(t, s.frames[j].serial) { EarlierAsks(t.requests, |s.requests|, |u.requests|, s.frames[j], k); }
      } else {
        AskedHere(cfg, s, now, i, k);
      }
  }

  lemma AskedHere(cfg: Config, s: State, now: int, i: nat, k: nat)
    requires i < |s.frames|
    requires var last := Max(|s.frames[i].packets| - 1, 0); MayAsk(cfg, s.frames[i], last, now) && Due(s.frames[i], last, now, k)
    ensures var u := AskAgain(cfg, s, i, Max(|s.frames[i].packets| - 1, 0), now);
            var t := CheckCompletion(cfg, u, now, None, i + 1, false);
            s.requests <= t.requests && AsksFor(t.requests[|s.requests|..], s.frames[i], k)
  {
    hide AskAgain, MayAsk, Due, AsksFor, CheckCompletion;
    var last := Max(|s.frames[i].packets| - 1, 0);
    var u := AskAgain(cfg, s, i, last, now);
    AskedExactly(cfg, s, i, last, now, k);
    CheckMore(cfg, u, now, None, i + 1, false);
    MoreAsks(u.requests, CheckCompletion(cfg, u, now, None, i + 1, false).requests, |s.requests|, s.frames[i], k);
  }

  lemma Removal(cfg: Config, s: State, i: nat, status: Status)
    requires i < |s.frames|
    ensures DiscardFrame(cfg, s, i).frames == CloseFrame(s, i, status).frames == Without(s.frames, i)
    ensures DiscardFrame(cfg, s, i).requests == CloseFrame(s, i, status).requests == s.requests
  {
  }

  lemma RealJudged(cfg: Config, s: State, i: nat, canClose: bool, now: int)
    requires i < |s.frames|
    ensures var v := Judge(cfg, s, i, canClose, now); v.Discard? || v.Skip? <==> Provisional(s.frames[i])
  {
  }

  lemma SameSerials(a: seq<Frame>, b: seq<Frame>)
    requires Distinctly(a) && |a| == |b| && forall i | 0 <= i < |a| :: a[i].serial == b[i].serial
    ensures Distinctly(b)
  {
  }

  lemma RemovedAt(frames: seq<Frame>, i: nat, j: nat)
    requires i < j < |frames| && Distinctly(frames)
    ensures |Without(frames, i)| == |frames| - 1 && Without(frames, i)[j - 1] == frames[j] && Distinctly(Without(frames, i))
  {
  }

  lemma ClosedGone(cfg: Config, s: State, now: int, i: nat, canClose: bool, status: Status)
    requires i < |s.frames| && Distinctly(s.frames)
    ensures !StillOpen(CheckCompletion(cfg, CloseFrame(s, i, status), now, None, i, canClose), s.frames[i].serial)
  {
    hide Distinctly, StillOpen, CheckCompletion;
    var u := CloseFrame(s, i, status);
    CheckKeepsFrames(cfg, u, now, None, i, canClose);
    RemovedGone(s, u, i, CheckCompletion(cfg, u, now, None, i, canClose));
  }

  lemma RemovedGone(s: State, u: State, i: nat, t: State)
    requires i < |s.frames| && Distinctly(s.frames) && u.frames == Without(s.frames, i)
    requires forall f | f in t.frames :: StillOpen(u, f.serial)
    ensures !StillOpen(t, s.frames[i].serial)
  {
    forall f | f in t.frames ensures f.serial != s.frames[i].serial {
      assert StillOpen(u, f.serial);
      var g :| g in u.frames && g.serial == f.serial;
      var j :| 0 <= j < |u.frames| && u.frames[j] == g;
      assert g == s.frames[if j < i then j else j + 1];
    }
  }

  lemma EarlierAsks(requests: seq<Request>, m: nat, n: nat, f: Frame, k: nat)
    requires m <= n <= |requests| && AsksFor(requests[n..], f, k)
    ensures AsksFor(requests[m..], f, k)
  {
    var r :| r in requests[n..] && r.serial == f.serial && r.frameId == f.frameId && r.first <= k <= r.last;
    var j :| n <= j < |requests| && requests[j] == r;
    assert requests[m..][j - m] == r;
  }

  /** In every run: an idle pass asks for everything due in each real frame that has
      heard nothing for the packet timeout, may ask, and stays open. */
  lemma AskedOnPass(cfg: Config, events: seq<Event>, now: int, j: nat, k: nat)
    requires cfg.payloadSize <= USIZE_MAX
    requires var s := Run(cfg, Initial(cfg), events);
             && j < |s.frames| && !Provisional(s.frames[j]) && Since(now, s.frames[j].lastTime) >= cfg.packetTimeout
             && var last := Max(|s.frames[j].packets| - 1, 0);
                MayAsk(cfg, s.frames[j], last, now) && Due(s.frames[j], last, now, k)
    ensures var s, t := Run(cfg, Initial(cfg), events), Tick(cfg, Run(cfg, Initial(cfg), events), now);
            s.requests <= t.requests && (StillOpen(t, s.frames[j].serial) ==> AsksFor(t.requests[|s.requests|..], s.frames[j], k))
  {
    hide Run, Initial, MayAsk, Due, AsksFor, StillOpen, CheckCompletion, Reliable;
    EveryRun(cfg, events);
    CheckAsks(cfg, Run(cfg, Initial(cfg), events), now, 0, true, j, k);
  }
}
