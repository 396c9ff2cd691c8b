/** Over whole runs, every resend request asks only for packets that were missing. */
module ResendRuns {
  import opened Gvsp
  import opened Reassembly
  import opened Holes
  import opened Receiver
  import ReceiverRuns

  /** The request is for packets this frame is missing. */
  ghost predicate MissingIn(f: Frame, r: Request) {
    && f.serial == r.serial && f.frameId == r.frameId && !Provisional(f)
    && r.first <= r.last < |f.packets| && forall k | r.first <= k <= r.last :: !f.packets[k].received
  }

  /** Such a frame is open, or was just delivered without them. */
  ghost predicate Justified(s: State, r: Request) {
    (exists f | f in s.frames :: MissingIn(f, r)) || (exists d | d in s.delivered :: MissingIn(d.frame, r))
  }

  /** Frames that may be copies ask for nothing. */
  ghost predicate Silent(s: State) { forall f | f in s.frames && Provisional(f) :: f.resend.disabled }

  /** The requests made since `before` are all justified now. */
  ghost predicate NewJustified(before: seq<Request>, s: State) {
    before <= s.requests && forall k | |before| <= k < |s.requests| :: Justified(s, s.requests[k])
  }

  ghost predicate Asking(before: seq<Request>, s: State) { Silent(s) && NewJustified(before, s) }

  /** Every frame that may justify a request is still there, by its flags. */
  ghost predicate Survives(s: State, t: State) { forall r | Justified(s, r) :: Justified(t, r) }

  lemma Continued(before: seq<Request>, s: State, t: State)
    requires NewJustified(before, s) && Survives(s, t) && t.requests == s.requests
    ensures NewJustified(before, t)
  {
    hide Justified;
  }

  lemma WithoutHas(frames: seq<Frame>, i: nat, f: Frame)
    requires i < |frames| && f in frames && f != frames[i]
    ensures f in Without(frames, i)
  {
    var k :| 0 <= k < |frames| && frames[k] == f;
    assert Without(frames, i)[if k < i then k else k - 1] == f;
  }

  lemma WithoutFrom(frames: seq<Frame>, i: nat)
    requires i < |frames|
    ensures forall f | f in Without(frames, i) :: f in frames
  {
  }

  lemma CloseAsking(before: seq<Request>, s: State, i: nat, status: Status)
    requires Asking(before, s) && i < |s.frames|
    ensures Asking(before, CloseFrame(s, i, status))
  {
    var t := CloseFrame(s, i, status);
    WithoutFrom(s.frames, i);
    forall r | Justified(s, r) ensures Justified(t, r) {
      if f :| f in s.frames && MissingIn(f, r) {
        if f == s.frames[i] {
          assert Delivered(status, f) in t.delivered && MissingIn(Delivered(status, f).frame, r);
        } else {
          WithoutHas(s.frames, i, f);
        }
      } else {
        var d :| d in s.delivered && MissingIn(d.frame, r);
        assert d in t.delivered;
      }
    }
    Continued(before, s, t);
  }

  lemma DiscardAsking(cfg: Config, before: seq<Request>, s: State, i: nat)
    requires Asking(before, s) && i < |s.frames| && Provisional(s.frames[i])
    ensures Asking(before, DiscardFrame(cfg, s, i))
  {
    var t := DiscardFrame(cfg, s, i);
    WithoutFrom(s.frames, i);
    forall r | Justified(s, r) ensures Justified(t, r) {
      if f :| f in s.frames && MissingIn(f, r) { WithoutHas(s.frames, i, f); }
    }
    Continued(before, s, t);
  }

  lemma SameMissing(f: Frame, g: Frame, r: Request)
    requires MissingIn(f, r) && SameFlags(f.packets, g.packets) && g.serial == f.serial && g.frameId == f.frameId && g.replayOf == f.replayOf
    ensures MissingIn(g, r)
  {
  }

  /** A frame replaced by one with its flags. */
  lemma ReplacedSurvives(s: State, t: State, i: nat, g: Frame)
    requires i < |s.frames| && t.frames == s.frames[i := g] && t.delivered == s.delivered
    requires var f := s.frames[i];
             SameFlags(f.packets, g.packets) && g.serial == f.serial && g.frameId == f.frameId && g.replayOf == f.replayOf
    ensures Survives(s, t)
  {
    hide MissingIn, SameFlags;
    forall r | Justified(s, r) ensures Justified(t, r) {
      if f :| f in s.frames && MissingIn(f, r) {
        var k :| 0 <= k < |s.frames| && s.frames[k] == f;
        assert t.frames[k] in t.frames;
        if k == i { SameMissing(f, g, r); }
      }
    }
  }

  lemma QuietFrame(cfg: Config, f: Frame, packetId: nat, now: int)
    requires f.resend.disabled
    ensures MissingCheck(cfg, f, packetId, now).1 == []
  {
  }

  lemma SentMissing(cfg: Config, f: Frame, packetId: nat, now: int, r: Request)
    requires !Provisional(f)
    requires var (_, ranges) := MissingCheck(cfg, f, packetId, now); r in Sent(f, ranges, MaxRequests(cfg, |f.packets|))
    ensures MissingIn(MissingCheck(cfg, f, packetId, now).0, r)
  {
    hide MissingCheck, MaxRequests;
    RequestsAreHoles(cfg, f, packetId, now);
    var ranges := MissingCheck(cfg, f, packetId, now).1;
    var k :| 0 <= k < |ranges| && r == Request(f.serial, f.frameId, ranges[k].0, ranges[k].1, MaxRequests(cfg, |f.packets|));
    assert ranges[k] in ranges;
  }

  lemma AskAsking(cfg: Config, before: seq<Request>, s: State, i: nat, packetId: nat, now: int)
    requires Asking(before, s) && i < |s.frames|
    ensures Asking(before, AskAgain(cfg, s, i, packetId, now))
  {
    hide MissingCheck, MaxRequests, MissingIn, Sent, SameFlags;
    var f, t := s.frames[i], AskAgain(cfg, s, i, packetId, now);
    var (g, ranges) := MissingCheck(cfg, f, packetId, now);
    var sent := Sent(f, ranges, MaxRequests(cfg, |f.packets|));
    RequestsAreHoles(cfg, f, packetId, now);
    assert f in s.frames && g in t.frames by { assert t.frames[i] == g; }
    forall h | h in t.frames && Provisional(h) ensures h.resend.disabled {
      var k :| 0 <= k < |t.frames| && t.frames[k] == h;
      if k != i { assert h == s.frames[k]; }
    }
    ReplacedSurvives(s, t, i, g);
    forall k | |before| <= k < |t.requests| ensures Justified(t, t.requests[k]) {
      if k < |s.requests| {
        assert Justified(s, s.requests[k]);
      } else {
        var r := sent[k - |s.requests|];
        assert r == t.requests[k] && r in sent;
        if Provisional(f) {
          QuietFrame(cfg, f, packetId, now);
        } else {
          SentMissing(cfg, f, packetId, now, r);
        }
      }
    }
  }

  lemma {:induction false} CheckAsking(cfg: Config, before: seq<Request>, s: State, now: int, current: Option<nat>, i: nat, canClose: bool)
    requires Asking(before, s)
    ensures Asking(before, CheckCompletion(cfg, s, now, current, i, canClose))
    decreases |s.frames| - i
  {
    hide Asking, MissingCheck;
    if i < |s.frames| {
      match Judge(cfg, s, i, canClose, now)
      case Discard =>
        DiscardAsking(cfg, before, s, i);
        CheckAsking(cfg, before, DiscardFrame(cfg, s, i), now, current, i, canClose);
      case Skip => CheckAsking(cfg, before, s, now, current, i + 1, canClose);
      case Close(status) =>
        CloseAsking(before, s, i, status);
        CheckAsking(cfg, before, CloseFrame(s, i, status), now, current, i, canClose);
      case Wait =>
        var f := s.frames[i];
        var last := Max(|f.packets| - 1, 0);
        var t := if current != Some(f.frameId) && Since(now, f.lastTime) >= cfg.packetTimeout
                 then AskAgain(cfg, s, i, last, now) else s;
        AskAsking(cfg, before, s, i, last, now);
        CheckAsking(cfg, before, t, now, current, i + 1, false);
    }
  }

  lemma {:induction false} DiscardAllAsking(cfg: Config, before: seq<Request>, s: State)
    requires Asking(before, s)
    ensures Asking(before, DiscardProvisional(cfg, s)) && DiscardProvisional(cfg, s).requests == s.requests
    decreases |s.frames|
  {
    hide Asking;
    var i := FirstProvisional(s.frames);
    if i < |s.frames| {
      DiscardAsking(cfg, before, s, i);
      DiscardAllAsking(cfg, before, DiscardFrame(cfg, s, i));
    }
  }

  lemma {:induction false} CloseAllAsking(before: seq<Request>, s: State)
    requires Asking(before, s)
    ensures Asking(before, CloseAll(s))
    decreases |s.frames|
  {
    hide Asking;
    if s.frames != [] {
      CloseAsking(before, s, 0, Aborted);
      CloseAllAsking(before, CloseFrame(s, 0, Aborted));
    }
  }

  /** Nothing has been asked for since now. */
  lemma NothingAsked(s: State)
    requires Silent(s)
    ensures Asking(s.requests, s)
  {
  }

  lemma SilentSet(s: State, t: State, i: nat, g: Frame)
    requires Silent(s) && i < |s.frames| && t.frames == s.frames[i := g] && (Provisional(g) ==> g.resend.disabled)
    ensures Silent(t)
  {
    forall f | f in t.frames && Provisional(f) ensures f.resend.disabled {
      var k :| 0 <= k < |t.frames| && t.frames[k] == f;
      if k != i { assert f == s.frames[k]; }
    }
  }

  lemma RouteSilent(cfg: Config, s: State, view: View, now: int)
    requires Silent(s)
    ensures var t := FindOrCreate(cfg, s, view, now).state; Silent(t) && t.requests == s.requests
  {
    hide Classify, DiscardProvisional, ExpectedPackets, BlockIdDistance, Silent;
    var t, i := FindOrCreate(cfg, s, view, now).state, FindFrame(s.frames, view.frameId);
    if i < |s.frames| {
      var g := s.frames[i].(lastTime := now);
      SilentAt(s, i);
      SilentSet(s, t, i, g);
    } else {
      match Classify(s, view)
      case Late =>
      case New =>
        DiscardAllAsking(cfg, s.requests, s) by { NothingAsked(s); }
        AppendSilent(DiscardProvisional(cfg, s), t);
      case MaybeReplay(_) => AppendSilent(s, t);
    }
  }

  lemma SilentAt(s: State, i: nat)
    requires Silent(s) && i < |s.frames|
    ensures Provisional(s.frames[i]) ==> s.frames[i].resend.disabled
  {
  }

  lemma AppendSilent(s: State, t: State)
    requires Silent(s) && (t.frames == s.frames || exists f :: t.frames == s.frames + [f] && (Provisional(f) ==> f.resend.disabled))
    ensures Silent(t)
  {
  }

  lemma TakeAsking(cfg: Config, s: State, i: nat, view: View, now: int)
    requires Silent(s) && i < |s.frames|
    ensures Asking(s.requests, Take(cfg, s, i, view, now))
  {
    hide Silent, Asking, Takes, TakeInto, Diverges, CheckCompletion, AskAgain;
    var f := s.frames[i];
    SilentAt(s, i);
    if IsError(view.status) {
      var t := Take(cfg, s, i, view, now);
      if IsGone(view.status) { SilentSet(s, t, i, t.frames[i]); }
      NothingAsked(t);
    } else if !Takes(f, view) {
      NothingAsked(s);
    } else {
      ReceiverRuns.TakesAssembled(f, view);
      TakeKeepsResend(cfg, f, view);
      var g := TakeInto(cfg, f, view);
      var t := s.(frames := s.frames[i := g]);
      SilentSet(s, t, i, g);
      var u := if Provisional(f) && Diverges(f.replayOf.value, view) then AdoptRestart(t, i) else t;
      SilentSet(t, u, i, u.frames[i]);
      NothingAsked(u);
      AskAsking(cfg, s.requests, u, i, view.packetId, now);
      CheckAsking(cfg, s.requests, AskAgain(cfg, u, i, view.packetId, now), now, Some(f.frameId), 0, true);
    }
  }

  lemma TakeKeepsResend(cfg: Config, f: Frame, view: View)
    requires Assembled(view)
    ensures var g := TakeInto(cfg, f, view); g.resend == f.resend && g.replayOf == f.replayOf
  {
    hide Process, FirstMissing, Recorded;
    ReceiverRuns.ProcessIdentity(cfg, f, view);
  }

  lemma StepAsking(cfg: Config, s: State, e: Event)
    requires Silent(s)
    ensures Asking(s.requests, Step(cfg, s, e))
  {
    hide Silent, Asking, FindOrCreate, Take, CheckCompletion, DiscardProvisional, CloseAll;
    NothingAsked(s);
    match e
    case Packet(d, now) =>
      if d.Some? {
        var s1 := Start(s, d.value);
        SameSilent(s, s1);
        RouteSilent(cfg, s1, d.value, now);
        var routed := FindOrCreate(cfg, s1, d.value, now);
        NothingAsked(routed.state);
        if routed.index.Some? && routed.index.value < |routed.state.frames| {
          TakeAsking(cfg, routed.state, routed.index.value, d.value, now);
        }
      }
    case Idle(now) => CheckAsking(cfg, s.requests, s, now, None, 0, true);
    case Dropped(i) =>
      SameSilent(s, Step(cfg, s, e));
      NothingAsked(Step(cfg, s, e));
    case Shutdown =>
      DiscardAllAsking(cfg, s.requests, s);
      CloseAllAsking(s.requests, DiscardProvisional(cfg, s));
  }

  lemma SameSilent(s: State, t: State)
    requires Silent(s) && t.frames == s.frames
    ensures Silent(t)
  {
  }

  /** In every run, every request was made by some event, right after which a frame,
      open or just delivered, was missing all the packets asked for. */
  lemma {:induction false} EveryRequestMissing(cfg: Config, events: seq<Event>, k: nat)
    requires k < |Run(cfg, Initial(cfg), events).requests|
    ensures Silent(Run(cfg, Initial(cfg), events))
    ensures exists n | 0 <= n < |events| :: AskedBy(cfg, events, n, k, Run(cfg, Initial(cfg), events).requests[k])
    decreases |events|
  {
    hide Step, Silent, Justified;
    if events != [] {
      hide Initial;
      var n := |events| - 1;
      var s, t := Run(cfg, Initial(cfg), events[..n]), Run(cfg, Initial(cfg), events);
      RunSilent(cfg, events[..n]);
      StepAsking(cfg, s, events[n]);
      assert events[..n + 1] == events;
      if k < |s.requests| {
        EveryRequestMissing(cfg, events[..n], k);
        var m :| 0 <= m < n && AskedBy(cfg, events[..n], m, k, s.requests[k]);
        assert events[..n][..m] == events[..m] && events[..n][..m + 1] == events[..m + 1];
        assert AskedBy(cfg, events, m, k, t.requests[k]);
      } else {
        assert AskedBy(cfg, events, n, k, t.requests[k]);
      }
    }
  }

  /** Event `n` made request `k`, and left its packets missing. */
  ghost predicate AskedBy(cfg: Config, events: seq<Event>, n: nat, k: nat, r: Request)
    requires n < |events|
  {
    var (s, t) := (Run(cfg, Initial(cfg), events[..n]), Run(cfg, Initial(cfg), events[..n + 1]));
    |s.requests| <= k < |t.requests| && t.requests[k] == r && Justified(t, r)
  }

  lemma {:induction false} RunSilent(cfg: Config, events: seq<Event>)
    ensures Silent(Run(cfg, Initial(cfg), events))
    decreases |events|
  {
    hide Step;
    if events != [] {
      hide Initial, Silent, NewJustified;
      RunSilent(cfg, events[..|events| - 1]);
      StepAsking(cfg, Run(cfg, Initial(cfg), events[..|events| - 1]), events[|events| - 1]);
    }
  }
}
