/** After a completion check nothing that could close is left at the head of the
    line, and a frame that must not time out is still there. */
module Retention {
  import opened Gvsp
  import opened Reassembly
  import opened Holes
  import opened Receiver

  predicate Stale(cfg: Config, f: Frame, now: int) { Since(now, f.lastTime) >= cfg.retention }

  /** The frame must stay: it misses packets, it is fresh or the newest one with
      only its leader in place, and resends may fill it or nothing newer is open. */
  predicate MustStay(cfg: Config, lastId: nat, frames: seq<Frame>, i: nat, now: int)
    requires i < |frames|
  {
    var f := frames[i];
    && !Provisional(f) && !AllReceived(f)
    && (Stale(cfg, f, now) ==> f.frameId == lastId && f.prefix == 1)
    && (cfg.resendEnabled || !AnyReal(frames[i + 1..]))
  }

  /** Provisional frames only, or the first real one must stay. */
  ghost predicate NothingToClose(cfg: Config, lastId: nat, frames: seq<Frame>, now: int) {
    || (forall f | f in frames :: Provisional(f))
    || exists i | 0 <= i < |frames| :: (forall j | 0 <= j < i :: Provisional(frames[j])) && MustStay(cfg, lastId, frames, i, now)
  }

  /** Asking for packets again changes nothing the judgement looks at. */
  lemma AskedSame(cfg: Config, s: State, i: nat, packetId: nat, now: int)
    requires i < |s.frames|
    ensures var t, f := AskAgain(cfg, s, i, packetId, now), s.frames[i];
            && |t.frames| == |s.frames| && t.lastId == s.lastId && t.delivered == s.delivered
            && (forall j | 0 <= j < |s.frames| && j != i :: t.frames[j] == s.frames[j])
            && t.frames[i].frameId == f.frameId && t.frames[i].prefix == f.prefix && t.frames[i].lastTime == f.lastTime
            && t.frames[i].replayOf == f.replayOf && |t.frames[i].packets| == |f.packets|
  {
    hide MissingCheck;
    RequestsAreHoles(cfg, s.frames[i], packetId, now);
  }

  lemma RealsSame(a: seq<Frame>, b: seq<Frame>, i: nat)
    requires |a| == |b| && i <= |a| && forall j | i <= j < |a| :: Provisional(a[j]) == Provisional(b[j])
    ensures AnyReal(a[i..]) == AnyReal(b[i..])
  {
    RealAt(a, i);
    RealAt(b, i);
  }

  lemma RealAt(frames: seq<Frame>, i: nat)
    requires i <= |frames|
    ensures AnyReal(frames[i..]) <==> exists j | i <= j < |frames| :: !Provisional(frames[j])
  {
    var rest := frames[i..];
    if AnyReal(rest) {
      var f :| f in rest && !Provisional(f);
      var k :| 0 <= k < |rest| && rest[k] == f;
      assert !Provisional(frames[i + k]);
    }
    if j :| i <= j < |frames| && !Provisional(frames[j]) {
      assert rest[j - i] == frames[j];
    }
  }

  /** Dropping a provisional frame behind frame `k` leaves the judgement of `k`. */
  lemma DropSame(cfg: Config, lastId: nat, frames: seq<Frame>, k: nat, i: nat, now: int)
    requires k < i < |frames| && Provisional(frames[i]) && MustStay(cfg, lastId, frames, k, now)
    ensures MustStay(cfg, lastId, Without(frames, i), k, now)
  {
    var rest := Without(frames, i);
    RealAt(frames, k + 1);
    RealAt(rest, k + 1);
    forall j | k + 1 <= j < |rest| && !Provisional(rest[j]) ensures exists m | k + 1 <= m < |frames| :: !Provisional(frames[m]) {
      assert rest[j] == frames[if j < i then j else j + 1];
    }
  }

  /** Once a frame stays nothing more closes. */
  lemma {:induction false} StaysPut(cfg: Config, s: State, now: int, current: Option<nat>, i: nat, k: nat)
    requires k < i <= |s.frames| && MustStay(cfg, s.lastId, s.frames, k, now)
    requires forall j | 0 <= j < k :: Provisional(s.frames[j])
    ensures var t := CheckCompletion(cfg, s, now, current, i, false);
            && t.delivered == s.delivered && t.lastId == s.lastId && k < |t.frames|
            && t.frames[..k + 1] == s.frames[..k + 1] && MustStay(cfg, t.lastId, t.frames, k, now)
    decreases |s.frames| - i
  {
    hide MustStay, AskAgain;
    if i < |s.frames| {
      match Judge(cfg, s, i, false, now)
      case Discard =>
        DropSame(cfg, s.lastId, s.frames, k, i, now);
        assert DiscardFrame(cfg, s, i).frames[..k + 1] == s.frames[..k + 1];
        StaysPut(cfg, DiscardFrame(cfg, s, i), now, current, i, k);
      case Skip => StaysPut(cfg, s, now, current, i + 1, k);
      case Wait =>
        var f := s.frames[i];
        var t := if current != Some(f.frameId) && Since(now, f.lastTime) >= cfg.packetTimeout
                 then AskAgain(cfg, s, i, Max(|f.packets| - 1, 0), now) else s;
        AskedSame(cfg, s, i, Max(|f.packets| - 1, 0), now);
        AskedBehind(cfg, s, t, k, i, now);
        StaysPut(cfg, t, now, current, i + 1, k);
    }
  }

  lemma AskedBehind(cfg: Config, s: State, t: State, k: nat, i: nat, now: int)
    requires k < i < |s.frames| == |t.frames| && t.lastId == s.lastId && MustStay(cfg, s.lastId, s.frames, k, now)
    requires forall j | 0 <= j < |s.frames| && j != i :: t.frames[j] == s.frames[j]
    requires t.frames[i].replayOf == s.frames[i].replayOf
    ensures MustStay(cfg, t.lastId, t.frames, k, now) && t.frames[..k + 1] == s.frames[..k + 1]
  {
    RealsSame(s.frames, t.frames, k + 1);
  }

  lemma AskedHere(cfg: Config, s: State, t: State, i: nat, now: int)
    requires i < |s.frames| == |t.frames| && t.lastId == s.lastId && MustStay(cfg, s.lastId, s.frames, i, now)
    requires forall j | 0 <= j < |s.frames| && j != i :: t.frames[j] == s.frames[j]
    requires t.frames[i].replayOf == s.frames[i].replayOf && t.frames[i].prefix == s.frames[i].prefix
    requires t.frames[i].frameId == s.frames[i].frameId && t.frames[i].lastTime == s.frames[i].lastTime
    requires |t.frames[i].packets| == |s.frames[i].packets|
    ensures MustStay(cfg, t.lastId, t.frames, i, now)
  {
    RealsSame(s.frames, t.frames, i + 1);
  }

  lemma {:induction false} HeadChecked(cfg: Config, s: State, now: int, current: Option<nat>, i: nat)
    requires i <= |s.frames| && forall j | 0 <= j < i :: Provisional(s.frames[j])
    ensures var t := CheckCompletion(cfg, s, now, current, i, true); NothingToClose(cfg, t.lastId, t.frames, now)
    decreases |s.frames| - i
  {
    hide MustStay, AskAgain, NothingToClose;
    if i == |s.frames| {
      AllProvisional(cfg, s.lastId, s.frames, now);
    } else {
      match Judge(cfg, s, i, true, now)
      case Discard => HeadChecked(cfg, DiscardFrame(cfg, s, i), now, current, i);
      case Skip => HeadChecked(cfg, s, now, current, i + 1);
      case Close(status) => HeadChecked(cfg, CloseFrame(s, i, status), now, current, i);
      case Wait =>
        WaitStays(cfg, s, i, now);
        var f := s.frames[i];
        var t := if current != Some(f.frameId) && Since(now, f.lastTime) >= cfg.packetTimeout
                 then AskAgain(cfg, s, i, Max(|f.packets| - 1, 0), now) else s;
        AskedSame(cfg, s, i, Max(|f.packets| - 1, 0), now);
        AskedHere(cfg, s, t, i, now);
        StaysPut(cfg, t, now, current, i + 1, i);
        Found(cfg, CheckCompletion(cfg, t, now, current, i + 1, false), t.frames, i, now);
    }
  }

  lemma AllProvisional(cfg: Config, lastId: nat, frames: seq<Frame>, now: int)
    requires forall j | 0 <= j < |frames| :: Provisional(frames[j])
    ensures NothingToClose(cfg, lastId, frames, now)
  {
  }

  lemma Found(cfg: Config, t: State, before: seq<Frame>, i: nat, now: int)
    requires i < |t.frames| && i < |before| && t.frames[..i + 1] == before[..i + 1] && MustStay(cfg, t.lastId, t.frames, i, now)
    requires forall j | 0 <= j < i :: Provisional(before[j])
    ensures NothingToClose(cfg, t.lastId, t.frames, now)
  {
    forall j | 0 <= j < i ensures Provisional(t.frames[j]) { assert t.frames[j] == t.frames[..i + 1][j] == before[j]; }
  }

  /** Waiting is exactly having to stay. */
  lemma WaitStays(cfg: Config, s: State, i: nat, now: int)
    requires i < |s.frames|
    ensures Judge(cfg, s, i, true, now) == Wait <==> MustStay(cfg, s.lastId, s.frames, i, now)
  {
  }

  /** After an idle pass, or a packet's check, nothing closable is left at the head:
      the first real frame still misses packets, and it is fresh, or the newest with
      only its leader. */
  lemma NothingLingers(cfg: Config, s: State, now: int, current: Option<nat>)
    ensures var t := CheckCompletion(cfg, s, now, current, 0, true); NothingToClose(cfg, t.lastId, t.frames, now)
  {
    HeadChecked(cfg, s, now, current, 0);
  }

  /** The newest frame with only its leader in place never times out, however late
      the data comes. */
  lemma LeaderWaits(cfg: Config, s: State, f: Frame, now: int)
    requires s.frames == [f] && !Provisional(f) && f.frameId == s.lastId && f.prefix == 1 < |f.packets|
    ensures var t := Tick(cfg, s, now);
            t.delivered == s.delivered && |t.frames| == 1 && t.frames[0].frameId == f.frameId && t.frames[0].prefix == 1
  {
    hide AskAgain;
    assert s.frames[1..] == [];
    WaitStays(cfg, s, 0, now);
    var n := Max(|f.packets| - 1, 0);
    AskedSame(cfg, s, 0, n, now);
    var t := if Since(now, f.lastTime) >= cfg.packetTimeout then AskAgain(cfg, s, 0, n, now) else s;
    assert CheckCompletion(cfg, t, now, None, 1, false) == t;
  }
}
