/** Every frame of a device that keeps streaming is delivered once, in order and
    byte for byte; no late copy is delivered; skipped ids are counted exactly. */
module Delivery {
  import opened Gvsp
  import opened Reassembly
  import opened FrameContent
  import opened Receiver
  import opened ReceiverRuns
  import opened Bursts
  import opened Fingerprinting
  import opened Streaming

  const LATE_WINDOW: nat := 99
  const MAX_STEP: nat := 0x7fff

  // -------------------------------------------------------------- sender

  /** The device so far: its bursts, how far its counter had run at each, which
      packets of the latest are out, and when the last of those left. */
  datatype Sender = Sender(start: nat, extended: bool, bursts: seq<Burst>, pos: seq<nat>, got: set<nat>, lastAt: int) {
    function Latest(): Burst
      requires bursts != []
    {
      bursts[|bursts| - 1]
    }

    /** Every burst begun is out completely. */
    predicate Whole() { bursts == [] || got == Through(Latest().Last()) }

    /** Bursts of which a packet is out. */
    function Opened(): nat { if bursts != [] && got == {} then |bursts| - 1 else |bursts| }

    /** Bursts that are out completely. */
    function Finished(): nat { if Whole() then |bursts| else |bursts| - 1 }

    /** The latest burst is out in part. */
    predicate Open() { Opened() > Finished() }
  }

  datatype Act =
    | Begin(burst: Burst, step: nat)
    | Own(view: View, at: int)
    | Copy(index: nat, view: View, at: int)
    | Pass(at: int)
    | Junk(at: int)
    | Drop(index: nat)

  ghost predicate WellSent(cfg: Config, w: Sender) {
    && cfg.retention >= 1 && 1 <= w.start <= MaxId(w.extended) && |w.pos| == |w.bursts|
    && (forall k | 0 <= k < |w.bursts| ::
          && Suits(cfg, w.bursts[k]) && w.bursts[k].extended == w.extended
          && w.bursts[k].id == Advance(w.start, w.pos[k], w.extended))
    && (w.pos != [] ==> w.pos[0] == 0)
    && (forall k | 0 < k < |w.pos| :: StepAt(w.pos, k))
    && (w.bursts == [] ==> w.got == {})
    && (w.bursts != [] ==> forall i | i in w.got :: i <= w.Latest().Last())
  }

  predicate StepAt(pos: seq<nat>, k: nat)
    requires 0 < k < |pos|
  {
    1 <= pos[k] - pos[k - 1] <= MAX_STEP
  }

  predicate InWindow(cfg: Config, w: Sender, at: int) { w.Open() ==> at - w.lastAt < cfg.retention }

  /** What the device, the network and the consumers may do next. */
  ghost predicate Legal(cfg: Config, w: Sender, s: State, a: Act) {
    match a
    case Begin(b, step) =>
      && w.Whole() && Suits(cfg, b) && b.extended == w.extended
      && (if w.bursts == [] then step == 0 && b.id == w.start
          else 1 <= step <= MAX_STEP && b.id == Advance(w.Latest().id, step, w.extended))
    case Own(view, at) =>
      && !w.Whole() && w.Latest().Sends(view)
      && (if w.got == {} then |s.loaned| < cfg.buffers else at - w.lastAt < cfg.retention)
    case Copy(i, view, at) =>
      && i < w.Finished() && w.bursts[i].Sends(view) && |w.pos| == |w.bursts|
      && w.pos[|w.pos| - 1] - w.pos[i] <= LATE_WINDOW && InWindow(cfg, w, at)
    case Pass(at) => InWindow(cfg, w, at)
    case Junk(at) => true
    case Drop(i) => true
  }

  function Send(w: Sender, a: Act): Sender {
    match a
    case Begin(b, step) =>
      w.(bursts := w.bursts + [b], pos := w.pos + [if w.pos == [] then 0 else w.pos[|w.pos| - 1] + step], got := {})
    case Own(view, at) => w.(got := w.got + {view.packetId}, lastAt := at)
    case _ => w
  }

  function Receive(cfg: Config, s: State, a: Act): State {
    match a
    case Begin(_, _) => s
    case Own(view, at) => ProcessPacket(cfg, s, Some(view), at)
    case Copy(_, view, at) => ProcessPacket(cfg, s, Some(view), at)
    case Pass(at) => Tick(cfg, s, at)
    case Junk(at) => ProcessPacket(cfg, s, None, at)
    case Drop(i) => Step(cfg, s, Dropped(i))
  }

  // ----------------------------------------------------- the joint state

  function ClosedOf(b: Burst): Closed { Closed(b.id, b.extended, Some(FullPrints(b))) }

  function ClosedBlocks(bursts: seq<Burst>): (r: seq<Closed>)
    ensures |r| == |bursts|
  {
    seq(|bursts|, i requires 0 <= i < |bursts| => ClosedOf(bursts[i]))
  }

  /** The most recent entries, as many as the history holds. */
  function Recent(blocks: seq<Closed>): seq<Closed> {
    if |blocks| <= HISTORY_LEN then blocks else blocks[|blocks| - HISTORY_LEN..]
  }

  /** The subscriber got this burst's image. */
  ghost predicate Shows(d: Delivered, b: Burst) {
    d.status == Complete && d.frame.frameId == b.id && Data(d) == b.image
  }

  /** Burst `p` is recent enough for its copies to be told from a restart. */
  ghost predicate Recallable(w: Sender, p: nat)
    requires |w.pos| == |w.bursts|
  {
    p < w.Finished() && w.bursts[p].id == RESTART_BLOCK_ID && w.pos[w.Opened() - 1] - w.pos[p] <= LATE_WINDOW
  }

  ghost predicate FramesFollow(cfg: Config, w: Sender, frames: seq<Frame>)
    requires |w.pos| == |w.bursts|
  {
    && (if w.bursts == [] then frames == [] else Lineup(cfg, frames, w.Latest(), w.got, w.lastAt, w.Open()))
    && (|frames| > (if w.Open() then 1 else 0) ==>
          exists p: nat :: Recallable(w, p) && EchoIs(frames[|frames| - 1], w.bursts[p]))
  }

  ghost predicate PositionFollows(w: Sender, s: State)
    requires |w.pos| == |w.bursts|
  {
    var n := w.Opened();
    && (s.first <==> n == 0)
    && (n > 0 ==> s.lastId == w.bursts[n - 1].id && s.stats.missingFrames == w.pos[n - 1] - (n - 1))
    && (n == 0 ==> s.stats.missingFrames == 0)
  }

  /** The receiver has delivered exactly what the device has finished sending. */
  ghost predicate Follows(cfg: Config, w: Sender, s: State) {
    && WellSent(cfg, w) && Inv(cfg, s) && PositionFollows(w, s) && FramesFollow(cfg, w, s.frames)
    && s.history == Recent(ClosedBlocks(w.bursts[..w.Finished()]))
    && |s.delivered| == w.Finished() && (forall k | 0 <= k < |s.delivered| :: Shows(s.delivered[k], w.bursts[k]))
  }

  // ------------------------------------------------------- counter facts

  lemma {:induction false} PosGrows(cfg: Config, w: Sender, i: nat, k: nat)
    requires WellSent(cfg, w) && i <= k < |w.pos|
    ensures w.pos[k] - w.pos[i] >= k - i
    decreases k - i
  {
    if i < k {
      PosGrows(cfg, w, i, k - 1);
      assert StepAt(w.pos, k);
    }
  }

  lemma {:induction false} AdvanceSum(id: nat, a: nat, c: nat, extended: bool)
    ensures Advance(Advance(id, a, extended), c, extended) == Advance(id, a + c, extended)
  {
    if c > 0 { AdvanceSum(id, a, c - 1, extended); }
  }

  /** Ids less than a ring apart differ. */
  lemma IdsDiffer(cfg: Config, w: Sender, i: nat, k: nat)
    requires WellSent(cfg, w) && i < |w.pos| && k < |w.pos| && 0 < w.pos[k] - w.pos[i] < 0xffff
    ensures w.bursts[i].id != w.bursts[k].id
  {
    hide Advance, Suits;
    var m, d := MaxId(w.extended), w.pos[k] - w.pos[i];
    AdvanceOnRing(w.start, w.pos[i], w.extended);
    AdvanceSum(w.start, w.pos[i], d, w.extended);
    AdvanceOnRing(w.bursts[i].id, d, w.extended);
    var x := w.bursts[i].id - 1 + d;
    if x < m { DivisionUnique(x, m, 0, x); } else { DivisionUnique(x, m, 1, x - m); }
  }

  /** How far behind the receiver's position an earlier burst is. */
  lemma BehindBy(cfg: Config, w: Sender, i: nat, k: nat)
    requires WellSent(cfg, w) && i <= k < |w.pos| && w.pos[k] - w.pos[i] <= LATE_WINDOW
    ensures -DISCARD_LATE_FRAME_THRESHOLD < BlockIdDistance(w.bursts[i].id, w.bursts[k].id, w.extended) < 1
  {
    hide Advance, BlockIdDistance, Suits;
    PosGrows(cfg, w, i, k);
    AdvanceOnRing(w.start, w.pos[i], w.extended);
    AdvanceSum(w.start, w.pos[i], w.pos[k] - w.pos[i], w.extended);
    DistanceOfAdvance(w.bursts[i].id, w.pos[k] - w.pos[i], w.extended);
  }

  // ------------------------------------------------------------- history

  lemma RecentMore(blocks: seq<Closed>, c: Closed)
    ensures Remember(Recent(blocks), c) == Recent(blocks + [c])
  {
  }

  lemma {:induction false} FindLatest(history: seq<Closed>, j: nat)
    requires j < |history|
    requires forall k | j < k < |history| ::
               !(history[k].frameId == history[j].frameId && history[k].extended == history[j].extended)
    ensures FindClosed(history, history[j].frameId, history[j].extended) == Some(history[j])
    decreases |history|
  {
    if j < |history| - 1 { FindLatest(history[..|history| - 1], j); }
  }

  /** The latest block with burst `i`'s id is burst `i`. */
  lemma HistoryFinds(cfg: Config, w: Sender, history: seq<Closed>, i: nat)
    requires WellSent(cfg, w) && i < w.Finished() && history == Recent(ClosedBlocks(w.bursts[..w.Finished()]))
    requires w.pos[|w.pos| - 1] - w.pos[i] <= LATE_WINDOW
    ensures FindClosed(history, w.bursts[i].id, w.extended) == Some(ClosedOf(w.bursts[i]))
  {
    hide FullPrints, Advance, Suits, FindClosed, ClosedBlocks, Recent;
    var m := w.Finished();
    PosGrows(cfg, w, i, m - 1);
    PosGrows(cfg, w, m - 1, |w.pos| - 1);
    var skip := RecentAt(w.bursts[..m], history);
    forall k | i - skip < k < |history| ensures history[k].frameId != w.bursts[i].id {
      PosGrows(cfg, w, i, k + skip);
      PosGrows(cfg, w, k + skip, |w.pos| - 1);
      IdsDiffer(cfg, w, i, k + skip);
    }
    FindLatest(history, i - skip);
  }

  /** The history holds the latest blocks, `skip` older ones forgotten. */
  lemma RecentAt(bursts: seq<Burst>, history: seq<Closed>) returns (skip: nat)
    requires history == Recent(ClosedBlocks(bursts))
    ensures |history| + skip == |bursts| && (skip > 0 ==> |history| == HISTORY_LEN)
    ensures forall k | 0 <= k < |history| :: history[k] == ClosedOf(bursts[k + skip])
  {
    hide FullPrints;
    var blocks := ClosedBlocks(bursts);
    skip := if |blocks| <= HISTORY_LEN then 0 else |blocks| - HISTORY_LEN;
  }

  /** A copy of an earlier burst is recognised as behind, and found in the history. */
  lemma CopyClassified(cfg: Config, w: Sender, s: State, i: nat, view: View)
    requires Follows(cfg, w, s) && i < w.Finished() && w.bursts[i].Sends(view)
    requires w.pos[|w.pos| - 1] - w.pos[i] <= LATE_WINDOW
    ensures Classify(s, view)
            == if view.frameId != RESTART_BLOCK_ID then Late else MaybeReplay(FullPrints(w.bursts[i]))
  {
    hide Inv, FramesFollow, FullPrints, BlockIdDistance, Advance, Suits, Shows, Recent, ClosedBlocks, FindClosed;
    var n := w.Opened();
    assert w.Finished() <= n && w.bursts[i].extended == w.extended;
    PosGrows(cfg, w, n - 1, |w.pos| - 1);
    BehindBy(cfg, w, i, n - 1);
    HistoryFinds(cfg, w, s.history, i);
  }

  // -------------------------------------------- before the frame is closed

  ghost predicate EchoFollows(w: Sender, frames: seq<Frame>, open: bool)
    requires |w.pos| == |w.bursts|
  {
    |frames| > (if open then 1 else 0) ==>
      exists p: nat :: Recallable(w, p) && EchoIs(frames[|frames| - 1], w.bursts[p])
  }

  ghost predicate DeliveredFirst(bursts: seq<Burst>, s: State, n: nat)
    requires n <= |bursts|
  {
    && s.history == Recent(ClosedBlocks(bursts[..n]))
    && |s.delivered| == n && (forall k | 0 <= k < n :: Shows(s.delivered[k], bursts[k]))
  }

  /** As `Follows`, but the latest burst's frame may still be open though full. */
  ghost predicate Nearly(cfg: Config, w: Sender, u: State, open: bool) {
    && WellSent(cfg, w) && w.bursts != [] && PositionFollows(w, u)
    && (if open then w.got != {} else !w.Open())
    && DeliveredFirst(w.bursts, u, if open then |w.bursts| - 1 else w.Finished())
    && Lineup(cfg, u.frames, w.Latest(), w.got, w.lastAt, open) && EchoFollows(w, u.frames, open)
  }

  lemma FollowsNearly(cfg: Config, w: Sender, s: State)
    requires Follows(cfg, w, s) && w.bursts != []
    ensures Nearly(cfg, w, s, w.Open())
  {
    hide Inv, WellSent, Lineup, Shows, Recent, ClosedBlocks;
  }

  lemma NearlyFollows(cfg: Config, w: Sender, s: State)
    requires Nearly(cfg, w, s, w.Open()) && Inv(cfg, s)
    ensures Follows(cfg, w, s)
  {
    hide Inv, WellSent, Lineup, Shows, Recent, ClosedBlocks;
  }

  lemma SettledFollows(cfg: Config, w: Sender, u: State, t: State, open: bool)
    requires Nearly(cfg, w, u, open) && Settled(cfg, u, t, w.Latest(), w.got, w.lastAt, open) && Inv(cfg, t)
    ensures Follows(cfg, w, t)
  {
    hide Inv, RealIs, Recent, ClosedBlocks, Remember, Shows, Recallable, Lineup;
    if open && w.got == Through(w.Latest().Last()) {
      ClosedFollows(cfg, w, u, t);
    }
    assert EchoFollows(w, t.frames, w.Open());
  }

  /** The latest burst's frame has just closed: delivered and remembered. */
  lemma ClosedFollows(cfg: Config, w: Sender, u: State, t: State)
    requires Nearly(cfg, w, u, true) && w.got == Through(w.Latest().Last())
    requires Settled(cfg, u, t, w.Latest(), w.got, w.lastAt, true)
    ensures w.Finished() == |w.bursts| == |t.delivered| && t.history == Recent(ClosedBlocks(w.bursts))
    ensures w.bursts[..w.Finished()] == w.bursts
    ensures forall k | 0 <= k < |t.delivered| :: Shows(t.delivered[k], w.bursts[k])
  {
    hide Inv, RealIs, Recent, ClosedBlocks, Remember, Shows, Recallable, PositionFollows, EchoFollows;
    var n := |w.bursts| - 1;
    ShowsBurst(cfg, w.Latest(), u.frames[0], w.lastAt) by { WellSentLatest(cfg, w); }
    RecentMore(ClosedBlocks(w.bursts[..n]), ClosedOf(w.Latest()));
    MoreBlocks(w.bursts, n);
    assert w.bursts[..n + 1] == w.bursts;
  }

  lemma WellSentLatest(cfg: Config, w: Sender)
    requires WellSent(cfg, w) && w.bursts != []
    ensures Suits(cfg, w.Latest()) && w.Latest().extended == w.extended && cfg.retention >= 1
    ensures |w.pos| == |w.bursts|
  {
  }

  lemma MoreBlocks(bursts: seq<Burst>, n: nat)
    requires n < |bursts|
    ensures ClosedBlocks(bursts[..n]) + [ClosedOf(bursts[n])] == ClosedBlocks(bursts[..n + 1])
  {
    hide FullPrints;
  }

  lemma ShowsBurst(cfg: Config, b: Burst, f: Frame, at: int)
    requires Suits(cfg, b) && RealIs(cfg, b, f, Through(b.Last()), at)
    ensures Shows(Delivered(Complete, f), b) && f.prints == FullPrints(b)
    ensures f.frameId == b.id && f.extended == b.extended
  {
    hide Reliable, FlagsAre, Taken, SizedFor, PrintsOf;
    FilledData(cfg, b, f);
    ReliableSize(cfg, f);
  }

  // ----------------------------------------------------------- quiet acts

  lemma BeginFollows(cfg: Config, w: Sender, s: State, b: Burst, step: nat)
    requires Follows(cfg, w, s) && Legal(cfg, w, s, Begin(b, step))
    ensures Follows(cfg, Send(w, Begin(b, step)), s)
  {
    hide Inv, Suits, RealIs, Recent, ClosedBlocks, Shows, EchoIs, Through;
    var v := Send(w, Begin(b, step));
    assert v.bursts[..|w.bursts|] == w.bursts && w.bursts[..|w.bursts|] == w.bursts;
    ThroughSome(b.Last());
    if w.bursts != [] {
      ThroughSome(w.Latest().Last());
      AdvanceSum(w.start, w.pos[|w.pos| - 1], step, w.extended);
    }
    BeginWellSent(cfg, w, b, step);
    assert v.Opened() == w.Opened() == |w.bursts| && v.Finished() == w.Finished() == |w.bursts|;
    if |s.frames| > 0 {
      var p: nat :| Recallable(w, p) && EchoIs(s.frames[|s.frames| - 1], w.bursts[p]);
      assert Recallable(v, p) && v.bursts[p] == w.bursts[p];
    }
  }

  lemma ThroughSome(n: nat)
    ensures Through(n) != {}
  {
    assert 0 in Through(n);
  }

  lemma BeginWellSent(cfg: Config, w: Sender, b: Burst, step: nat)
    requires WellSent(cfg, w) && Suits(cfg, b) && b.extended == w.extended
    requires if w.bursts == [] then step == 0 && b.id == w.start
             else 1 <= step <= MAX_STEP && b.id == Advance(w.start, w.pos[|w.pos| - 1] + step, w.extended)
    ensures WellSent(cfg, Send(w, Begin(b, step)))
  {
    hide Suits;
    var v := Send(w, Begin(b, step));
    forall k | 0 < k < |v.pos| ensures StepAt(v.pos, k) {
      if k < |w.pos| { assert StepAt(w.pos, k); }
    }
  }

  lemma PassFollows(cfg: Config, w: Sender, s: State, at: int)
    requires Follows(cfg, w, s) && InWindow(cfg, w, at)
    ensures Follows(cfg, w, Tick(cfg, s, at))
  {
    hide Inv, CheckCompletion, Settled, RealIs, DeliveredFirst, Recent, ClosedBlocks, Shows;
    CheckKeeps(cfg, s, at, None, 0, true);
    if w.bursts == [] {
      NoFrames(cfg, s, at, None);
    } else {
      FollowsNearly(cfg, w, s);
      WellSentLatest(cfg, w);
      CheckSettles(cfg, s, at, None, w.Latest(), w.got, w.lastAt, w.Open());
      SettledFollows(cfg, w, s, Tick(cfg, s, at), w.Open());
    }
  }

  lemma NoFrames(cfg: Config, s: State, now: int, current: Option<nat>)
    requires s.frames == []
    ensures CheckCompletion(cfg, s, now, current, 0, true) == s
  {
  }

  lemma DropFollows(cfg: Config, w: Sender, s: State, i: nat)
    requires Follows(cfg, w, s)
    ensures Follows(cfg, w, Step(cfg, s, Dropped(i)))
  {
    hide Inv, FramesFollow, WellSent, Shows, Recent, ClosedBlocks;
    if i < |s.loaned| { DropKeeps(cfg, s, i); }
  }

  // -------------------------------------------------------------- copies

  lemma SameEcho(cfg: Config, w: Sender, p: nat, i: nat)
    requires WellSent(cfg, w) && Recallable(w, p) && Recallable(w, i)
    ensures p == i
  {
    hide Suits, Advance;
    var n := w.Opened() - 1;
    if p < i {
      PosGrows(cfg, w, p, i);
      PosGrows(cfg, w, i, n);
      IdsDiffer(cfg, w, p, i);
    } else if i < p {
      PosGrows(cfg, w, i, p);
      PosGrows(cfg, w, p, n);
      IdsDiffer(cfg, w, i, p);
    }
  }

  /** A copy finds no frame but the provisional one. */
  lemma CopyRoutes(cfg: Config, w: Sender, s: State, i: nat, view: View)
    requires Follows(cfg, w, s) && i < w.Finished() && w.bursts[i].Sends(view)
    requires w.pos[|w.pos| - 1] - w.pos[i] <= LATE_WINDOW
    ensures var k := FindFrame(s.frames, view.frameId);
            && (k < |s.frames| ==> k == |s.frames| - 1 == (if w.Open() then 1 else 0) && view.frameId == RESTART_BLOCK_ID
                                   && Recallable(w, i) && EchoIs(s.frames[k], w.bursts[i]))
            && (k == |s.frames| ==> (view.frameId == RESTART_BLOCK_ID ==> |s.frames| == (if w.Open() then 1 else 0)))
            && (view.frameId == RESTART_BLOCK_ID ==> Recallable(w, i))
  {
    hide Inv, Suits, Filling, PrintsOf, Recent, ClosedBlocks, Shows, FullPrints, Advance;
    var n := w.Opened();
    PosGrows(cfg, w, n - 1, |w.pos| - 1);
    if w.Open() {
      PosGrows(cfg, w, i, |w.pos| - 1);
      IdsDiffer(cfg, w, i, |w.pos| - 1);
    }
    if |s.frames| > (if w.Open() then 1 else 0) {
      var p: nat :| Recallable(w, p) && EchoIs(s.frames[|s.frames| - 1], w.bursts[p]);
      if view.frameId == RESTART_BLOCK_ID { SameEcho(cfg, w, p, i); }
    }
  }

  /** A copy handed to the provisional frame leaves the device's frame alone. */
  lemma EchoTaken(cfg: Config, w: Sender, s: State, i: nat, view: View, at: int)
    requires Nearly(cfg, w, s, w.Open()) && Inv(cfg, s) && InWindow(cfg, w, at)
    requires Recallable(w, i) && w.bursts[i].Sends(view)
    requires |s.frames| == (if w.Open() then 2 else 1) && EchoIs(s.frames[|s.frames| - 1], w.bursts[i])
    ensures Follows(cfg, w, Take(cfg, s, |s.frames| - 1, view, at))
  {
    hide Inv, Take, Settled, Lineup, WellSent, EchoFollows, DeliveredFirst, EchoIs, PositionFollows, Through;
    TakeKeeps(cfg, s, |s.frames| - 1, view, at);
    WellSentLatest(cfg, w);
    var u := TakeEcho(cfg, s, w.Latest(), w.got, w.lastAt, w.Open(), w.bursts[i], view, at);
    var t := Take(cfg, s, |s.frames| - 1, view, at);
    NearlySame(cfg, w, s, u, w.Open(), i);
    if t == u { NearlyFollows(cfg, w, t); } else { SettledFollows(cfg, w, u, t, w.Open()); }
  }

  lemma NearlySame(cfg: Config, w: Sender, s: State, u: State, open: bool, i: nat)
    requires Nearly(cfg, w, s, open) && Recallable(w, i)
    requires u.history == s.history && u.delivered == s.delivered && u.lastId == s.lastId && u.first == s.first
          && u.stats == s.stats
    requires Lineup(cfg, u.frames, w.Latest(), w.got, w.lastAt, open)
    requires |u.frames| > 0 && EchoIs(u.frames[|u.frames| - 1], w.bursts[i])
    ensures Nearly(cfg, w, u, open)
  {
    hide Lineup, WellSent, Recallable, EchoIs, Recent, ClosedBlocks, Shows;
  }

  lemma CopyFollows(cfg: Config, w: Sender, s: State, i: nat, view: View, at: int)
    requires Follows(cfg, w, s) && Legal(cfg, w, s, Copy(i, view, at))
    ensures Follows(cfg, w, ProcessPacket(cfg, s, Some(view), at))
  {
    hide Inv, Take, RealIs, Recent, ClosedBlocks, Shows, Classify, FullPrints, WellSent, EchoIs, OpenNew, OpenProvisional;
    assert !s.first && Start(s, view) == s;
    CopyRoutes(cfg, w, s, i, view);
    CopyClassified(cfg, w, s, i, view);
    FollowsNearly(cfg, w, s);
    RouteKeeps(cfg, s, view, at);
    var k := FindFrame(s.frames, view.frameId);
    var routed := FindOrCreate(cfg, s, view, at);
    if k < |s.frames| {
      var t := routed.state;
      EchoTouched(s.frames[k], w.bursts[i], at);
      NearlySame(cfg, w, s, t, w.Open(), i);
      EchoTaken(cfg, w, t, i, view, at);
    } else if view.frameId == RESTART_BLOCK_ID {
      CopyOpens(cfg, w, s, i, view, at);
    }
  }

  lemma EchoTouched(f: Frame, e: Burst, at: int)
    requires EchoIs(f, e)
    ensures EchoIs(f.(lastTime := at), e) && Provisional(f.(lastTime := at))
  {
  }

  lemma CopyOpens(cfg: Config, w: Sender, s: State, i: nat, view: View, at: int)
    requires Nearly(cfg, w, s, w.Open()) && Inv(cfg, s) && InWindow(cfg, w, at)
    requires Recallable(w, i) && w.bursts[i].Sends(view) && |s.frames| == (if w.Open() then 1 else 0)
    requires FindFrame(s.frames, view.frameId) == |s.frames|
    ensures var routed := OpenProvisional(cfg, s, view, at, FullPrints(w.bursts[i]));
            if routed.index.Some?
            then routed.index.value == |routed.state.frames| - 1
                 && Follows(cfg, w, Take(cfg, routed.state, routed.index.value, view, at))
            else Follows(cfg, w, routed.state)
  {
    hide Inv, Take, RealIs, Recent, ClosedBlocks, Shows, FullPrints, WellSent, ExpectedPackets, EstimatedBlock;
    OpenProvisionalKeeps(cfg, s, view, at, FullPrints(w.bursts[i]));
    var routed := OpenProvisional(cfg, s, view, at, FullPrints(w.bursts[i]));
    if routed.index.Some? {
      var t := routed.state;
      assert EchoIs(t.frames[|t.frames| - 1], w.bursts[i]);
      NearlySame(cfg, w, s, t, w.Open(), i);
      EchoTaken(cfg, w, t, i, view, at);
    } else {
      NearlyFollows(cfg, w, s);
    }
  }

  // -------------------------------------------------------- own packets

  lemma OwnWellSent(cfg: Config, w: Sender, view: View, at: int)
    requires WellSent(cfg, w) && w.bursts != [] && w.Latest().Sends(view)
    ensures WellSent(cfg, Send(w, Own(view, at)))
  {
    hide Suits, Advance, StepAt;
  }

  lemma RecallableKept(w: Sender, v: Sender, p: nat)
    requires |w.pos| == |w.bursts| && Recallable(w, p) && !w.Whole()
    requires v.bursts == w.bursts && v.pos == w.pos && (v.Opened() == w.Opened())
    ensures Recallable(v, p)
  {
  }

  lemma EchoKept(w: Sender, v: Sender, before: seq<Frame>, after: seq<Frame>, open: bool)
    requires |w.pos| == |w.bursts| && EchoFollows(w, before, open) && !w.Whole()
    requires v.bursts == w.bursts && v.pos == w.pos && v.Opened() == w.Opened()
    requires |after| == |before|
    requires forall k | (if open then 1 else 0) <= k < |before| :: after[k].replayOf == before[k].replayOf
                                                                  && after[k].frameId == before[k].frameId
    ensures EchoFollows(v, after, open)
  {
    hide FullPrints;
    if |before| > (if open then 1 else 0) {
      var p: nat :| Recallable(w, p) && EchoIs(before[|before| - 1], w.bursts[p]);
      RecallableKept(w, v, p);
      assert EchoIs(after[|after| - 1], v.bursts[p]);
    }
  }

  /** A packet of the latest burst whose frame is already open. */
  lemma OwnMore(cfg: Config, w: Sender, s: State, view: View, at: int)
    requires Follows(cfg, w, s) && Legal(cfg, w, s, Own(view, at)) && w.got != {}
    ensures Follows(cfg, Send(w, Own(view, at)), ProcessPacket(cfg, s, Some(view), at))
  {
    hide Inv, Take, Recent, ClosedBlocks, Shows, WellSent, EchoIs, Filling, PrintsOf, Recallable, Through, EchoFollows;
    FollowsNearly(cfg, w, s);
    RouteKeeps(cfg, s, view, at);
    assert Start(s, view) == s && FindFrame(s.frames, view.frameId) == 0;
    var t := FindOrCreate(cfg, s, view, at).state;
    assert t.frames[0] == s.frames[0].(lastTime := at);
    TouchedReal(cfg, w.Latest(), s.frames[0], w.got, w.lastAt, at);
    OwnTaken(cfg, w, s, t, view, at);
  }

  lemma TouchedReal(cfg: Config, b: Burst, f: Frame, got: set<nat>, at: int, now: int)
    requires RealIs(cfg, b, f, got, at)
    ensures RealIs(cfg, b, f.(lastTime := now), got, now)
  {
  }

  lemma OwnTaken(cfg: Config, w: Sender, s: State, t: State, view: View, at: int)
    requires Nearly(cfg, w, s, true) && !w.Whole() && Inv(cfg, t) && w.Latest().Sends(view)
    requires t == s.(frames := t.frames) && |t.frames| == |s.frames|
    requires Lineup(cfg, t.frames, w.Latest(), w.got, at, true)
    requires forall k | 1 <= k < |s.frames| :: t.frames[k] == s.frames[k]
    ensures Follows(cfg, Send(w, Own(view, at)), Take(cfg, t, 0, view, at))
  {
    hide Inv, Take, Settled, RealIs, Shows, Recent, ClosedBlocks, WellSent, EchoFollows, Through;
    var v := Send(w, Own(view, at));
    WellSentLatest(cfg, w);
    OwnWellSent(cfg, w, view, at);
    TakeKeeps(cfg, t, 0, view, at);
    var u := TakeOwn(cfg, t, w.Latest(), w.got, view, at);
    if view.packetId in w.got {
      assert w.got + {view.packetId} == w.got;
      EchoKept(w, v, s.frames, t.frames, true);
      assert Nearly(cfg, v, t, true);
      NearlyFollows(cfg, v, t);
    } else {
      EchoKept(w, v, s.frames, u.frames, true);
      assert Nearly(cfg, v, u, true);
      SettledFollows(cfg, v, u, Take(cfg, t, 0, view, at), true);
    }
  }

  lemma DiscardEcho(cfg: Config, s: State)
    requires |s.frames| <= 1 && forall f | f in s.frames :: Provisional(f)
    requires |s.free| + |s.frames| <= cfg.buffers
    ensures var t := DiscardProvisional(cfg, s);
            && t == s.(frames := [], free := t.free) && |t.free| == |s.free| + |s.frames|
  {
    if s.frames != [] {
      assert s.frames[0] in s.frames;
      assert FirstProvisional(s.frames) == 0;
      var t := DiscardFrame(cfg, s, 0);
      assert t.frames == [];
      assert DiscardProvisional(cfg, t) == t;
    }
  }

  /** Steps the counter took to the latest burst. */
  function Gap(pos: seq<nat>): int {
    if |pos| < 2 then 1 else pos[|pos| - 1] as int - pos[|pos| - 2] as int
  }

  /** How far the receiver takes the first packet of a burst to be ahead. */
  lemma FirstAhead(cfg: Config, w: Sender, lastId: nat)
    requires WellSent(cfg, w) && w.bursts != []
    requires if |w.bursts| == 1 then lastId == w.Latest().id - 1 else lastId == w.bursts[|w.bursts| - 2].id
    ensures BlockIdDistance(w.Latest().id, lastId, w.extended) == Gap(w.pos)
  {
    hide Advance, BlockIdDistance, Suits;
    var n := |w.bursts| - 1;
    if n == 0 {
      SuitsId(cfg, w.Latest());
      StepFromBefore(w.Latest().id, w.extended);
    } else {
      assert StepAt(w.pos, n);
      AdvanceOnRing(w.start, w.pos[n - 1], w.extended);
      AdvanceSum(w.start, w.pos[n - 1], w.pos[n] - w.pos[n - 1], w.extended);
      DistanceOfAdvance(w.bursts[n - 1].id, w.pos[n] - w.pos[n - 1], w.extended);
    }
  }

  lemma StepFromBefore(id: nat, extended: bool)
    requires 1 <= id <= MaxId(extended)
    ensures BlockIdDistance(id, id - 1, extended) == 1
  {
    var m := MaxId(extended);
    DivisionUnique(id, m + 1, 0, id);
    DivisionUnique(id - 1, m + 1, 0, id - 1);
    var modulus := m + if id == 1 then 1 else 0;
    DivisionUnique(modulus + 1, modulus, 1, 1);
  }

  /** No frame carries the id of a burst that has only begun. */
  lemma FirstRoutes(cfg: Config, w: Sender, s: State, view: View)
    requires Follows(cfg, w, s) && w.bursts != [] && w.got == {} && w.Latest().Sends(view)
    ensures FindFrame(s.frames, view.frameId) == |s.frames| <= 1
    ensures forall f | f in s.frames :: Provisional(f)
  {
    hide Inv, Suits, RealIs, Recent, ClosedBlocks, Shows, FullPrints, Advance, Through;
    if |s.frames| > 0 {
      var p: nat :| Recallable(w, p) && EchoIs(s.frames[|s.frames| - 1], w.bursts[p]);
      var n := |w.bursts| - 1;
      ThroughSome(w.Latest().Last());
      assert StepAt(w.pos, n);
      PosGrows(cfg, w, p, n - 1);
      IdsDiffer(cfg, w, p, n);
    }
  }

  /** The counter has taken a step since the burst before. */
  lemma FirstPosition(cfg: Config, w: Sender)
    requires WellSent(cfg, w) && w.bursts != []
    ensures var n := |w.pos| - 1; n > 0 ==> 1 <= w.pos[n] - w.pos[n - 1] <= MAX_STEP
    ensures |w.pos| == |w.bursts| && w.pos[0] == 0
  {
    if |w.pos| > 1 { assert StepAt(w.pos, |w.pos| - 1); }
  }

  lemma DiscardedSize(cfg: Config, s: State)
    requires Inv(cfg, s) && DiscardProvisional(cfg, s).free != []
    ensures |DiscardProvisional(cfg, s).free[0]| == cfg.payloadSize
  {
    hide Inv, DiscardProvisional;
    DiscardProvisionalKeeps(cfg, s);
    FreeSize(cfg, DiscardProvisional(cfg, s));
  }

  /** A packet of a burst that has no frame opens one, whatever copies are about. */
  lemma OpensReal(cfg: Config, b: Burst, s: State, view: View, at: int)
    requires Inv(cfg, s) && Suits(cfg, b) && b.Sends(view) && |s.loaned| < cfg.buffers
    requires |s.frames| <= 1 && forall f | f in s.frames :: Provisional(f)
    ensures var routed, inc := OpenNew(cfg, s, view, at), BlockIdDistance(view.frameId, s.lastId, view.extended);
            && routed.index == Some(0) && |routed.state.frames| == 1
            && RealIs(cfg, b, routed.state.frames[0], {}, at)
            && routed.state.lastId == view.frameId && routed.state.first == s.first
            && routed.state.stats.missingFrames == s.stats.missingFrames + (if inc > 1 then inc - 1 else 0)
            && routed.state.history == s.history && routed.state.delivered == s.delivered
  {
    hide Lined, InOrder, Ahead, AllGenuine, AllReliable, WithinBudget, CountsCover;
    hide BlockIdDistance, ExpectedPackets, Filling, DiscardProvisional, PrintsOf;
    DiscardEcho(cfg, s);
    var u := DiscardProvisional(cfg, s);
    DiscardedSize(cfg, s);
    NewFilling(cfg, b, u, view, at, u.free[0], None);
    PrintsNone(b);
  }

  /** The first packet of a burst opens its frame. */
  lemma FirstOpens(cfg: Config, w: Sender, s: State, view: View, at: int)
    requires Follows(cfg, w, s) && Legal(cfg, w, s, Own(view, at)) && w.got == {}
    ensures var routed := FindOrCreate(cfg, Start(s, view), view, at);
            && routed.index == Some(0) && |routed.state.frames| == 1
            && RealIs(cfg, w.Latest(), routed.state.frames[0], {}, at)
            && PositionFollows(Send(w, Own(view, at)), routed.state)
            && routed.state.history == s.history && routed.state.delivered == s.delivered
  {
    hide Inv, WellSent, Recent, ClosedBlocks, Shows, FramesFollow, BlockIdDistance, Through, OpenNew, RealIs, Suits, FindClosed;
    var t := Start(s, view);
    WellSentLatest(cfg, w);
    FirstRoutes(cfg, w, s, view);
    assert w.Latest().id >= 1 by { SuitsId(cfg, w.Latest()); }
    FirstAhead(cfg, w, t.lastId);
    FirstPosition(cfg, w);
    StartKeeps(cfg, s, view);
    OpensReal(cfg, w.Latest(), t, view, at);
    assert Classify(t, view) == New;
    assert FindOrCreate(cfg, t, view, at) == OpenNew(cfg, t, view, at);
  }

  lemma SuitsId(cfg: Config, b: Burst)
    requires Suits(cfg, b)
    ensures 1 <= b.id <= MaxId(b.extended)
  {
  }

  lemma OwnFirst(cfg: Config, w: Sender, s: State, view: View, at: int)
    requires Follows(cfg, w, s) && Legal(cfg, w, s, Own(view, at)) && w.got == {}
    ensures Follows(cfg, Send(w, Own(view, at)), ProcessPacket(cfg, s, Some(view), at))
  {
    hide Inv, WellSent, Recent, ClosedBlocks, Shows, Take, RealIs, FindOrCreate, Settled, PositionFollows, Lineup, EchoFollows;
    var v, b := Send(w, Own(view, at)), w.Latest();
    FirstOpens(cfg, w, s, view, at);
    StartKeeps(cfg, s, view);
    RouteKeeps(cfg, Start(s, view), view, at);
    var t := FindOrCreate(cfg, Start(s, view), view, at).state;
    TakeKeeps(cfg, t, 0, view, at);
    WellSentLatest(cfg, w);
    OwnWellSent(cfg, w, view, at);
    OneReal(cfg, t.frames, b, {}, at);
    var u := TakeOwn(cfg, t, b, {}, view, at);
    assert {} + {view.packetId} == v.got;
    PositionSame(v, t, u);
    NoEcho(v, u.frames);
    assert Nearly(cfg, v, u, true);
    SettledFollows(cfg, v, u, Take(cfg, t, 0, view, at), true);
  }

  lemma OneReal(cfg: Config, frames: seq<Frame>, b: Burst, got: set<nat>, at: int)
    requires |frames| == 1 && RealIs(cfg, b, frames[0], got, at)
    ensures Lineup(cfg, frames, b, got, at, true)
  {
  }

  lemma NoEcho(w: Sender, frames: seq<Frame>)
    requires |w.pos| == |w.bursts| && |frames| == 1
    ensures EchoFollows(w, frames, true)
  {
  }

  lemma PositionSame(w: Sender, s: State, t: State)
    requires |w.pos| == |w.bursts| && PositionFollows(w, s)
    requires t.lastId == s.lastId && t.first == s.first && t.stats == s.stats
    ensures PositionFollows(w, t)
  {
  }

  // ------------------------------------------------------------ every run

  /** Whatever happens next, the receiver keeps up with the device. */
  lemma ActFollows(cfg: Config, w: Sender, s: State, a: Act)
    requires Follows(cfg, w, s) && Legal(cfg, w, s, a)
    ensures Follows(cfg, Send(w, a), Receive(cfg, s, a))
  {
    hide Follows, ProcessPacket, Tick, Step;
    match a
    case Begin(b, step) => BeginFollows(cfg, w, s, b, step);
    case Own(view, at) => if w.got == {} { OwnFirst(cfg, w, s, view, at); } else { OwnMore(cfg, w, s, view, at); }
    case Copy(i, view, at) => CopyFollows(cfg, w, s, i, view, at);
    case Pass(at) => PassFollows(cfg, w, s, at);
    case Junk(at) => JunkIgnored(cfg, s, at);
    case Drop(i) => DropFollows(cfg, w, s, i);
  }

  lemma JunkIgnored(cfg: Config, s: State, at: int)
    ensures ProcessPacket(cfg, s, None, at) == s
  {
  }

  function Sent(w: Sender, acts: seq<Act>): Sender
    decreases |acts|
  {
    if acts == [] then w else Send(Sent(w, acts[..|acts| - 1]), acts[|acts| - 1])
  }

  function Received(cfg: Config, s: State, acts: seq<Act>): State
    decreases |acts|
  {
    if acts == [] then s else Receive(cfg, Received(cfg, s, acts[..|acts| - 1]), acts[|acts| - 1])
  }

  ghost predicate AllLegal(cfg: Config, w: Sender, s: State, acts: seq<Act>) {
    forall k | 0 <= k < |acts| :: Legal(cfg, Sent(w, acts[..k]), Received(cfg, s, acts[..k]), acts[k])
  }

  function Fresh(start: nat, extended: bool): Sender { Sender(start, extended, [], [], {}, 0) }

  lemma FreshFollows(cfg: Config, start: nat, extended: bool)
    requires cfg.payloadSize <= USIZE_MAX && cfg.retention >= 1 && 1 <= start <= MaxId(extended)
    ensures Follows(cfg, Fresh(start, extended), Initial(cfg))
  {
    hide Inv;
    InitialInv(cfg);
  }

  /** For every run: whatever the device has sent completely has been delivered,
      once, in order and byte for byte; nothing else has; and the missing-frame
      count is the number of ids the counter skipped. */
  lemma {:induction false} EveryFrameDelivered(cfg: Config, start: nat, extended: bool, acts: seq<Act>)
    requires cfg.payloadSize <= USIZE_MAX && cfg.retention >= 1 && 1 <= start <= MaxId(extended)
    requires AllLegal(cfg, Fresh(start, extended), Initial(cfg), acts)
    ensures Follows(cfg, Sent(Fresh(start, extended), acts), Received(cfg, Initial(cfg), acts))
    decreases |acts|
  {
    hide Follows, Legal, Send, Receive, Initial, Fresh;
    var w, s := Fresh(start, extended), Initial(cfg);
    if acts == [] {
      FreshFollows(cfg, start, extended);
    } else {
      var last := |acts| - 1;
      forall k | 0 <= k < last ensures acts[..last][..k] == acts[..k] {}
      EveryFrameDelivered(cfg, start, extended, acts[..last]);
      ActFollows(cfg, Sent(w, acts[..last]), Received(cfg, s, acts[..last]), acts[last]);
    }
  }

  /** After everything the device, the network and the consumers may do: the
      bursts that are out completely are delivered, each once, in order and byte
      for byte, nothing else is, and the skipped ids are counted exactly. */
  lemma StreamDelivered(cfg: Config, start: nat, extended: bool, acts: seq<Act>)
    requires cfg.payloadSize <= USIZE_MAX && cfg.retention >= 1 && 1 <= start <= MaxId(extended)
    requires AllLegal(cfg, Fresh(start, extended), Initial(cfg), acts)
    ensures var w, s := Sent(Fresh(start, extended), acts), Received(cfg, Initial(cfg), acts);
            && |s.delivered| == w.Finished() <= |w.bursts|
            && (forall k | 0 <= k < |s.delivered| :: Shows(s.delivered[k], w.bursts[k]))
            && |w.pos| == |w.bursts|
            && s.stats.missingFrames == if w.Opened() == 0 then 0 else w.pos[w.Opened() - 1] - (w.Opened() - 1)
  {
    hide Inv, FramesFollow, Recent, ClosedBlocks, Shows, AllLegal, Sent, Received, Initial, Fresh;
    EveryFrameDelivered(cfg, start, extended, acts);
  }

  // --------------------------------------------------- one burst, any order

  datatype Arriving = Arriving(view: View, at: int)

  function Ids(packets: seq<Arriving>): set<nat> { set p | p in packets :: p.view.packetId }

  function Events(packets: seq<Arriving>): seq<Event> {
    seq(|packets|, i requires 0 <= i < |packets| => Packet(Some(packets[i].view), packets[i].at))
  }

  ghost predicate Gapless(cfg: Config, packets: seq<Arriving>) {
    forall i, k | 0 <= i < k < |packets| && k == i + 1 :: packets[k].at - packets[i].at < cfg.retention
  }

  lemma {:induction false} BurstRun(cfg: Config, b: Burst, packets: seq<Arriving>) returns (w: Sender)
    requires Suits(cfg, b) && cfg.retention >= 1 && cfg.buffers >= 1
    requires (forall p | p in packets :: b.Sends(p.view)) && Gapless(cfg, packets)
    ensures Follows(cfg, w, Run(cfg, Initial(cfg), Events(packets)))
    ensures w.bursts == [b] && w.got == Ids(packets)
    ensures packets != [] && w.Open() ==> w.lastAt == packets[|packets| - 1].at
    decreases |packets|
  {
    hide Follows, ProcessPacket, Through, Suits, Initial, Gapless, Ids, Events, Tick, DropFrame, FlushFrames;
    if packets == [] {
      w := BurstBegins(cfg, b);
      NoPackets(packets);
    } else {
      var n := |packets| - 1;
      var init, last := packets[..n], packets[n];
      PacketsSplit(cfg, packets);
      if n == 0 { NoPackets(init); }
      var v := BurstRun(cfg, b, init);
      w := BurstNext(cfg, b, v, Run(cfg, Initial(cfg), Events(init)), last.view, last.at);
    }
  }

  lemma NoPackets(packets: seq<Arriving>)
    requires packets == []
    ensures Events(packets) == [] && Ids(packets) == {}
  {}

  lemma PacketsSplit(cfg: Config, packets: seq<Arriving>)
    requires packets != [] && Gapless(cfg, packets)
    ensures var n := |packets| - 1;
            && Gapless(cfg, packets[..n]) && packets[n] in packets && (forall p | p in packets[..n] :: p in packets)
            && Ids(packets) == Ids(packets[..n]) + {packets[n].view.packetId}
            && |Events(packets)| == n + 1 && Events(packets)[..n] == Events(packets[..n])
            && Events(packets)[n] == Packet(Some(packets[n].view), packets[n].at)
            && (n > 0 ==> Ids(packets[..n]) != {} && packets[n].at - packets[n - 1].at < cfg.retention)
  {
    var n := |packets| - 1;
    EventsMore(packets);
    hide Events;
    assert packets == packets[..n] + [packets[n]];
    IdsMore(packets[..n], packets[n]);
    if n > 0 {
      assert packets[..n][0].view.packetId in Ids(packets[..n]);
    }
  }

  lemma EventsMore(packets: seq<Arriving>)
    requires packets != []
    ensures var n := |packets| - 1;
            && |Events(packets)| == n + 1 && Events(packets)[..n] == Events(packets[..n])
            && Events(packets)[n] == Packet(Some(packets[n].view), packets[n].at)
  {
  }

  lemma IdsMore(packets: seq<Arriving>, last: Arriving)
    ensures Ids(packets + [last]) == Ids(packets) + {last.view.packetId}
  {
    assert forall p | p in packets + [last] :: p in packets || p == last;
    assert last in packets + [last];
    assert forall p | p in packets :: p in packets + [last];
  }

  lemma BurstBegins(cfg: Config, b: Burst) returns (w: Sender)
    requires Suits(cfg, b) && cfg.retention >= 1
    ensures Follows(cfg, w, Initial(cfg)) && w.bursts == [b] && w.got == {}
  {
    hide Follows, Initial;
    SuitsId(cfg, b);
    var v := Fresh(b.id, b.extended);
    FreshFollows(cfg, b.id, b.extended);
    BeginFollows(cfg, v, Initial(cfg), b, 0);
    w := Send(v, Begin(b, 0));
  }

  lemma BurstNext(cfg: Config, b: Burst, v: Sender, s: State, view: View, at: int) returns (w: Sender)
    requires Follows(cfg, v, s) && v.bursts == [b] && b.Sends(view)
    requires v.got == {} ==> s == Initial(cfg) && cfg.buffers >= 1
    requires v.got != {} && v.Open() ==> at - v.lastAt < cfg.retention
    ensures Follows(cfg, w, ProcessPacket(cfg, s, Some(view), at)) && w.bursts == [b] && w.got == v.got + {view.packetId}
    ensures w.Open() ==> w.lastAt == at
  {
    hide Inv, ProcessPacket, FramesFollow, PositionFollows, Recent, ClosedBlocks, Shows;
    if v.Whole() {
      CopyFollows(cfg, v, s, 0, view, at);
      w := v;
      assert v.got + {view.packetId} == v.got;
    } else {
      ActFollows(cfg, v, s, Own(view, at));
      w := Send(v, Own(view, at));
    }
  }

  /** One burst in any order, with any repeats, before and after its last packet:
      exactly one frame is delivered, complete and byte for byte. */
  lemma AnyOrderDelivers(cfg: Config, b: Burst, packets: seq<Arriving>)
    requires Suits(cfg, b) && cfg.retention >= 1 && cfg.buffers >= 1
    requires (forall p | p in packets :: b.Sends(p.view)) && Gapless(cfg, packets)
    requires Ids(packets) == Through(b.Last())
    ensures var s := Run(cfg, Initial(cfg), Events(packets));
            |s.delivered| == 1 && Shows(s.delivered[0], b) && s.stats.missingFrames == 0
  {
    hide Inv, FramesFollow, Recent, ClosedBlocks, Run, Initial, Suits;
    var w := BurstRun(cfg, b, packets);
    ThroughSome(b.Last());
  }
}
