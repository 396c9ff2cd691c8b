/** Restarted counters over whole runs: after a stream received in full, and after a
    first frame received only in part. */
module RestartRuns {
  import opened Gvsp
  import opened Reassembly
  import opened FrameContent
  import opened Receiver
  import opened ReceiverRuns
  import opened Bursts
  import opened Fingerprinting
  import opened Streaming
  import opened Restart
  import Delivery

  /** The receiver remembers what came of `past`, and takes its id for one behind. */
  ghost predicate Remembers(s: State, past: Burst, got: set<nat>) {
    && past.id == RESTART_BLOCK_ID
    && -DISCARD_LATE_FRAME_THRESHOLD < BlockIdDistance(past.id, s.lastId, past.extended) < 1
    && FindClosed(s.history, past.id, past.extended) == Some(Closed(past.id, past.extended, Some(PrintsOf(past, got))))
  }

  /** The frame is told from copies of one remembered in part if and only if it
      differs in one of packets 0 to 3 or the trailer that was received then. */
  lemma RestartAfterPart(cfg: Config, past: Burst, got: set<nat>, b: Burst, s: State, moments: seq<Moment>)
    requires Inv(cfg, s) && s.frames == [] && !s.first && s.free != [] && Suits(cfg, b) && cfg.retention >= 1
    requires Remembers(s, past, got) && b.extended == past.extended
    requires b.id == RESTART_BLOCK_ID && ComesIn(cfg, b, moments) && Ids(moments) == Through(b.Last())
    ensures var t, differs := Run(cfg, s, Events(moments)), exists k | 0 <= k <= b.Last() :: Tells(past, got, b, k);
            && !AnyReal(t.frames)
            && (differs ==> t.lastId == RESTART_BLOCK_ID && |t.delivered| == |s.delivered| + 1
                            && t.delivered[..|s.delivered|] == s.delivered
                            && Delivery.Shows(t.delivered[|s.delivered|], b))
            && (!differs ==> t.lastId == s.lastId && t.delivered == s.delivered)
  {
    hide Inv, Suits, Run, Contradicts, Tells, Delivery.Shows, Ids, LastArrival, PrintsOf, ComesIn, Events, Through;
    RestartDetected(cfg, b, s, moments);
    assert Recognised(s, b.extended) == MaybeReplay(PrintsOf(past, got));
    forall k | 0 <= k <= b.Last() ensures Contradicts(PrintsOf(past, got), b, k) <==> Tells(past, got, b, k) {
      ContradictsWhenTells(past, got, b, k);
    }
  }

  /** A receiver that has followed a device remembers its recent bursts in full. */
  lemma StreamRemembers(cfg: Config, w: Delivery.Sender, s: State, i: nat)
    requires Delivery.Follows(cfg, w, s) && i < w.Finished() && w.bursts[i].id == RESTART_BLOCK_ID
    requires w.pos[|w.pos| - 1] - w.pos[i] <= Delivery.LATE_WINDOW
    ensures Remembers(s, w.bursts[i], Through(w.bursts[i].Last())) && !s.first
  {
    hide Inv, Delivery.FramesFollow, PrintsOf, Advance, Suits, Delivery.Shows, Delivery.Recent, Delivery.ClosedBlocks, FindClosed, BlockIdDistance;
    var n := w.Opened();
    Delivery.PosGrows(cfg, w, n - 1, |w.pos| - 1);
    Delivery.BehindBy(cfg, w, i, n - 1);
    Delivery.HistoryFinds(cfg, w, s.history, i);
  }

  /** After any legal stream whose frame 1 is at most 99 ids back, and with a buffer
      free, a restarted frame 1 is delivered intact and the sequence continues from
      it if and only if one of packets 0 to 3 or the trailer differs. */
  lemma StreamRestarts(cfg: Config, start: nat, extended: bool, acts: seq<Delivery.Act>, i: nat, b: Burst, moments: seq<Moment>)
    requires 1 <= start <= MaxId(extended) && cfg.retention >= 1
    requires Delivery.AllLegal(cfg, Delivery.Fresh(start, extended), Initial(cfg), acts)
    requires var w, s := Delivery.Sent(Delivery.Fresh(start, extended), acts), Delivery.Received(cfg, Initial(cfg), acts);
             && i < w.Finished() && |w.pos| == |w.bursts| && w.pos[|w.pos| - 1] - w.pos[i] <= Delivery.LATE_WINDOW
             && w.bursts[i].id == RESTART_BLOCK_ID && w.bursts[i].extended == b.extended
             && s.frames == [] && |s.loaned| < cfg.buffers
    requires Suits(cfg, b) && b.id == RESTART_BLOCK_ID
    requires ComesIn(cfg, b, moments) && Ids(moments) == Through(b.Last())
    ensures var w, s := Delivery.Sent(Delivery.Fresh(start, extended), acts), Delivery.Received(cfg, Initial(cfg), acts);
            var past, t := w.bursts[i], Run(cfg, s, Events(moments));
            var differs := exists k | 0 <= k <= b.Last() :: Tells(past, Through(past.Last()), b, k);
            && !AnyReal(t.frames)
            && (differs ==> t.lastId == RESTART_BLOCK_ID && |t.delivered| == |s.delivered| + 1
                            && t.delivered[..|s.delivered|] == s.delivered
                            && Delivery.Shows(t.delivered[|s.delivered|], b))
            && (!differs ==> t.lastId == s.lastId && t.delivered == s.delivered)
  {
    hide Inv, Delivery.FramesFollow, Delivery.PositionFollows, Delivery.Recent, Delivery.ClosedBlocks, Delivery.AllLegal,
         Delivery.Sent, Delivery.Received, Initial, Delivery.Shows, Tells, Run, Ids, ComesIn, Events, Through, Suits, Remembers;
    assert cfg.payloadSize <= USIZE_MAX by { SizeFits(cfg, b); }
    Delivery.EveryFrameDelivered(cfg, start, extended, acts);
    var w, s := Delivery.Sent(Delivery.Fresh(start, extended), acts), Delivery.Received(cfg, Initial(cfg), acts);
    StreamRemembers(cfg, w, s, i);
    BufferFree(cfg, s);
    RestartAfterPart(cfg, w.bursts[i], Through(w.bursts[i].Last()), b, s, moments);
  }

  lemma BufferFree(cfg: Config, s: State)
    requires Inv(cfg, s) && s.frames == [] && |s.loaned| < cfg.buffers
    ensures s.free != []
  {
  }

  lemma SizeFits(cfg: Config, b: Burst)
    requires Suits(cfg, b)
    ensures cfg.payloadSize <= USIZE_MAX
  {
  }

  // ------------------------------------------------- a frame received in part

  /** Some packets are missing, and the frame is not one with only its leader. */
  predicate InPart(b: Burst, got: set<nat>) { got != {} && got != Through(b.Last()) && (0 in got ==> 1 in got) }

  /** A stale frame closes with what it recorded. */
  lemma StaleCloses(cfg: Config, b: Burst, s: State, got: set<nat>, at: int, now: int)
    requires Suits(cfg, b) && InPart(b, got) && |s.frames| == 1 && RealIs(cfg, b, s.frames[0], got, at)
    requires Since(now, at) >= cfg.retention
    ensures var t := Tick(cfg, s, now);
            && t.frames == [] && t.delivered == s.delivered + [Delivered(Timeout, s.frames[0])] && t.free == s.free
            && t.lastId == s.lastId && t.first == s.first
            && t.history == Remember(s.history, Closed(b.id, b.extended, Some(PrintsOf(b, got))))
  {
    hide Filling, PrintsOf, Remember, Through, AskAgain;
    var f := s.frames[0];
    FilledExactly(cfg, b, f, got);
    assert s.frames[1..] == [];
    NotLeaderOnly(cfg, b, f, got);
    assert Judge(cfg, s, 0, true, now) == Close(Timeout);
    var t := CloseFrame(s, 0, Timeout);
    assert t.frames == [];
    assert CheckCompletion(cfg, t, now, None, 0, true) == t;
  }

  lemma NotLeaderOnly(cfg: Config, b: Burst, f: Frame, got: set<nat>)
    requires Filling(cfg, b, f, got) && InPart(b, got)
    ensures f.prefix != 1 && f.error.None?
  {
    hide Reliable, Taken;
  }

  /** Of a first frame that times out, the packets received are remembered. */
  lemma PartRemembered(cfg: Config, past: Burst, packets: seq<Delivery.Arriving>, late: int)
    requires Suits(cfg, past) && cfg.retention >= 1 && cfg.buffers >= 2 && past.id == RESTART_BLOCK_ID
    requires (forall p | p in packets :: past.Sends(p.view)) && Delivery.Gapless(cfg, packets) && InPart(past, Delivery.Ids(packets))
    requires late >= packets[|packets| - 1].at + cfg.retention
    ensures var s := Tick(cfg, Run(cfg, Initial(cfg), Delivery.Events(packets)), late);
            && Inv(cfg, s) && s.frames == [] && s.free != [] && !s.first && Remembers(s, past, Delivery.Ids(packets))
            && |s.delivered| == 1 && s.delivered[0].status == Timeout
  {
    hide Inv, Run, Initial, CheckCompletion, Suits, PrintsOf, Delivery.Ids, Through, Delivery.Events, Delivery.Shows, RealIs, BlockIdDistance;
    if packets == [] { Delivery.NoPackets(packets); }
    var s := Run(cfg, Initial(cfg), Delivery.Events(packets));
    var w := Delivery.BurstRun(cfg, past, packets);
    CheckKeeps(cfg, s, late, None, 0, true);
    StaleCloses(cfg, past, s, w.got, w.lastAt, late);
    assert BlockIdDistance(RESTART_BLOCK_ID, RESTART_BLOCK_ID, past.extended) == 0 by { NoDistance(past.extended); }
    assert s.history == [];
    OneLoaned(cfg, s);
  }

  lemma NoDistance(extended: bool)
    ensures BlockIdDistance(RESTART_BLOCK_ID, RESTART_BLOCK_ID, extended) == 0
  {
  }

  lemma OneLoaned(cfg: Config, s: State)
    requires Inv(cfg, s) && |s.frames| == 1 && s.delivered == [] && cfg.buffers >= 2
    ensures s.free != []
  {
  }

  /** The first frame times out with some packets received, then the counter starts
      again: the new frame 1 is delivered if and only if it differs in one of packets
      0 to 3 or the trailer that was received before. */
  lemma RestartAfterTimeout(cfg: Config, past: Burst, packets: seq<Delivery.Arriving>, late: int, b: Burst, moments: seq<Moment>)
    requires Suits(cfg, past) && cfg.retention >= 1 && cfg.buffers >= 2 && past.id == RESTART_BLOCK_ID
    requires (forall p | p in packets :: past.Sends(p.view)) && Delivery.Gapless(cfg, packets) && InPart(past, Delivery.Ids(packets))
    requires late >= packets[|packets| - 1].at + cfg.retention
    requires Suits(cfg, b) && b.id == RESTART_BLOCK_ID && b.extended == past.extended
    requires ComesIn(cfg, b, moments) && Ids(moments) == Through(b.Last())
    ensures var s := Tick(cfg, Run(cfg, Initial(cfg), Delivery.Events(packets)), late);
            var t, differs := Run(cfg, s, Events(moments)), exists k | 0 <= k <= b.Last() :: Tells(past, Delivery.Ids(packets), b, k);
            && |t.delivered| == (if differs then 2 else 1) && t.delivered[0].status == Timeout
            && (differs ==> Delivery.Shows(t.delivered[1], b))
  {
    hide Inv, Run, Initial, Tick, Suits, Delivery.Ids, Through, Delivery.Events, Delivery.Shows, Tells, Remembers, ComesIn, Ids, Events, Delivery.Gapless, InPart;
    PartRemembered(cfg, past, packets, late);
    var s := Tick(cfg, Run(cfg, Initial(cfg), Delivery.Events(packets)), late);
    RestartAfterPart(cfg, past, Delivery.Ids(packets), b, s, moments);
    var t := Run(cfg, s, Events(moments));
    if |t.delivered| == 2 { assert t.delivered[0] == t.delivered[..1][0]; }
  }

  /** One payload packet behind the fingerprinted ones arrives of frame 1, which then
      times out. Whatever the restarted frame 1 carries, it is lost. */
  lemma RestartLost(cfg: Config, past: Burst, view: View, at: int, late: int, b: Burst, moments: seq<Moment>)
    requires Suits(cfg, past) && cfg.retention >= 1 && cfg.buffers >= 2 && past.id == RESTART_BLOCK_ID
    requires past.Sends(view) && FINGERPRINTED_PACKETS <= view.packetId <= past.Count() && late >= at + cfg.retention
    requires Suits(cfg, b) && b.id == RESTART_BLOCK_ID && b.extended == past.extended
    requires ComesIn(cfg, b, moments) && Ids(moments) == Through(b.Last())
    ensures var s := Tick(cfg, Run(cfg, Initial(cfg), [Packet(Some(view), at)]), late);
            var t := Run(cfg, s, Events(moments));
            |t.delivered| == 1 && t.delivered[0].status == Timeout
  {
    hide Run, Initial, Tick, Suits, ComesIn, Ids, Events, Through, Delivery.Shows;
    var packets := [Delivery.Arriving(view, at)];
    assert Delivery.Ids(packets) == {view.packetId};
    assert Delivery.Events(packets) == [Packet(Some(view), at)];
    Delivery.ThroughSome(past.Last());
    assert 0 in Through(past.Last()) by { ZeroThrough(past.Last()); }
    RestartAfterTimeout(cfg, past, packets, late, b, moments);
  }

  lemma ZeroThrough(n: nat)
    ensures 0 in Through(n)
  {
  }
}
