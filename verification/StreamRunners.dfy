/** The stream receiver in place: its frame list, pool, history and counters are
    updated packet by packet. Open frames are objects that write into their own
    buffers; buffers move between the pool, open frames and consumers, and no two
    of these ever share one. */
module StreamRunners {
  import opened Gvsp
  import opened Reassembly
  import opened Holes
  import opened Receiver
  import opened FrameBuffers

  type Buffer = array<bv8>

  class StreamRunner {
    const cfg: Config

    var open: seq<FrameInFlight>
    var pool: seq<Buffer>
    var lent: seq<Buffer>
    var history: seq<Closed>
    var lastId: nat
    var first: bool
    var stats: Stats
    var serial: nat
    var requests: seq<Request>
    ghost var delivered: seq<Delivered>
    /** The open frames, and the buffers that are not lent. */
    ghost var owned: set<object>

    /** No buffer is in two places. */
    ghost predicate Valid()
      reads this`open, this`pool, this`lent, this`owned
    {
      && (forall f | f in open :: f in owned && f.data in owned) && (forall b | b in pool :: b in owned) && (forall b | b in lent :: b !in owned)
      && (forall i, j | 0 <= i < j < |open| :: open[i] != open[j] && open[i].data != open[j].data)
      && (forall i, j | 0 <= i < j < |pool| :: pool[i] != pool[j])
      && (forall i, j | 0 <= i < j < |lent| :: lent[i] != lent[j])
      && (forall f | f in open :: f.data !in pool)
    }

    ghost function Model(): (s: State)
      reads this, open, BuffersOf(open), pool, lent
      ensures |s.frames| == |open| && |s.free| == |pool| && |s.loaned| == |lent|
      ensures forall i | 0 <= i < |open| :: s.frames[i] == open[i].Value()
      ensures s.lastId == lastId && s.first == first && s.history == history && s.stats == stats && s.serial == serial
      ensures s.delivered == delivered && s.requests == requests
    {
      State(Values(open), Contents(pool), Contents(lent), history, lastId, first, stats, serial, delivered, requests)
    }

    constructor (cfg: Config)
      ensures Valid() && this.cfg == cfg && Model() == Initial(cfg) && open == [] && fresh(owned)
    {
      this.cfg := cfg;
      open, lent, history, delivered, requests := [], [], [], [], [];
      lastId, first, stats, serial := 0, true, Stats(0, 0, 0, 0), 0;
      pool, owned := [], {};
      new;
      for k := 0 to cfg.buffers
        invariant Valid() && |pool| == k && fresh(owned) && open == [] && lent == []
        invariant forall b | b in pool :: b[..] == seq(cfg.payloadSize, _ => 0 as bv8)
        invariant history == [] && delivered == [] && requests == [] && lastId == 0 && first && stats == Stats(0, 0, 0, 0) && serial == 0
      {
        var buffer := new bv8[cfg.payloadSize](_ => 0);
        assert buffer[..] == seq(cfg.payloadSize, _ => 0 as bv8);
        pool, owned := pool + [buffer], owned + {buffer};
      }
      assert Contents(pool) == Initial(cfg).free;
    }

    /** Only new objects are added, and buffers lent stay lent. */
    twostate predicate Moved()
      reads this`owned, this`lent
    {
      fresh(owned - old(owned)) && old(lent) <= lent
    }

    lemma InOwned(i: nat)
      requires Valid() && i < |open|
      ensures open[i] in owned && open[i].data in owned
    {
    }

    // ------------------------------------------------------------ buffers

    /** A buffer goes back to the bounded pool. */
    method GiveBack(buffer: Buffer)
      requires Valid() && buffer !in pool && buffer in owned && (forall f | f in open :: f.data != buffer)
      modifies this`pool
      ensures Valid() && Model() == Return(cfg, old(Model()), buffer[..])
    {
      if |pool| < cfg.buffers {
        pool := pool + [buffer];
        assert Contents(pool) == old(Contents(pool)) + [buffer[..]];
      }
    }

    method Reclaim(i: nat) returns (buffer: Buffer)
      requires Valid() && i < |lent|
      modifies this`lent, this`owned
      ensures Valid() && buffer[..] == old(Model()).loaned[i] && Model() == old(Model()).(loaned := Without(old(Model()).loaned, i))
      ensures buffer in owned && buffer !in pool && forall f | f in open :: f.data != buffer
    {
      buffer := lent[i];
      lent, owned := lent[..i] + lent[i + 1..], owned + {buffer};
      assert Contents(lent) == Without(old(Contents(lent)), i);
    }

    /** A consumer drops a delivered frame. */
    method Drop(i: nat)
      requires Valid() && i < |lent|
      modifies this`pool, this`lent, this`owned
      ensures Valid() && Model() == DropFrame(cfg, old(Model()), i)
    {
      hide Valid, Model, Without;
      var buffer := Reclaim(i);
      GiveBack(buffer);
    }

    // ------------------------------------------------------------- closing

    method Forget(id: nat, extended: bool, prints: Option<Fingerprints>)
      modifies this`history
      ensures Model() == old(Model()).(history := Remember(old(history), Closed(id, extended, prints)))
    {
      if |history| >= HISTORY_LEN { history := history[1..]; }
      history := history + [Closed(id, extended, prints)];
    }

    method Count(status: Status)
      modifies this`stats
      ensures Model() == old(Model()).(stats := Counted(old(stats), status))
    {
      match status {
        case Complete => stats := stats.(completed := stats.completed + 1);
        case Aborted => stats := stats.(aborted := stats.aborted + 1);
        case _ => stats := stats.(failed := stats.failed + 1);
      }
    }

    /** Takes a frame, and its buffer, out of the list. */
    method Remove(i: nat) returns (f: FrameInFlight)
      requires Valid() && i < |open|
      modifies this`open
      ensures Valid() && f == old(open)[i] && open == Without(old(open), i)
      ensures Model() == old(Model()).(frames := Without(old(Model()).frames, i))
      ensures f.data !in pool && f.data in owned && forall g | g in open :: g.data != f.data
    {
      f := open[i];
      open := open[..i] + open[i + 1..];
      assert Values(open) == Without(old(Values(open)), i);
    }

    /** Hands a removed frame's buffer to the consumers. */
    method Lend(f: FrameInFlight, status: Status)
      requires Valid() && f.data !in pool && f.data in owned && forall g | g in open :: g.data != f.data
      modifies this`lent, this`delivered, this`owned
      ensures Valid() && lent == old(lent) + [f.data] && owned <= old(owned)
      ensures var s := old(Model());
              Model() == s.(loaned := s.loaned + [f.data[..]], delivered := s.delivered + [Delivered(status, f.Value())])
    {
      lent, owned := lent + [f.data], owned - {f.data};
      assert Contents(lent) == old(Contents(lent)) + [f.data[..]];
      delivered := delivered + [Delivered(status, f.Value())];
    }

    method Close(i: nat, status: Status)
      requires Valid() && i < |open|
      modifies this
      ensures Valid() && Model() == CloseFrame(old(Model()), i, status)
      ensures open == Without(old(open), i) && owned <= old(owned) && lent == old(lent) + [old(open)[i].data]
    {
      hide Without, Remember, Counted, Valid, Model;
      var f := Remove(i);
      Forget(f.frameId, f.extended, Some(f.prints));
      Count(status);
      Lend(f, status);
    }

    method Discard(i: nat)
      requires Valid() && i < |open|
      modifies this
      ensures Valid() && Model() == DiscardFrame(cfg, old(Model()), i)
      ensures open == Without(old(open), i) && owned <= old(owned) && lent == old(lent)
    {
      hide Without, Valid, Model;
      var f := Remove(i);
      GiveBack(f.data);
    }

    /** Position of the first provisional frame, or the number of frames. */
    method FindProvisional() returns (i: nat)
      ensures Model() == old(Model()) && i == FirstProvisional(Model().frames)
    {
      i := 0;
      ghost var frames := Model().frames;
      assert frames[0..] == frames;
      while i < |open| && open[i].replayOf.None?
        invariant i <= |open| && FirstProvisional(frames) == i + FirstProvisional(frames[i..])
      {
        assert frames[i..][1..] == frames[i + 1..];
        i := i + 1;
      }
    }

    method DiscardProvisionals()
      requires Valid()
      modifies this
      ensures Valid() && Model() == DiscardProvisional(cfg, old(Model()))
      ensures lent == old(lent) && owned <= old(owned)
    {
      hide Valid, Model, DiscardFrame, FirstProvisional;
      var i := FindProvisional();
      while i < |open|
        invariant Valid() && i == FirstProvisional(Model().frames) && lent == old(lent)
        invariant DiscardProvisional(cfg, Model()) == DiscardProvisional(cfg, old(Model()))
        invariant owned <= old(owned)
        decreases |open|
      {
        Discard(i);
        i := FindProvisional();
      }
    }

    method Walk(i: nat, packetId: nat, now: int) returns (ranges: seq<Range>)
      requires Valid() && i < |open|
      modifies open[i]
      ensures var s := old(Model());
              Model() == s.(frames := s.frames[i := MissingCheck(cfg, s.frames[i], packetId, now).0])
              && ranges == MissingCheck(cfg, s.frames[i], packetId, now).1
    {
      hide MissingCheck;
      ranges := open[i].FindHoles(cfg, packetId, now);
      assert Values(open) == old(Values(open))[i := open[i].Value()];
    }

    method Ask(i: nat, packetId: nat, now: int)
      requires Valid() && i < |open|
      modifies this`requests, open[i]
      ensures Valid() && Model() == AskAgain(cfg, old(Model()), i, packetId, now)
    {
      hide MissingCheck, MaxRequests, Valid, Model;
      ghost var f := Model().frames[i];
      var limit := MaxRequests(cfg, |open[i].packets|);
      var ranges := Walk(i, packetId, now);
      ghost var s, asked := Model(), Sent(f, ranges, limit);
      for k := 0 to |ranges|
        invariant Model() == s.(requests := s.requests + asked[..k])
      {
        Request(Receiver.Request(open[i].serial, open[i].frameId, ranges[k].0, ranges[k].1, limit));
        assert asked[..k + 1] == asked[..k] + [asked[k]];
      }
      assert asked[..|ranges|] == asked;
    }

    method Request(r: Receiver.Request)
      modifies this`requests
      ensures Model() == old(Model()).(requests := old(Model()).requests + [r])
    {
      requests := requests + [r];
    }

    method RealFollows(i: nat) returns (found: bool)
      requires i < |open|
      ensures Model() == old(Model()) && (found <==> AnyReal(Model().frames[i + 1..]))
    {
      found := false;
      for k := i + 1 to |open|
        invariant found <==> exists j | i + 1 <= j < k :: open[j].replayOf.None?
      {
        if open[k].replayOf.None? { found := true; }
      }
      ghost var frames := Model().frames;
      if found {
        ghost var j :| i + 1 <= j < |open| && open[j].replayOf.None?;
        assert frames[i + 1..][j - i - 1] == frames[j] && !Provisional(frames[j]);
      } else {
        forall f | f in frames[i + 1..] ensures Provisional(f) {
          var k :| 0 <= k < |frames[i + 1..]| && frames[i + 1..][k] == f;
          assert f == frames[i + 1 + k];
        }
      }
    }

    /** What the completion check does with the frame at `i`. */
    method JudgeAt(i: nat, canClose: bool, now: int) returns (v: Verdict)
      requires i < |open|
      ensures Model() == old(Model()) && v == Judge(cfg, Model(), i, canClose, now)
    {
      hide AnyReal;
      var f := open[i];
      var all := f.prefix == |f.packets|;
      var stale := Since(now, f.lastTime) >= cfg.retention;
      if f.replayOf.Some? {
        return if all || stale then Verdict.Discard else Skip;
      }
      if canClose && all {
        return Verdict.Close(if f.error.Some? then f.error.value else if f.receivedSize == f.dataEnd then Complete else MissingPackets);
      }
      var later := RealFollows(i);
      if canClose && !cfg.resendEnabled && later {
        return Verdict.Close(MissingPackets);
      }
      if canClose && (f.frameId != lastId || f.prefix != 1) && stale {
        return Verdict.Close(if f.error.Some? then f.error.value else Timeout);
      }
      return Wait;
    }

    /** One turn of the completion check. */
    method CheckOne(i: nat, canClose: bool, now: int, current: Option<nat>) returns (next: nat, closing: bool)
      requires Valid() && i < |open|
      modifies this, open[i]
      ensures Valid() && next <= |open| && |open| - next < |old(open)| - i
      ensures CheckCompletion(cfg, Model(), now, current, next, closing) == CheckCompletion(cfg, old(Model()), now, current, i, canClose)
      ensures owned <= old(owned) && old(lent) <= lent
    {
      hide Judge, AskAgain, CloseFrame, DiscardFrame, Valid, Model;
      next, closing := i, canClose;
      var f := open[i];
      var verdict := JudgeAt(i, canClose, now);
      match verdict {
        case Discard => Discard(i);
        case Skip => next := i + 1;
        case Close(status) => Close(i, status);
        case Wait =>
          if current != Some(f.frameId) && Since(now, f.lastTime) >= cfg.packetTimeout {
            Ask(i, Max(|f.packets| - 1, 0), now);
          }
          next, closing := i + 1, false;
      }
    }

    /** Frames close strictly head of line. */
    method CheckFrames(now: int, current: Option<nat>)
      requires Valid()
      modifies this, owned
      ensures Valid() && Model() == CheckCompletion(cfg, old(Model()), now, current, 0, true)
      ensures owned <= old(owned) && old(lent) <= lent
    {
      hide Valid, Model, CheckCompletion;
      var i: nat, canClose := 0, true;
      while i < |open|
        invariant Valid() && i <= |open| && owned <= old(owned) && old(lent) <= lent
        invariant CheckCompletion(cfg, Model(), now, current, i, canClose) == CheckCompletion(cfg, old(Model()), now, current, 0, true)
        decreases |open| - i
      {
        InOwned(i);
        i, canClose := CheckOne(i, canClose, now, current);
      }
      CheckEnds(cfg, Model(), now, current, i, canClose);
    }

    method Flush()
      requires Valid()
      modifies this
      ensures Valid() && Model() == FlushFrames(cfg, old(Model()))
    {
      hide Valid, Model, DiscardProvisional, CloseFrame;
      DiscardProvisionals();
      ghost var s := Model();
      while open != []
        invariant Valid() && CloseAll(Model()) == CloseAll(s)
        decreases |open|
      {
        Close(0, Aborted);
      }
    }

    // ------------------------------------------------------------- opening

    method Find(id: nat) returns (i: nat)
      ensures Model() == old(Model()) && i == FindFrame(Model().frames, id)
    {
      i := 0;
      ghost var frames := Model().frames;
      assert frames[0..] == frames;
      while i < |open| && open[i].frameId != id
        invariant i <= |open| && FindFrame(frames, id) == i + FindFrame(frames[i..], id)
      {
        assert frames[i..][1..] == frames[i + 1..];
        i := i + 1;
      }
    }

    /** Searches the history from the latest. */
    method Recall(id: nat, extended: bool) returns (c: Option<Closed>)
      ensures c == FindClosed(history, id, extended)
    {
      var n := |history|;
      assert history[..n] == history;
      while n > 0
        invariant n <= |history| && FindClosed(history[..n], id, extended) == FindClosed(history, id, extended)
      {
        assert history[..n][..n - 1] == history[..n - 1];
        if history[n - 1].frameId == id && history[n - 1].extended == extended {
          return Some(history[n - 1]);
        }
        n := n - 1;
      }
      return None;
    }

    method Behind(view: View) returns (a: Arrival)
      ensures Model() == old(Model()) && a == ClassifyBehind(Model(), view)
    {
      if view.frameId != RESTART_BLOCK_ID {
        return Late;
      }
      var c := Recall(view.frameId, view.extended);
      if c.None? {
        return New;
      }
      a := if c.value.prints.None? then Late else MaybeReplay(c.value.prints.value);
    }

    method Claim() returns (buffer: Buffer)
      requires Valid() && pool != []
      modifies this`pool
      ensures Valid() && buffer[..] == old(Model()).free[0] && Model() == old(Model()).(free := old(Model()).free[1..])
      ensures buffer in owned && buffer !in pool && forall f | f in open :: f.data != buffer
    {
      buffer, pool := pool[0], pool[1..];
      assert Contents(pool) == old(Contents(pool))[1..];
    }

    method Append(f: FrameInFlight)
      requires Valid() && f !in open && f.data in owned && f.data !in pool && forall g | g in open :: g.data != f.data
      modifies this`open, this`owned
      ensures Valid() && owned == old(owned) + {f} && Model() == old(Model()).(frames := old(Model()).frames + [f.Value()])
    {
      open, owned := open + [f], owned + {f};
      assert Values(open) == old(Values(open)) + [f.Value()];
    }

    method Create(view: View, buffer: Buffer, count: nat, now: int, replayOf: Option<Fingerprints>) returns (f: FrameInFlight)
      requires Valid() && EstimatedBlock(cfg, view.extended) >= 1
      ensures Valid() && Model() == old(Model()) && fresh(f) && f !in open && f.data == buffer
      ensures f.Value() == NewFrame(cfg, Model(), view, now, buffer[..], count, replayOf)
    {
      hide EstimatedBlock;
      f := new FrameInFlight(serial, view, buffer, EstimatedBlock(cfg, view.extended), count, now, replayOf);
      assert Values(open) == old(Values(open)) && Contents(pool) == old(Contents(pool)) && Contents(lent) == old(Contents(lent));
    }

    /** Claims a buffer and opens a frame in it. */
    method Open(view: View, now: int, replayOf: Option<Fingerprints>)
      requires Valid() && ExpectedPackets(cfg, view) > 0 && pool != [] && EstimatedBlock(cfg, view.extended) >= 1
      modifies this`open, this`pool, this`serial, this`owned
      ensures Valid() && fresh(owned - old(owned))
      ensures Model() == old(Model()).(
                frames := old(Model()).frames + [NewFrame(cfg, old(Model()), view, now, old(Model()).free[0], ExpectedPackets(cfg, view), replayOf)],
                free := old(Model()).free[1..], serial := old(serial) + 1)
    {
      hide ExpectedPackets, EstimatedBlock, Valid, Model;
      var buffer := Claim();
      var f := Create(view, buffer, ExpectedPackets(cfg, view), now, replayOf);
      Append(f);
      Numbered();
    }

    method Numbered()
      modifies this`serial
      ensures Model() == old(Model()).(serial := old(serial) + 1)
    {
      serial := serial + 1;
    }

    /** A frame of the list was touched. */
    method Touch(i: nat, now: int)
      requires Valid() && i < |open|
      modifies open[i]
      ensures Valid() && var s := old(Model()); Model() == s.(frames := s.frames[i := s.frames[i].(lastTime := now)])
    {
      open[i].lastTime := now;
      assert Values(open) == old(Values(open))[i := open[i].Value()];
    }

    method FindOrOpen(view: View, now: int) returns (index: Option<nat>)
      requires Valid()
      modifies this, owned
      ensures Valid() && Routed(Model(), index) == FindOrCreate(cfg, old(Model()), view, now) && Moved()
    {
      hide FindFrame, ClassifyBehind, OpenNew, OpenProvisional, BlockIdDistance, Valid, Model;
      var i := Find(view.frameId);
      if i < |open| {
        InOwned(i);
        Touch(i, now);
        return Some(i);
      }
      var inc := BlockIdDistance(view.frameId, lastId, view.extended);
      if -DISCARD_LATE_FRAME_THRESHOLD < inc < 1 {
        var arrival := Behind(view);
        match arrival {
          case New =>
          case Late => return None;
          case MaybeReplay(prints) =>
            index := OpenReplay(view, now, prints);
            return;
        }
      }
      index := OpenFresh(view, now);
    }

    method OpenReplay(view: View, now: int, prints: Fingerprints) returns (index: Option<nat>)
      requires Valid()
      modifies this
      ensures Valid() && Routed(Model(), index) == OpenProvisional(cfg, old(Model()), view, now, prints) && Moved()
    {
      hide ExpectedPackets, Valid, Model;
      if ExpectedPackets(cfg, view) == 0 || pool == [] {
        return None;
      }
      EstimateKnown(cfg, view);
      Open(view, now, Some(prints));
      index := Some(|open| - 1);
    }

    method OpenFresh(view: View, now: int) returns (index: Option<nat>)
      requires Valid()
      modifies this
      ensures Valid() && Routed(Model(), index) == OpenNew(cfg, old(Model()), view, now) && Moved()
    {
      hide DiscardProvisional, Valid, Model, OpenedNew;
      DiscardProvisionals();
      index := OpenNext(view, now);
    }

    /** Opens a frame for a new block id, or drops the block and remembers that. */
    method OpenNext(view: View, now: int) returns (index: Option<nat>)
      requires Valid()
      modifies this
      ensures Valid() && Routed(Model(), index) == OpenedNew(cfg, old(Model()), view, now) && Moved()
    {
      hide ExpectedPackets, BlockIdDistance, Valid, Model;
      if ExpectedPackets(cfg, view) == 0 || pool == [] {
        Advance(view.frameId, 0);
        Forget(view.frameId, view.extended, None);
        return None;
      }
      var inc := BlockIdDistance(view.frameId, lastId, view.extended);
      EstimateKnown(cfg, view);
      Open(view, now, None);
      index := Some(|open| - 1);
      Advance(view.frameId, if inc > 1 then inc - 1 else 0);
    }

    /** The id sequence goes on from here, so many ids skipped. */
    method Advance(id: nat, skipped: nat)
      modifies this`lastId, this`stats
      ensures Model() == old(Model()).(lastId := id, stats := old(stats).(missingFrames := old(stats).missingFrames + skipped))
    {
      stats := stats.(missingFrames := stats.missingFrames + skipped);
      lastId := id;
    }

    // ------------------------------------------------------------- packets

    /** The packet goes into the frame's own buffer; no other buffer changes. */
    method Fill(i: nat, view: View)
      requires Valid() && i < |open| && Assembled(view)
      modifies open[i], open[i].data
      ensures Valid() && var s := old(Model()); Model() == s.(frames := s.frames[i := TakeInto(cfg, s.frames[i], view)])
    {
      hide TakeInto;
      open[i].Take(cfg, view);
      assert Values(open) == old(Values(open))[i := open[i].Value()];
      assert Contents(pool) == old(Contents(pool)) && Contents(lent) == old(Contents(lent));
    }

    method Adopt(i: nat)
      requires Valid() && i < |open|
      modifies this`lastId, open[i]
      ensures Valid() && Model() == AdoptRestart(old(Model()), i)
    {
      var f := open[i];
      f.replayOf, f.resend := None, f.resend.(disabled := false);
      lastId := f.frameId;
      assert Values(open) == old(Values(open))[i := open[i].Value()];
    }

    method GiveUp(i: nat)
      requires Valid() && i < |open|
      modifies open[i]
      ensures Valid()
      ensures var s := old(Model());
              Model() == s.(frames := s.frames[i := s.frames[i].(resend := s.frames[i].resend.(disabled := true))])
    {
      open[i].resend := open[i].resend.(disabled := true);
      assert Values(open) == old(Values(open))[i := open[i].Value()];
    }

    /** The packet taken, and the frame adopted if it turns out not to be a copy. */
    method Absorb(i: nat, view: View)
      requires Valid() && i < |open| && Assembled(view)
      modifies this`lastId, open[i], open[i].data
      ensures Valid()
      ensures var s := old(Model());
              var t := s.(frames := s.frames[i := TakeInto(cfg, s.frames[i], view)]);
              Model() == if Provisional(s.frames[i]) && Diverges(s.frames[i].replayOf.value, view) then AdoptRestart(t, i) else t
    {
      hide TakeInto, Diverges, Valid, Model, AdoptRestart;
      var f := open[i];
      var adopts := f.replayOf.Some? && Diverges(f.replayOf.value, view);
      Fill(i, view);
      if adopts { Adopt(i); }
    }

    /** A packet that belongs to frame `i`. */
    method TakeAt(i: nat, view: View, now: int)
      requires Valid() && i < |open|
      modifies this, owned
      ensures Valid() && Model() == Take(cfg, old(Model()), i, view, now)
      ensures owned <= old(owned) && old(lent) <= lent
    {
      hide TakeInto, Diverges, AskAgain, CheckCompletion, Valid, Model;
      InOwned(i);
      var f := open[i];
      if IsError(view.status) {
        if IsGone(view.status) { GiveUp(i); }
        return;
      }
      if view.packetId < |f.packets| && f.packets[view.packetId].received {
        return;
      }
      if !Assembled(view) {
        return;
      }
      Absorb(i, view);
      Ask(i, view.packetId, now);
      CheckFrames(now, Some(f.frameId));
    }

    method Begin(view: View)
      modifies this`lastId, this`first
      ensures Model() == Start(old(Model()), view)
    {
      if first {
        lastId := if view.frameId == 0 then USIZE_MAX else view.frameId - 1;
        first := false;
      }
    }

    /** One datagram. Buffers lent to consumers are not written. */
    method Receive(datagram: Option<View>, now: int)
      requires Valid()
      modifies this, owned
      ensures Valid() && Model() == ProcessPacket(cfg, old(Model()), datagram, now) && Moved()
    {
      hide Take, FindOrCreate, Valid, Model;
      if datagram.None? {
        return;
      }
      var view := datagram.value;
      Begin(view);
      var index := FindOrOpen(view, now);
      if index.None? || index.value >= |open| {
        return;
      }
      TakeAt(index.value, view, now);
    }
  }

  ghost function BuffersOf(frames: seq<FrameInFlight>): set<object> { set f | f in frames :: f.data }

  ghost function Values(frames: seq<FrameInFlight>): (r: seq<Frame>)
    reads frames, BuffersOf(frames)
    ensures |r| == |frames| && forall i | 0 <= i < |frames| :: r[i] == frames[i].Value()
  {
    seq(|frames|, i requires 0 <= i < |frames| reads frames, BuffersOf(frames) => frames[i].Value())
  }

  ghost function Contents(buffers: seq<Buffer>): (r: seq<Bytes>)
    reads buffers
    ensures |r| == |buffers| && forall i | 0 <= i < |buffers| :: r[i] == buffers[i][..]
  {
    seq(|buffers|, i requires 0 <= i < |buffers| reads buffers => buffers[i][..])
  }

  lemma CheckEnds(cfg: Config, s: State, now: int, current: Option<nat>, i: nat, canClose: bool)
    requires i >= |s.frames|
    ensures CheckCompletion(cfg, s, now, current, i, canClose) == s
  {
  }

  lemma EstimateKnown(cfg: Config, view: View)
    requires ExpectedPackets(cfg, view) > 0
    ensures EstimatedBlock(cfg, view.extended) >= 1
  {
  }
}
