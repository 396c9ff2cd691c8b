/** The GVSP receiver as a state machine: routing packets to frames, telling late
    copies from a restarted block-id counter, closing frames head of line and
    moving buffers between the pool, the worker and delivered frames. */
module Receiver {
  import opened Gvsp
  import opened Reassembly
  import opened Holes

  const DISCARD_LATE_FRAME_THRESHOLD: int := 100
  const RESTART_BLOCK_ID: nat := 1
  const HISTORY_LEN: nat := 128

  /** A frame the receiver closed, or dropped unopened (no fingerprints). */
  datatype Closed = Closed(frameId: nat, extended: bool, prints: Option<Fingerprints>)

  /** A frame handed to the subscribers, as it stood when it closed. */
  datatype Delivered = Delivered(status: Status, frame: Frame)

  /** A resend request, with the budget it was checked against. */
  datatype Request = Request(serial: nat, frameId: nat, first: nat, last: nat, limit: nat)

  datatype Stats = Stats(completed: nat, failed: nat, aborted: nat, missingFrames: nat)

  /** `free` are the buffers in the pool, `loaned` those of delivered frames not
      yet dropped. `delivered` and `requests` record everything sent out;
      `serial` numbers the frames opened. */
  datatype State = State(
    frames: seq<Frame>, free: seq<Bytes>, loaned: seq<Bytes>, history: seq<Closed>,
    lastId: nat, first: bool, stats: Stats, serial: nat,
    delivered: seq<Delivered>, requests: seq<Request>)

  function Initial(cfg: Config): State {
    State([], seq(cfg.buffers, _ => seq(cfg.payloadSize, _ => 0 as bv8)), [], [], 0, true, Stats(0, 0, 0, 0), 0, [], [])
  }

  /** The bytes a delivered frame shows. */
  function Data(d: Delivered): Bytes { d.frame.data[..Min(d.frame.dataEnd, |d.frame.data|)] }

  function Without<T>(s: seq<T>, i: nat): (r: seq<T>)
    requires i < |s|
  {
    s[..i] + s[i + 1..]
  }

  // ---------------------------------------------------------------- pool

  /** A buffer goes back to the bounded pool; one too many would be lost. */
  function Return(cfg: Config, s: State, buffer: Bytes): State {
    if |s.free| < cfg.buffers then s.(free := s.free + [buffer]) else s
  }

  /** A consumer drops its last reference to a delivered frame. */
  function DropFrame(cfg: Config, s: State, i: nat): State
    requires i < |s.loaned|
  {
    Return(cfg, s.(loaned := Without(s.loaned, i)), s.loaned[i])
  }

  // ------------------------------------------------------- closing frames

  function Remember(history: seq<Closed>, c: Closed): seq<Closed> {
    (if |history| >= HISTORY_LEN then history[1..] else history) + [c]
  }

  function Counted(stats: Stats, status: Status): Stats {
    match status
    case Complete => stats.(completed := stats.completed + 1)
    case Aborted => stats.(aborted := stats.aborted + 1)
    case _ => stats.(failed := stats.failed + 1)
  }

  function CloseFrame(s: State, i: nat, status: Status): State
    requires i < |s.frames|
  {
    var f := s.frames[i];
    s.(frames := Without(s.frames, i), loaned := s.loaned + [f.data],
       history := Remember(s.history, Closed(f.frameId, f.extended, Some(f.prints))),
       stats := Counted(s.stats, status), delivered := s.delivered + [Delivered(status, f)])
  }

  function DiscardFrame(cfg: Config, s: State, i: nat): State
    requires i < |s.frames|
  {
    Return(cfg, s.(frames := Without(s.frames, i)), s.frames[i].data)
  }

  predicate Provisional(f: Frame) { f.replayOf.Some? }

  /** Position of the first provisional frame, or the number of frames. */
  function FirstProvisional(frames: seq<Frame>): (i: nat)
    ensures i <= |frames|
    ensures i < |frames| ==> Provisional(frames[i])
    ensures forall j | 0 <= j < i :: !Provisional(frames[j])
  {
    if frames == [] || Provisional(frames[0]) then 0 else 1 + FirstProvisional(frames[1..])
  }

  function DiscardProvisional(cfg: Config, s: State): State
    decreases |s.frames|
  {
    var i := FirstProvisional(s.frames);
    if i == |s.frames| then s else DiscardProvisional(cfg, DiscardFrame(cfg, s, i))
  }

  function AskAgain(cfg: Config, s: State, i: nat, packetId: nat, now: int): State
    requires i < |s.frames|
  {
    var f := s.frames[i];
    var (g, ranges) := MissingCheck(cfg, f, packetId, now);
    s.(frames := s.frames[i := g], requests := s.requests + Sent(f, ranges, MaxRequests(cfg, |f.packets|)))
  }

  function Sent(f: Frame, ranges: seq<Range>, limit: nat): (r: seq<Request>)
    ensures |r| == |ranges|
  {
    seq(|ranges|, k requires 0 <= k < |ranges| => Request(f.serial, f.frameId, ranges[k].0, ranges[k].1, limit))
  }

  function Since(now: int, then_: int): nat { if now < then_ then 0 else now - then_ }

  function FinalStatus(f: Frame): Status {
    if f.error.Some? then f.error.value else if f.receivedSize == f.dataEnd then Complete else MissingPackets
  }

  predicate AnyReal(frames: seq<Frame>) { exists f | f in frames :: !Provisional(f) }

  datatype Verdict = Discard | Skip | Close(status: Status) | Wait

  /** What the completion check does with the frame at `i`. */
  function Judge(cfg: Config, s: State, i: nat, canClose: bool, now: int): Verdict
    requires i < |s.frames|
  {
    var f := s.frames[i];
    var stale := Since(now, f.lastTime) >= cfg.retention;
    if Provisional(f) then (if AllReceived(f) || stale then Discard else Skip)
    else if canClose && AllReceived(f) then Close(FinalStatus(f))
    else if canClose && !cfg.resendEnabled && AnyReal(s.frames[i + 1..]) then Close(MissingPackets)
    else if canClose && (f.frameId != s.lastId || f.prefix != 1) && stale then
      Close(if f.error.Some? then f.error.value else Timeout)
    else Wait
  }

  /** The completion check from frame `i` on: frames close head of line. */
  function CheckCompletion(cfg: Config, s: State, now: int, current: Option<nat>, i: nat, canClose: bool): State
    decreases |s.frames| - i
  {
    if i >= |s.frames| then s
    else
      var f := s.frames[i];
      match Judge(cfg, s, i, canClose, now)
      case Discard => CheckCompletion(cfg, DiscardFrame(cfg, s, i), now, current, i, canClose)
      case Skip => CheckCompletion(cfg, s, now, current, i + 1, canClose)
      case Close(status) => CheckCompletion(cfg, CloseFrame(s, i, status), now, current, i, canClose)
      case Wait =>
        var t := if current != Some(f.frameId) && Since(now, f.lastTime) >= cfg.packetTimeout
                 then AskAgain(cfg, s, i, Max(|f.packets| - 1, 0), now) else s;
        CheckCompletion(cfg, t, now, current, i + 1, false)
  }

  function Tick(cfg: Config, s: State, now: int): State { CheckCompletion(cfg, s, now, None, 0, true) }

  function FlushFrames(cfg: Config, s: State): State { CloseAll(DiscardProvisional(cfg, s)) }

  function CloseAll(s: State): State
    decreases |s.frames|
  {
    if s.frames == [] then s else CloseAll(CloseFrame(s, 0, Aborted))
  }

  // ------------------------------------------------------ opening frames

  /** Position of the frame with this id, or the number of frames. */
  function FindFrame(frames: seq<Frame>, id: nat): (i: nat)
    ensures i <= |frames|
    ensures i < |frames| ==> frames[i].frameId == id
    ensures forall j | 0 <= j < i :: frames[j].frameId != id
  {
    if frames == [] || frames[0].frameId == id then 0 else 1 + FindFrame(frames[1..], id)
  }

  datatype Arrival = New | Late | MaybeReplay(prints: Fingerprints)

  /** The latest closed block with this id and id mode. */
  function FindClosed(history: seq<Closed>, id: nat, extended: bool): Option<Closed>
    decreases |history|
  {
    if history == [] then None
    else
      var c := history[|history| - 1];
      if c.frameId == id && c.extended == extended then Some(c)
      else FindClosed(history[..|history| - 1], id, extended)
  }

  function ClassifyBehind(s: State, view: View): Arrival {
    if view.frameId != RESTART_BLOCK_ID then Late
    else
      match FindClosed(s.history, view.frameId, view.extended)
      case None => New
      case Some(c) => if c.prints.None? then Late else MaybeReplay(c.prints.value)
  }

  function Classify(s: State, view: View): Arrival {
    var inc := BlockIdDistance(view.frameId, s.lastId, view.extended);
    if -DISCARD_LATE_FRAME_THRESHOLD < inc < 1 then ClassifyBehind(s, view) else New
  }

  datatype Routed = Routed(state: State, index: Option<nat>)

  function NewFrame(cfg: Config, s: State, view: View, now: int, buffer: Bytes, packets: nat, replayOf: Option<Fingerprints>): Frame
    requires EstimatedBlock(cfg, view.extended) >= 1
  {
    Frame(s.serial, view.frameId, view.extended, buffer, seq(packets, _ => Unseen),
          EstimatedBlock(cfg, view.extended), false, [], 0, false, 0, 0, 0, now, None, None,
          Resend(replayOf.Some?, false, 0), NoPrints, replayOf, [])
  }

  /** Opens a provisional frame, if the packet can start one and a buffer is free. */
  function OpenProvisional(cfg: Config, s: State, view: View, now: int, prints: Fingerprints): Routed {
    var n := ExpectedPackets(cfg, view);
    if n == 0 || s.free == [] then Routed(s, None)
    else
      var f := NewFrame(cfg, s, view, now, s.free[0], n, Some(prints));
      Routed(s.(frames := s.frames + [f], free := s.free[1..], serial := s.serial + 1), Some(|s.frames|))
  }

  /** Opens a frame for a new block id, or drops the block and remembers that. */
  function OpenNew(cfg: Config, s: State, view: View, now: int): Routed {
    OpenedNew(cfg, DiscardProvisional(cfg, s), view, now)
  }

  function OpenedNew(cfg: Config, s: State, view: View, now: int): Routed {
    var n := ExpectedPackets(cfg, view);
    if n == 0 || s.free == [] then
      Routed(s.(lastId := view.frameId, history := Remember(s.history, Closed(view.frameId, view.extended, None))), None)
    else
      var inc := BlockIdDistance(view.frameId, s.lastId, view.extended);
      var f := NewFrame(cfg, s, view, now, s.free[0], n, None);
      Routed(s.(frames := s.frames + [f], free := s.free[1..], serial := s.serial + 1, lastId := view.frameId,
                stats := s.stats.(missingFrames := s.stats.missingFrames + if inc > 1 then inc - 1 else 0)),
             Some(|s.frames|))
  }

  function FindOrCreate(cfg: Config, s: State, view: View, now: int): Routed {
    var i := FindFrame(s.frames, view.frameId);
    if i < |s.frames| then Routed(s.(frames := s.frames[i := s.frames[i].(lastTime := now)]), Some(i))
    else
      match Classify(s, view)
      case Late => Routed(s, None)
      case New => OpenNew(cfg, s, view, now)
      case MaybeReplay(prints) => OpenProvisional(cfg, s, view, now, prints)
  }

  // ---------------------------------------------------- taking a packet

  /** A frame that differs from the one it would repeat is a real frame, and
      the id sequence continues from it. */
  function AdoptRestart(s: State, i: nat): State
    requires i < |s.frames|
  {
    var f := s.frames[i];
    s.(frames := s.frames[i := f.(replayOf := None, resend := f.resend.(disabled := false))], lastId := f.frameId)
  }

  predicate Assembled(view: View) { view.content.Leader? || view.content.Payload? || view.content.Trailer? }

  /** The packet is new to the frame and of a kind that is reassembled. */
  predicate Takes(f: Frame, view: View) {
    !IsError(view.status) && Assembled(view) && !(view.packetId < |f.packets| && f.packets[view.packetId].received)
  }

  function TakeInto(cfg: Config, f: Frame, view: View): Frame
    requires Assembled(view)
  {
    var g := MarkReceived(Process(cfg, f, view), view.packetId);
    g.(prints := Recorded(g.prints, view))
  }

  /** A packet routed to frame `i`. */
  function Take(cfg: Config, s: State, i: nat, view: View, now: int): State
    requires i < |s.frames|
  {
    var f := s.frames[i];
    if IsError(view.status) then
      (if IsGone(view.status) then s.(frames := s.frames[i := f.(resend := f.resend.(disabled := true))]) else s)
    else if !Takes(f, view) then s
    else
      var g := TakeInto(cfg, f, view);
      var t := s.(frames := s.frames[i := g]);
      var u := if Provisional(f) && Diverges(f.replayOf.value, view) then AdoptRestart(t, i) else t;
      CheckCompletion(cfg, AskAgain(cfg, u, i, view.packetId, now), now, Some(f.frameId), 0, true)
  }

  function Start(s: State, view: View): State {
    if s.first then s.(first := false, lastId := if view.frameId == 0 then USIZE_MAX else view.frameId - 1) else s
  }

  /** One datagram; None when it does not decode. */
  function ProcessPacket(cfg: Config, s: State, datagram: Option<View>, now: int): State {
    match datagram
    case None => s
    case Some(view) =>
      var routed := FindOrCreate(cfg, Start(s, view), view, now);
      if routed.index.None? || routed.index.value >= |routed.state.frames| then routed.state
      else Take(cfg, routed.state, routed.index.value, view, now)
  }

  // --------------------------------------------------------------- runs

  datatype Event = Packet(datagram: Option<View>, at: int) | Idle(at: int) | Dropped(index: nat) | Shutdown

  function Step(cfg: Config, s: State, e: Event): State {
    match e
    case Packet(d, now) => ProcessPacket(cfg, s, d, now)
    case Idle(now) => Tick(cfg, s, now)
    case Dropped(i) => if i < |s.loaned| then DropFrame(cfg, s, i) else s
    case Shutdown => FlushFrames(cfg, s)
  }

  function Run(cfg: Config, s: State, events: seq<Event>): State
    decreases |events|
  {
    if events == [] then s else Step(cfg, Run(cfg, s, events[..|events| - 1]), events[|events| - 1])
  }
}
