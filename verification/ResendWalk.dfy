/** Which packets the resend walk asks for: exactly those that are due, in whole
    holes, or none at all once the budget is exceeded. */
module ResendWalk {
  import opened Gvsp
  import opened Reassembly
  import opened Holes

  /** Packet `k` is missing, behind `packetId`, and its deadline has passed. */
  predicate Due(f: Frame, packetId: nat, now: int, k: nat) {
    && f.prefix <= k <= packetId && k < |f.packets| && !f.packets[k].received
    && f.packets[k].deadline.Some? && f.packets[k].deadline.value < now
  }

  /** Packets below `n` that are due. */
  function DueBelow(f: Frame, packetId: nat, now: int, n: nat): nat {
    if n == 0 then 0 else DueBelow(f, packetId, now, n - 1) + if Due(f, packetId, now, n - 1) then 1 else 0
  }

  function DueCount(f: Frame, packetId: nat, now: int): nat { DueBelow(f, packetId, now, packetId + 1) }

  predicate Spans(r: Range, k: nat) { r.0 <= k <= r.1 }

  predicate InSome(ranges: seq<Range>, k: nat) { exists r | r in ranges :: Spans(r, k) }

  /** Ascending, disjoint, and never two where one would do. */
  predicate Apart(ranges: seq<Range>) {
    && (forall i | 0 <= i < |ranges| :: ranges[i].0 <= ranges[i].1)
    && (forall i, j | 0 <= i < j < |ranges| :: ranges[i].1 + 1 < ranges[j].0)
  }

  /** A packet once the walk has passed it: requested, or given its first deadline. */
  function Passed(cfg: Config, f: Frame, packetId: nat, now: int, k: nat, asked: bool, seen: bool): PacketState
    requires k < |f.packets|
  {
    var p := f.packets[k];
    if asked then p.(requested := true, deadline := Some(now + cfg.packetTimeout))
    else if seen && f.prefix <= k <= packetId && !p.received && p.deadline.None? then p.(deadline := Some(now + cfg.initialTimeout))
    else p
  }

  /** The packets after the walk asked for all due below `done` and saw all below `i`. */
  ghost predicate PassedTo(cfg: Config, f: Frame, packetId: nat, now: int, packets: seq<PacketState>, done: nat, i: nat) {
    |packets| == |f.packets| && forall k | 0 <= k < |packets| ::
      packets[k] == Passed(cfg, f, packetId, now, k, k < done && Due(f, packetId, now, k), k < i)
  }

  /** The hole being collected, if any: due from its start to here. */
  predicate Collecting(f: Frame, packetId: nat, now: int, first: Option<nat>, i: nat) {
    first.Some? ==>
      && f.prefix <= first.value < i && (first.value > 0 ==> !Due(f, packetId, now, first.value - 1))
      && (forall k | first.value <= k < i :: Due(f, packetId, now, k))
      && DueBelow(f, packetId, now, i) == DueBelow(f, packetId, now, first.value) + (i - first.value)
  }

  function Done(first: Option<nat>, i: nat): nat { if first.Some? then first.value else i }

  /** The ranges collected are exactly the due packets below `done`. */
  ghost predicate Collected(f: Frame, packetId: nat, now: int, ranges: seq<Range>, done: nat) {
    && Apart(ranges) && (forall k: nat :: InSome(ranges, k) <==> k < done && Due(f, packetId, now, k))
    && (ranges != [] ==> ranges[|ranges| - 1].1 < done)
  }

  /** What the walk has done when it comes to packet `i`. */
  ghost predicate Walked(cfg: Config, f: Frame, max: nat, packetId: nat, now: int, w: Walk, i: nat) {
    var done := Done(w.first, i);
    && packetId < |f.packets| && !w.reached && Collecting(f, packetId, now, w.first, i)
    && PassedTo(cfg, f, packetId, now, w.packets, done, i)
    && Collected(f, packetId, now, w.ranges, done)
    && w.requests == f.resend.requests + DueBelow(f, packetId, now, done)
    && (w.ranges != [] ==> w.requests <= max)
    && (w.first.None? && i > 0 ==> !Due(f, packetId, now, i - 1))
  }

  // ------------------------------------------------------------- one step

  lemma {:induction false} NoneBelow(f: Frame, packetId: nat, now: int, n: nat)
    requires n <= f.prefix
    ensures DueBelow(f, packetId, now, n) == 0
  {
    if n > 0 { NoneBelow(f, packetId, now, n - 1); }
  }

  lemma {:induction false} DueGrows(f: Frame, packetId: nat, now: int, m: nat, n: nat)
    requires m <= n
    ensures DueBelow(f, packetId, now, m) <= DueBelow(f, packetId, now, n)
  {
    if m < n { DueGrows(f, packetId, now, m, n - 1); }
  }

  /** A whole hole joins the ranges. */
  lemma HoleCollected(f: Frame, packetId: nat, now: int, ranges: seq<Range>, first: nat, i: nat)
    requires Collected(f, packetId, now, ranges, first) && Collecting(f, packetId, now, Some(first), i) && !Due(f, packetId, now, i)
    ensures Collected(f, packetId, now, ranges + [(first, i - 1)], i + 1)
  {
    hide Due;
    var more := ranges + [(first, i - 1)];
    if ranges != [] {
      var last := ranges[|ranges| - 1];
      assert last in ranges && Spans(last, last.1);
      assert InSome(ranges, last.1);
      assert Due(f, packetId, now, last.1);
    }
    forall k: nat ensures InSome(more, k) <==> k < i + 1 && Due(f, packetId, now, k) {
      if InSome(ranges, k) {
        var r :| r in ranges && Spans(r, k);
        assert r in more;
      }
      if first <= k < i { assert (first, i - 1) in more; }
      if InSome(more, k) {
        var r :| r in more && Spans(r, k);
        assert r in ranges || r == (first, i - 1);
      }
    }
  }

  lemma Skipped(f: Frame, packetId: nat, now: int, ranges: seq<Range>, i: nat)
    requires Collected(f, packetId, now, ranges, i) && !Due(f, packetId, now, i)
    ensures Collected(f, packetId, now, ranges, i + 1)
  {
    hide Due, InSome, Apart;
  }

  lemma StepNeeds(cfg: Config, f: Frame, max: nat, packetId: nat, now: int, w: Walk, i: nat)
    requires Walked(cfg, f, max, packetId, now, w, i) && f.prefix <= i <= packetId + 1
    ensures var missing := i <= packetId && !w.packets[i].received;
            var packets := if missing then Armed(w.packets, i, now + cfg.initialTimeout) else w.packets;
            && (missing && now > packets[i].deadline.value <==> Due(f, packetId, now, i))
            && PassedTo(cfg, f, packetId, now, packets, Done(w.first, i), i + 1)
  {
  }

  lemma WalkShape(cfg: Config, f: Frame, max: nat, packetId: nat, now: int, w: Walk, i: nat)
    requires Walked(cfg, f, max, packetId, now, w, i)
    ensures packetId < |w.packets| && (w.first.Some? ==> w.first.value < i)
  {
    hide Collected, Due;
  }

  lemma HoleMarked(cfg: Config, f: Frame, packetId: nat, now: int, packets: seq<PacketState>, first: nat, i: nat)
    requires PassedTo(cfg, f, packetId, now, packets, first, i + 1) && first < i && !Due(f, packetId, now, i)
    requires forall k | first <= k < i :: Due(f, packetId, now, k)
    ensures PassedTo(cfg, f, packetId, now, Asked(packets, first, i - 1, now + cfg.packetTimeout), i + 1, i + 1)
  {
    hide Due;
  }

  lemma HoleStep(cfg: Config, f: Frame, max: nat, packetId: nat, now: int, w: Walk, i: nat) returns (packets: seq<PacketState>)
    requires Walked(cfg, f, max, packetId, now, w, i) && f.prefix <= i <= packetId + 1 && w.first.Some? && !Due(f, packetId, now, i)
    ensures PassedTo(cfg, f, packetId, now, packets, w.first.value, i + 1) && w.first.value < i
    ensures StepWalk(cfg, max, w, i, packetId, now) == EndHole(cfg, max, w.(packets := packets), i, now)
  {
    hide Collected, Due, PassedTo, EndHole;
    WalkShape(cfg, f, max, packetId, now, w, i);
    StepNeeds(cfg, f, max, packetId, now, w, i);
    packets := if i <= packetId && !w.packets[i].received then Armed(w.packets, i, now + cfg.initialTimeout) else w.packets;
    assert w.(packets := packets, first := w.first) == w.(packets := packets);
  }

  /** A packet that is not due ends the hole: requested if the budget allows. */
  lemma HoleEnds(cfg: Config, f: Frame, max: nat, packetId: nat, now: int, w: Walk, i: nat)
    requires Walked(cfg, f, max, packetId, now, w, i) && f.prefix <= i <= packetId + 1 && w.first.Some? && !Due(f, packetId, now, i)
    ensures var v := StepWalk(cfg, max, w, i, packetId, now);
            var total := f.resend.requests + DueBelow(f, packetId, now, i);
            && v.requests == total && v.reached == (total > max)
            && (!v.reached ==> Walked(cfg, f, max, packetId, now, v, i + 1))
            && (v.reached ==> v.ranges == [] && PassedTo(cfg, f, packetId, now, v.packets, w.first.value, i + 1))
  {
    hide Collected, Due, PassedTo, StepWalk, Asked, Collecting, DueBelow;
    var packets := HoleStep(cfg, f, max, packetId, now, w, i);
    var first := w.first.value;
    CollectingMeans(f, packetId, now, first, i);
    HoleMarked(cfg, f, packetId, now, packets, first, i);
    HoleCollected(f, packetId, now, w.ranges, first, i);
    NotCounted(f, packetId, now, i);
  }

  lemma CollectingMeans(f: Frame, packetId: nat, now: int, first: nat, i: nat)
    requires Collecting(f, packetId, now, Some(first), i)
    ensures first < i && (forall k | first <= k < i :: Due(f, packetId, now, k))
    ensures DueBelow(f, packetId, now, i) == DueBelow(f, packetId, now, first) + (i - first)
  {
    hide Due, DueBelow;
  }

  lemma NotCounted(f: Frame, packetId: nat, now: int, i: nat)
    requires !Due(f, packetId, now, i)
    ensures DueBelow(f, packetId, now, i + 1) == DueBelow(f, packetId, now, i) && Collecting(f, packetId, now, None, i + 1)
  {
  }

  lemma StepWalked(cfg: Config, f: Frame, max: nat, packetId: nat, now: int, w: Walk, i: nat)
    requires Walked(cfg, f, max, packetId, now, w, i) && f.prefix <= i <= packetId + 1 && (w.first.None? || Due(f, packetId, now, i))
    ensures Walked(cfg, f, max, packetId, now, StepWalk(cfg, max, w, i, packetId, now), i + 1)
  {
    hide Collected;
    StepNeeds(cfg, f, max, packetId, now, w, i);
    if !Due(f, packetId, now, i) { Skipped(f, packetId, now, w.ranges, i); }
  }

  // ----------------------------------------------------------- the whole walk

  /** The walk ends with every hole collected, or at the hole that exceeds the
      budget: it begins at `first` and ends before `end`. */
  lemma {:induction false} WalkEnds(cfg: Config, f: Frame, max: nat, packetId: nat, now: int, w: Walk, i: nat) returns (first: nat, end: nat)
    requires Walked(cfg, f, max, packetId, now, w, i) && f.prefix <= i
    requires i > packetId + 1 ==> w.first.None?
    ensures var v := WalkHoles(cfg, max, w, i, packetId, now);
            if v.reached then Exceeds(cfg, f, max, packetId, now, v, first, end)
            else Walked(cfg, f, max, packetId, now, v, end) && v.first.None? && end > packetId
    decreases packetId + 2 - i
  {
    hide StepWalk, Collected, PassedTo, Due, Collecting;
    first, end := 0, i;
    if i <= packetId + 1 {
      WalkShape(cfg, f, max, packetId, now, w, i);
      StepKeeps(cfg, max, w, i, packetId, now);
      var v := StepWalk(cfg, max, w, i, packetId, now);
      if w.first.Some? && !Due(f, packetId, now, i) {
        HoleEnds(cfg, f, max, packetId, now, w, i);
        if v.reached {
          first, end := w.first.value, i;
          assert WalkHoles(cfg, max, v, i + 1, packetId, now) == v;
          ExceedsHere(cfg, f, max, packetId, now, w, v, i);
        } else {
          ClosedHere(cfg, f, max, packetId, now, w, i);
          first, end := WalkEnds(cfg, f, max, packetId, now, v, i + 1);
        }
      } else {
        StepWalked(cfg, f, max, packetId, now, w, i);
        ClosedHere(cfg, f, max, packetId, now, w, i);
        first, end := WalkEnds(cfg, f, max, packetId, now, v, i + 1);
      }
    }
  }

  /** No hole is left open behind the last packet. */
  lemma ClosedHere(cfg: Config, f: Frame, max: nat, packetId: nat, now: int, w: Walk, i: nat)
    requires Walked(cfg, f, max, packetId, now, w, i) && f.prefix <= i <= packetId + 1
    ensures i + 1 > packetId + 1 ==> StepWalk(cfg, max, w, i, packetId, now).first.None?
  {
  }

  /** The walk stopped at the hole from `first` to before `end`, the first to take
      the requests over the budget: nothing is asked for, the holes before it are
      marked, and it is counted. */
  ghost predicate Exceeds(cfg: Config, f: Frame, max: nat, packetId: nat, now: int, v: Walk, first: nat, end: nat) {
    && v.ranges == [] && f.prefix <= first < end <= packetId + 1
    && (forall k | first <= k < end :: Due(f, packetId, now, k)) && !Due(f, packetId, now, end)
    && (first > 0 ==> !Due(f, packetId, now, first - 1))
    && v.requests == f.resend.requests + DueBelow(f, packetId, now, end) > max
    && (DueBelow(f, packetId, now, first) > 0 ==> f.resend.requests + DueBelow(f, packetId, now, first) <= max)
    && PassedTo(cfg, f, packetId, now, v.packets, first, end + 1)
  }

  lemma ExceedsHere(cfg: Config, f: Frame, max: nat, packetId: nat, now: int, w: Walk, v: Walk, i: nat)
    requires Walked(cfg, f, max, packetId, now, w, i) && w.first.Some? && f.prefix <= i <= packetId + 1 && !Due(f, packetId, now, i)
    requires v.ranges == [] && v.requests == f.resend.requests + DueBelow(f, packetId, now, i) > max
    requires PassedTo(cfg, f, packetId, now, v.packets, w.first.value, i + 1)
    ensures Exceeds(cfg, f, max, packetId, now, v, w.first.value, i)
  {
    hide Due, PassedTo;
    if DueBelow(f, packetId, now, w.first.value) > 0 {
      var k := SomeDue(f, packetId, now, w.first.value);
      assert InSome(w.ranges, k);
    }
  }

  lemma {:induction false} SomeDue(f: Frame, packetId: nat, now: int, n: nat) returns (k: nat)
    requires DueBelow(f, packetId, now, n) > 0
    ensures k < n && Due(f, packetId, now, k)
  {
    if Due(f, packetId, now, n - 1) { k := n - 1; } else { k := SomeDue(f, packetId, now, n - 1); }
  }

  lemma WalkBegins(cfg: Config, f: Frame, max: nat, packetId: nat, now: int)
    requires packetId < |f.packets|
    ensures Walked(cfg, f, max, packetId, now, StartWalk(f), f.prefix)
  {
    NoneBelow(f, packetId, now, f.prefix);
  }

  // --------------------------------------------------------------- theorems

  lemma BudgetIsFloor(cfg: Config, packets: nat)
    ensures var max := MaxRequests(cfg, packets);
            if cfg.ratio <= 0.0 then max == 0
            else max as real <= packets as real * cfg.ratio < max as real + 1.0
  {
  }

  /** Nothing is done for a frame that may not ask, or has no such packet. */
  lemma NotAllowed(cfg: Config, f: Frame, packetId: nat, now: int)
    requires !cfg.resendEnabled || f.resend.disabled || f.resend.ratioReached || packetId >= |f.packets|
             || MaxRequests(cfg, |f.packets|) == 0
    ensures MissingCheck(cfg, f, packetId, now) == (f, [])
  {
    hide MaxRequests;
    assert f.resend == f.resend.(requests := f.resend.requests, ratioReached := f.resend.ratioReached || false);
  }

  /** Within the budget exactly the packets that are due are asked for, in ascending
      ranges of whole holes, and exactly those become requested; other packets still
      missing get their first deadline. Over it nothing is asked for, then or later:
      the ratio is reached. */
  lemma AsksForDue(cfg: Config, f: Frame, packetId: nat, now: int)
    requires cfg.resendEnabled && !f.resend.disabled && !f.resend.ratioReached
    requires packetId < |f.packets| && MaxRequests(cfg, |f.packets|) != 0
    ensures var (g, ranges) := MissingCheck(cfg, f, packetId, now);
            var due := DueCount(f, packetId, now);
            if due == 0 || f.resend.requests + due <= MaxRequests(cfg, |f.packets|) then
              && (forall k: nat :: InSome(ranges, k) <==> Due(f, packetId, now, k)) && Apart(ranges)
              && g.resend == f.resend.(requests := f.resend.requests + due)
              && PassedTo(cfg, f, packetId, now, g.packets, packetId + 1, packetId + 1)
            else ranges == [] && g.resend.ratioReached
  {
    hide MaxRequests, WalkHoles, Due, PassedTo, Apart;
    var max := MaxRequests(cfg, |f.packets|);
    WalkBegins(cfg, f, max, packetId, now);
    var first, end := WalkEnds(cfg, f, max, packetId, now, StartWalk(f), f.prefix);
    var v := WalkHoles(cfg, max, StartWalk(f), f.prefix, packetId, now);
    if v.reached {
      DueGrows(f, packetId, now, end, packetId + 1);
      DueGrows(f, packetId, now, first + 1, end);
    } else {
      NoneBehind(f, packetId, now, packetId + 1, end);
      AllSeen(cfg, f, packetId, now, v.packets, end);
      AllIn(f, packetId, now, v.ranges, end);
      if DueCount(f, packetId, now) > 0 { RangesWhenDue(f, packetId, now, v.ranges); }
    }
  }

  lemma RangesWhenDue(f: Frame, packetId: nat, now: int, ranges: seq<Range>)
    requires DueCount(f, packetId, now) > 0 && forall k: nat :: InSome(ranges, k) <==> Due(f, packetId, now, k)
    ensures ranges != []
  {
    hide Due;
    var k := SomeDue(f, packetId, now, packetId + 1);
    assert InSome(ranges, k);
  }

  /** Over the budget, the walk stops at the first hole that exceeds it: the holes
      before that one are marked requested though nothing is sent. */
  lemma StopsOverBudget(cfg: Config, f: Frame, packetId: nat, now: int) returns (first: nat, end: nat)
    requires cfg.resendEnabled && !f.resend.disabled && !f.resend.ratioReached
    requires packetId < |f.packets| && MaxRequests(cfg, |f.packets|) != 0
    requires DueCount(f, packetId, now) > 0 && f.resend.requests + DueCount(f, packetId, now) > MaxRequests(cfg, |f.packets|)
    ensures var g := MissingCheck(cfg, f, packetId, now).0;
            Exceeds(cfg, f, MaxRequests(cfg, |f.packets|), packetId, now, Walk(g.packets, g.resend.requests, [], None, true), first, end)
  {
    hide MaxRequests, WalkHoles, Due, PassedTo, Apart;
    var max := MaxRequests(cfg, |f.packets|);
    WalkBegins(cfg, f, max, packetId, now);
    first, end := WalkEnds(cfg, f, max, packetId, now, StartWalk(f), f.prefix);
    AsksForDue(cfg, f, packetId, now);
  }

  lemma {:induction false} NoneBehind(f: Frame, packetId: nat, now: int, m: nat, n: nat)
    requires packetId < m <= n
    ensures DueBelow(f, packetId, now, m) == DueBelow(f, packetId, now, n)
  {
    if m < n { NoneBehind(f, packetId, now, m, n - 1); }
  }

  lemma AllSeen(cfg: Config, f: Frame, packetId: nat, now: int, packets: seq<PacketState>, end: nat)
    requires PassedTo(cfg, f, packetId, now, packets, end, end) && end > packetId
    ensures PassedTo(cfg, f, packetId, now, packets, packetId + 1, packetId + 1)
  {
  }

  lemma AllIn(f: Frame, packetId: nat, now: int, ranges: seq<Range>, end: nat)
    requires Collected(f, packetId, now, ranges, end) && end > packetId
    ensures forall k: nat :: InSome(ranges, k) <==> Due(f, packetId, now, k)
  {
  }
}
