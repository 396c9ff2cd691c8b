/** Asking for missing packets again: the walk over a frame's holes, the ranges
    it requests and the budget that bounds them. */
module Holes {
  import opened Gvsp
  import opened Reassembly

  type Range = (nat, nat)

  function MaxRequests(cfg: Config, packets: nat): nat {
    if cfg.ratio <= 0.0 then 0 else (packets as real * cfg.ratio).Floor
  }

  /** The walk's variables: the packets, the frame's request count, the holes
      collected so far, the start of the hole being collected, and whether the
      budget was exceeded. */
  datatype Walk = Walk(packets: seq<PacketState>, requests: nat, ranges: seq<Range>, first: Option<nat>, reached: bool)

  function Armed(packets: seq<PacketState>, i: nat, deadline: int): seq<PacketState>
    requires i < |packets|
  {
    if packets[i].deadline.Some? then packets else packets[i := packets[i].(deadline := Some(deadline))]
  }

  function Asked(packets: seq<PacketState>, first: nat, last: nat, deadline: int): (r: seq<PacketState>)
    ensures |r| == |packets|
    ensures forall i | 0 <= i < |packets| ::
              r[i] == if first <= i <= last then packets[i].(requested := true, deadline := Some(deadline)) else packets[i]
  {
    seq(|packets|, i requires 0 <= i < |packets| =>
      if first <= i <= last then packets[i].(requested := true, deadline := Some(deadline)) else packets[i])
  }

  /** A hole ends before packet `i`: count it, and request it if the budget allows. */
  function EndHole(cfg: Config, max: nat, w: Walk, i: nat, now: int): Walk
    requires w.first.Some? && w.first.value < i
  {
    var first := w.first.value;
    var requests := w.requests + (i - first);
    if requests > max then Walk(w.packets, requests, [], None, true)
    else Walk(Asked(w.packets, first, i - 1, now + cfg.packetTimeout), requests, w.ranges + [(first, i - 1)], None, false)
  }

  function StepWalk(cfg: Config, max: nat, w: Walk, i: nat, packetId: nat, now: int): Walk
    requires packetId < |w.packets| && (w.first.Some? ==> w.first.value < i)
  {
    var missing := i <= packetId && !w.packets[i].received;
    var packets := if missing then Armed(w.packets, i, now + cfg.initialTimeout) else w.packets;
    var need := missing && now > packets[i].deadline.value;
    var v := w.(packets := packets, first := if need && w.first.None? then Some(i) else w.first);
    if !need && w.first.Some? then EndHole(cfg, max, v, i, now) else v
  }

  function WalkHoles(cfg: Config, max: nat, w: Walk, i: nat, packetId: nat, now: int): Walk
    requires packetId < |w.packets| && (w.first.Some? ==> w.first.value < i)
    decreases packetId + 2 - i
  {
    if i > packetId + 1 || w.reached then w
    else WalkHoles(cfg, max, StepWalk(cfg, max, w, i, packetId, now), i + 1, packetId, now)
  }

  predicate Allowed(cfg: Config, f: Frame, packetId: nat) {
    && cfg.resendEnabled && !f.resend.disabled && !f.resend.ratioReached
    && MaxRequests(cfg, |f.packets|) != 0 && packetId < |f.packets|
  }

  function StartWalk(f: Frame): Walk { Walk(f.packets, f.resend.requests, [], None, false) }

  function FullWalk(cfg: Config, f: Frame, packetId: nat, now: int): Walk {
    if !Allowed(cfg, f, packetId) then StartWalk(f)
    else WalkHoles(cfg, MaxRequests(cfg, |f.packets|), StartWalk(f), f.prefix, packetId, now)
  }

  /** The frame after the walk, and the ranges to request. */
  function MissingCheck(cfg: Config, f: Frame, packetId: nat, now: int): (Frame, seq<Range>) {
    var w := FullWalk(cfg, f, packetId, now);
    (f.(packets := w.packets,
        resend := f.resend.(requests := w.requests, ratioReached := f.resend.ratioReached || w.reached)),
     w.ranges)
  }

  /** One turn of the loop, in place. */
  method Turn(cfg: Config, max: nat, w: Walk, i: nat, packetId: nat, now: int) returns (v: Walk)
    requires packetId < |w.packets| && (w.first.Some? ==> w.first.value < i)
    ensures v == StepWalk(cfg, max, w, i, packetId, now)
  {
    v := w;
    var need := false;
    if i <= packetId && !v.packets[i].received {
      if v.packets[i].deadline.None? {
        v := v.(packets := v.packets[i := v.packets[i].(deadline := Some(now + cfg.initialTimeout))]);
      }
      need := now > v.packets[i].deadline.value;
    }
    if need && v.first.None? { v := v.(first := Some(i)); }
    if (i > packetId || !need) && v.first.Some? {
      var first := v.first.value;
      v := v.(requests := v.requests + (i - first), first := None);
      if v.requests > max {
        v := v.(ranges := [], reached := true);
      } else {
        v := v.(packets := Asked(v.packets, first, i - 1, now + cfg.packetTimeout), ranges := v.ranges + [(first, i - 1)], reached := false);
      }
    }
  }

  lemma StepKeeps(cfg: Config, max: nat, w: Walk, i: nat, packetId: nat, now: int)
    requires packetId < |w.packets| && (w.first.Some? ==> w.first.value < i)
    ensures var v := StepWalk(cfg, max, w, i, packetId, now);
            |v.packets| == |w.packets| && (v.first.Some? ==> v.first.value < i + 1)
  {
  }

  // ------------------------------------------------------ what is requested

  function RangeSize(r: Range): nat { if r.0 <= r.1 then r.1 - r.0 + 1 else 0 }

  function AskedFor(ranges: seq<Range>): nat
    decreases |ranges|
  {
    if ranges == [] then 0 else AskedFor(ranges[..|ranges| - 1]) + RangeSize(ranges[|ranges| - 1])
  }

  /** A non-empty run of packets of the frame, none of them received. */
  ghost predicate Hole(packets: seq<PacketState>, r: Range, packetId: nat) {
    r.0 <= r.1 <= packetId < |packets| && forall k | r.0 <= k <= r.1 :: !packets[k].received
  }

  ghost predicate SameFlags(a: seq<PacketState>, b: seq<PacketState>) {
    |a| == |b| && forall i | 0 <= i < |a| :: a[i].received == b[i].received
  }

  /** What every step of the walk keeps, from a frame with these packets. */
  ghost predicate Honest(packets: seq<PacketState>, requests: nat, max: nat, w: Walk, i: nat, packetId: nat) {
    && SameFlags(packets, w.packets) && packetId < |packets|
    && (w.first.Some? ==> w.first.value < i && Hole(packets, (w.first.value, i - 1), packetId))
    && (forall r | r in w.ranges :: Hole(packets, r, packetId))
    && requests + AskedFor(w.ranges) <= w.requests
    && (w.ranges != [] ==> w.requests <= max)
    && (w.reached ==> w.ranges == [])
  }

  lemma StepHonest(cfg: Config, packets: seq<PacketState>, requests: nat, max: nat, w: Walk, i: nat, packetId: nat, now: int)
    requires Honest(packets, requests, max, w, i, packetId) && i <= packetId + 1 && !w.reached
    ensures Honest(packets, requests, max, StepWalk(cfg, max, w, i, packetId, now), i + 1, packetId)
  {
    var v := StepWalk(cfg, max, w, i, packetId, now);
    if v.ranges != w.ranges && !v.reached {
      assert v.ranges[..|w.ranges|] == w.ranges;
    }
  }

  lemma {:induction false} WalkHonest(cfg: Config, packets: seq<PacketState>, requests: nat, max: nat, w: Walk, i: nat, packetId: nat, now: int)
    returns (j: nat)
    requires Honest(packets, requests, max, w, i, packetId)
    ensures Honest(packets, requests, max, WalkHoles(cfg, max, w, i, packetId, now), j, packetId)
    decreases packetId + 2 - i
  {
    hide StepWalk, Hole, AskedFor;
    j := i;
    if i <= packetId + 1 && !w.reached {
      StepHonest(cfg, packets, requests, max, w, i, packetId, now);
      j := WalkHonest(cfg, packets, requests, max, StepWalk(cfg, max, w, i, packetId, now), i + 1, packetId, now);
    }
  }

  /** Every range asked for is a non-empty run of packets still missing; the
      packets asked for are counted first, and none is requested over budget.
      Nothing but the resend bookkeeping of the frame changes. */
  lemma RequestsAreHoles(cfg: Config, f: Frame, packetId: nat, now: int)
    ensures var (g, ranges) := MissingCheck(cfg, f, packetId, now);
            && SameFlags(f.packets, g.packets) && g == f.(packets := g.packets, resend := g.resend)
            && g.resend.disabled == f.resend.disabled
            && (forall r | r in ranges :: Hole(f.packets, r, packetId))
            && f.resend.requests + AskedFor(ranges) <= g.resend.requests
            && (ranges != [] ==> g.resend.requests <= MaxRequests(cfg, |f.packets|))
  {
    hide MaxRequests, WalkHoles;
    if Allowed(cfg, f, packetId) {
      var _ := WalkHonest(cfg, f.packets, f.resend.requests, MaxRequests(cfg, |f.packets|), StartWalk(f), f.prefix, packetId, now);
    }
  }
}
