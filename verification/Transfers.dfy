/** From the device's image to the consumer's: the packets the device cuts an image
    into, received in place in any order, deliver that image. */
module Transfers {
  import opened Gvsp
  import opened Reassembly
  import opened Receiver
  import opened Bursts
  import opened Delivery
  import opened GigeDevices
  import opened StreamRunners

  /** Which packet arrives, and when. */
  datatype Pick = Pick(index: nat, at: int)

  /** The packets arrive in any order with any repeats, all of them, and none a
      retention time after the one before. */
  ghost predicate AllArrive(cfg: Config, order: seq<Pick>, last: nat) {
    && (forall p | p in order :: p.index <= last) && (forall k: nat | k <= last :: Arrives(order, k))
    && (forall i | 0 < i < |order| :: order[i].at - order[i - 1].at < cfg.retention)
  }

  predicate Arrives(order: seq<Pick>, k: nat) { exists p | p in order :: p.index == k }

  /** The receiver is set up for the device's frames: an image that fits the payload
      size, cut into at most 2^20 packets. */
  ghost predicate SetUp(cfg: Config, id: nat, image: Bytes, scps: nat, rest: Bytes) {
    && cfg.payloadSize <= USIZE_MAX && EstimatedBlock(cfg, false) >= 1 && cfg.retention >= 1 && cfg.buffers >= 1
    && |image| <= cfg.payloadSize && 1 <= id <= MaxId(false) && |rest| >= 8
    && FrameBurst(id, image, scps, rest).Count() + 2 <= MAX_FRAME_PACKETS
  }

  ghost predicate FramePacketsOf(b: Burst, packets: seq<View>) {
    |packets| == b.Last() + 1 && forall k | 0 <= k < |packets| :: packets[k].packetId == k && b.Sends(packets[k])
  }

  function Arrivals(packets: seq<View>, order: seq<Pick>): (r: seq<Arriving>)
    requires forall p | p in order :: p.index < |packets|
    ensures |r| == |order| && forall i | 0 <= i < |r| :: r[i] == Arriving(packets[order[i].index], order[i].at)
  {
    seq(|order|, i requires 0 <= i < |order| => assert order[i] in order; Arriving(packets[order[i].index], order[i].at))
  }

  lemma SuitsDevice(cfg: Config, id: nat, image: Bytes, scps: nat, rest: Bytes)
    requires SetUp(cfg, id, image, scps, rest)
    ensures Suits(cfg, FrameBurst(id, image, scps, rest))
  {
    hide DivCeil;
    LeaderReassembled(rest);
  }

  lemma AllIds(cfg: Config, b: Burst, packets: seq<View>, order: seq<Pick>)
    requires FramePacketsOf(b, packets) && AllArrive(cfg, order, b.Last())
    ensures var arrivals := Arrivals(packets, order);
            && (forall a | a in arrivals :: b.Sends(a.view)) && Gapless(cfg, arrivals) && Ids(arrivals) == Through(b.Last())
  {
    hide DivCeil, CutBlock;
    var arrivals := Arrivals(packets, order);
    forall k: nat | k <= b.Last() ensures k in Ids(arrivals) {
      assert Arrives(order, k);
      var p :| p in order && p.index == k;
      var i :| 0 <= i < |order| && order[i] == p;
      assert arrivals[i] in arrivals && arrivals[i].view.packetId == k;
    }
    forall i, k | 0 <= i < k < |arrivals| && k == i + 1 ensures arrivals[k].at - arrivals[i].at < cfg.retention {
      assert order[k].at - order[k - 1].at < cfg.retention;
    }
  }

  /** The device cuts the image, the packets arrive as `order` says, and exactly one
      frame is delivered: complete, and the image byte for byte. */
  method Transfer(cfg: Config, id: nat, image: Bytes, scps: nat, rest: Bytes, order: seq<Pick>) returns (runner: StreamRunner)
    requires SetUp(cfg, id, image, scps, rest) && AllArrive(cfg, order, FrameBurst(id, image, scps, rest).Last())
    ensures runner.Valid() && |runner.delivered| == 1
    ensures runner.delivered[0].status == Complete && runner.delivered[0].frame.frameId == id && Data(runner.delivered[0]) == image
  {
    hide ProcessPacket, Initial, Suits, AllArrive, SetUp, Through, Ids, Gapless, Events, StreamRunner.Valid, StreamRunner.Model;
    var packets := FramePackets(id, image, scps, rest);
    ghost var b := FrameBurst(id, image, scps, rest);
    runner := new StreamRunner(cfg);
    InRange(cfg, order, b.Last());
    ghost var arrivals := Arrivals(packets, order);
    ghost var events := Events(arrivals);
    EventAt(arrivals);
    for i := 0 to |order|
      invariant runner.Valid() && fresh(runner) && fresh(runner.owned) && runner.cfg == cfg
      invariant runner.Model() == Run(cfg, Initial(cfg), events[..i])
    {
      assert order[i] in order;
      runner.Receive(Some(packets[order[i].index]), order[i].at);
      assert events[..i + 1][..i] == events[..i];
    }
    assert events[..|order|] == events;
    SuitsDevice(cfg, id, image, scps, rest);
    AllIds(cfg, b, packets, order);
    SetUpParts(cfg, id, image, scps, rest);
    AnyOrderDelivers(cfg, b, arrivals);
  }

  lemma InRange(cfg: Config, order: seq<Pick>, last: nat)
    requires AllArrive(cfg, order, last)
    ensures forall p | p in order :: p.index <= last
  {
  }

  lemma EventAt(arrivals: seq<Arriving>)
    ensures |Events(arrivals)| == |arrivals|
    ensures forall i | 0 <= i < |arrivals| :: Events(arrivals)[i] == Packet(Some(arrivals[i].view), arrivals[i].at)
  {
  }

  lemma SetUpParts(cfg: Config, id: nat, image: Bytes, scps: nat, rest: Bytes)
    requires SetUp(cfg, id, image, scps, rest)
    ensures cfg.retention >= 1 && cfg.buffers >= 1
  {
  }
}
