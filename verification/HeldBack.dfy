/** A run in which a frame is delivered as complete without its data: two trailers
    disagree, the first takes payload packet 1's place, and so the block size is
    never learned. */
module HeldBack {
  import opened Gvsp
  import opened Reassembly
  import opened Holes
  import opened Receiver

  const Small := Config(576, 100, 1, false, 10, 20, 1000, 0.5)

  function TrailerAt(id: nat): View { View(0, false, 1, id, Trailer, []) }
  const FirstLeader := View(0, false, 1, 0, Leader, [])
  function SecondPayload(x: Bytes): View { View(0, false, 1, 2, Payload, x) }

  /** The one open frame, its packets received as told. */
  predicate Standing(s: State, received: seq<bool>) {
    && !s.first && s.delivered == [] && s.lastId == 1
    && |s.frames| == 1 && Bare(s.frames[0]) && Flags(s.frames[0].packets) == received
    && s.frames[0].prefix == FirstMissing(s.frames[0].packets, 0)
  }

  predicate Bare(f: Frame) {
    && f.frameId == 1 && !f.extended && |f.data| == 100 && f.lastTime == 0 && f.replayOf.None?
    && !f.blockKnown && f.trailerSeen && f.held == [] && f.heldBytes == 0 && f.accepted == []
    && f.receivedSize == 0 && f.dataEnd == 0 && f.error.None?
  }

  function Flags(packets: seq<PacketState>): (r: seq<bool>)
    ensures |r| == |packets|
  {
    seq(|packets|, i requires 0 <= i < |packets| => packets[i].received)
  }

  lemma NoRequests(s: State, i: nat, packetId: nat)
    requires i < |s.frames|
    ensures AskAgain(Small, s, i, packetId, 0) == s
  {
    var f := s.frames[i];
    assert f.resend == Resend(f.resend.disabled, f.resend.ratioReached, f.resend.requests);
    assert f.(packets := f.packets, resend := f.resend) == f;
  }

  /** A check at time 0 leaves an unfinished frame open and delivers a finished one. */
  lemma Checked(s: State, f: Frame)
    requires s.frames == [f] && f.lastTime == 0 && f.replayOf.None?
    ensures f.prefix != |f.packets| ==> CheckCompletion(Small, s, 0, Some(1), 0, true) == s
    ensures f.prefix == |f.packets| ==>
              CheckCompletion(Small, s, 0, Some(1), 0, true).delivered == s.delivered + [Delivered(FinalStatus(f), f)]
  {
    NoRequests(s, 0, Max(|f.packets| - 1, 0));
    if f.prefix == |f.packets| {
      var t := CloseFrame(s, 0, FinalStatus(f));
      assert t.frames == [];
      assert CheckCompletion(Small, t, 0, Some(1), 0, true) == t;
    }
  }

  lemma Opened()
    ensures Standing(ProcessPacket(Small, Initial(Small), Some(TrailerAt(1)), 0), [false, true])
  {
    hide AskAgain, CheckCompletion, FirstMissing;
    var s := Initial(Small);
    var routed := FindOrCreate(Small, Start(s, TrailerAt(1)), TrailerAt(1), 0);
    var f := routed.state.frames[0];
    assert f.packets == [Unseen, Unseen];
    var g := TakeInto(Small, f, TrailerAt(1));
    var t := routed.state.(frames := routed.state.frames[0 := g]);
    assert t.frames == [g];
    NoRequests(t, 0, 1);
    assert FirstMissing(g.packets, 0) == 0;
    Checked(t, g);
    assert Flags(g.packets) == [false, true];
  }

  lemma SecondTrailer(s: State)
    requires Standing(s, [false, true])
    ensures Standing(ProcessPacket(Small, s, Some(TrailerAt(3)), 0), [false, true, false, true])
  {
    hide AskAgain, CheckCompletion, FirstMissing;
    var f := s.frames[0];
    Touched(s);
    assert Flags(f.packets)[0] == false && Flags(f.packets)[1] == true;
    var g := TakeInto(Small, f, TrailerAt(3));
    var t := s.(frames := [g]);
    assert s.frames[0 := g] == [g];
    NoRequests(t, 0, 3);
    assert FirstMissing(g.packets, 0) == 0;
    Checked(t, g);
    assert Flags(g.packets) == [false, true, false, true];
  }

  lemma Touched(s: State)
    requires |s.frames| == 1 && s.frames[0].frameId == 1 && s.frames[0].lastTime == 0
    ensures FindFrame(s.frames, 1) == 0
    ensures s.(frames := s.frames[0 := s.frames[0].(lastTime := 0)]) == s
  {
    assert s.frames[0 := s.frames[0].(lastTime := 0)] == s.frames;
  }

  lemma LeaderNext(s: State)
    requires Standing(s, [false, true, false, true])
    ensures Standing(ProcessPacket(Small, s, Some(FirstLeader), 0), [true, true, false, true])
  {
    hide AskAgain, CheckCompletion;
    var f := s.frames[0];
    Touched(s);
    var r := Flags(f.packets);
    assert !r[0] && r[1] && !r[2] && r[3];
    var g := TakeInto(Small, f, FirstLeader);
    var t := s.(frames := [g]);
    assert s.frames[0 := g] == [g];
    NoRequests(t, 0, 0);
    assert g.prefix == 2 == FirstMissing(g.packets, 0);
    Checked(t, g);
    assert Flags(g.packets) == [true, true, false, true];
  }

  lemma PayloadLast(s: State, x: Bytes) returns (d: Delivered)
    requires Standing(s, [true, true, false, true]) && 0 < |x| <= 100
    ensures ProcessPacket(Small, s, Some(SecondPayload(x)), 0).delivered == [d]
    ensures d.status.Complete? && Data(d) == [] && d.frame.accepted == [(2, x)] && d.frame.heldBytes == |x|
  {
    hide AskAgain, CheckCompletion;
    var f := s.frames[0];
    Touched(s);
    var r := Flags(f.packets);
    assert r[0] && r[1] && !r[2] && r[3];
    assert f.prefix == 2;
    var g := TakeInto(Small, f, SecondPayload(x));
    var t := s.(frames := [g]);
    assert s.frames[0 := g] == [g];
    NoRequests(t, 0, 2);
    assert g.prefix == 4;
    Checked(t, g);
    d := Delivered(FinalStatus(g), g);
  }

  /** Complete, one payload packet accepted, and no data shown. */
  lemma CompleteWithoutData(x: Bytes) returns (d: Delivered)
    requires 0 < |x| <= 100
    ensures var events := [Packet(Some(TrailerAt(1)), 0), Packet(Some(TrailerAt(3)), 0),
                           Packet(Some(FirstLeader), 0), Packet(Some(SecondPayload(x)), 0)];
            Run(Small, Initial(Small), events).delivered == [d]
    ensures d.status.Complete? && d.frame.accepted == [(2, x)] && Data(d) == [] && d.frame.heldBytes == |x|
  {
    hide ProcessPacket, Standing, Initial;
    var s0 := Initial(Small);
    var e1, e2, e3, e4 := Packet(Some(TrailerAt(1)), 0), Packet(Some(TrailerAt(3)), 0),
                          Packet(Some(FirstLeader), 0), Packet(Some(SecondPayload(x)), 0);
    Opened();
    var s1 := Step(Small, s0, e1);
    SecondTrailer(s1);
    var s2 := Step(Small, s1, e2);
    LeaderNext(s2);
    var s3 := Step(Small, s2, e3);
    d := PayloadLast(s3, x);
    assert Run(Small, s0, [e1]) == s1;
    assert [e1, e2][..1] == [e1] && Run(Small, s0, [e1, e2]) == s2;
    assert [e1, e2, e3][..2] == [e1, e2] && Run(Small, s0, [e1, e2, e3]) == s3;
    assert [e1, e2, e3, e4][..3] == [e1, e2, e3];
  }
}
