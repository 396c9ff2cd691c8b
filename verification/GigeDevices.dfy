/** The device in place: its memory an array that commands read and write. */
module GigeDevices {
  import opened Gvsp
  import opened Gvcp
  import opened Device
  import Reassembly
  import Bursts

  /** The last command answered, and how. */
  datatype Answered = Answered(code: nat, id: nat, ack: Ack)

  class GigeDevice {
    const mem: array<bv8>
    const maxPacket: Option<nat>
    var last: Option<Answered>
    var duplicates: nat

    constructor (size: nat, maxPacket: Option<nat>)
      ensures fresh(mem) && mem.Length == size && this.maxPacket == maxPacket && last.None? && duplicates == 0
      ensures forall i | 0 <= i < size :: mem[i] == 0
    {
      mem := new bv8[size](_ => 0);
      this.maxPacket := maxPacket;
      last, duplicates := None, 0;
    }

    method WriteBytes(addr: nat, data: Bytes)
      requires Inside(mem[..], addr, |data|)
      modifies mem
      ensures mem[..] == Spliced(old(mem[..]), addr, data)
    {
      forall i | 0 <= i < |data| { mem[addr + i] := data[i]; }
    }

    method ReadRegisters(addrs: seq<U32>) returns (bytes: Option<Bytes>)
      ensures bytes == RegisterBytes(mem[..], addrs)
    {
      var values: Bytes := [];
      ghost var whole := RegisterBytes(mem[..], addrs);
      assert addrs[0..] == addrs && (whole.Some? ==> values + whole.value == whole.value);
      for i := 0 to |addrs|
        invariant RegisterBytes(mem[..], addrs) ==
                  match RegisterBytes(mem[..], addrs[i..]) { case None => None case Some(rest) => Some(values + rest) }
      {
        if addrs[i] + 4 > mem.Length {
          return None;
        }
        assert addrs[i..][1..] == addrs[i + 1..];
        ghost var rest := RegisterBytes(mem[..], addrs[i + 1..]);
        assert rest.Some? ==> values + (mem[..][addrs[i]..addrs[i] + 4] + rest.value) == (values + mem[addrs[i]..addrs[i] + 4]) + rest.value;
        values := values + mem[addrs[i]..addrs[i] + 4];
      }
      assert addrs[|addrs|..] == [] && values + [] == values;
      return Some(values);
    }

    /** Writes the registers in order, up to one that lies outside. */
    method WriteRegisters(pairs: seq<(U32, U32)>) returns (complete: bool)
      modifies mem
      ensures WriteAll(maxPacket, old(mem[..]), pairs) == Writes(mem[..], complete)
    {
      for i := 0 to |pairs|
        invariant WriteAll(maxPacket, mem[..], pairs[i..]) == WriteAll(maxPacket, old(mem[..]), pairs)
      {
        var addr, value := pairs[i].0, pairs[i].1;
        assert pairs[i..][1..] == pairs[i + 1..];
        if addr + 4 > mem.Length {
          return false;
        }
        WriteBytes(addr, WordBytes(Stored(maxPacket, addr, value)));
      }
      return true;
    }

    method Carry(d: Datagram, short: Pos) returns (ack: Ack)
      modifies mem
      ensures Effect(mem[..], ack) == Execute(maxPacket, old(mem[..]), d, short)
    {
      match d.command
      case ReadRegister(addrs) =>
        var bytes := ReadRegisters(addrs);
        ack := if bytes.Some? then Success(d, bytes.value) else Refusal(d);
      case WriteRegister(pairs) =>
        var complete := WriteRegisters(pairs);
        ack := if complete then Success(d, WordBytes(|pairs| % 0x1_0000_0000)) else Refusal(d);
      case ReadMemory(addr, count) =>
        if addr + count > mem.Length || count > DATA_SIZE_MAX {
          ack := Refusal(d);
        } else {
          ack := Success(d, WordBytes(addr) + mem[addr..addr + Min(count, short)]);
        }
      case WriteMemory(addr, data) =>
        if addr + |data| > mem.Length {
          ack := Refusal(d);
        } else {
          WriteBytes(addr, data);
          ack := Success(d, WordBytes(|data| % 0x1_0000_0000));
        }
    }

    /** A command that came last time too is answered again, not carried out. */
    method HandleDatagram(d: Datagram, short: Pos) returns (ack: Ack)
      modifies this, mem
      ensures var again := old(last.Some? && last.value.code == Code(d.command) && last.value.id == d.id);
              && (again ==> ack == old(last).value.ack && mem[..] == old(mem[..]) && last == old(last)
                            && duplicates == old(duplicates) + 1)
              && (!again ==> Effect(mem[..], ack) == Execute(maxPacket, old(mem[..]), d, short)
                             && last == Some(Answered(Code(d.command), d.id, ack)) && duplicates == old(duplicates))
    {
      if last.Some? && last.value.code == Code(d.command) && last.value.id == d.id {
        duplicates := duplicates + 1;
        return last.value.ack;
      }
      ack := Carry(d, short);
      last := Some(Answered(Code(d.command), d.id, ack));
    }
  }

  // ------------------------------------------------------------------ frames

  /** Image data a payload packet holds at a stream packet size. */
  function BlockSize(scps: nat): Pos { if scps <= Overhead(false) then 1 else scps - Overhead(false) }

  /** An image leader; `rest` are its timestamp, format and geometry fields. */
  function LeaderBytes(rest: Bytes): Bytes { [0, 0, 0, 1] + rest }

  const TrailerBytes: Bytes := [0, 1, 0, 0, 0, 0]

  function FrameBurst(id: nat, image: Bytes, scps: nat, rest: Bytes): Bursts.Burst {
    Bursts.Burst(id, false, LeaderBytes(rest), TrailerBytes, image, BlockSize(scps))
  }

  /** The packets of one frame: leader, payload blocks and trailer, each the
      burst's packet of its position. */
  method FramePackets(id: nat, image: Bytes, scps: nat, rest: Bytes) returns (packets: seq<View>)
    ensures var b := FrameBurst(id, image, scps, rest);
            && |packets| == b.Last() + 1
            && forall k | 0 <= k < |packets| :: packets[k].packetId == k && b.Sends(packets[k])
  {
    var block := BlockSize(scps);
    ghost var b := FrameBurst(id, image, scps, rest);
    packets := [View(0, false, id, 0, Leader, LeaderBytes(rest))];
    var offset, n := 0, 0;
    while offset < |image|
      invariant n <= b.Count() && |packets| == n + 1
      invariant offset == if n < b.Count() then n * block else |image|
      invariant offset < |image| <==> n < b.Count()
      invariant forall k | 0 <= k < |packets| :: packets[k].packetId == k && b.Sends(packets[k])
      decreases |image| - offset
    {
      Bursts.ChunkSizes(image, block, n + 1);
      assert Reassembly.Offset(n + 1, block) == n * block;
      var end := Min(offset + block, |image|);
      assert b.Body(n + 1) == image[offset..end];
      packets := packets + [View(0, false, id, n + 1, Payload, image[offset..end])];
      offset, n := end, n + 1;
      assert n < b.Count() ==> offset == n * block < |image| by {
        if n < b.Count() { Bursts.ChunkSizes(image, block, n + 1); assert Reassembly.Offset(n + 1, block) == n * block; }
      }
    }
    packets := packets + [View(0, false, id, n + 1, Trailer, TrailerBytes)];
  }

  /** Its leader announces an image, so a receiver reassembles it. */
  lemma LeaderReassembled(rest: Bytes)
    requires |rest| >= 8
    ensures Reassembled(LeaderBytes(rest))
  {
    var leader := LeaderBytes(rest);
    assert leader[2] == 0 && leader[3] == 1;
    assert (leader[2] as nat) == 0 && (leader[3] as nat) == 1;
  }
}
