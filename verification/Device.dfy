/** The GigE Vision device: its register memory and how it carries out commands. */
module Device {
  import opened Gvsp
  import opened Gvcp

  const STREAM_CHANNEL_PACKET_SIZE: U32 := 0x0d04
  const INVALID_ADDRESS: nat := 0x8003

  predicate Inside(mem: Bytes, addr: nat, count: nat) { addr + count <= |mem| }

  function Spliced(mem: Bytes, addr: nat, data: Bytes): (r: Bytes)
    requires addr + |data| <= |mem|
    ensures |r| == |mem|
  {
    mem[..addr] + data + mem[addr + |data|..]
  }

  function WordAt(mem: Bytes, addr: nat): U32
    requires Inside(mem, addr, 4)
  {
    Word(mem[addr..addr + 4])
  }

  /** The value a register write stores: a packet size is rounded down to the
      largest the device sends. */
  function Stored(maxPacket: Option<nat>, addr: U32, value: U32): U32 {
    if addr == STREAM_CHANNEL_PACKET_SIZE && maxPacket.Some?
    then value / 0x1_0000 * 0x1_0000 + Min(value % 0x1_0000, maxPacket.value)
    else value
  }

  /** The bytes of several registers; None when one lies outside the memory. */
  function RegisterBytes(mem: Bytes, addrs: seq<U32>): Option<Bytes> {
    if addrs == [] then Some([])
    else if !Inside(mem, addrs[0], 4) then None
    else
      match RegisterBytes(mem, addrs[1..])
      case None => None
      case Some(rest) => Some(mem[addrs[0]..addrs[0] + 4] + rest)
  }

  datatype Writes = Writes(mem: Bytes, complete: bool)

  /** Several register writes, up to the first outside the memory. */
  function WriteAll(maxPacket: Option<nat>, mem: Bytes, pairs: seq<(U32, U32)>): (w: Writes)
    ensures |w.mem| == |mem|
    decreases |pairs|
  {
    if pairs == [] then Writes(mem, true)
    else
      var (addr, value) := pairs[0];
      if !Inside(mem, addr, 4) then Writes(mem, false)
      else WriteAll(maxPacket, Spliced(mem, addr, WordBytes(Stored(maxPacket, addr, value))), pairs[1..])
  }

  datatype Effect = Effect(mem: Bytes, ack: Ack)

  function Refusal(d: Datagram): Ack { Ack(INVALID_ADDRESS, Code(d.command) + 1, d.id, []) }

  function Success(d: Datagram, payload: Bytes): Ack { Ack(0, Code(d.command) + 1, d.id, payload) }

  /** Carries out a command. `short` is the most bytes a memory read answers with;
      a read is never answered with nothing when something was asked for. */
  function Execute(maxPacket: Option<nat>, mem: Bytes, d: Datagram, short: Pos): (r: Effect)
    ensures |r.mem| == |mem| && r.ack.ackId == d.id && r.ack.answer == Code(d.command) + 1
    ensures d.command.ReadRegister? || d.command.ReadMemory? ==> r.mem == mem
  {
    match d.command
    case ReadRegister(addrs) =>
      (match RegisterBytes(mem, addrs)
       case None => Effect(mem, Refusal(d))
       case Some(bytes) => Effect(mem, Success(d, bytes)))
    case WriteRegister(pairs) =>
      var w := WriteAll(maxPacket, mem, pairs);
      Effect(w.mem, if w.complete then Success(d, WordBytes(|pairs| % 0x1_0000_0000)) else Refusal(d))
    case ReadMemory(addr, count) =>
      if !Inside(mem, addr, count) || count > DATA_SIZE_MAX then Effect(mem, Refusal(d))
      else Effect(mem, Success(d, WordBytes(addr) + mem[addr..addr + Min(count, short)]))
    case WriteMemory(addr, data) =>
      if !Inside(mem, addr, |data|) then Effect(mem, Refusal(d))
      else Effect(Spliced(mem, addr, data), Success(d, WordBytes(|data| % 0x1_0000_0000)))
  }

  // ------------------------------------------------------------------ facts

  /** Only a stream packet size is changed on its way in: rounded down to the
      largest, its flags kept, and unchanged when it fits. */
  lemma StoredRounded(maxPacket: Option<nat>, addr: U32, value: U32)
    requires maxPacket.Some? ==> maxPacket.value < 0x1_0000
    ensures var stored := Stored(maxPacket, addr, value);
            && (addr != STREAM_CHANNEL_PACKET_SIZE || maxPacket.None? ==> stored == value)
            && (addr == STREAM_CHANNEL_PACKET_SIZE && maxPacket.Some? ==>
                  && stored / 0x1_0000 == value / 0x1_0000 && stored % 0x1_0000 <= maxPacket.value
                  && (stored == value <==> value % 0x1_0000 <= maxPacket.value))
  {
  }

  /** Writes in two goes are writes in one. */
  lemma {:induction false} WriteAllJoins(maxPacket: Option<nat>, mem: Bytes, a: seq<(U32, U32)>, b: seq<(U32, U32)>)
    requires WriteAll(maxPacket, mem, a).complete
    ensures WriteAll(maxPacket, mem, a + b) == WriteAll(maxPacket, WriteAll(maxPacket, mem, a).mem, b)
    decreases |a|
  {
    hide Stored;
    if a == [] {
      assert a + b == b;
    } else {
      assert (a + b)[1..] == a[1..] + b && (a + b)[0] == a[0];
      var next := Spliced(mem, a[0].0, WordBytes(Stored(maxPacket, a[0].0, a[0].1)));
      WriteAllJoins(maxPacket, next, a[1..], b);
    }
  }

  /** Register bytes read back as the registers' words. */
  lemma {:induction false} RegisterWords(mem: Bytes, addrs: seq<U32>)
    requires RegisterBytes(mem, addrs).Some?
    ensures var bytes := RegisterBytes(mem, addrs).value;
            && |bytes| == 4 * |addrs| && |Words(bytes)| == |addrs|
            && (forall i | 0 <= i < |addrs| :: Inside(mem, addrs[i], 4) && Words(bytes)[i] == WordAt(mem, addrs[i]))
    decreases |addrs|
  {
    hide Word;
    if addrs != [] {
      RegisterWords(mem, addrs[1..]);
      var first, rest := mem[addrs[0]..addrs[0] + 4], RegisterBytes(mem, addrs[1..]).value;
      var bytes := RegisterBytes(mem, addrs).value;
      assert bytes[..4] == first && bytes[4..] == rest;
      assert Words(bytes) == [Word(first)] + Words(rest);
    }
  }

  /** Two neighbouring splices are one. */
  lemma SpliceJoins(mem: Bytes, addr: nat, a: Bytes, b: Bytes)
    requires addr + |a| + |b| <= |mem|
    ensures Spliced(Spliced(mem, addr, a), addr + |a|, b) == Spliced(mem, addr, a + b)
  {
  }
}
