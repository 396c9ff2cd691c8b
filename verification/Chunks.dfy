/** A request carried out in several transactions does what one step would do. */
module Chunks {
  import opened Gvsp
  import opened Gvcp
  import opened Worker
  import opened WorkerRuns
  import opened Device

  datatype Performed = Performed(mem: Bytes, value: Value)

  function WordsAt(mem: Bytes, addrs: seq<U32>): (ws: seq<U32>)
    requires forall i | 0 <= i < |addrs| :: Inside(mem, addrs[i], 4)
    ensures |ws| == |addrs| && forall i | 0 <= i < |addrs| :: ws[i] == WordAt(mem, addrs[i])
  {
    seq(|addrs|, i requires 0 <= i < |addrs| => WordAt(mem, addrs[i]))
  }

  /** What a request means: its effect on the device memory and its answer, in
      one step; None when it reaches outside the memory. */
  function Perform(maxPacket: Option<nat>, mem: Bytes, request: Request): Option<Performed> {
    match request
    case GetRegister(addr) => if Inside(mem, addr, 4) then Some(Performed(mem, Register(WordAt(mem, addr)))) else None
    case GetRegisters(addrs) =>
      if forall i | 0 <= i < |addrs| :: Inside(mem, addrs[i], 4)
      then Some(Performed(mem, Registers(WordsAt(mem, addrs)))) else None
    case SetRegisters(pairs) =>
      var w := WriteAll(maxPacket, mem, pairs);
      if w.complete then Some(Performed(w.mem, Written)) else None
    case GetMemory(addr, len) =>
      if Inside(mem, addr, len) then Some(Performed(mem, Memory(mem[addr..addr + len]))) else None
    case SetMemory(addr, data) =>
      if Inside(mem, addr, |data|) then Some(Performed(Spliced(mem, addr, data), Written)) else None
  }

  /** What the operation has done so far, starting from memory `base`: the answer
      gathered, and the memory `mem` it has left. */
  ghost predicate DoneSoFar(maxPacket: Option<nat>, base: Bytes, mem: Bytes, request: Request, op: Op) {
    match op
    case ReadReg(_) => mem == base
    case ReadRegs(_, addrs, values) =>
      mem == base && |values| <= |addrs|
      && forall i | 0 <= i < |values| :: Inside(base, addrs[i], 4) && values[i] == WordAt(base, addrs[i])
    case WriteRegs(_, pairs, done) =>
      done <= |pairs| && WriteAll(maxPacket, base, pairs[..done]) == Writes(mem, true)
    case ReadMem(_, bytes, _, _) =>
      mem == base && request.GetMemory? && |bytes| <= request.len
      && (bytes == [] || (Inside(base, request.addr, |bytes|) && bytes == base[request.addr..request.addr + |bytes|]))
    case WriteMem(_, data, offset, baseAddr) =>
      offset <= |data|
      && if offset == 0 then mem == base
         else Inside(base, baseAddr, offset) && mem == Spliced(base, baseAddr, data[..offset])
    case Heartbeat => true
  }

  /** Addresses run below this; a memory that ends before it is never wrapped around. */
  const ADDRESS_SPACE: nat := 0x1_0000_0000

  lemma NothingDone(maxPacket: Option<nat>, base: Bytes, requests: seq<Request>, op: Op)
    requires Serves(requests, op) && !op.Heartbeat? && Progress(op) == 0
    ensures DoneSoFar(maxPacket, base, base, requests[op.handle], op)
  {
    if op.WriteRegs? { assert op.pairs[..0] == []; }
  }

  /** The acknowledge is taken: it ends the request with what one step would give, or
      takes the operation one chunk further; it is never refused. */
  ghost predicate Carried(maxPacket: Option<nat>, base: Bytes, mem: Bytes, request: Request, answer: Answer) {
    match answer
    case Done(value) => Perform(maxPacket, base, request) == Some(Performed(mem, value))
    case More(op, _) => DoneSoFar(maxPacket, base, mem, request, op)
    case _ => false
  }

  lemma ReadRegCarried(cfg: Config, maxPacket: Option<nat>, base: Bytes, addr: U32, op: Op, bytes: Bytes)
    requires op.ReadReg? && RegisterBytes(base, [addr]) == Some(bytes)
    ensures Carried(maxPacket, base, base, GetRegister(addr), Answered(cfg, op, bytes))
  {
    RegisterWords(base, [addr]);
  }

  lemma ReadRegsCarried(cfg: Config, maxPacket: Option<nat>, base: Bytes, op: Op, taken: seq<U32>, bytes: Bytes)
    requires op.ReadRegs? && DoneSoFar(maxPacket, base, base, GetRegisters(op.addrs), op)
    requires taken == Take(Drop(op.addrs, |op.values|), RegsPerCommand(cfg, |Drop(op.addrs, |op.values|)|))
    requires RegisterBytes(base, taken) == Some(bytes)
    ensures Carried(maxPacket, base, base, GetRegisters(op.addrs), Answered(cfg, op, bytes))
  {
    RegisterWords(base, taken);
    var k := |op.values|;
    var all := op.values + Words(bytes);
    forall i | 0 <= i < |all| ensures Inside(base, op.addrs[i], 4) && all[i] == WordAt(base, op.addrs[i]) {
      if i >= k { assert op.addrs[i] == taken[i - k]; }
    }
    if |all| == |op.addrs| { assert all == WordsAt(base, op.addrs); }
  }

  lemma WriteRegsCarried(cfg: Config, maxPacket: Option<nat>, base: Bytes, before: Bytes, op: Op, taken: seq<(U32, U32)>, payload: Bytes)
    requires op.WriteRegs? && DoneSoFar(maxPacket, base, before, SetRegisters(op.pairs), op)
    requires taken == Take(Drop(op.pairs, op.done), RegsPerCommand(cfg, |Drop(op.pairs, op.done)|))
    requires WriteAll(maxPacket, before, taken).complete
    ensures Carried(maxPacket, base, WriteAll(maxPacket, before, taken).mem, SetRegisters(op.pairs), Answered(cfg, op, payload))
  {
    hide WriteAll;
    var d := op.done + |taken|;
    assert op.pairs[..op.done] + taken == op.pairs[..d];
    WriteAllJoins(maxPacket, base, op.pairs[..op.done], taken);
    if d >= |op.pairs| { assert op.pairs[..d] == op.pairs; }
  }

  lemma NoWrap(a: U32, n: nat)
    requires a + n < ADDRESS_SPACE
    ensures AddWrapping(a, n) == a + n
  {
  }

  lemma ReadMemCarried(cfg: Config, maxPacket: Option<nat>, base: Bytes, request: Request, op: Op, n: nat, payload: Bytes)
    requires op.ReadMem? && request.GetMemory? && request.len == op.want && |base| < ADDRESS_SPACE
    requires op.nextAddr == AddWrapping(request.addr, |op.bytes|)
    requires DoneSoFar(maxPacket, base, base, request, op)
    requires Inside(base, op.nextAddr, n) && |payload| == 4 + n && payload[4..] == base[op.nextAddr..op.nextAddr + n]
    requires op.want == |op.bytes| <==> n == 0
    ensures Carried(maxPacket, base, base, request, Answered(cfg, op, payload))
  {
    hide AddWrapping, Answered;
    var a, k := request.addr, |op.bytes|;
    NoWrap(a, k);
    var taken := TakenSlice(base, a + k, n, op.want - k);
    MemoryAnswered(cfg, op, payload, taken);
    SliceExtends(base, a, k, |taken|);
    assert op.bytes == base[a..a + k];
  }

  lemma MemoryAnswered(cfg: Config, op: Op, payload: Bytes, taken: Bytes)
    requires op.ReadMem? && |payload| >= 4 && (|payload| == 4 ==> |op.bytes| >= op.want)
    requires taken == Take(payload[4..], Left(op.want, |op.bytes|))
    ensures var all := op.bytes + taken;
            Answered(cfg, op, payload) == if |all| >= op.want then Done(Memory(all))
                                          else More(ReadMem(op.handle, all, op.want, AddWrapping(op.nextAddr, |taken|)), ReadMemChunk)
  {
  }

  lemma TakenSlice(base: Bytes, a: nat, n: nat, want: nat) returns (taken: Bytes)
    requires a + n <= |base|
    ensures taken == Take(base[a..a + n], want) && |taken| == Min(n, want) && taken == base[a..a + |taken|]
  {
    taken := Take(base[a..a + n], want);
  }

  lemma SliceExtends(base: Bytes, a: nat, k: nat, n: nat)
    requires a + k + n <= |base|
    ensures base[a..a + k] + base[a + k..a + k + n] == base[a..a + k + n]
  {
  }

  lemma WriteMemCarried(cfg: Config, maxPacket: Option<nat>, base: Bytes, before: Bytes, op: Op, taken: Bytes, payload: Bytes)
    requires op.WriteMem? && DoneSoFar(maxPacket, base, before, SetMemory(op.baseAddr, op.data), op)
    requires taken == Take(Drop(op.data, op.offset), ChunkLen(|Drop(op.data, op.offset)|))
    requires |base| == |before| < ADDRESS_SPACE && Inside(before, AddWrapping(op.baseAddr, op.offset), |taken|)
    ensures Carried(maxPacket, base, Spliced(before, AddWrapping(op.baseAddr, op.offset), taken),
                    SetMemory(op.baseAddr, op.data), Answered(cfg, op, payload))
  {
    hide Spliced;
    var o := op.offset + |taken|;
    assert AddWrapping(op.baseAddr, op.offset) == op.baseAddr + op.offset;
    assert op.data[..op.offset] + taken == op.data[..o];
    if op.offset > 0 {
      SpliceJoins(base, op.baseAddr, op.data[..op.offset], taken);
    }
    assert o == |op.data| ==> op.data[..o] == op.data;
  }

  lemma RegisterChunk(cfg: Config, maxPacket: Option<nat>, base: Bytes, before: Bytes, requests: seq<Request>, op: Op, d: Datagram, short: Pos)
    requires Serves(requests, op) && (op.ReadReg? || op.ReadRegs?) && |base| == |before| < ADDRESS_SPACE
    requires Encode(cfg, op, SendOf(requests, op)) == Some(d.command)
    requires DoneSoFar(maxPacket, base, before, requests[op.handle], op)
    requires !IsError(Execute(maxPacket, before, d, short).ack.status)
    ensures var effect := Execute(maxPacket, before, d, short);
            Carried(maxPacket, base, effect.mem, requests[op.handle], Answered(cfg, op, effect.ack.payload))
  {
    hide DoneSoFar, Carried, Answered, RegisterBytes, WriteAll, Spliced;
    var payload, request := Execute(maxPacket, before, d, short).ack.payload, requests[op.handle];
    ReadOnlyBase(maxPacket, base, before, request, op);
    if op.ReadReg? {
      ReadRegCarried(cfg, maxPacket, base, request.addr, op, payload);
    } else {
      ReadRegsCarried(cfg, maxPacket, base, op, d.command.addrs, payload);
    }
  }

  lemma MemoryChunk(cfg: Config, maxPacket: Option<nat>, base: Bytes, before: Bytes, requests: seq<Request>, op: Op, d: Datagram, short: Pos)
    requires Serves(requests, op) && op.ReadMem? && |base| == |before| < ADDRESS_SPACE
    requires Encode(cfg, op, SendOf(requests, op)) == Some(d.command)
    requires DoneSoFar(maxPacket, base, before, requests[op.handle], op)
    requires !IsError(Execute(maxPacket, before, d, short).ack.status)
    ensures var effect := Execute(maxPacket, before, d, short);
            Carried(maxPacket, base, effect.mem, requests[op.handle], Answered(cfg, op, effect.ack.payload))
  {
    hide DoneSoFar, Carried, Answered, RegisterBytes, WriteAll, Spliced, AddWrapping;
    var payload := Execute(maxPacket, before, d, short).ack.payload;
    ReadOnlyBase(maxPacket, base, before, requests[op.handle], op);
    var n := Min(d.command.count, short);
    assert payload[4..] == base[op.nextAddr..op.nextAddr + n];
    ReadMemCarried(cfg, maxPacket, base, requests[op.handle], op, n, payload);
  }

  /** A transaction carried out is never refused by the worker: it completes the
      operation, or takes it one chunk further. */
  lemma ChunkCarried(cfg: Config, maxPacket: Option<nat>, base: Bytes, before: Bytes, requests: seq<Request>, op: Op, d: Datagram, short: Pos)
    requires Serves(requests, op) && !op.Heartbeat? && |base| == |before| < ADDRESS_SPACE
    requires Encode(cfg, op, SendOf(requests, op)) == Some(d.command)
    requires DoneSoFar(maxPacket, base, before, requests[op.handle], op)
    requires !IsError(Execute(maxPacket, before, d, short).ack.status)
    ensures var effect := Execute(maxPacket, before, d, short);
            Carried(maxPacket, base, effect.mem, requests[op.handle], Answered(cfg, op, effect.ack.payload))
  {
    hide DoneSoFar, Carried, Answered, RegisterBytes, WriteAll, Spliced, AddWrapping;
    var payload := Execute(maxPacket, before, d, short).ack.payload;
    match op
    case WriteRegs(_, _, _) => WriteRegsCarried(cfg, maxPacket, base, before, op, d.command.pairs, payload);
    case WriteMem(_, _, _, _) => WriteMemCarried(cfg, maxPacket, base, before, op, d.command.data, payload);
    case ReadMem(_, _, _, _) => MemoryChunk(cfg, maxPacket, base, before, requests, op, d, short);
    case _ => RegisterChunk(cfg, maxPacket, base, before, requests, op, d, short);
  }

  lemma ReadOnlyBase(maxPacket: Option<nat>, base: Bytes, mem: Bytes, request: Request, op: Op)
    requires op.ReadReg? || op.ReadRegs? || op.ReadMem?
    requires DoneSoFar(maxPacket, base, mem, request, op)
    ensures mem == base
  {
  }

  // -------------------------------------------------------- register batches

  /** The registers written by one command each, up to the first refused. */
  function WriteEach(maxPacket: Option<nat>, mem: Bytes, pairs: seq<(U32, U32)>, id: nat): Writes
    decreases |pairs|
  {
    if pairs == [] then Writes(mem, true)
    else
      var effect := Execute(maxPacket, mem, Datagram(id, WriteRegister([pairs[0]])), 1);
      if IsError(effect.ack.status) then Writes(effect.mem, false)
      else WriteEach(maxPacket, effect.mem, pairs[1..], NextId(id))
  }

  /** The registers read by one command each; None when one is refused. */
  function ReadEach(mem: Bytes, addrs: seq<U32>, id: nat): Option<seq<U32>>
    decreases |addrs|
  {
    if addrs == [] then Some([])
    else
      var ack := Execute(Option<nat>.None, mem, Datagram(id, ReadRegister([addrs[0]])), 1).ack;
      if IsError(ack.status) || |ack.payload| < 4 then None
      else
        match ReadEach(mem, addrs[1..], NextId(id))
        case None => None
        case Some(rest) => Some([Words(ack.payload)[0]] + rest)
  }

  /** One command for all and one for each leave the same memory, whether they
      succeed or stop at an address outside. */
  lemma {:induction false} WritesAlike(maxPacket: Option<nat>, mem: Bytes, pairs: seq<(U32, U32)>, id: nat)
    ensures WriteEach(maxPacket, mem, pairs, id) == WriteAll(maxPacket, mem, pairs)
    decreases |pairs|
  {
    hide Stored, WordBytes;
    if pairs != [] {
      var one: seq<(U32, U32)> := [pairs[0]];
      assert one[1..] == [] && one[0] == pairs[0];
      if Inside(mem, pairs[0].0, 4) {
        var next := Spliced(mem, pairs[0].0, WordBytes(Stored(maxPacket, pairs[0].0, pairs[0].1)));
        assert WriteAll(maxPacket, next, one[1..]) == Writes(next, true);
        assert WriteAll(maxPacket, mem, one) == Writes(next, true);
        WritesAlike(maxPacket, next, pairs[1..], NextId(id));
      }
    }
  }

  /** And they read the same words, or are both refused. */
  lemma {:induction false} ReadsAlike(mem: Bytes, addrs: seq<U32>, id: nat)
    ensures match RegisterBytes(mem, addrs)
            case None => ReadEach(mem, addrs, id).None?
            case Some(bytes) => ReadEach(mem, addrs, id) == Some(Words(bytes))
    decreases |addrs|
  {
    hide Word;
    if addrs != [] {
      ReadsAlike(mem, addrs[1..], NextId(id));
      var one: seq<U32> := [addrs[0]];
      assert one[1..] == [] && one[0] == addrs[0];
      if Inside(mem, addrs[0], 4) {
        var first := mem[addrs[0]..addrs[0] + 4];
        assert RegisterBytes(mem, [addrs[0]]) == Some(first) by { assert first + [] == first; }
        assert first[..4] == first;
        if RegisterBytes(mem, addrs[1..]).Some? {
          var rest := RegisterBytes(mem, addrs[1..]).value;
          assert (first + rest)[..4] == first && (first + rest)[4..] == rest;
        }
      }
    }
  }

  // ------------------------------------------------------------ write chunks

  /** The commands a memory write sends, when each is acknowledged. */
  function WriteChunks(cfg: Config, op: Op): seq<Command>
    requires op.WriteMem?
    decreases |op.data| - op.offset
  {
    match (Encode(cfg, op, WriteMemChunk), Answered(cfg, op, []))
    case (Some(command), More(next, _)) => [command] + WriteChunks(cfg, next)
    case (Some(command), _) => [command]
    case (None, _) => []
  }

  function WrittenData(commands: seq<Command>): Bytes
    requires forall c | c in commands :: c.WriteMemory?
  {
    if commands == [] then [] else commands[0].data + WrittenData(commands[1..])
  }

  lemma OneChunk(cfg: Config, op: Op)
    requires op.WriteMem? && op.offset <= |op.data|
    ensures var o := op.offset + ChunkLen(|op.data| - op.offset);
            && o <= |op.data|
            && Encode(cfg, op, WriteMemChunk) == Some(WriteMemory(AddWrapping(op.baseAddr, op.offset), op.data[op.offset..o]))
            && Answered(cfg, op, []) == if o >= |op.data| then Done(Written)
                                        else More(WriteMem(op.handle, op.data, o, op.baseAddr), WriteMemChunk)
  {
    var rest, n := op.data[op.offset..], ChunkLen(|op.data| - op.offset);
    assert Take(rest, n) == op.data[op.offset..op.offset + n];
  }

  /** The chunks tile the data in order: each begins where the one before ends,
      none is over 512 bytes and all but the last are 512. */
  lemma {:induction false} ChunksTile(cfg: Config, op: Op)
    requires op.WriteMem? && op.offset <= |op.data|
    ensures var cs := WriteChunks(cfg, op);
            && cs != [] && (forall c | c in cs :: c.WriteMemory?) && WrittenData(cs) == op.data[op.offset..]
            && (forall i | 0 <= i < |cs| ::
                  && cs[i].addr == AddWrapping(op.baseAddr, op.offset + DATA_SIZE_MAX * i)
                  && |cs[i].data| <= DATA_SIZE_MAX && (i < |cs| - 1 ==> |cs[i].data| == DATA_SIZE_MAX))
    decreases |op.data| - op.offset
  {
    hide Encode, Answered;
    OneChunk(cfg, op);
    var cs := WriteChunks(cfg, op);
    var o := op.offset + ChunkLen(|op.data| - op.offset);
    var first := WriteMemory(AddWrapping(op.baseAddr, op.offset), op.data[op.offset..o]);
    if o < |op.data| {
      var next := WriteMem(op.handle, op.data, o, op.baseAddr);
      ChunksTile(cfg, next);
      var rest := WriteChunks(cfg, next);
      assert cs == [first] + rest && cs[1..] == rest;
      assert op.data[op.offset..] == op.data[op.offset..o] + op.data[o..];
    } else {
      assert cs == [first] && cs[1..] == [];
    }
  }
}
