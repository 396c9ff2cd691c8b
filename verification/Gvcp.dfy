/** GVCP commands and acknowledges as the control worker and the device exchange
    them. Headers are records; acknowledge payloads are bytes. */
module Gvcp {
  import opened Gvsp

  type U32 = n: nat | n < 0x1_0000_0000

  const DATA_SIZE_MAX: nat := 512
  /** Regular transactions use ids 1 to this. */
  const LAST_ID: nat := 0xfffe

  const PENDING_ACK: nat := 0x89
  const CONTROL_CHANNEL_PRIVILEGE: U32 := 0x0a00

  datatype Command =
    | ReadRegister(addrs: seq<U32>)
    | WriteRegister(pairs: seq<(U32, U32)>)
    | ReadMemory(addr: U32, count: nat)
    | WriteMemory(addr: U32, data: Bytes)

  datatype Datagram = Datagram(id: nat, command: Command)

  datatype Ack = Ack(status: nat, answer: nat, ackId: nat, payload: Bytes)

  function Code(c: Command): nat {
    match c
    case ReadRegister(_) => 0x80
    case WriteRegister(_) => 0x82
    case ReadMemory(_, _) => 0x84
    case WriteMemory(_, _) => 0x86
  }

  /** Bytes of the encoded command. */
  function Size(c: Command): nat {
    match c
    case ReadRegister(addrs) => 8 + 4 * |addrs|
    case WriteRegister(pairs) => 8 + 8 * |pairs|
    case ReadMemory(_, _) => 16
    case WriteMemory(_, data) => 12 + |data|
  }

  /** The most a UDP datagram carries over IPv4. */
  const MAX_DATAGRAM: nat := 65507

  function NextId(id: nat): nat { if id >= LAST_ID then 1 else id + 1 }

  /** The id of the n-th transaction. */
  function IdOf(serial: nat): nat { if serial == 0 then 0 else (serial - 1) % LAST_ID + 1 }

  lemma NextIdCounts(serial: nat)
    ensures NextId(IdOf(serial)) == IdOf(serial + 1)
  {
    if serial > 0 {
      var q, r := (serial - 1) / LAST_ID, (serial - 1) % LAST_ID;
      assert serial - 1 == q * LAST_ID + r;
      if r == LAST_ID - 1 { assert serial == (q + 1) * LAST_ID; } else { assert serial == q * LAST_ID + (r + 1); }
    }
  }

  /** Two transactions share an id only a whole round of ids apart. */
  lemma SameId(m: Pos, n: Pos)
    requires m <= n < m + LAST_ID && IdOf(m) == IdOf(n)
    ensures m == n
  {
    var q, p := (m - 1) / LAST_ID, (n - 1) / LAST_ID;
    assert n - m == (p - q) * LAST_ID;
  }

  // --------------------------------------------------------------- payloads

  function Word(b: Bytes): (v: U32)
    requires |b| == 4
  {
    0x100_0000 * (b[0] as nat) + 0x1_0000 * (b[1] as nat) + 0x100 * (b[2] as nat) + (b[3] as nat)
  }

  function WordBytes(v: U32): (b: Bytes)
    ensures |b| == 4
  {
    [(v / 0x100_0000) as bv8, (v / 0x1_0000 % 0x100) as bv8, (v / 0x100 % 0x100) as bv8, (v % 0x100) as bv8]
  }

  /** The whole words of a payload; a tail shorter than a word is ignored. */
  function Words(payload: Bytes): (ws: seq<U32>)
    ensures |ws| == |payload| / 4
  {
    if |payload| < 4 then [] else [Word(payload[..4])] + Words(payload[4..])
  }

  /** The extra time a PENDING_ACK asks for. */
  function PendingMs(ack: Ack): Option<nat> {
    if ack.answer != PENDING_ACK || |ack.payload| < 4 then None
    else Some(0x100 * (ack.payload[2] as nat) + (ack.payload[3] as nat))
  }
}
