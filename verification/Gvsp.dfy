/** GVSP packets as the stream receiver sees them, and the arithmetic of block
    ids. Byte layouts are not modelled: a datagram either decodes to a View or
    is ignored. */
module Gvsp {

  type Bytes = seq<bv8>
  type Pos = n: nat | n >= 1 witness 1

  datatype Option<+T> = None | Some(value: T)

  datatype ContentType = Leader | Trailer | Payload | AllIn | Other

  datatype View = View(status: nat, extended: bool, frameId: nat, packetId: nat, content: ContentType, data: Bytes)

  predicate IsError(status: nat) { status >= 0x8000 }

  /** PACKET_UNAVAILABLE and the two removed-from-memory codes. */
  predicate IsGone(status: nat) { status == 0x800c || status == 0x8012 || status == 0x8011 }

  const MAXIMUM_PACKET_SIZE: nat := 65536 - 14 - 4

  /** Bytes of a payload packet that are not image data. */
  function Overhead(extended: bool): nat { 20 + 8 + 2 + if extended then 18 else 6 }

  /** The payload type a leader announces, its chunk extension bit cleared. */
  function PayloadType(leader: Bytes): Option<nat> {
    if |leader| < 12 then None
    else
      var raw := 0x100 * (leader[2] as nat) + (leader[3] as nat);
      Some(if raw / 0x4000 % 2 == 1 then raw - 0x4000 else raw)
  }

  predicate Reassembled(leader: Bytes) {
    PayloadType(leader) == Some(1) || PayloadType(leader) == Some(4) || PayloadType(leader) == Some(5)
  }

  function DivCeil(a: nat, b: Pos): nat { (a + b - 1) / b }

  function Min(a: int, b: int): int { if a < b then a else b }
  function Max(a: int, b: int): int { if a < b then b else a }

  // ---------------------------------------------------------- block ids

  function MaxId(extended: bool): nat { if extended then 0xffff_ffff_ffff_ffff else 0xffff }

  const I64_MAX: int := 0x7fff_ffff_ffff_ffff

  /** Signed distance from block id `last` to `id`, positive ahead, on the ring
      1..=max that skips 0; an id of 0 falls back to plain wrapping. */
  function BlockIdDistance(id: nat, last: nat, extended: bool): int {
    var max := MaxId(extended);
    var (i, l) := (id % (max + 1), last % (max + 1));
    var modulus := max + if i == 0 || l == 0 then 1 else 0;
    var ahead := (i + modulus - l) % modulus;
    if ahead <= modulus / 2 then Min(ahead, I64_MAX) else -(modulus - ahead)
  }

  /** The device's next block id. */
  function NextBlockId(id: nat, extended: bool): nat {
    if id >= MaxId(extended) then 1 else id + 1
  }

  function Advance(id: nat, steps: nat, extended: bool): nat {
    if steps == 0 then id else NextBlockId(Advance(id, steps - 1, extended), extended)
  }

  lemma {:induction false} AdvanceOnRing(id: nat, steps: nat, extended: bool)
    requires 1 <= id <= MaxId(extended)
    ensures 1 <= Advance(id, steps, extended) <= MaxId(extended)
    ensures Advance(id, steps, extended) == 1 + (id - 1 + steps) % MaxId(extended)
  {
    if steps > 0 {
      AdvanceOnRing(id, steps - 1, extended);
      RingStep(id - 1 + steps - 1, MaxId(extended));
    }
  }

  lemma RingStep(x: nat, m: nat)
    requires m > 0
    ensures (x + 1) % m == if x % m == m - 1 then 0 else x % m + 1
  {
    var q, r := x / m, x % m;
    assert x == q * m + r;
    if r == m - 1 {
      assert x + 1 == (q + 1) * m;
      DivisionUnique(x + 1, m, q + 1, 0);
    } else {
      DivisionUnique(x + 1, m, q, r + 1);
    }
  }

  lemma DivisionUnique(x: nat, m: nat, q: nat, r: nat)
    requires m > 0 && x == q * m + r && r < m
    ensures x / m == q && x % m == r
  {
    var q', r' := x / m, x % m;
    assert q' * m + r' == q * m + r;
    Multiples(q' + 1, q, m);
    Multiples(q + 1, q', m);
  }

  lemma Multiples(a: int, b: int, m: nat)
    ensures a <= b ==> a * m <= b * m
  {
  }

  lemma DistanceOnRing(from: nat, to: nat, steps: int, extended: bool)
    requires 1 <= from <= MaxId(extended) && 1 <= to <= MaxId(extended) && -0x7fff <= steps <= 0x7fff
    requires to == from + steps || to == from + steps - MaxId(extended) || to == from + steps + MaxId(extended)
    ensures BlockIdDistance(to, from, extended) == steps
  {
    var m := MaxId(extended);
    DivisionUnique(to, m + 1, 0, to);
    DivisionUnique(from, m + 1, 0, from);
    var x := to + m - from;
    if x < m { DivisionUnique(x, m, 0, x); } else { DivisionUnique(x, m, 1, x - m); }
  }

  /** The distance the receiver computes is the number of steps the counter
      took, skipping 0 at the wrap: forward and backward up to 32767. */
  lemma DistanceOfAdvance(id: nat, steps: nat, extended: bool)
    requires 1 <= id <= MaxId(extended) && steps <= 0x7fff
    ensures BlockIdDistance(Advance(id, steps, extended), id, extended) == steps
    ensures BlockIdDistance(id, Advance(id, steps, extended), extended) == 0 - steps
  {
    hide Advance, BlockIdDistance;
    var m, x := MaxId(extended), id - 1 + steps;
    AdvanceOnRing(id, steps, extended);
    if x < m { DivisionUnique(x, m, 0, x); } else { DivisionUnique(x, m, 1, x - m); }
    DistanceOnRing(id, Advance(id, steps, extended), steps, extended);
    DistanceOnRing(Advance(id, steps, extended), id, 0 - steps, extended);
  }
}
