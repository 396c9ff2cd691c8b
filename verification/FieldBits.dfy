/** Registers and their fields bit by bit: which bits of the device a field lies on,
    and which bits writing it changes. */
module FieldBits {
  import opened Gvsp
  import opened BitFields
  import opened NodeGraph

  function Overwritten(mem: Octets, address: nat, bytes: Octets): (r: Octets)
    requires address + |bytes| <= |mem|
    ensures |r| == |mem|
    ensures forall i | 0 <= i < |mem| :: r[i] == if address <= i < address + |bytes| then bytes[i - address] else mem[i]
  {
    mem[..address] + bytes + mem[address + |bytes|..]
  }

  function BytesAt(m: Octets, p: Place): Octets
    requires p.address + p.length <= |m|
  {
    m[p.address..p.address + p.length]
  }

  /** Bit `n` of the device, eight to a byte. */
  function BitAt(m: Octets, n: nat): nat
    requires n / 8 < |m|
  {
    Bit(m[n / 8], n % 8)
  }

  predicate Within(p: Place, n: nat) { p.address <= n / 8 < p.address + p.length }

  /** Where byte `k` of so many begins in the word loaded from them. */
  function Shift(length: nat, endianness: Endianness, k: nat): nat
    requires k < length
  {
    8 * if endianness.Little? then k else length - 1 - k
  }

  /** Where bit `n` of the device stands in the word loaded from the place. */
  function Position(p: Place, endianness: Endianness, n: nat): (i: nat)
    requires Within(p, n)
    ensures i < 8 * p.length
  {
    Shift(p.length, endianness, n / 8 - p.address) + n % 8
  }

  /** The bits of a register's field in the word; None when it does not fit. */
  function FieldOf(r: Register, length: nat): (s: Option<Span>)
    ensures s.Some? ==> Supported(length) && s.value.lsb <= s.value.msb < 8 * length
  {
    if Supported(length) then BitRange(8 * length, r.lsb, r.msb, r.endianness) else None
  }

  predicate InSpan(span: Span, i: nat) { span.lsb <= i <= span.msb }

  /** Bit `n` of the device is in the field of the register at that place. */
  predicate InField(r: Register, p: Place, n: nat) {
    Within(p, n) && FieldOf(r, p.length).Some? && InSpan(FieldOf(r, p.length).value, Position(p, r.endianness, n))
  }

  predicate Masked(r: Register) { r.lsb.Some? || r.msb.Some? }

  /** What is written for `v`, given the register's bytes so far. */
  function NewBytes(r: Register, current: Octets, v: int): (b: Option<Octets>)
    ensures b.Some? ==> |b.value| == |current|
  {
    if Masked(r) then InsertInt(current, v, r.endianness, r.lsb, r.msb) else EncodeInt(v, |current|, r.endianness)
  }

  // ------------------------------------------------------------- loaded bits

  lemma {:induction false} LoadedBigBit(bytes: Octets, k: nat, b: nat)
    requires k < |bytes| && b < 8
    ensures Bit(LoadBig(bytes), 8 * (|bytes| - 1 - k) + b) == Bit(bytes[k], b)
    decreases |bytes|
  {
    hide Bit, Pow2;
    var n := |bytes| - 1;
    var high := LoadBig(bytes[..n]);
    assert Pow2(8) == 256 by { BytePower(); }
    BitOfSum(bytes[n], high, 8, 8 * (n - k) + b);
    assert high * 256 == 256 * high;
    if k < n { LoadedBigBit(bytes[..n], k, b); }
  }

  lemma BytePower()
    ensures Pow2(8) == 256
  {
  }

  lemma LoadedBit(bytes: Octets, endianness: Endianness, k: nat, b: nat)
    requires k < |bytes| && b < 8
    ensures Bit(Load(bytes, endianness), Shift(|bytes|, endianness, k) + b) == Bit(bytes[k], b)
  {
    hide Bit, LoadBig;
    if endianness.Big? {
      LoadedBigBit(bytes, k, b);
    } else {
      LoadedBigBit(Reversed(bytes), |bytes| - 1 - k, b);
    }
  }

  lemma PlaceBit(m: Octets, p: Place, endianness: Endianness, n: nat)
    requires p.address + p.length <= |m| && Within(p, n)
    ensures BitAt(m, n) == Bit(Load(BytesAt(m, p), endianness), Position(p, endianness, n))
  {
    hide Bit, Load;
    LoadedBit(BytesAt(m, p), endianness, n / 8 - p.address, n % 8);
  }

  /** The bit of the device that stands at position `i` of the word. */
  lemma DeviceBit(p: Place, endianness: Endianness, i: nat) returns (n: nat)
    requires i < 8 * p.length
    ensures Within(p, n) && Position(p, endianness, n) == i
  {
    n := 8 * (p.address + if endianness.Little? then i / 8 else p.length - 1 - i / 8) + i % 8;
  }

  /** Bytes are their bits. */
  lemma SameBytes(a: Octets, b: Octets, p: Place)
    requires |a| == |b| && p.address + p.length <= |a|
    requires forall n: nat | Within(p, n) :: BitAt(a, n) == BitAt(b, n)
    ensures BytesAt(a, p) == BytesAt(b, p)
  {
    hide Bit, Pow2;
    forall k | p.address <= k < p.address + p.length ensures a[k] == b[k] {
      BytePower();
      forall i | 0 <= i < 8 ensures Bit(a[k], i) == Bit(b[k], i) {
        var n := 8 * k + i;
        assert n / 8 == k && n % 8 == i;
        assert Within(p, n) && BitAt(a, n) == BitAt(b, n);
      }
      SameBits(a[k], b[k], 8);
    }
  }

  // ---------------------------------------------------------- extracted fields

  /** The field's bits as a word of their own. */
  lemma FieldValue(word: nat, sign: Sign, span: Span) returns (v: nat)
    requires span.lsb <= span.msb < 64
    ensures ExtractField(word, sign, span) == Reduced(v, sign, span.msb - span.lsb + 1)
    ensures v < Pow2(span.msb - span.lsb + 1)
    ensures forall i: nat | InSpan(span, i) :: Bit(v, i - span.lsb) == Bit(word, i)
    ensures v == ShiftRight(And(word, Mask(span)), span.lsb)
  {
    hide Bit, Pow2, And, Mask, ExtractField, Reduced;
    v := ShiftRight(And(word, Mask(span)), span.lsb);
    AndBound(word, Mask(span));
    MaskBound(span);
    DivBound(And(word, Mask(span)), Pow2(span.lsb));
    assert AsWord(v) == v;
    forall i: nat | InSpan(span, i) ensures Bit(v, i - span.lsb) == Bit(word, i) { ExtractedBit(word, span, i - span.lsb); }
    FieldRead(word, v, sign, span);
    FieldWord(word, v, span);
  }

  /** A field's number tells its bits and nothing else. */
  lemma SameField(x: nat, y: nat, sign: Sign, span: Span)
    requires span.lsb <= span.msb < 64
    ensures ExtractField(x, sign, span) == ExtractField(y, sign, span) <==> forall i: nat | InSpan(span, i) :: Bit(x, i) == Bit(y, i)
  {
    hide Bit, Pow2, ExtractField, Reduced;
    var width := span.msb - span.lsb + 1;
    var a := FieldValue(x, sign, span);
    var b := FieldValue(y, sign, span);
    if a == b {
      forall i: nat | InSpan(span, i) ensures Bit(x, i) == Bit(y, i) {
        assert Bit(a, i - span.lsb) == Bit(x, i) && Bit(b, i - span.lsb) == Bit(y, i);
      }
    } else {
      ReducedInjective(a, b, sign, width);
      if forall i: nat | InSpan(span, i) :: Bit(x, i) == Bit(y, i) {
        forall i | 0 <= i < width ensures Bit(a, i) == Bit(b, i) {
          assert InSpan(span, i + span.lsb);
          assert Bit(a, i + span.lsb - span.lsb) == Bit(x, i + span.lsb) && Bit(b, i + span.lsb - span.lsb) == Bit(y, i + span.lsb);
        }
        SameBits(a, b, width);
      }
    }
  }

  lemma ReducedInjective(x: nat, y: nat, sign: Sign, width: Pos)
    requires x < Pow2(width) && y < Pow2(width) && x != y
    ensures Reduced(x, sign, width) != Reduced(y, sign, width)
  {
    hide Pow2;
    PowerDoubles(width);
    DivisionUnique(x, Pow2(width), 0, x);
    DivisionUnique(y, Pow2(width), 0, y);
  }

  function Extracted(r: Register, bytes: Octets): Option<int> { ExtractInt(bytes, r.sign, r.endianness, r.lsb, r.msb) }

  /** Two memories give a register the same number if and only if they agree on the
      bits of its field. */
  lemma SameNumber(r: Register, a: Octets, b: Octets, p: Place)
    requires |a| == |b| && p.address + p.length <= |a|
    ensures Extracted(r, BytesAt(a, p)) == Extracted(r, BytesAt(b, p))
            <==> forall n: nat | InField(r, p, n) :: BitAt(a, n) == BitAt(b, n)
  {
    hide Bit, Load, ExtractField, BitAt, Position;
    if FieldOf(r, p.length).Some? {
      var span, x, y := FieldOf(r, p.length).value, Load(BytesAt(a, p), r.endianness), Load(BytesAt(b, p), r.endianness);
      SameField(x, y, r.sign, span);
      if forall i: nat | InSpan(span, i) :: Bit(x, i) == Bit(y, i) {
        forall n: nat | InField(r, p, n) ensures BitAt(a, n) == BitAt(b, n) {
          PlaceBit(a, p, r.endianness, n);
          PlaceBit(b, p, r.endianness, n);
        }
      }
      if forall n: nat | InField(r, p, n) :: BitAt(a, n) == BitAt(b, n) {
        forall i: nat | InSpan(span, i) ensures Bit(x, i) == Bit(y, i) {
          var n := DeviceBit(p, r.endianness, i);
          PlaceBit(a, p, r.endianness, n);
          PlaceBit(b, p, r.endianness, n);
          assert InField(r, p, n);
        }
      }
    }
  }

  // ------------------------------------------------------------ written fields

  /** The new bytes hold the value in the field and every other bit as before. */
  lemma NewBit(r: Register, current: Octets, v: int, i: nat)
    requires FieldOf(r, |current|).Some? && i < 8 * |current|
    ensures NewBytes(r, current, v).Some?
    ensures var span := FieldOf(r, |current|).value;
            Bit(Load(NewBytes(r, current, v).value, r.endianness), i)
            == if InSpan(span, i) then Bit(AsWord(v), i - span.lsb) else Bit(Load(current, r.endianness), i)
  {
    hide InsertField, Load, Store, Bit, Pow2;
    var span, length := FieldOf(r, |current|).value, |current|;
    var word := if Masked(r) then InsertField(Load(current, r.endianness), v, span) else AsWord(v);
    LoadOfStore(word, length, r.endianness);
    BitOfRest(word, 8 * length, i);
    if Masked(r) { InsertedBit(Load(current, r.endianness), v, span, i); }
  }

  /** Writing a register from the bytes `current` gives the field the value's bits,
      the rest of the register the bits of `current`, and changes nothing else. */
  lemma Rewritten(r: Register, p: Place, m: Octets, current: Octets, v: int, n: nat)
    requires p.address + p.length <= |m| && |current| == p.length && FieldOf(r, p.length).Some? && n / 8 < |m|
    ensures NewBytes(r, current, v).Some?
    ensures var after := Overwritten(m, p.address, NewBytes(r, current, v).value);
            && (!Within(p, n) ==> BitAt(after, n) == BitAt(m, n))
            && (Within(p, n) && !InField(r, p, n) ==> BitAt(after, n) == Bit(Load(current, r.endianness), Position(p, r.endianness, n)))
            && (InField(r, p, n) ==>
                  BitAt(after, n) == Bit(AsWord(v), Position(p, r.endianness, n) - FieldOf(r, p.length).value.lsb))
  {
    hide Bit, Load, NewBytes, FieldOf, Position;
    NewBit(r, current, v, if Within(p, n) then Position(p, r.endianness, n) else 0);
    var bytes := NewBytes(r, current, v).value;
    var after := Overwritten(m, p.address, bytes);
    if Within(p, n) {
      assert BytesAt(after, p) == bytes;
      PlaceBit(after, p, r.endianness, n);
    }
  }
}
