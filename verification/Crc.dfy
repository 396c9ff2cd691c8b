/** The PKZIP CRC-32 loop, and the error bursts it is certain to notice. */
module Crc {

  type Bytes = seq<bv8>
  type Word = bv32

  const POLYNOMIAL: Word := 0xedb8_8320

  function Xor(a: Word, b: Word): Word { a ^ b }

  /** One turn of the inner loop: shift one bit out, fold the polynomial in. */
  function BitStep(crc: Word): Word {
    if crc & 1 == 1 then (crc >> 1) ^ POLYNOMIAL else crc >> 1
  }

  function BitSteps(crc: Word, n: nat): Word {
    if n == 0 then crc else BitStep(BitSteps(crc, n - 1))
  }

  function ByteStep(crc: Word, byte: bv8): Word {
    BitSteps(Xor(crc, byte as Word), 8)
  }

  /** The register after the whole message, from register value `crc`. */
  function Register(crc: Word, data: Bytes): Word {
    if data == [] then crc else ByteStep(Register(crc, data[..|data| - 1]), data[|data| - 1])
  }

  function Checksum(data: Bytes): Word {
    !Register(0xffff_ffff, data)
  }

  /** The branch-free form the loop uses. */
  lemma MaskForm(crc: Word)
    ensures (crc >> 1) ^ (POLYNOMIAL & (0 - (crc & 1))) == BitStep(crc)
  {
    assert crc & 1 == 0 || crc & 1 == 1;
  }

  method FoldByte(crc: Word, byte: bv8) returns (r: Word)
    ensures r == ByteStep(crc, byte)
  {
    hide BitStep;
    r := crc ^ (byte as Word);
    for k := 0 to 8
      invariant r == BitSteps(Xor(crc, byte as Word), k)
    {
      MaskForm(r);
      var mask := 0 - (r & 1);
      r := (r >> 1) ^ (POLYNOMIAL & mask);
    }
  }

  /** The bitwise CRC loop. */
  method Crc32(data: Bytes) returns (r: Word)
    ensures r == Checksum(data)
  {
    hide ByteStep;
    var crc: Word := 0xffff_ffff;
    for i := 0 to |data|
      invariant crc == Register(0xffff_ffff, data[..i])
    {
      assert data[..i + 1][..i] == data[..i];
      crc := FoldByte(crc, data[i]);
    }
    assert data[..|data|] == data;
    r := !crc;
  }

  lemma BitStepInjective(a: Word, b: Word)
    requires BitStep(a) == BitStep(b)
    ensures a == b
  {
  }

  lemma {:induction false} BitStepsInjective(a: Word, b: Word, n: nat)
    requires BitSteps(a, n) == BitSteps(b, n)
    ensures a == b
  {
    hide BitStep;
    if n > 0 {
      BitStepInjective(BitSteps(a, n - 1), BitSteps(b, n - 1));
      BitStepsInjective(a, b, n - 1);
    }
  }

  lemma LinearOddOdd(a: Word, b: Word)
    requires a & 1 == 1 && b & 1 == 1
    ensures (a ^ b) & 1 == 0 && ((a >> 1) ^ POLYNOMIAL) ^ ((b >> 1) ^ POLYNOMIAL) == (a ^ b) >> 1
  {
  }

  lemma LinearOddEven(a: Word, b: Word)
    requires a & 1 == 1 && b & 1 == 0
    ensures (a ^ b) & 1 == 1 && ((a >> 1) ^ POLYNOMIAL) ^ (b >> 1) == ((a ^ b) >> 1) ^ POLYNOMIAL
  {
  }

  lemma LinearEvenOdd(a: Word, b: Word)
    requires a & 1 == 0 && b & 1 == 1
    ensures (a ^ b) & 1 == 1 && (a >> 1) ^ ((b >> 1) ^ POLYNOMIAL) == ((a ^ b) >> 1) ^ POLYNOMIAL
  {
  }

  lemma LinearEvenEven(a: Word, b: Word)
    requires a & 1 == 0 && b & 1 == 0
    ensures (a ^ b) & 1 == 0 && (a >> 1) ^ (b >> 1) == (a ^ b) >> 1
  {
  }

  lemma LowBit(a: Word)
    ensures a & 1 == 0 || a & 1 == 1
  {
  }

  lemma BitStepLinear(a: Word, b: Word)
    ensures BitStep(Xor(a, b)) == Xor(BitStep(a), BitStep(b))
  {
    LowBit(a);
    LowBit(b);
    var x, y, z := BitStep(a), BitStep(b), BitStep(a ^ b);
    if a & 1 == 0 {
      if b & 1 == 0 {
        LinearEvenEven(a, b);
        assert x == a >> 1 && y == b >> 1 && z == (a ^ b) >> 1;
      } else {
        LinearEvenOdd(a, b);
        assert x == a >> 1 && y == (b >> 1) ^ POLYNOMIAL && z == ((a ^ b) >> 1) ^ POLYNOMIAL;
      }
    } else if b & 1 == 0 {
      LinearOddEven(a, b);
      assert x == (a >> 1) ^ POLYNOMIAL && y == b >> 1 && z == ((a ^ b) >> 1) ^ POLYNOMIAL;
    } else {
      LinearOddOdd(a, b);
      assert x == (a >> 1) ^ POLYNOMIAL && y == (b >> 1) ^ POLYNOMIAL && z == (a ^ b) >> 1;
    }
  }

  lemma {:induction false} BitStepsLinear(a: Word, b: Word, n: nat)
    ensures BitSteps(Xor(a, b), n) == Xor(BitSteps(a, n), BitSteps(b, n))
  {
    hide BitStep, Xor;
    if n > 0 {
      BitStepsLinear(a, b, n - 1);
      BitStepLinear(BitSteps(a, n - 1), BitSteps(b, n - 1));
    }
  }

  lemma Halve8(c: Word)
    requires c < 0x100_0000
    ensures BitStep(c << 8) == c << 7 && BitStep(c << 7) == c << 6
  {
  }

  lemma Halve6(c: Word)
    requires c < 0x100_0000
    ensures BitStep(c << 6) == c << 5 && BitStep(c << 5) == c << 4
  {
  }

  lemma Halve4(c: Word)
    requires c < 0x100_0000
    ensures BitStep(c << 4) == c << 3 && BitStep(c << 3) == c << 2
  {
  }

  lemma Halve2(c: Word)
    requires c < 0x100_0000
    ensures BitStep(c << 2) == c << 1 && BitStep(c << 1) == c << 0
  {
  }

  lemma {:induction false} FollowSteps(xs: seq<Word>)
    requires |xs| > 0 && forall i | 0 < i < |xs| :: BitStep(xs[i - 1]) == xs[i]
    ensures BitSteps(xs[0], |xs| - 1) == xs[|xs| - 1]
  {
    hide BitStep;
    if |xs| > 1 { FollowSteps(xs[..|xs| - 1]); }
  }

  /** Eight zero low bits are shifted out without touching the polynomial. */
  lemma ShiftedOut(c: Word)
    requires c < 0x100_0000
    ensures BitSteps(Shifted(c), 8) == c
  {
    hide BitStep;
    Halve8(c);
    Halve6(c);
    Halve4(c);
    Halve2(c);
    FollowSteps([c << 8, c << 7, c << 6, c << 5, c << 4, c << 3, c << 2, c << 1, c]);
  }

  /** The register splits at any point of the message. */
  lemma {:induction false} RegisterSplit(crc: Word, a: Bytes, b: Bytes)
    ensures Register(crc, a + b) == Register(Register(crc, a), b)
    decreases |b|
  {
    hide ByteStep;
    if b == [] {
      assert a + b == a;
    } else {
      var last := |b| - 1;
      assert (a + b)[..|a + b| - 1] == a + b[..last];
      RegisterSplit(crc, a, b[..last]);
    }
  }

  lemma XorCancels(a: Word, b: Word, p: Word)
    requires Xor(a, p) == Xor(b, p)
    ensures a == b
  {
    assert a == (a ^ p) ^ p && b == (b ^ p) ^ p;
  }

  lemma ByteStepInjective(a: Word, b: Word, byte: bv8)
    requires ByteStep(a, byte) == ByteStep(b, byte)
    ensures a == b
  {
    hide Xor, BitStep;
    BitStepsInjective(Xor(a, byte as Word), Xor(b, byte as Word), 8);
    XorCancels(a, b, byte as Word);
  }

  /** Different registers stay different over a common suffix. */
  lemma {:induction false} RegisterInjective(a: Word, b: Word, suffix: Bytes)
    requires Register(a, suffix) == Register(b, suffix)
    ensures a == b
    decreases |suffix|
  {
    hide ByteStep;
    if suffix != [] {
      var last := |suffix| - 1;
      ByteStepInjective(Register(a, suffix[..last]), Register(b, suffix[..last]), suffix[last]);
      RegisterInjective(a, b, suffix[..last]);
    }
  }

  /** A byte placed below an already packed run. */
  function Below(byte: bv8, high: Word): Word { Xor(byte as Word, Shifted(high)) }

  function Shifted(x: Word): Word { x << 8 }

  /** At most four bytes as a word, least significant first. */
  function Packed(w: Bytes): (r: Word)
    requires |w| <= 4
  {
    if w == [] then 0 else Below(w[0], Packed(w[1..]))
  }

  lemma BelowBound(byte: bv8, high: Word)
    requires high < 0x1_0000
    ensures Below(byte, high) < 0x100_0000
    ensures high < 0x100 ==> Below(byte, high) < 0x1_0000
    ensures high == 0 ==> Below(byte, high) < 0x100
  {
  }

  lemma PackedBound(w: Bytes)
    requires |w| <= 3
    ensures Packed(w) < 0x100_0000
    ensures |w| <= 2 ==> Packed(w) < 0x1_0000
    ensures |w| <= 1 ==> Packed(w) < 0x100
    ensures |w| == 0 ==> Packed(w) == 0
  {
    hide Below;
    if w != [] {
      PackedBound(w[1..]);
      BelowBound(w[0], Packed(w[1..]));
    }
  }

  lemma BelowParts(byte: bv8, high: Word)
    requires high < 0x100_0000
    ensures Below(byte, high) & 0xff == byte as Word && Below(byte, high) >> 8 == high
  {
  }

  lemma BelowInjective(v: bv8, a: Word, w: bv8, b: Word)
    requires a < 0x100_0000 && b < 0x100_0000 && Below(v, a) == Below(w, b)
    ensures v == w && a == b
  {
    hide Below;
    BelowParts(v, a);
    BelowParts(w, b);
  }

  lemma {:induction false} PackedInjective(v: Bytes, w: Bytes)
    requires |v| == |w| <= 4 && Packed(v) == Packed(w)
    ensures v == w
    decreases |v|
  {
    hide Below;
    if v != [] {
      PackedBound(v[1..]);
      PackedBound(w[1..]);
      BelowInjective(v[0], Packed(v[1..]), w[0], Packed(w[1..]));
      PackedInjective(v[1..], w[1..]);
      assert v == [v[0]] + v[1..] && w == [w[0]] + w[1..];
    }
  }

  lemma XorAssociates(a: Word, b: Word, c: Word)
    ensures Xor(Xor(a, b), c) == Xor(a, Xor(b, c)) && Xor(a, b) == Xor(b, a)
  {
  }

  lemma XorRegroup(a: Word, v: Word, b: Word, w: Word)
    ensures Xor(Xor(a, v), Xor(b, w)) == Xor(Xor(v, w), Xor(a, b))
  {
    hide Xor;
    XorAssociates(v, a, Xor(b, w));
    XorAssociates(a, b, w);
    XorAssociates(w, Xor(a, b), v);
    XorAssociates(v, w, Xor(a, b));
  }

  lemma XorTwice(s: Word, x: Word)
    ensures Xor(s, Xor(s, x)) == x && Xor(s, s) == 0 && Xor(x, 0) == x
  {
  }

  lemma BelowXor(v: bv8, p: Word, w: bv8, q: Word)
    ensures Xor(Below(v, p), Below(w, q)) == Xor(Xor(v as Word, w as Word), Shifted(Xor(p, q)))
  {
    hide Xor, Shifted;
    ShiftedXor(p, q);
    XorRegroup(v as Word, Shifted(p), w as Word, Shifted(q));
    XorAssociates(Xor(v as Word, w as Word), Shifted(Xor(p, q)), 0);
  }

  lemma ShiftedXor(p: Word, q: Word)
    ensures Shifted(Xor(p, q)) == Xor(Shifted(p), Shifted(q))
  {
  }

  lemma XorMove(a: Word, v: bv8, b: Word, w: bv8, p: Word, q: Word)
    requires Xor(Xor(a, v as Word), Xor(b, w as Word)) == Shifted(Xor(p, q))
    ensures Xor(a, b) == Xor(Below(v, p), Below(w, q))
  {
    hide Xor, Below, Shifted;
    XorRegroup(a, v as Word, b, w as Word);
    XorTwice(Xor(v as Word, w as Word), Xor(a, b));
    BelowXor(v, p, w, q);
  }

  lemma XorBound(p: Word, q: Word)
    requires p < 0x100_0000 && q < 0x100_0000
    ensures Xor(p, q) < 0x100_0000
  {
  }

  lemma FirstByte(crc: Word, data: Bytes)
    requires data != []
    ensures Register(crc, data) == Register(ByteStep(crc, data[0]), data[1..])
  {
    hide ByteStep;
    assert data == [data[0]] + data[1..];
    RegisterSplit(crc, [data[0]], data[1..]);
    assert [data[0]][..0] == [];
  }

  lemma WindowStep(x: Word, y: Word, v: Bytes, w: Bytes)
    requires |v| == |w| <= 3
    requires Xor(BitSteps(x, 8), BitSteps(y, 8)) == Xor(Packed(v), Packed(w))
    ensures Xor(x, y) == Shifted(Xor(Packed(v), Packed(w)))
  {
    hide Xor, BitSteps, Packed, Shifted;
    PackedBound(v);
    PackedBound(w);
    XorBound(Packed(v), Packed(w));
    BitStepsLinear(x, y, 8);
    ShiftedOut(Xor(Packed(v), Packed(w)));
    BitStepsInjective(Xor(x, y), Shifted(Xor(Packed(v), Packed(w))), 8);
  }

  /** Two runs of at most four bytes that end in the same register differ, as
      words, by exactly what their starting registers differ by. */
  lemma {:induction false} WindowDifference(a: Word, v: Bytes, b: Word, w: Bytes)
    requires |v| == |w| <= 4 && Register(a, v) == Register(b, w)
    ensures Xor(a, b) == Xor(Packed(v), Packed(w))
    decreases |v|
  {
    hide Xor, BitStep, Below, Shifted;
    if v == [] {
      XorTwice(a, 0);
      XorTwice(0, 0);
    } else {
      var x, y := Xor(a, v[0] as Word), Xor(b, w[0] as Word);
      var p, q := Packed(v[1..]), Packed(w[1..]);
      assert v == [v[0]] + v[1..] && w == [w[0]] + w[1..];
      FirstByte(a, v);
      FirstByte(b, w);
      WindowDifference(ByteStep(a, v[0]), v[1..], ByteStep(b, w[0]), w[1..]);
      WindowStep(x, y, v[1..], w[1..]);
      XorMove(a, v[0], b, w[0], p, q);
    }
  }

  /** Any change confined to four consecutive bytes changes the CRC-32. */
  lemma BurstChangesChecksum(prefix: Bytes, v: Bytes, w: Bytes, suffix: Bytes)
    requires |v| == |w| <= 4 && v != w
    ensures Checksum(prefix + v + suffix) != Checksum(prefix + w + suffix)
  {
    hide Register, Packed, Xor;
    var s := Register(0xffff_ffff, prefix);
    RegisterSplit(0xffff_ffff, prefix + v, suffix);
    RegisterSplit(0xffff_ffff, prefix + w, suffix);
    RegisterSplit(0xffff_ffff, prefix, v);
    RegisterSplit(0xffff_ffff, prefix, w);
    if Checksum(prefix + v + suffix) == Checksum(prefix + w + suffix) {
      assert Register(0xffff_ffff, prefix + v + suffix) == Register(0xffff_ffff, prefix + w + suffix);
      RegisterInjective(Register(s, v), Register(s, w), suffix);
      WindowDifference(s, v, s, w);
      XorTwice(s, 0);
      XorTwice(Packed(v), Packed(w));
      XorTwice(Packed(v), Packed(v));
      PackedInjective(v, w);
    }
  }
}
