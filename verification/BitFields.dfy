/** Integer registers: byte order, masked bit fields and sign. Words are naturals
    below 2^64, with the bitwise operators defined bit by bit. */
module BitFields {
  import opened Gvsp

  type Octet = n: nat | n < 0x100
  type Octets = seq<Octet>

  function Pow2(n: nat): (r: Pos) { if n == 0 then 1 else 2 * Pow2(n - 1) }

  const WORD: nat := 0x1_0000_0000_0000_0000
  const MAX_WORD: nat := WORD - 1

  function And(x: nat, y: nat): nat { if x == 0 || y == 0 then 0 else 2 * And(x / 2, y / 2) + (x % 2) * (y % 2) }

  function Or(x: nat, y: nat): nat {
    if x == 0 && y == 0 then 0 else 2 * Or(x / 2, y / 2) + (if x % 2 == 1 || y % 2 == 1 then 1 else 0)
  }

  function Xor(x: nat, y: nat): nat {
    if x == 0 && y == 0 then 0 else 2 * Xor(x / 2, y / 2) + (if x % 2 != y % 2 then 1 else 0)
  }

  function ShiftLeft(x: nat, n: nat): nat { x * Pow2(n) % WORD }
  function ShiftRight(x: nat, n: nat): nat { Quotient(x, Pow2(n)) }

  function Quotient(x: nat, d: Pos): nat { x / d }
  function Not(x: nat): nat { Xor(x, MAX_WORD) }

  /** Bit `i` of a word, from the least significant. */
  function Bit(x: nat, i: nat): nat { if i == 0 then x % 2 else Bit(x / 2, i - 1) }

  // --------------------------------------------------------------- the source

  datatype Endianness = Little | Big
  datatype Sign = Signed | Unsigned

  /** A field's lowest and highest bit, counted from the least significant. */
  datatype Span = Span(lsb: nat, msb: nat)

  function OrElse(a: Option<nat>, b: Option<nat>): nat {
    if a.Some? then a.value else if b.Some? then b.value else 0
  }

  /** The bits a field covers in a register of `bits` bits; None when it does not
      fit. Big-endian registers number their bits from the most significant. */
  function BitRange(bits: Pos, lsb: Option<nat>, msb: Option<nat>, endianness: Endianness): (r: Option<Span>)
    ensures r.Some? ==> r.value.lsb <= r.value.msb < bits
  {
    if lsb.None? && msb.None? then Some(Span(0, bits - 1))
    else
      var (l, m) := (if endianness.Little? then OrElse(lsb, None) else OrElse(lsb, msb), OrElse(msb, lsb));
      if endianness.Little? then (if l <= m < bits then Some(Span(l, m)) else None)
      else if l > bits - 1 || m > bits - 1 then None
      else if bits - 1 - l <= bits - 1 - m then Some(Span(bits - 1 - l, bits - 1 - m)) else None
  }

  function LoadBig(bytes: Octets): nat
    decreases |bytes|
  {
    if bytes == [] then 0 else 256 * LoadBig(bytes[..|bytes| - 1]) + bytes[|bytes| - 1]
  }

  function Reversed<T>(s: seq<T>): (r: seq<T>)
    ensures |r| == |s| && forall i | 0 <= i < |s| :: r[i] == s[|s| - 1 - i]
  {
    seq(|s|, i requires 0 <= i < |s| => s[|s| - 1 - i])
  }

  function Load(bytes: Octets, endianness: Endianness): nat {
    if endianness.Big? then LoadBig(bytes) else LoadBig(Reversed(bytes))
  }

  /** The lowest `length` bytes, least significant first. */
  function LittleBytes(value: nat, length: nat): (r: Octets)
    ensures |r| == length
    decreases length
  {
    if length == 0 then [] else [value % 256] + LittleBytes(value / 256, length - 1)
  }

  function Store(value: nat, length: nat, endianness: Endianness): (r: Octets)
    ensures |r| == length
  {
    if endianness.Little? then LittleBytes(value, length) else Reversed(LittleBytes(value, length))
  }

  function Mask(span: Span): nat
    requires span.lsb <= span.msb
  {
    var width := span.msb - span.lsb + 1;
    if width >= 64 then MAX_WORD else ShiftLeft(Pow2(width) - 1, span.lsb)
  }

  /** The signed number a word stands for. */
  function AsSigned(x: nat): int { if x >= WORD / 2 then x - WORD else x }

  function AsWord(v: int): nat { v % WORD }

  function ExtractField(word: nat, sign: Sign, span: Span): int
    requires span.lsb <= span.msb
  {
    var width := span.msb - span.lsb + 1;
    var mask := Mask(span);
    var value := ShiftRight(And(word, mask), span.lsb);
    if sign.Signed? && width < 64 && And(value, ShiftLeft(1, width - 1)) != 0
    then AsSigned(Or(value, Xor(MAX_WORD, ShiftRight(mask, span.lsb))))
    else AsSigned(value)
  }

  function InsertField(word: nat, v: int, span: Span): nat
    requires span.lsb <= span.msb
  {
    var mask := Mask(span);
    Or(And(word, Not(mask)), And(ShiftLeft(AsWord(v), span.lsb), mask))
  }

  predicate Supported(length: nat) { 1 <= length <= 8 }

  /** The number in a register's field; None when the register or field is bad. */
  function ExtractInt(bytes: Octets, sign: Sign, endianness: Endianness, lsb: Option<nat>, msb: Option<nat>): Option<int> {
    if !Supported(|bytes|) then None
    else
      match BitRange(8 * |bytes|, lsb, msb, endianness)
      case None => None
      case Some(span) => Some(ExtractField(Load(bytes, endianness), sign, span))
  }

  /** The register with the field set; None when the register or field is bad. */
  function InsertInt(current: Octets, v: int, endianness: Endianness, lsb: Option<nat>, msb: Option<nat>): (r: Option<Octets>)
    ensures r.Some? ==> |r.value| == |current|
  {
    if !Supported(|current|) then None
    else
      match BitRange(8 * |current|, lsb, msb, endianness)
      case None => None
      case Some(span) => Some(Store(InsertField(Load(current, endianness), v, span), |current|, endianness))
  }

  function EncodeInt(v: int, length: nat, endianness: Endianness): (r: Option<Octets>)
    ensures r.Some? ==> |r.value| == length
  {
    if !Supported(length) then None else Some(Store(AsWord(v), length, endianness))
  }

  // --------------------------------------------------------- load and store

  lemma {:induction false} LoadBound(bytes: Octets)
    ensures LoadBig(bytes) < Pow2(8 * |bytes|)
    decreases |bytes|
  {
    if bytes != [] {
      LoadBound(bytes[..|bytes| - 1]);
      BytesPower(|bytes|);
    }
  }

  lemma {:induction false} Pow2Adds(a: nat, b: nat)
    ensures Pow2(a + b) == Pow2(a) * Pow2(b)
    decreases b
  {
    if b > 0 {
      Pow2Adds(a, b - 1);
      assert Pow2(a + b) == 2 * Pow2(a + b - 1);
    }
  }

  lemma {:induction false} LoadStored(value: nat, length: nat)
    ensures LoadBig(Reversed(LittleBytes(value, length))) == value % Pow2(8 * length)
    decreases length
  {
    if length > 0 {
      hide Pow2, LoadBig;
      LoadLowest(value, length);
      LoadStored(value / 256, length - 1);
      BytesPower(length);
      DigitsSplit(value, Pow2(8 * (length - 1)));
    } else {
      assert Pow2(0) == 1;
    }
  }

  lemma BytesPower(length: Pos)
    ensures Pow2(8 * length) == Pow2(8 * (length - 1)) * 256
  {
    Pow2Adds(8 * (length - 1), 8);
    assert Pow2(8) == 256;
  }

  lemma LoadLowest(value: nat, length: Pos)
    ensures LoadBig(Reversed(LittleBytes(value, length)))
            == 256 * LoadBig(Reversed(LittleBytes(value / 256, length - 1))) + value % 256
  {
    var bytes, rest := LittleBytes(value, length), LittleBytes(value / 256, length - 1);
    assert bytes[1..] == rest;
    var r := Reversed(bytes);
    assert r[..length - 1] == Reversed(rest) && r[length - 1] == bytes[0];
  }

  /** The remainder by 256 m, digit by digit. */
  lemma DigitsSplit(value: nat, m: Pos)
    ensures value % (m * 256) == 256 * (value / 256 % m) + value % 256
  {
    var q, r := value / 256 / m, value / 256 % m;
    assert value / 256 == q * m + r;
    assert value == (q * m + r) * 256 + value % 256;
    assert (q * m + r) * 256 == q * (m * 256) + r * 256;
    assert r * 256 + value % 256 < m * 256;
    DivisionUnique(value, m * 256, q, r * 256 + value % 256);
  }

  lemma {:induction false} StoredLoad(bytes: Octets)
    ensures LittleBytes(LoadBig(Reversed(bytes)), |bytes|) == bytes
    decreases |bytes|
  {
    if bytes != [] {
      var r := Reversed(bytes);
      assert r[..|bytes| - 1] == Reversed(bytes[1..]) && r[|bytes| - 1] == bytes[0];
      StoredLoad(bytes[1..]);
      var high := LoadBig(Reversed(bytes[1..]));
      assert LoadBig(r) == 256 * high + bytes[0];
      assert LoadBig(r) / 256 == high && LoadBig(r) % 256 == bytes[0];
      assert bytes == [bytes[0]] + bytes[1..];
    }
  }

  lemma ReversedTwice(bytes: Octets)
    ensures Reversed(Reversed(bytes)) == bytes
  {
  }

  /** Loading what was stored gives the value, cut to the register. */
  lemma LoadOfStore(value: nat, length: nat, endianness: Endianness)
    ensures Load(Store(value, length, endianness), endianness) == value % Pow2(8 * length)
  {
    LoadStored(value, length);
  }

  /** Storing what was loaded gives the bytes back. */
  lemma StoreOfLoad(bytes: Octets, endianness: Endianness)
    ensures Store(Load(bytes, endianness), |bytes|, endianness) == bytes
  {
    if endianness.Little? {
      StoredLoad(bytes);
    } else {
      StoredLoad(Reversed(bytes));
      ReversedTwice(bytes);
    }
  }

  // ------------------------------------------------------------- bit by bit

  lemma {:induction false} BitAnd(x: nat, y: nat, i: nat)
    ensures Bit(And(x, y), i) == Bit(x, i) * Bit(y, i)
    decreases i
  {
    if x == 0 || y == 0 {
      ZeroBits(i);
    } else {
      var z := And(x, y);
      assert z / 2 == And(x / 2, y / 2) && z % 2 == (x % 2) * (y % 2) by {
        assert (x % 2) * (y % 2) == 0 || (x % 2) * (y % 2) == 1;
      }
      if i > 0 { BitAnd(x / 2, y / 2, i - 1); }
    }
  }

  lemma {:induction false} ZeroBits(i: nat)
    ensures Bit(0, i) == 0
  {
    if i > 0 { ZeroBits(i - 1); }
  }

  lemma {:induction false} BitOr(x: nat, y: nat, i: nat)
    ensures Bit(Or(x, y), i) == if Bit(x, i) == 1 || Bit(y, i) == 1 then 1 else 0
    decreases i
  {
    if x == 0 && y == 0 {
      ZeroBits(i);
    } else if i > 0 {
      assert Or(x, y) / 2 == Or(x / 2, y / 2);
      BitOr(x / 2, y / 2, i - 1);
    }
  }

  lemma {:induction false} BitXor(x: nat, y: nat, i: nat)
    ensures Bit(Xor(x, y), i) == if Bit(x, i) != Bit(y, i) then 1 else 0
    decreases i
  {
    if x == 0 && y == 0 {
      ZeroBits(i);
    } else if i > 0 {
      assert Xor(x, y) / 2 == Xor(x / 2, y / 2);
      BitXor(x / 2, y / 2, i - 1);
    }
  }

  lemma {:induction false} BitIsBit(x: nat, i: nat)
    ensures Bit(x, i) == 0 || Bit(x, i) == 1
  {
    if i > 0 { BitIsBit(x / 2, i - 1); }
  }

  lemma HalfDiv(x: nat, n: Pos)
    ensures ShiftRight(x, n) == ShiftRight(x / 2, n - 1)
  {
    var m := Pow2(n - 1);
    var q, r := x / 2 / m, x / 2 % m;
    assert x / 2 == q * m + r;
    assert x == 2 * (q * m + r) + x % 2;
    assert 2 * (q * m) == q * (2 * m);
    DivisionUnique(x, 2 * m, q, 2 * r + x % 2);
  }

  lemma {:induction false} BitShiftedRight(x: nat, n: nat, i: nat)
    ensures Bit(ShiftRight(x, n), i) == Bit(x, i + n)
    decreases n
  {
    if n > 0 {
      hide Quotient, Pow2;
      HalfDiv(x, n);
      BitShiftedRight(x / 2, n - 1, i);
    } else {
      assert Pow2(0) == 1;
    }
  }

  lemma {:induction false} BitShiftedLeft(x: nat, n: nat, i: nat)
    ensures Bit(x * Pow2(n), i) == if i < n then 0 else Bit(x, i - n)
    decreases n
  {
    if n > 0 {
      assert x * Pow2(n) == 2 * (x * Pow2(n - 1));
      if i > 0 { BitShiftedLeft(x, n - 1, i - 1); }
    } else {
      assert x * Pow2(0) == x;
    }
  }

  lemma {:induction false} BitOfRest(x: nat, m: nat, i: nat)
    ensures Bit(x % Pow2(m), i) == if i < m then Bit(x, i) else 0
    decreases m
  {
    if m == 0 {
      ZeroBits(i);
    } else {
      HalfMod(x, m);
      if i > 0 { BitOfRest(x / 2, m - 1, i - 1); }
    }
  }

  lemma HalfMod(x: nat, m: Pos)
    ensures x % Pow2(m) % 2 == x % 2 && x % Pow2(m) / 2 == x / 2 % Pow2(m - 1)
  {
    var h := Pow2(m - 1);
    var q, r := x / 2 / h, x / 2 % h;
    assert x / 2 == q * h + r;
    assert x == q * (2 * h) + (2 * r + x % 2) by { assert 2 * (q * h) == q * (2 * h); }
    DivisionUnique(x, 2 * h, q, 2 * r + x % 2);
  }

  lemma {:induction false} BitOfOnes(w: nat, i: nat)
    ensures Bit(Pow2(w) - 1, i) == if i < w then 1 else 0
    decreases w
  {
    if w == 0 {
      ZeroBits(i);
    } else if i > 0 {
      assert (Pow2(w) - 1) / 2 == Pow2(w - 1) - 1;
      BitOfOnes(w - 1, i - 1);
    }
  }

  /** Words are their bits. */
  lemma {:induction false} SameBits(x: nat, y: nat, n: nat)
    requires x < Pow2(n) && y < Pow2(n) && forall i | 0 <= i < n :: Bit(x, i) == Bit(y, i)
    ensures x == y
    decreases n
  {
    if n > 0 {
      assert Bit(x, 0) == Bit(y, 0);
      forall i | 0 <= i < n - 1 ensures Bit(x / 2, i) == Bit(y / 2, i) {
        assert Bit(x, i + 1) == Bit(y, i + 1);
      }
      SameBits(x / 2, y / 2, n - 1);
    }
  }

  lemma WordIsPower()
    ensures WORD == Pow2(64)
  {
    Pow2Adds(32, 32);
    Pow2Adds(16, 16);
    assert Pow2(16) == 0x1_0000 by { Pow2Adds(8, 8); assert Pow2(8) == 0x100; }
  }

  lemma BitOfMask(span: Span, i: nat)
    requires span.lsb <= span.msb < 64
    ensures Bit(Mask(span), i) == if span.lsb <= i <= span.msb then 1 else 0
  {
    hide Pow2, Bit;
    var width := span.msb - span.lsb + 1;
    WordIsPower();
    if width >= 64 {
      BitOfOnes(64, i);
    } else {
      BitOfRest((Pow2(width) - 1) * Pow2(span.lsb), 64, i);
      BitShiftedLeft(Pow2(width) - 1, span.lsb, i);
      if i >= span.lsb { BitOfOnes(width, i - span.lsb); }
    }
  }

  /** Inserting sets the field's bits from the value and keeps every other bit. */
  lemma InsertedBit(word: nat, v: int, span: Span, i: nat)
    requires span.lsb <= span.msb < 64 && i < 64
    ensures Bit(InsertField(word, v, span), i)
            == if span.lsb <= i <= span.msb then Bit(AsWord(v), i - span.lsb) else Bit(word, i)
  {
    hide Pow2, Bit, Mask, And, Or, Xor;
    var mask := Mask(span);
    var kept, moved := And(word, Not(mask)), And(ShiftLeft(AsWord(v), span.lsb), mask);
    BitOr(kept, moved, i);
    BitAnd(word, Not(mask), i);
    BitXor(mask, MAX_WORD, i);
    WordIsPower();
    BitOfOnes(64, i);
    BitOfMask(span, i);
    BitAnd(ShiftLeft(AsWord(v), span.lsb), mask, i);
    BitOfRest(AsWord(v) * Pow2(span.lsb), 64, i);
    BitShiftedLeft(AsWord(v), span.lsb, i);
    BitIsBit(word, i);
    if i >= span.lsb { BitIsBit(AsWord(v), i - span.lsb); }
  }

  /** The field's bits, moved down. */
  lemma ExtractedBit(word: nat, span: Span, i: nat)
    requires span.lsb <= span.msb < 64
    ensures Bit(ShiftRight(And(word, Mask(span)), span.lsb), i)
            == if i <= span.msb - span.lsb then Bit(word, i + span.lsb) else 0
  {
    hide Pow2, Bit, Mask, And;
    BitShiftedRight(And(word, Mask(span)), span.lsb, i);
    BitAnd(word, Mask(span), i + span.lsb);
    BitOfMask(span, i + span.lsb);
  }

  // ------------------------------------------------------------- the field

  /** A value cut to `width` bits and read with its sign; 64 bits are signed. */
  function Reduced(v: int, sign: Sign, width: Pos): int {
    var r := v % Pow2(width);
    if (sign.Signed? || width >= 64) && r >= Pow2(width - 1) then r - Pow2(width) else r
  }

  lemma {:induction false} AndBound(x: nat, y: nat)
    ensures And(x, y) <= y
    decreases x
  {
    if x != 0 && y != 0 { AndBound(x / 2, y / 2); }
  }

  lemma MaskBound(span: Span)
    requires span.lsb <= span.msb
    ensures Mask(span) < WORD
  {
  }

  /** The word that extraction moves down from a word holding `v` in the field. */
  lemma FieldWord(word: nat, v: int, span: Span)
    requires span.lsb <= span.msb < 64
    requires forall i | span.lsb <= i <= span.msb :: Bit(word, i) == Bit(AsWord(v), i - span.lsb)
    ensures ShiftRight(And(word, Mask(span)), span.lsb) == v % Pow2(span.msb - span.lsb + 1)
  {
    hide Pow2, Bit, Mask, And;
    var width := span.msb - span.lsb + 1;
    var x, y := ShiftRight(And(word, Mask(span)), span.lsb), AsWord(v) % Pow2(width);
    WordIsPower();
    AndBound(word, Mask(span));
    MaskBound(span);
    DivBound(And(word, Mask(span)), Pow2(span.lsb));
    PowersGrow(width, 64);
    forall i | 0 <= i < 64 ensures Bit(x, i) == Bit(y, i) {
      ExtractedBit(word, span, i);
      BitOfRest(AsWord(v), width, i);
    }
    SameBits(x, y, 64);
    ModOfMod(v, width);
  }

  lemma DivBound(x: nat, d: Pos)
    ensures x / d <= x
  {
    var q := x / d;
    assert q * d <= x;
    Multiples(q, q * 1, 1);
    assert q <= q * d by { Multiples(1, d, q); }
  }

  lemma {:induction false} PowersGrow(a: nat, b: nat)
    requires a <= b
    ensures Pow2(a) <= Pow2(b)
    decreases b - a
  {
    if a < b { PowersGrow(a, b - 1); }
  }

  lemma ModOfMod(v: int, width: nat)
    requires width <= 64
    ensures AsWord(v) % Pow2(width) == v % Pow2(width)
  {
    hide Pow2;
    WordIsPower();
    Pow2Adds(64 - width, width);
    var m, k := Pow2(width), Pow2(64 - width);
    var q := v / WORD;
    var x := AsWord(v);
    assert v == q * WORD + x;
    assert q * WORD == q * k * m;
    assert x == x / m * m + x % m;
    RestUnique(v, m, q * k + x / m, x % m);
  }

  lemma RestUnique(v: int, m: Pos, q: int, r: nat)
    requires v == q * m + r && r < m
    ensures v % m == r
  {
    var d := v / m - q;
    assert v % m - r == -d * m;
    if d > 0 { Multiples(1, d, m); } else if d < 0 { Multiples(1, -d, m); }
  }

  lemma {:induction false} TopBit(x: nat, w: Pos)
    requires x < Pow2(w)
    ensures Bit(x, w - 1) == 1 <==> x >= Pow2(w - 1)
    decreases w
  {
    if w > 1 { TopBit(x / 2, w - 1); }
  }

  lemma TestBit(x: nat, k: nat)
    requires k < 64 && x < WORD
    ensures And(x, ShiftLeft(1, k)) != 0 <==> Bit(x, k) == 1
  {
    hide Pow2, Bit, And;
    WordIsPower();
    var y := ShiftLeft(1, k);
    forall i | 0 <= i < 64 ensures Bit(And(x, y), i) == if i == k then Bit(x, k) else 0 {
      BitAnd(x, y, i);
      BitOfRest(1 * Pow2(k), 64, i);
      BitShiftedLeft(1, k, i);
      if i >= k { OneBit(i - k); }
    }
    if Bit(x, k) == 1 {
      ZeroBits(k);
    } else {
      BitIsBit(x, k);
      AndBound(x, y);
      forall i | 0 <= i < 64 ensures Bit(And(x, y), i) == Bit(0, i) { ZeroBits(i); }
      SameBits(And(x, y), 0, 64);
    }
  }

  lemma OneBit(i: nat)
    ensures Bit(1, i) == if i == 0 then 1 else 0
  {
    if i > 0 { ZeroBits(i - 1); }
  }

  lemma {:induction false} BitOfSum(low: nat, high: nat, w: nat, i: nat)
    requires low < Pow2(w)
    ensures Bit(low + high * Pow2(w), i) == if i < w then Bit(low, i) else Bit(high, i - w)
    decreases w
  {
    if w > 0 {
      var x := low + high * Pow2(w);
      assert high * Pow2(w) == 2 * (high * Pow2(w - 1));
      assert x % 2 == low % 2 && x / 2 == low / 2 + high * Pow2(w - 1);
      if i > 0 { BitOfSum(low / 2, high, w - 1, i - 1); }
    } else {
      assert high * Pow2(0) == high;
    }
  }

  /** Setting all bits above the field makes it negative. */
  lemma SignExtended(x: nat, w: Pos)
    requires w < 64 && x < Pow2(w)
    ensures Or(x, Xor(MAX_WORD, Pow2(w) - 1)) == x + (WORD - Pow2(w)) && Pow2(w) < WORD
  {
    hide Pow2, Bit, Or, Xor;
    WordIsPower();
    Pow2Adds(64 - w, w);
    var ones := Pow2(64 - w) - 1;
    assert Pow2(w) < WORD by { PowersGrow(1, 64 - w); assert Pow2(1) == 2 by { SmallPower(); } Multiples(2, Pow2(64 - w), Pow2(w)); }
    var y := x + ones * Pow2(w);
    assert ones * Pow2(w) == WORD - Pow2(w);
    var z := Or(x, Xor(MAX_WORD, Pow2(w) - 1));
    forall i | 0 <= i < 64 ensures Bit(z, i) == Bit(y, i) {
      BitOr(x, Xor(MAX_WORD, Pow2(w) - 1), i);
      BitXor(MAX_WORD, Pow2(w) - 1, i);
      BitOfOnes(64, i);
      BitOfOnes(w, i);
      BitOfSum(x, ones, w, i);
      if i >= w { BitOfOnes(64 - w, i - w); }
      BitIsBit(x, i);
    }
    OrBound(MAX_WORD, Pow2(w) - 1, 64);
    OrBound(x, Xor(MAX_WORD, Pow2(w) - 1), 64);
    SameBits(z, y, 64);
  }

  lemma SmallPower()
    ensures Pow2(1) == 2
  {
  }

  lemma {:induction false} OrBound(x: nat, y: nat, n: nat)
    requires x < Pow2(n) && y < Pow2(n)
    ensures Or(x, y) < Pow2(n) && Xor(x, y) < Pow2(n)
    decreases n
  {
    if n > 0 { OrBound(x / 2, y / 2, n - 1); }
  }

  /** Whatever a field holds is read back with its width and sign. */
  lemma FieldRead(word: nat, v: int, sign: Sign, span: Span)
    requires span.lsb <= span.msb < 64
    requires forall i | span.lsb <= i <= span.msb :: Bit(word, i) == Bit(AsWord(v), i - span.lsb)
    ensures ExtractField(word, sign, span) == Reduced(v, sign, span.msb - span.lsb + 1)
  {
    hide Pow2, Bit, And, Or, Xor, Mask, ShiftLeft;
    var width := span.msb - span.lsb + 1;
    var value := ShiftRight(And(word, Mask(span)), span.lsb);
    FieldWord(word, v, span);
    WordIsPower();
    TopBit(value, width);
    PowerDoubles(width);
    if width < 64 {
      PowersGrow(width, 63);
      PowerDoubles(64);
      TestBit(value, width - 1);
      MaskMovedDown(span);
      SignExtended(value, width);
    }
  }

  lemma PowerDoubles(w: Pos)
    ensures Pow2(w) == 2 * Pow2(w - 1)
  {
  }

  lemma MaskMovedDown(span: Span)
    requires span.lsb <= span.msb < 64 && span.msb - span.lsb + 1 < 64
    ensures ShiftRight(Mask(span), span.lsb) == Pow2(span.msb - span.lsb + 1) - 1
  {
    hide Pow2, Bit;
    var width := span.msb - span.lsb + 1;
    WordIsPower();
    Pow2Adds(width, span.lsb);
    PowersGrow(width + span.lsb, 64);
    MovedUpDown(Pow2(width), Pow2(span.lsb));
  }

  lemma MovedUpDown(w: Pos, l: Pos)
    requires w * l <= WORD
    ensures (w - 1) * l % WORD / l == w - 1
  {
    var ones: nat := w - 1;
    assert ones * l == w * l - l;
    DivisionUnique(ones * l, WORD, 0, ones * l);
    DivisionUnique(ones * l, l, ones, 0);
  }

  /** For every register length, byte order, sign and fitting field: a value that
      was inserted is extracted again, reduced to the field's width and sign. */
  lemma ExtractInserted(current: Octets, v: int, sign: Sign, endianness: Endianness, lsb: Option<nat>, msb: Option<nat>)
    requires InsertInt(current, v, endianness, lsb, msb).Some?
    ensures var span := BitRange(8 * |current|, lsb, msb, endianness).value;
            ExtractInt(InsertInt(current, v, endianness, lsb, msb).value, sign, endianness, lsb, msb)
            == Some(Reduced(v, sign, span.msb - span.lsb + 1))
  {
    hide Pow2, Bit, InsertField, ExtractField, Load, Store, Reduced;
    var bits := 8 * |current|;
    var span := BitRange(bits, lsb, msb, endianness).value;
    var word := InsertField(Load(current, endianness), v, span);
    LoadOfStore(word, |current|, endianness);
    forall i | span.lsb <= i <= span.msb ensures Bit(word % Pow2(bits), i) == Bit(AsWord(v), i - span.lsb) {
      BitOfRest(word, bits, i);
      InsertedBit(Load(current, endianness), v, span, i);
    }
    FieldRead(word % Pow2(bits), v, sign, span);
  }

  /** And every bit of the register outside the field is as it was. */
  lemma OutsideKept(current: Octets, v: int, endianness: Endianness, lsb: Option<nat>, msb: Option<nat>, i: nat)
    requires InsertInt(current, v, endianness, lsb, msb).Some? && i < 8 * |current|
    requires var span := BitRange(8 * |current|, lsb, msb, endianness).value; i < span.lsb || i > span.msb
    ensures Bit(Load(InsertInt(current, v, endianness, lsb, msb).value, endianness), i) == Bit(Load(current, endianness), i)
  {
    hide Pow2, Bit, InsertField, Load, Store;
    var bits := 8 * |current|;
    var span := BitRange(bits, lsb, msb, endianness).value;
    var word := InsertField(Load(current, endianness), v, span);
    LoadOfStore(word, |current|, endianness);
    BitOfRest(word, bits, i);
    InsertedBit(Load(current, endianness), v, span, i);
  }

  /** A whole register that was encoded reads back, reduced to its width. */
  lemma ExtractEncoded(v: int, length: nat, sign: Sign, endianness: Endianness)
    requires Supported(length)
    ensures ExtractInt(EncodeInt(v, length, endianness).value, sign, endianness, None, None)
            == Some(Reduced(v, sign, 8 * length))
  {
    hide Pow2, Bit, ExtractField, Load, Store, Reduced;
    LoadOfStore(AsWord(v), length, endianness);
    var word := AsWord(v) % Pow2(8 * length);
    forall i | 0 <= i <= 8 * length - 1 ensures Bit(word, i) == Bit(AsWord(v), i - 0) {
      BitOfRest(AsWord(v), 8 * length, i);
    }
    FieldRead(word, v, sign, Span(0, 8 * length - 1));
  }

  /** Accumulates the bytes from the most significant. */
  method LoadWord(bytes: Octets, endianness: Endianness) returns (value: nat)
    ensures value == Load(bytes, endianness)
  {
    value := 0;
    var ordered := if endianness.Big? then bytes else Reversed(bytes);
    for i := 0 to |ordered|
      invariant value == LoadBig(ordered[..i])
    {
      assert ordered[..i + 1][..i] == ordered[..i];
      value := value * 256 + ordered[i];
    }
    assert ordered[..|ordered|] == ordered;
  }
}
