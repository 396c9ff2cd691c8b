/** What each integer operator computes, in the arithmetic of whole numbers and the
    bits of their two's complement. */
module IntegerOperators {
  import opened Evaluator
  import opened FormulaValues
  import BitFields
  import Gvsp

  /** Equal in 64 bits. */
  predicate Congruent(a: int, b: int) { (a - b) % TWO64 == 0 }

  /** Bit `i` of the two's complement. */
  function BitOf(x: i64, i: nat): nat { BitFields.Bit(x % TWO64, i) }

  function PowerOfTwo(n: nat): nat { if n == 0 then 1 else 2 * PowerOfTwo(n - 1) }

  lemma {:induction false} SamePower(n: nat)
    ensures Power2(n) == PowerOfTwo(n) > 0
  {
    if n > 0 { SamePower(n - 1); }
  }

  lemma Wraps(x: int)
    ensures Congruent(Wrap(x), x) && (-TWO63 <= x < TWO63 ==> Wrap(x) == x)
  {
    var q := (x + TWO63) / TWO64;
    assert Wrap(x) - x == -q * TWO64;
    Multiple(-q);
  }

  lemma Multiple(q: int)
    ensures q * TWO64 % TWO64 == 0
  {
    BitFields.RestUnique(q * TWO64, TWO64, q, 0);
  }

  lemma WordOf(x: i64)
    ensures Unsigned(x) == x % TWO64
  {
  }

  lemma BackAgain(n: nat)
    requires n < TWO64
    ensures Signed(n) % TWO64 == n
  {
  }

  /** Sum, difference, product and negation wrap: they are congruent modulo 2^64. */
  lemma WrappingArithmetic(x: i64, y: i64)
    ensures Congruent(IntBinary(Add, x, y), x + y) && Congruent(IntBinary(Sub, x, y), x - y)
    ensures Congruent(IntBinary(Mul, x, y), x * y) && Congruent(Negated(x), 0 - x)
  {
    hide Wrap;
    Wraps(x + y);
    Wraps(x - y);
    Wraps(x * y);
    Wraps(0 - x);
  }

  /** The bit operators work bit by bit. */
  lemma BitwiseOperators(x: i64, y: i64, i: nat)
    requires i < 64
    ensures BitOf(IntBinary(BitAnd, x, y), i) == (if BitOf(x, i) == 1 && BitOf(y, i) == 1 then 1 else 0)
    ensures BitOf(IntBinary(BitOr, x, y), i) == (if BitOf(x, i) == 1 || BitOf(y, i) == 1 then 1 else 0)
    ensures BitOf(IntBinary(BitXor, x, y), i) == (if BitOf(x, i) != BitOf(y, i) then 1 else 0)
    ensures BitOf(Complement(x), i) == 1 - BitOf(x, i)
  {
    hide Signed, Unsigned, BitFields.Bit, BitFields.And, BitFields.Or, BitFields.Xor;
    var a, b := Unsigned(x), Unsigned(y);
    WordOf(x);
    WordOf(y);
    BitsFit(a, b);
    BackAgain(BitFields.And(a, b));
    BackAgain(BitFields.Or(a, b));
    BackAgain(BitFields.Xor(a, b));
    BitFields.BitAnd(a, b, i);
    BitFields.BitOr(a, b, i);
    BitFields.BitXor(a, b, i);
    BitFields.BitIsBit(a, i);
    BitFields.BitIsBit(b, i);
    ComplementBit(x, i);
  }

  lemma ComplementBit(x: i64, i: nat)
    requires i < 64
    ensures BitOf(Complement(x), i) == 1 - BitOf(x, i)
  {
    var n: nat := x % TWO64;
    assert Complement(x) % TWO64 == TWO64 - 1 - n;
    BitFields.WordIsPower();
    FlippedBit(n, 64, i);
  }

  lemma {:induction false} FlippedBit(n: nat, w: nat, i: nat)
    requires n < BitFields.Pow2(w) && i < w
    ensures BitFields.Bit(BitFields.Pow2(w) - 1 - n, i) == 1 - BitFields.Bit(n, i)
  {
    if i > 0 {
      assert (BitFields.Pow2(w) - 1 - n) / 2 == BitFields.Pow2(w - 1) - 1 - n / 2;
      FlippedBit(n / 2, w - 1, i - 1);
    }
  }

  /** Shifts count modulo 64: to the left a wrapping product by a power of two, to the
      right the floor of a quotient. */
  lemma Shifts(x: i64, y: i64)
    ensures var p := PowerOfTwo(y % 64);
            && Congruent(IntBinary(Shl, x, y), x * p)
            && IntBinary(Shr, x, y) * p <= x < (IntBinary(Shr, x, y) + 1) * p
  {
    hide Wrap, PowerOfTwo, Power2;
    SamePower(y % 64);
    var p := PowerOfTwo(y % 64);
    Wraps(x * p);
    var q := x / p;
    assert q * p <= x < (q + 1) * p;
    SmallQuotient(x, p);
    Wraps(q);
  }

  lemma SmallQuotient(x: i64, p: nat)
    requires p > 0
    ensures -TWO63 <= x / p < TWO63
  {
    var q := x / p;
    assert q * p <= x < (q + 1) * p;
    if 0 <= q { Gvsp.Multiples(1, p, q); } else { Gvsp.Multiples(1, p, -q - 1); }
  }

  /** Comparisons and logic answer 1 or 0. */
  lemma TruthValues(x: i64, y: i64)
    ensures IntBinary(Eq, x, y) == (if x == y then 1 else 0) && IntBinary(Ne, x, y) == 1 - IntBinary(Eq, x, y)
    ensures IntBinary(Lt, x, y) == (if x < y then 1 else 0) && IntBinary(Ge, x, y) == 1 - IntBinary(Lt, x, y)
    ensures IntBinary(Gt, x, y) == IntBinary(Lt, y, x) && IntBinary(Le, x, y) == 1 - IntBinary(Gt, x, y)
    ensures IntBinary(And, x, y) == (if x == 0 || y == 0 then 0 else 1) && IntBinary(Or, x, y) == (if x == 0 && y == 0 then 0 else 1)
  {
  }

  /** The magnitude, and the sign that gives the number back. */
  lemma SignAndMagnitude(x: i64)
    ensures Congruent(Wrap(FormulaValues.Abs(x)), if x < 0 then 0 - x else x)
    ensures Signum(x) * FormulaValues.Abs(x) == x && (Signum(x) == 0 <==> x == 0)
  {
    hide Wrap;
    Wraps(FormulaValues.Abs(x));
  }

  /** Division and remainder truncate toward zero; the one quotient that does not fit,
      of the least number by -1, wraps. */
  lemma Divisions(x: i64, y: i64)
    requires y != 0
    ensures IntBinary(Rem, x, y) == Remainder(x, y)
    ensures Congruent(IntBinary(Div, x, y), Quotient(x, y))
    ensures !(x == -TWO63 && y == -1) ==> IntBinary(Div, x, y) == Quotient(x, y)
  {
    hide Wrap, Quotient, Remainder;
    Wraps(Quotient(x, y));
    Wraps(Remainder(x, y));
    QuotientFits(x, y);
    RemainderFits(x, y);
  }

  lemma RemainderFits(x: i64, y: i64)
    requires y != 0
    ensures -TWO63 <= Remainder(x, y) < TWO63
  {
    var a, b := FormulaValues.Abs(x), FormulaValues.Abs(y);
    assert a % b < b;
  }

  lemma QuotientFits(x: i64, y: i64)
    requires y != 0
    ensures !(x == -TWO63 && y == -1) ==> -TWO63 <= Quotient(x, y) < TWO63
  {
    var a, b := FormulaValues.Abs(x), FormulaValues.Abs(y);
    AtMost(a, b);
    if b == 1 { assert a / b == a; }
  }

  lemma AtMost(a: nat, b: nat)
    requires b > 0
    ensures a / b <= a && (b >= 2 ==> 2 * (a / b) <= a)
  {
    var q := a / b;
    assert q * b <= a;
    Gvsp.Multiples(1, b, q);
    if b >= 2 { Gvsp.Multiples(2, b, q); }
  }
}
