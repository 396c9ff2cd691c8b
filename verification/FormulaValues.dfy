/** What formula operators do to values: 64-bit integers that wrap, doubles, and
    the promotion between them. Doubles are an abstract type with abstract
    operations; only the integer side is spelled out. */
module FormulaValues {
  import opened Evaluator
  import opened FormulaCompiler
  import opened Gvsp
  import BitFields

  const TWO63: int := 0x8000_0000_0000_0000
  const TWO64: int := 0x1_0000_0000_0000_0000

  type i64 = x: int | -0x8000_0000_0000_0000 <= x < 0x8000_0000_0000_0000

  function Wrap(x: int): i64 { (x + TWO63) % TWO64 - TWO63 }

  /** The 64 bits of a number, and the number of 64 bits. */
  function Unsigned(x: i64): (r: nat)
    ensures r < TWO64
  {
    if x < 0 then x + TWO64 else x
  }

  function Signed(n: nat): i64
    requires n < TWO64
  {
    if n >= TWO63 then n - TWO64 else n
  }

  lemma BitsFit(x: nat, y: nat)
    requires x < TWO64 && y < TWO64
    ensures BitFields.And(x, y) < TWO64 && BitFields.Or(x, y) < TWO64 && BitFields.Xor(x, y) < TWO64
  {
    BitFields.WordIsPower();
    BitFields.AndBound(x, y);
    BitFields.OrBound(x, y, 64);
  }

  function Abs(x: int): nat { if x < 0 then -x else x }

  /** Division toward zero, and its remainder, as the machine does them. */
  function Quotient(x: int, y: int): int
    requires y != 0
  {
    if (x < 0) == (y < 0) then Abs(x) / Abs(y) else -(Abs(x) / Abs(y))
  }

  function Remainder(x: int, y: int): int
    requires y != 0
  {
    if x < 0 then -(Abs(x) % Abs(y)) else Abs(x) % Abs(y)
  }

  function Power2(n: nat): (r: nat) ensures r > 0 { if n == 0 then 1 else 2 * Power2(n - 1) }

  function Negated(x: int): i64 { Wrap(-x) }
  function Complement(x: int): int { -x - 1 }

  function BoolInt(b: bool): i64 { if b then 1 else 0 }

  datatype Value<D> = I(whole: i64) | F(double: D)

  datatype Ordering = Less | Equal | Greater

  /** The double operations the evaluator borrows from the platform. */
  datatype Doubles<!D> = Doubles(
    ofInt: i64 -> D, toInt: D -> i64, isZero: D -> bool, sign: D -> i64, compare: (D, D) -> Result<Ordering>,
    arithmetic: (Binary, D, D) -> D, negate: D -> D, call: (Function, D) -> D)

  function AsInt<D>(d: Doubles<D>, v: Value<D>): i64 { match v case I(x) => x case F(x) => d.toInt(x) }
  function AsDouble<D>(d: Doubles<D>, v: Value<D>): D { match v case I(x) => d.ofInt(x) case F(x) => x }
  function Truthy<D>(d: Doubles<D>, v: Value<D>): bool { match v case I(x) => x != 0 case F(x) => !d.isZero(x) }

  function Compare<D>(d: Doubles<D>, a: Value<D>, b: Value<D>): Result<Ordering> {
    if a.I? && b.I?
    then Ok(if a.whole < b.whole then Less else if a.whole == b.whole then Equal else Greater)
    else d.compare(AsDouble(d, a), AsDouble(d, b))
  }

  function ShiftCount(b: i64): nat { b % 64 }

  function IntBinary(op: Binary, x: i64, y: i64): i64
    requires !op.Pow? && ((op.Div? || op.Rem?) ==> y != 0)
  {
    BitsFit(Unsigned(x), Unsigned(y));
    match op
    case Or => BoolInt(x != 0 || y != 0)
    case And => BoolInt(x != 0 && y != 0)
    case BitOr => Signed(BitFields.Or(Unsigned(x), Unsigned(y)))
    case BitXor => Signed(BitFields.Xor(Unsigned(x), Unsigned(y)))
    case BitAnd => Signed(BitFields.And(Unsigned(x), Unsigned(y)))
    case Eq => BoolInt(x == y)
    case Ne => BoolInt(x != y)
    case Le => BoolInt(x <= y)
    case Ge => BoolInt(x >= y)
    case Lt => BoolInt(x < y)
    case Gt => BoolInt(x > y)
    case Shr => Wrap(x / Power2(ShiftCount(y)))
    case Shl => Wrap(x * Power2(ShiftCount(y)))
    case Sub => Wrap(x - y)
    case Add => Wrap(x + y)
    case Rem => Wrap(Remainder(x, y))
    case Div => Wrap(Quotient(x, y))
    case Mul => Wrap(x * y)
  }

  function ApplyBinary<D>(d: Doubles<D>, op: Binary, a: Value<D>, b: Value<D>): Result<Value<D>> {
    var x, y := AsInt(d, a), AsInt(d, b);
    match op
    case Or => Ok(I(BoolInt(Truthy(d, a) || Truthy(d, b))))
    case And => Ok(I(BoolInt(Truthy(d, a) && Truthy(d, b))))
    case BitOr | BitXor | BitAnd | Shl | Shr => Ok(I(IntBinary(op, x, y)))
    case Rem => if y == 0 then Err(Arithmetic(Rem)) else Ok(I(IntBinary(Rem, x, y)))
    case Eq =>
      var o :- Compare(d, a, b);
      Ok(I(BoolInt(o.Equal?)))
    case Ne =>
      var o :- Compare(d, a, b);
      Ok(I(BoolInt(!o.Equal?)))
    case Le =>
      var o :- Compare(d, a, b);
      Ok(I(BoolInt(!o.Greater?)))
    case Ge =>
      var o :- Compare(d, a, b);
      Ok(I(BoolInt(!o.Less?)))
    case Lt =>
      var o :- Compare(d, a, b);
      Ok(I(BoolInt(o.Less?)))
    case Gt =>
      var o :- Compare(d, a, b);
      Ok(I(BoolInt(o.Greater?)))
    case Add | Sub | Mul =>
      if a.I? && b.I? then Ok(I(IntBinary(op, x, y)))
      else Ok(F(d.arithmetic(op, AsDouble(d, a), AsDouble(d, b))))
    case Div =>
      if a.I? && b.I? then (if y == 0 then Err(Arithmetic(Div)) else Ok(I(IntBinary(Div, x, y))))
      else Ok(F(d.arithmetic(op, AsDouble(d, a), AsDouble(d, b))))
    case Pow => Ok(F(d.arithmetic(op, AsDouble(d, a), AsDouble(d, b))))
  }

  function ApplyPrefix<D>(d: Doubles<D>, p: Prefix, a: Value<D>): Result<Value<D>> {
    match p
    case Minus => Ok(match a case I(x) => I(Negated(x)) case F(x) => F(d.negate(x)))
    case Plus => Ok(a)
    case BitNot => Ok(I(Complement(AsInt(d, a))))
  }

  function Signum(x: i64): i64 { if x > 0 then 1 else if x < 0 then -1 else 0 }

  function ApplyCall<D>(d: Doubles<D>, f: Function, a: Value<D>): Result<Value<D>> {
    match f
    case Neg => ApplyPrefix(d, Minus, a)
    case Sgn => Ok(match a case I(x) => I(Signum(x)) case F(x) => I(d.sign(x)))
    case Abs => Ok(match a case I(x) => I(Wrap(Abs(x))) case F(x) => F(d.call(Evaluator.Abs, x)))
    case _ => Ok(F(d.call(f, AsDouble(d, a))))
  }

  function Values<D>(d: Doubles<D>): Meaning<Value<D>> {
    Meaning((p, a) => ApplyPrefix(d, p, a), (f, a) => ApplyCall(d, f, a),
            (op, a, b) => ApplyBinary(d, op, a, b), v => Truthy(d, v))
  }

  // ----------------------------------------- the integers, on their own

  /** A formula that stays in the integers: no power, no double-only function. */
  predicate Integral<D>(t: Tree<Value<D>>) {
    match t
    case Lit(v) => v.I?
    case Ref(_) => true
    case Group(a) => Integral(a)
    case Sign(_, a) => Integral(a)
    case Applied(f, a) => (f.Neg? || f.Sgn? || f.Abs?) && Integral(a)
    case Bin(op, l, r) => !op.Pow? && Integral(l) && Integral(r)
    case Cond(c, a, b) => Integral(c) && Integral(a) && Integral(b)
  }

  /** The strict wrapping value of an integer formula, or None once any divisor
      in it, taken or not, is zero. */
  function Exact<D>(t: Tree<Value<D>>, env: string -> i64): Option<i64>
    requires Integral(t)
  {
    match t
    case Lit(v) => Some(v.whole)
    case Ref(n) => Some(env(n))
    case Group(a) => Exact(a, env)
    case Sign(p, a) =>
      var x := Exact(a, env);
      if x.None? then None
      else Some(match p case Minus => Negated(x.value) case Plus => x.value case BitNot => Complement(x.value))
    case Applied(f, a) =>
      var x := Exact(a, env);
      if x.None? then None
      else Some(if f.Neg? then Negated(x.value) else if f.Sgn? then Signum(x.value) else Wrap(Abs(x.value)))
    case Bin(op, l, r) =>
      var x, y := Exact(l, env), Exact(r, env);
      if x.None? || y.None? || ((op.Div? || op.Rem?) && y.value == 0) then None
      else Some(IntBinary(op, x.value, y.value))
    case Cond(c, a, b) =>
      var x, y, z := Exact(c, env), Exact(a, env), Exact(b, env);
      if x.None? || y.None? || z.None? then None
      else Some(if x.value != 0 then y.value else z.value)
  }

  lemma {:induction false} IntegerValue<D>(d: Doubles<D>, t: Tree<Value<D>>, env: string -> i64)
    requires Integral(t)
    ensures var v := Evaluator.Value(Values(d), t, n => Ok(I(env(n))));
            match Exact(t, env)
            case Some(x) => v == Ok(I(x))
            case None => v == Err(Arithmetic(Div)) || v == Err(Arithmetic(Rem))
  {
    hide IntBinary, Wrap;
    match t
    case Lit(_) =>
    case Ref(_) =>
    case Group(a) => IntegerValue(d, a, env);
    case Sign(_, a) => IntegerValue(d, a, env);
    case Applied(_, a) => IntegerValue(d, a, env);
    case Bin(op, l, r) =>
      IntegerValue(d, l, env);
      IntegerValue(d, r, env);
      if Exact(l, env).Some? && Exact(r, env).Some? {
        IntegerBinary(d, op, Exact(l, env).value, Exact(r, env).value);
      }
    case Cond(c, a, b) =>
      IntegerValue(d, c, env);
      IntegerValue(d, a, env);
      IntegerValue(d, b, env);
  }

  lemma IntegerBinary<D>(d: Doubles<D>, op: Binary, x: i64, y: i64)
    requires !op.Pow?
    ensures ApplyBinary(d, op, I(x), I(y))
            == if (op.Div? || op.Rem?) && y == 0 then Err(Arithmetic(op)) else Ok(I(IntBinary(op, x, y)))
  {
    hide Wrap;
  }

  /** An integer formula, printed, compiled and run: its strict wrapping value,
      or an error exactly when a division or remainder by zero occurs in it. */
  lemma IntegerFormula<D>(d: Doubles<D>, t: Tree<Value<D>>, env: string -> i64, vars: seq<Value<D>>)
    requires Integral(t) && |vars| == |Names(t, [])| <= 0x1_0000
    requires forall i | 0 <= i < |vars| :: vars[i] == I(env(Names(t, [])[i]))
    ensures Parse(Print(t, 0)).Ok?
    ensures var r := Eval(Values(d), Parse(Print(t, 0)).value, vars);
            && (r.Ok? <==> Exact(t, env).Some?)
            && (r.Ok? ==> r.value == I(Exact(t, env).value))
            && (r.Err? ==> r.error.Arithmetic? && (r.error.op.Div? || r.error.op.Rem?))
  {
    hide Exact, Evaluator.Value, Parse, Eval, Names;
    var values: string -> Value<D> := n => I(env(n));
    CompiledValue(Values(d), t, values, vars);
    IntegerValue(d, t, env);
    ValueOfSameNames(Values(d), t, Names(t, []), n => Ok(values(n)), n => Ok(I(env(n)))) by { NamesKnown(t, []); }
  }

  /** Quotient and remainder are the ones of truncating division. */
  lemma TruncatingDivision(x: int, y: int)
    requires y != 0
    ensures x == Quotient(x, y) * y + Remainder(x, y)
    ensures Abs(Remainder(x, y)) < Abs(y)
    ensures Remainder(x, y) != 0 ==> (Remainder(x, y) < 0) == (x < 0)
  {
    var q, r := Abs(x) / Abs(y), Abs(x) % Abs(y);
    assert Abs(x) == q * Abs(y) + r;
    if x < 0 && y < 0 {
      assert -x == q * -y + r;
    } else if x < 0 {
      assert -x == q * y + r;
    } else if y < 0 {
      assert x == q * -y + r;
    }
  }
}
