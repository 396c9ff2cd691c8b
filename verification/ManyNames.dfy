/** Formulas with more names than sixteen bits number: some are computed wrongly. */
module ManyNames {
  import opened Evaluator
  import opened FormulaCompiler
  import opened FormulaValues
  import opened Gvsp

  const SLOTS: nat := 0x1_0000

  function NameOf(i: nat): string { seq(i + 1, _ => 'x') }

  function NamesTo(n: nat): (r: seq<string>)
    ensures |r| == n + 1
  {
    seq(n + 1, i requires 0 <= i => NameOf(i))
  }

  /** The sum of the first names. */
  function Sum<D>(n: nat): Tree<Value<D>> {
    if n == 0 then Ref(NameOf(0)) else Bin(Add, Sum(n - 1), Ref(NameOf(n)))
  }

  /** One name past the last slot stands for 1, every other for 0. */
  function OneOf(name: string): i64 { if |name| == SLOTS + 1 then 1 else 0 }

  lemma {:induction false} SumNames<D>(n: nat)
    ensures Names(Sum<D>(n), []) == NamesTo(n) && Integral(Sum<D>(n))
  {
    if n == 0 {
      assert NamesTo(0) == [NameOf(0)];
    } else {
      SumNames<D>(n - 1);
      var names := NamesTo(n - 1);
      forall i | 0 <= i < |names| ensures names[i] != NameOf(n) { assert |names[i]| == i + 1; }
      assert NamesTo(n) == NamesTo(n - 1) + [NameOf(n)];
    }
  }

  lemma {:induction false} SumExact<D>(n: nat)
    requires Integral(Sum<D>(n))
    ensures Exact(Sum<D>(n), OneOf) == Some(if n >= SLOTS then 1 else 0)
  {
    hide IntBinary, OneOf, NameOf;
    OneAt(n);
    if n > 0 {
      SumExact<D>(n - 1);
      SmallSum(if n - 1 >= SLOTS then 1 else 0, OneOf(NameOf(n)));
    }
  }

  lemma OneAt(i: nat)
    ensures OneOf(NameOf(i)) == if i == SLOTS then 1 else 0
  {
  }

  lemma SmallSum(x: i64, y: i64)
    requires 0 <= x <= 1 && 0 <= y <= 1
    ensures IntBinary(Add, x, y) == x + y
  {
  }

  lemma {:induction false} SumOfZeros<D>(d: Doubles<D>, n: nat, env: string -> Result<Value<D>>)
    requires forall i | 0 <= i <= n :: env(NameOf(i)) == Ok(I(0))
    ensures Evaluator.Value(Values(d), Sum<D>(n), env) == Ok(I(0))
  {
    if n > 0 { SumOfZeros(d, n - 1, env); }
    assert env(NameOf(n)) == Ok(I(0));
  }

  /** Every name reads the value of one of the first names. */
  lemma ReadsZero<D>(n: nat, i: nat, vars: seq<Value<D>>)
    requires i <= n && |vars| == n + 1 && forall k | 0 <= k <= n :: vars[k] == I(OneOf(NameOf(k)))
    ensures Lookup(NamesTo(n), vars)(NameOf(i)) == Ok(I(0))
  {
    hide Position;
    var names := NamesTo(n);
    forall k | 0 <= k < i ensures names[k] != names[i] { assert |names[k]| == k + 1 && |names[i]| == i + 1; }
    PositionOf(names, i);
    var slot := Slot(names, NameOf(i));
    assert slot <= i && slot < SLOTS;
    assert |NameOf(slot)| == slot + 1;
  }

  /** The formula, compiled and run with a value for each name, gives its value. */
  ghost predicate Right<D(!new)>(d: Doubles<D>, t: Tree<Value<D>>, env: string -> i64, vars: seq<Value<D>>) {
    Integral(t) && |vars| == |Names(t, [])| && (forall i | 0 <= i < |vars| :: vars[i] == I(env(Names(t, [])[i]))) ==>
      Parse(Print(t, 0)).Ok?
      && var r := Eval(Values(d), Parse(Print(t, 0)).value, vars);
         if Exact(t, env).Some? then r == Ok(I(Exact(t, env).value)) else r.Err?
  }

  /** So is every integer formula with that many names. */
  ghost predicate AlwaysRight<D(!new)>(d: Doubles<D>, count: nat) {
    forall t: Tree<Value<D>>, env: string -> i64, vars: seq<Value<D>> | |Names(t, [])| == count :: Right(d, t, env, vars)
  }

  lemma SumWrong<D(!new)>(d: Doubles<D>, n: nat)
    requires n >= SLOTS
    ensures |Names(Sum<D>(n), [])| == n + 1 && !AlwaysRight(d, n + 1)
  {
    hide Parse, Print, Eval, Names, Evaluator.Value, Lookup, Exact;
    var t := Sum<D>(n);
    SumNames<D>(n);
    var vars: seq<Value<D>> := seq(n + 1, i requires 0 <= i => I(OneOf(NameOf(i))));
    CompileThenRun(Values(d), t, vars);
    forall i | 0 <= i <= n ensures Lookup(NamesTo(n), vars)(NameOf(i)) == Ok(I(0)) { ReadsZero(n, i, vars); }
    SumOfZeros(d, n, Lookup(NamesTo(n), vars));
    SumExact<D>(n);
    assert !Right(d, t, OneOf, vars);
  }

  /** Integer formulas with so many names are all computed rightly if and only if
      there are at most 65536. */
  lemma SlotBound<D(!new)>(d: Doubles<D>, count: nat)
    ensures AlwaysRight(d, count) <==> count <= SLOTS
  {
    hide Parse, Print, Eval, Names, Exact;
    if count > SLOTS {
      SumWrong(d, count - 1);
    } else {
      forall t: Tree<Value<D>>, env: string -> i64, vars: seq<Value<D>> | |Names(t, [])| == count ensures Right(d, t, env, vars) {
        if Integral(t) && |vars| == |Names(t, [])| && forall i | 0 <= i < |vars| :: vars[i] == I(env(Names(t, [])[i])) {
          IntegerFormula(d, t, env, vars);
        }
      }
    }
  }
}
