/** How unbracketed formulas are grouped: by a grammar with one level per tier of
    operators, which the parser follows. */
module Precedence {
  import opened Evaluator
  import opened FormulaCompiler

  /** Signs bind tightest, then powers, and so on to the conditional. */
  const SIGNS: nat := 1
  const CONDITIONAL: nat := 13

  function Tier(op: Binary): (r: nat)
    ensures SIGNS < r < CONDITIONAL
  {
    match op
    case Pow => 2
    case Mul | Div | Rem => 3
    case Add | Sub => 4
    case Shl | Shr => 5
    case Lt | Gt | Le | Ge => 6
    case Eq | Ne => 7
    case BitAnd => 8
    case BitXor => 9
    case BitOr => 10
    case And => 11
    case Or => 12
  }

  /** The formula may stand, without brackets around it, where the grammar calls for
      an operand of the tier. Operators of one tier group from the left, powers and
      conditionals from the right; anything may stand in brackets. */
  predicate Stands<V>(t: Tree<V>, tier: nat) {
    match t
    case Lit(_) => true
    case Ref(_) => true
    case Group(a) => Stands(a, CONDITIONAL)
    case Applied(_, a) => Stands(a, CONDITIONAL)
    case Sign(_, a) => tier >= SIGNS && Stands(a, SIGNS)
    case Bin(op, l, r) =>
      tier >= Tier(op) && if op.Pow? then Stands(l, Tier(op) - 1) && Stands(r, Tier(op)) else Stands(l, Tier(op)) && Stands(r, Tier(op) - 1)
    case Cond(c, a, b) => tier >= CONDITIONAL && Stands(c, CONDITIONAL - 1) && Stands(a, CONDITIONAL - 1) && Stands(b, CONDITIONAL)
  }

  function Symbol<V>(op: Binary): Token<V> { if op.Add? then PlusSign else if op.Sub? then MinusSign else Between(op) }

  function SignOf<V>(p: Prefix): Token<V> { if p.Plus? then PlusSign else if p.Minus? then MinusSign else Tilde }

  lemma SameTokens<V>(op: Binary, p: Prefix)
    ensures Symbol<V>(op) == BinaryToken<V>(op) && SignOf<V>(p) == SignToken<V>(p)
  {
  }

  /** The formula written out, bracketed only where it says so. */
  function Text<V>(t: Tree<V>): seq<Token<V>> {
    match t
    case Lit(v) => [Operand(v)]
    case Ref(n) => [Name(n)]
    case Group(a) => [Open] + Text(a) + [Close]
    case Applied(f, a) => [Apply(f), Open] + Text(a) + [Close]
    case Sign(p, a) => [SignOf(p)] + Text(a)
    case Bin(op, l, r) => Text(l) + [Symbol(op)] + Text(r)
    case Cond(c, a, b) => Text(c) + [QuestionMark] + Text(a) + [ColonMark] + Text(b)
  }

  /** The parser's level of each tier. */
  function LevelOf(tier: nat): nat {
    if tier <= 1 then 130 else if tier == 2 then 120 else if tier == 3 then 110 else if tier == 4 then 100
    else if tier == 5 then 90 else if tier == 6 then 80 else if tier == 7 then 70 else if tier == 8 then 60
    else if tier == 9 then 50 else if tier == 10 then 40 else if tier == 11 then 20 else if tier == 12 then 10 else 5
  }

  lemma StandsLevel<V>(t: Tree<V>, tier: nat)
    requires Stands(t, tier)
    ensures Level(t) >= LevelOf(tier)
  {
  }

  lemma OperandLevels(op: Binary)
    ensures LeftLevel(op) <= LevelOf(if op.Pow? then Tier(op) - 1 else Tier(op))
    ensures RightLevel(op) <= LevelOf(if op.Pow? then Tier(op) else Tier(op) - 1)
  {
  }

  lemma {:induction false} TextIsBare<V>(t: Tree<V>, tier: nat)
    requires Stands(t, tier)
    ensures Text(t) == Bare(t)
  {
    hide Level, Tier, LeftLevel, RightLevel;
    match t
    case Lit(_) =>
    case Ref(_) =>
    case Group(a) =>
      TextIsBare(a, CONDITIONAL);
    case Applied(_, a) =>
      TextIsBare(a, CONDITIONAL);
    case Sign(_, a) =>
      SameTokens<V>(Add, t.prefix);
      TextIsBare(a, SIGNS);
      NoBrackets(a, SIGNS, 130);
    case Bin(op, l, r) =>
      var x, y := if op.Pow? then Tier(op) - 1 else Tier(op), if op.Pow? then Tier(op) else Tier(op) - 1;
      OperandLevels(op);
      SameTokens<V>(op, Plus);
      TextIsBare(l, x);
      TextIsBare(r, y);
      NoBrackets(l, x, LeftLevel(op));
      NoBrackets(r, y, RightLevel(op));
    case Cond(c, a, b) =>
      TextIsBare(c, CONDITIONAL - 1);
      TextIsBare(a, CONDITIONAL - 1);
      TextIsBare(b, CONDITIONAL);
      NoBrackets(c, CONDITIONAL - 1, 6);
      NoBrackets(a, CONDITIONAL - 1, 6);
      NoBrackets(b, CONDITIONAL, 5);
  }

  lemma NoBrackets<V>(t: Tree<V>, tier: nat, level: nat)
    requires Stands(t, tier) && level <= LevelOf(tier)
    ensures Print(t, level) == Bare(t)
  {
    StandsLevel(t, tier);
  }

  /** The parser follows the grammar: a formula derived without further brackets is
      parsed to its own code, and run to its own value or error. */
  lemma ParsedByGrammar<V>(m: Meaning<V>, t: Tree<V>, vars: seq<V>)
    requires Stands(t, CONDITIONAL)
    ensures var names := Names(t, []);
            && Parse(Text(t)) == Ok(Expr(Code(t, names), names))
            && Eval(m, Parse(Text(t)).value, vars) == Value(m, t, Lookup(names, vars))
  {
    hide Parse, Eval, Value, Code, Names;
    TextIsBare(t, CONDITIONAL);
    assert Print(t, 0) == Bare(t);
    ParsePrinted(t);
    CompileThenRun(m, t, vars);
  }

  /** So no text has two readings. */
  lemma OneReading<V>(m: Meaning<V>, t: Tree<V>, u: Tree<V>, vars: seq<V>)
    requires Stands(t, CONDITIONAL) && Stands(u, CONDITIONAL) && Text(t) == Text(u)
    ensures Names(t, []) == Names(u, []) && Code(t, Names(t, [])) == Code(u, Names(u, []))
    ensures Value(m, t, Lookup(Names(t, []), vars)) == Value(m, u, Lookup(Names(u, []), vars))
  {
    hide Parse, Eval, Value, Code, Names, Text;
    ParsedByGrammar(m, t, vars);
    ParsedByGrammar(m, u, vars);
  }

  // -------------------------------------------------------------------- grouping

  /** Two operators in a row, between any operands in brackets. */
  function Chain<V>(x: Tree<V>, o1: Binary, y: Tree<V>, o2: Binary, z: Tree<V>): seq<Token<V>> {
    Text(Group(x)) + [Symbol(o1)] + Text(Group(y)) + [Symbol(o2)] + Text(Group(z))
  }

  /** The first groups first if its tier is tighter, or the same and not the powers';
      else the second does. */
  function Grouped<V>(x: Tree<V>, o1: Binary, y: Tree<V>, o2: Binary, z: Tree<V>): Tree<V> {
    if Tier(o1) < Tier(o2) || (Tier(o1) == Tier(o2) && !o1.Pow?)
    then Bin(o2, Bin(o1, Group(x), Group(y)), Group(z))
    else Bin(o1, Group(x), Bin(o2, Group(y), Group(z)))
  }

  lemma BinaryGrouping<V>(m: Meaning<V>, x: Tree<V>, o1: Binary, y: Tree<V>, o2: Binary, z: Tree<V>, vars: seq<V>)
    requires Stands(x, CONDITIONAL) && Stands(y, CONDITIONAL) && Stands(z, CONDITIONAL)
    ensures var t := Grouped(x, o1, y, o2, z);
            && Parse(Chain(x, o1, y, o2, z)).Ok?
            && Eval(m, Parse(Chain(x, o1, y, o2, z)).value, vars) == Value(m, t, Lookup(Names(t, []), vars))
  {
    hide Parse, Eval, Value, Names, Stands, Text, Grouped, Chain;
    GroupedStands(x, o1, y, o2, z);
    GroupedText(x, o1, y, o2, z);
    ParsedByGrammar(m, Grouped(x, o1, y, o2, z), vars);
  }

  lemma GroupedStands<V>(x: Tree<V>, o1: Binary, y: Tree<V>, o2: Binary, z: Tree<V>)
    requires Stands(x, CONDITIONAL) && Stands(y, CONDITIONAL) && Stands(z, CONDITIONAL)
    ensures Stands(Grouped(x, o1, y, o2, z), CONDITIONAL)
  {
    hide Tier;
    SameTierPowers(o1, o2);
    InBrackets(x);
    InBrackets(z);
    if Tier(o1) < Tier(o2) || (Tier(o1) == Tier(o2) && !o1.Pow?) {
      BetweenBrackets(x, o1, y, if o2.Pow? then Tier(o2) - 1 else Tier(o2));
    } else {
      BetweenBrackets(y, o2, z, if o1.Pow? then Tier(o1) else Tier(o1) - 1);
    }
  }

  lemma GroupedText<V>(x: Tree<V>, o1: Binary, y: Tree<V>, o2: Binary, z: Tree<V>)
    ensures Text(Grouped(x, o1, y, o2, z)) == Chain(x, o1, y, o2, z)
  {
    hide Tier, Symbol;
    var a, b, c := Text(Group(x)), Text(Group(y)), Text(Group(z));
    var u, v := Bin(o1, Group(x), Group(y)), Bin(o2, Group(y), Group(z));
    assert Text(u) == a + [Symbol(o1)] + b && Text(v) == b + [Symbol(o2)] + c;
    assert Text(Bin(o2, u, Group(z))) == Text(u) + [Symbol(o2)] + c;
    assert Text(Bin(o1, Group(x), v)) == a + [Symbol(o1)] + Text(v);
    Joined(a, Symbol(o1), b, Symbol(o2), c);
  }

  lemma Joined<T>(a: seq<T>, p: T, b: seq<T>, q: T, c: seq<T>)
    ensures a + [p] + (b + [q] + c) == a + [p] + b + [q] + c
  {
  }

  lemma InBrackets<V>(x: Tree<V>)
    requires Stands(x, CONDITIONAL)
    ensures forall tier: nat :: Stands(Group(x), tier)
  {
  }

  lemma BetweenBrackets<V>(x: Tree<V>, op: Binary, y: Tree<V>, tier: nat)
    requires Stands(x, CONDITIONAL) && Stands(y, CONDITIONAL) && tier >= Tier(op)
    ensures Stands(Bin(op, Group(x), Group(y)), tier)
  {
    InBrackets(x);
    InBrackets(y);
  }

  lemma SameTierPowers(o1: Binary, o2: Binary)
    ensures Tier(o1) == Tier(o2) ==> o1.Pow? == o2.Pow?
  {
  }

  /** A sign belongs to the operand after it, not to what follows. */
  lemma SignGrouping<V>(m: Meaning<V>, p: Prefix, x: Tree<V>, op: Binary, y: Tree<V>, vars: seq<V>)
    requires Stands(x, CONDITIONAL) && Stands(y, CONDITIONAL)
    ensures var t, text := Bin(op, Sign(p, Group(x)), Group(y)), [SignOf(p)] + Text(Group(x)) + [Symbol(op)] + Text(Group(y));
            Parse(text).Ok? && Eval(m, Parse(text).value, vars) == Value(m, t, Lookup(Names(t, []), vars))
  {
    hide Parse, Eval, Value, Names, Symbol, SignOf;
    var t := Bin(op, Sign(p, Group(x)), Group(y));
    InBrackets(x);
    InBrackets(y);
    assert Stands(Sign(p, Group(x)), if op.Pow? then Tier(op) - 1 else Tier(op));
    assert Stands(t, CONDITIONAL);
    ParsedByGrammar(m, t, vars);
  }

  /** A conditional takes everything on its left, and to the right all the rest. */
  lemma ConditionalGrouping<V>(m: Meaning<V>, x: Tree<V>, o1: Binary, y: Tree<V>, a: Tree<V>, z: Tree<V>, o2: Binary, u: Tree<V>, vars: seq<V>)
    requires Stands(x, CONDITIONAL) && Stands(y, CONDITIONAL) && Stands(a, CONDITIONAL) && Stands(z, CONDITIONAL) && Stands(u, CONDITIONAL)
    ensures var t := Cond(Bin(o1, Group(x), Group(y)), Group(a), Bin(o2, Group(z), Group(u)));
            var text := Text(Group(x)) + [Symbol(o1)] + Text(Group(y)) + [QuestionMark] + Text(Group(a)) + [ColonMark]
                        + (Text(Group(z)) + [Symbol(o2)] + Text(Group(u)));
            Parse(text).Ok? && Eval(m, Parse(text).value, vars) == Value(m, t, Lookup(Names(t, []), vars))
  {
    hide Parse, Eval, Value, Names, Symbol;
    var t := Cond(Bin(o1, Group(x), Group(y)), Group(a), Bin(o2, Group(z), Group(u)));
    BetweenBrackets(x, o1, y, CONDITIONAL - 1);
    BetweenBrackets(z, o2, u, CONDITIONAL);
    InBrackets(a);
    hide Stands;
    assert Stands(t, CONDITIONAL) by { Whole(t.test, t.yes, t.no); }
    ParsedByGrammar(m, t, vars);
  }

  lemma Whole<V>(c: Tree<V>, a: Tree<V>, b: Tree<V>)
    requires Stands(c, CONDITIONAL - 1) && Stands(a, CONDITIONAL - 1) && Stands(b, CONDITIONAL)
    ensures Stands(Cond(c, a, b), CONDITIONAL)
  {
  }
}
