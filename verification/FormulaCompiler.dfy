/** Correctness of the formula compiler: the code the shunting-yard parser emits
    for a printed formula, run on the stack machine, gives the formula's value. */
module FormulaCompiler {
  import opened Evaluator

  // ------------------------------------------------------- variable slots

  lemma {:induction false} PositionKept(names: seq<string>, more: seq<string>, n: string)
    requires n in names && names <= more
    ensures Position(more, n) == Position(names, n) < |names|
  {
    if names[0] != n {
      assert names[1..] <= more[1..];
      PositionKept(names[1..], more[1..], n);
    }
  }

  /** Every name of the formula has a place in the table. */
  ghost predicate Known<V>(t: Tree<V>, table: seq<string>) {
    match t
    case Lit(_) => true
    case Ref(n) => n in table
    case Group(a) => Known(a, table)
    case Sign(_, a) => Known(a, table)
    case Applied(_, a) => Known(a, table)
    case Bin(_, l, r) => Known(l, table) && Known(r, table)
    case Cond(c, a, b) => Known(c, table) && Known(a, table) && Known(b, table)
  }

  lemma KnownKept<V>(t: Tree<V>, table: seq<string>, more: seq<string>)
    requires Known(t, table) && table <= more
    ensures Known(t, more) && Code(t, more) == Code(t, table)
  {
    match t
    case Ref(n) => PositionKept(table, more, n);
    case _ =>
  }

  lemma NamesKnown<V>(t: Tree<V>, known: seq<string>)
    ensures Known(t, Names(t, known))
  {
    match t
    case Bin(_, l, r) =>
      KnownKept(l, Names(l, known), Names(t, known));
    case Cond(c, a, b) =>
      KnownKept(c, Names(c, known), Names(t, known));
      KnownKept(a, Names(a, Names(c, known)), Names(t, known));
    case _ =>
  }

  lemma NamesDistinct<V>(t: Tree<V>, known: seq<string>)
    requires forall i, j | 0 <= i < j < |known| :: known[i] != known[j]
    ensures forall i, j | 0 <= i < j < |Names(t, known)| :: Names(t, known)[i] != Names(t, known)[j]
  {
  }

  // ------------------------------------- parser state after a printed formula

  function Reversed<V>(ops: seq<Op<V>>): seq<Op<V>>
    decreases |ops|
  {
    if ops == [] then [] else [ops[|ops| - 1]] + Reversed(ops[..|ops| - 1])
  }

  lemma {:induction false} ReversedSum<V>(a: seq<Op<V>>, b: seq<Op<V>>)
    ensures Reversed(a + b) == Reversed(b) + Reversed(a)
    decreases |b|
  {
    if b == [] {
      assert a + b == a;
    } else {
      assert (a + b)[..|a + b| - 1] == a + b[..|b| - 1];
      ReversedSum(a, b[..|b| - 1]);
    }
  }

  function Entries<V>(ops: seq<Op<V>>): seq<Entry<V>> {
    seq(|ops|, i requires 0 <= i < |ops| => Pending(ops[i]))
  }

  /** Code already in the output once the formula's last token is read. */
  function Done<V>(t: Tree<V>, level: nat, table: seq<string>): seq<Op<V>>
    decreases t, 1
  {
    if Level(t) < level then Code(t, table) else BareDone(t, table)
  }

  function BareDone<V>(t: Tree<V>, table: seq<string>): seq<Op<V>>
    decreases t, 0
  {
    match t
    case Sign(_, a) => Done(a, 130, table)
    case Applied(_, a) => Code(a, table)
    case Bin(op, l, r) => Code(l, table) + Done(r, RightLevel(op), table)
    case Cond(c, a, b) => Code(c, table) + Code(a, table) + Done(b, 5, table)
    case _ => Code(t, table)
  }

  /** Operators then still waiting on the stack, bottom first. */
  function Waiting<V>(t: Tree<V>, level: nat): seq<Op<V>>
    decreases t, 1
  {
    if Level(t) < level then [] else BareWaiting(t)
  }

  function BareWaiting<V>(t: Tree<V>): seq<Op<V>>
    decreases t, 0
  {
    match t
    case Sign(p, a) => [Unary(p)] + Waiting(a, 130)
    case Applied(f, _) => [Call(f)]
    case Bin(op, _, r) => [Infix(op)] + Waiting(r, RightLevel(op))
    case Cond(_, _, b) => [Question, Colon] + Waiting(b, 5)
    case _ => []
  }

  lemma {:induction false} DoneThenWaiting<V>(t: Tree<V>, level: nat, table: seq<string>)
    ensures Done(t, level, table) + Reversed(Waiting(t, level)) == Code(t, table)
    decreases t, 1
  {
    if Level(t) >= level { BareDoneThenWaiting(t, table); }
  }

  lemma ReversedOne<V>(x: Op<V>, rest: seq<Op<V>>)
    ensures Reversed([x] + rest) == Reversed(rest) + [x]
  {
    ReversedSum([x], rest);
    ReversedSingle(x);
  }

  lemma ReversedTwo<V>(x: Op<V>, y: Op<V>, rest: seq<Op<V>>)
    ensures Reversed([x, y] + rest) == Reversed(rest) + [y, x]
  {
    hide Reversed;
    ReversedSum([x, y], rest);
    ReversedOne(x, [y]);
    ReversedSingle(y);
    assert [x] + [y] == [x, y];
  }

  lemma ReversedSingle<V>(x: Op<V>)
    ensures Reversed([x]) == [x]
  {
    assert [x][..0] == [];
  }

  /** Code split anywhere, then one more operator. */
  lemma Joined<V>(a: seq<Op<V>>, b: seq<Op<V>>, c: seq<Op<V>>)
    ensures a + (b + c) == (a + b) + c
  {
  }

  lemma {:induction false} BareDoneThenWaiting<V>(t: Tree<V>, table: seq<string>)
    ensures BareDone(t, table) + Reversed(BareWaiting(t)) == Code(t, table)
    decreases t, 0
  {
    hide Reversed, Done, Waiting;
    match t
    case Sign(p, a) =>
      DoneThenWaiting(a, 130, table);
      ReversedOne(Unary(p), Waiting(a, 130));
      Joined(Done(a, 130, table), Reversed(Waiting(a, 130)), [Unary(p)]);
    case Applied(f, a) =>
      ReversedSingle<V>(Call(f));
    case Bin(op, l, r) =>
      var level := RightLevel(op);
      DoneThenWaiting(r, level, table);
      ReversedOne(Infix(op), Waiting(r, level));
      Joined(Code(l, table), Done(r, level, table), Reversed(Waiting(r, level)));
      Joined(Code(l, table) + Done(r, level, table), Reversed(Waiting(r, level)), [Infix(op)]);
    case Cond(c, a, b) =>
      DoneThenWaiting(b, 5, table);
      ReversedTwo(Question, Colon, Waiting(b, 5));
      var before := Code(c, table) + Code(a, table);
      Joined(before, Done(b, 5, table), Reversed(Waiting(b, 5)));
      Joined(before + Done(b, 5, table), Reversed(Waiting(b, 5)), [Colon, Question]);
    case _ =>
      NoneReversed<V>();
      assert BareDone(t, table) + [] == Code(t, table);
  }

  lemma NoneReversed<V>()
    ensures Reversed<V>([]) == []
  {
  }

  lemma {:induction false} DoneKept<V>(t: Tree<V>, level: nat, table: seq<string>, more: seq<string>)
    requires Known(t, table) && table <= more
    ensures Done(t, level, more) == Done(t, level, table)
    ensures BareDone(t, more) == BareDone(t, table)
  {
    KnownKept(t, table, more);
    match t
    case Sign(_, a) => DoneKept(a, 130, table, more);
    case Applied(_, a) => KnownKept(a, table, more);
    case Bin(op, l, r) =>
      KnownKept(l, table, more);
      DoneKept(r, RightLevel(op), table, more);
    case Cond(c, a, b) =>
      KnownKept(c, table, more);
      KnownKept(a, table, more);
      DoneKept(b, 5, table, more);
    case _ =>
  }

  ghost predicate AllBindAtLeast<V>(ops: seq<Op<V>>, level: nat) {
    forall i | 0 <= i < |ops| :: Binding(ops[i]).0 >= level
  }

  lemma WaitingBinds<V>(t: Tree<V>, level: nat)
    ensures AllBindAtLeast(Waiting(t, level), level)
    ensures AllBindAtLeast(BareWaiting(t), Level(t))
  {
    match t
    case Sign(_, a) => WaitingBinds(a, 130);
    case Bin(op, _, r) => WaitingBinds(r, RightLevel(op));
    case Cond(_, _, b) => WaitingBinds(b, 5);
    case _ =>
  }

  // ---------------------------------------------------------- flushing

  /** `op` leaves this stack as it is. */
  ghost predicate Rests<V>(op: Op<V>, stack: seq<Entry<V>>) {
    stack == [] || stack[|stack| - 1].Paren? || !Pops(op, stack[|stack| - 1].op)
  }

  lemma {:induction false} PushFlushes<V>(op: Op<V>, stack: seq<Entry<V>>, waiting: seq<Op<V>>, output: seq<Op<V>>)
    requires Rests(op, stack) && forall i | 0 <= i < |waiting| :: Pops(op, waiting[i])
    ensures PushOperator(op, stack + Entries(waiting), output)
            == Stacks(stack + [Pending(op)], output + Reversed(waiting))
    decreases |waiting|
  {
    var whole, last := stack + Entries(waiting), |waiting| - 1;
    if waiting == [] {
      assert whole == stack;
    } else {
      assert whole[..|whole| - 1] == stack + Entries(waiting[..last]);
      assert whole[|whole| - 1] == Pending(waiting[last]);
      PushFlushes(op, stack, waiting[..last], output + [waiting[last]]);
      assert output + Reversed(waiting) == output + [waiting[last]] + Reversed(waiting[..last]);
    }
  }

  /** The top operator moves to the output; the rest follows in the same order. */
  lemma OneMoves<V>(output: seq<Op<V>>, waiting: seq<Op<V>>)
    requires waiting != []
    ensures var last := |waiting| - 1;
            output + Reversed(waiting) == (output + [waiting[last]]) + Reversed(waiting[..last])
  {
    var last := |waiting| - 1;
    assert Reversed(waiting) == [waiting[last]] + Reversed(waiting[..last]);
    hide Reversed;
    Joined(output, [waiting[last]], Reversed(waiting[..last]));
  }

  lemma EntriesTop<V>(below: seq<Entry<V>>, waiting: seq<Op<V>>)
    requires waiting != []
    ensures var s, last := below + Entries(waiting), |waiting| - 1;
            s[..|s| - 1] == below + Entries(waiting[..last]) && s[|s| - 1] == Pending(waiting[last])
  {
  }

  lemma {:induction false} CloseFlushes<V>(s: State<V>, stack: seq<Entry<V>>, waiting: seq<Op<V>>)
    requires s.stack == stack + [Paren] + Entries(waiting)
    ensures CloseParen(s) == Ok(State(s.variables, s.output + Reversed(waiting), stack, true))
    decreases |waiting|
  {
    if waiting == [] {
      assert s.stack == stack + [Paren];
      assert s.stack[..|stack|] == stack;
      assert s.output + Reversed(waiting) == s.output;
    } else {
      hide Reversed, Entries;
      var last := |waiting| - 1;
      EntriesTop(stack + [Paren], waiting);
      var next := s.(stack := s.stack[..|s.stack| - 1], output := s.output + [waiting[last]]);
      ClosePops(s, waiting[last]);
      hide CloseParen;
      CloseFlushes(next, stack, waiting[..last]);
      OneMoves(s.output, waiting);
    }
  }

  lemma ClosePops<V>(s: State<V>, op: Op<V>)
    requires s.stack != [] && s.stack[|s.stack| - 1] == Pending(op)
    ensures CloseParen(s) == CloseParen(s.(stack := s.stack[..|s.stack| - 1], output := s.output + [op]))
  {
  }

  lemma {:induction false} FinishFlushes<V>(s: State<V>, waiting: seq<Op<V>>)
    requires s.stack == Entries(waiting)
    ensures Finish(s) == Ok(Expr(s.output + Reversed(waiting), s.variables))
    decreases |waiting|
  {
    if waiting == [] {
      assert s.output + Reversed(waiting) == s.output;
    } else {
      hide Reversed, Entries;
      var last := |waiting| - 1;
      EntriesTop([], waiting);
      assert [] + Entries(waiting) == Entries(waiting) && [] + Entries(waiting[..last]) == Entries(waiting[..last]);
      var next := s.(stack := s.stack[..|s.stack| - 1], output := s.output + [waiting[last]]);
      FinishPops(s, waiting[last]);
      hide Finish;
      FinishFlushes(next, waiting[..last]);
      OneMoves(s.output, waiting);
    }
  }

  lemma FinishPops<V>(s: State<V>, op: Op<V>)
    requires s.stack != [] && s.stack[|s.stack| - 1] == Pending(op)
    ensures Finish(s) == Finish(s.(stack := s.stack[..|s.stack| - 1], output := s.output + [op]))
  {
  }

  lemma {:induction false} FeedSum<V>(s: State<V>, a: seq<Token<V>>, b: seq<Token<V>>)
    requires Feed(s, a).Ok?
    ensures Feed(s, a + b) == Feed(Feed(s, a).value, b)
    decreases |b|
  {
    if b == [] {
      assert a + b == a;
    } else {
      assert (a + b)[..|a + b| - 1] == a + b[..|b| - 1];
      FeedSum(s, a, b[..|b| - 1]);
    }
  }

  lemma FeedOne<V>(s: State<V>, a: seq<Token<V>>, token: Token<V>)
    requires Feed(s, a).Ok?
    ensures Feed(s, a + [token]) == Step(Feed(s, a).value, token)
  {
    assert (a + [token])[..|a|] == a;
  }

  // ------------------------------------------------------ the main lemma

  predicate RightAssociative(level: nat) { level == 5 || level == 120 || level == 130 }

  /** A formula printed at `level` starts on this stack without disturbing it. */
  ghost predicate Fits<V>(stack: seq<Entry<V>>, level: nat) {
    stack == [] || stack[|stack| - 1].Paren?
    || Binding(stack[|stack| - 1].op).0 < level
    || (Binding(stack[|stack| - 1].op).0 == level && RightAssociative(level))
  }

  /** The parser's state after the formula, starting from `s`. */
  function After<V>(t: Tree<V>, level: nat, s: State<V>): State<V> {
    var names := Names(t, s.variables);
    State(names, s.output + Done(t, level, names), s.stack + Entries(Waiting(t, level)), true)
  }

  function BareAfter<V>(t: Tree<V>, s: State<V>): State<V> {
    var names := Names(t, s.variables);
    State(names, s.output + BareDone(t, names), s.stack + Entries(BareWaiting(t)), true)
  }

  function Opened<V>(s: State<V>): State<V> {
    s.(stack := s.stack + [Paren], operand := false)
  }

  /** All of the formula's code is in the output; `op` waits on the stack. */
  function Settled<V>(t: Tree<V>, s: State<V>, stack: seq<Entry<V>>, operand: bool): State<V> {
    var names := Names(t, s.variables);
    State(names, s.output + Code(t, names), stack, operand)
  }

  lemma EntriesSum<V>(a: seq<Op<V>>, b: seq<Op<V>>)
    ensures Entries(a + b) == Entries(a) + Entries(b)
  {
  }

  /** A prefix operator or function read where an operand may start. */
  lemma PrefixRead<V>(s: State<V>, token: Token<V>, op: Op<V>)
    requires !s.operand && Rests(op, s.stack)
    requires (token.Apply? && op == Call(token.function_))
          || ((token.PlusSign? || token.MinusSign? || token.Tilde?) && op == Operator(token, false))
    ensures Feed(s, [token]) == Ok(s.(stack := s.stack + [Pending(op)]))
  {
    FeedOne(s, [], token);
    assert [] + [token] == [token];
    PushFlushes(op, s.stack, [], s.output);
    assert s.stack + Entries<V>([]) == s.stack;
    assert s.output + Reversed<V>([]) == s.output;
  }

  /** An operator after a formula moves all of the formula's code out. */
  lemma OperatorRead<V>(t: Tree<V>, level: nat, s: State<V>, tokens: seq<Token<V>>, token: Token<V>, op: Op<V>)
    requires Feed(s, tokens) == Ok(After(t, level, s)) && Rests(op, s.stack)
    requires token.PlusSign? || token.MinusSign? || token.QuestionMark? || token.ColonMark? || token.Between?
    requires op == Operator(token, true)
    requires Binding(op).0 <= level && (Binding(op).1 ==> Binding(op).0 < level)
    ensures Feed(s, tokens + [token]) == Ok(Settled(t, s, s.stack + [Pending(op)], false))
  {
    hide Feed, Done, Waiting, Code, Names, PushOperator, Reversed, Entries;
    var names, waiting := Names(t, s.variables), Waiting(t, level);
    FeedOne(s, tokens, token);
    WaitingBinds(t, level);
    PushFlushes(op, s.stack, waiting, After(t, level, s).output);
    DoneThenWaiting(t, level, names);
    assert s.output + Done(t, level, names) + Reversed(waiting) == s.output + Code(t, names);
  }

  /** A bracketed formula ends with all its code in the output. */
  lemma {:induction false} BracketsParsed<V>(t: Tree<V>, s: State<V>)
    requires !s.operand
    ensures Feed(s, [Open] + Bare(t) + [Close]) == Ok(Settled(t, s, s.stack, true))
    decreases t, 1
  {
    hide Feed, Bare, BareDone, BareWaiting, Code, Names, CloseParen, Reversed;
    FeedNothing(s);
    FeedOne(s, [], Open);
    var open: seq<Token<V>> := [Open];
    assert [] + open == open;
    BareParsed(t, Opened(s));
    FeedSum(s, open, Bare(t));
    FeedOne(s, open + Bare(t), Close);
    CloseFlushes(BareAfter(t, Opened(s)), s.stack, BareWaiting(t));
    var names := Names(t, s.variables);
    BareDoneThenWaiting(t, names);
    assert s.output + BareDone(t, names) + Reversed(BareWaiting(t)) == s.output + Code(t, names);
  }

  lemma {:induction false} Parsed<V>(t: Tree<V>, level: nat, s: State<V>)
    requires !s.operand && Fits(s.stack, level) && level <= 200
    ensures Feed(s, Print(t, level)) == Ok(After(t, level, s))
    decreases t, 2
  {
    if Level(t) >= level {
      BareParsed(t, s);
    } else {
      BracketsParsed(t, s);
      assert s.stack + Entries<V>([]) == s.stack;
    }
  }

  lemma {:induction false} BareParsed<V>(t: Tree<V>, s: State<V>)
    requires !s.operand && Fits(s.stack, Level(t))
    ensures Feed(s, Bare(t)) == Ok(BareAfter(t, s))
    decreases t, 0
  {
    hide Feed, Waiting, Done;
    match t
    case Lit(_) => OperandParsed(t, s);
    case Ref(_) => OperandParsed(t, s);
    case Group(a) =>
      BracketsParsed(a, s);
      assert s.stack + Entries<V>([]) == s.stack;
    case Sign(p, a) =>
      PrefixRead(s, SignToken(p), Unary(p));
      var s1 := s.(stack := s.stack + [Pending(Unary(p))]);
      Parsed(a, 130, s1);
      FeedSum(s, [SignToken(p)], Print(a, 130));
      EntriesSum([Unary(p)], Waiting(a, 130));
      assert s1.stack + Entries(Waiting(a, 130)) == s.stack + Entries(BareWaiting(t));
    case Applied(f, a) =>
      PrefixRead(s, Apply(f), Call(f));
      var s1 := s.(stack := s.stack + [Pending(Call(f))]);
      BracketsParsed(a, s1);
      FeedSum(s, [Apply(f)], [Open] + Bare(a) + [Close]);
      assert [Apply(f)] + ([Open] + Bare(a) + [Close]) == Bare(t);
      assert Entries(BareWaiting(t)) == [Pending(Call(f))];
    case Bin(op, l, r) => BinParsed(t, s);
    case Cond(_, _, _) => CondParsed(t, s);
  }

  lemma FeedNothing<V>(s: State<V>)
    ensures Feed(s, []) == Ok(s)
  {
  }

  lemma OperandParsed<V>(t: Tree<V>, s: State<V>)
    requires (t.Lit? || t.Ref?) && !s.operand
    ensures Feed(s, Bare(t)) == Ok(BareAfter(t, s))
  {
    hide Feed;
    FeedNothing(s);
    FeedOne(s, [], Bare(t)[0]);
    assert [] + [Bare(t)[0]] == Bare(t);
    assert s.stack + Entries<V>([]) == s.stack;
  }

  lemma {:induction false} BinParsed<V>(t: Tree<V>, s: State<V>)
    requires t.Bin? && !s.operand && Fits(s.stack, Level(t))
    ensures Feed(s, Bare(t)) == Ok(BareAfter(t, s))
    decreases t, -1
  {
    hide Feed, Print, Code, Waiting, Done;
    var op, l, r := t.op, t.left, t.right;
    var before := Print(l, LeftLevel(op)) + [BinaryToken(op)];
    Parsed(l, LeftLevel(op), s);
    OperatorRead(l, LeftLevel(op), s, Print(l, LeftLevel(op)), BinaryToken(op), Infix(op));
    var s1 := Settled(l, s, s.stack + [Pending(Infix(op))], false);
    Parsed(r, RightLevel(op), s1);
    FeedSum(s, before, Print(r, RightLevel(op)));
    NamesKnown(l, s.variables);
    KnownKept(l, s1.variables, Names(t, s.variables));
    EntriesSum([Infix(op)], Waiting(r, RightLevel(op)));
    assert s1.stack + Entries(Waiting(r, RightLevel(op))) == s.stack + Entries(BareWaiting(t));
    assert BareAfter(t, s).output == s1.output + Done(r, RightLevel(op), Names(t, s.variables));
  }

  lemma {:induction false} CondParsed<V>(t: Tree<V>, s: State<V>)
    requires t.Cond? && !s.operand && Fits(s.stack, Level(t))
    ensures Feed(s, Bare(t)) == Ok(BareAfter(t, s))
    decreases t, -1
  {
    hide Feed, Print, Code, Waiting, Done;
    var c, a, b := t.test, t.yes, t.no;
    var names := Names(t, s.variables);
    Parsed(c, 6, s);
    OperatorRead(c, 6, s, Print(c, 6), QuestionMark, Question);
    var s1 := Settled(c, s, s.stack + [Pending(Question)], false);
    Parsed(a, 6, s1);
    OperatorRead(a, 6, s1, Print(a, 6), ColonMark, Colon);
    var s2 := Settled(a, s1, s1.stack + [Pending(Colon)], false);
    FeedSum(s, Print(c, 6) + [QuestionMark], Print(a, 6) + [ColonMark]);
    Parsed(b, 5, s2);
    var before := Print(c, 6) + [QuestionMark] + (Print(a, 6) + [ColonMark]);
    FeedSum(s, before, Print(b, 5));
    assert before + Print(b, 5) == Bare(t);
    NamesKnown(c, s.variables);
    KnownKept(c, s1.variables, names);
    NamesKnown(a, s1.variables);
    KnownKept(a, s2.variables, names);
    EntriesSum([Question, Colon], Waiting(b, 5));
    assert s2.stack + Entries(Waiting(b, 5)) == s.stack + Entries(BareWaiting(t));
    assert BareAfter(t, s).output == s2.output + Done(b, 5, names);
  }

  /** Parsing a printed formula yields exactly its code and its names. */
  lemma ParsePrinted<V>(t: Tree<V>)
    ensures Parse(Print(t, 0)) == Ok(Expr(Code(t, Names(t, [])), Names(t, [])))
  {
    hide Feed, Print, Code, Waiting, Done, Entries, Reversed, Finish;
    Parsed(t, 0, Start());
    assert [] + Entries(Waiting(t, 0)) == Entries(Waiting(t, 0));
    FinishFlushes(After(t, 0, Start()), Waiting(t, 0));
    DoneThenWaiting(t, 0, Names(t, []));
    assert [] + Done(t, 0, Names(t, [])) == Done(t, 0, Names(t, []));
  }

  // ------------------------------------------------------ running the code

  lemma {:induction false} RunSum<V>(m: Meaning<V>, a: seq<Op<V>>, b: seq<Op<V>>, vars: seq<V>, stack: seq<V>)
    ensures Run(m, a, vars, stack).Ok? ==> Run(m, a + b, vars, stack) == Run(m, b, vars, Run(m, a, vars, stack).value)
    ensures Run(m, a, vars, stack).Err? ==> Run(m, a + b, vars, stack) == Run(m, a, vars, stack)
    decreases |b|
  {
    if b == [] {
      assert a + b == a;
    } else {
      assert (a + b)[..|a + b| - 1] == a + b[..|b| - 1];
      RunSum(m, a, b[..|b| - 1], vars, stack);
    }
  }

  lemma RunOne<V>(m: Meaning<V>, op: Op<V>, vars: seq<V>, stack: seq<V>)
    ensures Run(m, [op], vars, stack) == Execute(m, op, vars, stack)
  {
    assert [op][..0] == [];
  }

  /** The machine pushes one value, or stops with one error. */
  function Pushes<V>(stack: seq<V>, r: Result<V>): Result<seq<V>> {
    match r
    case Ok(v) => Ok(stack + [v])
    case Err(e) => Err(e)
  }

  /** The value slot `name` reads when the code is run on `vars`. */
  function Lookup<V>(table: seq<string>, vars: seq<V>): string -> Result<V> {
    n => var i := Slot(table, n); if i < |vars| then Ok(vars[i]) else Err(Unbound(i))
  }

  lemma {:induction false} RunCode<V>(m: Meaning<V>, t: Tree<V>, table: seq<string>, vars: seq<V>, stack: seq<V>)
    ensures Run(m, Code(t, table), vars, stack) == Pushes(stack, Value(m, t, Lookup(table, vars)))
    decreases t, 1
  {
    hide Run;
    var env := Lookup(table, vars);
    match t
    case Lit(v) => RunOne(m, Const(v), vars, stack);
    case Ref(n) => RunOne(m, Var(Slot(table, n)), vars, stack);
    case Group(a) => RunCode(m, a, table, vars, stack);
    case Sign(p, a) =>
      RunCode(m, a, table, vars, stack);
      RunThen(m, Code(a, table), Unary(p), vars, stack);
    case Applied(f, a) =>
      RunCode(m, a, table, vars, stack);
      RunThen(m, Code(a, table), Call(f), vars, stack);
    case Bin(op, l, r) =>
      RunCode(m, l, table, vars, stack);
      RunSum(m, Code(l, table), Code(r, table), vars, stack);
      RunThen(m, Code(l, table) + Code(r, table), Infix(op), vars, stack);
      if Value(m, l, env).Ok? {
        var mid := stack + [Value(m, l, env).value];
        RunCode(m, r, table, vars, mid);
        assert forall y :: (mid + [y])[..|stack|] == stack;
      }
    case Cond(c, a, b) => RunCond(m, t, table, vars, stack);
  }

  lemma RunThen<V>(m: Meaning<V>, a: seq<Op<V>>, op: Op<V>, vars: seq<V>, stack: seq<V>)
    ensures Run(m, a, vars, stack).Ok? ==> Run(m, a + [op], vars, stack) == Execute(m, op, vars, Run(m, a, vars, stack).value)
    ensures Run(m, a, vars, stack).Err? ==> Run(m, a + [op], vars, stack) == Run(m, a, vars, stack)
  {
    assert (a + [op])[..|a|] == a;
  }

  lemma {:induction false} RunCond<V>(m: Meaning<V>, t: Tree<V>, table: seq<string>, vars: seq<V>, stack: seq<V>)
    requires t.Cond?
    ensures Run(m, Code(t, table), vars, stack) == Pushes(stack, Value(m, t, Lookup(table, vars)))
    decreases t, 0
  {
    hide Run;
    var env := Lookup(table, vars);
    var c, a, b := Code(t.test, table), Code(t.yes, table), Code(t.no, table);
    RunCode(m, t.test, table, vars, stack);
    RunSum(m, c, a, vars, stack);
    RunSum(m, c + a, b, vars, stack);
    RunThen(m, c + a + b, Colon, vars, stack);
    RunThen(m, c + a + b + [Colon], Question, vars, stack);
    assert Code(t, table) == c + a + b + [Colon] + [Question];
    if Value(m, t.test, env).Ok? {
      var one := stack + [Value(m, t.test, env).value];
      RunCode(m, t.yes, table, vars, one);
      if Value(m, t.yes, env).Ok? {
        var two := one + [Value(m, t.yes, env).value];
        RunCode(m, t.no, table, vars, two);
        assert forall z :: (two + [z])[..|stack|] == stack;
      }
    }
  }

  /** Compiling a printed formula and running it gives the formula's value,
      with every name read from its slot: same value, same error. */
  lemma CompileThenRun<V>(m: Meaning<V>, t: Tree<V>, vars: seq<V>)
    ensures Parse(Print(t, 0)).Ok?
    ensures Eval(m, Parse(Print(t, 0)).value, vars) == Value(m, t, Lookup(Names(t, []), vars))
  {
    hide Parse, Run;
    ParsePrinted(t);
    RunCode(m, t, Names(t, []), vars, []);
  }

  lemma {:induction false} ValueOfSameNames<V>(m: Meaning<V>, t: Tree<V>, table: seq<string>,
                                               env: string -> Result<V>, env': string -> Result<V>)
    requires Known(t, table) && forall n | n in table :: env(n) == env'(n)
    ensures Value(m, t, env) == Value(m, t, env')
  {
    match t
    case Lit(_) =>
    case Ref(n) =>
    case Group(a) => ValueOfSameNames(m, a, table, env, env');
    case Sign(_, a) => ValueOfSameNames(m, a, table, env, env');
    case Applied(_, a) => ValueOfSameNames(m, a, table, env, env');
    case Bin(_, l, r) =>
      ValueOfSameNames(m, l, table, env, env');
      ValueOfSameNames(m, r, table, env, env');
    case Cond(c, a, b) =>
      ValueOfSameNames(m, c, table, env, env');
      ValueOfSameNames(m, a, table, env, env');
      ValueOfSameNames(m, b, table, env, env');
  }

  lemma {:induction false} PositionOf(names: seq<string>, i: nat)
    requires i < |names| && names[i] !in names[..i]
    ensures Position(names, names[i]) == i
  {
    if i > 0 {
      assert names[1..][..i - 1] == names[..i][1..];
      PositionOf(names[1..], i - 1);
    }
  }

  lemma LookupReads<V>(table: seq<string>, env: string -> V, vars: seq<V>)
    requires |vars| == |table| <= 0x1_0000
    requires forall i, j | 0 <= i < j < |table| :: table[i] != table[j]
    requires forall i | 0 <= i < |vars| :: vars[i] == env(table[i])
    ensures forall n | n in table :: Lookup(table, vars)(n) == Ok(env(n))
  {
    hide Position;
    forall n | n in table ensures Lookup(table, vars)(n) == Ok(env(n)) {
      var i :| 0 <= i < |table| && table[i] == n;
      PositionOf(table, i);
    }
  }

  /** With a value for every name, in table order, the compiled formula computes
      the value of the formula in that environment. */
  lemma CompiledValue<V>(m: Meaning<V>, t: Tree<V>, env: string -> V, vars: seq<V>)
    requires |vars| == |Names(t, [])| <= 0x1_0000
    requires forall i | 0 <= i < |vars| :: vars[i] == env(Names(t, [])[i])
    ensures Parse(Print(t, 0)).Ok? && Parse(Print(t, 0)).value.variables == Names(t, [])
    ensures Eval(m, Parse(Print(t, 0)).value, vars) == Value(m, t, n => Ok(env(n)))
  {
    hide Parse, Run, Eval, Value, Names;
    var table := Names(t, []);
    ParsePrinted(t);
    CompileThenRun(m, t, vars);
    NamesKnown(t, []);
    NamesDistinct(t, []);
    LookupReads(table, env, vars);
    ValueOfSameNames(m, t, table, Lookup(table, vars), n => Ok(env(n)));
  }

  /** Sixteen bits of slot tell the names apart exactly up to 65536 of them. */
  lemma SlotsDistinct(names: seq<string>)
    requires forall i, j | 0 <= i < j < |names| :: names[i] != names[j]
    ensures (forall i, j | 0 <= i < j < |names| :: Slot(names, names[i]) != Slot(names, names[j]))
            <==> |names| <= 0x1_0000
  {
    forall i | 0 <= i < |names| ensures Position(names, names[i]) == i { PositionOf(names, i); }
    if |names| > 0x1_0000 {
      assert Slot(names, names[0]) == Slot(names, names[0x1_0000]);
    }
  }

  // ------------------------------- a conditional as a bare middle operand

  /** `c ? x ? y : z : b` without brackets around the inner conditional. */
  function Nested<V>(c: Tree<V>, x: Tree<V>, y: Tree<V>, z: Tree<V>, b: Tree<V>): seq<Token<V>> {
    Print(c, 6) + [QuestionMark] + (Print(x, 6) + [QuestionMark]) + (Print(y, 6) + [ColonMark])
    + (Print(z, 6) + [ColonMark]) + Print(b, 5)
  }

  lemma NextOperand<V>(s: State<V>, before: seq<Token<V>>, s1: State<V>, t: Tree<V>, token: Token<V>, op: Op<V>)
    requires Feed(s, before) == Ok(s1) && !s1.operand && Fits(s1.stack, 6) && Rests(op, s1.stack)
    requires (token.QuestionMark? && op.Question?) || (token.ColonMark? && op.Colon?)
    ensures Feed(s, before + (Print(t, 6) + [token])) == Ok(Settled(t, s1, s1.stack + [Pending(op)], false))
  {
    hide Feed, Print, Names, Code;
    Parsed(t, 6, s1);
    OperatorRead(t, 6, s1, Print(t, 6), token, op);
    FeedSum(s, before, Print(t, 6) + [token]);
  }

  lemma {:induction false} ParseNested<V>(c: Tree<V>, x: Tree<V>, y: Tree<V>, z: Tree<V>, b: Tree<V>)
    ensures var t := Cond(c, x, Cond(y, z, b));
            var names := Names(t, []);
            Parse(Nested(c, x, y, z, b))
            == Ok(Expr(Code(c, names) + Code(x, names) + Code(y, names) + Code(z, names) + Code(b, names)
                       + [Colon, Colon, Question, Question], names))
  {
    hide Feed, Print, Code, Done, Waiting, Finish, Reversed;
    var s: State<V> := Start();
    var t := Cond(c, x, Cond(y, z, b));
    var names := Names(t, []);
    FeedNothing(s);
    NextOperand(s, [], s, c, QuestionMark, Question);
    var p1 := Print(c, 6) + [QuestionMark];
    assert [] + p1 == p1;
    var s1 := Settled(c, s, s.stack + [Pending(Question)], false);
    NextOperand(s, p1, s1, x, QuestionMark, Question);
    var p2 := p1 + (Print(x, 6) + [QuestionMark]);
    var s2 := Settled(x, s1, s1.stack + [Pending(Question)], false);
    NextOperand(s, p2, s2, y, ColonMark, Colon);
    var p3 := p2 + (Print(y, 6) + [ColonMark]);
    var s3 := Settled(y, s2, s2.stack + [Pending(Colon)], false);
    NextOperand(s, p3, s3, z, ColonMark, Colon);
    var p4 := p3 + (Print(z, 6) + [ColonMark]);
    var s4 := Settled(z, s3, s3.stack + [Pending(Colon)], false);
    Parsed(b, 5, s4);
    FeedSum(s, p4, Print(b, 5));
    var waiting := [Question, Question, Colon, Colon] + Waiting(b, 5);
    var end := After(b, 5, s4);
    assert end.stack == Entries(waiting);
    FinishFlushes(end, waiting);
    ReversedFour(Waiting(b, 5));
    DoneThenWaiting(b, 5, names);
    CodesKept(c, x, y, z, b);
    assert end.variables == names by { assert Names(t.no, s2.variables) == Names(b, s4.variables); }
    assert end.output == Code(c, names) + Code(x, names) + Code(y, names) + Code(z, names) + Done(b, 5, names);
    assert end.output + Reversed(waiting)
        == Code(c, names) + Code(x, names) + Code(y, names) + Code(z, names)
           + (Done(b, 5, names) + Reversed(Waiting(b, 5))) + [Colon, Colon, Question, Question];
  }

  lemma ReversedFour<V>(w: seq<Op<V>>)
    ensures Reversed([Question, Question, Colon, Colon] + w) == Reversed(w) + [Colon, Colon, Question, Question]
  {
    var four: seq<Op<V>> := [Question, Question, Colon, Colon];
    ReversedSum(four, w);
    assert Reversed(four[..1]) == [Question] by { assert four[..1][..0] == []; }
    assert Reversed(four[..2]) == [Question, Question] by { assert four[..2][..1] == four[..1]; }
    assert Reversed(four[..3]) == [Colon, Question, Question] by { assert four[..3][..2] == four[..2]; }
  }

  lemma CodesKept<V>(c: Tree<V>, x: Tree<V>, y: Tree<V>, z: Tree<V>, b: Tree<V>)
    ensures var n1 := Names(c, []); var n2 := Names(x, n1); var n3 := Names(y, n2); var n4 := Names(z, n3);
            var names := Names(b, n4);
            Code(c, n1) == Code(c, names) && Code(x, n2) == Code(x, names)
            && Code(y, n3) == Code(y, names) && Code(z, n4) == Code(z, names)
  {
    hide Code, Known, Names;
    var n1 := Names(c, []);
    var n2 := Names(x, n1);
    var n3 := Names(y, n2);
    var n4 := Names(z, n3);
    var names := Names(b, n4);
    NamesKnown(c, []);
    NamesKnown(x, n1);
    NamesKnown(y, n2);
    NamesKnown(z, n3);
    KnownKept(c, n1, names);
    KnownKept(x, n2, names);
    KnownKept(y, n3, names);
    KnownKept(z, n4, names);
  }

  lemma DropColon<V>(m: Meaning<V>, a: seq<Op<V>>, b: seq<Op<V>>, vars: seq<V>)
    ensures Run(m, a + [Colon] + b, vars, []) == Run(m, a + b, vars, [])
  {
    hide Run;
    RunThen(m, a, Colon, vars, []);
    RunSum(m, a + [Colon], b, vars, []);
    RunSum(m, a, b, vars, []);
  }

  /** What the compiler makes of an unbracketed conditional in the middle of
      another: for all operands it computes `c ? x : (y ? z : b)`. */
  lemma BareMiddleRegroups<V>(m: Meaning<V>, c: Tree<V>, x: Tree<V>, y: Tree<V>, z: Tree<V>, b: Tree<V>, vars: seq<V>)
    ensures var t := Cond(c, x, Cond(y, z, b));
            Parse(Nested(c, x, y, z, b)).Ok?
            && Eval(m, Parse(Nested(c, x, y, z, b)).value, vars) == Value(m, t, Lookup(Names(t, []), vars))
  {
    hide Run, Parse, Value, Names;
    var t := Cond(c, x, Cond(y, z, b));
    var names := Names(t, []);
    ParseNested(c, x, y, z, b);
    var five := Code(c, names) + Code(x, names) + Code(y, names) + Code(z, names) + Code(b, names);
    RegroupedCode(c, x, y, z, b, names);
    hide Code;
    DropColon(m, five, [Colon, Question, Question], vars);
    DropColon(m, five + [Colon, Question], [Question], vars);
    Regrouped(five);
    RunCode(m, t, names, vars, []);
  }

  lemma RegroupedCode<V>(c: Tree<V>, x: Tree<V>, y: Tree<V>, z: Tree<V>, b: Tree<V>, names: seq<string>)
    ensures Code(Cond(c, x, Cond(y, z, b)), names)
            == Code(c, names) + Code(x, names) + Code(y, names) + Code(z, names) + Code(b, names)
               + [Colon, Question] + [Colon] + [Question]
  {
    assert Code(Cond(y, z, b), names) == Code(y, names) + Code(z, names) + Code(b, names) + [Colon, Question];
    assert Code(Cond(c, x, Cond(y, z, b)), names)
           == Code(c, names) + Code(x, names) + Code(Cond(y, z, b), names) + [Colon, Question];
    hide Code;
    SevenJoined(Code(c, names) + Code(x, names), Code(y, names), Code(z, names), Code(b, names));
  }

  lemma SevenJoined<V>(p: seq<Op<V>>, y: seq<Op<V>>, z: seq<Op<V>>, b: seq<Op<V>>)
    ensures p + (y + z + b + [Colon, Question]) + [Colon, Question]
            == p + y + z + b + [Colon, Question] + [Colon] + [Question]
  {
    Joined(p, y + z + b, [Colon, Question]);
    Joined(p, y + z, b);
    Joined(p, y, z);
  }

  lemma Regrouped<V>(five: seq<Op<V>>)
    ensures five + [Colon] + [Colon, Question, Question] == five + [Colon, Colon, Question, Question]
    ensures five + [Colon, Question] + [Question] == five + [Colon, Question, Question]
  {
  }
}
