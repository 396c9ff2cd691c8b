/** Which token sequences compile and which code runs, for malformed formulas too. */
module WellFormed {
  import opened Evaluator

  // -------------------------------------------------------------- parentheses

  /** One token more. */
  function Deeper<V>(before: nat, token: Token<V>): Result<nat> {
    match token
    case Open => Ok(before + 1)
    case Close => if before == 0 then Err(UnbalancedParenthesis) else Ok(before - 1)
    case _ => Ok(before)
  }

  /** Parentheses open at the end; none when one closes that was not open. */
  function Depth<V>(tokens: seq<Token<V>>): Result<nat> {
    if tokens == [] then Ok(0)
    else
      var before :- Depth(tokens[..|tokens| - 1]);
      Deeper(before, tokens[|tokens| - 1])
  }

  function Parens<V>(stack: seq<Entry<V>>): nat {
    if stack == [] then 0 else Parens(stack[..|stack| - 1]) + if stack[|stack| - 1].Paren? then 1 else 0
  }

  lemma ParensMore<V>(stack: seq<Entry<V>>, e: Entry<V>)
    ensures Parens(stack + [e]) == Parens(stack) + if e.Paren? then 1 else 0
  {
    assert (stack + [e])[..|stack|] == stack;
  }

  lemma {:induction false} PushParens<V>(op: Op<V>, stack: seq<Entry<V>>, output: seq<Op<V>>)
    ensures Parens(PushOperator(op, stack, output).stack) == Parens(stack)
    decreases |stack|
  {
    hide Pops;
    var last := |stack| - 1;
    if stack != [] && stack[last].Pending? && Pops(op, stack[last].op) {
      PushParens(op, stack[..last], output + [stack[last].op]);
    } else {
      ParensMore(stack, Pending(op));
    }
  }

  lemma {:induction false} CloseParens<V>(s: State<V>)
    ensures match CloseParen(s)
            case Ok(t) => Parens(s.stack) == Parens(t.stack) + 1
            case Err(e) => Parens(s.stack) == 0 && e == UnbalancedParenthesis
    decreases |s.stack|
  {
    var last := |s.stack| - 1;
    if s.stack != [] && s.stack[last].Pending? { CloseParens(s.(stack := s.stack[..last], output := s.output + [s.stack[last].op])); }
  }

  lemma {:induction false} FinishParens<V>(s: State<V>)
    ensures match Finish(s)
            case Ok(_) => Parens(s.stack) == 0
            case Err(e) => Parens(s.stack) > 0 && e == UnbalancedParenthesis
    decreases |s.stack|
  {
    var last := |s.stack| - 1;
    if s.stack != [] && s.stack[last].Pending? { FinishParens(s.(stack := s.stack[..last], output := s.output + [s.stack[last].op])); }
  }

  lemma StepParens<V>(s: State<V>, token: Token<V>)
    ensures match Step(s, token)
            case Ok(t) => Deeper(Parens(s.stack), token) == Ok(Parens(t.stack))
            case Err(e) => Deeper(Parens(s.stack), token) == Err(e) && e == UnbalancedParenthesis
  {
    hide PushOperator, Operator, Slot, Noted, Parens;
    match token
    case Apply(f) => PushParens(Call(f), s.stack, s.output);
    case Open => ParensMore(s.stack, Paren);
    case Close => CloseParens(s);
    case Operand(_) =>
    case Name(_) =>
    case _ => PushParens(Operator(token, s.operand), s.stack, s.output);
  }

  lemma {:induction false} FeedParens<V>(tokens: seq<Token<V>>)
    ensures match Feed(Start(), tokens)
            case Ok(s) => Depth(tokens) == Ok(Parens(s.stack))
            case Err(e) => Depth(tokens) == Err(UnbalancedParenthesis) && e == UnbalancedParenthesis
    decreases |tokens|
  {
    if tokens != [] {
      hide Step, Deeper, Parens;
      var init, last := tokens[..|tokens| - 1], tokens[|tokens| - 1];
      FeedParens(init);
      if Feed(Start(), init).Ok? { StepParens(Feed(Start(), init).value, last); }
    }
  }

  /** A formula compiles if and only if its parentheses match; nothing else is refused
      when it is parsed. */
  lemma ParsesExactly<V>(tokens: seq<Token<V>>)
    ensures Parse(tokens).Ok? <==> Depth(tokens) == Ok(0)
    ensures Parse(tokens).Err? ==> Parse(tokens).error == UnbalancedParenthesis
  {
    hide Feed, Depth, Finish;
    FeedParens(tokens);
    if Feed(Start(), tokens).Ok? { FinishParens(Feed(Start(), tokens).value); }
  }

  // ------------------------------------------------------------------- stack

  /** Operands an operation takes off the stack; it leaves one result, the colon of a
      conditional none. */
  function Takes<V>(op: Op<V>): nat {
    match op
    case Const(_) | Var(_) | Colon => 0
    case Question => 3
    case Infix(_) => 2
    case Unary(_) | Call(_) => 1
  }

  /** How many values the code leaves, or that it runs out of them. */
  function Height<V>(rpn: seq<Op<V>>): Result<nat> {
    if rpn == [] then Ok(0)
    else
      var n :- Height(rpn[..|rpn| - 1]);
      var op := rpn[|rpn| - 1];
      if n < Takes(op) then Err(Underflow) else Ok(n - Takes(op) + if op.Colon? then 0 else 1)
  }

  /** The code asks only for variables that have values. */
  ghost predicate Bound<V>(rpn: seq<Op<V>>, count: nat) { forall op | op in rpn && op.Var? :: op.index < count }

  /** Every operator has a value for every operand. */
  ghost predicate Total<V(!new)>(m: Meaning<V>) {
    && (forall p, x :: m.prefix(p, x).Ok?) && (forall f, x :: m.call(f, x).Ok?) && (forall b, x, y :: m.binary(b, x, y).Ok?)
  }

  lemma OneHeight<V(!new)>(m: Meaning<V>, op: Op<V>, vars: seq<V>, stack: seq<V>)
    requires Total(m) && (op.Var? ==> op.index < |vars|)
    ensures match Execute(m, op, vars, stack)
            case Ok(after) => Takes(op) <= |stack| && |after| == |stack| - Takes(op) + if op.Colon? then 0 else 1
            case Err(e) => e == Underflow && |stack| < Takes(op)
  {
  }

  lemma {:induction false} RunHeight<V(!new)>(m: Meaning<V>, rpn: seq<Op<V>>, vars: seq<V>)
    requires Total(m) && Bound(rpn, |vars|)
    ensures match Run(m, rpn, vars, [])
            case Ok(stack) => Height(rpn) == Ok(|stack|)
            case Err(e) => e == Underflow && Height(rpn) == Err(Underflow)
    decreases |rpn|
  {
    hide Execute, Total, Takes;
    if rpn != [] {
      var init, op := rpn[..|rpn| - 1], rpn[|rpn| - 1];
      assert op in rpn;
      RunHeight(m, init, vars);
      if Run(m, init, vars, []).Ok? { OneHeight(m, op, vars, Run(m, init, vars, []).value); }
    }
  }

  /** With operators that never fail and every variable bound, code has a value if and
      only if it leaves exactly one; else it runs out of operands, or is malformed. */
  lemma EvaluatesExactly<V(!new)>(m: Meaning<V>, e: Expr<V>, vars: seq<V>)
    requires Total(m) && Bound(e.rpn, |vars|)
    ensures Eval(m, e, vars).Ok? <==> Height(e.rpn) == Ok(1)
    ensures Eval(m, e, vars) == Err(Underflow) <==> Height(e.rpn) == Err(Underflow)
    ensures Eval(m, e, vars) == Err(Malformed) <==> Height(e.rpn).Ok? && Height(e.rpn).value != 1
  {
    hide Run, Height, Total;
    RunHeight(m, e.rpn, vars);
  }
}
