/** The GenICam formula compiler: a shunting-yard parser from tokens to reverse
    Polish code, and the stack machine that runs the code. Both are generic in
    the value type, so what is proved holds for integers and doubles alike. */
module Evaluator {

  // ------------------------------------------------------------ operators

  datatype Binary =
    | Or | And | BitOr | BitXor | BitAnd | Eq | Ne | Le | Ge | Lt | Gt
    | Shr | Shl | Sub | Add | Rem | Div | Mul | Pow

  datatype Prefix = Minus | Plus | BitNot

  datatype Function =
    | Sin | Cos | Sgn | Neg | Atan | Tan | Abs | Exp | Ln | Lg | Sqrt
    | Trunc | Round | Floor | Ceil | Asin | Acos

  datatype Op<V> =
    | Const(value: V) | Var(index: nat) | Colon | Question
    | Infix(binary: Binary) | Unary(prefix: Prefix) | Call(function_: Function)

  /** Precedence of a binary operator. */
  function Strength(op: Binary): nat {
    match op
    case Or => 10
    case And => 20
    case BitOr => 40
    case BitXor => 50
    case BitAnd => 60
    case Eq | Ne => 70
    case Le | Ge | Lt | Gt => 80
    case Shr | Shl => 90
    case Sub | Add => 100
    case Rem | Div | Mul => 110
    case Pow => 120
  }

  /** (precedence, right associative). */
  function Binding<V>(op: Op<V>): (nat, bool) {
    match op
    case Colon | Question => (5, true)
    case Infix(b) => (Strength(b), b.Pow?)
    case Unary(_) => (130, true)
    case _ => (200, false)
  }

  datatype Error = UnbalancedParenthesis | Unbound(index: nat) | Underflow | Malformed | Arithmetic(op: Binary)

  datatype Result<T> = Ok(value: T) | Err(error: Error) {
    predicate IsFailure() { Err? }
    function PropagateFailure<U>(): Result<U> requires Err? { Err(error) }
    function Extract(): T requires Ok? { value }
  }

  // --------------------------------------------------------------- parser

  /** `+` and `-` are one token each; the parser tells sign from sum. */
  datatype Token<V> =
    | Operand(value: V) | Name(name: string) | Apply(function_: Function)
    | Open | Close | PlusSign | MinusSign | Tilde | QuestionMark | ColonMark
    | Between(binary: Binary)

  datatype Entry<V> = Paren | Pending(op: Op<V>)

  datatype State<V> = State(variables: seq<string>, output: seq<Op<V>>, stack: seq<Entry<V>>, operand: bool)

  datatype Expr<V> = Expr(rpn: seq<Op<V>>, variables: seq<string>)

  predicate Pops<V>(op: Op<V>, top: Op<V>) {
    if Binding(op).1 then Binding(top).0 > Binding(op).0 else Binding(top).0 >= Binding(op).0
  }

  datatype Stacks<V> = Stacks(stack: seq<Entry<V>>, output: seq<Op<V>>)

  /** Moves every operator that binds tighter than `op` to the output, then
      stacks `op`. */
  function PushOperator<V>(op: Op<V>, stack: seq<Entry<V>>, output: seq<Op<V>>): Stacks<V>
    decreases |stack|
  {
    var last := |stack| - 1;
    if stack != [] && stack[last].Pending? && Pops(op, stack[last].op)
    then PushOperator(op, stack[..last], output + [stack[last].op])
    else Stacks(stack + [Pending(op)], output)
  }

  function Pushed<V>(op: Op<V>, s: State<V>): State<V> {
    var p := PushOperator(op, s.stack, s.output);
    s.(stack := p.stack, output := p.output)
  }

  /** Pops to the output until the matching parenthesis. */
  function CloseParen<V>(s: State<V>): Result<State<V>>
    decreases |s.stack|
  {
    var last := |s.stack| - 1;
    if s.stack == [] then Err(UnbalancedParenthesis)
    else if s.stack[last].Paren? then Ok(s.(stack := s.stack[..last], operand := true))
    else CloseParen(s.(stack := s.stack[..last], output := s.output + [s.stack[last].op]))
  }

  /** First position of `name`, or the length when absent. */
  function Position(names: seq<string>, name: string): (i: nat)
    ensures i <= |names| && (i < |names| ==> names[i] == name) && name !in names[..i]
  {
    if names == [] || names[0] == name then 0 else 1 + Position(names[1..], name)
  }

  /** The slot a name is compiled to: its position, kept in 16 bits. */
  function Slot(names: seq<string>, name: string): nat {
    Position(names, name) % 0x1_0000
  }

  function Noted(names: seq<string>, name: string): seq<string> {
    if name in names then names else names + [name]
  }

  function Step<V>(s: State<V>, token: Token<V>): Result<State<V>> {
    match token
    case Operand(v) => Ok(s.(output := s.output + [Const(v)], operand := true))
    case Name(n) =>
      var names := Noted(s.variables, n);
      Ok(s.(variables := names, output := s.output + [Var(Slot(names, n))], operand := true))
    case Apply(f) => Ok(Pushed(Call(f), s))
    case Open => Ok(s.(stack := s.stack + [Paren], operand := false))
    case Close => CloseParen(s)
    case _ => Ok(Pushed(Operator(token, s.operand), s).(operand := false))
  }

  function Operator<V>(token: Token<V>, operand: bool): Op<V>
    requires token.PlusSign? || token.MinusSign? || token.Tilde? || token.QuestionMark?
          || token.ColonMark? || token.Between?
  {
    match token
    case PlusSign => if operand then Infix(Add) else Unary(Plus)
    case MinusSign => if operand then Infix(Sub) else Unary(Minus)
    case Tilde => Unary(BitNot)
    case QuestionMark => Question
    case ColonMark => Colon
    case Between(b) => Infix(b)
  }

  function Feed<V>(s: State<V>, tokens: seq<Token<V>>): Result<State<V>>
    decreases |tokens|
  {
    if tokens == [] then Ok(s)
    else
      var before :- Feed(s, tokens[..|tokens| - 1]);
      Step(before, tokens[|tokens| - 1])
  }

  function Finish<V>(s: State<V>): Result<Expr<V>>
    decreases |s.stack|
  {
    var last := |s.stack| - 1;
    if s.stack == [] then Ok(Expr(s.output, s.variables))
    else if s.stack[last].Paren? then Err(UnbalancedParenthesis)
    else Finish(s.(stack := s.stack[..last], output := s.output + [s.stack[last].op]))
  }

  function Start<V>(): State<V> { State([], [], [], false) }

  function Parse<V>(tokens: seq<Token<V>>): Result<Expr<V>> {
    var s :- Feed(Start(), tokens);
    Finish(s)
  }

  method PushOperatorLoop<V>(op: Op<V>, stack: seq<Entry<V>>, output: seq<Op<V>>)
    returns (stack': seq<Entry<V>>, output': seq<Op<V>>)
    ensures Stacks(stack', output') == PushOperator(op, stack, output)
  {
    stack', output' := stack, output;
    while |stack'| > 0 && stack'[|stack'| - 1].Pending? && Pops(op, stack'[|stack'| - 1].op)
      invariant PushOperator(op, stack', output') == PushOperator(op, stack, output)
      decreases |stack'|
    {
      output' := output' + [stack'[|stack'| - 1].op];
      stack' := stack'[..|stack'| - 1];
    }
    stack' := stack' + [Pending(op)];
  }

  /** The parser's loop over the tokens. */
  method ParseTokens<V>(tokens: seq<Token<V>>) returns (r: Result<Expr<V>>)
    ensures r == Parse(tokens)
  {
    var variables: seq<string>, output: seq<Op<V>>, stack: seq<Entry<V>>, operand := [], [], [], false;
    for i := 0 to |tokens|
      invariant Feed(Start(), tokens[..i]) == Ok(State(variables, output, stack, operand))
    {
      assert tokens[..i + 1][..i] == tokens[..i];
      ghost var before := State(variables, output, stack, operand);
      match tokens[i]
      case Operand(v) =>
        output := output + [Const(v)];
        operand := true;
      case Name(n) =>
        if n !in variables { variables := variables + [n]; }
        output := output + [Var(Position(variables, n) % 0x1_0000)];
        operand := true;
      case Apply(f) =>
        stack, output := PushOperatorLoop(Call(f), stack, output);
      case Open =>
        stack := stack + [Paren];
        operand := false;
      case Close =>
        while |stack| > 0 && stack[|stack| - 1].Pending?
          invariant CloseParen(State(variables, output, stack, operand)) == CloseParen(before)
          decreases |stack|
        {
          output := output + [stack[|stack| - 1].op];
          stack := stack[..|stack| - 1];
        }
        if |stack| == 0 {
          FeedFails(tokens, i);
          return Err(UnbalancedParenthesis);
        }
        stack := stack[..|stack| - 1];
        operand := true;
      case _ =>
        stack, output := PushOperatorLoop(Operator(tokens[i], operand), stack, output);
        operand := false;
    }
    assert tokens[..|tokens|] == tokens;
    while |stack| > 0
      invariant Parse(tokens) == Finish(State(variables, output, stack, operand))
      decreases |stack|
    {
      if stack[|stack| - 1].Paren? { return Err(UnbalancedParenthesis); }
      output := output + [stack[|stack| - 1].op];
      stack := stack[..|stack| - 1];
    }
    r := Ok(Expr(output, variables));
  }

  /** A token the parser refuses fails the whole formula. */
  lemma {:induction false} FeedFails<V>(tokens: seq<Token<V>>, i: nat)
    requires i < |tokens| && Feed(Start(), tokens[..i]).Ok?
    requires Step(Feed(Start(), tokens[..i]).value, tokens[i]).Err?
    ensures Feed(Start(), tokens) == Err(Step(Feed(Start(), tokens[..i]).value, tokens[i]).error)
    decreases |tokens|
  {
    var last := |tokens| - 1;
    if i < last {
      assert tokens[..last][..i] == tokens[..i];
      FeedFails(tokens[..last], i);
    }
  }

  // -------------------------------------------------------- stack machine

  /** What the operators mean: the only place value types enter. */
  datatype Meaning<!V> = Meaning(prefix: (Prefix, V) -> Result<V>, call: (Function, V) -> Result<V>,
                                 binary: (Binary, V, V) -> Result<V>, truthy: V -> bool)

  function Execute<V>(m: Meaning<V>, op: Op<V>, vars: seq<V>, stack: seq<V>): Result<seq<V>> {
    var n := |stack|;
    match op
    case Const(v) => Ok(stack + [v])
    case Var(i) => if i < |vars| then Ok(stack + [vars[i]]) else Err(Unbound(i))
    case Colon => Ok(stack)
    case Question =>
      if n < 3 then Err(Underflow)
      else Ok(stack[..n - 3] + [if m.truthy(stack[n - 3]) then stack[n - 2] else stack[n - 1]])
    case Infix(b) =>
      if n < 2 then Err(Underflow)
      else
        var v :- m.binary(b, stack[n - 2], stack[n - 1]);
        Ok(stack[..n - 2] + [v])
    case Unary(p) =>
      if n < 1 then Err(Underflow)
      else
        var v :- m.prefix(p, stack[n - 1]);
        Ok(stack[..n - 1] + [v])
    case Call(f) =>
      if n < 1 then Err(Underflow)
      else
        var v :- m.call(f, stack[n - 1]);
        Ok(stack[..n - 1] + [v])
  }

  function Run<V>(m: Meaning<V>, rpn: seq<Op<V>>, vars: seq<V>, stack: seq<V>): Result<seq<V>>
    decreases |rpn|
  {
    if rpn == [] then Ok(stack)
    else
      var before :- Run(m, rpn[..|rpn| - 1], vars, stack);
      Execute(m, rpn[|rpn| - 1], vars, before)
  }

  function Eval<V>(m: Meaning<V>, e: Expr<V>, vars: seq<V>): Result<V> {
    var stack :- Run(m, e.rpn, vars, []);
    if |stack| != 1 then Err(Malformed) else Ok(stack[0])
  }

  method Pop<V>(stack: seq<V>) returns (v: Result<V>, rest: seq<V>)
    ensures stack == [] ==> v == Err(Underflow)
    ensures stack != [] ==> v.Ok? && stack == rest + [v.value]
  {
    if |stack| == 0 { return Err(Underflow), []; }
    v, rest := Ok(stack[|stack| - 1]), stack[..|stack| - 1];
  }

  /** The machine's loop over the code, popping its operands one by one. */
  method EvalLoop<V>(m: Meaning<V>, e: Expr<V>, vars: seq<V>) returns (r: Result<V>)
    ensures r == Eval(m, e, vars)
  {
    var stack: seq<V> := [];
    for i := 0 to |e.rpn|
      invariant Run(m, e.rpn[..i], vars, []) == Ok(stack)
    {
      assert e.rpn[..i + 1][..i] == e.rpn[..i];
      var next := ExecuteOne(m, e.rpn[i], vars, stack);
      if next.Err? {
        RunFails(m, e.rpn, vars, [], i);
        return Err(next.error);
      }
      stack := next.value;
    }
    assert e.rpn[..|e.rpn|] == e.rpn;
    if |stack| != 1 { return Err(Malformed); }
    r := Ok(stack[0]);
  }

  method ExecuteOne<V>(m: Meaning<V>, op: Op<V>, vars: seq<V>, stack: seq<V>) returns (r: Result<seq<V>>)
    ensures r == Execute(m, op, vars, stack)
  {
    match op
    case Const(v) => r := Ok(stack + [v]);
    case Var(i) =>
      if i >= |vars| { return Err(Unbound(i)); }
      r := Ok(stack + [vars[i]]);
    case Colon => r := Ok(stack);
    case Question =>
      var c, rest := Pop(stack);
      if c.Err? { return Err(c.error); }
      var b, rest2 := Pop(rest);
      if b.Err? { return Err(b.error); }
      var a, rest3 := Pop(rest2);
      if a.Err? { return Err(a.error); }
      assert stack[..|stack| - 3] == rest3;
      r := Ok(rest3 + [if m.truthy(a.value) then b.value else c.value]);
    case Infix(op) =>
      var b, rest := Pop(stack);
      if b.Err? { return Err(b.error); }
      var a, rest2 := Pop(rest);
      if a.Err? { return Err(a.error); }
      var v := m.binary(op, a.value, b.value);
      if v.Err? { return Err(v.error); }
      assert stack[..|stack| - 2] == rest2;
      r := Ok(rest2 + [v.value]);
    case Unary(p) =>
      var a, rest := Pop(stack);
      if a.Err? { return Err(a.error); }
      var v := m.prefix(p, a.value);
      if v.Err? { return Err(v.error); }
      r := Ok(rest + [v.value]);
    case Call(f) =>
      var a, rest := Pop(stack);
      if a.Err? { return Err(a.error); }
      var v := m.call(f, a.value);
      if v.Err? { return Err(v.error); }
      r := Ok(rest + [v.value]);
  }

  lemma {:induction false} RunFails<V>(m: Meaning<V>, rpn: seq<Op<V>>, vars: seq<V>, stack: seq<V>, i: nat)
    requires i < |rpn| && Run(m, rpn[..i], vars, stack).Ok?
    requires Execute(m, rpn[i], vars, Run(m, rpn[..i], vars, stack).value).Err?
    ensures Run(m, rpn, vars, stack) == Err(Execute(m, rpn[i], vars, Run(m, rpn[..i], vars, stack).value).error)
    decreases |rpn|
  {
    var last := |rpn| - 1;
    if i < last {
      assert rpn[..last][..i] == rpn[..i];
      RunFails(m, rpn[..last], vars, stack, i);
    }
  }

  // ------------------------------------------------------- tree semantics

  /** A formula as its author means it; `Group` is an extra pair of parentheses. */
  datatype Tree<V> =
    | Lit(value: V) | Ref(name: string) | Group(inner: Tree<V>)
    | Sign(prefix: Prefix, inner: Tree<V>) | Applied(function_: Function, inner: Tree<V>)
    | Bin(op: Binary, left: Tree<V>, right: Tree<V>)
    | Cond(test: Tree<V>, yes: Tree<V>, no: Tree<V>)

  /** The value of a formula: every operand is evaluated, left to right. */
  function Value<V>(m: Meaning<V>, t: Tree<V>, env: string -> Result<V>): Result<V> {
    match t
    case Lit(v) => Ok(v)
    case Ref(n) => env(n)
    case Group(a) => Value(m, a, env)
    case Sign(p, a) =>
      var v :- Value(m, a, env);
      m.prefix(p, v)
    case Applied(f, a) =>
      var v :- Value(m, a, env);
      m.call(f, v)
    case Bin(op, l, r) =>
      var x :- Value(m, l, env);
      var y :- Value(m, r, env);
      m.binary(op, x, y)
    case Cond(c, a, b) =>
      var x :- Value(m, c, env);
      var y :- Value(m, a, env);
      var z :- Value(m, b, env);
      Ok(if m.truthy(x) then y else z)
  }

  /** How tightly a formula's outermost operator binds. */
  function Level<V>(t: Tree<V>): nat {
    match t
    case Sign(_, _) => 130
    case Bin(op, _, _) => Strength(op)
    case Cond(_, _, _) => 5
    case _ => 200
  }

  function LeftLevel(op: Binary): nat { if op.Pow? then Strength(op) + 1 else Strength(op) }
  function RightLevel(op: Binary): nat { if op.Pow? then Strength(op) else Strength(op) + 1 }

  function SignToken<V>(p: Prefix): Token<V> {
    match p
    case Minus => MinusSign
    case Plus => PlusSign
    case BitNot => Tilde
  }

  function BinaryToken<V>(op: Binary): Token<V> {
    match op
    case Add => PlusSign
    case Sub => MinusSign
    case _ => Between(op)
  }

  /** The tokens of a formula, with only the parentheses its level calls for.
      Function arguments are always bracketed; a conditional needs brackets as
      the middle operand of another one. */
  function Print<V>(t: Tree<V>, level: nat): seq<Token<V>>
    decreases t, 1
  {
    if Level(t) < level then [Open] + Bare(t) + [Close] else Bare(t)
  }

  function Bare<V>(t: Tree<V>): seq<Token<V>>
    decreases t, 0
  {
    match t
    case Lit(v) => [Operand(v)]
    case Ref(n) => [Name(n)]
    case Group(a) => [Open] + Print(a, 0) + [Close]
    case Sign(p, a) => [SignToken(p)] + Print(a, 130)
    case Applied(f, a) => [Apply(f), Open] + Print(a, 0) + [Close]
    case Bin(op, l, r) => Print(l, LeftLevel(op)) + [BinaryToken(op)] + Print(r, RightLevel(op))
    case Cond(c, a, b) => Print(c, 6) + [QuestionMark] + Print(a, 6) + [ColonMark] + Print(b, 5)
  }

  // ------------------------------------------- what the parser makes of it

  function Names<V>(t: Tree<V>, known: seq<string>): (r: seq<string>)
    ensures known <= r
  {
    match t
    case Lit(_) => known
    case Ref(n) => Noted(known, n)
    case Group(a) => Names(a, known)
    case Sign(_, a) => Names(a, known)
    case Applied(_, a) => Names(a, known)
    case Bin(_, l, r) => Names(r, Names(l, known))
    case Cond(c, a, b) => Names(b, Names(a, Names(c, known)))
  }

  /** The code of a formula, its names numbered by `table`. */
  function Code<V>(t: Tree<V>, table: seq<string>): seq<Op<V>> {
    match t
    case Lit(v) => [Const(v)]
    case Ref(n) => [Var(Slot(table, n))]
    case Group(a) => Code(a, table)
    case Sign(p, a) => Code(a, table) + [Unary(p)]
    case Applied(f, a) => Code(a, table) + [Call(f)]
    case Bin(op, l, r) => Code(l, table) + Code(r, table) + [Infix(op)]
    case Cond(c, a, b) => Code(c, table) + Code(a, table) + Code(b, table) + [Colon, Question]
  }
}
