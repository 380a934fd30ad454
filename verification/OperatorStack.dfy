/** The operator stack of both programs: between two `(` its priorities
    strictly increase, so its height is bounded by the nesting depth. */
module OperatorStack {
  import opened Sequences
  import opened Expressions
  import opened Lexer
  import opened ShuntingYard

  predicate Ordered(ops: seq<char>) {
    && (forall i :: 0 <= i < |ops| ==> IsLegalOp(ops[i]) && ops[i] != ')')
    && (forall i :: 1 <= i < |ops| ==> ops[i] == '(' || Prio(ops[i - 1]) < Prio(ops[i]))
  }

  predicate Operator(c: char) {
    c == '+' || c == '-' || c == '*' || c == '/'
  }

  /** How many `(` are on the stack. */
  function Opens(ops: seq<char>): nat {
    if ops == [] then 0 else Opens(Init(ops)) + if Last(ops) == '(' then 1 else 0
  }

  function Turn(t: Token): int {
    if t == Op('(') then 1 else if t == Op(')') then -1 else 0
  }

  /** Parentheses opened minus parentheses closed by some tokens. */
  function Depth(toks: seq<Token>): int {
    if toks == [] then 0 else Depth(Init(toks)) + Turn(Last(toks))
  }

  lemma {:induction false} OpensSnoc(ops: seq<char>, op: char)
    ensures Opens(ops + [op]) == Opens(ops) + if op == '(' then 1 else 0
  {
    assert Init(ops + [op]) == ops;
  }

  lemma {:induction false} DepthSnoc(toks: seq<Token>, t: Token)
    ensures Depth(toks + [t]) == Depth(toks) + Turn(t)
  {
    assert Init(toks + [t]) == toks;
  }

  /** At most `+ *` above each open parenthesis and below the first one. */
  lemma {:induction false} OrderedIsShort(ops: seq<char>)
    requires Ordered(ops)
    ensures |ops| <= 3 * Opens(ops) + if ops == [] then 0 else Prio(Last(ops))
  {
    if ops != [] {
      var below := Init(ops);
      assert forall i :: 0 <= i < |below| ==> below[i] == ops[i];
      OrderedIsShort(below);
      if below != [] {
        assert Last(below) == ops[|ops| - 1 - 1];
      }
    }
  }

  lemma {:induction false} EmitTighterLeaves(op: char, c: Conf)
    requires op != ')' && Prio(op) > 0 && EmitTighter(op, c).Some?
    ensures var ops := EmitTighter(op, c).value.ops;
            && ops <= c.ops && Opens(ops) == Opens(c.ops) && Below(ops, Prio(op))
    decreases |c.ops|
  {
    if c.ops != [] && Prio(op) <= Prio(Last(c.ops)) {
      EmitTighterLeaves(op, Emit(c));
    }
  }

  lemma {:induction false} EmitToParenLeaves(c: Conf)
    requires EmitToParen(c).Some?
    ensures var ops := EmitToParen(c).value.ops;
            ops <= c.ops && Opens(ops) == Opens(c.ops) - 1
    decreases |c.ops|
  {
    if Last(c.ops) != '(' {
      EmitToParenLeaves(Emit(c));
    }
  }

  lemma {:induction false} OrderedPrefix(a: seq<char>, b: seq<char>)
    requires a <= b && Ordered(b)
    ensures Ordered(a)
  {
    assert forall i :: 0 <= i < |a| ==> a[i] == b[i];
  }

  lemma {:induction false} OrderedPush(ops: seq<char>, op: char)
    requires Ordered(ops) && IsLegalOp(op) && op != ')' && (op == '(' || Below(ops, Prio(op)))
    ensures Ordered(ops + [op])
  {
  }

  lemma {:induction false} OperatorKeepsOrder(op: char, c: Conf)
    requires Ordered(c.ops) && Operator(op) && EmitTighter(op, c).Some?
    ensures var ops := EmitTighter(op, c).value.ops + [op];
            Ordered(ops) && Opens(ops) == Opens(c.ops)
  {
    EmitTighterLeaves(op, c);
    var ops := EmitTighter(op, c).value.ops;
    OrderedPrefix(ops, c.ops);
    OrderedPush(ops, op);
    OpensSnoc(ops, op);
  }

  lemma {:induction false} CloseKeepsOrder(c: Conf)
    requires Ordered(c.ops) && EmitToParen(c).Some?
    ensures var ops := EmitToParen(c).value.ops;
            Ordered(ops) && Opens(ops) == Opens(c.ops) - 1
  {
    EmitToParenLeaves(c);
    OrderedPrefix(EmitToParen(c).value.ops, c.ops);
  }

  /** One token keeps the stack ordered, whatever the input so far, unless it
      is a `)` that meets an empty stack. */
  lemma {:induction false} StepKeepsOrder(t: Token, c: Conf)
    requires Ordered(c.ops) && (t.Op? ==> IsLegalOp(t.c)) && Step(t, c).Some?
    requires !(t == Op(')') && c.ops == [])
    ensures var ops := Step(t, c).value.ops;
            Ordered(ops) && Opens(ops) == Opens(c.ops) + Turn(t)
  {
    match t
    case Num(_) =>
    case Op(op) =>
      if c.ops == [] || op == '(' {
        OrderedPush(c.ops, op);
        OpensSnoc(c.ops, op);
      } else if op == ')' {
        CloseKeepsOrder(c);
      } else {
        OperatorKeepsOrder(op, c);
      }
  }

  // ----- a `)` at the bottom is never removed, so it shows in the output -----

  predicate Stranded(ops: seq<char>) {
    ops != [] && ops[0] == ')'
  }

  lemma {:induction false} TighterKeepsStranded(op: char, c: Conf)
    requires Stranded(c.ops) && op != ')' && EmitTighter(op, c).Some?
    ensures Stranded(EmitTighter(op, c).value.ops)
    decreases |c.ops|
  {
    if Prio(op) <= Prio(Last(c.ops)) {
      TighterKeepsStranded(op, Emit(c));
    }
  }

  lemma {:induction false} ToParenKeepsStranded(c: Conf)
    requires Stranded(c.ops) && EmitToParen(c).Some?
    ensures Stranded(EmitToParen(c).value.ops)
    decreases |c.ops|
  {
    if Last(c.ops) != '(' {
      ToParenKeepsStranded(Emit(c));
    }
  }

  lemma {:induction false} StepKeepsStranded(t: Token, c: Conf)
    requires Stranded(c.ops) && Step(t, c).Some?
    ensures Stranded(Step(t, c).value.ops)
  {
    if t.Op? && t.c == ')' {
      ToParenKeepsStranded(c);
    } else if t.Op? && t.c != '(' {
      TighterKeepsStranded(t.c, c);
    }
  }

  lemma {:induction false} RunKeepsStranded(toks: seq<Token>, c: Conf)
    requires Stranded(c.ops) && Run(toks, c).Some?
    ensures Stranded(Run(toks, c).value.ops)
  {
    if toks != [] {
      StepKeepsStranded(toks[0], c);
      RunKeepsStranded(toks[1..], Step(toks[0], c).value);
    }
  }

  lemma {:induction false} StrandedShows(c: Conf)
    requires Stranded(c.ops)
    ensures Op(')') in Drain(c)
  {
    PoppedCons(')', c.ops[1..]);
    assert [')'] + c.ops[1..] == c.ops;
    DrainPops(c.ops, c.out);
  }

  lemma {:induction false} PostfixHasNoParens(e: Tree)
    ensures forall t :: t in Postfix(e) && t.Op? ==> Operator(t.c)
  {
    match e
    case Literal(_) =>
    case Paren(inner) => PostfixHasNoParens(inner);
    case Binary(l, _, r) => PostfixHasNoParens(l); PostfixHasNoParens(r);
  }

  lemma {:induction false} TokensAreLegal(e: Tree)
    ensures forall t :: t in Tokens(e) && t.Op? ==> IsLegalOp(t.c)
  {
    match e
    case Literal(_) =>
    case Paren(inner) => TokensAreLegal(inner);
    case Binary(l, _, r) => TokensAreLegal(l); TokensAreLegal(r);
  }

  lemma {:induction false} LiteralTokens(e: Tree)
    requires Value(e).Some?
    ensures forall t :: t in Tokens(e) ==> Printable(t)
    ensures forall t :: t in Postfix(e) ==> Printable(t)
  {
    match e
    case Literal(_) =>
    case Paren(inner) => LiteralTokens(inner);
    case Binary(l, _, r) => LiteralTokens(l); LiteralTokens(r);
  }

  /** A `)` that met an empty stack would end up in the output. */
  lemma {:induction false} NoStrandedParen(c: Conf, rest: seq<Token>)
    requires Run(rest, c).Some? && Op(')') !in Drain(Run(rest, c).value)
    ensures !Stranded(c.ops)
  {
    if Stranded(c.ops) {
      RunKeepsStranded(rest, c);
      StrandedShows(Run(rest, c).value);
    }
  }

  lemma {:induction false} OrderedAfterPrefix(all: seq<Token>, k: nat)
    requires k <= |all| && Compile(all).Some? && Op(')') !in Compile(all).value
    requires forall t :: t in all && t.Op? ==> IsLegalOp(t.c)
    ensures var c := Run(all[..k], START);
            c.Some? && Ordered(c.value.ops) && Opens(c.value.ops) == Depth(all[..k])
  {
    if k > 0 {
      var before, t := all[..k - 1], all[k - 1];
      assert before + [t] == all[..k];
      OrderedAfterPrefix(all, k - 1);
      RunSnoc(before, t, START);
      assert all[..k] + all[k..] == all;
      RunConcat(all[..k], all[k..], START);
      NoStrandedParen(Run(all[..k], START).value, all[k..]);
      StepKeepsOrder(t, Run(before, START).value);
      DepthSnoc(before, t);
    }
  }

  /** The invariant behind both programs. After any prefix of a well-formed
      expression: the run has not failed, the operator stack is ordered, it
      holds one `(` per parenthesis still open and at most 3d + 2 entries at
      depth d, and only the four operators have been taken off it to be
      applied, never a parenthesis. */
  lemma {:induction false} OperatorStackInvariant(e: Tree, k: nat)
    requires Layered(e) && k <= |Tokens(e)|
    ensures var toks := Tokens(e)[..k];
            var c := Run(toks, START);
            && c.Some?
            && Ordered(c.value.ops)
            && Opens(c.value.ops) == Depth(toks)
            && |c.value.ops| <= 3 * Depth(toks) + 2
            && (forall t :: t in c.value.out && t.Op? ==> Operator(t.c))
  {
    var all := Tokens(e);
    CompilesToPostfix(e);
    PostfixHasNoParens(e);
    TokensAreLegal(e);
    OrderedAfterPrefix(all, k);
    var c := Run(all[..k], START).value;
    OrderedIsShort(c.ops);
    assert all[..k] + all[k..] == all;
    RunConcat(all[..k], all[k..], START);
    RunExtends(all[k..], c);
    DrainExtends(Run(all, START).value);
    assert forall t :: t in c.out ==> t in Postfix(e);
  }

  // ----- the postfix text of any input re-lexes -----

  /** Everything stacked is an operator or parenthesis, everything emitted has a
      text of its own. */
  ghost predicate Writable(c: Conf) {
    && (forall op :: op in c.ops ==> IsLegalOp(op))
    && (forall t :: t in c.out ==> Printable(t))
  }

  lemma {:induction false} EmitWritable(c: Conf)
    requires Writable(c) && c.ops != []
    ensures Writable(Emit(c))
  {
    assert Last(c.ops) in c.ops && forall op :: op in Init(c.ops) ==> op in c.ops;
  }

  lemma {:induction false} EmitTighterWritable(op: char, c: Conf)
    requires Writable(c) && op != ')' && EmitTighter(op, c).Some?
    ensures Writable(EmitTighter(op, c).value)
    decreases |c.ops|
  {
    if c.ops != [] && Prio(op) <= Prio(Last(c.ops)) {
      EmitWritable(c);
      EmitTighterWritable(op, Emit(c));
    }
  }

  lemma {:induction false} EmitToParenWritable(c: Conf)
    requires Writable(c) && EmitToParen(c).Some?
    ensures Writable(EmitToParen(c).value)
    decreases |c.ops|
  {
    EmitWritable(c);
    if Last(c.ops) != '(' {
      EmitToParenWritable(Emit(c));
    }
  }

  lemma {:induction false} StepWritable(t: Token, c: Conf)
    requires Writable(c) && Printable(t) && Step(t, c).Some?
    ensures Writable(Step(t, c).value)
  {
    if t.Op? && c.ops != [] && t.c == ')' {
      EmitToParenWritable(c);
    } else if t.Op? && c.ops != [] && t.c != '(' {
      EmitTighterWritable(t.c, c);
    }
  }

  lemma {:induction false} RunWritable(toks: seq<Token>, c: Conf)
    requires Writable(c) && Run(toks, c).Some? && forall t :: t in toks ==> Printable(t)
    ensures Writable(Run(toks, c).value)
  {
    if toks != [] {
      StepWritable(toks[0], c);
      RunWritable(toks[1..], Step(toks[0], c).value);
    }
  }

  lemma {:induction false} DrainWritable(c: Conf)
    requires Writable(c)
    ensures forall t :: t in Drain(c) ==> Printable(t)
    decreases |c.ops|
  {
    if c.ops != [] {
      EmitWritable(c);
      DrainWritable(Emit(c));
    }
  }

  /** The text round trip for every input that compiles, well-formed or not:
      lexing the postfix text gives exactly the postfix program. */
  lemma {:induction false} PostfixTextRelexes(s: string)
    requires Lex(s).Some? && Compile(Lex(s).value).Some?
    ensures var post := Compile(Lex(s).value).value; Lex(PostfixText(post)) == Some(post)
  {
    var toks := Lex(s).value;
    LexedTokensPrintable(s);
    RunWritable(toks, START);
    DrainWritable(Run(toks, START).value);
    LexPostfixText(Compile(toks).value);
  }
}
