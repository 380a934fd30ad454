/** The infix-to-postfix pass of `mtob` on tokens: an operator stack and the
    postfix program emitted so far. `None` marks the inputs for which the
    program has no defined behaviour (a `)` with no `(` to match it). */
module ShuntingYard {
  import opened Sequences
  import opened Expressions

  datatype Conf = Conf(ops: seq<char>, out: seq<Token>)

  /** prio() never assigns a priority to `)`. */
  function Prio(op: char): nat
    requires op != ')'
  {
    if op == '*' || op == '/' then 2
    else if op == '+' || op == '-' then 1
    else 0
  }

  function Emit(c: Conf): Conf
    requires c.ops != []
  {
    Conf(Init(c.ops), c.out + [Op(Last(c.ops))])
  }

  /** Emit the stacked operators that bind at least as tightly as `op`. */
  function EmitTighter(op: char, c: Conf): Option<Conf>
    requires op != ')'
    decreases |c.ops|
  {
    if c.ops == [] then Some(c)
    else if Last(c.ops) == ')' then None
    else if Prio(op) <= Prio(Last(c.ops)) then EmitTighter(op, Emit(c))
    else Some(c)
  }

  /** Emit down to the matching `(` and drop it. */
  function EmitToParen(c: Conf): Option<Conf>
    decreases |c.ops|
  {
    if c.ops == [] then None
    else if Last(c.ops) == '(' then Some(Conf(Init(c.ops), c.out))
    else EmitToParen(Emit(c))
  }

  function Push(op: char, c: Conf): Conf {
    Conf(c.ops + [op], c.out)
  }

  function Step(t: Token, c: Conf): Option<Conf> {
    match t
    case Num(n) => Some(Conf(c.ops, c.out + [t]))
    case Op(op) =>
      if c.ops == [] || op == '(' then Some(Push(op, c))
      else if op == ')' then EmitToParen(c)
      else
        var c' := EmitTighter(op, c);
        if c'.None? then None else Some(Push(op, c'.value))
  }

  function Run(toks: seq<Token>, c: Conf): Option<Conf> {
    if toks == [] then Some(c)
    else
      var c' := Step(toks[0], c);
      if c'.None? then None else Run(toks[1..], c'.value)
  }

  /** Emit everything that is left on the stack. */
  function Drain(c: Conf): seq<Token>
    decreases |c.ops|
  {
    if c.ops == [] then c.out else Drain(Emit(c))
  }

  const START := Conf([], [])

  function Compile(toks: seq<Token>): Option<seq<Token>> {
    var c := Run(toks, START);
    if c.None? then None else Some(Drain(c.value))
  }

  lemma {:induction false} RunConcat(a: seq<Token>, b: seq<Token>, c: Conf)
    ensures Run(a + b, c) == if Run(a, c).None? then None else Run(b, Run(a, c).value)
  {
    if a == [] {
      assert a + b == b;
    } else {
      assert (a + b)[1..] == a[1..] + b;
      var c' := Step(a[0], c);
      if c'.Some? {
        RunConcat(a[1..], b, c'.value);
      }
    }
  }

  lemma {:induction false} RunSnoc(a: seq<Token>, t: Token, c: Conf)
    ensures Run(a + [t], c) == if Run(a, c).None? then None else Step(t, Run(a, c).value)
  {
    RunConcat(a, [t], c);
    if Run(a, c).Some? && Step(t, Run(a, c).value).Some? {
      assert [t][1..] == [];
    }
  }

  // ----- what is on the stack after an expression has been read -----

  /** Operators still waiting on the stack after reading `e`: at most one per
      priority, the tightest on top. */
  function Pending(e: Tree): seq<char> {
    if e.Binary? then [Symbol(e.op)] + Pending(e.r) else []
  }

  /** The part of `Postfix(e)` already emitted by then. */
  function Emitted(e: Tree): seq<Token> {
    match e
    case Literal(n) => [Num(n)]
    case Paren(inner) => Postfix(inner)
    case Binary(l, op, r) => Postfix(l) + Emitted(r)
  }

  /** The output of emptying an operator stack. */
  function Popped(ops: seq<char>): seq<Token> {
    if ops == [] then [] else [Op(Last(ops))] + Popped(Init(ops))
  }

  lemma {:induction false} PoppedCons(op: char, ops: seq<char>)
    ensures Popped([op] + ops) == Popped(ops) + [Op(op)]
  {
    if ops != [] {
      assert Init([op] + ops) == [op] + Init(ops);
      PoppedCons(op, Init(ops));
    }
  }

  lemma {:induction false} EmittedThenPending(e: Tree)
    ensures Emitted(e) + Popped(Pending(e)) == Postfix(e)
  {
    if e.Binary? {
      EmittedThenPending(e.r);
      PoppedCons(Symbol(e.op), Pending(e.r));
      assert Postfix(e.l) + Emitted(e.r) + (Popped(Pending(e.r)) + [Op(Symbol(e.op))])
          == Postfix(e.l) + (Emitted(e.r) + Popped(Pending(e.r))) + [Op(Symbol(e.op))];
    }
  }

  ghost predicate AtLeast(ops: seq<char>, p: nat) {
    forall i :: 0 <= i < |ops| ==> ops[i] != ')' && ops[i] != '(' && Prio(ops[i]) >= p
  }

  lemma {:induction false} PendingBinds(e: Tree)
    requires Layered(e)
    ensures AtLeast(Pending(e), Binding(e))
  {
    if e.Binary? {
      PendingBinds(e.r);
    }
  }

  /** A stack on which an operator of priority `p` is pushed without emitting
      anything. */
  predicate Below(ops: seq<char>, p: nat) {
    ops == [] || (Last(ops) != ')' && Prio(Last(ops)) < p)
  }

  /** Operators of priority `p` or more on top of a looser stack are exactly
      what an operator of priority `p` emits. */
  lemma {:induction false} EmitsPending(op: char, ops: seq<char>, pend: seq<char>, out: seq<Token>)
    requires op != ')' && Below(ops, Prio(op)) && AtLeast(pend, Prio(op))
    ensures EmitTighter(op, Conf(ops + pend, out)) == Some(Conf(ops, out + Popped(pend)))
    decreases |pend|
  {
    if pend == [] {
      assert ops + pend == ops && out + [] == out;
    } else {
      var c := Conf(ops + pend, out);
      assert Last(c.ops) == Last(pend) && Init(c.ops) == ops + Init(pend);
      EmitsPending(op, ops, Init(pend), out + [Op(Last(pend))]);
      assert out + [Op(Last(pend))] + Popped(Init(pend)) == out + Popped(pend);
    }
  }

  lemma {:induction false} ParenEmitsPending(ops: seq<char>, pend: seq<char>, out: seq<Token>)
    requires AtLeast(pend, 1)
    ensures EmitToParen(Conf(ops + ['('] + pend, out)) == Some(Conf(ops, out + Popped(pend)))
    decreases |pend|
  {
    var c := Conf(ops + ['('] + pend, out);
    if pend == [] {
      assert Last(c.ops) == '(' && Init(c.ops) == ops && out + [] == out;
    } else {
      assert Last(c.ops) == Last(pend) && Init(c.ops) == ops + ['('] + Init(pend);
      ParenEmitsPending(ops, Init(pend), out + [Op(Last(pend))]);
      assert out + [Op(Last(pend))] + Popped(Init(pend)) == out + Popped(pend);
    }
  }

  lemma {:induction false} DrainPops(ops: seq<char>, out: seq<Token>)
    ensures Drain(Conf(ops, out)) == out + Popped(ops)
    decreases |ops|
  {
    if ops != [] {
      DrainPops(Init(ops), out + [Op(Last(ops))]);
    }
  }

  /** The configuration after reading `e` from `c`. */
  function Read(e: Tree, c: Conf): Conf {
    Conf(c.ops + Pending(e), c.out + Emitted(e))
  }

  lemma {:induction false} RunOne(t: Token, c: Conf, c': Conf)
    requires Step(t, c) == Some(c')
    ensures Run([t], c) == Some(c')
  {
    assert [t][0] == t && [t][1..] == [];
    assert Run([], c') == Some(c');
  }

  lemma {:induction false} RunThen(a: seq<Token>, b: seq<Token>, c: Conf, c': Conf, c'': Conf)
    requires Run(a, c) == Some(c') && Run(b, c') == Some(c'')
    ensures Run(a + b, c) == Some(c'')
  {
    RunConcat(a, b, c);
  }

  /** Popping what is pending completes the postfix form. */
  lemma {:induction false} PendingCompletes(e: Tree, out: seq<Token>)
    ensures out + Emitted(e) + Popped(Pending(e)) == out + Postfix(e)
  {
    EmittedThenPending(e);
    assert out + Emitted(e) + Popped(Pending(e)) == out + (Emitted(e) + Popped(Pending(e)));
  }

  lemma {:induction false} ReadsClosing(inner: Tree, c: Conf)
    requires Layered(inner)
    ensures Step(Op(')'), Read(inner, Push('(', c))) == Some(Conf(c.ops, c.out + Postfix(inner)))
  {
    PendingBinds(inner);
    ParenEmitsPending(c.ops, Pending(inner), c.out + Emitted(inner));
    PendingCompletes(inner, c.out);
  }

  lemma {:induction false} ReadsParen(inner: Tree, c: Conf)
    requires Layered(inner)
    requires Run(Tokens(inner), Push('(', c)) == Some(Read(inner, Push('(', c)))
    ensures Run(Tokens(Paren(inner)), c) == Some(Read(Paren(inner), c))
  {
    var c1, c2, c3 := Push('(', c), Read(inner, Push('(', c)), Conf(c.ops, c.out + Postfix(inner));
    RunOne(Op('('), c, c1);
    RunThen([Op('(')], Tokens(inner), c, c1, c2);
    ReadsClosing(inner, c);
    RunOne(Op(')'), c2, c3);
    RunThen([Op('(')] + Tokens(inner), [Op(')')], c, c2, c3);
    assert c.ops + [] == c.ops;
  }

  lemma {:induction false} StepOperator(op: BinOp, c: Conf, c': Conf)
    requires EmitTighter(Symbol(op), c) == Some(c')
    ensures Step(Op(Symbol(op)), c) == Some(Push(Symbol(op), c'))
  {
  }

  lemma {:induction false} ReadsOperator(l: Tree, op: BinOp, c: Conf)
    requires Layered(l) && Below(c.ops, Level(op)) && Level(op) <= Binding(l)
    ensures Step(Op(Symbol(op)), Read(l, c)) == Some(Conf(c.ops + [Symbol(op)], c.out + Postfix(l)))
  {
    PendingBinds(l);
    EmitsPending(Symbol(op), c.ops, Pending(l), c.out + Emitted(l));
    PendingCompletes(l, c.out);
    StepOperator(op, Read(l, c), Conf(c.ops, c.out + Postfix(l)));
  }

  /** Reading the right operand completes the reading of the whole. */
  lemma {:induction false} ReadRight(l: Tree, op: BinOp, r: Tree, c: Conf)
    ensures Read(r, Conf(c.ops + [Symbol(op)], c.out + Postfix(l))) == Read(Binary(l, op, r), c)
  {
    assert c.ops + [Symbol(op)] + Pending(r) == c.ops + ([Symbol(op)] + Pending(r));
    assert c.out + Postfix(l) + Emitted(r) == c.out + (Postfix(l) + Emitted(r));
  }

  lemma {:induction false} ReadsBinary(l: Tree, op: BinOp, r: Tree, c: Conf)
    requires Layered(l) && Below(c.ops, Level(op)) && Level(op) <= Binding(l)
    requires Run(Tokens(l), c) == Some(Read(l, c))
    requires var c' := Conf(c.ops + [Symbol(op)], c.out + Postfix(l));
             Run(Tokens(r), c') == Some(Read(r, c'))
    ensures Run(Tokens(Binary(l, op, r)), c) == Some(Read(Binary(l, op, r), c))
  {
    var o := Symbol(op);
    var c' := Conf(c.ops + [o], c.out + Postfix(l));
    ReadsOperator(l, op, c);
    RunOne(Op(o), Read(l, c), c');
    RunThen(Tokens(l), [Op(o)], c, Read(l, c), c');
    RunThen(Tokens(l) + [Op(o)], Tokens(r), c, c', Read(r, c'));
    ReadRight(l, op, r, c);
  }

  /** Reading an expression above any looser operator stack emits its operands
      and closed operators, and leaves just its pending operators. */
  lemma {:induction false} ReadsExpression(e: Tree, c: Conf)
    requires Layered(e) && Below(c.ops, Binding(e))
    ensures Run(Tokens(e), c) == Some(Read(e, c))
    decreases e
  {
    match e
    case Literal(n) =>
      RunSnoc([], Num(n), c);
      assert [] + [Num(n)] == Tokens(e) && c.ops + [] == c.ops;
    case Paren(inner) =>
      ReadsExpression(inner, Push('(', c));
      ReadsParen(inner, c);
    case Binary(l, op, r) =>
      ReadsExpression(l, c);
      ReadsExpression(r, Conf(c.ops + [Symbol(op)], c.out + Postfix(l)));
      ReadsBinary(l, op, r, c);
  }

  /** The compiler is correct: every well-formed token sequence compiles to the
      postfix form of its tree. */
  lemma {:induction false} CompilesToPostfix(e: Tree)
    requires Layered(e)
    ensures Compile(Tokens(e)) == Some(Postfix(e))
  {
    ReadsExpression(e, START);
    assert [] + Pending(e) == Pending(e) && [] + Emitted(e) == Emitted(e);
    DrainPops(Pending(e), Emitted(e));
    EmittedThenPending(e);
  }

  // ----- facts about every run, well-formed or not -----

  /** Nothing emitted is ever taken back. */
  lemma {:induction false} EmitTighterExtends(op: char, c: Conf)
    requires op != ')' && EmitTighter(op, c).Some?
    ensures c.out <= EmitTighter(op, c).value.out && EmitTighter(op, c).value.ops <= c.ops
    decreases |c.ops|
  {
    if c.ops != [] && Prio(op) <= Prio(Last(c.ops)) {
      EmitTighterExtends(op, Emit(c));
    }
  }

  lemma {:induction false} EmitToParenExtends(c: Conf)
    requires EmitToParen(c).Some?
    ensures c.out <= EmitToParen(c).value.out && EmitToParen(c).value.ops <= c.ops
    decreases |c.ops|
  {
    if Last(c.ops) != '(' {
      EmitToParenExtends(Emit(c));
    }
  }

  lemma {:induction false} StepExtends(t: Token, c: Conf)
    requires Step(t, c).Some?
    ensures c.out <= Step(t, c).value.out
  {
    if t.Op? && c.ops != [] && t.c != '(' {
      if t.c == ')' {
        EmitToParenExtends(c);
      } else {
        EmitTighterExtends(t.c, c);
      }
    }
  }

  lemma {:induction false} RunExtends(toks: seq<Token>, c: Conf)
    requires Run(toks, c).Some?
    ensures c.out <= Run(toks, c).value.out
  {
    if toks != [] {
      StepExtends(toks[0], c);
      RunExtends(toks[1..], Step(toks[0], c).value);
    }
  }

  lemma {:induction false} DrainExtends(c: Conf)
    ensures c.out <= Drain(c)
  {
    DrainPops(c.ops, c.out);
  }
}
