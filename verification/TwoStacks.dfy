/** The one-pass evaluator of `double_stack_224.c` on tokens, and its lockstep
    simulation of compiling to postfix and running the postfix machine. */
module TwoStacks {
  import opened Sequences
  import opened Expressions
  import opened StackMachine
  import opened ShuntingYard

  datatype Eval = Eval(ops: seq<char>, nums: seq<int>)

  /** stack_pop() on numbers: an empty stack gives 0 and stays empty. */
  function TopNum(nums: seq<int>): int {
    if nums == [] then 0 else Last(nums)
  }

  function PopNum(nums: seq<int>): seq<int> {
    if nums == [] then [] else Init(nums)
  }

  /** pop_and_cal() */
  function Reduce(d: Eval): Option<Eval>
    requires d.ops != []
  {
    var a1, rest := TopNum(d.nums), PopNum(d.nums);
    var v := DoOneCal(Last(d.ops), a1, TopNum(rest));
    if v.None? then None else Some(Eval(Init(d.ops), PopNum(rest) + [v.value]))
  }

  function ReduceTighter(op: char, d: Eval): Option<Eval>
    requires op != ')'
    decreases |d.ops|
  {
    if d.ops == [] then Some(d)
    else if Last(d.ops) == ')' then None
    else if Prio(op) <= Prio(Last(d.ops)) then
      var d' := Reduce(d);
      if d'.None? then None else ReduceTighter(op, d'.value)
    else Some(d)
  }

  function ReduceToParen(d: Eval): Option<Eval>
    decreases |d.ops|
  {
    if d.ops == [] then None
    else if Last(d.ops) == '(' then Some(Eval(Init(d.ops), d.nums))
    else
      var d' := Reduce(d);
      if d'.None? then None else ReduceToParen(d'.value)
  }

  function Step2(t: Token, d: Eval): Option<Eval> {
    match t
    case Num(n) => Some(Eval(d.ops, d.nums + [n]))
    case Op(op) =>
      if d.ops == [] || op == '(' then Some(Eval(d.ops + [op], d.nums))
      else if op == ')' then ReduceToParen(d)
      else
        var d' := ReduceTighter(op, d);
        if d'.None? then None else Some(Eval(d'.value.ops + [op], d'.value.nums))
  }

  function Run2(toks: seq<Token>, d: Eval): Option<Eval> {
    if toks == [] then Some(d)
    else
      var d' := Step2(toks[0], d);
      if d'.None? then None else Run2(toks[1..], d'.value)
  }

  function ReduceAll(d: Eval): Option<Eval>
    decreases |d.ops|
  {
    if d.ops == [] then Some(d)
    else
      var d' := Reduce(d);
      if d'.None? then None else ReduceAll(d'.value)
  }

  const START2 := Eval([], [])

  function Evaluate(toks: seq<Token>): Option<int> {
    var d := Run2(toks, START2);
    var r := if d.None? then None else ReduceAll(d.value);
    if r.None? then None else Some(TopNum(r.value.nums))
  }

  // ----- lockstep -----

  /** The number stack is what running the postfix emitted so far leaves. */
  ghost predicate Matches(c: Conf, d: Eval) {
    d.ops == c.ops && ExecAll(c.out, []) == Some(d.nums)
  }

  lemma {:induction false} PrefixExecutes(a: seq<Token>, b: seq<Token>)
    requires a <= b && ExecAll(b, []).Some?
    ensures ExecAll(a, []).Some?
  {
    assert a + b[|a|..] == b;
    ExecAllConcat(a, b[|a|..], []);
  }

  /** One reduction: both operands are on the number stack, and the result is
      what the postfix machine computes for the emitted operator. */
  lemma {:induction false} SimEmit(c: Conf, d: Eval)
    requires c.ops != [] && Matches(c, d) && ExecAll(Emit(c).out, []).Some?
    ensures |d.nums| >= 2 && Reduce(d).Some? && Matches(Emit(c), Reduce(d).value)
  {
    ExecAllSnoc(c.out, Op(Last(c.ops)), []);
  }

  lemma {:induction false} SimTighter(op: char, c: Conf, d: Eval)
    requires op != ')' && Matches(c, d)
    requires EmitTighter(op, c).Some? && ExecAll(EmitTighter(op, c).value.out, []).Some?
    ensures ReduceTighter(op, d).Some? && Matches(EmitTighter(op, c).value, ReduceTighter(op, d).value)
    decreases |c.ops|
  {
    if c.ops != [] && Prio(op) <= Prio(Last(c.ops)) {
      EmitTighterExtends(op, Emit(c));
      PrefixExecutes(Emit(c).out, EmitTighter(op, c).value.out);
      SimEmit(c, d);
      SimTighter(op, Emit(c), Reduce(d).value);
    }
  }

  lemma {:induction false} SimToParen(c: Conf, d: Eval)
    requires Matches(c, d)
    requires EmitToParen(c).Some? && ExecAll(EmitToParen(c).value.out, []).Some?
    ensures ReduceToParen(d).Some? && Matches(EmitToParen(c).value, ReduceToParen(d).value)
    decreases |c.ops|
  {
    if Last(c.ops) != '(' {
      EmitToParenExtends(Emit(c));
      PrefixExecutes(Emit(c).out, EmitToParen(c).value.out);
      SimEmit(c, d);
      SimToParen(Emit(c), Reduce(d).value);
    }
  }

  lemma {:induction false} SimStep(t: Token, c: Conf, d: Eval)
    requires Matches(c, d)
    requires Step(t, c).Some? && ExecAll(Step(t, c).value.out, []).Some?
    ensures Step2(t, d).Some? && Matches(Step(t, c).value, Step2(t, d).value)
  {
    match t
    case Num(n) => ExecAllSnoc(c.out, t, []);
    case Op(op) =>
      if c.ops != [] && op == ')' {
        SimToParen(c, d);
      } else if c.ops != [] && op != '(' {
        SimTighter(op, c, d);
      }
  }

  lemma {:induction false} SimRun(toks: seq<Token>, c: Conf, d: Eval)
    requires Matches(c, d)
    requires Run(toks, c).Some? && ExecAll(Run(toks, c).value.out, []).Some?
    ensures Run2(toks, d).Some? && Matches(Run(toks, c).value, Run2(toks, d).value)
  {
    if toks != [] {
      var c' := Step(toks[0], c).value;
      RunExtends(toks[1..], c');
      PrefixExecutes(c'.out, Run(toks, c).value.out);
      SimStep(toks[0], c, d);
      SimRun(toks[1..], c', Step2(toks[0], d).value);
    }
  }

  lemma {:induction false} SimDrain(c: Conf, d: Eval)
    requires Matches(c, d) && ExecAll(Drain(c), []).Some?
    ensures ReduceAll(d).Some? && ExecAll(Drain(c), []) == Some(ReduceAll(d).value.nums)
    decreases |c.ops|
  {
    if c.ops != [] {
      DrainExtends(Emit(c));
      PrefixExecutes(Emit(c).out, Drain(c));
      SimEmit(c, d);
      SimDrain(Emit(c), Reduce(d).value);
    }
  }

  /** Lockstep simulation: after every prefix of an input whose postfix program
      runs, the two operator stacks agree and the number stack equals the stack
      of the postfix machine on what has been emitted so far. */
  lemma {:induction false} Lockstep(toks: seq<Token>, k: nat)
    requires k <= |toks|
    requires Compile(toks).Some? && ExecAll(Compile(toks).value, []).Some?
    ensures Run(toks[..k], START).Some? && Run2(toks[..k], START2).Some?
    ensures Matches(Run(toks[..k], START).value, Run2(toks[..k], START2).value)
  {
    assert toks[..k] + toks[k..] == toks;
    RunConcat(toks[..k], toks[k..], START);
    var c := Run(toks[..k], START).value;
    RunExtends(toks[k..], c);
    DrainExtends(Run(toks, START).value);
    PrefixExecutes(c.out, Compile(toks).value);
    SimRun(toks[..k], START, START2);
  }

  /** Both programs return the same number: the top of the stack the postfix
      program leaves (0 if it is empty). */
  lemma {:induction false} EvaluateAgrees(toks: seq<Token>)
    requires Compile(toks).Some? && ExecAll(Compile(toks).value, []).Some?
    ensures Evaluate(toks) == Some(TopNum(ExecAll(Compile(toks).value, []).value))
  {
    Lockstep(toks, |toks|);
    assert toks[..|toks|] == toks;
    SimDrain(Run(toks, START).value, Run2(toks, START2).value);
  }
}
