/** The postfix machine of `cal_bstr` on tokens, and the correctness of
    postfix order: running `Postfix(e)` pushes the value of `e`. */
module StackMachine {
  import opened Sequences
  import opened DecimalText
  import opened Expressions

  /** One operator applied to the number on top (`a1`) and the one below it
      (`a2`). A symbol that is no operator gives 0, as the default case does. */
  function DoOneCal(op: char, a1: int, a2: int): Option<int> {
    if op == '+' then Checked(a1 + a2)
    else if op == '-' then Checked(a2 - a1)
    else if op == '*' then Checked(a1 * a2)
    else if op == '/' then (if a1 == 0 then None else Checked(TruncDiv(a2, a1)))
    else Some(0)
  }

  function Exec(t: Token, st: seq<int>): Option<seq<int>> {
    match t
    case Num(n) => if FitsInt(n) then Some(st + [n]) else None
    case Op(c) =>
      if |st| < 2 then None
      else
        var v := DoOneCal(c, Last(st), Last(Init(st)));
        if v.None? then None else Some(Init(Init(st)) + [v.value])
  }

  function ExecAll(toks: seq<Token>, st: seq<int>): Option<seq<int>> {
    if toks == [] then Some(st)
    else
      var st' := Exec(toks[0], st);
      if st'.None? then None else ExecAll(toks[1..], st'.value)
  }

  lemma {:induction false} ExecAllConcat(a: seq<Token>, b: seq<Token>, st: seq<int>)
    ensures ExecAll(a + b, st) ==
            if ExecAll(a, st).None? then None else ExecAll(b, ExecAll(a, st).value)
  {
    if a == [] {
      assert a + b == b;
    } else {
      assert (a + b)[1..] == a[1..] + b;
      var st' := Exec(a[0], st);
      if st'.Some? {
        ExecAllConcat(a[1..], b, st'.value);
      }
    }
  }

  lemma {:induction false} ExecAllSnoc(a: seq<Token>, t: Token, st: seq<int>)
    ensures ExecAll(a + [t], st) ==
            if ExecAll(a, st).None? then None else Exec(t, ExecAll(a, st).value)
  {
    ExecAllConcat(a, [t], st);
    if ExecAll(a, st).Some? && Exec(t, ExecAll(a, st).value).Some? {
      assert [t][1..] == [];
    }
  }

  /** A program that runs leaves a result, unless there is nothing to run. */
  lemma {:induction false} ResultLeft(toks: seq<Token>, st: seq<int>)
    requires ExecAll(toks, st).Some? && (toks != [] || st != [])
    ensures ExecAll(toks, st).value != []
  {
    if toks != [] {
      ResultLeft(toks[1..], Exec(toks[0], st).value);
    }
  }

  /** `DoOneCal` with the operands in stack order computes the operator. */
  lemma {:induction false} DoOneCalApplies(op: BinOp, x: int, y: int)
    ensures DoOneCal(Symbol(op), y, x) == Apply(op, x, y)
  {
    assert x * y == y * x;
  }

  /** A parenthesis reaching the arithmetic would give 0. */
  lemma {:induction false} NoOperatorGivesZero(op: char, a1: int, a2: int)
    requires op == '(' || op == ')'
    ensures DoOneCal(op, a1, a2) == Some(0)
  {
  }

  /** Running the postfix form of `e` on any stack pushes the value of `e`, and
      is undefined exactly when that value is. */
  lemma {:induction false} PostfixComputesValue(e: Tree, st: seq<int>)
    ensures ExecAll(Postfix(e), st) ==
            if Value(e).None? then None else Some(st + [Value(e).value])
  {
    match e
    case Literal(n) =>
      assert Postfix(e)[1..] == [];
    case Paren(inner) =>
      PostfixComputesValue(inner, st);
    case Binary(l, op, r) =>
      var x, y := Value(l), Value(r);
      var tail := Postfix(r) + [Op(Symbol(op))];
      assert Postfix(e) == Postfix(l) + tail;
      ExecAllConcat(Postfix(l), tail, st);
      PostfixComputesValue(l, st);
      if x.Some? {
        var st1 := st + [x.value];
        ExecAllSnoc(Postfix(r), Op(Symbol(op)), st1);
        PostfixComputesValue(r, st1);
        if y.Some? {
          var st2 := st1 + [y.value];
          assert Init(st2) == st1 && Init(Init(st2)) == st;
          DoOneCalApplies(op, x.value, y.value);
        }
      }
  }
}
