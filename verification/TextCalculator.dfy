/** The calculator of `224.c`: infix text to postfix text, postfix text to a
    number, with one global stack of short strings. */
module TextCalculator {
  import opened CStrings
  import opened Sequences
  import opened DecimalText
  import opened Expressions
  import opened Lexer
  import opened StackMachine
  import opened ShuntingYard
  import opened OperatorStack
  import opened Meaning

  const NUM_MAX_LEN := 20

  /** A stack entry; its text lives in a buffer of NUM_MAX_LEN bytes. */
  datatype Cell = Cell(isNum: int, numOp: string)

  function NumTokens(ns: seq<nat>): seq<Token> {
    if ns == [] then [] else NumTokens(Init(ns)) + [Num(Last(ns))]
  }

  lemma {:induction false} NumbersPrintable(ns: seq<nat>)
    requires forall n :: n in ns ==> FitsInt(n)
    ensures forall t :: t in NumTokens(ns) ==> Printable(t)
  {
    if ns != [] {
      assert Last(ns) in ns && forall n :: n in Init(ns) ==> n in ns;
      NumbersPrintable(Init(ns));
    }
  }

  lemma {:induction false} NumbersRun(ns: seq<nat>)
    ensures Run(NumTokens(ns), START) == Some(Conf([], NumTokens(ns)))
  {
    if ns != [] {
      NumbersRun(Init(ns));
      RunSnoc(NumTokens(Init(ns)), Num(Last(ns)), START);
    }
  }

  lemma {:induction false} NumbersExec(ns: seq<nat>)
    requires forall n :: n in ns ==> FitsInt(n)
    ensures ExecAll(NumTokens(ns), []) == Some(ns)
  {
    if ns != [] {
      assert Last(ns) in ns && forall n :: n in Init(ns) ==> n in ns;
      NumbersExec(Init(ns));
      ExecAllSnoc(NumTokens(Init(ns)), Num(Last(ns)), []);
      assert Init(ns) + [Last(ns)] == ns;
    }
  }

  /** Numbers alone compile to themselves and all stay on the stack. */
  lemma {:induction false} NumbersCompile(ns: seq<nat>)
    requires forall n :: n in ns ==> FitsInt(n)
    ensures Compile(NumTokens(ns)) == Some(NumTokens(ns)) && ExecAll(NumTokens(ns), []) == Some(ns)
    ensures forall t :: t in NumTokens(ns) ==> Printable(t)
  {
    NumbersPrintable(ns);
    NumbersRun(ns);
    NumbersExec(ns);
  }

  lemma {:induction false} WrittenCons(p: Piece, ps: seq<Piece>)
    requires p.gap == 0
    ensures Written([p] + ps, 0) == p.text + Written(ps, 0)
  {
    assert ([p] + ps)[1..] == ps && Spaces(0) == "";
  }

  lemma {:induction false} ParenthesizedOne()
    ensures Denotes("(1)", 1)
  {
    var open, one, close := Piece(0, "("), Piece(0, "1"), Piece(0, ")");
    WrittenCons(close, []);
    WrittenCons(one, [close] + []);
    WrittenCons(open, [one] + ([close] + []));
    assert Written([], 0) == "";
    var ps := [open] + ([one] + ([close] + []));
    assert Written(ps, 0) == "(" + ("1" + (")" + "")) == "(1)";
    assert one.text[..0] == "" && NatOf("") == 0 && NatOf(one.text) == 1;
    TypedExpressionMeansItsValue(Paren(Literal(1)), ps, 0);
  }

  class Calculator {
    var stack: array<Cell>
    var it: int
    var stackLen: int

    constructor ()
      ensures it == -1
    {
      stack := new Cell[0];
      it := -1;
      stackLen := 0;
    }

    /** A fresh stack of len + 1 cells. It does NOT reset `it`. */
    method StackInit(len: nat)
      modifies this
      ensures fresh(stack) && stack.Length == len + 1 && stackLen == len
      ensures it == old(it)
    {
      stack := new Cell[len + 1](_ => Cell(0, ""));
      stackLen := len;
    }

    /** stack_push() writes stack[it + 1] only if its guard passes; the cell must
        then exist. */
    predicate PushInBounds()
      reads this
    {
      it <= stackLen ==> 0 <= it + 1 < stack.Length
    }

    /** The guard is too weak for exactly one non-negative index: the one that
        equals `stackLen`, the last cell there is. */
    lemma {:induction false} GuardTooWeak()
      requires stack.Length == stackLen + 1
      ensures PushInBounds() <==> it >= -1 && it != stackLen
    {
    }

    /** A stale index beyond the limit drops the push. */
    method StackPush(isNum: int, numOp: string) returns (r: int)
      requires PushInBounds() && stack.Length == stackLen + 1
      requires |numOp| < NUM_MAX_LEN
      modifies this`it, stack
      ensures it == r == if old(it) < stackLen then old(it) + 1 else old(it)
      ensures old(it) < stackLen ==> stack[..] == old(stack[..])[it := Cell(isNum, numOp)]
      ensures old(it) > stackLen ==> stack[..] == old(stack[..])
    {
      if it <= stackLen {
        it := it + 1;
        stack[it] := Cell(isNum, numOp);
      }
      return it;
    }

    method StackPop() returns (i: int)
      modifies this`it
      ensures i == old(it) && it == i - 1
    {
      i := it;
      it := it - 1;
    }

    /** The stack holds these operators, bottom first. */
    ghost predicate HoldsOps(ops: seq<char>)
      reads this, stack
    {
      && |ops| == it + 1 <= stack.Length == stackLen + 1
      && forall j :: 0 <= j < |ops| ==> stack[j].numOp == [ops[j]]
    }

    /** The stack holds these numbers as decimal text, bottom first. */
    ghost predicate HoldsNums(st: seq<int>)
      reads this, stack
    {
      && |st| == it + 1 <= stack.Length == stackLen + 1
      && forall j :: 0 <= j < |st| ==> FitsInt(st[j]) && stack[j].numOp == PrintInt(st[j])
    }

    method PushOp(op: char, ghost ops: seq<char>)
      requires HoldsOps(ops) && it < stackLen
      modifies this`it, stack
      ensures HoldsOps(ops + [op])
    {
      var _ := StackPush(0, [op]);
      assert forall j :: 0 <= j < it ==> stack[j] == stack[..][j] == old(stack[..])[j];
    }

    /** The machine state of `mtob`: operators `c.ops` on the stack, the text of
        `c.out` in the first `bi` cells of the buffer. */
    ghost predicate At(c: Conf, bstr: array<char>, bi: nat)
      reads this, stack, bstr
    {
      HoldsOps(c.ops) && bi == |PostfixText(c.out)| && Filled(bstr[..], PostfixText(c.out))
    }

    /** Pop the top operator and append it and a space to the output. */
    method MoveTop(bstr: array<char>, bi: nat, ghost ops: seq<char>, ghost text: string) returns (bi': nat)
      requires ops != [] && HoldsOps(ops)
      requires Filled(bstr[..], text) && bi == |text| && bi + 2 < bstr.Length
      modifies this`it, bstr
      ensures HoldsOps(Init(ops)) && Filled(bstr[..], text + [Last(ops)] + " ") && bi' == bi + 2
    {
      var i := StackPop();
      bi' := Append(bstr, bi, stack[i].numOp, text);
      bi' := AppendChar(bstr, bi', ' ', text + [Last(ops)]);
    }

    method EmitTop(bstr: array<char>, bi: nat, ghost c: Conf) returns (bi': nat)
      requires c.ops != [] && At(c, bstr, bi) && bi + 2 < bstr.Length
      modifies this`it, bstr
      ensures At(Emit(c), bstr, bi') && bi' == bi + 2
    {
      PostfixTextSnoc(c.out, Op(Last(c.ops)));
      bi' := MoveTop(bstr, bi, c.ops, PostfixText(c.out));
    }

    /** The loop of the `)` branch. */
    method EmitGroup(bstr: array<char>, bi: nat, ghost c0: Conf) returns (bi': nat, ghost c: Conf)
      requires At(c0, bstr, bi) && bi + 2 * |c0.ops| < bstr.Length
      requires EmitToParen(c0).Some?
      modifies this`it, bstr
      ensures At(c, bstr, bi') && c.ops != [] && Last(c.ops) == '(' && EmitToParen(c) == EmitToParen(c0)
      ensures bi' + 2 * |c.ops| == bi + 2 * |c0.ops|
    {
      bi', c := bi, c0;
      while stack[it].numOp[0] != '('
        invariant c.ops != [] && At(c, bstr, bi') && EmitToParen(c) == EmitToParen(c0)
        invariant bi' + 2 * |c.ops| == bi + 2 * |c0.ops|
        decreases |c.ops|
      {
        bi' := EmitTop(bstr, bi', c);
        c := Emit(c);
      }
    }

    /** The loop of the operator branch. */
    method EmitOperators(op: char, bstr: array<char>, bi: nat, ghost c0: Conf) returns (bi': nat, ghost c: Conf)
      requires At(c0, bstr, bi) && bi + 2 * |c0.ops| < bstr.Length && c0.ops != []
      requires op != ')' && EmitTighter(op, c0).Some?
      modifies this`it, bstr
      ensures c == EmitTighter(op, c0).value && At(c, bstr, bi')
      ensures bi' + 2 * |c.ops| == bi + 2 * |c0.ops| && it <= old(it)
    {
      bi', c := bi, c0;
      while Prio(op) <= Prio(stack[it].numOp[0])
        invariant c.ops != [] && At(c, bstr, bi') && EmitTighter(op, c) == EmitTighter(op, c0)
        invariant bi' + 2 * |c.ops| == bi + 2 * |c0.ops| && it <= old(it)
        decreases |c.ops|
      {
        bi' := EmitTop(bstr, bi', c);
        c := Emit(c);
        if it == -1 {
          break;
        }
      }
    }

    /** The branches for one operator or parenthesis. */
    method ReadOp(op: char, bstr: array<char>, bi: nat, ghost c0: Conf) returns (bi': nat, ghost c: Conf)
      requires At(c0, bstr, bi) && it < stackLen && bi + 2 * |c0.ops| < bstr.Length
      requires Step(Op(op), c0).Some?
      modifies this`it, stack, bstr
      ensures c == Step(Op(op), c0).value && At(c, bstr, bi')
      ensures bi' + 2 * |c.ops| <= bi + 2 * |c0.ops| + 2
    {
      bi' := bi;
      if it == -1 || op == '(' {
        PushOp(op, c0.ops);
        c := Push(op, c0);
      } else if op == ')' {
        bi', c := EmitGroup(bstr, bi, c0);
        var _ := StackPop();
        c := Conf(Init(c.ops), c.out);
      } else {
        bi', c := EmitOperators(op, bstr, bi, c0);
        PushOp(op, c.ops);
        c := Push(op, c);
      }
    }

    /** sprintf(bstr + bi, "%d ", n) */
    method WriteNumber(n: nat, bstr: array<char>, bi: nat, ghost c: Conf) returns (bi': nat)
      requires At(c, bstr, bi) && bi + |PrintInt(n)| + 1 < bstr.Length
      modifies bstr
      ensures At(Conf(c.ops, c.out + [Num(n)]), bstr, bi') && bi' == bi + |PrintInt(n)| + 1
    {
      PostfixTextSnoc(c.out, Num(n));
      ghost var text := PostfixText(c.out);
      assert text + (TokenText(Num(n)) + " ") == text + TokenText(Num(n)) + " ";
      bi' := Append(bstr, bi, PrintInt(n) + " ", text);
    }

    /** The branch for a number. */
    method ReadNumber(s: string, i: nat, bstr: array<char>, bi: nat, ghost toks: seq<Token>, ghost c: Conf)
      returns (i': nat, bi': nat, ghost c': Conf)
      requires LexesTo(s, i, toks) && i < |s| && !IsLegalOp(s[i]) && s[i] != ' '
      requires At(c, bstr, bi) && bi + |s| - i + 1 < bstr.Length
      modifies bstr
      ensures i < i' && toks != [] && LexesTo(s, i', toks[1..])
      ensures Step(toks[0], c) == Some(c') && At(c', bstr, bi') && c'.ops == c.ops && bi' <= bi + 2 * (i' - i)
    {
      LexNumber(s, i, toks);
      var num := ScanInt(s[i..]);
      i', c' := i + num.consumed, Conf(c.ops, c.out + [toks[0]]);
      bi' := WriteNumber(num.value, bstr, bi, c);
    }

    /** One iteration of the main loop: a space, or (`took`) the next token. */
    method ReadItem(s: string, i: nat, bstr: array<char>, bi: nat, ghost toks: seq<Token>, ghost c: Conf)
      returns (i': nat, bi': nat, ghost c': Conf, ghost took: bool)
      requires i < |s| && LexesTo(s, i, toks) && (toks == [] || Step(toks[0], c).Some?)
      requires At(c, bstr, bi) && bi + 2 * |c.ops| <= 2 * i
      requires stackLen == |s| && bstr.Length == (|s| + 1) * 2
      modifies this`it, stack, bstr
      ensures i < i' <= |s| && At(c', bstr, bi') && bi' + 2 * |c'.ops| <= 2 * i'
      ensures !took ==> LexesTo(s, i', toks) && c' == c
      ensures took ==> toks != [] && LexesTo(s, i', toks[1..]) && Step(toks[0], c) == Some(c')
    {
      i', bi', c', took := i, bi, c, false;
      var op := s[i];
      if IsLegalOp(op) {
        LexOperator(s, i, toks);
        i', took := i + 1, true;
        bi', c' := ReadOp(op, bstr, bi, c);
      } else if op == ' ' {
        LexSpace(s, i, toks);
        i' := i + 1;
      } else {
        i', bi', c' := ReadNumber(s, i, bstr, bi, toks, c);
        took := true;
      }
    }

    /** The main loop. */
    method Scan(s: string, bstr: array<char>, ghost toks: seq<Token>) returns (bi: nat, ghost c: Conf)
      requires Lex(s) == Some(toks) && Run(toks, START).Some?
      requires At(START, bstr, 0) && stackLen == |s| && bstr.Length == (|s| + 1) * 2
      modifies this`it, stack, bstr
      ensures c == Run(toks, START).value && At(c, bstr, bi) && bi + 2 * |c.ops| <= 2 * |s|
    {
      var i: nat := 0;
      ghost var rest := toks;
      ghost var took;
      bi, c := 0, START;
      assert s[0..] == s;
      while i < |s|
        invariant LexesTo(s, i, rest) && Run(rest, c) == Run(toks, START)
        invariant At(c, bstr, bi) && bi + 2 * |c.ops| <= 2 * i
      {
        i, bi, c, took := ReadItem(s, i, bstr, bi, rest, c);
        rest := if took then rest[1..] else rest;
      }
    }

    /** Compile infix text to postfix text. The output is at most twice as long
        as the input, so it fits the buffer, and every array access here is in
        bounds; the stack is left as empty as it was found. */
    method Mtob(s: string, ghost toks: seq<Token>) returns (bstr: array<char>)
      requires it == -1
      requires Lex(s) == Some(toks) && Compile(toks).Some?
      modifies this
      ensures it == -1
      ensures fresh(bstr) && bstr.Length == (|s| + 1) * 2
      ensures |PostfixText(Compile(toks).value)| <= 2 * |s|
      ensures CText(bstr, PostfixText(Compile(toks).value))
    {
      bstr := new char[(|s| + 1) * 2](_ => '\0');
      StackInit(|s|);
      if |s| == 0 {
        return;
      }
      var bi: nat, c := Scan(s, bstr, toks);
      while it != -1
        invariant At(c, bstr, bi) && Drain(c) == Compile(toks).value
        invariant bi + 2 * |c.ops| <= 2 * |s|
        decreases |c.ops|
      {
        bi := EmitTop(bstr, bi, c);
        c := Emit(c);
      }
    }

    // ----- running the postfix text -----

    method PushNum(n: int, ghost st: seq<int>)
      requires HoldsNums(st) && it < stackLen && FitsInt(n)
      modifies this`it, stack
      ensures HoldsNums(st + [n])
    {
      PrintIntShort(n);
      var _ := StackPush(1, PrintInt(n));
      assert forall j :: 0 <= j < it ==> stack[j] == stack[..][j] == old(stack[..])[j];
    }

    /** Pop an entry and read its text back as a number. */
    method PopNum(ghost st: seq<int>) returns (n: int)
      requires HoldsNums(st) && st != []
      modifies this`it
      ensures HoldsNums(Init(st)) && n == Last(st)
    {
      var i := StackPop();
      ScanPrint(Last(st), "");
      assert PrintInt(Last(st)) + "" == PrintInt(Last(st));
      n := ScanInt(stack[i].numOp).value;
    }

    /** The operator branch: pop two texts, compute, push the result as text. */
    method ApplyOp(op: char, ghost st: seq<int>)
      requires HoldsNums(st) && it <= stackLen && Exec(Op(op), st).Some?
      modifies this`it, stack
      ensures HoldsNums(Exec(Op(op), st).value)
    {
      var a1 := PopNum(st);
      var a2 := PopNum(Init(st));
      var result := DoOneCal(op, a1, a2).value;
      PushNum(result, Init(Init(st)));
    }

    /** The branch for a number. */
    method ExecuteNumber(s: string, i: nat, ghost toks: seq<Token>, ghost st: seq<int>)
      returns (i': nat, ghost st': seq<int>)
      requires LexesTo(s, i, toks) && i < |s| && !IsLegalOp(s[i]) && s[i] != ' '
      requires HoldsNums(st) && it < stackLen
      modifies this`it, stack
      ensures i < i' && toks != [] && LexesTo(s, i', toks[1..])
      ensures Exec(toks[0], st) == Some(st') && HoldsNums(st')
    {
      var num, consumed := ScanNumber(s, i, toks);
      i', st' := i + consumed, st + [num];
      PushNum(num, st);
    }

    /** One iteration of the main loop of `cal_bstr`: a space, or (`took`) the
        next token. */
    method ExecuteItem(s: string, i: nat, ghost toks: seq<Token>, ghost st: seq<int>)
      returns (i': nat, ghost st': seq<int>, ghost took: bool)
      requires i < |s| && LexesTo(s, i, toks) && (toks == [] || Exec(toks[0], st).Some?)
      requires HoldsNums(st) && |st| <= i && stackLen == |s|
      modifies this`it, stack
      ensures i < i' <= |s| && HoldsNums(st') && |st'| <= i'
      ensures !took ==> LexesTo(s, i', toks) && st' == st
      ensures took ==> toks != [] && LexesTo(s, i', toks[1..]) && Exec(toks[0], st) == Some(st')
    {
      i', st', took := i, st, false;
      var op := s[i];
      if IsLegalOp(op) {
        LexOperator(s, i, toks);
        i', took := i + 1, true;
        ApplyOp(op, st);
        st' := Exec(Op(op), st).value;
      } else if op == ' ' {
        LexSpace(s, i, toks);
        i' := i + 1;
      } else {
        i', st' := ExecuteNumber(s, i, toks, st);
        took := true;
      }
    }

    /** The main loop of `cal_bstr`. */
    method Execute(s: string, ghost toks: seq<Token>) returns (ghost st: seq<int>)
      requires Lex(s) == Some(toks) && ExecAll(toks, []).Some?
      requires HoldsNums([]) && stackLen == |s|
      modifies this`it, stack
      ensures st == ExecAll(toks, []).value && HoldsNums(st)
    {
      var i: nat := 0;
      ghost var rest, took := toks, false;
      st := [];
      assert s[0..] == s;
      while i < |s|
        invariant LexesTo(s, i, rest) && ExecAll(rest, st) == ExecAll(toks, [])
        invariant HoldsNums(st) && |st| <= i
      {
        i, st, took := ExecuteItem(s, i, rest, st);
        rest := if took then rest[1..] else rest;
      }
    }

    /** Run the postfix program in `bstr` on the stack of decimal texts. The
        result is the top of the stack it leaves; `it` is back at -1 exactly
        when that was the only entry. */
    method CalBstr(bstr: array<char>, ghost text: string, ghost toks: seq<Token>) returns (r: int)
      requires it == -1
      requires CText(bstr, text) && Lex(text) == Some(toks)
      requires text == "" || (ExecAll(toks, []).Some? && ExecAll(toks, []).value != [])
      modifies this
      ensures text == "" ==> r == 0 && it == -1
      ensures text != "" ==> var st := ExecAll(toks, []).value; r == Last(st) && it == |st| - 2
    {
      LexedCharacters(text);
      var strLen := StrLen(bstr, text);
      StackInit(strLen);
      if strLen <= 0 {
        return 0;
      }
      var s := bstr[..strLen];
      var st := Execute(s, toks);
      r := PopNum(st);
    }

    /** mtob() and cal_bstr() in a row, on any text whose postfix program runs,
        expression or not: the index is left at the number of results minus 2. */
    method CompileAndRun(s: string, ghost toks: seq<Token>, ghost post: seq<Token>) returns (r: int)
      requires it == -1 && Lex(s) == Some(toks) && Compile(toks) == Some(post)
      requires ExecAll(post, []).Some?
      modifies this
      ensures post == [] ==> r == 0 && it == -1
      ensures post != [] ==> var st := ExecAll(post, []).value; st != [] && r == Last(st) && it == |st| - 2
    {
      PostfixTextRelexes(s);
      var sb := Mtob(s, toks);
      if post != [] {
        ResultLeft(post, []);
        assert PostfixText(post) != "";
      }
      r := CalBstr(sb, PostfixText(post), post);
    }

    /** calculate(): the value of every well-formed text, 0 for a blank one, and
        the global index restored for the next call. */
    method Calculate(s: string, ghost v: int) returns (r: int)
      requires it == -1 && Denotes(s, v)
      modifies this
      ensures r == v && it == -1
    {
      MeaningIsComputed(s, v);
      r := CompileAndRun(s, Lex(s).value, Compile(Lex(s).value).value);
    }

    /** mtob() up to its first push, on a text whose first token is `(`: it reads
        spaces, which leave the stack alone, and then pushes. */
    method UpToFirstPush(s: string) returns (i: nat)
      requires Lex(s).Some? && Lex(s).value != [] && Lex(s).value[0] == Op('(')
      modifies this
      ensures fresh(stack) && stack.Length == |s| + 1 && stackLen == |s| && it == old(it)
      ensures i < |s| && s[i] == '(' && forall j :: 0 <= j < i ==> s[j] == ' '
    {
      StackInit(|s|);
      i := 0;
      ghost var toks := Lex(s).value;
      assert s[0..] == s;
      while !IsLegalOp(s[i])
        invariant i < |s| && LexesTo(s, i, toks) && forall j :: 0 <= j < i ==> s[j] == ' '
        invariant fresh(stack) && stack.Length == |s| + 1 && stackLen == |s| && it == old(it)
        decreases |s| - i
      {
        if s[i] != ' ' {
          LexNumber(s, i, toks);
          assert false;
        }
        LexSpace(s, i, toks);
        assert s[i + 1..] != "";
        i := i + 1;
      }
      LexOperator(s, i, toks);
    }

    /** What a stale index can do: n + 2 numbers without an operator leave the
        index at n. A call on any text of length n that opens with `(`, however
        well-formed, then makes its first push out of bounds. Callers that check
        `it == -1` are safe. */
    method StaleIndexOverflows(ns: seq<nat>, s: string) returns (i: nat)
      requires it == -1 && |ns| == |s| + 2 && forall n :: n in ns ==> FitsInt(n)
      requires Lex(s).Some? && Lex(s).value != [] && Lex(s).value[0] == Op('(')
      modifies this
      ensures i < |s| && s[i] == '(' && forall j :: 0 <= j < i ==> s[j] == ' '
      ensures it == stackLen == |s| && !PushInBounds()
    {
      var toks := NumTokens(ns);
      NumbersCompile(ns);
      LexPostfixText(toks);
      var _ := CompileAndRun(PostfixText(toks), toks, toks);
      i := UpToFirstPush(s);
    }

    /** For example 1 2 3 4 5, then (1): the first character is pushed beyond the
        stack. */
    method StaleIndexExample() returns (i: nat)
      requires it == -1
      modifies this
      ensures Denotes("(1)", 1) && i == 0 && it == stackLen == |"(1)"| && !PushInBounds()
    {
      ParenthesizedOne();
      i := StaleIndexOverflows([1, 2, 3, 4, 5], "(1)");
    }

    /** Any number of calculations in a row on the one global stack. */
    method CalculateAll(inputs: seq<string>, ghost vs: seq<int>) returns (rs: seq<int>)
      requires it == -1
      requires |vs| == |inputs| && forall i :: 0 <= i < |inputs| ==> Denotes(inputs[i], vs[i])
      modifies this
      ensures rs == vs && it == -1
    {
      rs := [];
      for i := 0 to |inputs|
        invariant it == -1 && rs == vs[..i]
      {
        var r := Calculate(inputs[i], vs[i]);
        rs := rs + [r];
      }
    }
  }
}
