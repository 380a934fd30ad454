/** The one-pass calculator of `double_stack_224.c`: bounded operator and number
    stacks, updated in place. */
module TwoStackCalculator {
  import opened Sequences
  import opened Expressions
  import opened Lexer
  import opened StackMachine
  import opened ShuntingYard
  import opened TwoStacks
  import opened Meaning

  /** A stack of at most `maxSize` entries. Popping or reading an empty one
      gives `zero`; pushing on a full one is dropped. `data` is null while the
      program has not set the pointer, or no longer owns what it points to. */
  class Stack<T> {
    var it: int
    var data: array?<T>
    const maxSize: int
    const zero: T

    ghost predicate Valid()
      reads this
    {
      -1 <= it < maxSize && (maxSize > 0 ==> data != null && data.Length == maxSize)
    }

    ghost function Contents(): (s: seq<T>)
      requires Valid()
      reads this, data
      ensures |s| == it + 1
    {
      if maxSize == 0 then [] else data[..it + 1]
    }

    /** stack_init() sets `data` for a positive size only. */
    constructor (size: nat, zero: T)
      ensures Valid() && Contents() == [] && maxSize == size && this.zero == zero
      ensures (data != null <==> size > 0) && (data != null ==> fresh(data))
    {
      it := -1;
      maxSize := size;
      this.zero := zero;
      data := null;
      if size > 0 {
        data := new T[size](_ => zero);
      }
    }

    predicate IsEmpty()
      reads this
    {
      it == -1
    }

    predicate IsFull()
      reads this
    {
      it == maxSize - 1
    }

    method Top() returns (e: T)
      requires Valid()
      ensures e == if Contents() == [] then zero else Last(Contents())
    {
      e := if !IsEmpty() then data[it] else zero;
    }

    method Push(e: T)
      requires Valid()
      modifies this`it, data
      ensures Valid()
      ensures Contents() == if old(|Contents()|) < maxSize then old(Contents()) + [e] else old(Contents())
    {
      if !IsFull() {
        it := it + 1;
        data[it] := e;
      }
    }

    method Pop() returns (e: T)
      requires Valid()
      modifies this`it, data
      ensures Valid()
      ensures old(Contents()) == [] ==> e == zero && Contents() == []
      ensures old(Contents()) != [] ==> e == Last(old(Contents())) && Contents() == Init(old(Contents()))
    {
      if !IsEmpty() {
        e := data[it];
        data[it] := zero;
        it := it - 1;
      } else {
        e := zero;
      }
    }

    /** stack_free(): defined only for a pointer that was set. */
    method Free()
      requires data != null
      modifies this`data
      ensures data == null
    {
      data := null;
    }
  }

  /** The two stacks are in the machine state `d`, within their capacity. */
  ghost predicate Holds(opst: Stack<char>, npst: Stack<int>, d: Eval)
    reads opst, opst.data, npst, npst.data
  {
    && opst.Valid() && npst.Valid() && npst.zero == 0 && opst.zero == '\0'
    && opst.Contents() == d.ops && npst.Contents() == d.nums
  }

  ghost function Size(d: Eval): nat {
    |d.ops| + |d.nums|
  }

  /** pop_and_cal() */
  method PopAndCal(opst: Stack<char>, npst: Stack<int>, ghost d: Eval) returns (thisResult: int)
    requires Holds(opst, npst, d) && d.ops != [] && Reduce(d).Some? && Size(d) <= npst.maxSize
    modifies opst`it, opst.data, npst`it, npst.data
    ensures Holds(opst, npst, Reduce(d).value) && Size(Reduce(d).value) <= Size(d)
    ensures thisResult == Last(Reduce(d).value.nums)
  {
    var thisOp := opst.Pop();
    var a1 := npst.Pop();
    var a2 := npst.Pop();
    thisResult := DoOneCal(thisOp, a1, a2).value;
    npst.Push(thisResult);
  }

  /** pop_and_cal(), then stack_is_empty() and stack_top() of the operators. */
  method ApplyTop(opst: Stack<char>, npst: Stack<int>, ghost d: Eval)
    returns (empty: bool, top: char, ghost d': Eval)
    requires Holds(opst, npst, d) && d.ops != [] && Reduce(d).Some? && Size(d) <= npst.maxSize
    modifies opst`it, opst.data, npst`it, npst.data
    ensures Reduce(d) == Some(d') && Holds(opst, npst, d') && Size(d') <= Size(d) && |d'.ops| < |d.ops|
    ensures empty <==> d'.ops == []
    ensures !empty ==> top == Last(d'.ops)
  {
    var _ := PopAndCal(opst, npst, d);
    d' := Reduce(d).value;
    empty := opst.IsEmpty();
    top := opst.Top();
  }

  /** The loop of the `)` branch. */
  method CloseGroup(opst: Stack<char>, npst: Stack<int>, ghost d0: Eval)
    requires Holds(opst, npst, d0) && ReduceToParen(d0).Some? && Size(d0) <= npst.maxSize
    modifies opst`it, opst.data, npst`it, npst.data
    ensures Holds(opst, npst, ReduceToParen(d0).value) && Size(ReduceToParen(d0).value) < Size(d0)
  {
    ghost var d := d0;
    var top := opst.Top();
    while top != '('
      invariant Holds(opst, npst, d) && ReduceToParen(d) == ReduceToParen(d0)
      invariant d.ops != [] && Size(d) <= Size(d0) && top == Last(d.ops)
      decreases |d.ops|
    {
      var _, next, d' := ApplyTop(opst, npst, d);
      top, d := next, d';
    }
    var _ := opst.Pop();
  }

  /** The loop of the operator branch. */
  method ApplyTighter(op: char, opst: Stack<char>, npst: Stack<int>, ghost d0: Eval)
    requires op != ')' && Holds(opst, npst, d0) && d0.ops != []
    requires ReduceTighter(op, d0).Some? && Size(d0) <= npst.maxSize
    modifies opst`it, opst.data, npst`it, npst.data
    ensures Holds(opst, npst, ReduceTighter(op, d0).value) && Size(ReduceTighter(op, d0).value) <= Size(d0)
  {
    ghost var d := d0;
    var top := opst.Top();
    var empty := false;
    while Prio(op) <= Prio(top)
      invariant Holds(opst, npst, d) && ReduceTighter(op, d) == ReduceTighter(op, d0)
      invariant d.ops != [] && Size(d) <= Size(d0) && top == Last(d.ops) && top != ')'
      decreases |d.ops|
    {
      empty, top, d := ApplyTop(opst, npst, d);
      if empty {
        break;
      }
    }
  }

  /** The branches for one operator or parenthesis. */
  method ReadOp(op: char, opst: Stack<char>, npst: Stack<int>, ghost d: Eval)
    requires Holds(opst, npst, d) && Step2(Op(op), d).Some?
    requires Size(d) < npst.maxSize == opst.maxSize
    modifies opst`it, opst.data, npst`it, npst.data
    ensures Holds(opst, npst, Step2(Op(op), d).value) && Size(Step2(Op(op), d).value) <= Size(d) + 1
  {
    if opst.IsEmpty() || op == '(' {
      opst.Push(op);
    } else if op == ')' {
      CloseGroup(opst, npst, d);
    } else {
      ApplyTighter(op, opst, npst, d);
      opst.Push(op);
    }
  }

  /** The branch for a number. */
  method ReadNumber(s: string, i: nat, opst: Stack<char>, npst: Stack<int>, ghost toks: seq<Token>, ghost d: Eval)
    returns (i': nat)
    requires LexesTo(s, i, toks) && i < |s| && !IsLegalOp(s[i]) && s[i] != ' '
    requires Holds(opst, npst, d) && Size(d) < npst.maxSize
    modifies npst`it, npst.data
    ensures i < i' && toks != [] && LexesTo(s, i', toks[1..])
    ensures Step2(toks[0], d).Some? && Holds(opst, npst, Step2(toks[0], d).value)
    ensures Size(Step2(toks[0], d).value) == Size(d) + 1
  {
    var num, consumed := ScanNumber(s, i, toks);
    i' := i + consumed;
    npst.Push(num);
  }

  /** One iteration of the main loop: a space, or (`took`) the next token. */
  method ReadItem(s: string, i: nat, opst: Stack<char>, npst: Stack<int>, ghost toks: seq<Token>, ghost d: Eval)
    returns (i': nat, ghost took: bool)
    requires i < |s| == npst.maxSize == opst.maxSize && LexesTo(s, i, toks)
    requires toks == [] || Step2(toks[0], d).Some?
    requires Holds(opst, npst, d) && Size(d) <= i
    modifies opst`it, opst.data, npst`it, npst.data
    ensures i < i' <= |s|
    ensures !took ==> LexesTo(s, i', toks) && Holds(opst, npst, d)
    ensures took ==>
              && toks != [] && LexesTo(s, i', toks[1..]) && Step2(toks[0], d).Some?
              && Holds(opst, npst, Step2(toks[0], d).value) && Size(Step2(toks[0], d).value) <= i'
  {
    took := true;
    var op := s[i];
    if IsLegalOp(op) {
      LexOperator(s, i, toks);
      ReadOp(op, opst, npst, d);
      i' := i + 1;
    } else if op == ' ' {
      LexSpace(s, i, toks);
      i', took := i + 1, false;
    } else {
      i' := ReadNumber(s, i, opst, npst, toks, d);
    }
  }

  /** The loop that applies what is left on the operator stack. */
  method ApplyAll(opst: Stack<char>, npst: Stack<int>, ghost d0: Eval) returns (ghost d: Eval)
    requires Holds(opst, npst, d0) && ReduceAll(d0).Some? && Size(d0) <= npst.maxSize
    modifies opst`it, opst.data, npst`it, npst.data
    ensures d == ReduceAll(d0).value && Holds(opst, npst, d)
  {
    d := d0;
    while !opst.IsEmpty()
      invariant Holds(opst, npst, d) && Size(d) <= npst.maxSize && ReduceAll(d) == ReduceAll(d0)
      decreases |d.ops|
    {
      var _ := PopAndCal(opst, npst, d);
      d := Reduce(d).value;
    }
  }

  /** The main loop. */
  method Scan(s: string, opst: Stack<char>, npst: Stack<int>, ghost toks: seq<Token>) returns (ghost d: Eval)
    requires Lex(s) == Some(toks) && Run2(toks, START2).Some?
    requires Holds(opst, npst, START2) && |s| == npst.maxSize == opst.maxSize
    modifies opst`it, opst.data, npst`it, npst.data
    ensures d == Run2(toks, START2).value && Holds(opst, npst, d) && Size(d) <= |s|
  {
    var i: nat := 0;
    ghost var rest, took := toks, false;
    d := START2;
    assert s[0..] == s;
    while i < |s|
      invariant LexesTo(s, i, rest) && Run2(rest, d) == Run2(toks, START2)
      invariant Holds(opst, npst, d) && Size(d) <= i
    {
      i, took := ReadItem(s, i, opst, npst, rest, d);
      if took {
        rest, d := rest[1..], Step2(rest[0], d).value;
      }
    }
  }

  /** The evaluator on every text on which its token machine is defined, up to
      where it frees its stacks. Both can be freed exactly when the text is not
      empty. */
  method Run(s: string, ghost toks: seq<Token>) returns (r: int, opst: Stack<char>, npst: Stack<int>)
    requires Lex(s) == Some(toks) && Evaluate(toks).Some?
    ensures r == Evaluate(toks).value
    ensures fresh(opst) && fresh(npst)
    ensures (opst.data != null <==> s != "") && (npst.data != null <==> s != "")
  {
    npst := new Stack<int>(|s|, 0);
    opst := new Stack<char>(|s|, '\0');
    ghost var d := Scan(s, opst, npst, toks);
    d := ApplyAll(opst, npst, d);
    r := npst.Pop();
  }

  /** calculate() returns the value of every well-formed text (0 for one that is
      all spaces), as the calculator of `224.c` does. On the empty text it frees
      two pointers it never set. */
  method Calculate(s: string, ghost v: int) returns (r: int)
    requires Denotes(s, v) && s != ""
    ensures r == v
  {
    MeaningIsComputed(s, v);
    var opst, npst;
    r, opst, npst := Run(s, Lex(s).value);
    opst.Free();
    npst.Free();
  }
}
