/** The usual grammar of expressions as a reference for what both calculators
    compute: a sum of products of factors, each operator applied to what stands
    on its left. It is written in the symbols of the text and names no tree, no
    priority and no machine. */
module Grammar {
  import opened DecimalText
  import opened Expressions
  import opened Lexer
  import opened OperatorStack
  import opened Meaning

  /** A number, or a sum in parentheses. */
  ghost predicate Factor(t: seq<Token>, v: int)
    decreases |t|, 0
  {
    || (|t| == 1 && t[0].Num? && t[0].n == v && FitsInt(v))
    || (|t| >= 2 && t[0] == Op('(') && t[|t| - 1] == Op(')') && Sum(t[1..|t| - 1], v))
  }

  /** Factors joined by `*` and `/`. */
  ghost predicate Product(t: seq<Token>, v: int)
    decreases |t|, 1
  {
    || Factor(t, v)
    || exists k, x, y :: ProductAt(t, v, k, x, y)
  }

  ghost predicate ProductAt(t: seq<Token>, v: int, k: int, x: int, y: int)
    decreases |t|, 0
  {
    && 0 <= k < |t| && Product(t[..k], x) && Factor(t[k + 1..], y) && FitsInt(v)
    && ((t[k] == Op('*') && v == x * y) || (t[k] == Op('/') && y != 0 && v == TruncDiv(x, y)))
  }

  /** Products joined by `+` and `-`. */
  ghost predicate Sum(t: seq<Token>, v: int)
    decreases |t|, 2
  {
    || Product(t, v)
    || exists k, x, y :: SumAt(t, v, k, x, y)
  }

  ghost predicate SumAt(t: seq<Token>, v: int, k: int, x: int, y: int)
    decreases |t|, 0
  {
    && 0 <= k < |t| && Sum(t[..k], x) && Product(t[k + 1..], y) && FitsInt(v)
    && ((t[k] == Op('+') && v == x + y) || (t[k] == Op('-') && v == x - y))
  }

  // ----- every tree is read by the grammar -----

  lemma {:induction false} SplitAtOperator(l: seq<Token>, t: Token, r: seq<Token>)
    ensures (l + [t] + r)[..|l|] == l && (l + [t] + r)[|l|] == t && (l + [t] + r)[|l| + 1..] == r
  {
  }

  lemma {:induction false} ReadsSum(a: seq<Token>, c: char, b: seq<Token>, x: int, y: int, v: int)
    requires Sum(a, x) && Product(b, y) && FitsInt(v)
    requires (c == '+' && v == x + y) || (c == '-' && v == x - y)
    ensures Sum(a + [Op(c)] + b, v)
  {
    SplitAtOperator(a, Op(c), b);
    assert SumAt(a + [Op(c)] + b, v, |a|, x, y);
  }

  lemma {:induction false} ReadsProduct(a: seq<Token>, c: char, b: seq<Token>, x: int, y: int, v: int)
    requires Product(a, x) && Factor(b, y) && FitsInt(v)
    requires (c == '*' && v == x * y) || (c == '/' && y != 0 && v == TruncDiv(x, y))
    ensures Product(a + [Op(c)] + b, v)
  {
    SplitAtOperator(a, Op(c), b);
    assert ProductAt(a + [Op(c)] + b, v, |a|, x, y);
  }

  lemma {:induction false} ReadsParen(t: seq<Token>, v: int)
    requires Sum(t, v)
    ensures Factor([Op('(')] + t + [Op(')')], v)
  {
    var p := [Op('(')] + t + [Op(')')];
    assert p[1..|p| - 1] == t;
  }

  /** The grammar reads a layered tree at the layer of its outermost construct. */
  ghost predicate IsRead(e: Tree, v: int) {
    && Sum(Tokens(e), v)
    && (Binding(e) >= 2 ==> Product(Tokens(e), v))
    && (Binding(e) == 3 ==> Factor(Tokens(e), v))
  }

  lemma {:induction false} BinaryIsRead(l: Tree, op: BinOp, r: Tree, x: int, y: int, v: int)
    requires Level(op) <= Binding(l) && Level(op) < Binding(r)
    requires IsRead(l, x) && IsRead(r, y) && Apply(op, x, y) == Some(v)
    ensures IsRead(Binary(l, op, r), v)
  {
    if Level(op) == 1 {
      ReadsSum(Tokens(l), Symbol(op), Tokens(r), x, y, v);
    } else {
      ReadsProduct(Tokens(l), Symbol(op), Tokens(r), x, y, v);
    }
  }

  lemma {:induction false} TreeIsRead(e: Tree, v: int)
    requires Layered(e) && Value(e) == Some(v)
    ensures IsRead(e, v)
  {
    match e
    case Literal(n) =>
    case Paren(inner) =>
      TreeIsRead(inner, v);
      ReadsParen(Tokens(inner), v);
    case Binary(l, op, r) =>
      TreeIsRead(l, Value(l).value);
      TreeIsRead(r, Value(r).value);
      BinaryIsRead(l, op, r, Value(l).value, Value(r).value, v);
  }

  // ----- everything the grammar reads is a tree -----

  ghost predicate IsTree(e: Tree, t: seq<Token>, v: int, binding: nat) {
    Layered(e) && Tokens(e) == t && Value(e) == Some(v) && Binding(e) >= binding
  }

  lemma {:induction false} FactorIsTree(t: seq<Token>, v: int) returns (e: Tree)
    requires Factor(t, v)
    ensures IsTree(e, t, v, 3)
    decreases |t|, 0
  {
    if |t| == 1 && t[0].Num? && t[0].n == v && FitsInt(v) {
      e := Literal(v);
    } else {
      var inner := SumIsTree(t[1..|t| - 1], v);
      e := Paren(inner);
      assert t == [Op('(')] + t[1..|t| - 1] + [Op(')')];
    }
  }

  lemma {:induction false} ProductIsTree(t: seq<Token>, v: int) returns (e: Tree)
    requires Product(t, v)
    ensures IsTree(e, t, v, 2)
    decreases |t|, 1
  {
    if Factor(t, v) {
      e := FactorIsTree(t, v);
    } else {
      var k, x, y :| ProductAt(t, v, k, x, y);
      var l := ProductIsTree(t[..k], x);
      var r := FactorIsTree(t[k + 1..], y);
      e := Binary(l, if t[k] == Op('*') then Mul else Div, r);
      assert t == t[..k] + [t[k]] + t[k + 1..];
    }
  }

  lemma {:induction false} SumIsTree(t: seq<Token>, v: int) returns (e: Tree)
    requires Sum(t, v)
    ensures IsTree(e, t, v, 1)
    decreases |t|, 2
  {
    if Product(t, v) {
      e := ProductIsTree(t, v);
    } else {
      var k, x, y :| SumAt(t, v, k, x, y);
      var l := SumIsTree(t[..k], x);
      var r := ProductIsTree(t[k + 1..], y);
      e := Binary(l, if t[k] == Op('+') then Add else Sub, r);
      assert t == t[..k] + [t[k]] + t[k + 1..];
    }
  }

  /** What a text means to the calculators is what the grammar says: precedence,
      associativity, parentheses and arithmetic, for every text and value. */
  lemma {:induction false} MeaningIsGrammar(s: string, v: int)
    ensures Denotes(s, v) <==>
            Lex(s).Some? && if Lex(s).value == [] then v == 0 else Sum(Lex(s).value, v)
  {
    if Denotes(s, v) && Lex(s).value != [] {
      var e :| Layered(e) && Lex(s) == Some(Tokens(e)) && Value(e) == Some(v);
      TreeIsRead(e, v);
    }
    if Denotes(s, v) && Lex(s).value == [] {
      if e :| Layered(e) && Lex(s) == Some(Tokens(e)) && Value(e) == Some(v) {
        TokensNonEmpty(e);
      }
    }
    if Lex(s).Some? && Lex(s).value != [] && Sum(Lex(s).value, v) {
      var e := SumIsTree(Lex(s).value, v);
      assert Layered(e) && Lex(s) == Some(Tokens(e)) && Value(e) == Some(v);
    }
  }

  // ----- what that comes to for one and two operators -----

  /** One operator between two factors computes what C computes. */
  lemma {:induction false} OneOperator(s: string, p: seq<Token>, c: char, q: seq<Token>, x: int, y: int)
    requires Factor(p, x) && Factor(q, y) && Lex(s) == Some(p + [Op(c)] + q)
    ensures c == '+' && FitsInt(x + y) ==> Denotes(s, x + y)
    ensures c == '-' && FitsInt(x - y) ==> Denotes(s, x - y)
    ensures c == '*' && FitsInt(x * y) ==> Denotes(s, x * y)
    ensures c == '/' && y != 0 && FitsInt(TruncDiv(x, y)) ==> Denotes(s, TruncDiv(x, y))
  {
    if c == '+' && FitsInt(x + y) {
      ReadsSum(p, c, q, x, y, x + y);
      MeaningIsGrammar(s, x + y);
    } else if c == '-' && FitsInt(x - y) {
      ReadsSum(p, c, q, x, y, x - y);
      MeaningIsGrammar(s, x - y);
    } else if c == '*' && FitsInt(x * y) {
      ReadsProduct(p, c, q, x, y, x * y);
      MeaningIsGrammar(s, x * y);
    } else if c == '/' && y != 0 && FitsInt(TruncDiv(x, y)) {
      ReadsProduct(p, c, q, x, y, TruncDiv(x, y));
      MeaningIsGrammar(s, TruncDiv(x, y));
    }
  }

  /** A product on the right of a plus or minus is computed first. */
  lemma {:induction false} ProductFirst(s: string, p: seq<Token>, c: char, q: seq<Token>, r: seq<Token>,
                                        x: int, y: int, z: int)
    requires Factor(p, x) && Factor(q, y) && Factor(r, z) && FitsInt(y * z)
    requires Lex(s) == Some(p + [Op(c)] + (q + [Op('*')] + r))
    ensures c == '+' && FitsInt(x + y * z) ==> Denotes(s, x + y * z)
    ensures c == '-' && FitsInt(x - y * z) ==> Denotes(s, x - y * z)
  {
    ReadsProduct(q, '*', r, y, z, y * z);
    if c == '+' && FitsInt(x + y * z) {
      ReadsSum(p, c, q + [Op('*')] + r, x, y * z, x + y * z);
      MeaningIsGrammar(s, x + y * z);
    } else if c == '-' && FitsInt(x - y * z) {
      ReadsSum(p, c, q + [Op('*')] + r, x, y * z, x - y * z);
      MeaningIsGrammar(s, x - y * z);
    }
  }

  /** Subtractions are computed from the left. */
  lemma {:induction false} LeftFirst(s: string, p: seq<Token>, q: seq<Token>, r: seq<Token>, x: int, y: int, z: int)
    requires Factor(p, x) && Factor(q, y) && Factor(r, z) && FitsInt(x - y) && FitsInt(x - y - z)
    requires Lex(s) == Some(p + [Op('-')] + q + [Op('-')] + r)
    ensures Denotes(s, x - y - z)
  {
    ReadsSum(p, '-', q, x, y, x - y);
    ReadsSum(p + [Op('-')] + q, '-', r, x - y, z, x - y - z);
    MeaningIsGrammar(s, x - y - z);
  }

  predicate Tight(c: char) {
    c == '*' || c == '/'
  }

  function OpOf(c: char): (op: BinOp)
    requires Operator(c)
    ensures Symbol(op) == c
  {
    if c == '+' then Add else if c == '-' then Sub else if c == '*' then Mul else Div
  }

  function InParens(t: seq<Token>): seq<Token> {
    [Op('(')] + t + [Op(')')]
  }

  lemma {:induction false} RightGroup(x: Tree, o: BinOp, y: Tree, p: BinOp, z: Tree)
    ensures var e, e' := Binary(x, o, Binary(y, p, z)), Binary(x, o, Paren(Binary(y, p, z)));
            && Tokens(e) == Tokens(x) + [Op(Symbol(o))] + Tokens(y) + [Op(Symbol(p))] + Tokens(z)
            && Tokens(e') == Tokens(x) + [Op(Symbol(o))] + InParens(Tokens(y) + [Op(Symbol(p))] + Tokens(z))
            && Value(e) == Value(e')
  {
    var inner := Binary(y, p, z);
    assert Value(Paren(inner)) == Value(inner);
    assert Tokens(x) + [Op(Symbol(o))] + Tokens(y) + [Op(Symbol(p))] + Tokens(z)
        == Tokens(x) + [Op(Symbol(o))] + (Tokens(y) + [Op(Symbol(p))] + Tokens(z));
  }

  lemma {:induction false} LeftGroup(x: Tree, o: BinOp, y: Tree, p: BinOp, z: Tree)
    ensures var e, e' := Binary(Binary(x, o, y), p, z), Binary(Paren(Binary(x, o, y)), p, z);
            && Tokens(e) == Tokens(x) + [Op(Symbol(o))] + Tokens(y) + [Op(Symbol(p))] + Tokens(z)
            && Tokens(e') == InParens(Tokens(x) + [Op(Symbol(o))] + Tokens(y)) + [Op(Symbol(p))] + Tokens(z)
            && Value(e) == Value(e')
  {
    var inner := Binary(x, o, y);
    assert Value(Paren(inner)) == Value(inner);
  }

  /** Between any operands, numbers or parenthesised, with any two operators: the
      second one goes first exactly when it is `*` or `/` and the first is not.
      Parentheses that say so do not change the meaning, and leave it undefined
      for the same texts. */
  lemma {:induction false} ParenthesesSayThePrecedence(s: string, s': string, x: Tree, c: char, y: Tree, d: char,
                                                       z: Tree)
    requires Layered(x) && Layered(y) && Layered(z) && !x.Binary? && !y.Binary? && !z.Binary?
    requires Operator(c) && Operator(d)
    requires Lex(s) == Some(Tokens(x) + [Op(c)] + Tokens(y) + [Op(d)] + Tokens(z))
    requires Lex(s') == Some(if Tight(d) && !Tight(c)
                             then Tokens(x) + [Op(c)] + InParens(Tokens(y) + [Op(d)] + Tokens(z))
                             else InParens(Tokens(x) + [Op(c)] + Tokens(y)) + [Op(d)] + Tokens(z))
    ensures forall v :: Denotes(s, v) <==> Denotes(s', v)
  {
    var o, p := OpOf(c), OpOf(d);
    var e, e';
    if Tight(d) && !Tight(c) {
      e, e' := Binary(x, o, Binary(y, p, z)), Binary(x, o, Paren(Binary(y, p, z)));
      RightGroup(x, o, y, p, z);
    } else {
      e, e' := Binary(Binary(x, o, y), p, z), Binary(Paren(Binary(x, o, y)), p, z);
      LeftGroup(x, o, y, p, z);
    }
    forall v ensures Denotes(s, v) <==> Denotes(s', v) {
      TreeMeaning(s, e, v);
      TreeMeaning(s', e', v);
    }
  }
}
