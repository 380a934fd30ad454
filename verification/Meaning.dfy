/** What a calculator input means, and why both programs must return it. */
module Meaning {
  import opened Expressions
  import opened Lexer
  import opened StackMachine
  import opened ShuntingYard
  import opened OperatorStack
  import opened TwoStacks

  /** `s` is blank, which counts as 0, or is a well-formed expression, with any
      spacing, whose evaluation is defined and gives `v`. */
  ghost predicate Denotes(s: string, v: int) {
    || (Lex(s) == Some([]) && v == 0)
    || exists e :: Layered(e) && Lex(s) == Some(Tokens(e)) && Value(e) == Some(v)
  }

  lemma {:induction false} TokensNonEmpty(e: Tree)
    ensures Tokens(e) != [] && Postfix(e) != []
  {
    if e.Paren? {
      TokensNonEmpty(e.inner);
    }
  }

  /** Compiling a meaningful text and running the result on the postfix machine
      leaves exactly its value; the one-pass evaluator returns it too. */
  lemma {:induction false} MeaningIsComputed(s: string, v: int)
    requires Denotes(s, v)
    ensures var toks := Lex(s);
            && toks.Some? && Compile(toks.value).Some?
            && Evaluate(toks.value) == Some(v)
            && var post := Compile(toks.value).value;
               && Lex(PostfixText(post)) == Some(post)
               && ExecAll(post, []) == Some(if post == [] then [] else [v])
               && (post == [] ==> v == 0)
  {
    var toks := Lex(s).value;
    if toks == [] {
      if e :| Layered(e) && Lex(s) == Some(Tokens(e)) && Value(e) == Some(v) {
        TokensNonEmpty(e);
      }
    } else {
      var e :| Layered(e) && Lex(s) == Some(Tokens(e)) && Value(e) == Some(v);
      CompilesToPostfix(e);
      PostfixComputesValue(e, []);
      assert [] + [v] == [v];
      LiteralTokens(e);
      TokensNonEmpty(e);
      LexPostfixText(Postfix(e));
      EvaluateAgrees(toks);
    }
  }

  /** A text has one meaning: precedence and associativity leave no choice. */
  lemma {:induction false} MeaningIsUnique(s: string, v: int, w: int)
    requires Denotes(s, v) && Denotes(s, w)
    ensures v == w
  {
    MeaningIsComputed(s, v);
    MeaningIsComputed(s, w);
  }

  /** A text of the tokens of a layered tree means the value of the tree, and
      nothing if that is undefined. */
  lemma {:induction false} TreeMeaning(s: string, e: Tree, v: int)
    requires Layered(e) && Lex(s) == Some(Tokens(e))
    ensures Denotes(s, v) <==> Value(e) == Some(v)
  {
    TokensNonEmpty(e);
    if Denotes(s, v) {
      var e' :| Layered(e') && Lex(s) == Some(Tokens(e')) && Value(e') == Some(v);
      CompilesToPostfix(e);
      CompilesToPostfix(e');
      PostfixComputesValue(e, []);
      PostfixComputesValue(e', []);
      assert ExecAll(Postfix(e), []).value[0] == v;
    }
  }

  /** Every way of typing a well-formed expression means its value: any number
      of spaces before and after each token, any leading zeros. */
  lemma {:induction false} TypedExpressionMeansItsValue(e: Tree, ps: seq<Piece>, trailing: nat)
    requires Layered(e) && Value(e).Some?
    requires |ps| == |Tokens(e)|
    requires forall i :: 0 <= i < |ps| ==> Typed(ps[i]) && Tokens(e)[i] == TypedToken(ps[i])
    ensures Denotes(Written(ps, trailing), Value(e).value)
  {
    NoAdjacentNumbers(e);
    LexWritten(ps, trailing, Tokens(e));
  }

  /** So does every expression whatsoever, with the value of the tree that
      precedence and associativity give it. */
  lemma {:induction false} AnyExpressionMeansItsValue(e: Tree, ps: seq<Piece>, trailing: nat)
    requires Value(Relayer(e)).Some?
    requires |ps| == |Tokens(e)|
    requires forall i :: 0 <= i < |ps| ==> Typed(ps[i]) && Tokens(e)[i] == TypedToken(ps[i])
    ensures Denotes(Written(ps, trailing), Value(Relayer(e)).value)
  {
    TypedExpressionMeansItsValue(Relayer(e), ps, trailing);
  }
}
