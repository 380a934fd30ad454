/** Reading calculator text as tokens: the order of tests is the one both
    programs use at each index (operator, then space, then number). */
module Lexer {
  import opened DecimalText
  import opened Expressions

  predicate IsLegalOp(c: char) {
    c == '+' || c == '-' || c == '*' || c == '/' || c == '(' || c == ')'
  }

  function Prepend(t: Token, rest: Option<seq<Token>>): Option<seq<Token>> {
    if rest.Some? then Some([t] + rest.value) else None
  }

  /** The tokens of a text, or None where the programs define no result: a
      character that starts no token, or a literal too big for an int. */
  function Lex(s: string): Option<seq<Token>> {
    if s == "" then Some([])
    else if IsLegalOp(s[0]) then Prepend(Op(s[0]), Lex(s[1..]))
    else if s[0] == ' ' then Lex(s[1..])
    else
      var k := DigitRun(s);
      if k == 0 || !FitsInt(NatOf(s[..k])) then None
      else Prepend(Num(NatOf(s[..k])), Lex(s[k..]))
  }

  // ----- what one iteration finds at index i of lexable text -----

  ghost predicate LexesTo(s: string, i: nat, toks: seq<Token>) {
    i <= |s| && Lex(s[i..]) == Some(toks)
  }

  lemma {:induction false} LexOperator(s: string, i: nat, toks: seq<Token>)
    requires LexesTo(s, i, toks) && i < |s| && IsLegalOp(s[i])
    ensures toks != [] && toks[0] == Op(s[i]) && LexesTo(s, i + 1, toks[1..])
  {
    assert s[i..][1..] == s[i + 1..];
  }

  lemma {:induction false} LexSpace(s: string, i: nat, toks: seq<Token>)
    requires LexesTo(s, i, toks) && i < |s| && s[i] == ' '
    ensures LexesTo(s, i + 1, toks)
  {
    assert s[i..][1..] == s[i + 1..];
  }

  /** At a number, "%d" takes exactly its digits; what is printed back is not
      longer than what was read. */
  lemma {:induction false} LexNumber(s: string, i: nat, toks: seq<Token>)
    requires LexesTo(s, i, toks) && i < |s| && !IsLegalOp(s[i]) && s[i] != ' '
    ensures var num := ScanInt(s[i..]);
            && num.Number? && 0 <= num.value && FitsInt(num.value)
            && 0 < |PrintInt(num.value)| <= num.consumed
            && toks != [] && toks[0] == Num(num.value) && LexesTo(s, i + num.consumed, toks[1..])
  {
    var t := s[i..];
    var k := DigitRun(t);
    assert t[..k] + t[k..] == t;
    assert t[k..] == s[i + k..];
    ScanDigits(t[..k], t[k..]);
    ReprintShorter(t[..k]);
  }

  /** sscanf(s + i, "%d%n", ..) at a number of lexable text. */
  method ScanNumber(s: string, i: nat, ghost toks: seq<Token>) returns (value: nat, consumed: nat)
    requires LexesTo(s, i, toks) && i < |s| && !IsLegalOp(s[i]) && s[i] != ' '
    ensures FitsInt(value) && consumed > 0
    ensures toks != [] && toks[0] == Num(value) && LexesTo(s, i + consumed, toks[1..])
  {
    LexNumber(s, i, toks);
    var num := ScanInt(s[i..]);
    value, consumed := num.value, num.consumed;
  }

  // ----- the text of a postfix program -----

  function TokenText(t: Token): string {
    match t
    case Num(n) => PrintNat(n)
    case Op(c) => [c]
  }

  /** Every token followed by one space. */
  function PostfixText(toks: seq<Token>): string {
    if toks == [] then ""
    else PostfixText(toks[..|toks| - 1]) + TokenText(toks[|toks| - 1]) + " "
  }

  lemma {:induction false} PostfixTextSnoc(toks: seq<Token>, t: Token)
    ensures PostfixText(toks + [t]) == PostfixText(toks) + TokenText(t) + " "
  {
    assert (toks + [t])[..|toks|] == toks;
  }

  /** Tokens that have a text of their own. */
  predicate Printable(t: Token) {
    match t
    case Num(n) => FitsInt(n)
    case Op(c) => IsLegalOp(c)
  }

  lemma {:induction false} LexOne(t: Token, rest: string)
    requires Printable(t)
    ensures Lex(TokenText(t) + (" " + rest)) == Prepend(t, Lex(rest))
  {
    var tail := " " + rest;
    var s := TokenText(t) + tail;
    assert tail[1..] == rest;
    match t
    case Op(c) => assert s[1..] == tail;
    case Num(n) =>
      PrintNatDenotes(n);
      DigitRunStops(PrintNat(n), tail);
      var k := |PrintNat(n)|;
      assert s[..k] == PrintNat(n) && s[k..] == tail;
      assert IsDigit(s[0]);
  }

  lemma {:induction false} PostfixTextSplit(toks: seq<Token>, rest: string)
    requires toks != []
    ensures PostfixText(toks) + rest == PostfixText(toks[..|toks| - 1]) + (TokenText(toks[|toks| - 1]) + (" " + rest))
  {
  }

  lemma {:induction false} LastMoves(a: seq<Token>, b: seq<Token>)
    requires a != []
    ensures a[..|a| - 1] + ([a[|a| - 1]] + b) == a + b
  {
  }

  /** Lexing the written program gives its tokens back, followed by whatever
      the text after it lexes to. */
  lemma {:induction false} LexPostfixTextThen(toks: seq<Token>, rest: string, more: seq<Token>)
    requires forall t :: t in toks ==> Printable(t)
    requires Lex(rest) == Some(more)
    ensures Lex(PostfixText(toks) + rest) == Some(toks + more)
  {
    if toks == [] {
      assert PostfixText(toks) + rest == rest && toks + more == more;
    } else {
      var init, t := toks[..|toks| - 1], toks[|toks| - 1];
      LexOne(t, rest);
      LexPostfixTextThen(init, TokenText(t) + (" " + rest), [t] + more);
      PostfixTextSplit(toks, rest);
      LastMoves(toks, more);
    }
  }

  lemma {:induction false} LexPostfixText(toks: seq<Token>)
    requires forall t :: t in toks ==> Printable(t)
    ensures Lex(PostfixText(toks)) == Some(toks)
  {
    LexPostfixTextThen(toks, "", []);
    assert PostfixText(toks) + "" == PostfixText(toks) && toks + [] == toks;
  }

  lemma {:induction false} LexedTokensPrintable(s: string)
    requires Lex(s).Some?
    ensures forall t :: t in Lex(s).value ==> Printable(t)
    decreases |s|
  {
    if s != "" {
      if IsLegalOp(s[0]) || s[0] == ' ' {
        LexedTokensPrintable(s[1..]);
      } else {
        LexedTokensPrintable(s[DigitRun(s)..]);
      }
    }
  }

  /** Text that lexes consists of digits, spaces and the six symbols. */
  lemma {:induction false} LexedCharacters(s: string)
    requires Lex(s).Some?
    ensures forall c :: c in s ==> IsDigit(c) || c == ' ' || c in "+-*/()"
    decreases |s|
  {
    if s != "" {
      var k := if IsLegalOp(s[0]) || s[0] == ' ' then 1 else DigitRun(s);
      LexedCharacters(s[k..]);
      assert s == s[..k] + s[k..];
      assert forall i :: 0 <= i < k ==> s[..k][i] == s[i];
    }
  }

  // ----- free layout: any spaces, any leading zeros -----

  /** One token as a user may type it: `gap` spaces, then `text`. */
  datatype Piece = Piece(gap: nat, text: string)

  ghost predicate Typed(p: Piece) {
    || (|p.text| == 1 && IsLegalOp(p.text[0]))
    || (p.text != "" && AllDigits(p.text) && FitsInt(NatOf(p.text)))
  }

  ghost function TypedToken(p: Piece): Token
    requires Typed(p)
  {
    if IsLegalOp(p.text[0]) then Op(p.text[0]) else Num(NatOf(p.text))
  }

  function Spaces(n: nat): string {
    seq(n, i => ' ')
  }

  function Written(ps: seq<Piece>, trailing: nat): string {
    if ps == [] then Spaces(trailing)
    else Spaces(ps[0].gap) + (ps[0].text + Written(ps[1..], trailing))
  }

  lemma {:induction false} LexSkipsSpaces(n: nat, rest: string)
    ensures Lex(Spaces(n) + rest) == Lex(rest)
  {
    if n == 0 {
      assert Spaces(0) + rest == rest;
    } else {
      assert (Spaces(n) + rest)[1..] == Spaces(n - 1) + rest;
      LexSkipsSpaces(n - 1, rest);
    }
  }

  /** No two numbers side by side. */
  ghost predicate Separated(toks: seq<Token>) {
    forall i :: 1 <= i < |toks| ==> toks[i].Op? || toks[i - 1].Op?
  }

  /** Whatever the spacing and the leading zeros, text typed for a token
      sequence lexes to it, as long as no two numbers are neighbours (a
      well-formed expression has none, see `NoAdjacentNumbers`). */
  lemma {:induction false} LexWritten(ps: seq<Piece>, trailing: nat, toks: seq<Token>)
    requires |toks| == |ps|
    requires forall i :: 0 <= i < |ps| ==> Typed(ps[i]) && toks[i] == TypedToken(ps[i])
    requires Separated(toks)
    ensures Lex(Written(ps, trailing)) == Some(toks)
  {
    if ps == [] {
      LexSkipsSpaces(trailing, "");
      assert Spaces(trailing) + "" == Spaces(trailing);
    } else {
      var rest := Written(ps[1..], trailing);
      forall i | 1 <= i < |toks[1..]| ensures toks[1..][i].Op? || toks[1..][i - 1].Op? {
        assert toks[i + 1].Op? || toks[i + 1 - 1].Op?;
      }
      LexWritten(ps[1..], trailing, toks[1..]);
      LexSkipsSpaces(ps[0].gap, ps[0].text + rest);
      var s := ps[0].text + rest;
      assert toks == [toks[0]] + toks[1..];
      if IsLegalOp(ps[0].text[0]) {
        assert s[1..] == rest;
      } else {
        assert EndsNumber(rest) by {
          if |ps| > 1 {
            assert toks[1].Op? && toks[1] == TypedToken(ps[1]);
          }
        }
        DigitRunStops(ps[0].text, rest);
        var k := |ps[0].text|;
        assert s[..k] == ps[0].text && s[k..] == rest;
      }
    }
  }

  lemma {:induction false} NoAdjacentNumbers(e: Tree)
    ensures Separated(Tokens(e))
  {
    match e
    case Literal(_) =>
    case Paren(inner) => NoAdjacentNumbers(inner);
    case Binary(l, _, r) => NoAdjacentNumbers(l); NoAdjacentNumbers(r);
  }
}
