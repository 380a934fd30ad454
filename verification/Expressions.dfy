/** The arithmetic expressions the two calculators are for, and what they mean.
    A tree is `Layered` when it is the one that usual precedence and left
    associativity give its tokens. */
module Expressions {
  import opened DecimalText

  datatype Option<+T> = None | Some(value: T)

  datatype BinOp = Add | Sub | Mul | Div

  datatype Token = Num(n: nat) | Op(c: char)

  datatype Tree =
    | Literal(n: nat)
    | Paren(inner: Tree)
    | Binary(l: Tree, op: BinOp, r: Tree)

  function Symbol(op: BinOp): char {
    match op
    case Add => '+'
    case Sub => '-'
    case Mul => '*'
    case Div => '/'
  }

  function Level(op: BinOp): nat {
    if op.Add? || op.Sub? then 1 else 2
  }

  /** How tightly the outermost construct of a tree binds. */
  function Binding(e: Tree): nat {
    if e.Binary? then Level(e.op) else 3
  }

  predicate Layered(e: Tree) {
    match e
    case Literal(_) => true
    case Paren(inner) => Layered(inner)
    case Binary(l, op, r) =>
      Layered(l) && Layered(r) && Level(op) <= Binding(l) && Level(op) < Binding(r)
  }

  function Tokens(e: Tree): seq<Token> {
    match e
    case Literal(n) => [Num(n)]
    case Paren(inner) => [Op('(')] + Tokens(inner) + [Op(')')]
    case Binary(l, op, r) => Tokens(l) + [Op(Symbol(op))] + Tokens(r)
  }

  // ----- every expression has a layered tree -----

  /** The layered tree of `t`, an operator and a factor: the operator takes as
      much of `t` as binds at least as tightly. */
  function AppendFactor(t: Tree, op: BinOp, f: Tree): (r: Tree)
    requires Layered(t) && Layered(f) && Binding(f) == 3
    ensures Layered(r) && Tokens(r) == Tokens(t) + [Op(Symbol(op))] + Tokens(f)
    ensures Binding(r) == if Binding(t) < Level(op) then Binding(t) else Level(op)
  {
    if Level(op) <= Binding(t) then Binary(t, op, f)
    else
      assert Tokens(t.l) + [Op(Symbol(t.op))] + (Tokens(t.r) + [Op(Symbol(op))] + Tokens(f))
          == Tokens(t) + [Op(Symbol(op))] + Tokens(f);
      Binary(t.l, t.op, AppendFactor(t.r, op, f))
  }

  /** The layered tree of `l`, an operator and `r`. */
  function Combine(l: Tree, op: BinOp, r: Tree): (t: Tree)
    requires Layered(l) && Layered(r)
    ensures Layered(t) && Tokens(t) == Tokens(l) + [Op(Symbol(op))] + Tokens(r)
    decreases r
  {
    if !r.Binary? then AppendFactor(l, op, r)
    else
      var t := Combine(l, op, r.l);
      assert Tokens(t) + [Op(Symbol(r.op))] + Tokens(r.r) == Tokens(l) + [Op(Symbol(op))] + Tokens(r);
      Combine(t, r.op, r.r)
  }

  /** The tree that precedence and associativity give to the tokens of `e`,
      however `e` itself groups them. */
  function Relayer(e: Tree): (r: Tree)
    ensures Layered(r) && Tokens(r) == Tokens(e)
  {
    match e
    case Literal(_) => e
    case Paren(inner) => Paren(Relayer(inner))
    case Binary(l, op, r) => Combine(Relayer(l), op, Relayer(r))
  }

  // ----- values -----

  function Abs(n: int): nat {
    if n < 0 then -n else n
  }

  /** The int `n`, or nothing when C leaves the operation undefined because the
      result does not fit. */
  function Checked(n: int): Option<int> {
    if FitsInt(n) then Some(n) else None
  }

  /** Integer division of section 6.5.5 of C11. */
  function TruncDiv(a: int, b: int): int
    requires b != 0
  {
    var q := Abs(a) / Abs(b);
    if (a < 0) == (b < 0) then q else -q
  }

  /** The quotient is truncated toward zero: the remainder is smaller than the
      divisor and has the sign of the dividend. */
  lemma {:induction false} TruncDivTruncates(a: int, b: int)
    requires b != 0
    ensures var r := a - TruncDiv(a, b) * b;
            Abs(r) < Abs(b) && (a >= 0 ==> r >= 0) && (a <= 0 ==> r <= 0)
  {
    var q, m := Abs(a) / Abs(b), Abs(a) % Abs(b);
    assert Abs(a) == q * Abs(b) + m;
    if a >= 0 {
      assert TruncDiv(a, b) * b == q * Abs(b);
    } else {
      assert TruncDiv(a, b) * b == -(q * Abs(b));
    }
  }

  lemma {:induction false} AbsProduct(q: int, y: int)
    ensures Abs(q * y) == Abs(q) * Abs(y)
  {
    if q < 0 && y < 0 {
      assert (-q) * -y == q * y;
    } else if q < 0 {
      assert (-q) * y == -(q * y);
    } else if y < 0 {
      assert q * -y == -(q * y);
    }
  }

  lemma {:induction false} MultipleIsLarge(q: int, y: int)
    requires q != 0
    ensures Abs(q * y) >= Abs(y)
  {
    AbsProduct(q, y);
    var k, z := Abs(q), Abs(y);
    assert k * z == z + (k - 1) * z;
    assert (k - 1) * z >= 0;
  }

  lemma {:induction false} Distributes(x: int, q: int, y: int)
    ensures (x - q) * y == x * y - q * y
  {
  }

  /** Dividing a product by a factor gives the other one. */
  lemma {:induction false} DivUndoesMul(x: int, y: int)
    requires y != 0
    ensures TruncDiv(x * y, y) == x
  {
    var q := TruncDiv(x * y, y);
    TruncDivTruncates(x * y, y);
    Distributes(x, q, y);
    if x != q {
      MultipleIsLarge(x - q, y);
    }
  }

  function Apply(op: BinOp, x: int, y: int): Option<int> {
    match op
    case Add => Checked(x + y)
    case Sub => Checked(x - y)
    case Mul => Checked(x * y)
    case Div => if y == 0 then None else Checked(TruncDiv(x, y))
  }

  /** The operators are those of the integers: adding nothing changes nothing,
      adding one more gives one more, subtracting undoes adding, multiplying by
      one more adds the number once more, and a product divided by a factor is
      the other one. Only overflow and a zero divisor leave them undefined. */
  lemma {:induction false} OperatorLaws(x: int, y: int)
    requires FitsInt(x)
    ensures Apply(Add, x, 0) == Some(x) && Apply(Mul, x, 0) == Some(0)
    ensures FitsInt(x + y) <==> Apply(Add, x, y).Some?
    ensures FitsInt(x - y) <==> Apply(Sub, x, y).Some?
    ensures FitsInt(x * y) <==> Apply(Mul, x, y).Some?
    ensures y != 0 && FitsInt(TruncDiv(x, y)) <==> Apply(Div, x, y).Some?
    ensures Apply(Add, x, y).Some? && Apply(Add, x, y + 1).Some? ==>
              Apply(Add, x, y + 1).value == Apply(Add, x, y).value + 1
    ensures Apply(Add, x, y).Some? ==> Apply(Sub, Apply(Add, x, y).value, y) == Some(x)
    ensures Apply(Mul, x, y).Some? && Apply(Mul, x, y + 1).Some? ==>
              Apply(Mul, x, y + 1).value == Apply(Mul, x, y).value + x
    ensures Apply(Mul, x, y).Some? && y != 0 ==> Apply(Div, Apply(Mul, x, y).value, y) == Some(x)
  {
    assert x * (y + 1) == x * y + x;
    if y != 0 {
      DivUndoesMul(x, y);
    }
  }

  /** The value of an expression over C ints; None when some intermediate
      result overflows or some divisor is zero. */
  function Value(e: Tree): Option<int> {
    match e
    case Literal(n) => Checked(n)
    case Paren(inner) => Value(inner)
    case Binary(l, op, r) =>
      var x, y := Value(l), Value(r);
      if x.Some? && y.Some? then Apply(op, x.value, y.value) else None
  }

  /** Postfix order: operands before their operator, no parentheses. */
  function Postfix(e: Tree): seq<Token> {
    match e
    case Literal(n) => [Num(n)]
    case Paren(inner) => Postfix(inner)
    case Binary(l, op, r) => Postfix(l) + Postfix(r) + [Op(Symbol(op))]
  }
}
