/** Decimal text as C's "%d" prints it and scans it.
    The calculator keeps both its postfix program and every number on its
    stack as text, so its correctness rests on printing and scanning being
    inverse. */
module DecimalText {

  const INT_MAX: int := 0x7fff_ffff
  const INT_MIN: int := -0x8000_0000

  predicate FitsInt(n: int) {
    INT_MIN <= n <= INT_MAX
  }

  predicate IsDigit(c: char) {
    '0' <= c <= '9'
  }

  ghost predicate AllDigits(t: string) {
    forall i :: 0 <= i < |t| ==> IsDigit(t[i])
  }

  /** isspace() in the C locale. */
  predicate IsWhite(c: char) {
    c == ' ' || '\t' <= c <= '\r'
  }

  function DigitValue(c: char): (d: nat)
    requires IsDigit(c)
    ensures d < 10
  {
    c as int - '0' as int
  }

  function DigitChar(d: nat): (c: char)
    requires d < 10
    ensures IsDigit(c) && DigitValue(c) == d
  {
    ('0' as int + d) as char
  }

  /** A 32-bit int. */
  lemma {:induction false} IntRange(n: int)
    ensures FitsInt(n) <==> -0x8000_0000 <= n < 0x8000_0000
  {
  }

  /** The digit zero is worth nothing, each next digit one more. */
  lemma {:induction false} DigitsCount(c: char, d: char)
    requires IsDigit(c) && IsDigit(d) && d as int == c as int + 1
    ensures DigitValue('0') == 0 && DigitValue(d) == DigitValue(c) + 1
  {
  }

  function Pow10(k: nat): nat {
    if k == 0 then 1 else 10 * Pow10(k - 1)
  }

  /** The number a digit string denotes. */
  function NatOf(t: string): nat
    requires AllDigits(t)
  {
    if t == "" then 0 else 10 * NatOf(t[..|t| - 1]) + DigitValue(t[|t| - 1])
  }

  /** Positional notation: a digit in front of k digits is worth 10 to the k
      times its value. */
  lemma {:induction false} LeadingDigit(c: char, t: string)
    requires IsDigit(c) && AllDigits(t)
    ensures NatOf([c] + t) == DigitValue(c) * Pow10(|t|) + NatOf(t)
  {
    if t == "" {
      assert [c] + t == [c] && [c][..0] == "";
    } else {
      var init := t[..|t| - 1];
      assert ([c] + t)[..|t|] == [c] + init;
      LeadingDigit(c, init);
      assert 10 * (DigitValue(c) * Pow10(|init|)) == DigitValue(c) * Pow10(|t|);
    }
  }

  function PrintNat(n: nat): string {
    if n < 10 then [DigitChar(n)] else PrintNat(n / 10) + [DigitChar(n % 10)]
  }

  /** sprintf(_, "%d", n) */
  function PrintInt(n: int): string {
    if n < 0 then "-" + PrintNat(-n) else PrintNat(n)
  }

  function DigitRun(t: string): (k: nat)
    ensures k <= |t| && AllDigits(t[..k])
    ensures k < |t| ==> !IsDigit(t[k])
  {
    if t != "" && IsDigit(t[0]) then
      var k := 1 + DigitRun(t[1..]);
      assert forall i :: 0 < i < k ==> t[..k][i] == t[1..][..k - 1][i - 1];
      k
    else
      0
  }

  function WhiteRun(t: string): (k: nat)
    ensures k <= |t|
    ensures k < |t| ==> !IsWhite(t[k])
  {
    if t != "" && IsWhite(t[0]) then 1 + WhiteRun(t[1..]) else 0
  }

  datatype Scanned = Nothing | Number(value: int, consumed: nat)

  /** sscanf(t, "%d%n", &value, &consumed): white space, an optional sign, then
      as many digits as follow. */
  function ScanInt(t: string): Scanned {
    var w := WhiteRun(t);
    var signed := w < |t| && (t[w] == '-' || t[w] == '+');
    var b := if signed then w + 1 else w;
    var k := DigitRun(t[b..]);
    if k == 0 then Nothing
    else
      var n: int := NatOf(t[b..][..k]);
      Number(if signed && t[w] == '-' then -n else n, b + k)
  }

  /** `rest` cannot be read as more digits of a number written before it. */
  predicate EndsNumber(rest: string) {
    rest == "" || !IsDigit(rest[0])
  }

  lemma {:induction false} DigitRunStops(d: string, rest: string)
    requires AllDigits(d) && EndsNumber(rest)
    ensures DigitRun(d + rest) == |d|
  {
    if d != "" {
      assert (d + rest)[1..] == d[1..] + rest;
      DigitRunStops(d[1..], rest);
    } else {
      assert d + rest == rest;
    }
  }

  lemma {:induction false} PrintNatDenotes(n: nat)
    ensures AllDigits(PrintNat(n)) && PrintNat(n) != ""
    ensures NatOf(PrintNat(n)) == n
  {
    if n >= 10 {
      PrintNatDenotes(n / 10);
      var t := PrintNat(n);
      assert t[..|t| - 1] == PrintNat(n / 10);
    } else {
      assert PrintNat(n)[..0] == "";
    }
  }

  /** A digit string is scanned back whole, whatever non-digit follows it. */
  lemma {:induction false} ScanDigits(d: string, rest: string)
    requires d != "" && AllDigits(d) && EndsNumber(rest)
    ensures ScanInt(d + rest) == Number(NatOf(d), |d|)
  {
    var t := d + rest;
    assert t[0] == d[0] && IsDigit(t[0]);
    assert t[0..] == t && t[..|d|] == d;
    DigitRunStops(d, rest);
  }

  lemma {:induction false} ScanNegative(d: string, rest: string)
    requires d != "" && AllDigits(d) && EndsNumber(rest)
    ensures ScanInt("-" + d + rest) == Number(0 - NatOf(d), 1 + |d|)
  {
    var t := "-" + d + rest;
    assert t[0] == '-' && WhiteRun(t) == 0;
    assert t[1..] == d + rest && (d + rest)[..|d|] == d;
    DigitRunStops(d, rest);
  }

  /** Printing and scanning are inverse on every int, negative ones included,
      and scanning consumes exactly what was printed. */
  lemma {:induction false} ScanPrint(n: int, rest: string)
    requires EndsNumber(rest)
    ensures ScanInt(PrintInt(n) + rest) == Number(n, |PrintInt(n)|)
  {
    if n >= 0 {
      PrintNatDenotes(n);
      ScanDigits(PrintNat(n), rest);
    } else {
      PrintNatDenotes(-n);
      ScanNegative(PrintNat(-n), rest);
    }
  }

  lemma {:induction false} PrintNatShort(n: nat, k: nat)
    requires 0 < k && n < Pow10(k)
    ensures |PrintNat(n)| <= k
  {
    if n >= 10 {
      assert k > 1 by {
        assert Pow10(1) == 10 * Pow10(0);
      }
      PrintNatShort(n / 10, k - 1);
    }
  }

  /** An int prints in at most 11 characters, so it fits the 20-byte cells. */
  lemma {:induction false} PrintIntShort(n: int)
    requires FitsInt(n)
    ensures 0 < |PrintInt(n)| <= 11
  {
    assert Pow10(10) == 10_000_000_000 by {
      assert Pow10(2) == 100;
      assert Pow10(4) == 10_000;
      assert Pow10(6) == 1_000_000;
      assert Pow10(8) == 100_000_000;
    }
    PrintNatShort(if n < 0 then -n else n, 10);
  }

  /** Negative numbers print with a minus sign. */
  lemma {:induction false} MinusPrints(n: int)
    requires n > 0
    ensures PrintInt(-n) == "-" + PrintInt(n)
  {
  }

  /** Reprinting a literal never makes it longer (it may drop leading zeros). */
  lemma {:induction false} ReprintShorter(d: string)
    requires d != "" && AllDigits(d)
    ensures |PrintNat(NatOf(d))| <= |d|
  {
    var init := d[..|d| - 1];
    if NatOf(d) >= 10 {
      assert init != "";
      ReprintShorter(init);
      assert NatOf(d) / 10 == NatOf(init);
    }
  }
}
