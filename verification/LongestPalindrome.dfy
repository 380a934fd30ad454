/** The longest palindromic substring, found by growing from every centre. */
module LongestPalindrome {
  import opened CStrings

  ghost predicate Palindrome(t: string) {
    forall i :: 0 <= i < |t| ==> t[i] == t[|t| - 1 - i]
  }

  /** The t-th pair around the gap after position i matches. */
  predicate EvenPair(s: string, i: nat, t: nat)
    requires t <= i && i + t + 1 < |s|
  {
    s[i - t] == s[i + t + 1]
  }

  /** The t-th pair around position i matches. */
  predicate OddPair(s: string, i: nat, t: nat)
    requires t <= i && i + t < |s|
  {
    s[i - t] == s[i + t]
  }

  /** `step` matching pairs around the gap after position i. */
  ghost predicate EvenAt(s: string, i: nat, step: nat) {
    step <= i + 1 && i + step < |s| && forall t :: 0 <= t < step ==> EvenPair(s, i, t)
  }

  /** `step` matching pairs around position i, itself the first. */
  ghost predicate OddAt(s: string, i: nat, step: nat) {
    step <= i + 1 && i + step <= |s| && forall t :: 0 <= t < step ==> OddPair(s, i, t)
  }

  lemma {:induction false} EvenCentre(s: string, lo: nat, m: nat)
    requires m > 0 && lo + 2 * m <= |s| && Palindrome(s[lo..lo + 2 * m])
    ensures EvenAt(s, lo + m - 1, m)
  {
    var p, c := s[lo..lo + 2 * m], lo + m - 1;
    forall t | 0 <= t < m ensures EvenPair(s, c, t) {
      assert p[m - 1 - t] == p[|p| - 1 - (m - 1 - t)];
    }
  }

  lemma {:induction false} OddCentre(s: string, lo: nat, m: nat)
    requires m > 0 && lo + 2 * m - 1 <= |s| && Palindrome(s[lo..lo + 2 * m - 1])
    ensures OddAt(s, lo + m - 1, m)
  {
    var p, c := s[lo..lo + 2 * m - 1], lo + m - 1;
    forall t | 0 <= t < m ensures OddPair(s, c, t) {
      assert p[m - 1 - t] == p[|p| - 1 - (m - 1 - t)];
    }
  }

  /** Every palindromic substring is one of these two kinds, with its length
      given by its step: 2 * step, or 2 * step - 1. */
  lemma {:induction false} PalindromeHasCentre(s: string, lo: nat, hi: nat)
    requires lo < hi <= |s| && Palindrome(s[lo..hi])
    ensures (hi - lo) % 2 == 0 ==> var m := (hi - lo) / 2; EvenAt(s, lo + m - 1, m)
    ensures (hi - lo) % 2 == 1 ==> var m := (hi - lo + 1) / 2; OddAt(s, lo + m - 1, m)
  {
    if (hi - lo) % 2 == 0 {
      EvenCentre(s, lo, (hi - lo) / 2);
    } else {
      OddCentre(s, lo, (hi - lo + 1) / 2);
    }
  }

  lemma {:induction false} EvenIsPalindrome(s: string, i: nat, step: nat)
    requires EvenAt(s, i, step)
    ensures Palindrome(s[i + 1 - step..i + 1 + step])
  {
    var p := s[i + 1 - step..i + 1 + step];
    forall k | 0 <= k < |p| ensures p[k] == p[|p| - 1 - k] {
      var t := if k < step then step - 1 - k else k - step;
      assert EvenPair(s, i, t);
    }
  }

  lemma {:induction false} OddIsPalindrome(s: string, i: nat, step: nat)
    requires OddAt(s, i, step) && step > 0
    ensures Palindrome(s[i + 1 - step..i + step])
  {
    var p := s[i + 1 - step..i + step];
    forall k | 0 <= k < |p| ensures p[k] == p[|p| - 1 - k] {
      var t := if k < step then step - 1 - k else k + 1 - step;
      assert OddPair(s, i, t);
    }
  }

  /** No substring s[lo..hi] that is a palindrome beats the one of length `len`
      at `start`: it is shorter, or as long and not further right. */
  ghost predicate Best(s: string, start: nat, len: nat) {
    forall lo, hi :: 0 <= lo <= hi <= |s| && Palindrome(s[lo..hi]) ==>
      hi - lo < len || (hi - lo == len && lo <= start)
  }

  /** Among the centres before i, `best` is the largest even step, last reached
      at `index`. */
  ghost predicate EvenBest(s: string, i: nat, best: nat, index: nat) {
    && (best > 0 ==> index < i && EvenAt(s, index, best))
    && forall c: nat, st: nat :: c < i && st > 0 && EvenAt(s, c, st) ==> st < best || (st == best && c <= index)
  }

  ghost predicate OddBest(s: string, i: nat, best: nat, index: nat) {
    && (best > 0 ==> index < i && OddAt(s, index, best))
    && forall c: nat, st: nat :: c < i && st > 0 && OddAt(s, c, st) ==> st < best || (st == best && c <= index)
  }

  /** The even scan at one centre. */
  method ScanEven(s: string, i: nat, oddStep0: nat, oddIndex0: nat) returns (oddStep: nat, oddIndex: nat)
    requires i < |s| && EvenBest(s, i, oddStep0, oddIndex0)
    ensures EvenBest(s, i + 1, oddStep, oddIndex)
  {
    oddStep, oddIndex := oddStep0, oddIndex0;
    var step := 0;
    while 0 <= i - step && i + step + 1 < |s|
      invariant EvenAt(s, i, step) && step <= oddStep && oddStep0 <= oddStep
      invariant if oddStep == step && step > 0 then oddIndex == i
                else oddStep == oddStep0 && oddIndex == oddIndex0
      invariant forall st: nat :: EvenAt(s, i, st) ==> st <= step || EvenPair(s, i, step)
      decreases |s| - step
    {
      if s[i - step] == s[i + step + 1] {
        assert EvenPair(s, i, step);
        step := step + 1;
        if oddStep <= step {
          oddStep := step;
          oddIndex := i;
        }
      } else {
        assert !EvenPair(s, i, step);
        break;
      }
    }
  }

  /** The odd scan at one centre. */
  method ScanOdd(s: string, i: nat, evenStep0: nat, evenIndex0: nat) returns (evenStep: nat, evenIndex: nat)
    requires i < |s| && OddBest(s, i, evenStep0, evenIndex0)
    ensures OddBest(s, i + 1, evenStep, evenIndex) && evenStep > 0
  {
    evenStep, evenIndex := evenStep0, evenIndex0;
    var step := 0;
    assert OddPair(s, i, 0);
    while 0 <= i - step && i + step < |s|
      invariant OddAt(s, i, step) && step <= evenStep && evenStep0 <= evenStep
      invariant if evenStep == step && step > 0 then evenIndex == i
                else evenStep == evenStep0 && evenIndex == evenIndex0
      invariant forall st: nat :: OddAt(s, i, st) ==> st <= step || OddPair(s, i, step)
      decreases |s| - step
    {
      if s[i - step] == s[i + step] {
        assert OddPair(s, i, step);
        step := step + 1;
        if evenStep <= step {
          evenStep := step;
          evenIndex := i;
        }
      } else {
        assert !OddPair(s, i, step);
        break;
      }
    }
  }

  /** Steps compare as the lengths 2 * oddStep and 2 * evenStep - 1 do. */
  lemma {:induction false} BestOfBoth(s: string, oddStep: nat, oddIndex: nat, evenStep: nat, evenIndex: nat)
    requires EvenBest(s, |s|, oddStep, oddIndex) && OddBest(s, |s|, evenStep, evenIndex) && evenStep > 0
    ensures oddStep >= evenStep ==> Best(s, oddIndex + 1 - oddStep, 2 * oddStep)
    ensures oddStep < evenStep ==> Best(s, evenIndex + 1 - evenStep, 2 * evenStep - 1)
  {
    forall lo, hi | 0 <= lo < hi <= |s| && Palindrome(s[lo..hi])
      ensures oddStep >= evenStep ==> hi - lo < 2 * oddStep || (hi - lo == 2 * oddStep && lo <= oddIndex + 1 - oddStep)
      ensures oddStep < evenStep ==>
                hi - lo < 2 * evenStep - 1 || (hi - lo == 2 * evenStep - 1 && lo <= evenIndex + 1 - evenStep)
    {
      PalindromeHasCentre(s, lo, hi);
    }
  }

  /** The search of longestPalindrome(): s[start..start + n] is a palindrome, no
      palindromic substring is longer, and of those as long it is the rightmost. */
  method FindLongest(s: string) returns (start: nat, n: nat)
    ensures start + n <= |s| && Palindrome(s[start..start + n]) && Best(s, start, n)
  {
    var oddStep: nat, evenStep: nat, oddIndex: nat, evenIndex: nat := 0, 0, 0, 0;
    var i := 0;
    while i < |s|
      invariant i <= |s| && EvenBest(s, i, oddStep, oddIndex) && OddBest(s, i, evenStep, evenIndex)
      invariant i > 0 ==> evenStep > 0
    {
      oddStep, oddIndex := ScanEven(s, i, oddStep, oddIndex);
      evenStep, evenIndex := ScanOdd(s, i, evenStep, evenIndex);
      i := i + 1;
    }
    if |s| == 0 {
      return 0, 0;
    }
    BestOfBoth(s, oddStep, oddIndex, evenStep, evenIndex);
    if oddStep >= evenStep {
      EvenIsPalindrome(s, oddIndex, oddStep);
      return oddIndex - oddStep + 1, oddStep * 2;
    } else {
      OddIsPalindrome(s, evenIndex, evenStep);
      return evenIndex - evenStep + 1, evenStep * 2 - 1;
    }
  }

  /** The size of the result buffer. */
  const RESULT_SIZE := 1001

  /** Every palindromic substring leaves room for the terminator in the buffer. */
  ghost predicate PalindromesFit(s: string) {
    forall lo, hi :: 0 <= lo < hi <= |s| && Palindrome(s[lo..hi]) ==> hi - lo < RESULT_SIZE
  }

  /** The copy of the result stays inside the buffer exactly for these texts,
      all texts of at most 1000 characters among them. */
  lemma {:induction false} ResultFits(s: string, start: nat, n: nat)
    requires start + n <= |s| && Palindrome(s[start..start + n]) && Best(s, start, n)
    ensures n <= 1000 <==> PalindromesFit(s)
    ensures |s| <= 1000 ==> PalindromesFit(s)
  {
    if n > 0 {
      assert 0 <= start < start + n <= |s|;
    }
  }

  /** The overrun happens: 1001 equal characters. */
  lemma {:induction false} LongRunOverflows(c: char, n: nat)
    requires n > 1000
    ensures !PalindromesFit(seq(n, i => c))
  {
    var s := seq(n, i => c);
    assert s[0..n] == s && Palindrome(s[0..n]);
  }

  /** longestPalindrome(): the buffer holds the rightmost of the longest
      palindromic substrings. */
  method LongestPalindrome(s: string) returns (r: array<char>, ghost start: nat, ghost n: nat)
    requires PalindromesFit(s)
    ensures start + n <= |s| && Palindrome(s[start..start + n]) && Best(s, start, n)
    ensures fresh(r) && r.Length == 1001 && CText(r, s[start..start + n])
  {
    var from, len := FindLongest(s);
    start, n := from, len;
    r := new char[RESULT_SIZE](_ => '\0');
    ResultFits(s, from, len);
    StrNCpy(r, 0, s, from, len);
    assert r[..len] == s[from..from + len];
  }
}
