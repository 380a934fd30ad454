/** The length of the longest substring without a repeated character, by a
    sliding window over a text of bytes. */
module LongestWindow {

  /** s[lo..hi] repeats no character. */
  ghost predicate Free(s: string, lo: nat, hi: nat) {
    lo <= hi <= |s| && forall i, j :: lo <= i < j < hi ==> s[i] != s[j]
  }

  /** s[start..end] is the longest repeat-free substring ending at `end`. */
  ghost predicate Window(s: string, start: nat, end: nat) {
    Free(s, start, end) && forall lo: nat :: lo < start ==> !Free(s, lo, end)
  }

  /** `n` is the largest length of a repeat-free substring ending at or before
      `end`. */
  ghost predicate Longest(s: string, end: nat, n: nat) {
    && (exists lo: nat, hi: nat :: hi <= end && Free(s, lo, hi) && hi - lo == n)
    && forall lo: nat, hi: nat :: hi <= end && Free(s, lo, hi) ==> hi - lo <= n
  }

  /** Extending the window by s[end]: it can keep its start if s[end] is new to
      it, and must otherwise start behind the earlier occurrence. */
  lemma {:induction false} Extend(s: string, start: nat, end: nat, i: nat)
    requires end < |s| && Window(s, start, end) && start <= i <= end
    requires forall j :: start <= j < i ==> s[j] != s[end]
    requires i < end ==> s[i] == s[end]
    ensures Window(s, if i < end then i + 1 else start, end + 1)
  {
    var start' := if i < end then i + 1 else start;
    var next := end + 1;
    assert Free(s, start', next);
    forall lo: nat | lo < start' ensures !Free(s, lo, next) {
      if lo < start {
        assert !Free(s, lo, end);
      } else {
        assert s[i] == s[end];
      }
    }
  }

  lemma {:induction false} LongestNext(s: string, end: nat, n: nat, start: nat)
    requires end < |s| && Longest(s, end, n) && Window(s, start, end + 1)
    ensures Longest(s, end + 1, if n > end + 1 - start then n else end + 1 - start)
  {
    var n' := if n > end + 1 - start then n else end + 1 - start;
    forall lo: nat, hi: nat | hi <= end + 1 && Free(s, lo, hi) ensures hi - lo <= n' {
      if hi == end + 1 {
        assert start <= lo;
      }
    }
    if n' == n {
      var lo: nat, hi: nat :| hi <= end && Free(s, lo, hi) && hi - lo == n;
      assert hi <= end + 1 && Free(s, lo, hi) && hi - lo == n';
    } else {
      assert Free(s, start, end + 1);
    }
  }

  ghost predicate Occurs(s: string, c: int, end: nat)
    requires end <= |s|
  {
    exists j :: 0 <= j < end && s[j] as int == c
  }

  /** `seen` (the array `map`) marks the characters seen so far; it is never cleared, so a mark does
      not mean that the character is in the window. */
  ghost predicate Marks(seen: seq<int>, s: string, end: nat)
    requires end <= |s|
  {
    && |seen| == 256
    && forall c :: 0 <= c < 256 ==> seen[c] == if Occurs(s, c, end) then 1 else 0
  }

  lemma {:induction false} MarksNext(seen: seq<int>, seen': seq<int>, s: string, end: nat)
    requires end < |s| && s[end] as int < 256 && Marks(seen, s, end)
    requires seen' == seen[s[end] as int := 1]
    ensures Marks(seen', s, end + 1)
  {
    forall c | 0 <= c < 256
      ensures seen'[c] == if Occurs(s, c, end + 1) then 1 else 0
    {
      if c == s[end] as int {
        assert Occurs(s, c, end + 1);
      } else {
        assert Occurs(s, c, end + 1) ==> Occurs(s, c, end);
        assert Occurs(s, c, end) ==> Occurs(s, c, end + 1);
      }
    }
  }

  /** The index `map` is accessed with at a character: its code, negative from 128
      up where char is signed. */
  function MapIndex(c: char, charIsSigned: bool): int
    requires c as int < 256
  {
    if charIsSigned && c as int >= 128 then c as int - 256 else c as int
  }

  ghost predicate Bytes(s: string) {
    forall i :: 0 <= i < |s| ==> s[i] as int < 256
  }

  /** Every access to `map` is in bounds; the loop makes one at each character. */
  ghost predicate AccessesInBounds(s: string, charIsSigned: bool)
    requires Bytes(s)
  {
    forall i :: 0 <= i < |s| ==> 0 <= MapIndex(s[i], charIsSigned) < 256
  }

  /** With signed characters that is exactly ASCII text, otherwise any text. */
  lemma {:induction false} InBoundsIffAscii(s: string, charIsSigned: bool)
    requires Bytes(s)
    ensures AccessesInBounds(s, charIsSigned) <==> !charIsSigned || forall i :: 0 <= i < |s| ==> s[i] as int < 128
  {
    if AccessesInBounds(s, charIsSigned) && charIsSigned {
      forall i | 0 <= i < |s| ensures s[i] as int < 128 {
        assert 0 <= MapIndex(s[i], charIsSigned);
      }
    }
  }

  /** lengthOfLongestSubstring() */
  method LengthOfLongestSubstring(s: string, charIsSigned: bool) returns (maxLength: nat)
    requires Bytes(s) && AccessesInBounds(s, charIsSigned)
    ensures Longest(s, |s|, maxLength)
  {
    var start: nat, end: nat := 0, 0;
    maxLength := 0;
    var seen := new int[256](_ => 0);
    assert Free(s, 0, 0);
    while end < |s|
      invariant end <= |s| && Window(s, start, end) && Longest(s, end, maxLength)
      invariant Marks(seen[..], s, end)
    {
      var c := MapIndex(s[end], charIsSigned);
      ghost var before := seen[..];
      if seen[c] == 1 {
        var i := start;
        while i < end && s[i] != s[end]
          invariant start <= i <= end && forall j :: start <= j < i ==> s[j] != s[end]
        {
          i := i + 1;
        }
        Extend(s, start, end, i);
        if i != end {
          start := i + 1;
        }
      } else if seen[c] == 0 {
        Extend(s, start, end, end);
        seen[c] := 1;
      }
      MarksNext(before, seen[..], s, end);
      LongestNext(s, end, maxLength, start);
      end := end + 1;
      maxLength := if maxLength > end - start then maxLength else end - start;
    }
  }
}
