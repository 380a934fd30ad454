/** C strings in character arrays, and the library calls used on them. */
module CStrings {

  /** `a` starts with `text` and a terminator. */
  ghost predicate CText(a: array<char>, text: string)
    reads a
  {
    |text| < a.Length && a[..|text|] == text && a[|text|] == '\0'
  }

  method StrLen(a: array<char>, ghost text: string) returns (n: nat)
    requires CText(a, text) && '\0' !in text
    ensures n == |text|
  {
    n := 0;
    assert forall j :: 0 <= j < |text| ==> a[j] == a[..|text|][j] == text[j] && text[j] in text;
    while a[n] != '\0'
      invariant n <= |text|
      decreases |text| - n
    {
      n := n + 1;
    }
  }

  /** strcpy(dst + at, src) */
  method StrCpy(dst: array<char>, at: nat, src: string)
    requires at + |src| < dst.Length
    modifies dst
    ensures forall j :: 0 <= j < dst.Length ==>
      dst[j] == if at <= j < at + |src| then src[j - at]
                else if j == at + |src| then '\0' else old(dst[j])
  {
    for i := 0 to |src|
      invariant forall j :: 0 <= j < dst.Length ==>
        dst[j] == if at <= j < at + i then src[j - at] else old(dst[j])
    {
      dst[at + i] := src[i];
    }
    dst[at + |src|] := '\0';
  }

  /** Output written so far: `text`, then only terminators. */
  ghost predicate Filled(buf: seq<char>, text: string) {
    && |text| <= |buf|
    && buf[..|text|] == text
    && forall i :: |text| <= i < |buf| ==> buf[i] == '\0'
  }

  lemma {:induction false} FilledMore(before: seq<char>, after: seq<char>, text: string, more: string)
    requires Filled(before, text) && |text| + |more| < |before|
    requires |after| == |before|
    requires forall j :: 0 <= j < |text| ==> after[j] == before[j]
    requires forall j :: |text| <= j < |text| + |more| ==> after[j] == more[j - |text|]
    requires forall j :: |text| + |more| <= j < |after| ==> after[j] == '\0'
    ensures Filled(after, text + more)
  {
  }

  /** strcpy() at the end of the text written so far. */
  method Append(buf: array<char>, at: nat, more: string, ghost text: string) returns (at': nat)
    requires Filled(buf[..], text) && at == |text| && at + |more| < buf.Length
    modifies buf
    ensures Filled(buf[..], text + more) && at' == at + |more|
  {
    StrCpy(buf, at, more);
    at' := at + |more|;
    FilledMore(old(buf[..]), buf[..], text, more);
  }

  /** buf[at++] = c at the end of the text written so far. */
  method AppendChar(buf: array<char>, at: nat, c: char, ghost text: string) returns (at': nat)
    requires Filled(buf[..], text) && at == |text| && at + 1 < buf.Length
    modifies buf
    ensures Filled(buf[..], text + [c]) && at' == at + 1
  {
    buf[at] := c;
    at' := at + 1;
    FilledMore(old(buf[..]), buf[..], text, [c]);
  }

  /** strncpy(dst + at, src + from, n), the n characters being inside `src`. */
  method StrNCpy(dst: array<char>, at: nat, src: string, from: nat, n: nat)
    requires at + n <= dst.Length && from + n <= |src|
    modifies dst
    ensures forall k :: 0 <= k < dst.Length ==>
      dst[k] == if at <= k < at + n then src[from + k - at] else old(dst[k])
  {
    for i := 0 to n
      invariant forall k :: 0 <= k < dst.Length ==>
        dst[k] == if at <= k < at + i then src[from + k - at] else old(dst[k])
    {
      dst[at + i] := src[from + i];
    }
  }
}
