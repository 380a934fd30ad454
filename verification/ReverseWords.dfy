/** The words of a line in reverse order, separated by single spaces. */
module ReverseWords {
  import opened Sequences
  import opened CStrings

  // ----- words -----

  ghost predicate IsWord(w: string) {
    w != "" && ' ' !in w
  }

  function WordRun(s: string): (k: nat)
    ensures k <= |s| && ' ' !in s[..k]
    ensures k < |s| ==> s[k] == ' '
  {
    if s == "" || s[0] == ' ' then 0
    else
      var k := 1 + WordRun(s[1..]);
      assert s[..k] == [s[0]] + s[1..][..k - 1];
      k
  }

  /** The maximal runs of other characters than the space, in order. */
  function Words(s: string): (ws: seq<string>)
    ensures forall i :: 0 <= i < |ws| ==> IsWord(ws[i])
  {
    if s == "" then []
    else if s[0] == ' ' then Words(s[1..])
    else [s[..WordRun(s)]] + Words(s[WordRun(s)..])
  }

  /** Words separated by single spaces. */
  function Join(ws: seq<string>): string {
    if ws == [] then ""
    else if |ws| == 1 then ws[0]
    else Join(Init(ws)) + " " + Last(ws)
  }

  /** What reverseWords() is for. */
  function Reversed(s: string): string {
    Join(Reverse(Words(s)))
  }

  lemma {:induction false} WordRunStops(w: string, t: string)
    requires ' ' !in w && (t == "" || t[0] == ' ')
    ensures WordRun(w + t) == |w|
  {
    if w == "" {
      assert w + t == t;
    } else {
      assert (w + t)[1..] == w[1..] + t && w == [w[0]] + w[1..];
      WordRunStops(w[1..], t);
    }
  }

  /** A word in front of a boundary is the first word. */
  lemma {:induction false} WordsCons(w: string, t: string)
    requires IsWord(w) && (t == "" || t[0] == ' ')
    ensures Words(w + t) == [w] + Words(t)
  {
    WordRunStops(w, t);
    assert w[0] in w && (w + t)[0] == w[0];
    assert (w + t)[..|w|] == w && (w + t)[|w|..] == t;
  }

  lemma {:induction false} WordsSpace(t: string)
    ensures Words(" " + t) == Words(t)
  {
    assert (" " + t)[1..] == t;
  }

  /** A space separates. */
  lemma {:induction false} WordsConcat(a: string, b: string)
    ensures Words(a + (" " + b)) == Words(a) + Words(b)
    decreases |a|
  {
    var t := " " + b;
    if a == "" {
      assert a + t == t;
      WordsSpace(b);
    } else if a[0] == ' ' {
      assert (a + t)[1..] == a[1..] + t;
      WordsConcat(a[1..], b);
    } else {
      var k := WordRun(a);
      var w, a' := a[..k], a[k..];
      assert a + t == w + (a' + t) && a == w + a';
      WordsConcat(a', b);
      WordsCons(w, a' + t);
      WordsCons(w, a');
      assert [w] + (Words(a') + Words(b)) == [w] + Words(a') + Words(b);
    }
  }

  lemma {:induction false} WordsOne(w: string)
    requires IsWord(w)
    ensures Words(w) == [w]
  {
    WordsCons(w, "");
    assert w + "" == w && Words("") == [] && [w] + [] == [w];
  }

  /** Splitting undoes joining. */
  lemma {:induction false} WordsJoin(ws: seq<string>)
    requires forall i :: 0 <= i < |ws| ==> IsWord(ws[i])
    ensures Words(Join(ws)) == ws
  {
    if ws != [] {
      var init, w := Init(ws), Last(ws);
      WordsOne(w);
      if init == [] {
        assert ws == [w];
      } else {
        WordsJoin(init);
        WordsConcat(Join(init), w);
        assert Join(init) + " " + w == Join(init) + (" " + w);
        assert init + [w] == ws;
      }
    }
  }

  lemma {:induction false} ReverseKeepsWords(ws: seq<string>)
    requires forall i :: 0 <= i < |ws| ==> IsWord(ws[i])
    ensures forall i :: 0 <= i < |Reverse(ws)| ==> IsWord(Reverse(ws)[i])
  {
    forall i | 0 <= i < |Reverse(ws)| ensures IsWord(Reverse(ws)[i]) {
      ReverseAt(ws, i);
    }
  }

  /** The output consists of the input's words in reverse order. */
  lemma {:induction false} WordsReversed(s: string)
    ensures Words(Reversed(s)) == Reverse(Words(s))
  {
    ReverseKeepsWords(Words(s));
    WordsJoin(Reverse(Words(s)));
  }

  /** Reversing twice only normalises the spacing. */
  lemma {:induction false} ReversedTwice(s: string)
    ensures Reversed(Reversed(s)) == Join(Words(s))
    ensures Words(Reversed(Reversed(s))) == Words(s)
  {
    WordsReversed(s);
    ReverseTwice(Words(s));
    WordsJoin(Words(s));
  }

  lemma {:induction false} JoinEmpty(ws: seq<string>)
    requires forall i :: 0 <= i < |ws| ==> IsWord(ws[i])
    ensures Join(ws) == "" <==> ws == []
  {
  }

  lemma {:induction false} ReversedEmpty(t: string)
    ensures Reversed(t) == "" <==> Words(t) == []
  {
    ReverseKeepsWords(Words(t));
    JoinEmpty(Reverse(Words(t)));
  }

  /** Output `text` followed by one more word. */
  function More(text: string, w: string): string {
    if text == "" then w else text + " " + w
  }

  /** One more word in front of the input is one more word at the end of the
      output. */
  lemma {:induction false} ReversedCons(w: string, t: string)
    requires IsWord(w) && (t == "" || t[0] == ' ')
    ensures Reversed(w + t) == More(Reversed(t), w)
  {
    WordsCons(w, t);
    ReverseCons(w, Words(t));
    ReversedEmpty(t);
    var r := Reverse(Words(t));
    assert Init(r + [w]) == r;
  }

  lemma {:induction false} ReadWord(s: string, b: nat, e: nat)
    requires b < e <= |s| && ' ' !in s[b..e] && (e == |s| || s[e] == ' ')
    ensures Reversed(s[b..]) == More(Reversed(s[e..]), s[b..e])
  {
    assert s[b..] == s[b..e] + s[e..];
    ReversedCons(s[b..e], s[e..]);
  }

  lemma {:induction false} SkipSpace(s: string, i: nat)
    requires i < |s| && s[i] == ' '
    ensures Reversed(s[i..]) == Reversed(s[i + 1..])
  {
    assert s[i..] == " " + s[i + 1..];
    WordsSpace(s[i + 1..]);
  }

  // ----- the program -----

  /** Append the word s[b..e], after a space unless it is the first. */
  method AppendWord(r: array<char>, j: nat, s: string, b: nat, e: nat, ghost text: string) returns (j': nat)
    requires b < e <= |s| && r.Length == |s| + 1
    requires Filled(r[..], text) && j == |text| && (j == 0 || j + 1 <= |s| - e)
    modifies r
    ensures Filled(r[..], More(text, s[b..e])) && j' == |More(text, s[b..e])| <= |s| - b
  {
    ghost var w := s[b..e];
    var k := j;
    if k != 0 {
      k := AppendChar(r, k, ' ', text);
    }
    ghost var before, written := r[..], if j == 0 then text else text + " ";
    StrNCpy(r, k, s, b, e - b);
    j' := k + e - b;
    FilledMore(before, r[..], written, w);
    assert written + w == More(text, w);
  }

  /** The part of the line read when the index has come down to `i`. */
  ghost function Read(s: string, i: int): string
    requires -2 <= i < |s|
  {
    if i < 0 then s else s[i + 1..]
  }

  /** Skip spaces downwards. */
  method SkipSpaces(s: string, i: nat) returns (i': int)
    requires i < |s|
    ensures -1 <= i' <= i && (i' >= 0 ==> s[i'] != ' ')
    ensures Reversed(s[i' + 1..]) == Reversed(s[i + 1..])
    ensures i' == i || s[i' + 1] == ' '
  {
    i' := i;
    while i' != -1 && s[i'] == ' '
      invariant -1 <= i' <= i && Reversed(s[i' + 1..]) == Reversed(s[i + 1..])
      invariant i' == i || s[i' + 1] == ' '
    {
      SkipSpace(s, i');
      i' := i' - 1;
    }
  }

  /** Skip a word downwards. */
  method SkipWord(s: string, e: nat) returns (i: int)
    requires e < |s| && s[e] != ' '
    ensures -1 <= i < e && ' ' !in s[i + 1..e + 1] && (i >= 0 ==> s[i] == ' ')
  {
    i := e;
    while i >= 0 && s[i] != ' '
      invariant -1 <= i <= e && forall k :: i < k <= e ==> s[k] != ' '
    {
      i := i - 1;
    }
  }

  /** Reading one more word, s[i + 2..e], and the space in front of it if there
      is one. */
  lemma {:induction false} ReadWordAndSpace(s: string, i: int, e: nat)
    requires -2 <= i < e - 2 < |s| - 1 && ' ' !in s[i + 2..e]
    requires (e == |s| || s[e] == ' ') && (i >= -1 ==> s[i + 1] == ' ')
    ensures Reversed(Read(s, i)) == More(Reversed(s[e..]), s[i + 2..e])
  {
    ReadWord(s, i + 2, e);
    if i >= -1 {
      SkipSpace(s, i + 1);
    }
  }

  /** Copy the word that ends at `wordEnd`, and step over the space in front. */
  method ReadOne(r: array<char>, j: nat, s: string, wordEnd: nat, ghost text: string) returns (i: int, j': nat)
    requires wordEnd < |s| && s[wordEnd] != ' ' && (wordEnd + 1 == |s| || s[wordEnd + 1] == ' ') && r.Length == |s| + 1
    requires Filled(r[..], text) && j == |text| && (j == 0 || j + 1 <= |s| - (wordEnd + 1))
    modifies r
    ensures -2 <= i < wordEnd - 1 && ' ' !in s[i + 2..wordEnd + 1] && (i >= -1 ==> s[i + 1] == ' ')
    ensures Filled(r[..], More(text, s[i + 2..wordEnd + 1]))
    ensures j' == |More(text, s[i + 2..wordEnd + 1])| <= |s| - (i + 2)
  {
    i := SkipWord(s, wordEnd);
    var wordBegin := if i == -1 then 0 else i + 1;
    j' := AppendWord(r, j, s, wordBegin, wordEnd + 1, text);
    i := i - 1;
  }

  /** The buffer holds what the part read so far becomes, and there is room for
      a space and the rest. */
  ghost predicate Progress(s: string, i: int, text: string) {
    && -2 <= i < |s| && text == Reversed(Read(s, i)) && |text| <= |s|
    && (i >= 0 ==> (text == "" || |text| + 1 <= |s| - (i + 1)) && (i + 1 == |s| || s[i + 1] == ' '))
  }

  lemma {:induction false} ProgressAt(s: string, i: int, text: string)
    requires -2 <= i < |s| - 1 && (i >= -1 ==> s[i + 1] == ' ')
    requires text == Reversed(Read(s, i)) && |text| <= |s| - (i + 2)
    ensures Progress(s, i, text)
  {
  }

  lemma {:induction false} ProgressWord(s: string, i: int, wordEnd: nat, text: string)
    requires -2 <= i < wordEnd - 1 < |s| - 1 && (wordEnd + 1 == |s| || s[wordEnd + 1] == ' ')
    requires ' ' !in s[i + 2..wordEnd + 1] && (i >= -1 ==> s[i + 1] == ' ')
    requires text == Reversed(s[wordEnd + 1..]) && |More(text, s[i + 2..wordEnd + 1])| <= |s| - (i + 2)
    ensures Progress(s, i, More(text, s[i + 2..wordEnd + 1]))
  {
    if i == -2 {
      ReadWordAndSpace(s, -2, wordEnd + 1);
      ProgressAt(s, -2, More(text, s[0..wordEnd + 1]));
    } else {
      ReadWordAndSpace(s, i, wordEnd + 1);
      ProgressAt(s, i, More(text, s[i + 2..wordEnd + 1]));
    }
  }

  /** One round of the main loop; `i' == -1` says that only spaces were left. */
  method Round(r: array<char>, j: nat, s: string, i: nat, ghost text: string)
    returns (i': int, j': nat, stop: bool, ghost text': string)
    requires Progress(s, i, text) && r.Length == |s| + 1 && Filled(r[..], text) && j == |text|
    modifies r
    ensures i' < i && Progress(s, i', text') && Filled(r[..], text') && j' == |text'|
    ensures stop ==> i' == -1
  {
    i' := SkipSpaces(s, i);
    if i' == -1 {
      return i', j, true, text;
    }
    ghost var wordEnd := i';
    i', j' := ReadOne(r, j, s, i', text);
    ProgressWord(s, i', wordEnd, text);
    return i', j', false, More(text, s[i' + 2..wordEnd + 1]);
  }

  /** reverseWords(): the buffer has room for the whole output. */
  method ReverseWords(s: string) returns (r: array<char>)
    ensures fresh(r) && r.Length == |s| + 1
    ensures |Reversed(s)| <= |s| && CText(r, Reversed(s))
  {
    r := new char[|s| + 1](_ => '\0');
    if |s| == 0 {
      return;
    }
    var i, j: nat := |s| - 1, 0;
    ghost var text := "";
    assert Read(s, i) == "" && s[0..] == s;
    while i >= 0
      invariant Progress(s, i, text) && Filled(r[..], text) && j == |text|
    {
      var stop;
      i, j, stop, text := Round(r, j, s, i, text);
      if stop {
        return;
      }
    }
  }
}
