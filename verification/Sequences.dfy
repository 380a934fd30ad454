/** Sequences without repetition, sequences without a common element, reversal. */
module Sequences {

  ghost predicate Distinct<T>(r: seq<T>) {
    forall i, j :: 0 <= i < j < |r| ==> r[i] != r[j]
  }

  /** No element is in both. */
  ghost predicate Apart<T>(r: seq<T>, q: seq<T>) {
    forall x :: x in r ==> x !in q
  }

  ghost function Elems<T>(s: seq<T>): set<T> {
    set x | x in s
  }

  lemma {:induction false} DistinctParts<T>(a: seq<T>, b: seq<T>)
    requires Distinct(a + b)
    ensures Distinct(a) && Distinct(b) && Distinct(b + a) && Apart(a, b)
  {
    var r, r' := a + b, b + a;
    assert forall i :: 0 <= i < |a| ==> r[i] == a[i];
    assert forall i :: 0 <= i < |b| ==> r[|a| + i] == b[i];
    forall i, j | 0 <= i < j < |r'| ensures r'[i] != r'[j] {
      assert r'[i] == r[if i < |b| then i + |a| else i - |b|];
      assert r'[j] == r[if j < |b| then j + |a| else j - |b|];
    }
  }

  lemma {:induction false} DistinctJoin<T>(a: seq<T>, b: seq<T>)
    requires Distinct(a) && Distinct(b) && Apart(a, b)
    ensures Distinct(a + b)
  {
    var r := a + b;
    forall i, j | 0 <= i < j < |r| ensures r[i] != r[j] {
      if i < |a| <= j {
        assert a[i] in a && b[j - |a|] in b;
      }
    }
  }

  // ----- replacing an element -----

  ghost function Pos<T>(r: seq<T>, x: T): (k: nat)
    requires x in r
    ensures k < |r| && r[k] == x
  {
    var k :| 0 <= k < |r| && r[k] == x; k
  }

  /** The sequence r with m in the place of `x`. */
  ghost function Subst<T>(r: seq<T>, x: T, m: seq<T>): seq<T>
    requires x in r
  {
    r[..Pos(r, x)] + m + r[Pos(r, x) + 1..]
  }

  ghost function Without<T>(r: seq<T>, x: T): (s: seq<T>)
    requires x in r
    ensures forall n :: n in r && n != x ==> n in s
  {
    assert r == r[..Pos(r, x)] + [x] + r[Pos(r, x) + 1..];
    Subst(r, x, [])
  }

  lemma {:induction false} SplitAt<T>(r: seq<T>, x: T)
    requires x in r
    ensures r[..Pos(r, x)] + [x] + r[Pos(r, x) + 1..] == r
    ensures Subst(r, x, []) == Without(r, x)
  {
  }

  lemma {:induction false} SubstNodes<T>(r: seq<T>, x: T, m: seq<T>)
    requires Distinct(r) && x in r
    ensures x !in Without(r, x) && Distinct(Without(r, x))
    ensures forall n :: n in r <==> n == x || n in Without(r, x)
    ensures forall n :: n in Subst(r, x, m) <==> n in m || n in Without(r, x)
  {
    SplitAt(r, x);
    var a, b := r[..Pos(r, x)], r[Pos(r, x) + 1..];
    DistinctParts(a + [x], b);
    DistinctParts(a, [x]);
    DistinctParts(a, [x] + b);
    assert a + ([x] + b) == r;
    DistinctJoin(a, b);
  }

  /** In a sequence without repetition there is one way to split at `x`. */
  lemma {:induction false} SplitIsUnique<T>(a: seq<T>, x: T, b: seq<T>, c: seq<T>, d: seq<T>)
    requires Distinct(a + [x] + b) && a + [x] + b == c + [x] + d
    ensures a == c && b == d
  {
    var r := a + [x] + b;
    assert r[|a|] == x && (c + [x] + d)[|c|] == x;
    assert a == r[..|a|] && c == (c + [x] + d)[..|c|];
    assert b == r[|a| + 1..] && d == (c + [x] + d)[|c| + 1..];
  }

  lemma {:induction false} SubstIs<T>(r: seq<T>, a: seq<T>, x: T, b: seq<T>, m: seq<T>)
    requires Distinct(r) && r == a + [x] + b
    ensures x in r && Subst(r, x, m) == a + m + b && Without(r, x) == a + b
  {
    assert r[|a|] == x;
    var k := Pos(r, x);
    assert r[..k] + [x] + r[k + 1..] == r;
    SplitIsUnique(a, x, b, r[..k], r[k + 1..]);
    assert a + [] == a;
  }

  /** A sequence on both sides of `x`, and with `m` in its place. */
  lemma {:induction false} Halves<T>(r: seq<T>, x: T, m: seq<T>)
    returns (a: seq<T>, b: seq<T>)
    requires x in r
    ensures r == a + [x] + b && Subst(r, x, m) == a + m + b && Without(r, x) == a + b
    ensures forall n :: n == x || n in a || n in b ==> n in Elems(r)
  {
    a, b := r[..Pos(r, x)], r[Pos(r, x) + 1..];
    SplitAt(r, x);
    assert forall n :: n == x || n in a || n in b ==> n in a + [x] + b;
  }

  lemma {:induction false} DistinctSubst<T>(r: seq<T>, x: T, m: seq<T>)
    requires Distinct(r) && x in r && Distinct(m) && forall n :: n in m && n in r ==> n == x
    ensures Distinct(Subst(r, x, m))
  {
    var a, b := Halves(r, x, m);
    DistinctParts(a + [x], b);
    DistinctParts(a, [x]);
    assert forall n :: n in a || n in b ==> n in r && n != x by {
      assert x in [x] && x in a + [x];
    }
    assert forall n :: n in a ==> n in a + [x];
    DistinctJoin(a, m);
    DistinctJoin(a + m, b);
  }

  // ----- permutations -----

  lemma {:induction false} DistinctCounts<T>(s: seq<T>, x: T)
    requires Distinct(s)
    ensures multiset(s)[x] <= 1
  {
    if s != [] {
      var init := s[..|s| - 1];
      assert s == init + [s[|s| - 1]];
      DistinctCounts(init, x);
      assert s[|s| - 1] !in init;
    }
  }

  /** A permutation of a sequence without repetition has none. */
  lemma {:induction false} DistinctPermuted<T>(s: seq<T>, r: seq<T>)
    requires Distinct(s) && multiset(r) == multiset(s)
    ensures Distinct(r)
  {
    forall i, j | 0 <= i < j < |r| ensures r[i] != r[j] {
      DistinctCounts(s, r[i]);
      assert r == r[..i] + [r[i]] + r[i + 1..j] + [r[j]] + r[j + 1..];
    }
  }

  // ----- ends and reversal -----

  function Init<T>(s: seq<T>): seq<T>
    requires s != []
  {
    s[..|s| - 1]
  }

  function Last<T>(s: seq<T>): T
    requires s != []
  {
    s[|s| - 1]
  }

  function Reverse<T>(s: seq<T>): (r: seq<T>)
    ensures |r| == |s|
  {
    if s == [] then [] else [s[|s| - 1]] + Reverse(s[..|s| - 1])
  }

  lemma {:induction false} ReverseAt<T>(s: seq<T>, i: nat)
    requires i < |s|
    ensures Reverse(s)[i] == s[|s| - 1 - i]
  {
    if i > 0 {
      ReverseAt(s[..|s| - 1], i - 1);
    }
  }

  lemma {:induction false} ReverseTwice<T>(s: seq<T>)
    ensures Reverse(Reverse(s)) == s
  {
    var r := Reverse(s);
    forall i | 0 <= i < |s| ensures Reverse(r)[i] == s[i] {
      ReverseAt(r, i);
      ReverseAt(s, |s| - 1 - i);
    }
  }

  lemma {:induction false} ReversePermutes<T>(s: seq<T>)
    ensures multiset(Reverse(s)) == multiset(s)
  {
    if s != [] {
      ReversePermutes(s[..|s| - 1]);
      assert s == s[..|s| - 1] + [s[|s| - 1]];
    }
  }

  lemma {:induction false} ReverseNodes<T>(s: seq<T>)
    ensures forall x :: x in Reverse(s) <==> x in s
  {
    if s != [] {
      ReverseNodes(s[..|s| - 1]);
      assert s == s[..|s| - 1] + [s[|s| - 1]];
    }
  }

  lemma {:induction false} ReverseCons<T>(x: T, s: seq<T>)
    ensures Reverse([x] + s) == Reverse(s) + [x]
  {
    if s != [] {
      assert ([x] + s)[..|s|] == [x] + s[..|s| - 1];
      ReverseCons(x, s[..|s| - 1]);
    }
  }
}
