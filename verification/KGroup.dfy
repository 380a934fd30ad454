/** Reversing a singly linked list in groups of k, in place. */
module KGroup {
  import opened Sequences

  class ListNode {
    var val: int
    var next: ListNode?

    constructor (val: int, next: ListNode?)
      ensures this.val == val && this.next == next
    {
      this.val := val;
      this.next := next;
    }
  }

  // ----- the specification on sequences -----

  /** Every full group of k reversed, a shorter remainder kept. */
  function Groups<T>(s: seq<T>, k: nat): (r: seq<T>)
    requires k >= 1
    ensures |r| == |s|
  {
    if |s| < k then s else Reverse(s[..k]) + Groups(s[k..], k)
  }

  lemma {:induction false} GroupsPermutes<T>(s: seq<T>, k: nat)
    requires k >= 1
    ensures multiset(Groups(s, k)) == multiset(s)
  {
    if |s| >= k {
      ReversePermutes(s[..k]);
      GroupsPermutes(s[k..], k);
      assert s == s[..k] + s[k..];
    }
  }

  /** Grouping twice restores the original order. */
  lemma {:induction false} GroupsTwice<T>(s: seq<T>, k: nat)
    requires k >= 1
    ensures Groups(Groups(s, k), k) == s
  {
    if |s| >= k {
      var a, b := Reverse(s[..k]), Groups(s[k..], k);
      assert (a + b)[..k] == a && (a + b)[k..] == b;
      ReverseTwice(s[..k]);
      GroupsTwice(s[k..], k);
    }
  }

  function Times(i: nat, k: nat): nat {
    if i == 0 then 0 else Times(i - 1, k) + k
  }

  lemma {:induction false} TimesIsProduct(i: nat, k: nat)
    ensures Times(i, k) == i * k
  {
    if i > 0 {
      TimesIsProduct(i - 1, k);
      assert i * k == (i - 1) * k + k;
    }
  }

  /** n / k groups of k fit into n nodes, and fewer than k nodes are left. */
  lemma {:induction false} GroupsFit(n: nat, k: nat)
    requires k >= 1
    ensures n - k < Times(n / k, k) <= n
  {
    TimesIsProduct(n / k, k);
  }

  lemma {:induction false} FirstGroup<T>(s: seq<T>, k: nat, j: nat)
    requires j < k <= |s|
    ensures Groups(s, k)[j] == s[k - 1 - j]
  {
    ReverseAt(s[..k], j);
  }

  lemma {:induction false} LaterGroups<T>(s: seq<T>, k: nat, p: nat)
    requires 1 <= k && k + p < |s|
    ensures Groups(s, k)[k + p] == Groups(s[k..], k)[p]
  {
    var first := Reverse(s[..k]);
    assert Groups(s, k) == first + Groups(s[k..], k);
  }

  lemma {:induction false} GroupsShift<T>(s: seq<T>, k: nat, at: nat, from: nat)
    requires 1 <= k && k + at < |s| && k + from < |s| && Groups(s[k..], k)[at] == s[k..][from]
    ensures Groups(s, k)[k + at] == s[k + from]
  {
    LaterGroups(s, k, at);
  }

  lemma {:induction false} GroupAt<T>(s: seq<T>, k: nat, i: nat, j: nat)
    requires j < k && Times(i, k) + k <= |s|
    ensures Groups(s, k)[Times(i, k) + j] == s[Times(i, k) + k - 1 - j]
  {
    if i == 0 {
      FirstGroup(s, k, j);
    } else {
      var at, from := Times(i - 1, k) + j, Times(i - 1, k) + k - 1 - j;
      GroupAt(s[k..], k, i - 1, j);
      GroupsShift(s, k, at, from);
      assert Times(i, k) + j == k + at && Times(i, k) + k - 1 - j == k + from;
    }
  }

  /** Position by position: group i runs backwards. */
  lemma {:induction false} GroupRunsBackwards<T>(s: seq<T>, k: nat, i: nat, j: nat)
    requires j < k && i * k + k <= |s|
    ensures i * k >= 0 && Groups(s, k)[i * k + j] == s[i * k + k - 1 - j]
  {
    TimesIsProduct(i, k);
    GroupAt(s, k, i, j);
  }

  lemma {:induction false} BehindGroups<T>(s: seq<T>, k: nat, i: nat, p: nat)
    requires k >= 1 && |s| - k < Times(i, k) <= p < |s|
    ensures Groups(s, k)[p] == s[p]
  {
    if i > 0 {
      BehindGroups(s[k..], k, i - 1, p - k);
      LaterGroups(s, k, p - k);
    }
  }

  /** What is left over after the last full group keeps its order. */
  lemma {:induction false} RemainderKept<T>(s: seq<T>, k: nat, p: nat)
    requires k >= 1 && |s| / k * k <= p < |s|
    ensures Groups(s, k)[p] == s[p]
  {
    TimesIsProduct(|s| / k, k);
    GroupsFit(|s|, k);
    BehindGroups(s, k, |s| / k, p);
  }

  // ----- chains of nodes -----

  ghost predicate Path(s: seq<ListNode>)
    reads s
  {
    forall i :: 1 <= i < |s| ==> s[i - 1].next == s[i]
  }

  /** The nodes of `s` linked in order, the last one to `end`. */
  ghost predicate Chain(s: seq<ListNode>, end: ListNode?)
    reads s
  {
    Distinct(s) && Path(s) && (s != [] ==> s[|s| - 1].next == end)
  }

  lemma {:induction false} PathParts(a: seq<ListNode>, b: seq<ListNode>)
    requires Path(a + b)
    ensures Path(a) && Path(b)
    ensures a != [] && b != [] ==> a[|a| - 1].next == b[0]
  {
    var s := a + b;
    forall i | 1 <= i < |a| ensures a[i - 1].next == a[i] {
      assert s[i - 1].next == s[i];
    }
    forall i | 1 <= i < |b| ensures b[i - 1].next == b[i] {
      assert s[|a| + i - 1].next == s[|a| + i];
    }
    if a != [] && b != [] {
      assert s[|a| - 1].next == s[|a|];
    }
  }

  lemma {:induction false} PathJoin(a: seq<ListNode>, b: seq<ListNode>)
    requires Path(a) && Path(b)
    requires a != [] && b != [] ==> a[|a| - 1].next == b[0]
    ensures Path(a + b)
  {
    var s := a + b;
    forall i | 1 <= i < |s| ensures s[i - 1].next == s[i] {
      if i < |a| {
        assert a[i - 1].next == a[i];
      } else if i > |a| {
        assert b[i - |a| - 1].next == b[i - |a|];
      }
    }
  }

  /** A path does not depend on the `next` of its last node. */
  twostate lemma StillPath(s: seq<ListNode>)
    requires old(Path(s)) && Distinct(s)
    requires forall m :: m in s && m != s[|s| - 1] ==> m.next == old(m.next)
    ensures Path(s)
  {
    forall i | 1 <= i < |s| ensures s[i - 1].next == s[i] {
      assert old(s[i - 1].next == s[i]) && s[i - 1] in s;
    }
  }

  /** `p` points to the first node of the null-terminated list `s`. */
  ghost predicate List(p: ListNode?, s: seq<ListNode>)
    reads s
  {
    Chain(s, null) && p == if s == [] then null else s[0]
  }

  method Insert(pre: ListNode, middle: ListNode)
    modifies middle`next, pre`next
    ensures pre != middle ==> middle.next == old(pre.next)
    ensures pre.next == middle
  {
    middle.next := pre.next;
    pre.next := middle;
  }

  /** Nothing happens unless `middle` is next after `pre`. */
  method RemoveNode(pre: ListNode, middle: ListNode)
    modifies pre`next, middle`next
    ensures old(pre.next) == middle ==> middle.next == null && (pre != middle ==> pre.next == old(middle.next))
    ensures old(pre.next) != middle ==> pre.next == old(pre.next) && middle.next == old(middle.next)
  {
    if pre.next == middle {
      pre.next := middle.next;
      middle.next := null;
    }
  }

  method GetSize(head: ListNode?, ghost s: seq<ListNode>) returns (n: nat)
    requires List(head, s)
    ensures n == |s|
  {
    n := 0;
    var p := head;
    while p != null
      invariant n <= |s| && p == if n < |s| then s[n] else null
      decreases |s| - n
    {
      n := n + 1;
      p := p.next;
    }
  }

  method GetNodeByIndex(prefixHead: ListNode, index: nat, ghost s: seq<ListNode>) returns (p: ListNode)
    requires Chain(s, null) && index < |s| && prefixHead == s[0]
    ensures p == s[index]
  {
    p := prefixHead;
    for i := 0 to index
      invariant p == s[i]
    {
      assert s[i + 1 - 1].next == s[i + 1];
      p := p.next;
    }
  }

  /** The pieces of the list one step of do_revert() works on. */
  ghost predicate Pieces(head: ListNode, r: seq<ListNode>, p: ListNode, rest: seq<ListNode>, end: ListNode?)
    requires r != []
    reads {head, p}, r, rest
  {
    && Distinct(r) && Distinct(rest) && Apart(r, rest)
    && head != p && head !in r && head !in rest && p !in r && p !in rest
    && Path(r) && Path(rest)
    && head.next == r[0] && r[|r| - 1].next == p
    && p.next == (if rest == [] then end else rest[0])
    && (rest != [] ==> rest[|rest| - 1].next == end)
  }

  lemma {:induction false} TakeApart(head: ListNode, r: seq<ListNode>, p: ListNode, rest: seq<ListNode>, end: ListNode?)
    requires Chain([head] + r + [p] + rest, end) && r != []
    ensures Pieces(head, r, p, rest, end)
  {
    var h, hr, hrp := [head], [head] + r, [head] + r + [p];
    DistinctParts(hrp, rest);
    DistinctParts(hr, [p]);
    DistinctParts(h, r);
    PathParts(hrp, rest);
    PathParts(hr, [p]);
    PathParts(h, r);
    assert head in hr && p in hrp && head in hrp && forall x :: x in r ==> x in hr && x in hrp;
    assert hr[|r|] == r[|r| - 1] && hrp[|r| + 1] == p;
  }

  /** One step of do_revert(): `p`, next after `pre`, moves right behind `head`. */
  method MoveToFront(head: ListNode, pre: ListNode, p: ListNode, ghost r: seq<ListNode>, ghost rest: seq<ListNode>,
                     ghost end: ListNode?)
    requires r != [] && Pieces(head, r, p, rest, end) && pre == r[|r| - 1]
    modifies head`next, pre`next, p`next
    ensures Chain([head, p] + r + rest, end)
  {
    assert pre in r;
    RemoveNode(pre, p);
    Insert(head, p);
    StillPath(r);
    StillPath(rest);
    PathJoin([head, p], r);
    PathJoin([head, p] + r, rest);
    DistinctJoin([head, p], r);
    DistinctJoin([head, p] + r, rest);
  }

  /** The list when do_revert() has moved all but the last |b| - j nodes. */
  ghost function Midway(head: ListNode, b: seq<ListNode>, j: nat): seq<ListNode>
    requires j <= |b|
  {
    [head] + Reverse(b[..j]) + b[j..]
  }

  lemma {:induction false} MidwayNext(head: ListNode, b: seq<ListNode>, j: nat)
    requires 1 <= j < |b|
    ensures var r, rest := Reverse(b[..j]), b[j + 1..];
            && r != []
            && Midway(head, b, j) == [head] + r + [b[j]] + rest
            && Midway(head, b, j + 1) == [head, b[j]] + r + rest
            && Last(Reverse(b[..j + 1])) == Last(r)
  {
    assert b[j..] == [b[j]] + b[j + 1..];
    assert b[..j + 1][..j] == b[..j];
    assert Reverse(b[..j + 1]) == [b[j]] + Reverse(b[..j]);
  }

  /** The body of the loop of do_revert(). */
  method RevertStep(head: ListNode, pre: ListNode, p: ListNode, ghost b: seq<ListNode>, ghost j: nat,
                    ghost end: ListNode?)
    returns (after: ListNode?)
    requires 1 <= j < |b| && p == b[j] && Chain(Midway(head, b, j), end) && pre == Last(Reverse(b[..j]))
    modifies head`next, pre`next, p`next
    ensures Chain(Midway(head, b, j + 1), end) && pre == Last(Reverse(b[..j + 1]))
    ensures after == if j + 1 < |b| then b[j + 1] else end
  {
    ghost var r, rest := Reverse(b[..j]), b[j + 1..];
    MidwayNext(head, b, j);
    TakeApart(head, r, p, rest, end);
    after := p.next;
    MoveToFront(head, pre, p, r, rest, end);
  }

  lemma {:induction false} BeforeRevert(head: ListNode, b: seq<ListNode>, end: ListNode?)
    requires b != [] && Chain([head] + b, end)
    ensures head.next == b[0] && b[0].next == (if |b| > 1 then b[1] else end)
    ensures Chain(Midway(head, b, 1), end) && Reverse(b[..1]) == [b[0]]
  {
    var s := [head] + b;
    assert s[1 - 1].next == s[1] && (|b| > 1 ==> s[2 - 1].next == s[2]);
    assert b[..1] == [b[0]] && Midway(head, b, 1) == s;
  }

  /** do_revert(): the nodes strictly between `head` and `tail` are reversed. */
  method DoRevert(head: ListNode, tail: ListNode?, ghost b: seq<ListNode>)
    requires b != [] && Chain([head] + b, tail) && tail !in b
    modifies (set m | m in [head] + b)`next
    ensures Chain([head] + Reverse(b), tail)
  {
    ghost var s := [head] + b;
    assert head in s && forall m :: m in b ==> m in s;
    BeforeRevert(head, b, tail);
    var pre := head.next;
    var p := pre.next;
    ghost var j := 1;
    while p != tail
      invariant 1 <= j <= |b| && pre == b[0] == Last(Reverse(b[..j]))
      invariant Chain(Midway(head, b, j), tail)
      invariant p == if j < |b| then b[j] else tail
      decreases |b| - j
    {
      p := RevertStep(head, pre, p, b, j, tail);
      j := j + 1;
    }
    assert b[..j] == b && Midway(head, b, j) == [head] + Reverse(b);
  }

  /** A middle part of a null-terminated chain. */
  lemma {:induction false} ChainMiddle(a: seq<ListNode>, m: seq<ListNode>, b: seq<ListNode>)
    requires Chain(a + m + b, null) && m != []
    ensures Chain(m, if b == [] then null else b[0])
    ensures Distinct(a) && Distinct(b) && Apart(a, m) && Apart(a, b) && Apart(m, b)
    ensures Path(a) && (a != [] ==> a[|a| - 1].next == m[0]) && Chain(b, null)
  {
    DistinctParts(a + m, b);
    DistinctParts(a, m);
    PathParts(a + m, b);
    PathParts(a, m);
    assert forall x :: x in a || x in m ==> x in a + m;
    assert b != [] ==> (a + m + b)[|a + m + b| - 1] == b[|b| - 1];
  }

  lemma {:induction false} ChainAround(a: seq<ListNode>, m: seq<ListNode>, b: seq<ListNode>)
    requires Chain(m, if b == [] then null else b[0]) && m != []
    requires Distinct(a) && Apart(a, m) && Apart(a, b) && Apart(m, b)
    requires Path(a) && (a != [] ==> a[|a| - 1].next == m[0]) && Chain(b, null)
    ensures Chain(a + m + b, null)
  {
    PathJoin(a, m);
    PathJoin(a + m, b);
    DistinctJoin(a, m);
    DistinctJoin(a + m, b);
  }

  /** One round of reverseKGroup(): the group `b` behind `p1` is reversed where
      it is. */
  method ReverseGroup(p1: ListNode, p2: ListNode, ghost a: seq<ListNode>, ghost b: seq<ListNode>,
                      ghost c: seq<ListNode>)
    requires Chain(a + ([p1] + b) + c, null) && b != [] && p2 == b[|b| - 1]
    modifies (set m | m in [p1] + b)`next
    ensures Chain(a + ([p1] + Reverse(b)) + c, null)
  {
    ghost var m, tail := [p1] + b, if c == [] then null else c[0];
    ChainMiddle(a, m, c);
    ReverseNodes(b);
    assert m[|m| - 1] == p2;
    assert c != [] ==> c[0] in c && c[|c| - 1] in c;
    assert a != [] ==> a[|a| - 1] in a;
    DoRevert(p1, p2.next, b);
    StillPath(a);
    StillPath(c);
    assert Apart(a, [p1] + Reverse(b)) && Apart([p1] + Reverse(b), c);
    ChainAround(a, [p1] + Reverse(b), c);
  }

  lemma {:induction false} GroupOf(d: ListNode, done: seq<ListNode>, rest: seq<ListNode>, k: nat)
    requires 1 <= k <= |rest|
    ensures var all := [d] + done + rest;
            var front, p1, b, c := all[..|done|], all[|done|], rest[..k], rest[k..];
            && all == front + ([p1] + b) + c && all[|done| + k] == b[k - 1]
            && front + ([p1] + Reverse(b)) + c == [d] + (done + Reverse(b)) + c
  {
    var all := [d] + done + rest;
    assert [d] + done == all[..|done|] + [all[|done|]];
    assert rest == rest[..k] + rest[k..];
  }

  method ReverseNext(prefixHead: ListNode, at: nat, next: nat, k: nat, ghost done: seq<ListNode>,
                     ghost rest: seq<ListNode>)
    requires Chain([prefixHead] + done + rest, null) && 1 <= k <= |rest| && at == |done| && next == at + k
    modifies (set m | m in [prefixHead] + done + rest)`next
    ensures Chain([prefixHead] + (done + Reverse(rest[..k])) + rest[k..], null)
  {
    ghost var all := [prefixHead] + done + rest;
    GroupOf(prefixHead, done, rest, k);
    var p1 := GetNodeByIndex(prefixHead, at, all);
    var p2 := GetNodeByIndex(prefixHead, next, all);
    assert forall m :: m in [p1] + rest[..k] ==> m in all;
    ReverseGroup(p1, p2, all[..at], rest[..k], rest[k..]);
  }

  ghost predicate Within(a: seq<ListNode>, s: seq<ListNode>) {
    forall m :: m in a ==> m in s
  }

  lemma {:induction false} GroupDone<T>(done: seq<T>, rest: seq<T>, k: nat)
    requires 1 <= k <= |rest|
    ensures done + Reverse(rest[..k]) + Groups(rest[k..], k) == done + Groups(rest, k)
  {
  }

  lemma {:induction false} GroupWithin(done: seq<ListNode>, rest: seq<ListNode>, k: nat, s: seq<ListNode>)
    requires k <= |rest| && Within(done, s) && Within(rest, s)
    ensures Within(done + Reverse(rest[..k]), s) && Within(rest[k..], s)
  {
    ReversePermutes(rest[..k]);
    assert rest == rest[..k] + rest[k..];
    forall m | m in Reverse(rest[..k]) ensures m in s {
      assert m in multiset(Reverse(rest[..k])) && m in rest[..k] + rest[k..];
    }
    forall m | m in rest[k..] ensures m in s {
      assert m in rest[..k] + rest[k..];
    }
  }

  /** After `i` of the `rounds`: `done` holds the finished groups, `rest` what is
      still in its old order. */
  ghost predicate Progress(done: seq<ListNode>, rest: seq<ListNode>, i: nat, rounds: nat, k: nat, s: seq<ListNode>)
    requires k >= 1 && i <= rounds
  {
    && done + Groups(rest, k) == Groups(s, k)
    && |done| == Times(i, k)
    && |rest| - k < Times(rounds - i, k) <= |rest|
    && Within(done, s) && Within(rest, s)
  }

  lemma {:induction false} ProgressNext(done: seq<ListNode>, rest: seq<ListNode>, i: nat, rounds: nat, k: nat,
                                        s: seq<ListNode>)
    requires k >= 1 && i < rounds && Progress(done, rest, i, rounds, k, s)
    ensures k <= |rest| && Progress(done + Reverse(rest[..k]), rest[k..], i + 1, rounds, k, s)
  {
    GroupDone(done, rest, k);
    GroupWithin(done, rest, k, s);
  }

  lemma {:induction false} ProgressDone(d: ListNode, done: seq<ListNode>, rest: seq<ListNode>, rounds: nat, k: nat,
                                        s: seq<ListNode>)
    requires k >= 1 && Progress(done, rest, rounds, rounds, k, s)
    ensures [d] + done + rest == [d] + Groups(s, k)
  {
    assert Times(0, k) == 0 && Groups(rest, k) == rest;
    assert [d] + done + rest == [d] + (done + rest);
  }

  /** The body of the loop of reverseKGroup(). */
  method ReverseIth(prefixHead: ListNode, i: nat, k: nat, ghost rounds: nat, ghost done: seq<ListNode>,
                    ghost rest: seq<ListNode>,
                    ghost s: seq<ListNode>)
    returns (ghost done': seq<ListNode>, ghost rest': seq<ListNode>)
    requires k >= 1 && i < rounds && Progress(done, rest, i, rounds, k, s)
    requires Chain([prefixHead] + done + rest, null)
    modifies (set m | m in [prefixHead] + s)`next
    ensures Progress(done', rest', i + 1, rounds, k, s)
    ensures Chain([prefixHead] + done' + rest', null)
  {
    ghost var all := [prefixHead] + done + rest;
    assert forall m :: m in all ==> m in [prefixHead] + s;
    ProgressNext(done, rest, i, rounds, k, s);
    TimesIsProduct(i, k);
    TimesIsProduct(i + 1, k);
    ReverseNext(prefixHead, i * k, (i + 1) * k, k, done, rest);
    done', rest' := done + Reverse(rest[..k]), rest[k..];
  }

  /** The loop of reverseKGroup(). */
  method ReverseAll(prefixHead: ListNode, rounds: nat, k: nat, ghost s: seq<ListNode>)
    requires Chain([prefixHead] + s, null) && k >= 1 && |s| - k < Times(rounds, k) <= |s|
    modifies (set m | m in [prefixHead] + s)`next
    ensures Chain([prefixHead] + Groups(s, k), null)
  {
    ghost var done, rest := [], s;
    assert [prefixHead] + done + rest == [prefixHead] + s;
    for i := 0 to rounds
      invariant Chain([prefixHead] + done + rest, null)
      invariant Progress(done, rest, i, rounds, k, s)
    {
      done, rest := ReverseIth(prefixHead, i, k, rounds, done, rest, s);
    }
    ProgressDone(prefixHead, done, rest, rounds, k, s);
  }

  lemma {:induction false} TailOfChain(d: ListNode, g: seq<ListNode>)
    requires Chain([d] + g, null)
    ensures List(d.next, g)
  {
    DistinctParts([d], g);
    PathParts([d], g);
    assert g != [] ==> ([d] + g)[|g|] == g[|g| - 1];
  }

  /** reverseKGroup(): the same nodes, every full group of k reversed; no `val`
      is written. */
  method ReverseKGroup(head: ListNode?, k: nat, ghost s: seq<ListNode>) returns (r: ListNode?)
    requires List(head, s) && k >= 1
    modifies (set m | m in s)`next
    ensures List(r, Groups(s, k))
  {
    var prefixHead := new ListNode(0, head);
    assert prefixHead !in s;
    DistinctJoin([prefixHead], s);
    PathJoin([prefixHead], s);
    var n := GetSize(head, s);
    GroupsFit(n, k);
    ReverseAll(prefixHead, n / k, k, s);
    TailOfChain(prefixHead, Groups(s, k));
    r := prefixHead.next;
  }
}
