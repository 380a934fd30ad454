/** The circular doubly linked lists of `list.h`. A ring is described by the
    sequence of its nodes, starting anywhere (`Rotate`); a list is the ring of
    its head followed by its entries. */
module Rings {
  import opened Sequences

  /** Poisoned links are null. */
  class ListHead {
    var next: ListHead?
    var prev: ListHead?

    /** INIT_LIST_HEAD on a new node. */
    constructor ()
      ensures next == this && prev == this
    {
      next := this;
      prev := this;
    }
  }

  ghost predicate Linked(a: ListHead, b: ListHead)
    reads a, b
  {
    a.next == b && b.prev == a
  }

  ghost predicate Path(s: seq<ListHead>)
    reads s
  {
    forall i :: 1 <= i < |s| ==> Linked(s[i - 1], s[i])
  }

  /** Following `next` goes once around `r`, following `prev` goes back. */
  ghost predicate Ring(r: seq<ListHead>)
    reads r
  {
    r != [] && Distinct(r) && Path(r) && Linked(r[|r| - 1], r[0])
  }

  lemma {:induction false} PathParts(a: seq<ListHead>, b: seq<ListHead>)
    requires Path(a + b)
    ensures Path(a) && Path(b)
    ensures a != [] && b != [] ==> Linked(a[|a| - 1], b[0])
  {
    var s := a + b;
    forall i | 1 <= i < |a| ensures Linked(a[i - 1], a[i]) {
      assert Linked(s[i - 1], s[i]);
    }
    forall i | 1 <= i < |b| ensures Linked(b[i - 1], b[i]) {
      assert Linked(s[|a| + i - 1], s[|a| + i]);
    }
    if a != [] && b != [] {
      assert Linked(s[|a| - 1], s[|a|]);
    }
  }

  lemma {:induction false} PathJoin(a: seq<ListHead>, b: seq<ListHead>)
    requires Path(a) && Path(b)
    requires a != [] && b != [] ==> Linked(a[|a| - 1], b[0])
    ensures Path(a + b)
  {
    var s := a + b;
    forall i | 1 <= i < |s| ensures Linked(s[i - 1], s[i]) {
      if i < |a| {
        assert Linked(a[i - 1], a[i]);
      } else if i > |a| {
        assert Linked(b[i - |a| - 1], b[i - |a|]);
      }
    }
  }

  /** A path does not depend on the `prev` of its first node nor on the `next`
      of its last one. */
  twostate lemma StillPath(s: seq<ListHead>)
    requires old(Path(s)) && Distinct(s)
    requires forall m :: m in s && m != s[0] ==> m.prev == old(m.prev)
    requires forall m :: m in s && m != s[|s| - 1] ==> m.next == old(m.next)
    ensures Path(s)
  {
    forall i | 1 <= i < |s| ensures Linked(s[i - 1], s[i]) {
      assert old(Linked(s[i - 1], s[i])) && s[i - 1] in s && s[i] in s;
    }
  }

  /** The same ring, started elsewhere. */
  lemma {:induction false} Rotate(a: seq<ListHead>, b: seq<ListHead>)
    requires Ring(a + b)
    ensures Ring(b + a)
  {
    DistinctParts(a, b);
    PathParts(a, b);
    if a == [] || b == [] {
      assert b + a == a + b;
    } else {
      PathJoin(b, a);
    }
  }

  // ----- the three link primitives, at the end of a ring -----

  method InitListHead(list: ListHead)
    modifies list
    ensures Ring([list])
  {
    list.next := list;
    list.prev := list;
  }

  /** __list_add() between the last and the first node of a ring. */
  method AddBetween(x: ListHead, prev: ListHead, next: ListHead, ghost r: seq<ListHead>)
    requires Ring(r) && x !in r && prev == r[|r| - 1] && next == r[0]
    modifies x, prev`next, next`prev
    ensures Ring(r + [x])
  {
    next.prev := x;
    x.next := next;
    x.prev := prev;
    prev.next := x;
    assert Path(r) by {
      assert old(Path(r));
    }
    PathJoin(r, [x]);
  }

  /** __list_del_entry() of the last node of a ring; it keeps its own links. */
  method DelEntry(entry: ListHead, ghost r: seq<ListHead>)
    requires Ring(r + [entry])
    modifies r, entry
    ensures r != [] ==> Ring(r) && entry.next == old(entry.next) && entry.prev == old(entry.prev)
    ensures r == [] ==> Ring([entry])
  {
    DistinctParts(r, [entry]);
    PathParts(r, [entry]);
    var prev, next := entry.prev, entry.next;
    next.prev := prev;
    prev.next := next;
    assert Path(r) by {
      assert old(Path(r));
    }
  }

  /** list_replace() of the last node of a ring, which keeps its own links. If
      it was alone, the new node is alone in its place. */
  method ListReplace(o: ListHead, n: ListHead, ghost r: seq<ListHead>)
    requires Ring(r + [o]) && n !in r + [o]
    modifies n, r, o
    ensures Ring(r + [n])
    ensures r != [] ==> o.next == old(o.next) && o.prev == old(o.prev)
  {
    DistinctParts(r, [o]);
    PathParts(r, [o]);
    n.next := o.next;
    n.next.prev := n;
    n.prev := o.prev;
    n.prev.next := n;
    assert Path(r) by {
      assert old(Path(r));
    }
    PathJoin(r, [n]);
    DistinctJoin(r, [n]);
  }

  // ----- the list operations, at any position of a ring -----

  /** list_add(): the new node follows `head`. */
  method ListAdd(x: ListHead, head: ListHead, ghost a: seq<ListHead>, ghost b: seq<ListHead>)
    requires Ring(a + [head] + b) && x !in a + [head] + b
    modifies x, a, head, b
    ensures Ring(a + [head, x] + b)
  {
    Rotate(a + [head], b);
    ghost var r := b + (a + [head]);
    AddBetween(x, head, head.next, r);
    assert r + [x] == b + (a + [head, x]);
    Rotate(b, a + [head, x]);
  }

  /** list_add_tail(): the new node precedes `head`. */
  method ListAddTail(x: ListHead, head: ListHead, ghost a: seq<ListHead>, ghost b: seq<ListHead>)
    requires Ring(a + [head] + b) && x !in a + [head] + b
    modifies x, a, head, b
    ensures Ring(a + [x, head] + b)
  {
    assert a + [head] + b == a + ([head] + b);
    Rotate(a, [head] + b);
    ghost var r := [head] + b + a;
    AddBetween(x, head.prev, head, r);
    assert r + [x] == [head] + b + (a + [x]);
    Rotate([head] + b, a + [x]);
    assert a + [x] + ([head] + b) == a + [x, head] + b;
  }

  /** __list_del_entry() anywhere in a ring. */
  method RemoveFromRing(entry: ListHead, ghost a: seq<ListHead>, ghost b: seq<ListHead>)
    requires Ring(a + [entry] + b)
    modifies a, entry, b
    ensures a + b != [] ==> Ring(a + b) && entry.next == old(entry.next) && entry.prev == old(entry.prev)
    ensures a + b == [] ==> Ring([entry])
    ensures entry !in a + b
  {
    DistinctParts(a + [entry], b);
    DistinctParts(a, [entry]);
    Rotate(a + [entry], b);
    assert b + (a + [entry]) == b + a + [entry];
    DistinctParts(b + a, [entry]);
    DelEntry(entry, b + a);
    if b + a != [] {
      Rotate(b, a);
    }
  }

  /** list_del(): what is left is a ring, the entry's links are poisoned. */
  method ListDel(entry: ListHead, ghost a: seq<ListHead>, ghost b: seq<ListHead>)
    requires Ring(a + [entry] + b)
    modifies a, entry, b
    ensures a + b != [] ==> Ring(a + b)
    ensures entry.next == null && entry.prev == null
  {
    RemoveFromRing(entry, a, b);
    entry.next := null;
    entry.prev := null;
  }

  /** list_del_init(): the entry becomes an empty list of its own. */
  method ListDelInit(entry: ListHead, ghost a: seq<ListHead>, ghost b: seq<ListHead>)
    requires Ring(a + [entry] + b)
    modifies a, entry, b
    ensures a + b != [] ==> Ring(a + b)
    ensures Ring([entry]) && entry !in a + b
  {
    RemoveFromRing(entry, a, b);
    InitListHead(entry);
  }

  /** list_replace() anywhere in a ring: the new node takes the entry's place. */
  method ReplaceInRing(o: ListHead, n: ListHead, ghost a: seq<ListHead>, ghost b: seq<ListHead>)
    requires Ring(a + [o] + b) && n !in a + [o] + b
    modifies n, a, o, b
    ensures Ring(a + [n] + b) && o !in a + [n] + b
  {
    DistinctParts(a + [o], b);
    DistinctParts(a, [o]);
    Rotate(a + [o], b);
    assert b + (a + [o]) == b + a + [o];
    ListReplace(o, n, b + a);
    assert b + a + [n] == b + (a + [n]);
    Rotate(b, a + [n]);
  }

  /** list_replace_init(): as list_replace(), and the old entry becomes an empty
      list of its own. */
  method ListReplaceInit(o: ListHead, n: ListHead, ghost a: seq<ListHead>, ghost b: seq<ListHead>)
    requires Ring(a + [o] + b) && n !in a + [o] + b
    modifies n, a, o, b
    ensures Ring(a + [n] + b) && Ring([o]) && o !in a + [n] + b
  {
    ReplaceInRing(o, n, a, b);
    InitListHead(o);
  }

  /** Where `head` is once `x` is taken out of pa + [x] + pb: in what is left of
      the same ring, or in another one. */
  ghost predicate MoveTarget(x: ListHead, pa: seq<ListHead>, pb: seq<ListHead>, target: seq<ListHead>)
    reads target
  {
    target == pa + pb || (Ring(target) && Apart(target, pa + [x] + pb))
  }

  /** A ring is not disturbed by writes elsewhere. */
  twostate lemma RingStays(r: seq<ListHead>)
    requires old(Ring(r))
    requires forall x :: x in r ==> x.next == old(x.next) && x.prev == old(x.prev)
    ensures Ring(r)
  {
    forall i | 1 <= i < |r| ensures Linked(r[i - 1], r[i]) {
      assert old(Linked(r[i - 1], r[i])) && r[i - 1] in r && r[i] in r;
    }
  }

  /** list_move(): `x` is taken out of its ring and put just after `head`. */
  method ListMove(x: ListHead, head: ListHead, ghost pa: seq<ListHead>, ghost pb: seq<ListHead>,
                  ghost ha: seq<ListHead>, ghost hb: seq<ListHead>)
    requires Ring(pa + [x] + pb) && MoveTarget(x, pa, pb, ha + [head] + hb)
    modifies x, head, pa, pb, ha, hb
    ensures Ring(ha + [head, x] + hb)
    ensures ha + [head] + hb != pa + pb && pa + pb != [] ==> Ring(pa + pb) && Apart(pa + pb, ha + [head, x] + hb)
  {
    ghost var target, rest := ha + [head] + hb, pa + pb;
    RemoveFromRing(x, pa, pb);
    if target != rest {
      RingStays(target);
    }
    label removed:
    ListAdd(x, head, ha, hb);
    if target != rest {
      forall y | y in rest ensures y !in target && y != x {
        assert y in pa + [x] + pb;
      }
      if rest != [] {
        RingStays@removed(rest);
      }
    }
  }

  /** list_move_tail(): `x` is taken out of its ring and put just before `head`. */
  method ListMoveTail(x: ListHead, head: ListHead, ghost pa: seq<ListHead>, ghost pb: seq<ListHead>,
                      ghost ha: seq<ListHead>, ghost hb: seq<ListHead>)
    requires Ring(pa + [x] + pb) && MoveTarget(x, pa, pb, ha + [head] + hb)
    modifies x, head, pa, pb, ha, hb
    ensures Ring(ha + [x, head] + hb)
    ensures ha + [head] + hb != pa + pb && pa + pb != [] ==> Ring(pa + pb) && Apart(pa + pb, ha + [x, head] + hb)
  {
    ghost var target, rest := ha + [head] + hb, pa + pb;
    RemoveFromRing(x, pa, pb);
    if target != rest {
      RingStays(target);
    }
    label removed:
    ListAddTail(x, head, ha, hb);
    if target != rest {
      forall y | y in rest ensures y !in target && y != x {
        assert y in pa + [x] + pb;
      }
      if rest != [] {
        RingStays@removed(rest);
      }
    }
  }

  /** list_empty() */
  predicate ListEmpty(head: ListHead)
    reads head
  {
    head.next == head
  }

  /** list_is_singular() */
  predicate ListIsSingular(head: ListHead)
    reads head
  {
    !ListEmpty(head) && head.next == head.prev
  }

  /** list_empty() and list_is_singular() tell the number of entries. */
  lemma {:induction false} EmptyAndSingular(head: ListHead, l: seq<ListHead>)
    requires Ring([head] + l)
    ensures ListEmpty(head) <==> l == []
    ensures ListIsSingular(head) <==> |l| == 1
    ensures l != [] ==> head.next == l[0] && head.prev == l[|l| - 1]
  {
    var r := [head] + l;
    if l != [] {
      assert Linked(r[1 - 1], r[1]);
    }
    assert |l| > 1 ==> r[1] != r[|l|];
  }

  /** A ring determines every link of its nodes. */
  twostate lemma SameLinks(r: seq<ListHead>)
    requires old(Ring(r)) && Ring(r)
    ensures forall x :: x in r ==> x.next == old(x.next) && x.prev == old(x.prev)
  {
    forall i | 0 <= i < |r| ensures r[i].next == old(r[i].next) && r[i].prev == old(r[i].prev) {
      assert i + 1 < |r| ==> Linked(r[i + 1 - 1], r[i + 1]) && old(Linked(r[i + 1 - 1], r[i + 1]));
      assert 0 < i ==> Linked(r[i - 1], r[i]) && old(Linked(r[i - 1], r[i]));
    }
  }

  /** list_rotate_left(): the first entry becomes the last. */
  method ListRotateLeft(head: ListHead, ghost l: seq<ListHead>)
    requires Ring([head] + l)
    modifies head, l
    ensures Ring([head] + if l == [] then [] else l[1..] + [l[0]])
  {
    EmptyAndSingular(head, l);
    if !ListEmpty(head) {
      var first := head.next;
      ghost var rest := l[1..];
      assert [head] + l == [head] + [first] + rest;
      assert [head] + rest == [] + [head] + rest;
      ListMoveTail(first, head, [head], rest, [], rest);
      assert [] + [first, head] + rest == [first] + ([head] + rest);
      Rotate([first], [head] + rest);
      assert [head] + rest + [first] == [head] + (l[1..] + [l[0]]);
    }
  }

  /** Rotating left as often as there are entries changes nothing: the ring is
      the same, and so is every link in it. */
  method RotateFully(head: ListHead, n: nat, ghost l: seq<ListHead>)
    requires Ring([head] + l) && n == |l|
    modifies head, l
    ensures Ring([head] + l)
    ensures forall x :: x in [head] + l ==> x.next == old(x.next) && x.prev == old(x.prev)
  {
    ghost var now := l;
    assert l[0..] + l[..0] == l;
    for i := 0 to n
      invariant Ring([head] + now) && now == l[i..] + l[..i]
    {
      ListRotateLeft(head, now);
      now := now[1..] + [now[0]];
      assert now == l[i + 1..] + l[..i + 1];
    }
    assert now == l;
    SameLinks([head] + l);
  }

  /** list_rotate_to_front(): `list` becomes the first entry, the ones before
      it go to the end. */
  method ListRotateToFront(list: ListHead, head: ListHead, ghost a: seq<ListHead>, ghost b: seq<ListHead>)
    requires Ring([head] + a + [list] + b)
    modifies head, a, list, b
    ensures Ring([head] + ([list] + b + a))
  {
    assert [head] + a + [list] + b == [] + [head] + (a + [list] + b);
    assert a + [list] + b == [] + (a + [list] + b);
    ListMoveTail(head, list, [], a + [list] + b, a, b);
    assert a + [head, list] + b == a + ([head, list] + b);
    Rotate(a, [head, list] + b);
    assert [head, list] + b + a == [head] + ([list] + b + a);
  }

  /** What is known of a ring that starts with `head` and falls into three parts. */
  lemma {:induction false} ThreeParts(a: seq<ListHead>, s: seq<ListHead>, b: seq<ListHead>)
    requires a != [] && s != [] && Ring(a + s + b)
    ensures Distinct(a) && Distinct(s) && Distinct(b) && Path(a) && Path(s) && Path(b)
    ensures Apart(a, s) && Apart(a, b) && Apart(s, b)
    ensures Linked(a[|a| - 1], s[0]) && Linked(s[|s| - 1], if b == [] then a[0] else b[0])
    ensures b != [] ==> Linked(b[|b| - 1], a[0])
  {
    DistinctParts(a + s, b);
    DistinctParts(a, s);
    PathParts(a + s, b);
    PathParts(a, s);
    assert forall x :: x in a || x in s ==> x in a + s;
  }

  lemma {:induction false} ThreePartsJoin(a: seq<ListHead>, b: seq<ListHead>, s: seq<ListHead>)
    requires a != [] && s != []
    requires Distinct(a) && Distinct(s) && Distinct(b) && Path(a) && Path(s) && Path(b)
    requires Apart(a, s) && Apart(a, b) && Apart(s, b)
    requires b != [] ==> Linked(a[|a| - 1], b[0])
    requires Linked(if b == [] then a[|a| - 1] else b[|b| - 1], s[0]) && Linked(s[|s| - 1], a[0])
    ensures Ring(a + b + s)
  {
    PathJoin(a, b);
    PathJoin(a + b, s);
    DistinctJoin(a, b);
    DistinctJoin(a + b, s);
  }

  /** list_bulk_move_tail(): the entries from `first` to `last` go to the end. */
  method ListBulkMoveTail(head: ListHead, first: ListHead, last: ListHead,
                          ghost a: seq<ListHead>, ghost s: seq<ListHead>, ghost b: seq<ListHead>)
    requires s != [] && first == s[0] && last == s[|s| - 1]
    requires Ring([head] + a + s + b)
    modifies head, a, s, b
    ensures Ring([head] + a + b + s)
  {
    ghost var ha := [head] + a;
    ThreeParts(ha, s, b);
    assert ha[|ha| - 1] in ha && first in s && last in s;
    assert b != [] ==> b[0] in b && b[|b| - 1] in b;
    first.prev.next := last.next;
    last.next.prev := first.prev;
    head.prev.next := first;
    first.prev := head.prev;
    last.next := head;
    head.prev := last;
    StillPath(ha);
    StillPath(s);
    StillPath(b);
    ThreePartsJoin(ha, b, s);
  }
}
