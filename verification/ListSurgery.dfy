/** The operations of `list.h` that exchange entries or cut and join lists. */
module ListSurgery {
  import opened Sequences
  import opened Rings

  /** The node before `e` in the ring x + [e] + y. */
  ghost function Before(x: seq<ListHead>, e: ListHead, y: seq<ListHead>): ListHead {
    if x != [] then x[|x| - 1] else ([e] + y)[|y|]
  }

  lemma {:induction false} PrevInRing(x: seq<ListHead>, e: ListHead, y: seq<ListHead>)
    requires Ring(x + [e] + y)
    ensures e.prev == Before(x, e, y)
  {
    var r := x + [e] + y;
    assert x != [] ==> Linked(r[|x| - 1], r[|x|]);
  }

  /** The first half of list_swap(): `e2` leaves its ring x + [e2] + y and takes
      the place of `e1`, in what is left of that ring or in another one. */
  method SwapOut(e1: ListHead, e2: ListHead, ghost x: seq<ListHead>, ghost y: seq<ListHead>,
                 ghost u: seq<ListHead>, ghost v: seq<ListHead>)
    returns (pos: ListHead)
    requires Ring(x + [e2] + y) && MoveTarget(e2, x, y, u + [e1] + v)
    modifies e1, e2, x, y, u, v
    ensures Ring(u + [e2] + v) && e1 !in u + [e2] + v
    ensures pos == Before(x, e2, y)
    ensures u + [e1] + v != x + y && x + y != [] ==> Ring(x + y) && Apart(u + [e2] + v, x + y) && e1 !in x + y
  {
    PrevInRing(x, e2, y);
    ghost var target, rest := u + [e1] + v, x + y;
    DistinctParts(x + [e2], y);
    DistinctParts(x, [e2]);
    pos := e2.prev;
    ListDel(e2, x, y);
    if target != rest {
      RingStays(target);
    }
    label deleted:
    ReplaceInRing(e1, e2, u, v);
    if target != rest {
      forall n | n in rest ensures n !in target && n != e2 {
        assert n in x + [e2] + y;
      }
      assert e1 in target;
      if rest != [] {
        RingStays@deleted(rest);
      }
    }
  }

  /** How the lists lie around the entries of list_swap(): x + [e2] + y is the
      ring of `e2`; u + [e1] + v is the ring of `e1` once `e2` is taken out;
      ha + [p] + hb is the ring of the node `p` behind which `e1` is put back. */
  datatype SwapView = SwapView(
    x: seq<ListHead>, y: seq<ListHead>, u: seq<ListHead>, v: seq<ListHead>,
    ha: seq<ListHead>, p: ListHead, hb: seq<ListHead>)

  ghost function SwapNodes(w: SwapView): set<ListHead> {
    set n | n in w.x + w.y + w.u + w.v + w.ha + [w.p] + w.hb
  }

  ghost predicate SwapFits(e1: ListHead, e2: ListHead, w: SwapView)
    reads {e1, e2} + SwapNodes(w)
  {
    && Ring(w.x + [e2] + w.y) && MoveTarget(e2, w.x, w.y, w.u + [e1] + w.v)
    && w.p == (if Before(w.x, e2, w.y) == e1 then e2 else Before(w.x, e2, w.y))
    && (|| w.ha + [w.p] + w.hb == w.u + [e2] + w.v
        || (w.ha + [w.p] + w.hb == w.x + w.y && w.x + w.y != w.u + [e1] + w.v))
  }

  /** list_swap(); the position cases are spelled out below. */
  method ListSwap(e1: ListHead, e2: ListHead, ghost w: SwapView)
    requires SwapFits(e1, e2, w)
    modifies {e1, e2} + SwapNodes(w)
    ensures Ring(w.ha + [w.p, e1] + w.hb)
    ensures w.ha + [w.p] + w.hb != w.u + [e2] + w.v ==>
              Ring(w.u + [e2] + w.v) && Apart(w.u + [e2] + w.v, w.ha + [w.p, e1] + w.hb)
  {
    var pos := SwapOut(e1, e2, w.x, w.y, w.u, w.v);
    if pos == e1 {
      pos := e2;
    }
    label out:
    ghost var target := w.ha + [w.p] + w.hb;
    ListAdd(e1, pos, w.ha, w.hb);
    if target != w.u + [e2] + w.v {
      RingStays@out(w.u + [e2] + w.v);
    }
  }

  ghost function OneListView(e1: ListHead, e2: ListHead, a: seq<ListHead>, b: seq<ListHead>): SwapView {
    SwapView([e1] + a, b, [], a + b, ([e2] + a)[..|a|], if a == [] then e2 else a[|a| - 1], b)
  }

  lemma {:induction false} OneListFits(e1: ListHead, e2: ListHead, a: seq<ListHead>, b: seq<ListHead>)
    requires Ring([e1] + a + [e2] + b)
    ensures var w := OneListView(e1, e2, a, b);
            && SwapFits(e1, e2, w)
            && w.ha + [w.p] + w.hb == w.u + [e2] + w.v
            && w.ha + [w.p, e1] + w.hb == [e2] + a + [e1] + b
            && SwapNodes(w) <= (set n | n in [e1] + a + [e2] + b)
  {
    var w := OneListView(e1, e2, a, b);
    assert [e1] + a + [e2] + b == [e1] + a + ([e2] + b);
    DistinctParts([e1] + a, [e2] + b);
    DistinctParts([e1], a);
    assert [e1] + a + [e2] + b == w.x + [e2] + w.y;
    assert w.x + w.y == [] + [e1] + (a + b);
    assert Before(w.x, e2, b) == w.x[|a|];
    assert w.ha + [w.p] == [e2] + a;
  }

  ghost function AcrossView(e1: ListHead, e2: ListHead, a: seq<ListHead>, b: seq<ListHead>): SwapView
    requires b != []
  {
    SwapView([], b, [], a, b[..|b| - 1], b[|b| - 1], [])
  }

  lemma {:induction false} AcrossFits(e1: ListHead, e2: ListHead, a: seq<ListHead>, b: seq<ListHead>)
    requires Ring([e1] + a) && Ring([e2] + b) && Apart([e1] + a, [e2] + b) && b != []
    ensures var w := AcrossView(e1, e2, a, b);
            && SwapFits(e1, e2, w)
            && w.ha + [w.p] + w.hb != w.u + [e2] + w.v
            && w.ha + [w.p, e1] + w.hb == b + [e1]
            && w.u + [e2] + w.v == [e2] + a
            && SwapNodes(w) <= set n | n in a + b
  {
    var w := AcrossView(e1, e2, a, b);
    assert [] + [e2] + b == [e2] + b && [] + [e1] + a == [e1] + a;
    assert w.ha + [w.p] + w.hb == [] + b;
    DistinctParts([e2], b);
    assert e1 in [e1] + a && b[0] in [e2] + b && b[0] in b;
    assert ([] + [e1] + a)[0] == e1 && ([] + b)[0] == b[0] && ([] + [e2] + a)[0] == e2;
  }

  /** Two entries of one ring, in any position (next to each other either way,
      or apart), trade places. */
  method SwapInOneList(e1: ListHead, e2: ListHead, ghost a: seq<ListHead>, ghost b: seq<ListHead>)
    requires Ring([e1] + a + [e2] + b)
    modifies e1, e2, a, b
    ensures Ring([e2] + a + [e1] + b)
  {
    OneListFits(e1, e2, a, b);
    assert forall n :: n in [e1] + a + [e2] + b ==> n == e1 || n == e2 || n in a || n in b;
    ListSwap(e1, e2, OneListView(e1, e2, a, b));
  }

  /** Entries of two rings, `e2` not alone in its own, trade places. */
  method SwapAcrossLists(e1: ListHead, e2: ListHead, ghost a: seq<ListHead>, ghost b: seq<ListHead>)
    requires Ring([e1] + a) && Ring([e2] + b) && Apart([e1] + a, [e2] + b) && b != []
    modifies e1, e2, a, b
    ensures Ring([e2] + a) && Ring([e1] + b) && Apart([e2] + a, [e1] + b)
  {
    AcrossFits(e1, e2, a, b);
    ListSwap(e1, e2, AcrossView(e1, e2, a, b));
    Rotate(b, [e1]);
  }

  /** When `e2` is alone (initialised, on no list) the exchange is incomplete:
      `e2` takes the place of `e1`, which follows it instead of being alone. */
  method SwapWithLoneNode(e1: ListHead, e2: ListHead, ghost a: seq<ListHead>)
    requires Ring([e1] + a) && Ring([e2]) && e2 !in [e1] + a
    modifies e1, e2, a
    ensures Ring([e2, e1] + a)
  {
    assert [] + [e2] + [] == [e2] && [] + [e1] + a == [e1] + a;
    assert [] + [e2] + a == [e2] + a;
    ListSwap(e1, e2, SwapView([], [], [], a, [], e2, a));
    assert [] + [e2, e1] + a == [e2, e1] + a;
  }

  /** Behind its predecessor a node is not a ring by itself. */
  lemma {:induction false} NotAlone(e2: ListHead, e1: ListHead, a: seq<ListHead>)
    requires Ring([e2, e1] + a)
    ensures !Ring([e1])
  {
    var r := [e2, e1] + a;
    assert Linked(r[1 - 1], r[1]) && r[0] != r[1];
  }

  /** list_swap() between two rings exchanges the entries exactly when the second
      one is not alone, which list_empty() tells before the call. */
  method SwapTwoLists(e1: ListHead, e2: ListHead, ghost a: seq<ListHead>, ghost b: seq<ListHead>)
    requires Ring([e1] + a) && Ring([e2] + b) && Apart([e1] + a, [e2] + b)
    modifies e1, e2, a, b
    ensures old(ListEmpty(e2)) <==> b == []
    ensures (Ring([e2] + a) && Ring([e1] + b)) <==> b != []
    ensures b != [] ==> Apart([e2] + a, [e1] + b)
    ensures b == [] ==> Ring([e2, e1] + a)
  {
    EmptyAndSingular(e2, b);
    if ListEmpty(e2) {
      assert [e2] + b == [e2];
      assert e2 in [e2];
      SwapWithLoneNode(e1, e2, a);
      assert Linked(([e2, e1] + a)[1 - 1], ([e2, e1] + a)[1]);
      assert [e1] + b == [e1];
      NotAlone(e2, e1, a);
    } else {
      SwapAcrossLists(e1, e2, a, b);
    }
  }

  lemma {:induction false} HalfTurn(e1: ListHead, a: seq<ListHead>, e2: ListHead, b: seq<ListHead>)
    requires Ring([e1] + a + [e2] + b)
    ensures Ring([e2] + b + [e1] + a)
  {
    assert [e1] + a + [e2] + b == [e1] + a + ([e2] + b);
    Rotate([e1] + a, [e2] + b);
    assert [e2] + b + ([e1] + a) == [e2] + b + [e1] + a;
  }

  /** Swapping twice within a list restores it, link by link. */
  method SwapTwiceInOneList(e1: ListHead, e2: ListHead, ghost a: seq<ListHead>, ghost b: seq<ListHead>)
    requires Ring([e1] + a + [e2] + b)
    modifies e1, e2, a, b
    ensures Ring([e1] + a + [e2] + b)
    ensures forall n :: n in [e1] + a + [e2] + b ==> n.next == old(n.next) && n.prev == old(n.prev)
  {
    SwapInOneList(e1, e2, a, b);
    HalfTurn(e2, a, e1, b);
    SwapInOneList(e1, e2, b, a);
    HalfTurn(e2, b, e1, a);
    SameLinks([e1] + a + [e2] + b);
  }

  /** Swapping twice across two lists restores both, link by link. */
  method SwapTwiceAcrossLists(e1: ListHead, e2: ListHead, ghost a: seq<ListHead>, ghost b: seq<ListHead>)
    requires Ring([e1] + a) && Ring([e2] + b) && Apart([e1] + a, [e2] + b) && a != [] && b != []
    modifies e1, e2, a, b
    ensures Ring([e1] + a) && Ring([e2] + b)
    ensures forall n :: n in [e1] + a || n in [e2] + b ==> n.next == old(n.next) && n.prev == old(n.prev)
  {
    SwapAcrossLists(e1, e2, a, b);
    assert Apart([e1] + b, [e2] + a);
    SwapAcrossLists(e1, e2, b, a);
    SameLinks([e1] + a);
    SameLinks([e2] + b);
  }

  // ----- cutting -----

  /** Cut the ring [head] + x + y before y: `list` heads x, `head` keeps y. */
  lemma {:induction false} CutRing(list: ListHead, head: ListHead, x: seq<ListHead>, y: seq<ListHead>)
    requires Distinct([list] + [head] + x + y) && Path(x) && Path(y) && x != []
    requires Linked(list, x[0]) && Linked(x[|x| - 1], list)
    requires Linked(head, if y == [] then head else y[0])
    requires Linked(if y == [] then head else y[|y| - 1], head)
    ensures Ring([list] + x) && Ring([head] + y)
  {
    DistinctParts([list] + [head] + x, y);
    DistinctParts([list] + [head], x);
    DistinctParts([list], [head]);
    PathJoin([list], x);
    PathJoin([head], y);
    DistinctJoin([list], x);
    DistinctJoin([head], y);
  }

  /** What must be known of a ring before it is cut. */
  lemma {:induction false} BeforeCut(list: ListHead, head: ListHead, x: seq<ListHead>, y: seq<ListHead>)
    requires Ring([head] + x + y) && list !in [head] + x + y
    ensures Distinct([list] + [head] + x + y) && Path(x) && Path(y) && Distinct(x) && Distinct(y) && list != head
    ensures forall i :: 0 <= i < |x| ==> x[i] != list && x[i] != head
    ensures forall i :: 0 <= i < |y| ==> y[i] != list && y[i] != head
    ensures forall i, j :: 0 <= i < |x| && 0 <= j < |y| ==> x[i] != y[j]
    ensures x != [] ==> Linked(head, x[0])
    ensures y != [] ==> Linked(y[|y| - 1], head) && Linked(([head] + x)[|x|], y[0])
    ensures y == [] ==> Linked(([head] + x)[|x|], head)
  {
    DistinctJoin([list], [head] + x + y);
    assert [list] + ([head] + x + y) == [list] + [head] + x + y;
    DistinctParts([head] + x, y);
    DistinctParts([head], x);
    PathParts([head] + x, y);
    PathParts([head], x);
    assert forall i :: 0 <= i < |x| ==> x[i] in [head] + x;
    assert forall i :: 0 <= i < |y| ==> y[i] in y;
  }

  /** __list_cut_position() */
  method CutPosition(list: ListHead, head: ListHead, entry: ListHead, ghost x: seq<ListHead>, ghost y: seq<ListHead>)
    requires Ring([head] + x + y) && list !in [head] + x + y
    requires x != [] && entry == x[|x| - 1]
    modifies list, head, x, y
    ensures Ring([list] + x) && Ring([head] + y)
  {
    BeforeCut(list, head, x, y);
    var newFirst := entry.next;
    list.next := head.next;
    list.next.prev := list;
    list.prev := entry;
    entry.next := list;
    head.next := newFirst;
    newFirst.prev := head;
    assert Path(x) && Path(y) by {
      StillPath(x);
      StillPath(y);
    }
    CutRing(list, head, x, y);
  }

  /** list_cut_position(): `list` gets the entries up to and including `entry`
      (none if that is the head), `head` keeps the others. On an empty list,
      whatever `entry` is, and for a stranger to a one-entry list, nothing is
      written, not even `list`. */
  method ListCutPosition(list: ListHead, head: ListHead, entry: ListHead, ghost x: seq<ListHead>,
                         ghost y: seq<ListHead>)
    requires Ring([head] + x + y) && list !in [head] + x + y
    requires entry == ([head] + x)[|x|] || (entry !in [head] + x + y && |x + y| <= 1)
    modifies list, head, x, y
    ensures x + y != [] && entry in [head] + x + y ==> Ring([list] + x) && Ring([head] + y)
    ensures x + y == [] || entry !in [head] + x + y ==>
              Ring([head] + x + y) && list.next == old(list.next) && list.prev == old(list.prev)
  {
    assert [head] + x + y == [head] + (x + y);
    EmptyAndSingular(head, x + y);
    if ListEmpty(head) {
      return;
    }
    if ListIsSingular(head) && head.next != entry && head != entry {
      assert head.next in [head] + x + y;
      return;
    }
    DistinctParts([head], x + y);
    assert x != [] ==> ([head] + x)[|x|] in x + y;
    if entry == head {
      InitListHead(list);
      assert [head] + x + y == [head] + y && [list] + x == [list];
    } else {
      CutPosition(list, head, entry, x, y);
    }
  }

  /** list_cut_before(): `list` gets the entries before `entry`, `head` keeps
      the others. If `entry` is the head, `list` gets everything. */
  method ListCutBefore(list: ListHead, head: ListHead, entry: ListHead, ghost x: seq<ListHead>, ghost y: seq<ListHead>)
    requires Ring([head] + x + y) && list !in [head] + x + y
    requires entry == if y == [] then head else y[0]
    modifies list, head, x, y
    ensures Ring([list] + x) && Ring([head] + y)
  {
    BeforeCut(list, head, x, y);
    assert if x == [] then head.next == entry else head.next == x[0] && x[0] != entry;
    if head.next == entry {
      InitListHead(list);
      assert [head] + x + y == [head] + y && [list] + x == [list];
      return;
    }
    list.next := head.next;
    list.next.prev := list;
    list.prev := entry.prev;
    list.prev.next := list;
    head.next := entry;
    entry.prev := head;
    StillPath(x);
    StillPath(y);
    CutRing(list, head, x, y);
  }

  // ----- joining -----

  /** __list_splice(): the entries `l` headed by `list` are linked in between the
      last and the first node of another ring; `list` keeps stale links. */
  method SpliceBetween(list: ListHead, prev: ListHead, next: ListHead, ghost l: seq<ListHead>, ghost r: seq<ListHead>)
    requires Ring([list] + l) && l != [] && Ring(r) && Apart([list] + l, r)
    requires prev == r[|r| - 1] && next == r[0]
    modifies l, r
    ensures Ring(r + l)
  {
    DistinctParts([list], l);
    PathParts([list], l);
    assert forall i :: 0 <= i < |l| ==> l[i] in [list] + l;
    assert forall i :: 0 <= i < |r| ==> r[i] in r;
    var first := list.next;
    var last := list.prev;
    first.prev := prev;
    prev.next := first;
    last.next := next;
    next.prev := last;
    StillPath(l);
    StillPath(r);
    PathJoin(r, l);
    DistinctJoin(r, l);
  }

  /** list_splice(): the entries of `list` follow `head`. */
  method ListSplice(list: ListHead, head: ListHead, ghost l: seq<ListHead>, ghost a: seq<ListHead>,
                    ghost b: seq<ListHead>)
    requires Ring([list] + l) && Ring(a + [head] + b) && Apart([list] + l, a + [head] + b)
    modifies l, a, head, b
    ensures Ring(a + [head] + l + b)
  {
    EmptyAndSingular(list, l);
    if !ListEmpty(list) {
      Rotate(a + [head], b);
      SpliceBetween(list, head, head.next, l, b + (a + [head]));
      assert b + (a + [head]) + l == b + (a + [head] + l);
      Rotate(b, a + [head] + l);
    } else {
      assert a + [head] + l == a + [head];
    }
  }

  /** list_splice_tail(): the entries of `list` precede `head`. */
  method ListSpliceTail(list: ListHead, head: ListHead, ghost l: seq<ListHead>, ghost a: seq<ListHead>,
                        ghost b: seq<ListHead>)
    requires Ring([list] + l) && Ring(a + [head] + b) && Apart([list] + l, a + [head] + b)
    modifies l, a, head, b
    ensures Ring(a + l + [head] + b)
  {
    EmptyAndSingular(list, l);
    if !ListEmpty(list) {
      assert a + [head] + b == a + ([head] + b);
      Rotate(a, [head] + b);
      SpliceBetween(list, head.prev, head, l, [head] + b + a);
      assert [head] + b + a + l == [head] + b + (a + l);
      Rotate([head] + b, a + l);
      assert a + l + ([head] + b) == a + l + [head] + b;
    } else {
      assert a + l == a;
    }
  }

  /** list_splice_init() */
  method ListSpliceInit(list: ListHead, head: ListHead, ghost l: seq<ListHead>, ghost a: seq<ListHead>,
                        ghost b: seq<ListHead>)
    requires Ring([list] + l) && Ring(a + [head] + b) && Apart([list] + l, a + [head] + b)
    modifies list, l, a, head, b
    ensures Ring(a + [head] + l + b) && Ring([list])
  {
    EmptyAndSingular(list, l);
    DistinctParts([list], l);
    assert list in [list] + l;
    if !ListEmpty(list) {
      ListSplice(list, head, l, a, b);
      assert list !in a + [head] + b && list !in l;
      InitListHead(list);
    } else {
      assert a + [head] + l == a + [head] && [list] + l == [list];
    }
  }

  /** list_splice_tail_init() */
  method ListSpliceTailInit(list: ListHead, head: ListHead, ghost l: seq<ListHead>, ghost a: seq<ListHead>,
                            ghost b: seq<ListHead>)
    requires Ring([list] + l) && Ring(a + [head] + b) && Apart([list] + l, a + [head] + b)
    modifies list, l, a, head, b
    ensures Ring(a + l + [head] + b) && Ring([list])
  {
    EmptyAndSingular(list, l);
    DistinctParts([list], l);
    assert list in [list] + l;
    if !ListEmpty(list) {
      ListSpliceTail(list, head, l, a, b);
      assert list !in a + [head] + b && list !in l;
      InitListHead(list);
    } else {
      assert a + l == a && [list] + l == [list];
    }
  }

  lemma {:induction false} CutApart(list: ListHead, head: ListHead, x: seq<ListHead>, y: seq<ListHead>)
    requires Distinct([head] + x + y) && list !in [head] + x + y
    ensures Apart([list] + x, [head] + y)
  {
    DistinctParts([head] + x, y);
    DistinctParts([head], x);
    forall n | n in [list] + x ensures n !in [head] + y {
      assert n != list ==> n in x && n in [head] + x;
    }
  }

  /** Splicing the entries of `list` back in front of those of `head`. */
  method SpliceBack(list: ListHead, head: ListHead, ghost x: seq<ListHead>, ghost y: seq<ListHead>)
    requires Ring([list] + x) && Ring([head] + y) && Apart([list] + x, [head] + y)
    modifies list, head, x, y
    ensures Ring([head] + x + y) && Ring([list])
  {
    assert [] + [head] + y == [head] + y;
    ListSpliceInit(list, head, x, [], y);
    assert [] + [head] + x + y == [head] + x + y;
  }

  /** Cutting behind any entry and splicing the part back restores the list,
      link by link, and leaves `list` empty. */
  method CutThenSplice(list: ListHead, head: ListHead, entry: ListHead, ghost x: seq<ListHead>, ghost y: seq<ListHead>)
    requires Ring([head] + x + y) && Ring([list]) && list !in [head] + x + y
    requires entry == ([head] + x)[|x|]
    modifies list, head, x, y
    ensures Ring([head] + x + y) && Ring([list])
    ensures forall n :: n in [head] + x + y ==> n.next == old(n.next) && n.prev == old(n.prev)
  {
    CutApart(list, head, x, y);
    assert entry in [head] + x + y;
    assert x + y == [] ==> [list] + x == [list] && [head] + y == [head] + x + y;
    ListCutPosition(list, head, entry, x, y);
    SpliceBack(list, head, x, y);
    SameLinks([head] + x + y);
  }

  /** So does cutting before any entry, or before the head. */
  method CutBeforeThenSplice(list: ListHead, head: ListHead, entry: ListHead, ghost x: seq<ListHead>,
                             ghost y: seq<ListHead>)
    requires Ring([head] + x + y) && list !in [head] + x + y
    requires entry == if y == [] then head else y[0]
    modifies list, head, x, y
    ensures Ring([head] + x + y) && Ring([list])
    ensures forall n :: n in [head] + x + y ==> n.next == old(n.next) && n.prev == old(n.prev)
  {
    CutApart(list, head, x, y);
    ListCutBefore(list, head, entry, x, y);
    SpliceBack(list, head, x, y);
    SameLinks([head] + x + y);
  }

  // ----- safe iteration -----

  /** The entries that are not deleted, in order. */
  ghost function Kept(l: seq<ListHead>, doomed: set<ListHead>): (r: seq<ListHead>)
    ensures forall x :: x in r ==> x in l && x !in doomed
  {
    if l == [] then []
    else
      var x := l[|l| - 1];
      Kept(l[..|l| - 1], doomed) + if x in doomed then [] else [x]
  }

  lemma {:induction false} KeptSnoc(l: seq<ListHead>, x: ListHead, doomed: set<ListHead>)
    ensures Kept(l + [x], doomed) == Kept(l, doomed) + if x in doomed then [] else [x]
  {
    assert (l + [x])[..|l|] == l;
  }

  /** The successor of an entry in the ring. */
  lemma {:induction false} NextInRing(x: seq<ListHead>, e: ListHead, y: seq<ListHead>)
    requires Ring(x + [e] + y)
    ensures e.next == (y + x + [e])[0]
  {
    var r := x + [e] + y;
    assert y != [] ==> Linked(r[|x| + 1 - 1], r[|x| + 1]);
  }

  /** The loop after visiting `visited`, with `rest` to come: the list holds
      what was kept and what is to come; what was deleted is alone. */
  ghost predicate Visiting(head: ListHead, doomed: set<ListHead>, visited: seq<ListHead>, kept: seq<ListHead>,
                           rest: seq<ListHead>)
    reads {head}, visited, kept, rest
  {
    && kept == Kept(visited, doomed)
    && Ring([head] + kept + rest)
    && forall x :: x in visited && x in doomed ==> Linked(x, x) && x != head && x !in kept && x !in rest
  }

  lemma {:induction false} NowAt(head: ListHead, pos: ListHead, kept: seq<ListHead>, rest: seq<ListHead>)
    ensures [head] + kept + ([pos] + rest) == [head] + kept + [pos] + rest
    ensures [head] + (kept + [pos]) + rest == [head] + kept + [pos] + rest
  {
  }

  /** Delete the cursor. */
  method DeleteEntry(head: ListHead, pos: ListHead, ghost kept: seq<ListHead>, ghost rest: seq<ListHead>)
    requires Ring([head] + kept + ([pos] + rest))
    modifies head, pos, kept, rest
    ensures Ring([head] + kept + rest) && Linked(pos, pos) && pos != head && pos !in kept && pos !in rest
  {
    NowAt(head, pos, kept, rest);
    ListDelInit(pos, [head] + kept, rest);
    assert ([pos])[0] == pos && head in [head] + kept + rest;
    assert forall x :: x in kept || x in rest ==> x in [head] + kept + rest;
  }

  /** The loop body: delete the cursor if it is doomed. */
  method VisitEntry(head: ListHead, pos: ListHead, doomed: set<ListHead>, ghost visited: seq<ListHead>,
                    ghost kept: seq<ListHead>, ghost rest: seq<ListHead>)
    returns (ghost kept': seq<ListHead>)
    requires Visiting(head, doomed, visited, kept, [pos] + rest)
    modifies head, pos, kept, rest
    ensures Visiting(head, doomed, visited + [pos], kept', rest)
  {
    KeptSnoc(visited, pos, doomed);
    assert forall x :: x == pos || x in rest ==> x in [pos] + rest;
    kept' := kept;
    if pos in doomed {
      DeleteEntry(head, pos, kept, rest);
    } else {
      NowAt(head, pos, kept, rest);
      kept' := kept + [pos];
    }
  }

  /** The cursor's successor is the next entry, whatever was deleted before. */
  lemma {:induction false} NextVisited(head: ListHead, pos: ListHead, kept: seq<ListHead>, rest: seq<ListHead>)
    requires Ring([head] + kept + ([pos] + rest))
    ensures pos.next == (rest + [head])[0]
  {
    NowAt(head, pos, kept, rest);
    NextInRing([head] + kept, pos, rest);
    assert rest + ([head] + kept) + [pos] == rest + [head] + (kept + [pos]);
  }

  lemma {:induction false} FirstVisit(head: ListHead, doomed: set<ListHead>, l: seq<ListHead>)
    requires Ring([head] + l)
    ensures Visiting(head, doomed, [], [], l) && head.next == (l + [head])[0] && head !in l
  {
    assert [head] + [] + l == [head] + l;
    EmptyAndSingular(head, l);
    DistinctParts([head], l);
    assert head in [head];
  }

  /** One round of the loop. */
  method VisitNext(head: ListHead, pos: ListHead, doomed: set<ListHead>, ghost visited: seq<ListHead>,
                   ghost kept: seq<ListHead>, ghost rest: seq<ListHead>, ghost l: seq<ListHead>)
    returns (ghost kept': seq<ListHead>)
    requires visited + ([pos] + rest) == l && Visiting(head, doomed, visited, kept, [pos] + rest)
    modifies Elems([head] + l)
    ensures Visiting(head, doomed, visited + [pos], kept', rest)
  {
    assert forall x :: x in kept ==> x in visited;
    assert forall x :: x == head || x == pos || x in visited || x in rest ==> x in Elems([head] + l);
    kept' := VisitEntry(head, pos, doomed, visited, kept, rest);
  }

  lemma {:induction false} TakeNext(visited: seq<ListHead>, rest: seq<ListHead>)
    requires rest != []
    ensures rest == [rest[0]] + rest[1..]
    ensures visited + rest == visited + [rest[0]] + rest[1..]
  {
  }

  lemma {:induction false} LastVisit(head: ListHead, doomed: set<ListHead>, visited: seq<ListHead>, kept: seq<ListHead>,
                                     rest: seq<ListHead>, l: seq<ListHead>)
    requires Visiting(head, doomed, visited, kept, rest) && visited + rest == l && head !in l
    requires rest == [] || head in rest
    ensures visited == l && Ring([head] + Kept(l, doomed))
    ensures forall x :: x in l && x in doomed ==> Ring([x])
  {
    assert forall x :: x in rest ==> x in l;
    assert [head] + kept + [] == [head] + kept;
  }

  /** A list_for_each_safe() loop whose body applies list_del_init() to the
      entries in `doomed`: it visits every entry once, in order, and leaves
      exactly the others, in order. */
  method ForEachSafe(head: ListHead, doomed: set<ListHead>, ghost l: seq<ListHead>) returns (visited: seq<ListHead>)
    requires Ring([head] + l)
    modifies Elems([head] + l)
    ensures visited == l
    ensures Ring([head] + Kept(l, doomed))
    ensures forall x :: x in l && x in doomed ==> Ring([x])
  {
    visited := [];
    ghost var rest, kept := l, [];
    FirstVisit(head, doomed, l);
    var pos := head.next;
    var n := pos.next;
    while pos != head
      invariant visited + rest == l && pos == (if rest == [] then head else rest[0]) && n == pos.next
      invariant Visiting(head, doomed, visited, kept, rest)
      decreases |rest|
    {
      TakeNext(visited, rest);
      rest := rest[1..];
      NextVisited(head, pos, kept, rest);
      kept := VisitNext(head, pos, doomed, visited, kept, rest, l);
      visited := visited + [pos];
      pos := n;
      n := pos.next;
    }
    LastVisit(head, doomed, visited, kept, rest, l);
  }
}
