/** The hash lists of `list.h`: singly linked, with a back pointer `pprev` that
    names the slot holding the node, so that a node can be deleted without
    knowing its head. */
module HashList {
  import opened Sequences

  /** A `struct hlist_node *`: nothing, LIST_POISON1, or a node. */
  datatype Link = Null | Poison1 | To(node: Node)

  /** A `struct hlist_node **`: nothing, LIST_POISON2, or the address of a head's
      `first` or of a node's `next`. */
  datatype Slot = NoSlot | Poison2 | First(head: Head) | NextOf(node: Node)

  class Head {
    var first: Link

    constructor ()
      ensures first == Null
    {
      first := Null;
    }
  }

  class Node {
    var next: Link
    var pprev: Slot

    constructor ()
      ensures next == Null && pprev == NoSlot
    {
      next := Null;
      pprev := NoSlot;
    }
  }

  /** The slot inside `a` leads to `b`. */
  ghost predicate Linked(a: Node, b: Node)
    reads a, b
  {
    a.next == To(b) && b.pprev == NextOf(a)
  }

  /** What leads to the first node of `s`. */
  ghost function LinkTo(s: seq<Node>): Link {
    if s == [] then Null else To(s[0])
  }

  /** The slot behind the nodes `a` of the list of `h`. */
  ghost function SlotBehind(h: Head, a: seq<Node>): Slot {
    if a == [] then First(h) else NextOf(a[|a| - 1])
  }

  ghost predicate Path(s: seq<Node>)
    reads s
  {
    forall i :: 1 <= i < |s| ==> Linked(s[i - 1], s[i])
  }

  /** The list of `h` is `s`: every slot on the way holds the next node and
      every node names the slot that holds it. */
  ghost predicate List(h: Head, s: seq<Node>)
    reads h, s
  {
    && Distinct(s) && Path(s)
    && h.first == LinkTo(s)
    && (s != [] ==> s[0].pprev == First(h) && s[|s| - 1].next == Null)
  }

  lemma {:induction false} PathParts(a: seq<Node>, b: seq<Node>)
    requires Path(a + b)
    ensures Path(a) && Path(b)
    ensures a != [] && b != [] ==> Linked(a[|a| - 1], b[0])
  {
    var s := a + b;
    forall i | 1 <= i < |a| ensures Linked(a[i - 1], a[i]) {
      assert Linked(s[i - 1], s[i]);
    }
    forall i | 1 <= i < |b| ensures Linked(b[i - 1], b[i]) {
      assert Linked(s[|a| + i - 1], s[|a| + i]);
    }
    if a != [] && b != [] {
      assert Linked(s[|a| - 1], s[|a|]);
    }
  }

  lemma {:induction false} PathJoin(a: seq<Node>, b: seq<Node>)
    requires Path(a) && Path(b)
    requires a != [] && b != [] ==> Linked(a[|a| - 1], b[0])
    ensures Path(a + b)
  {
    var s := a + b;
    forall i | 1 <= i < |s| ensures Linked(s[i - 1], s[i]) {
      if i < |a| {
        assert Linked(a[i - 1], a[i]);
      } else if i > |a| {
        assert Linked(b[i - |a| - 1], b[i - |a|]);
      }
    }
  }

  /** A path does not depend on the `pprev` of its first node nor on the `next`
      of its last one. */
  twostate lemma StillPath(s: seq<Node>)
    requires old(Path(s)) && Distinct(s)
    requires forall m :: m in s && m != s[0] ==> m.pprev == old(m.pprev)
    requires forall m :: m in s && m != s[|s| - 1] ==> m.next == old(m.next)
    ensures Path(s)
  {
    forall i | 1 <= i < |s| ensures Linked(s[i - 1], s[i]) {
      assert old(Linked(s[i - 1], s[i])) && s[i - 1] in s && s[i] in s;
    }
  }

  /** What a list is on both sides of a cut. */
  lemma {:induction false} CutList(h: Head, a: seq<Node>, b: seq<Node>)
    requires List(h, a + b)
    ensures Distinct(a) && Distinct(b) && Path(a) && Path(b)
    ensures Apart(a, b)
    ensures h.first == LinkTo(a + b)
    ensures a != [] ==> a[0].pprev == First(h) && a[|a| - 1].next == LinkTo(b)
    ensures b != [] ==> b[0].pprev == SlotBehind(h, a) && b[|b| - 1].next == Null
  {
    DistinctParts(a, b);
    PathParts(a, b);
  }

  /** The converse. */
  lemma {:induction false} JoinList(h: Head, a: seq<Node>, b: seq<Node>)
    requires Distinct(a) && Distinct(b) && Path(a) && Path(b)
    requires Apart(a, b)
    requires h.first == LinkTo(a + b)
    requires a != [] ==> a[0].pprev == First(h) && a[|a| - 1].next == LinkTo(b)
    requires b != [] ==> b[0].pprev == SlotBehind(h, a) && b[|b| - 1].next == Null
    ensures List(h, a + b)
  {
    PathJoin(a, b);
    DistinctJoin(a, b);
  }

  // ----- reading and writing through a slot -----

  /** The object a slot lies in. */
  function Owner(p: Slot): set<object> {
    match p
    case First(h) => {h}
    case NextOf(n) => {n}
    case _ => {}
  }

  /** *p = v */
  method Store(p: Slot, v: Link)
    requires p.First? || p.NextOf?
    modifies Owner(p)
    ensures p.First? ==> p.head.first == v
    ensures p.NextOf? ==> p.node.next == v && p.node.pprev == old(p.node.pprev)
  {
    match p
    case First(h) => h.first := v;
    case NextOf(n) => n.next := v;
  }

  /** hlist_unhashed() */
  predicate Unhashed(n: Node)
    reads n
  {
    n.pprev == NoSlot
  }

  /** hlist_fake() */
  predicate Fake(n: Node)
    reads n
  {
    n.pprev == NextOf(n)
  }

  /** hlist_is_singular_node() */
  predicate IsSingularNode(n: Node, h: Head)
    reads n
  {
    n.next == Null && n.pprev == First(h)
  }

  /** A list around one of its nodes. */
  ghost predicate Around(h: Head, a: seq<Node>, n: Node, b: seq<Node>)
    reads h, a, n, b
  {
    && Distinct(a) && Distinct(b) && Path(a) && Path(b)
    && Apart(a, b) && n !in a && n !in b
    && n.pprev == SlotBehind(h, a) && n.next == LinkTo(b)
    && h.first == LinkTo(a + [n])
    && (a != [] ==> a[0].pprev == First(h) && a[|a| - 1].next == To(n))
    && (b != [] ==> b[0].pprev == NextOf(n) && b[|b| - 1].next == Null)
  }

  lemma {:induction false} LookAround(h: Head, a: seq<Node>, n: Node, b: seq<Node>)
    requires List(h, a + [n] + b)
    ensures Around(h, a, n, b)
  {
    assert a + [n] + b == a + ([n] + b);
    CutList(h, a + [n], b);
    CutList(h, a, [n] + b);
    assert ([n] + b)[0] == n && n in [n] + b && n in a + [n];
    assert forall x :: x in a ==> x in a + [n];
  }

  lemma {:induction false} AroundIsList(h: Head, a: seq<Node>, n: Node, b: seq<Node>)
    requires Around(h, a, n, b)
    ensures List(h, a + [n] + b)
  {
    PathJoin(a, [n]);
    JoinList(h, a + [n], b);
  }

  // ----- the operations -----

  function Follower(n: Node): set<Node>
    reads n
  {
    if n.next.To? then {n.next.node} else {}
  }

  /** What deleting a node needs: a slot to write, and a successor that is a node
      or nothing. */
  predicate Deletable(n: Node)
    reads n
  {
    (n.pprev.First? || n.pprev.NextOf?) && n.next != Poison1
  }

  /** __hlist_del(): knows nothing but the node. The slot that held it now holds
      its successor, which names that slot. */
  method Unlink(n: Node)
    requires Deletable(n)
    modifies Owner(n.pprev), Follower(n)
    ensures match old(n.pprev)
            case First(h) => h.first == old(n.next)
            case NextOf(p) => p.next == old(n.next) && (old(n.next) != To(p) ==> p.pprev == old(p.pprev))
            case _ => true
    ensures old(n.next).To? ==>
              var m := old(n.next.node);
              m.pprev == old(n.pprev) && (old(n.pprev) != NextOf(m) ==> m.next == old(n.next.node.next))
  {
    var next := n.next;
    var pprev := n.pprev;
    Store(pprev, next);
    if next.To? {
      next.node.pprev := pprev;
    }
  }

  method UnlinkFromList(n: Node, ghost h: Head, ghost a: seq<Node>, ghost b: seq<Node>)
    requires Around(h, a, n, b)
    modifies h, a, n, b
    ensures List(h, a + b) && n !in a + b
  {
    assert a != [] ==> a[|a| - 1] in a;
    assert b != [] ==> b[0] in b;
    Unlink(n);
    StillPath(a);
    StillPath(b);
    JoinList(h, a, b);
  }

  /** hlist_del(): the node stays hashed, its links are poisoned. */
  method HlistDel(n: Node, ghost h: Head, ghost a: seq<Node>, ghost b: seq<Node>)
    requires List(h, a + [n] + b)
    modifies h, a, n, b
    ensures List(h, a + b) && n.next == Poison1 && n.pprev == Poison2 && !Unhashed(n)
  {
    LookAround(h, a, n, b);
    UnlinkFromList(n, h, a, b);
    n.next := Poison1;
    n.pprev := Poison2;
  }

  /** hlist_del_init(): on a hashed node, deletion; on an unhashed one, nothing. */
  method HlistDelInit(n: Node, ghost h: Head, ghost a: seq<Node>, ghost b: seq<Node>)
    requires Unhashed(n) || List(h, a + [n] + b)
    modifies h, a, n, b
    ensures !old(Unhashed(n)) ==> List(h, a + b) && n.next == Null
    ensures old(Unhashed(n)) ==> n.next == old(n.next) && unchanged(h) && unchanged(a) && unchanged(b)
    ensures Unhashed(n)
  {
    if !Unhashed(n) {
      LookAround(h, a, n, b);
      UnlinkFromList(n, h, a, b);
      n.next := Null;
      n.pprev := NoSlot;
    }
  }

  /** hlist_add_head() */
  method HlistAddHead(n: Node, h: Head, ghost b: seq<Node>)
    requires List(h, b) && n !in b
    modifies n, h, b
    ensures List(h, [n] + b)
  {
    var first := h.first;
    n.next := first;
    if first.To? {
      first.node.pprev := NextOf(n);
    }
    h.first := To(n);
    n.pprev := First(h);
    StillPath(b);
    JoinList(h, [n], b);
  }

  method LinkBefore(n: Node, next: Node, ghost h: Head, ghost a: seq<Node>, ghost b: seq<Node>)
    requires Around(h, a, next, b) && n != next
    requires n !in a && n !in b
    modifies n, next, h, a, b
    ensures Around(h, a + [n], next, b)
  {
    n.pprev := next.pprev;
    n.next := To(next);
    next.pprev := NextOf(n);
    Store(n.pprev, To(n));
    StillPath(a);
    StillPath(b);
    PathJoin(a, [n]);
  }

  /** hlist_add_before(), given nothing but the two nodes. */
  method HlistAddBefore(n: Node, next: Node, ghost h: Head, ghost a: seq<Node>, ghost b: seq<Node>)
    requires List(h, a + [next] + b) && n !in a + [next] + b
    modifies n, next, h, a, b
    ensures List(h, a + [n, next] + b)
  {
    LookAround(h, a, next, b);
    LinkBefore(n, next, h, a, b);
    AroundIsList(h, a + [n], next, b);
    assert a + [n] + [next] + b == a + [n, next] + b;
  }

  method LinkBehind(n: Node, prev: Node, ghost h: Head, ghost a: seq<Node>, ghost b: seq<Node>)
    requires Around(h, a, prev, b) && n != prev
    requires n !in a && n !in b
    modifies n, prev, h, a, b
    ensures Around(h, a, prev, [n] + b)
  {
    n.next := prev.next;
    prev.next := To(n);
    n.pprev := NextOf(prev);
    if n.next.To? {
      n.next.node.pprev := NextOf(n);
    }
    StillPath(a);
    StillPath(b);
    PathJoin([n], b);
  }

  /** hlist_add_behind(), given nothing but the two nodes. */
  method HlistAddBehind(n: Node, prev: Node, ghost h: Head, ghost a: seq<Node>, ghost b: seq<Node>)
    requires List(h, a + [prev] + b) && n !in a + [prev] + b
    modifies n, prev, h, a, b
    ensures List(h, a + [prev, n] + b)
  {
    LookAround(h, a, prev, b);
    LinkBehind(n, prev, h, a, b);
    AroundIsList(h, a, prev, [n] + b);
    assert a + [prev] + ([n] + b) == a + [prev, n] + b;
  }

  /** hlist_move_list(), between distinct heads. */
  method HlistMoveList(o: Head, n: Head, ghost s: seq<Node>)
    requires List(o, s) && o != n
    modifies o, n, s
    ensures List(n, s) && List(o, [])
  {
    n.first := o.first;
    if n.first.To? {
      n.first.node.pprev := First(n);
    }
    o.first := Null;
    StillPath(s);
  }

  /** hlist_add_fake() */
  method HlistAddFake(n: Node)
    modifies n
    ensures Fake(n) && n.next == old(n.next)
  {
    n.pprev := NextOf(n);
  }

  /** hlist_del() on a node made fake writes nothing but the node, as long as its
      `next` is null; otherwise it makes that node's `pprev` point into `n`. */
  method HlistDelFake(n: Node)
    requires Fake(n) && Deletable(n)
    modifies n, Follower(n)
    ensures n.next == Poison1 && n.pprev == Poison2
    ensures old(n.next).To? && old(n.next) != To(n) ==>
              old(n.next.node).pprev == NextOf(n) && old(n.next.node).next == old(n.next.node.next)
  {
    Unlink(n);
    n.next := Poison1;
    n.pprev := Poison2;
  }

  /** hlist_del_init() on a node that is on no list: nothing on an unhashed one,
      and as hlist_del() on one made fake. */
  method HlistDelInitOffList(n: Node)
    requires Unhashed(n) || (Fake(n) && Deletable(n))
    modifies if Unhashed(n) then {} else {n} + Follower(n)
    ensures Unhashed(n) && n.next == if old(Unhashed(n)) then old(n.next) else Null
    ensures old(Fake(n)) && old(n.next).To? && old(n.next) != To(n) ==>
              old(n.next.node).pprev == NextOf(n) && old(n.next.node).next == old(n.next.node.next)
  {
    if !Unhashed(n) {
      Unlink(n);
      n.next := Null;
      n.pprev := NoSlot;
    }
  }

  /** Making a node fake does not make it deletable when hlist_del() has poisoned
      its `next` before; after hlist_del_init() it does. */
  method DeleteThenFake(n: Node, init: bool, ghost h: Head, ghost a: seq<Node>, ghost b: seq<Node>)
    requires List(h, a + [n] + b)
    modifies h, a, n, b
    ensures Fake(n) && (Deletable(n) <==> init)
  {
    LookAround(h, a, n, b);
    if init {
      HlistDelInit(n, h, a, b);
    } else {
      HlistDel(n, h, a, b);
    }
    HlistAddFake(n);
  }

  /** hlist_is_singular_node() looks at the node only, yet decides whether it is
      the one node of the list of `h`. */
  lemma {:induction false} SingularNode(n: Node, h: Head, a: seq<Node>, b: seq<Node>)
    requires List(h, a + [n] + b)
    ensures IsSingularNode(n, h) <==> a == [] && b == []
  {
    LookAround(h, a, n, b);
  }

  /** The list determines every link: the slot contents and the back pointers. */
  lemma {:induction false} Links(h: Head, s: seq<Node>)
    requires List(h, s)
    ensures h.first == LinkTo(s)
    ensures forall i :: 0 <= i < |s| ==> s[i].next == LinkTo(s[i + 1..]) && s[i].pprev == SlotBehind(h, s[..i])
  {
    forall i | 0 <= i < |s| ensures s[i].next == LinkTo(s[i + 1..]) && s[i].pprev == SlotBehind(h, s[..i]) {
      assert i + 1 < |s| ==> Linked(s[i + 1 - 1], s[i + 1]);
      assert 0 < i ==> Linked(s[i - 1], s[i]);
    }
  }

  method AddThenDelete(n: Node, next: Node, ghost h: Head, ghost a: seq<Node>, ghost b: seq<Node>)
    requires List(h, a + [next] + b) && n !in a + [next] + b
    modifies n, next, h, a, b
    ensures List(h, a + [next] + b) && Unhashed(n)
  {
    HlistAddBefore(n, next, h, a, b);
    assert a + [n, next] + b == a + [n] + ([next] + b);
    LookAround(h, a, n, [next] + b);
    HlistDelInit(n, h, a, [next] + b);
    assert a + ([next] + b) == a + [next] + b;
  }

  /** Adding and deleting the same node restores the list, link by link. */
  method AddThenDeleteRestores(n: Node, next: Node, ghost h: Head, ghost a: seq<Node>, ghost b: seq<Node>)
    requires List(h, a + [next] + b) && n !in a + [next] + b
    modifies n, next, h, a, b
    ensures Unhashed(n) && h.first == old(h.first)
    ensures var s := a + [next] + b;
            forall i :: 0 <= i < |s| ==> s[i].next == old(s[i].next) && s[i].pprev == old(s[i].pprev)
  {
    ghost var s := a + [next] + b;
    Links(h, s);
    AddThenDelete(n, next, h, a, b);
    Links(h, s);
  }
}
