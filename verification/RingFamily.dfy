/** Many lists at once: any sequence of legal list calls keeps a family of
    pairwise disjoint rings, and each call changes only the rings it names. */
module RingFamily {
  import opened Sequences
  import opened Rings
  import opened ListSurgery

  /** A call of `list.h` on given nodes. */
  datatype Call =
    | Add(x: ListHead, head: ListHead)
    | AddTail(x: ListHead, head: ListHead)
    | DelInit(x: ListHead)
    | Move(x: ListHead, head: ListHead)
    | MoveTail(x: ListHead, head: ListHead)
    | ReplaceInit(o: ListHead, n: ListHead)
    | Swap(e1: ListHead, e2: ListHead)
    | SpliceInit(list: ListHead, head: ListHead)
    | SpliceTailInit(list: ListHead, head: ListHead)
    | Del(x: ListHead)
    | BulkMoveTail(head: ListHead, first: ListHead, last: ListHead)
    | RotateLeft(head: ListHead)
    | RotateToFront(list: ListHead, head: ListHead)
    | CutPosition(list: ListHead, head: ListHead, entry: ListHead)
    | CutBefore(list: ListHead, head: ListHead, entry: ListHead)

  /** The rings of a family; [] marks a slot not in use. A node that is on no ring
      at all, not even its own, has a slot for itself and is among the nodes `off`
      of the family. */
  type Family = seq<seq<ListHead>>

  ghost predicate Disjoint(f: Family) {
    forall i, j :: 0 <= i < |f| && 0 <= j < |f| && i != j ==> Apart(f[i], f[j])
  }

  ghost function Nodes(f: Family): set<ListHead> {
    set i, x | 0 <= i < |f| && x in f[i] :: x
  }

  ghost predicate RingOrFree(r: seq<ListHead>)
    reads r
  {
    r == [] || Ring(r)
  }

  /** A slot not in use, a ring, or one node of which nothing is known. */
  ghost predicate Fits(r: seq<ListHead>, off: set<ListHead>)
    reads r
  {
    RingOrFree(r) || (|r| == 1 && r[0] in off)
  }

  ghost predicate Valid(f: Family, off: set<ListHead>)
    reads Nodes(f)
  {
    assert forall i, x :: 0 <= i < |f| && x in f[i] ==> x in Nodes(f);
    Disjoint(f) && forall i :: 0 <= i < |f| ==> Fits(f[i], off)
  }

  /** The slot whose ring holds `x`. */
  ghost function Home(f: Family, x: ListHead): (i: nat)
    requires x in Nodes(f)
    ensures i < |f| && x in f[i]
  {
    var i :| 0 <= i < |f| && x in f[i]; i
  }

  /** The other nodes of a ring in order, from the one after `x` around to the
      one before it. */
  ghost function Around(r: seq<ListHead>, x: ListHead): (c: seq<ListHead>)
    requires x in r
    ensures forall n :: n in r && n != x ==> n in c
  {
    assert r == r[..Pos(r, x)] + [x] + r[Pos(r, x) + 1..];
    r[Pos(r, x) + 1..] + r[..Pos(r, x)]
  }

  lemma {:induction false} AroundNodes(r: seq<ListHead>, x: ListHead)
    requires Distinct(r) && x in r
    ensures x !in Around(r, x) && Distinct([x] + Around(r, x))
    ensures forall n :: n in r <==> n == x || n in Around(r, x)
  {
    var k := Pos(r, x);
    assert r == r[..k] + ([x] + r[k + 1..]);
    DistinctParts(r[..k], [x] + r[k + 1..]);
    assert [x] + r[k + 1..] + r[..k] == [x] + Around(r, x);
    DistinctParts([x], Around(r, x));
  }

  lemma {:induction false} AroundRing(r: seq<ListHead>, x: ListHead)
    requires Ring(r) && x in r
    ensures Ring([x] + Around(r, x))
  {
    var k := Pos(r, x);
    assert r == r[..k] + ([x] + r[k + 1..]);
    Rotate(r[..k], [x] + r[k + 1..]);
    assert [x] + r[k + 1..] + r[..k] == [x] + Around(r, x);
  }

  /** A node on no list: its ring is itself, or it is off. */
  ghost predicate Lone(f: Family, x: ListHead) {
    x in Nodes(f) && f[Home(f, x)] == [x]
  }

  /** The entries of the list of `head`, in order. */
  ghost function Entries(f: Family, head: ListHead): seq<ListHead>
    requires head in Nodes(f)
  {
    Around(f[Home(f, head)], head)
  }

  /** The nodes a call names are where the call needs them. */
  ghost predicate Applies(f: Family, c: Call) {
    match c
    case Add(x, head) => Lone(f, x) && head in Nodes(f) && head != x
    case AddTail(x, head) => Lone(f, x) && head in Nodes(f) && head != x
    case DelInit(x) => x in Nodes(f)
    case Move(x, head) => x in Nodes(f) && head in Nodes(f) && head != x
    case MoveTail(x, head) => x in Nodes(f) && head in Nodes(f) && head != x
    case ReplaceInit(o, n) => o in Nodes(f) && Lone(f, n) && n != o
    case Swap(e1, e2) => e1 in Nodes(f) && e2 in Nodes(f) && e1 != e2 && !Lone(f, e2)
    case SpliceInit(list, head) => list in Nodes(f) && head in Nodes(f) && Home(f, list) != Home(f, head)
    case SpliceTailInit(list, head) => list in Nodes(f) && head in Nodes(f) && Home(f, list) != Home(f, head)
    case Del(x) => x in Nodes(f)
    case BulkMoveTail(head, first, last) =>
      && head in Nodes(f) && first in Entries(f, head) && last in Entries(f, head)
      && Pos(Entries(f, head), first) <= Pos(Entries(f, head), last)
    case RotateLeft(head) => head in Nodes(f)
    case RotateToFront(list, head) => head in Nodes(f) && list in Entries(f, head)
    case CutPosition(list, head, entry) =>
      Lone(f, list) && head in Nodes(f) && head != list && (entry == head || entry in Entries(f, head))
    case CutBefore(list, head, entry) =>
      Lone(f, list) && head in Nodes(f) && head != list && (entry == head || entry in Entries(f, head))
  }

  /** The nodes a call needs on a ring. The others (a node to add, the replacement,
      the node that receives a part cut off) may be off. */
  ghost function Needs(c: Call): set<ListHead> {
    match c
    case Add(_, head) => {head}
    case AddTail(_, head) => {head}
    case DelInit(x) => {x}
    case Move(x, head) => {x, head}
    case MoveTail(x, head) => {x, head}
    case ReplaceInit(o, _) => {o}
    case Swap(e1, e2) => {e1, e2}
    case SpliceInit(list, head) => {list, head}
    case SpliceTailInit(list, head) => {list, head}
    case Del(x) => {x}
    case BulkMoveTail(head, _, _) => {head}
    case RotateLeft(head) => {head}
    case RotateToFront(_, head) => {head}
    case CutPosition(_, head, _) => {head}
    case CutBefore(_, head, _) => {head}
  }

  /** What the kernel asks of the callers of each operation. */
  ghost predicate Legal(f: Family, off: set<ListHead>, c: Call) {
    Applies(f, c) && Needs(c) !! off
  }

  /** The nodes that are off after a call: list_del() takes one off, a node that
      is linked is off no more. Cutting an empty list after its head does nothing. */
  ghost function OffAfter(f: Family, off: set<ListHead>, c: Call): set<ListHead>
    requires Applies(f, c)
  {
    match c
    case Add(x, _) => off - {x}
    case AddTail(x, _) => off - {x}
    case ReplaceInit(_, n) => off - {n}
    case Del(x) => off + {x}
    case CutPosition(list, head, _) => if Entries(f, head) == [] then off else off - {list}
    case CutBefore(list, _, _) => off - {list}
    case _ => off
  }

  /** The change a call makes: slots i and j now hold p and q. */
  datatype Effect = Effect(i: nat, p: seq<ListHead>, j: nat, q: seq<ListHead>)

  /** list_move(): `m` is the pair written in the place of `head`. */
  ghost function MoveEffect(f: Family, x: ListHead, head: ListHead, m: seq<ListHead>): Effect
    requires x in Nodes(f) && head in Nodes(f) && head != x
  {
    var i, j := Home(f, head), Home(f, x);
    if i == j then Effect(i, Subst(Without(f[i], x), head, m), |f|, [])
    else Effect(i, Subst(f[i], head, m), j, Without(f[j], x))
  }

  /** list_swap(), within a ring or between two. */
  ghost function SwapEffect(f: Family, e1: ListHead, e2: ListHead): Effect
    requires e1 in Nodes(f) && e2 in Nodes(f) && e1 != e2
  {
    var i, j := Home(f, e1), Home(f, e2);
    if i == j then Effect(i, [e2] + Subst(Around(f[i], e1), e2, [e1]), |f|, [])
    else Effect(i, [e2] + Around(f[i], e1), j, [e1] + Around(f[j], e2))
  }

  /** The list of `head` with its entries `l`. */
  ghost function ListEffect(f: Family, head: ListHead, l: seq<ListHead>): Effect
    requires head in Nodes(f)
  {
    Effect(Home(f, head), [head] + l, |f|, [])
  }

  /** `list` takes the first k entries of `head`. */
  ghost function CutEffect(f: Family, list: ListHead, head: ListHead, k: nat): Effect
    requires head in Nodes(f) && list in Nodes(f) && k <= |Entries(f, head)|
  {
    Effect(Home(f, head), [head] + Entries(f, head)[k..], Home(f, list), [list] + Entries(f, head)[..k])
  }

  ghost function SpliceEffect(f: Family, list: ListHead, head: ListHead, m: seq<ListHead>): Effect
    requires list in Nodes(f) && head in Nodes(f)
  {
    Effect(Home(f, head), Subst(f[Home(f, head)], head, m), Home(f, list), [list])
  }

  /** The entries l with those from `first` to `last` moved to the end. */
  ghost function Bulk(l: seq<ListHead>, first: ListHead, last: ListHead): seq<ListHead>
    requires first in l && last in l && Pos(l, first) <= Pos(l, last)
  {
    l[..Pos(l, first)] + l[Pos(l, last) + 1..] + l[Pos(l, first)..Pos(l, last) + 1]
  }

  ghost function Rotated(l: seq<ListHead>): seq<ListHead> {
    if l == [] then [] else l[1..] + [l[0]]
  }

  /** The entries l with `x` brought to the front, the ones before it to the end. */
  ghost function Fronted(l: seq<ListHead>, x: ListHead): seq<ListHead>
    requires x in l
  {
    [x] + l[Pos(l, x) + 1..] + l[..Pos(l, x)]
  }

  /** The abstract meaning of each call. A call that needs a slot for a new ring
      takes the fresh one, |f|. */
  ghost function EffectOf(f: Family, c: Call): Effect
    requires Applies(f, c)
  {
    match c
    case Add(x, head) => Effect(Home(f, head), Subst(f[Home(f, head)], head, [head, x]), Home(f, x), [])
    case AddTail(x, head) => Effect(Home(f, head), Subst(f[Home(f, head)], head, [x, head]), Home(f, x), [])
    case DelInit(x) => Effect(Home(f, x), Without(f[Home(f, x)], x), |f|, [x])
    case Move(x, head) => MoveEffect(f, x, head, [head, x])
    case MoveTail(x, head) => MoveEffect(f, x, head, [x, head])
    case ReplaceInit(o, n) => Effect(Home(f, o), Subst(f[Home(f, o)], o, [n]), Home(f, n), [o])
    case Swap(e1, e2) => SwapEffect(f, e1, e2)
    case SpliceInit(list, head) => SpliceEffect(f, list, head, [head] + Entries(f, list))
    case SpliceTailInit(list, head) => SpliceEffect(f, list, head, Entries(f, list) + [head])
    case Del(x) => Effect(Home(f, x), Without(f[Home(f, x)], x), |f|, [x])
    case BulkMoveTail(head, first, last) => ListEffect(f, head, Bulk(Entries(f, head), first, last))
    case RotateLeft(head) => ListEffect(f, head, Rotated(Entries(f, head)))
    case RotateToFront(list, head) => ListEffect(f, head, Fronted(Entries(f, head), list))
    case CutPosition(list, head, entry) =>
      CutEffect(f, list, head, if entry == head then 0 else Pos(Entries(f, head), entry) + 1)
    case CutBefore(list, head, entry) =>
      CutEffect(f, list, head, if entry == head then |Entries(f, head)| else Pos(Entries(f, head), entry))
  }

  ghost function Slot(f: Family, i: nat): seq<ListHead>
    requires i <= |f|
  {
    (f + [[]])[i]
  }

  ghost function Update(f: Family, e: Effect): Family
    requires e.i <= |f| && e.j <= |f|
  {
    (f + [[]])[e.i := e.p][e.j := e.q]
  }

  ghost function Apply(f: Family, c: Call): Family
    requires Applies(f, c)
  {
    Update(f, EffectOf(f, c))
  }

  // ----- calls conserve nodes -----

  ghost predicate AllDistinct(f: Family) {
    Disjoint(f) && forall i :: 0 <= i < |f| ==> Distinct(f[i])
  }

  /** The two slots exchange nodes among themselves: none is lost, none is
      invented, none is in both. */
  ghost predicate Conserves(f: Family, e: Effect) {
    && e.i < |f| && e.j <= |f| && e.i != e.j
    && Apart(e.p, e.q)
    && (forall n :: n in e.p ==> n in Slot(f, e.i) || n in Slot(f, e.j))
    && (forall n :: n in e.q ==> n in Slot(f, e.i) || n in Slot(f, e.j))
    && (forall n :: n in Slot(f, e.i) ==> n in e.p || n in e.q)
    && (forall n :: n in Slot(f, e.j) ==> n in e.p || n in e.q)
  }

  /** A rearrangement of one ring, using the fresh slot for nothing. */
  lemma {:induction false} WithinConserves(f: Family, i: nat, p: seq<ListHead>)
    requires i < |f| && forall n :: n in p <==> n in f[i]
    ensures Conserves(f, Effect(i, p, |f|, []))
  {
  }

  lemma {:induction false} AcrossConserves(f: Family, i: nat, p: seq<ListHead>, j: nat, q: seq<ListHead>)
    requires i < |f| && j < |f| && i != j && Apart(p, q)
    requires forall n :: n in p || n in q <==> n in f[i] || n in f[j]
    ensures Conserves(f, Effect(i, p, j, q))
  {
  }

  lemma {:induction false} AddConserves(f: Family, x: ListHead, head: ListHead, m: seq<ListHead>)
    requires AllDistinct(f) && Applies(f, Add(x, head)) && (m == [head, x] || m == [x, head])
    ensures Conserves(f, Effect(Home(f, head), Subst(f[Home(f, head)], head, m), Home(f, x), []))
  {
    var i := Home(f, head);
    SubstNodes(f[i], head, m);
    AcrossConserves(f, i, Subst(f[i], head, m), Home(f, x), []);
  }

  lemma {:induction false} DelConserves(f: Family, x: ListHead)
    requires AllDistinct(f) && Applies(f, DelInit(x))
    ensures Conserves(f, EffectOf(f, DelInit(x)))
  {
    SubstNodes(f[Home(f, x)], x, []);
  }

  lemma {:induction false} MoveConserves(f: Family, x: ListHead, head: ListHead, m: seq<ListHead>)
    requires AllDistinct(f) && Applies(f, Move(x, head)) && (m == [head, x] || m == [x, head])
    ensures Conserves(f, MoveEffect(f, x, head, m))
  {
    var i, j := Home(f, head), Home(f, x);
    SubstNodes(f[j], x, []);
    if i == j {
      SubstNodes(Without(f[i], x), head, m);
      WithinConserves(f, i, Subst(Without(f[i], x), head, m));
    } else {
      SubstNodes(f[i], head, m);
      assert Apart(f[i], f[j]) && Apart(f[j], f[i]);
      AcrossConserves(f, i, Subst(f[i], head, m), j, Without(f[j], x));
    }
  }

  lemma {:induction false} ReplaceConserves(f: Family, o: ListHead, n: ListHead)
    requires AllDistinct(f) && Applies(f, ReplaceInit(o, n))
    ensures Conserves(f, EffectOf(f, ReplaceInit(o, n)))
  {
    var i := Home(f, o);
    SubstNodes(f[i], o, [n]);
    AcrossConserves(f, i, Subst(f[i], o, [n]), Home(f, n), [o]);
  }

  lemma {:induction false} SwapConserves(f: Family, e1: ListHead, e2: ListHead)
    requires AllDistinct(f) && Applies(f, Swap(e1, e2))
    ensures Conserves(f, SwapEffect(f, e1, e2))
  {
    var i, j := Home(f, e1), Home(f, e2);
    AroundNodes(f[i], e1);
    if i == j {
      var c := Around(f[i], e1);
      DistinctParts([e1], c);
      SubstNodes(c, e2, [e1]);
      WithinConserves(f, i, [e2] + Subst(c, e2, [e1]));
    } else {
      AroundNodes(f[j], e2);
      assert Apart(f[i], f[j]) && Apart(f[j], f[i]);
      AcrossConserves(f, i, [e2] + Around(f[i], e1), j, [e1] + Around(f[j], e2));
    }
  }

  lemma {:induction false} SpliceConserves(f: Family, list: ListHead, head: ListHead, m: seq<ListHead>)
    requires AllDistinct(f) && Applies(f, SpliceInit(list, head))
    requires m == [head] + Entries(f, list) || m == Entries(f, list) + [head]
    ensures Conserves(f, SpliceEffect(f, list, head, m))
  {
    var i, j := Home(f, head), Home(f, list);
    AroundNodes(f[j], list);
    SubstNodes(f[i], head, m);
    assert Apart(f[i], f[j]) && Apart(f[j], f[i]);
    AcrossConserves(f, i, Subst(f[i], head, m), j, [list]);
  }

  ghost predicate SameNodes(p: seq<ListHead>, q: seq<ListHead>) {
    Elems(p) == Elems(q)
  }

  lemma {:induction false} ListConserves(f: Family, head: ListHead, l: seq<ListHead>)
    requires AllDistinct(f) && head in Nodes(f) && SameNodes(l, Entries(f, head))
    ensures Conserves(f, ListEffect(f, head, l))
  {
    AroundNodes(f[Home(f, head)], head);
    assert forall n :: n in l <==> n in Elems(Entries(f, head));
    WithinConserves(f, Home(f, head), [head] + l);
  }

  lemma {:induction false} BulkParts(l: seq<ListHead>, first: ListHead, last: ListHead)
    returns (a: seq<ListHead>, s: seq<ListHead>, b: seq<ListHead>)
    requires first in l && last in l && Pos(l, first) <= Pos(l, last)
    ensures l == a + s + b && s != [] && first == s[0] && last == s[|s| - 1]
    ensures Bulk(l, first, last) == a + b + s
  {
    var i, k := Pos(l, first), Pos(l, last) + 1;
    a, s, b := l[..i], l[i..k], l[k..];
  }

  lemma {:induction false} BulkNodes(l: seq<ListHead>, first: ListHead, last: ListHead)
    requires first in l && last in l && Pos(l, first) <= Pos(l, last)
    ensures SameNodes(Bulk(l, first, last), l)
  {
    var a, s, b := BulkParts(l, first, last);
  }

  lemma {:induction false} RotatedNodes(l: seq<ListHead>)
    ensures SameNodes(Rotated(l), l)
  {
    assert l != [] ==> l == [l[0]] + l[1..];
  }

  lemma {:induction false} FrontParts(l: seq<ListHead>, x: ListHead) returns (a: seq<ListHead>, b: seq<ListHead>)
    requires x in l
    ensures l == a + [x] + b && Fronted(l, x) == [x] + b + a
  {
    a, b := l[..Pos(l, x)], l[Pos(l, x) + 1..];
  }

  lemma {:induction false} FrontedNodes(l: seq<ListHead>, x: ListHead)
    requires x in l
    ensures SameNodes(Fronted(l, x), l)
  {
    var a, b := FrontParts(l, x);
  }

  lemma {:induction false} CutConserves(f: Family, list: ListHead, head: ListHead, k: nat)
    requires AllDistinct(f) && Lone(f, list) && head in Nodes(f) && head != list && k <= |Entries(f, head)|
    ensures Conserves(f, CutEffect(f, list, head, k))
  {
    var i, j := Home(f, head), Home(f, list);
    var l := Entries(f, head);
    AroundNodes(f[i], head);
    assert l == l[..k] + l[k..] && [head] + l == [head] + l[..k] + l[k..];
    assert list in f[j] && Apart(f[j], f[i]);
    CutApart(list, head, l[..k], l[k..]);
    assert Apart([head] + l[k..], [list] + l[..k]);
    AcrossConserves(f, i, [head] + l[k..], j, [list] + l[..k]);
  }

  /** The calls that only move entries within the list of one head. */
  predicate Reorders(c: Call) {
    c.BulkMoveTail? || c.RotateLeft? || c.RotateToFront?
  }

  predicate Cuts(c: Call) {
    c.CutPosition? || c.CutBefore?
  }

  lemma {:induction false} ReorderConserves(f: Family, c: Call)
    requires AllDistinct(f) && Applies(f, c) && Reorders(c)
    ensures Conserves(f, EffectOf(f, c))
  {
    var l := Entries(f, c.head);
    match c
    case BulkMoveTail(head, first, last) =>
      BulkNodes(l, first, last);
      ListConserves(f, head, Bulk(l, first, last));
    case RotateLeft(head) =>
      RotatedNodes(l);
      ListConserves(f, head, Rotated(l));
    case RotateToFront(list, head) =>
      FrontedNodes(l, list);
      ListConserves(f, head, Fronted(l, list));
  }

  lemma {:induction false} EffectConserves(f: Family, c: Call)
    requires AllDistinct(f) && Applies(f, c)
    ensures Conserves(f, EffectOf(f, c))
  {
    match c
    case Add(x, head) => AddConserves(f, x, head, [head, x]);
    case AddTail(x, head) => AddConserves(f, x, head, [x, head]);
    case DelInit(x) => DelConserves(f, x);
    case Move(x, head) => MoveConserves(f, x, head, [head, x]);
    case MoveTail(x, head) => MoveConserves(f, x, head, [x, head]);
    case ReplaceInit(o, n) => ReplaceConserves(f, o, n);
    case Swap(e1, e2) => SwapConserves(f, e1, e2);
    case SpliceInit(list, head) => SpliceConserves(f, list, head, [head] + Entries(f, list));
    case SpliceTailInit(list, head) => SpliceConserves(f, list, head, Entries(f, list) + [head]);
    case Del(x) => DelConserves(f, x);
    case CutPosition(list, head, entry) =>
      CutConserves(f, list, head, if entry == head then 0 else Pos(Entries(f, head), entry) + 1);
    case CutBefore(list, head, entry) =>
      CutConserves(f, list, head, if entry == head then |Entries(f, head)| else Pos(Entries(f, head), entry));
    case _ => ReorderConserves(f, c);
  }

  // ----- one call on the heap -----

  method DoAdd(x: ListHead, head: ListHead, tail: bool, ghost r: seq<ListHead>)
    requires Ring(r) && head in r && x !in r
    modifies Elems([x] + r)
    ensures Ring(Subst(r, head, if tail then [x, head] else [head, x]))
  {
    ghost var a, b := Halves(r, head, if tail then [x, head] else [head, x]);
    assert forall n :: n == x || n in Elems(r) ==> n in Elems([x] + r);
    if tail {
      ListAddTail(x, head, a, b);
    } else {
      ListAdd(x, head, a, b);
    }
  }

  method DoDelInit(x: ListHead, ghost r: seq<ListHead>)
    requires Ring(r) && x in r
    modifies Elems(r)
    ensures RingOrFree(Without(r, x)) && Ring([x])
  {
    ghost var a, b := Halves(r, x, []);
    ListDelInit(x, a, b);
  }

  /** The ring of `head` once `x` has left the ring q. */
  ghost function Target(x: ListHead, r: seq<ListHead>, q: seq<ListHead>): seq<ListHead>
    requires x in q
  {
    if r == q then Without(q, x) else r
  }

  /** MoveTarget, with the ring of `x` given whole. */
  ghost predicate MoveTargetIn(x: ListHead, q: seq<ListHead>, t: seq<ListHead>)
    requires x in q
    reads t
  {
    t == Without(q, x) || (Ring(t) && Apart(t, q))
  }

  lemma {:induction false} BeforeMove(x: ListHead, head: ListHead, r: seq<ListHead>, q: seq<ListHead>)
    requires Ring(q) && x in q && head in r && x != head && (r == q || (Ring(r) && Apart(r, q)))
    ensures var t := Target(x, r, q);
            && head in t && MoveTargetIn(x, q, t)
            && (r != q ==> t != Without(q, x))
            && Elems(t) <= Elems(r) + Elems(q)
  {
    SubstNodes(q, x, []);
    assert r != q ==> head !in Without(q, x);
  }

  method DoMove(x: ListHead, head: ListHead, ghost q: seq<ListHead>, ghost t: seq<ListHead>)
    requires Ring(q) && x in q && head in t && MoveTargetIn(x, q, t)
    modifies Elems(q), Elems(t)
    ensures Ring(Subst(t, head, [head, x]))
    ensures t != Without(q, x) ==> RingOrFree(Without(q, x))
  {
    ghost var qa, qb := Halves(q, x, []);
    ghost var ha, hb := Halves(t, head, [head, x]);
    ListMove(x, head, qa, qb, ha, hb);
  }

  method DoMoveTail(x: ListHead, head: ListHead, ghost q: seq<ListHead>, ghost t: seq<ListHead>)
    requires Ring(q) && x in q && head in t && MoveTargetIn(x, q, t)
    modifies Elems(q), Elems(t)
    ensures Ring(Subst(t, head, [x, head]))
    ensures t != Without(q, x) ==> RingOrFree(Without(q, x))
  {
    ghost var qa, qb := Halves(q, x, []);
    ghost var ha, hb := Halves(t, head, [x, head]);
    ListMoveTail(x, head, qa, qb, ha, hb);
  }

  /** Move within the ring r, or from the ring q to the ring r. */
  method MoveBetween(x: ListHead, head: ListHead, tail: bool, ghost r: seq<ListHead>, ghost q: seq<ListHead>)
    requires Ring(q) && x in q && head in r && x != head && (r == q || (Ring(r) && Apart(r, q)))
    modifies Elems(r), Elems(q)
    ensures Ring(Subst(Target(x, r, q), head, if tail then [x, head] else [head, x]))
    ensures r != q ==> RingOrFree(Without(q, x))
  {
    BeforeMove(x, head, r, q);
    if tail {
      DoMoveTail(x, head, q, Target(x, r, q));
    } else {
      DoMove(x, head, q, Target(x, r, q));
    }
  }

  method DoReplaceInit(o: ListHead, n: ListHead, ghost r: seq<ListHead>)
    requires Ring(r) && o in r && n !in r
    modifies Elems([n] + r)
    ensures Ring(Subst(r, o, [n])) && Ring([o])
  {
    ghost var a, b := Halves(r, o, [n]);
    assert forall m :: m == n || m in Elems(r) ==> m in Elems([n] + r);
    ListReplaceInit(o, n, a, b);
  }

  lemma {:induction false} SplitBehind(e1: ListHead, c: seq<ListHead>, e2: ListHead)
    requires e2 in c
    ensures var a, b := c[..Pos(c, e2)], c[Pos(c, e2) + 1..];
            && [e1] + c == [e1] + a + [e2] + b
            && [e2] + Subst(c, e2, [e1]) == [e2] + a + [e1] + b
  {
  }

  lemma {:induction false} TwoInRing(e1: ListHead, e2: ListHead, r: seq<ListHead>)
    returns (a: seq<ListHead>, b: seq<ListHead>)
    requires Ring(r) && e1 in r && e2 in r && e1 != e2
    ensures Ring([e1] + a + [e2] + b)
    ensures forall n :: n in [e1] + a + [e2] + b ==> n in r
    ensures [e2] + a + [e1] + b == [e2] + Subst(Around(r, e1), e2, [e1])
  {
    var c := Around(r, e1);
    AroundRing(r, e1);
    SplitBehind(e1, c, e2);
    a, b := c[..Pos(c, e2)], c[Pos(c, e2) + 1..];
    forall n | n in [e1] + c ensures n in r {
      AroundNodes(r, e1);
    }
  }

  lemma {:induction false} ViewWithin(e1: ListHead, e2: ListHead, r: seq<ListHead>) returns (w: SwapView)
    requires Ring(r) && e1 in r && e2 in r && e1 != e2
    ensures SwapFits(e1, e2, w) && SwapNodes(w) <= Elems(r)
    ensures w.ha + [w.p, e1] + w.hb == [e2] + Subst(Around(r, e1), e2, [e1])
  {
    var a, b := TwoInRing(e1, e2, r);
    OneListFits(e1, e2, a, b);
    w := OneListView(e1, e2, a, b);
  }

  lemma {:induction false} ViewAcross(e1: ListHead, e2: ListHead, r: seq<ListHead>, q: seq<ListHead>)
    returns (w: SwapView)
    requires Ring(r) && Ring(q) && e1 in r && e2 in q && Apart(r, q) && q != [e2]
    ensures SwapFits(e1, e2, w) && SwapNodes(w) <= Elems(r + q)
    ensures w.ha + [w.p] + w.hb != w.u + [e2] + w.v
    ensures w.u + [e2] + w.v == [e2] + Around(r, e1)
    ensures w.ha + [w.p, e1] + w.hb == Around(q, e2) + [e1]
  {
    var c, d := Around(r, e1), Around(q, e2);
    AroundNodes(r, e1);
    AroundRing(r, e1);
    AroundNodes(q, e2);
    AroundRing(q, e2);
    assert d == [] ==> q == [e2];
    w := AcrossView(e1, e2, c, d);
    AcrossFits(e1, e2, c, d);
  }

  /** Swap within the ring r, or between the rings r of `e1` and q of `e2`. */
  method DoSwap(e1: ListHead, e2: ListHead, ghost r: seq<ListHead>, ghost q: seq<ListHead>)
    requires Ring(r) && Ring(q) && e1 in r && e2 in q && e1 != e2
    requires r == q || (Apart(r, q) && q != [e2])
    modifies Elems(r + q)
    ensures r == q ==> Ring([e2] + Subst(Around(r, e1), e2, [e1]))
    ensures r != q ==> Ring([e2] + Around(r, e1)) && Ring([e1] + Around(q, e2))
  {
    ghost var w;
    if r == q {
      w := ViewWithin(e1, e2, r);
    } else {
      w := ViewAcross(e1, e2, r, q);
    }
    ListSwap(e1, e2, w);
    if r != q {
      Rotate(Around(q, e2), [e1]);
    }
  }

  /** The list of `list` seen from `list`, next to the ring r. */
  lemma {:induction false} SeenFrom(list: ListHead, q: seq<ListHead>, r: seq<ListHead>)
    requires Ring(q) && list in q && Apart(q, r)
    ensures Ring([list] + Around(q, list)) && Apart([list] + Around(q, list), r)
    ensures forall n :: n == list || n in Around(q, list) ==> n in Elems(q + r)
    ensures forall n :: n in Elems(r) ==> n in Elems(q + r)
  {
    AroundNodes(q, list);
    AroundRing(q, list);
  }

  method DoSpliceInit(list: ListHead, head: ListHead, ghost q: seq<ListHead>, ghost r: seq<ListHead>)
    requires Ring(q) && Ring(r) && list in q && head in r && Apart(q, r)
    modifies Elems(q + r)
    ensures Ring(Subst(r, head, [head] + Around(q, list))) && Ring([list])
  {
    ghost var l := Around(q, list);
    SeenFrom(list, q, r);
    ghost var a, b := Halves(r, head, [head] + l);
    ListSpliceInit(list, head, l, a, b);
    assert a + [head] + l + b == a + ([head] + l) + b;
  }

  method DoSpliceTailInit(list: ListHead, head: ListHead, ghost q: seq<ListHead>, ghost r: seq<ListHead>)
    requires Ring(q) && Ring(r) && list in q && head in r && Apart(q, r)
    modifies Elems(q + r)
    ensures Ring(Subst(r, head, Around(q, list) + [head])) && Ring([list])
  {
    ghost var l := Around(q, list);
    SeenFrom(list, q, r);
    ghost var a, b := Halves(r, head, l + [head]);
    ListSpliceTailInit(list, head, l, a, b);
    assert a + l + [head] + b == a + (l + [head]) + b;
  }

  method DoDel(x: ListHead, ghost r: seq<ListHead>)
    requires Ring(r) && x in r
    modifies Elems(r)
    ensures RingOrFree(Without(r, x)) && x.next == null && x.prev == null
  {
    ghost var a, b := Halves(r, x, []);
    ListDel(x, a, b);
  }

  lemma {:induction false} EntriesOf(head: ListHead, r: seq<ListHead>)
    requires Ring(r) && head in r
    ensures Ring([head] + Around(r, head))
    ensures forall n :: n == head || n in Around(r, head) <==> n in Elems(r)
  {
    AroundNodes(r, head);
    AroundRing(r, head);
  }

  method DoBulkMoveTail(head: ListHead, first: ListHead, last: ListHead, ghost r: seq<ListHead>,
                        ghost a: seq<ListHead>, ghost s: seq<ListHead>, ghost b: seq<ListHead>)
    requires Ring(r) && head in r && Around(r, head) == a + s + b
    requires s != [] && first == s[0] && last == s[|s| - 1]
    modifies Elems(r)
    ensures Ring([head] + (a + b + s))
  {
    EntriesOf(head, r);
    assert [head] + (a + s + b) == [head] + a + s + b;
    assert forall n :: n in a || n in s || n in b ==> n in Around(r, head);
    ListBulkMoveTail(head, first, last, a, s, b);
    assert [head] + a + b + s == [head] + (a + b + s);
  }

  method DoRotateLeft(head: ListHead, ghost r: seq<ListHead>)
    requires Ring(r) && head in r
    modifies Elems(r)
    ensures Ring([head] + Rotated(Around(r, head)))
  {
    EntriesOf(head, r);
    ListRotateLeft(head, Around(r, head));
  }

  method DoRotateToFront(list: ListHead, head: ListHead, ghost r: seq<ListHead>)
    requires Ring(r) && head in r && list in Around(r, head)
    modifies Elems(r)
    ensures Ring([head] + Fronted(Around(r, head), list))
  {
    EntriesOf(head, r);
    ghost var l := Around(r, head);
    ghost var a, b := FrontParts(l, list);
    assert [head] + (a + [list] + b) == [head] + a + [list] + b;
    assert forall n :: n == list || n in a || n in b ==> n in l;
    ListRotateToFront(list, head, a, b);
  }

  /** The two parts of a list before it is cut. */
  lemma {:induction false} PartsOf(list: ListHead, head: ListHead, r: seq<ListHead>, x: seq<ListHead>, y: seq<ListHead>)
    requires Ring(r) && head in r && list !in r && x + y == Around(r, head)
    ensures Ring([head] + x + y) && list !in [head] + x + y
    ensures forall n :: n == list || n == head || n in x || n in y ==> n in Elems([list] + r)
  {
    EntriesOf(head, r);
    assert [head] + (x + y) == [head] + x + y;
    assert forall n :: n in x || n in y ==> n in x + y;
  }

  /** Nothing is written to `list` if there is nothing to cut. */
  method DoCutPosition(list: ListHead, head: ListHead, entry: ListHead, ghost r: seq<ListHead>,
                       ghost x: seq<ListHead>, ghost y: seq<ListHead>)
    requires Ring(r) && head in r && list !in r && x + y == Around(r, head)
    requires entry == ([head] + x)[|x|]
    modifies Elems([list] + r)
    ensures Ring([head] + y)
    ensures x + y != [] ==> Ring([list] + x)
    ensures x + y == [] ==> list.next == old(list.next) && list.prev == old(list.prev)
  {
    PartsOf(list, head, r, x, y);
    assert entry in [head] + x + y;
    assert x + y == [] ==> [head] + x + y == [head] + y;
    ListCutPosition(list, head, entry, x, y);
  }

  method DoCutBefore(list: ListHead, head: ListHead, entry: ListHead, ghost r: seq<ListHead>,
                     ghost x: seq<ListHead>, ghost y: seq<ListHead>)
    requires Ring(r) && head in r && list !in r && x + y == Around(r, head)
    requires entry == if y == [] then head else y[0]
    modifies Elems([list] + r)
    ensures Ring([head] + y) && Ring([list] + x)
  {
    PartsOf(list, head, r, x, y);
    ListCutBefore(list, head, entry, x, y);
  }

  // ----- any call, any run -----

  /** The nodes of the rings a call names. */
  ghost function Touched(f: Family, c: Call): set<ListHead>
    requires Applies(f, c)
  {
    Elems(Slot(f, EffectOf(f, c).i)) + Elems(Slot(f, EffectOf(f, c).j))
  }

  lemma {:induction false} ValidIsDistinct(f: Family, off: set<ListHead>)
    requires Valid(f, off)
    ensures AllDistinct(f)
  {
  }

  /** A node that is not off is on a ring. */
  lemma {:induction false} OnRing(f: Family, off: set<ListHead>, x: ListHead)
    requires Valid(f, off) && x in Nodes(f) && x !in off
    ensures Ring(f[Home(f, x)])
  {
  }

  method PerformReorder(c: Call, ghost f: Family, ghost off: set<ListHead>)
    requires Valid(f, off) && Legal(f, off, c) && Reorders(c)
    modifies Touched(f, c)
    ensures Ring(EffectOf(f, c).p) && EffectOf(f, c).q == []
  {
    OnRing(f, off, c.head);
    match c
    case BulkMoveTail(head, first, last) =>
      ghost var a, s, b := BulkParts(Entries(f, head), first, last);
      DoBulkMoveTail(head, first, last, f[Home(f, head)], a, s, b);
    case RotateLeft(head) => DoRotateLeft(head, f[Home(f, head)]);
    case RotateToFront(list, head) => DoRotateToFront(list, head, f[Home(f, head)]);
  }

  /** A call that cuts works on the ring of `head` and a node outside it. */
  lemma {:induction false} CutTouches(f: Family, off: set<ListHead>, c: Call)
    requires Valid(f, off) && Legal(f, off, c) && Cuts(c)
    ensures var r := f[Home(f, c.head)];
            Ring(r) && c.list !in r && Elems([c.list] + r) <= Touched(f, c)
  {
    OnRing(f, off, c.head);
    assert c.list in f[Home(f, c.list)] && Apart(f[Home(f, c.list)], f[Home(f, c.head)]);
  }

  method PerformCutPosition(list: ListHead, head: ListHead, entry: ListHead, ghost f: Family, ghost off: set<ListHead>)
    requires Valid(f, off) && Legal(f, off, CutPosition(list, head, entry))
    modifies Touched(f, CutPosition(list, head, entry))
    ensures var c := CutPosition(list, head, entry);
            RingOrFree(EffectOf(f, c).p) && Fits(EffectOf(f, c).q, OffAfter(f, off, c))
  {
    CutTouches(f, off, CutPosition(list, head, entry));
    ghost var l := Entries(f, head);
    ghost var k := if entry == head then 0 else Pos(l, entry) + 1;
    assert l[..k] + l[k..] == l;
    assert f[Home(f, list)] == [list];
    DoCutPosition(list, head, entry, f[Home(f, head)], l[..k], l[k..]);
    assert l == [] ==> [list] + l[..k] == [list];
  }

  method PerformCutBefore(list: ListHead, head: ListHead, entry: ListHead, ghost f: Family, ghost off: set<ListHead>)
    requires Valid(f, off) && Legal(f, off, CutBefore(list, head, entry))
    modifies Touched(f, CutBefore(list, head, entry))
    ensures var e := EffectOf(f, CutBefore(list, head, entry)); RingOrFree(e.p) && RingOrFree(e.q)
  {
    CutTouches(f, off, CutBefore(list, head, entry));
    ghost var l := Entries(f, head);
    ghost var k := if entry == head then |l| else Pos(l, entry);
    assert l[..k] + l[k..] == l;
    DoCutBefore(list, head, entry, f[Home(f, head)], l[..k], l[k..]);
  }

  /** The calls that link or unlink one node. */
  predicate LinksOne(c: Call) {
    c.Add? || c.AddTail? || c.DelInit? || c.ReplaceInit?
  }

  method PerformLink(c: Call, ghost f: Family, ghost off: set<ListHead>)
    requires Valid(f, off) && Legal(f, off, c) && LinksOne(c)
    requires Conserves(f, EffectOf(f, c))
    modifies Touched(f, c)
    ensures RingOrFree(EffectOf(f, c).p) && RingOrFree(EffectOf(f, c).q)
  {
    match c
    case Add(x, head) => DoAdd(x, head, false, f[Home(f, head)]);
    case AddTail(x, head) => DoAdd(x, head, true, f[Home(f, head)]);
    case DelInit(x) => DoDelInit(x, f[Home(f, x)]);
    case ReplaceInit(o, n) => DoReplaceInit(o, n, f[Home(f, o)]);
  }

  /** The calls that work on one or two rings. */
  method PerformBetween(c: Call, ghost f: Family, ghost off: set<ListHead>)
    requires Valid(f, off) && Legal(f, off, c) && !Reorders(c) && !Cuts(c) && !LinksOne(c) && !c.Del?
    modifies Touched(f, c)
    ensures RingOrFree(EffectOf(f, c).p) && RingOrFree(EffectOf(f, c).q)
  {
    match c
    case Move(x, head) => MoveBetween(x, head, false, f[Home(f, head)], f[Home(f, x)]);
    case MoveTail(x, head) => MoveBetween(x, head, true, f[Home(f, head)], f[Home(f, x)]);
    case Swap(e1, e2) => DoSwap(e1, e2, f[Home(f, e1)], f[Home(f, e2)]);
    case SpliceInit(list, head) => DoSpliceInit(list, head, f[Home(f, list)], f[Home(f, head)]);
    case SpliceTailInit(list, head) => DoSpliceTailInit(list, head, f[Home(f, list)], f[Home(f, head)]);
  }

  /** Run one call. The two slots of its effect hold what it describes; nothing
      outside those two slots is written. */
  method Perform(c: Call, ghost f: Family, ghost off: set<ListHead>)
    requires Valid(f, off) && Legal(f, off, c) && Conserves(f, EffectOf(f, c))
    modifies Touched(f, c)
    ensures Fits(EffectOf(f, c).p, OffAfter(f, off, c)) && Fits(EffectOf(f, c).q, OffAfter(f, off, c))
    ensures c.Del? ==> c.x.next == null && c.x.prev == null
  {
    if Reorders(c) {
      PerformReorder(c, f, off);
    } else if c.CutPosition? {
      PerformCutPosition(c.list, c.head, c.entry, f, off);
    } else if c.CutBefore? {
      PerformCutBefore(c.list, c.head, c.entry, f, off);
    } else if c.Del? {
      OnRing(f, off, c.x);
      DoDel(c.x, f[Home(f, c.x)]);
    } else if LinksOne(c) {
      PerformLink(c, f, off);
    } else {
      PerformBetween(c, f, off);
    }
  }

  /** A slot that is not touched shares no node with the two that are. */
  lemma {:induction false} OtherSlot(f: Family, e: Effect, k: nat)
    requires Disjoint(f) && Conserves(f, e)
    ensures k < |f| && k != e.i && k != e.j ==>
              && Apart(f[k], e.p) && Apart(e.p, f[k]) && Apart(f[k], e.q) && Apart(e.q, f[k])
              && Apart(f[k], Slot(f, e.i)) && Apart(f[k], Slot(f, e.j))
  {
    if k < |f| && k != e.i && k != e.j {
      assert Apart(f[k], f[e.i]) && Apart(f[e.i], f[k]);
      assert e.j < |f| ==> Apart(f[k], f[e.j]) && Apart(f[e.j], f[k]);
    }
  }

  lemma {:induction false} DisjointAfter(f: Family, e: Effect)
    requires Disjoint(f) && Conserves(f, e)
    ensures Disjoint(Update(f, e))
  {
    var g := Update(f, e);
    assert g[e.i] == e.p && g[e.j] == e.q;
    forall k, m | 0 <= k < |g| && 0 <= m < |g| && k != m ensures Apart(g[k], g[m]) {
      OtherSlot(f, e, k);
      OtherSlot(f, e, m);
    }
  }

  lemma {:induction false} NodesAfter(f: Family, e: Effect)
    requires Conserves(f, e)
    ensures Nodes(Update(f, e)) == Nodes(f)
    ensures Elems(Slot(f, e.i)) + Elems(Slot(f, e.j)) <= Nodes(f)
  {
    var g := Update(f, e);
    assert g[e.i] == e.p && g[e.j] == e.q;
    forall n | n in Nodes(f) ensures n in Nodes(g) {
      var k :| 0 <= k < |f| && n in f[k];
      assert n in g[k] || n in g[e.i] || n in g[e.j];
    }
    forall n | n in Nodes(g) ensures n in Nodes(f) {
      var k :| 0 <= k < |g| && n in g[k];
      assert (k < |f| && n in f[k]) || n in Slot(f, e.i) || n in Slot(f, e.j);
    }
  }

  /** A node that a call takes off the nodes that are off is in a slot it touches. */
  lemma {:induction false} OffElsewhere(f: Family, off: set<ListHead>, c: Call, k: nat)
    requires Disjoint(f) && Legal(f, off, c) && Conserves(f, EffectOf(f, c))
    requires k < |f| && k != EffectOf(f, c).i && k != EffectOf(f, c).j
    ensures |f[k]| == 1 && f[k][0] in off ==> f[k][0] in OffAfter(f, off, c)
  {
    OtherSlot(f, EffectOf(f, c), k);
    if |f[k]| == 1 && f[k][0] in off {
      assert f[k][0] in f[k];
    }
  }

  /** Perform, and what it leaves alone. */
  method PerformAmong(c: Call, ghost f: Family, ghost off: set<ListHead>)
    requires Valid(f, off) && Legal(f, off, c) && Conserves(f, EffectOf(f, c))
    modifies Touched(f, c)
    ensures Fits(EffectOf(f, c).p, OffAfter(f, off, c)) && Fits(EffectOf(f, c).q, OffAfter(f, off, c))
    ensures forall k :: 0 <= k < |f| && k != EffectOf(f, c).i && k != EffectOf(f, c).j ==>
              Fits(f[k], OffAfter(f, off, c))
    ensures c.Del? ==> c.x.next == null && c.x.prev == null
  {
    ghost var e := EffectOf(f, c);
    forall k | 0 <= k < |f| && k != e.i && k != e.j
      ensures Apart(f[k], Slot(f, e.i)) && Apart(f[k], Slot(f, e.j))
      ensures |f[k]| == 1 && f[k][0] in off ==> f[k][0] in OffAfter(f, off, c)
    {
      OtherSlot(f, e, k);
      OffElsewhere(f, off, c, k);
    }
    Perform(c, f, off);
    forall k | 0 <= k < |f| && k != e.i && k != e.j ensures Fits(f[k], OffAfter(f, off, c)) {
      if old(Ring(f[k])) {
        RingStays(f[k]);
      }
    }
  }

  lemma {:induction false} ValidAfter(f: Family, e: Effect, off: set<ListHead>)
    requires Disjoint(f) && Conserves(f, e) && Fits(e.p, off) && Fits(e.q, off)
    requires forall k :: 0 <= k < |f| && k != e.i && k != e.j ==> Fits(f[k], off)
    ensures Valid(Update(f, e), off)
  {
    DisjointAfter(f, e);
  }

  /** Every legal call on a family of disjoint rings gives the family its
      abstract meaning describes, and leaves the links of all other rings as
      they were. */
  method Execute(c: Call, ghost f: Family, ghost off: set<ListHead>)
    requires Valid(f, off) && Legal(f, off, c)
    modifies Nodes(f)
    ensures Valid(Apply(f, c), OffAfter(f, off, c)) && Nodes(Apply(f, c)) == Nodes(f)
    ensures forall n :: n in Nodes(f) && n !in Touched(f, c) ==> n.next == old(n.next) && n.prev == old(n.prev)
    ensures c.Del? ==> c.x.next == null && c.x.prev == null
  {
    ValidIsDistinct(f, off);
    EffectConserves(f, c);
    NodesAfter(f, EffectOf(f, c));
    PerformAmong(c, f, off);
    ValidAfter(f, EffectOf(f, c), OffAfter(f, off, c));
  }

  ghost predicate LegalRun(f: Family, off: set<ListHead>, calls: seq<Call>)
    decreases |calls|
  {
    calls == [] || (Legal(f, off, calls[0]) && LegalRun(Apply(f, calls[0]), OffAfter(f, off, calls[0]), calls[1..]))
  }

  /** The family, and the nodes off, after a run. */
  ghost function ApplyAll(f: Family, off: set<ListHead>, calls: seq<Call>): (Family, set<ListHead>)
    requires LegalRun(f, off, calls)
    decreases |calls|
  {
    if calls == [] then (f, off) else ApplyAll(Apply(f, calls[0]), OffAfter(f, off, calls[0]), calls[1..])
  }

  /** A run is its calls one after the other. */
  lemma {:induction false} RunInSteps(f: Family, off: set<ListHead>, calls: seq<Call>, c: Call)
    ensures LegalRun(f, off, []) && ApplyAll(f, off, []) == (f, off)
    ensures LegalRun(f, off, calls + [c]) <==>
            LegalRun(f, off, calls) && var (g, off') := ApplyAll(f, off, calls); Legal(g, off', c)
    ensures LegalRun(f, off, calls + [c]) ==>
              var (g, off') := ApplyAll(f, off, calls);
              ApplyAll(f, off, calls + [c]) == (Apply(g, c), OffAfter(g, off', c))
    decreases |calls|
  {
    if calls == [] {
      assert [] + [c] == [c] && [c][1..] == [];
    } else {
      assert (calls + [c])[1..] == calls[1..] + [c];
      if Legal(f, off, calls[0]) {
        RunInSteps(Apply(f, calls[0]), OffAfter(f, off, calls[0]), calls[1..], c);
      }
    }
  }

  /** Any run of legal calls over any number of lists. */
  method ExecuteAll(calls: seq<Call>, ghost f: Family, ghost off: set<ListHead>)
    requires Valid(f, off) && LegalRun(f, off, calls)
    modifies Nodes(f)
    ensures var (g, off') := ApplyAll(f, off, calls); Valid(g, off') && Nodes(g) == Nodes(f)
  {
    ghost var now, still, rest := f, off, calls;
    for i := 0 to |calls|
      invariant rest == calls[i..] && LegalRun(now, still, rest)
      invariant ApplyAll(now, still, rest) == ApplyAll(f, off, calls)
      invariant Nodes(now) == Nodes(f) && Valid(now, still)
    {
      Execute(calls[i], now, still);
      now, still, rest := Apply(now, calls[i]), OffAfter(now, still, calls[i]), rest[1..];
    }
  }
}
