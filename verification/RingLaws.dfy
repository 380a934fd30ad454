/** What each call of a script does to the lists of a family, read from the heads
    of the lists. `Entries(f, h)` are the nodes behind `h` in order, around to the
    one in front of it. */
module RingLaws {
  import opened Sequences
  import opened Rings
  import opened ListSurgery
  import opened RingFamily

  // ----- lists seen from any of their nodes -----

  lemma {:induction false} AroundIs(r: seq<ListHead>, a: seq<ListHead>, h: ListHead, b: seq<ListHead>)
    requires Distinct(r) && r == a + [h] + b
    ensures h in r && Around(r, h) == b + a
  {
    assert r[|a|] == h;
    var k := Pos(r, h);
    assert r[..k] + [h] + r[k + 1..] == r;
    SplitIsUnique(a, h, b, r[..k], r[k + 1..]);
  }

  /** Nodes put around the head `h`, seen from it. */
  lemma {:induction false} SubstHead(r: seq<ListHead>, h: ListHead, u: seq<ListHead>, v: seq<ListHead>)
    requires Distinct(r) && h in r && Distinct(Subst(r, h, u + [h] + v))
    ensures h in Subst(r, h, u + [h] + v) && Around(Subst(r, h, u + [h] + v), h) == v + Around(r, h) + u
  {
    var m := u + [h] + v;
    var a, b := Halves(r, h, m);
    AroundIs(r, a, h, b);
    assert a + m + b == (a + u) + [h] + (v + b);
    AroundIs(Subst(r, h, m), a + u, h, v + b);
    assert v + b + (a + u) == v + (b + a) + u;
  }

  lemma {:induction false} Regroup(s: seq<ListHead>, m: seq<ListHead>, t: seq<ListHead>, h: ListHead, q: seq<ListHead>)
    ensures s + m + (t + [h] + q) == (s + m + t) + [h] + q
    ensures q + (s + m + t) == (q + s) + m + t
    ensures q + [h] + s + m + t == q + [h] + (s + m + t)
    ensures s + m + t + q == s + m + (t + q)
  {
  }

  /** Nodes put in the place of `x`, seen from a node in front of it. */
  lemma {:induction false} SeenFromFront(r: seq<ListHead>, p: seq<ListHead>, h: ListHead, s: seq<ListHead>, x: ListHead,
                                         t: seq<ListHead>, m: seq<ListHead>)
    requires Distinct(r) && r == p + [h] + s + [x] + t && x in r && Distinct(Subst(r, x, m))
    ensures h in r && Around(r, h) == s + [x] + (t + p)
    ensures h in Subst(r, x, m) && Around(Subst(r, x, m), h) == s + m + (t + p)
  {
    Regroup(s, [x], t, h, p);
    AroundIs(r, p, h, s + [x] + t);
    SubstIs(r, p + [h] + s, x, t, m);
    Regroup(s, m, t, h, p);
    AroundIs(Subst(r, x, m), p, h, s + m + t);
  }

  /** The same from a node behind it. */
  lemma {:induction false} SeenFromBehind(r: seq<ListHead>, s: seq<ListHead>, x: ListHead, t: seq<ListHead>,
                                          h: ListHead,
                                          q: seq<ListHead>, m: seq<ListHead>)
    requires Distinct(r) && r == s + [x] + t + [h] + q && x in r && Distinct(Subst(r, x, m))
    ensures h in r && Around(r, h) == (q + s) + [x] + t
    ensures h in Subst(r, x, m) && Around(Subst(r, x, m), h) == (q + s) + m + t
  {
    Regroup(s, [x], t, h, q);
    AroundIs(r, s + [x] + t, h, q);
    SubstIs(r, s, x, t + [h] + q, m);
    Regroup(s, m, t, h, q);
    AroundIs(Subst(r, x, m), s + m + t, h, q);
  }

  /** Either way, only the place of `x` in the list seen changes. */
  lemma {:induction false} SubstSeen(r: seq<ListHead>, x: ListHead, m: seq<ListHead>, h: ListHead,
                                     a: seq<ListHead>, b: seq<ListHead>)
    requires Distinct(r) && x in r && h in r && h != x && Distinct(Subst(r, x, m))
    requires Around(r, h) == a + [x] + b
    ensures h in Subst(r, x, m) && Around(Subst(r, x, m), h) == a + m + b
  {
    AroundNodes(r, h);
    DistinctParts([h], Around(r, h));
    var p, q := Halves(r, h, []);
    assert x in p || x in q by {
      assert x in p + [h] + q;
    }
    if x in q {
      var s, t := Halves(q, x, m);
      assert r == p + [h] + s + [x] + t;
      SeenFromFront(r, p, h, s, x, t, m);
      SplitIsUnique(a, x, b, s, t + p);
    } else {
      var s, t := Halves(p, x, m);
      SeenFromBehind(r, s, x, t, h, q, m);
      SplitIsUnique(a, x, b, q + s, t);
    }
  }

  // ----- a family after a call -----

  lemma {:induction false} OnlyHome(f: Family, h: ListHead, i: nat)
    requires Disjoint(f) && i < |f| && h in Nodes(f)
    ensures h in f[i] <==> i == Home(f, h)
  {
    if i != Home(f, h) {
      assert Apart(f[Home(f, h)], f[i]);
    }
  }

  lemma {:induction false} HomeIs(f: Family, i: nat, h: ListHead)
    requires Disjoint(f) && i < |f| && h in f[i]
    ensures h in Nodes(f) && Home(f, h) == i
  {
    OnlyHome(f, h, i);
  }

  /** A node on no list is not on the list of another. */
  lemma {:induction false} LoneElsewhere(f: Family, x: ListHead, h: ListHead)
    requires Disjoint(f) && Lone(f, x) && h in Nodes(f) && h != x
    ensures Home(f, x) != Home(f, h) && x !in f[Home(f, h)]
  {
    assert h in f[Home(f, h)];
    OnlyHome(f, x, Home(f, h));
  }

  /** On the heap, the nodes behind `h` are what following the links finds. */
  lemma {:induction false} EntriesAreLinked(f: Family, off: set<ListHead>, h: ListHead)
    requires Valid(f, off) && h in Nodes(f) && h !in off
    ensures Ring([h] + Entries(f, h))
  {
    OnRing(f, off, h);
    AroundRing(f[Home(f, h)], h);
  }

  lemma {:induction false} AfterEffect(f: Family, e: Effect, h: ListHead)
    requires AllDistinct(f) && Conserves(f, e)
    ensures h in e.p ==> h in Nodes(Update(f, e)) && Entries(Update(f, e), h) == Around(e.p, h)
    ensures h in e.q ==> h in Nodes(Update(f, e)) && Entries(Update(f, e), h) == Around(e.q, h)
    ensures h in Nodes(f) && Home(f, h) != e.i && Home(f, h) != e.j ==>
              h in Nodes(Update(f, e)) && Entries(Update(f, e), h) == Entries(f, h)
  {
    var g := Update(f, e);
    DisjointAfter(f, e);
    assert g[e.i] == e.p && g[e.j] == e.q && |g| == |f| + 1;
    if h in e.p {
      HomeIs(g, e.i, h);
    }
    if h in e.q {
      HomeIs(g, e.j, h);
    }
    if h in Nodes(f) && Home(f, h) != e.i && Home(f, h) != e.j {
      assert g[Home(f, h)] == f[Home(f, h)];
      HomeIs(g, Home(f, h), h);
    }
  }

  /** The nodes a call names. */
  function Named(c: Call): set<ListHead> {
    match c
    case Add(x, head) => {x, head}
    case AddTail(x, head) => {x, head}
    case DelInit(x) => {x}
    case Move(x, head) => {x, head}
    case MoveTail(x, head) => {x, head}
    case ReplaceInit(o, n) => {o, n}
    case Swap(e1, e2) => {e1, e2}
    case SpliceInit(list, head) => {list, head}
    case SpliceTailInit(list, head) => {list, head}
    case Del(x) => {x}
    case BulkMoveTail(head, _, _) => {head}
    case RotateLeft(head) => {head}
    case RotateToFront(_, head) => {head}
    case CutPosition(list, head, _) => {list, head}
    case CutBefore(list, head, _) => {list, head}
  }

  /** A list none of whose nodes a call names stays as it is. */
  lemma {:induction false} OtherListsStay(f: Family, c: Call, h: ListHead)
    requires AllDistinct(f) && Applies(f, c) && h in Nodes(f)
    requires forall n :: n in Named(c) && n in Nodes(f) ==> Home(f, n) != Home(f, h)
    ensures h in Nodes(Apply(f, c)) && Entries(Apply(f, c), h) == Entries(f, h)
  {
    EffectConserves(f, c);
    AfterEffect(f, EffectOf(f, c), h);
  }

  /** A call that applies is legal when the nodes it names are on rings; the node
      to add or to put in, and the one to receive a cut part, need not be. */
  lemma {:induction false} LegalOnRings(f: Family, off: set<ListHead>, c: Call)
    requires Applies(f, c)
    ensures Named(c) !! off ==> Legal(f, off, c)
    ensures (c.Add? || c.AddTail? || c.CutPosition? || c.CutBefore?) && c.head !in off ==> Legal(f, off, c)
    ensures c.ReplaceInit? && c.o !in off ==> Legal(f, off, c)
  {
  }

  /** Which nodes are off the rings after a call: one just deleted is, one just
      linked is not, others are if they were. Only a cut of an empty list leaves
      the node that was to receive the part as it was. */
  lemma {:induction false} OffNodes(f: Family, off: set<ListHead>, c: Call, n: ListHead)
    requires Legal(f, off, c)
    ensures c == Del(n) ==> n in OffAfter(f, off, c)
    ensures n !in Named(c) ==> (n in OffAfter(f, off, c) <==> n in off)
    ensures n in Named(c) && n in OffAfter(f, off, c) ==>
              c == Del(n) || (n in off && c.CutPosition? && n == c.list && Entries(f, c.head) == [])
  {
  }

  // ----- adding -----

  lemma {:induction false} SubstBehind(r: seq<ListHead>, h: ListHead, v: seq<ListHead>)
    requires Distinct(r) && h in r && Distinct(v) && Apart(v, r)
    ensures h in Subst(r, h, [h] + v) && Around(Subst(r, h, [h] + v), h) == v + Around(r, h)
  {
    DistinctJoin([h], v);
    DistinctSubst(r, h, [h] + v);
    assert [] + [h] + v == [h] + v;
    SubstHead(r, h, [], v);
    assert v + Around(r, h) + [] == v + Around(r, h);
  }

  lemma {:induction false} SubstBefore(r: seq<ListHead>, h: ListHead, u: seq<ListHead>)
    requires Distinct(r) && h in r && Distinct(u) && Apart(u, r)
    ensures h in Subst(r, h, u + [h]) && Around(Subst(r, h, u + [h]), h) == Around(r, h) + u
  {
    DistinctJoin(u, [h]);
    DistinctSubst(r, h, u + [h]);
    assert u + [h] + [] == u + [h];
    SubstHead(r, h, u, []);
    assert [] + Around(r, h) + u == Around(r, h) + u;
  }

  /** list_add(): the new entry is the first. */
  lemma {:induction false} AfterAdd(f: Family, x: ListHead, head: ListHead)
    requires AllDistinct(f) && Lone(f, x) && head in Nodes(f) && head != x
    ensures Applies(f, Add(x, head))
    ensures head in Nodes(Apply(f, Add(x, head)))
    ensures Entries(Apply(f, Add(x, head)), head) == [x] + Entries(f, head)
  {
    EffectConserves(f, Add(x, head));
    AfterEffect(f, EffectOf(f, Add(x, head)), head);
    LoneElsewhere(f, x, head);
    assert [head] + [x] == [head, x];
    SubstBehind(f[Home(f, head)], head, [x]);
  }

  /** list_add_tail(): the new entry is the last. */
  lemma {:induction false} AfterAddTail(f: Family, x: ListHead, head: ListHead)
    requires AllDistinct(f) && Lone(f, x) && head in Nodes(f) && head != x
    ensures Applies(f, AddTail(x, head))
    ensures head in Nodes(Apply(f, AddTail(x, head)))
    ensures Entries(Apply(f, AddTail(x, head)), head) == Entries(f, head) + [x]
  {
    EffectConserves(f, AddTail(x, head));
    AfterEffect(f, EffectOf(f, AddTail(x, head)), head);
    LoneElsewhere(f, x, head);
    assert [x] + [head] == [x, head];
    SubstBefore(f[Home(f, head)], head, [x]);
  }

  // ----- deleting and replacing -----

  lemma {:induction false} EmptyMiddle(a: seq<ListHead>, b: seq<ListHead>)
    ensures a + [] + b == a + b
  {
  }

  lemma {:induction false} WithoutSeen(r: seq<ListHead>, x: ListHead, h: ListHead, a: seq<ListHead>, b: seq<ListHead>)
    requires Distinct(r) && x in r && h in r && h != x && Around(r, h) == a + [x] + b
    ensures h in Without(r, x) && Around(Without(r, x), h) == a + b && Distinct(Without(r, x))
  {
    SubstNodes(r, x, []);
    EmptyMiddle(a, b);
    SubstSeen(r, x, [], h, a, b);
  }

  lemma {:induction false} AroundAlone(x: ListHead)
    ensures Around([x], x) == []
  {
    AroundIs([x], [], x, []);
  }

  /** An entry is in the ring of its head, and is not the head. */
  lemma {:induction false} EntryIn(f: Family, h: ListHead, x: ListHead, a: seq<ListHead>, b: seq<ListHead>)
    requires AllDistinct(f) && h in Nodes(f) && Entries(f, h) == a + [x] + b
    ensures x in Entries(f, h) && x != h && x in f[Home(f, h)] && x in Nodes(f) && Home(f, x) == Home(f, h)
    ensures x !in a + b
  {
    assert (a + [x] + b)[|a|] == x;
    AroundNodes(f[Home(f, h)], h);
    HomeIs(f, Home(f, h), x);
    DistinctParts([h], Entries(f, h));
    SubstIs(Entries(f, h), a, x, b, []);
    SubstNodes(Entries(f, h), x, []);
  }

  /** list_del() and list_del_init(): the entry is gone, the others stay in order. */
  lemma {:induction false} AfterDel(f: Family, x: ListHead, h: ListHead, a: seq<ListHead>, b: seq<ListHead>)
    requires AllDistinct(f) && h in Nodes(f) && Entries(f, h) == a + [x] + b
    ensures Applies(f, Del(x)) && Applies(f, DelInit(x))
    ensures var g := Apply(f, Del(x)); h in Nodes(g) && Entries(g, h) == a + b && x in Nodes(g) && Entries(g, x) == []
    ensures var g := Apply(f, DelInit(x));
            h in Nodes(g) && Entries(g, h) == a + b && x in Nodes(g) && Entries(g, x) == []
  {
    var i := Home(f, h);
    EntryIn(f, h, x, a, b);
    EffectConserves(f, Del(x));
    WithoutSeen(f[i], x, h, a, b);
    AfterEffect(f, EffectOf(f, Del(x)), h);
    AfterEffect(f, EffectOf(f, Del(x)), x);
    AroundAlone(x);
    assert EffectOf(f, DelInit(x)) == EffectOf(f, Del(x));
  }

  /** list_replace_init(): seen from another node of the ring, the new entry is
      where the old one was; a head is replaced the same way. */
  lemma {:induction false} AfterReplaceInit(f: Family, o: ListHead, n: ListHead, h: ListHead,
                                            a: seq<ListHead>, b: seq<ListHead>)
    requires AllDistinct(f) && o in Nodes(f) && Lone(f, n) && n != o
    ensures Applies(f, ReplaceInit(o, n))
    ensures var g := Apply(f, ReplaceInit(o, n));
            n in Nodes(g) && Entries(g, n) == Entries(f, o) && o in Nodes(g) && Entries(g, o) == []
    ensures h in Nodes(f) && h != n && Entries(f, h) == a + [o] + b ==>
              var g := Apply(f, ReplaceInit(o, n)); h in Nodes(g) && Entries(g, h) == a + [n] + b
  {
    var r, c := f[Home(f, o)], ReplaceInit(o, n);
    EffectConserves(f, c);
    LoneElsewhere(f, n, o);
    DistinctSubst(r, o, [n]);
    var p, q := Halves(r, o, [n]);
    AroundIs(r, p, o, q);
    AroundIs(Subst(r, o, [n]), p, n, q);
    AroundAlone(o);
    AfterEffect(f, EffectOf(f, c), n);
    AfterEffect(f, EffectOf(f, c), o);
    if h in Nodes(f) && h != n && Entries(f, h) == a + [o] + b {
      EntryIn(f, h, o, a, b);
      SubstSeen(r, o, [n], h, a, b);
      AfterEffect(f, EffectOf(f, c), h);
    }
  }

  // ----- moving -----

  lemma {:induction false} LeaveRing(f: Family, x: ListHead, head: ListHead, a: seq<ListHead>, b: seq<ListHead>)
    requires AllDistinct(f) && head in Nodes(f) && Entries(f, head) == a + [x] + b
    ensures x in Nodes(f) && x != head && Home(f, x) == Home(f, head) && x in f[Home(f, head)]
    ensures var t := Without(f[Home(f, head)], x);
            Distinct(t) && head in t && Around(t, head) == a + b && Apart([x], t)
  {
    EntryIn(f, head, x, a, b);
    WithoutSeen(f[Home(f, head)], x, head, a, b);
    SubstNodes(f[Home(f, head)], x, []);
  }

  /** list_move() within a list: the entry becomes the first. */
  lemma {:induction false} AfterMoveWithin(f: Family, x: ListHead, head: ListHead, a: seq<ListHead>, b: seq<ListHead>)
    requires AllDistinct(f) && head in Nodes(f) && Entries(f, head) == a + [x] + b
    ensures Applies(f, Move(x, head))
    ensures var g := Apply(f, Move(x, head)); head in Nodes(g) && Entries(g, head) == [x] + (a + b)
  {
    LeaveRing(f, x, head, a, b);
    EffectConserves(f, Move(x, head));
    AfterEffect(f, EffectOf(f, Move(x, head)), head);
    assert [head] + [x] == [head, x];
    SubstBehind(Without(f[Home(f, head)], x), head, [x]);
  }

  /** list_move_tail() within a list: the entry becomes the last. */
  lemma {:induction false} AfterMoveTailWithin(f: Family, x: ListHead, head: ListHead, a: seq<ListHead>,
                                               b: seq<ListHead>)
    requires AllDistinct(f) && head in Nodes(f) && Entries(f, head) == a + [x] + b
    ensures Applies(f, MoveTail(x, head))
    ensures var g := Apply(f, MoveTail(x, head)); head in Nodes(g) && Entries(g, head) == a + b + [x]
  {
    LeaveRing(f, x, head, a, b);
    EffectConserves(f, MoveTail(x, head));
    AfterEffect(f, EffectOf(f, MoveTail(x, head)), head);
    assert [x] + [head] == [x, head];
    SubstBefore(Without(f[Home(f, head)], x), head, [x]);
  }

  lemma {:induction false} NotInOther(f: Family, x: ListHead, h: ListHead)
    requires Disjoint(f) && x in Nodes(f) && h in Nodes(f) && Home(f, x) != Home(f, h)
    ensures x !in f[Home(f, h)]
  {
    OnlyHome(f, x, Home(f, h));
  }

  /** list_move() and list_move_tail() to another list: the entry becomes the first
      or the last there. */
  lemma {:induction false} AfterMoveTo(f: Family, x: ListHead, head: ListHead)
    requires AllDistinct(f) && x in Nodes(f) && head in Nodes(f) && Home(f, x) != Home(f, head)
    ensures Applies(f, Move(x, head)) && Applies(f, MoveTail(x, head))
    ensures var g := Apply(f, Move(x, head)); head in Nodes(g) && Entries(g, head) == [x] + Entries(f, head)
    ensures var g := Apply(f, MoveTail(x, head)); head in Nodes(g) && Entries(g, head) == Entries(f, head) + [x]
  {
    var r := f[Home(f, head)];
    NotInOther(f, x, head);
    EffectConserves(f, Move(x, head));
    EffectConserves(f, MoveTail(x, head));
    AfterEffect(f, EffectOf(f, Move(x, head)), head);
    AfterEffect(f, EffectOf(f, MoveTail(x, head)), head);
    assert [head] + [x] == [head, x] && [x] + [head] == [x, head];
    SubstBehind(r, head, [x]);
    SubstBefore(r, head, [x]);
  }

  /** The list it comes from keeps the others in order. */
  lemma {:induction false} AfterMoveFrom(f: Family, x: ListHead, head: ListHead, h: ListHead,
                                         a: seq<ListHead>, b: seq<ListHead>)
    requires AllDistinct(f) && head in Nodes(f) && h in Nodes(f) && Home(f, h) != Home(f, head)
    requires Entries(f, h) == a + [x] + b
    ensures Applies(f, Move(x, head)) && Applies(f, MoveTail(x, head))
    ensures var g := Apply(f, Move(x, head)); h in Nodes(g) && Entries(g, h) == a + b
    ensures var g := Apply(f, MoveTail(x, head)); h in Nodes(g) && Entries(g, h) == a + b
  {
    EntryIn(f, h, x, a, b);
    NotInOther(f, x, head);
    WithoutSeen(f[Home(f, h)], x, h, a, b);
    EffectConserves(f, Move(x, head));
    EffectConserves(f, MoveTail(x, head));
    AfterEffect(f, EffectOf(f, Move(x, head)), h);
    AfterEffect(f, EffectOf(f, MoveTail(x, head)), h);
  }

  // ----- swapping -----

  lemma {:induction false} FrontIs(h: ListHead, l: seq<ListHead>)
    requires Distinct([h] + l)
    ensures Around([h] + l, h) == l
  {
    assert [h] + l == [] + [h] + l && l + [] == l;
    AroundIs([h] + l, [], h, l);
  }

  lemma {:induction false} SwappedNodes(e1: ListHead, a: seq<ListHead>, e2: ListHead, b: seq<ListHead>)
    ensures multiset([e2] + (a + [e1] + b)) == multiset([e1] + (a + [e2] + b))
  {
  }

  /** list_swap() within a ring, seen from the entries themselves: they trade places. */
  lemma {:induction false} AfterSwapWithin(f: Family, e1: ListHead, e2: ListHead, a: seq<ListHead>, b: seq<ListHead>)
    requires AllDistinct(f) && e1 in Nodes(f) && Entries(f, e1) == a + [e2] + b
    ensures Applies(f, Swap(e1, e2))
    ensures var g := Apply(f, Swap(e1, e2)); e2 in Nodes(g) && Entries(g, e2) == a + [e1] + b
  {
    var r, l := f[Home(f, e1)], a + [e1] + b;
    EntryIn(f, e1, e2, a, b);
    EffectConserves(f, Swap(e1, e2));
    AroundNodes(r, e1);
    DistinctParts([e1], Around(r, e1));
    SubstIs(Around(r, e1), a, e2, b, [e1]);
    SwappedNodes(e1, a, e2, b);
    DistinctPermuted([e1] + Around(r, e1), [e2] + l);
    FrontIs(e2, l);
    AfterEffect(f, EffectOf(f, Swap(e1, e2)), e2);
  }

  /** list_swap() between two rings: each entry has the surroundings of the other. */
  lemma {:induction false} AfterSwapAcross(f: Family, e1: ListHead, e2: ListHead)
    requires AllDistinct(f) && e1 in Nodes(f) && e2 in Nodes(f) && Home(f, e1) != Home(f, e2) && Entries(f, e2) != []
    ensures Applies(f, Swap(e1, e2))
    ensures var g := Apply(f, Swap(e1, e2));
            && e1 in Nodes(g) && Entries(g, e1) == Entries(f, e2)
            && e2 in Nodes(g) && Entries(g, e2) == Entries(f, e1)
  {
    var r, q := f[Home(f, e1)], f[Home(f, e2)];
    AroundNodes(r, e1);
    AroundNodes(q, e2);
    NotInOther(f, e1, e2);
    NotInOther(f, e2, e1);
    EffectConserves(f, Swap(e1, e2));
    DistinctParts([e1], Around(r, e1));
    DistinctParts([e2], Around(q, e2));
    DistinctJoin([e2], Around(r, e1));
    DistinctJoin([e1], Around(q, e2));
    FrontIs(e2, Around(r, e1));
    FrontIs(e1, Around(q, e2));
    AfterEffect(f, EffectOf(f, Swap(e1, e2)), e1);
    AfterEffect(f, EffectOf(f, Swap(e1, e2)), e2);
  }

  // ----- splicing -----

  lemma {:induction false} SplicedApart(f: Family, list: ListHead, head: ListHead)
    requires AllDistinct(f) && Applies(f, SpliceInit(list, head))
    ensures Distinct(Entries(f, list)) && Apart(Entries(f, list), f[Home(f, head)])
  {
    var q := f[Home(f, list)];
    AroundNodes(q, list);
    DistinctParts([list], Around(q, list));
    assert Apart(q, f[Home(f, head)]);
  }

  /** list_splice_init(): the entries of the list come first, and it is empty. */
  lemma {:induction false} AfterSpliceInit(f: Family, list: ListHead, head: ListHead)
    requires AllDistinct(f) && list in Nodes(f) && head in Nodes(f) && Home(f, list) != Home(f, head)
    ensures Applies(f, SpliceInit(list, head))
    ensures var g := Apply(f, SpliceInit(list, head));
            && head in Nodes(g) && Entries(g, head) == Entries(f, list) + Entries(f, head)
            && list in Nodes(g) && Entries(g, list) == []
  {
    EffectConserves(f, SpliceInit(list, head));
    SplicedApart(f, list, head);
    SubstBehind(f[Home(f, head)], head, Entries(f, list));
    AroundAlone(list);
    AfterEffect(f, EffectOf(f, SpliceInit(list, head)), head);
    AfterEffect(f, EffectOf(f, SpliceInit(list, head)), list);
  }

  /** list_splice_tail_init(): they come last. */
  lemma {:induction false} AfterSpliceTailInit(f: Family, list: ListHead, head: ListHead)
    requires AllDistinct(f) && list in Nodes(f) && head in Nodes(f) && Home(f, list) != Home(f, head)
    ensures Applies(f, SpliceTailInit(list, head))
    ensures var g := Apply(f, SpliceTailInit(list, head));
            && head in Nodes(g) && Entries(g, head) == Entries(f, head) + Entries(f, list)
            && list in Nodes(g) && Entries(g, list) == []
  {
    EffectConserves(f, SpliceTailInit(list, head));
    SplicedApart(f, list, head);
    SubstBefore(f[Home(f, head)], head, Entries(f, list));
    AroundAlone(list);
    AfterEffect(f, EffectOf(f, SpliceTailInit(list, head)), head);
    AfterEffect(f, EffectOf(f, SpliceTailInit(list, head)), list);
  }

  // ----- rotating and moving in bulk -----

  lemma {:induction false} AfterReorder(f: Family, c: Call, head: ListHead, l: seq<ListHead>)
    requires AllDistinct(f) && Applies(f, c) && head in Nodes(f) && EffectOf(f, c) == ListEffect(f, head, l)
    requires multiset(l) == multiset(Entries(f, head))
    ensures head in Nodes(Apply(f, c)) && Entries(Apply(f, c), head) == l
  {
    EffectConserves(f, c);
    AroundNodes(f[Home(f, head)], head);
    DistinctPermuted([head] + Entries(f, head), [head] + l);
    FrontIs(head, l);
    AfterEffect(f, EffectOf(f, c), head);
  }

  /** list_rotate_left(): the first entry becomes the last. */
  lemma {:induction false} AfterRotateLeft(f: Family, head: ListHead, x: ListHead, l: seq<ListHead>)
    requires AllDistinct(f) && head in Nodes(f) && (Entries(f, head) == [x] + l || Entries(f, head) == [])
    ensures var g := Apply(f, RotateLeft(head));
            head in Nodes(g) && Entries(g, head) == if Entries(f, head) == [] then [] else l + [x]
  {
    var e := Entries(f, head);
    assert e != [] ==> e[0] == x && e[1..] == l;
    AfterReorder(f, RotateLeft(head), head, if e == [] then [] else l + [x]);
  }

  /** list_rotate_to_front(): the entry becomes the first, those before it the last. */
  lemma {:induction false} AfterRotateToFront(f: Family, x: ListHead, head: ListHead, a: seq<ListHead>,
                                              b: seq<ListHead>)
    requires AllDistinct(f) && head in Nodes(f) && Entries(f, head) == a + [x] + b
    ensures Applies(f, RotateToFront(x, head))
    ensures var g := Apply(f, RotateToFront(x, head)); head in Nodes(g) && Entries(g, head) == [x] + b + a
  {
    EntryIn(f, head, x, a, b);
    AroundNodes(f[Home(f, head)], head);
    DistinctParts([head], Entries(f, head));
    var c, d := FrontParts(Entries(f, head), x);
    SplitIsUnique(a, x, b, c, d);
    AfterReorder(f, RotateToFront(x, head), head, [x] + b + a);
  }

  /** In a sequence without repetition `x` is at one place. */
  lemma {:induction false} PosIs(l: seq<ListHead>, k: nat)
    requires Distinct(l) && k < |l|
    ensures l[k] in l && Pos(l, l[k]) == k
  {
  }

  /** list_bulk_move_tail(): the entries from the first to the last go to the end. */
  lemma {:induction false} AfterBulkMoveTail(f: Family, head: ListHead, first: ListHead, last: ListHead,
                                             a: seq<ListHead>, s: seq<ListHead>, b: seq<ListHead>)
    requires AllDistinct(f) && head in Nodes(f) && Entries(f, head) == a + s + b
    requires s != [] && first == s[0] && last == s[|s| - 1]
    ensures Applies(f, BulkMoveTail(head, first, last))
    ensures var g := Apply(f, BulkMoveTail(head, first, last)); head in Nodes(g) && Entries(g, head) == a + b + s
  {
    var l := Entries(f, head);
    AroundNodes(f[Home(f, head)], head);
    DistinctParts([head], l);
    PosIs(l, |a|);
    PosIs(l, |a| + |s| - 1);
    assert l[|a|] == first && l[|a| + |s| - 1] == last;
    assert l[..|a|] == a && l[|a|..|a| + |s|] == s && l[|a| + |s|..] == b;
    AfterReorder(f, BulkMoveTail(head, first, last), head, a + b + s);
  }

  // ----- cutting -----

  lemma {:induction false} AfterCut(f: Family, c: Call, list: ListHead, head: ListHead, x: seq<ListHead>,
                                    y: seq<ListHead>)
    requires AllDistinct(f) && Applies(f, c) && Lone(f, list) && head in Nodes(f) && head != list
    requires Entries(f, head) == x + y && EffectOf(f, c) == CutEffect(f, list, head, |x|)
    ensures var g := Apply(f, c);
            && list in Nodes(g) && Entries(g, list) == x
            && head in Nodes(g) && Entries(g, head) == y
  {
    EffectConserves(f, c);
    LoneElsewhere(f, list, head);
    AroundNodes(f[Home(f, head)], head);
    assert (x + y)[..|x|] == x && (x + y)[|x|..] == y;
    DistinctParts([head], x + y);
    DistinctParts(x, y);
    assert forall n :: n in x || n in y ==> n in x + y;
    DistinctJoin([head], y);
    DistinctJoin([list], x);
    FrontIs(head, y);
    FrontIs(list, x);
    AfterEffect(f, EffectOf(f, c), list);
    AfterEffect(f, EffectOf(f, c), head);
  }

  /** list_cut_position(): the entries up to the given one, none for the head. */
  lemma {:induction false} AfterCutPosition(f: Family, list: ListHead, head: ListHead, x: seq<ListHead>,
                                            y: seq<ListHead>)
    requires AllDistinct(f) && Lone(f, list) && head in Nodes(f) && head != list && Entries(f, head) == x + y
    ensures var c := CutPosition(list, head, ([head] + x)[|x|]);
            && Applies(f, c) && list in Nodes(Apply(f, c)) && head in Nodes(Apply(f, c))
            && Entries(Apply(f, c), list) == x && Entries(Apply(f, c), head) == y
  {
    var entry := ([head] + x)[|x|];
    AroundNodes(f[Home(f, head)], head);
    DistinctParts([head], x + y);
    if x != [] {
      assert (x + y)[|x| - 1] == entry;
      PosIs(x + y, |x| - 1);
      assert entry != head;
    }
    AfterCut(f, CutPosition(list, head, entry), list, head, x, y);
  }

  /** list_cut_before(): the entries before the given one, all for the head. */
  lemma {:induction false} AfterCutBefore(f: Family, list: ListHead, head: ListHead, x: seq<ListHead>, y: seq<ListHead>)
    requires AllDistinct(f) && Lone(f, list) && head in Nodes(f) && head != list && Entries(f, head) == x + y
    ensures var c := CutBefore(list, head, if y == [] then head else y[0]);
            && Applies(f, c) && list in Nodes(Apply(f, c)) && head in Nodes(Apply(f, c))
            && Entries(Apply(f, c), list) == x && Entries(Apply(f, c), head) == y
  {
    var entry := if y == [] then head else y[0];
    AroundNodes(f[Home(f, head)], head);
    DistinctParts([head], x + y);
    if y != [] {
      assert (x + y)[|x|] == entry;
      PosIs(x + y, |x|);
      assert entry != head;
    }
    AfterCut(f, CutBefore(list, head, entry), list, head, x, y);
  }
}
