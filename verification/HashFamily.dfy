/** Many hash lists at once: any sequence of legal calls over any number of heads
    keeps their lists disjoint and well-formed, and each call changes only the
    lists it names. */
module HashFamily {
  import opened Sequences
  import opened HashList

  /** A call of `list.h` on given heads and nodes. */
  datatype Call =
    | AddHead(n: Node, h: Head)
    | AddBefore(n: Node, next: Node)
    | AddBehind(n: Node, prev: Node)
    | Del(n: Node)
    | DelInit(n: Node)
    | MoveList(o: Head, h: Head)

  /** The list of each head, the unhashed nodes, and the nodes that hlist_del()
      has poisoned. */
  datatype Family = Family(lists: map<Head, seq<Node>>, loose: set<Node>, dead: set<Node>)

  ghost function Listed(f: Family): set<Node> {
    set h, n | h in f.lists && n in f.lists[h] :: n
  }

  ghost function Nodes(f: Family): set<Node> {
    Listed(f) + f.loose + f.dead
  }

  ghost function Objects(f: Family): set<object> {
    var heads: set<object> := f.lists.Keys;
    var nodes: set<object> := Nodes(f);
    heads + nodes
  }

  /** No node is on two lists, or on a list and off it. */
  ghost predicate Disjoint(f: Family) {
    && (forall h, k :: h in f.lists && k in f.lists && h != k ==> Apart(f.lists[h], f.lists[k]))
    && Listed(f) !! f.loose && Listed(f) !! f.dead && f.loose !! f.dead
  }

  ghost predicate Poisoned(n: Node)
    reads n
  {
    n.next == Poison1 && n.pprev == Poison2
  }

  ghost predicate Valid(f: Family)
    reads Objects(f)
  {
    assert forall h, n :: h in f.lists && n in f.lists[h] ==> n in Listed(f);
    && Disjoint(f)
    && (forall h :: h in f.lists ==> List(h, f.lists[h]))
    && (forall n :: n in f.loose ==> Unhashed(n))
    && (forall n :: n in f.dead ==> Poisoned(n))
  }

  /** The head whose list holds `n`. */
  ghost function HeadOf(f: Family, n: Node): (h: Head)
    requires n in Listed(f)
    ensures h in f.lists && n in f.lists[h]
  {
    var h :| h in f.lists && n in f.lists[h]; h
  }

  /** A node on no list. */
  ghost predicate Spare(f: Family, n: Node) {
    n in f.loose || n in f.dead
  }

  /** What the kernel asks of the callers of each operation. */
  ghost predicate Legal(f: Family, c: Call) {
    match c
    case AddHead(n, h) => Spare(f, n) && h in f.lists
    case AddBefore(n, next) => Spare(f, n) && next in Listed(f)
    case AddBehind(n, prev) => Spare(f, n) && prev in Listed(f)
    case Del(n) => n in Listed(f)
    case DelInit(n) => n in Listed(f) || n in f.loose
    case MoveList(o, h) => o in f.lists && h in f.lists && o != h && f.lists[h] == []
  }

  /** The head whose list a call changes (for a move, the one that receives). */
  ghost function Target(f: Family, c: Call): (h: Head)
    requires Legal(f, c) && !(c.DelInit? && c.n in f.loose)
    ensures h in f.lists
  {
    match c
    case AddHead(_, h) => h
    case AddBefore(_, next) => HeadOf(f, next)
    case AddBehind(_, prev) => HeadOf(f, prev)
    case Del(n) => HeadOf(f, n)
    case DelInit(n) => HeadOf(f, n)
    case MoveList(_, h) => h
  }

  /** The family in which the list of `h` is `s`, with other nodes off the lists. */
  ghost function With(f: Family, h: Head, s: seq<Node>, loose: set<Node>, dead: set<Node>): Family {
    Family(f.lists[h := s], loose, dead)
  }

  /** The calls that change one list. */
  ghost predicate ChangesOne(f: Family, c: Call) {
    Legal(f, c) && !c.MoveList? && !(c.DelInit? && c.n in f.loose)
  }

  /** The list of the target after the call, and the nodes then off the lists. */
  ghost function ListAfter(f: Family, c: Call): seq<Node>
    requires ChangesOne(f, c)
  {
    var s := f.lists[Target(f, c)];
    match c
    case AddHead(n, _) => [n] + s
    case AddBefore(n, next) => Subst(s, next, [n, next])
    case AddBehind(n, prev) => Subst(s, prev, [prev, n])
    case Del(n) => Without(s, n)
    case DelInit(n) => Without(s, n)
  }

  ghost function LooseAfter(f: Family, c: Call): set<Node>
    requires ChangesOne(f, c)
  {
    if c.Del? then f.loose else if c.DelInit? then f.loose + {c.n} else f.loose - {c.n}
  }

  ghost function DeadAfter(f: Family, c: Call): set<Node>
    requires ChangesOne(f, c)
  {
    if c.Del? then f.dead + {c.n} else if c.DelInit? then f.dead else f.dead - {c.n}
  }

  /** The abstract meaning of each call. hlist_del_init() on an unhashed node
      changes nothing. */
  ghost function Apply(f: Family, c: Call): Family
    requires Legal(f, c)
  {
    if c.MoveList? then f.(lists := f.lists[c.h := f.lists[c.o]][c.o := []])
    else if c.DelInit? && c.n in f.loose then f
    else With(f, Target(f, c), ListAfter(f, c), LooseAfter(f, c), DeadAfter(f, c))
  }

  // ----- calls conserve nodes -----

  /** Between one list and the nodes off the lists, none is lost, none is
      invented, none is in two places. */
  ghost predicate Conserves(f: Family, h: Head, s: seq<Node>, loose: set<Node>, dead: set<Node>)
    requires h in f.lists
  {
    && Elems(s) !! loose && Elems(s) !! dead && loose !! dead
    && Elems(s) + loose + dead == Elems(f.lists[h]) + f.loose + f.dead
  }

  lemma {:induction false} ListedWith(f: Family, h: Head, s: seq<Node>, loose: set<Node>, dead: set<Node>)
    requires h in f.lists && Conserves(f, h, s, loose, dead)
    ensures Nodes(With(f, h, s, loose, dead)) == Nodes(f) && Objects(With(f, h, s, loose, dead)) == Objects(f)
  {
    var g := With(f, h, s, loose, dead);
    assert g.lists[h] == s && forall k :: k in f.lists && k != h ==> g.lists[k] == f.lists[k];
    forall n | n in Nodes(f) ensures n in Nodes(g) {
      if n in Listed(f) {
        var k :| k in f.lists && n in f.lists[k];
        assert k == h ==> n in Elems(f.lists[h]);
        assert k != h ==> n in g.lists[k];
      }
      assert n in Elems(s) ==> n in g.lists[h];
    }
    forall n | n in Nodes(g) ensures n in Nodes(f) {
      if n in Listed(g) {
        var k :| k in g.lists && n in g.lists[k];
        assert k == h ==> n in Elems(s);
        assert k != h ==> n in f.lists[k];
      }
      assert n in Elems(f.lists[h]) ==> n in f.lists[h];
    }
    assert g.lists.Keys == f.lists.Keys;
  }

  lemma {:induction false} DisjointWith(f: Family, h: Head, s: seq<Node>, loose: set<Node>, dead: set<Node>)
    requires Disjoint(f) && h in f.lists && Conserves(f, h, s, loose, dead)
    ensures Disjoint(With(f, h, s, loose, dead))
  {
    var g := With(f, h, s, loose, dead);
    assert g.lists[h] == s && forall k :: k in f.lists && k != h ==> g.lists[k] == f.lists[k];
    forall k, n | k in f.lists && k != h && n in f.lists[k] ensures n !in s && n !in loose && n !in dead {
      assert n in Listed(f) && Apart(f.lists[k], f.lists[h]);
      assert n in s ==> n in Elems(s);
    }
    forall n | n in s ensures n !in loose && n !in dead {
      assert n in Elems(s);
    }
    forall n | n in Listed(g) ensures n !in loose && n !in dead {
      var k :| k in g.lists && n in g.lists[k];
      assert k != h ==> n in f.lists[k];
    }
  }

  ghost predicate AllDistinct(f: Family) {
    Disjoint(f) && forall h :: h in f.lists ==> Distinct(f.lists[h])
  }

  // ----- what each call does to the lists -----

  /** On the heap, the lists of a valid family are what following the links finds. */
  lemma {:induction false} ListsAreLinked(f: Family, h: Head, n: Node)
    requires Valid(f)
    ensures AllDistinct(f)
    ensures h in f.lists ==> List(h, f.lists[h])
    ensures n in f.loose ==> Unhashed(n) && n !in Listed(f)
    ensures n in f.dead ==> n.next == Poison1 && n.pprev == Poison2 && n !in Listed(f)
  {
  }

  /** The lists other than that of `h` are as they were. */
  ghost predicate OthersSame(f: Family, g: Family, h: Head) {
    g.lists.Keys == f.lists.Keys && forall k :: k in f.lists && k != h ==> g.lists[k] == f.lists[k]
  }

  lemma {:induction false} HeadIs(f: Family, h: Head, n: Node)
    requires Disjoint(f) && h in f.lists && n in f.lists[h]
    ensures n in Listed(f) && HeadOf(f, n) == h
  {
    var k := HeadOf(f, n);
    assert k != h ==> Apart(f.lists[k], f.lists[h]);
  }

  /** hlist_add_head(): the node comes first. */
  lemma {:induction false} AfterAddHead(f: Family, n: Node, h: Head)
    requires (n in f.loose || n in f.dead) && h in f.lists
    ensures Legal(f, AddHead(n, h))
    ensures var g := Apply(f, AddHead(n, h));
            && g.lists[h] == [n] + f.lists[h] && OthersSame(f, g, h)
            && g.loose == f.loose - {n} && g.dead == f.dead - {n}
  {
  }

  /** hlist_add_before(): the node comes just before the other, wherever that is. */
  lemma {:induction false} AfterAddBefore(f: Family, n: Node, next: Node, h: Head, a: seq<Node>, b: seq<Node>)
    requires AllDistinct(f) && (n in f.loose || n in f.dead) && h in f.lists && f.lists[h] == a + [next] + b
    ensures Legal(f, AddBefore(n, next))
    ensures var g := Apply(f, AddBefore(n, next));
            && g.lists[h] == a + [n, next] + b && OthersSame(f, g, h)
            && g.loose == f.loose - {n} && g.dead == f.dead - {n}
  {
    SubstIs(f.lists[h], a, next, b, [n, next]);
    HeadIs(f, h, next);
  }

  /** hlist_add_behind(): the node comes just behind the other. */
  lemma {:induction false} AfterAddBehind(f: Family, n: Node, prev: Node, h: Head, a: seq<Node>, b: seq<Node>)
    requires AllDistinct(f) && (n in f.loose || n in f.dead) && h in f.lists && f.lists[h] == a + [prev] + b
    ensures Legal(f, AddBehind(n, prev))
    ensures var g := Apply(f, AddBehind(n, prev));
            && g.lists[h] == a + [prev, n] + b && OthersSame(f, g, h)
            && g.loose == f.loose - {n} && g.dead == f.dead - {n}
  {
    SubstIs(f.lists[h], a, prev, b, [prev, n]);
    HeadIs(f, h, prev);
  }

  /** hlist_del() and hlist_del_init(): the node is gone, the others stay in order.
      The one leaves it poisoned, the other unhashed. */
  lemma {:induction false} AfterDel(f: Family, n: Node, h: Head, a: seq<Node>, b: seq<Node>)
    requires AllDistinct(f) && h in f.lists && f.lists[h] == a + [n] + b
    ensures Legal(f, Del(n)) && Legal(f, DelInit(n))
    ensures var g := Apply(f, Del(n));
            g.lists[h] == a + b && OthersSame(f, g, h) && g.loose == f.loose && g.dead == f.dead + {n}
    ensures var g := Apply(f, DelInit(n));
            g.lists[h] == a + b && OthersSame(f, g, h) && g.loose == f.loose + {n} && g.dead == f.dead
  {
    SubstIs(f.lists[h], a, n, b, []);
    HeadIs(f, h, n);
  }

  /** hlist_del_init() on an unhashed node: nothing happens. */
  lemma {:induction false} AfterDelInitLoose(f: Family, n: Node)
    requires n in f.loose
    ensures Legal(f, DelInit(n)) && Apply(f, DelInit(n)) == f
  {
  }

  /** hlist_move_list(): the new head has the list, the old one is empty. */
  lemma {:induction false} AfterMoveList(f: Family, o: Head, h: Head)
    requires o in f.lists && h in f.lists && o != h && f.lists[h] == []
    ensures Legal(f, MoveList(o, h))
    ensures var g := Apply(f, MoveList(o, h));
            && g.lists[h] == f.lists[o] && g.lists[o] == [] && g.loose == f.loose && g.dead == f.dead
            && g.lists.Keys == f.lists.Keys
            && forall k :: k in f.lists && k != o && k != h ==> g.lists[k] == f.lists[k]
  {
  }

  // ----- the conserved nodes -----

  lemma {:induction false} SubstElems(s: seq<Node>, x: Node, m: seq<Node>)
    requires Distinct(s) && x in s
    ensures Elems(Subst(s, x, m)) == Elems(s) - {x} + Elems(m)
    ensures Elems(Without(s, x)) == Elems(s) - {x}
  {
    SubstNodes(s, x, m);
  }

  lemma {:induction false} OnNoOtherList(f: Family, h: Head)
    requires Disjoint(f) && h in f.lists
    ensures Elems(f.lists[h]) !! f.loose && Elems(f.lists[h]) !! f.dead
  {
    assert forall n :: n in Elems(f.lists[h]) ==> n in Listed(f);
  }

  lemma {:induction false} InsertConserves(f: Family, h: Head, n: Node, s: seq<Node>)
    requires Disjoint(f) && h in f.lists && Spare(f, n) && Elems(s) == Elems(f.lists[h]) + {n}
    ensures Conserves(f, h, s, f.loose - {n}, f.dead - {n})
  {
    OnNoOtherList(f, h);
  }

  lemma {:induction false} RemoveConserves(f: Family, h: Head, n: Node, s: seq<Node>)
    requires Disjoint(f) && h in f.lists && n in f.lists[h] && Elems(s) == Elems(f.lists[h]) - {n}
    ensures Conserves(f, h, s, f.loose + {n}, f.dead) && Conserves(f, h, s, f.loose, f.dead + {n})
  {
    OnNoOtherList(f, h);
    assert n in Elems(f.lists[h]);
  }

  lemma {:induction false} CallConserves(f: Family, c: Call)
    requires AllDistinct(f) && ChangesOne(f, c)
    ensures Conserves(f, Target(f, c), ListAfter(f, c), LooseAfter(f, c), DeadAfter(f, c))
  {
    var h := Target(f, c);
    var s := f.lists[h];
    match c
    case AddHead(n, _) =>
      InsertConserves(f, h, n, [n] + s);
    case AddBefore(n, next) =>
      SubstElems(s, next, [n, next]);
      InsertConserves(f, h, n, Subst(s, next, [n, next]));
    case AddBehind(n, prev) =>
      SubstElems(s, prev, [prev, n]);
      InsertConserves(f, h, n, Subst(s, prev, [prev, n]));
    case Del(n) =>
      SubstElems(s, n, []);
      RemoveConserves(f, h, n, Without(s, n));
    case DelInit(n) =>
      SubstElems(s, n, []);
      RemoveConserves(f, h, n, Without(s, n));
  }

  // ----- one call on the heap -----

  /** The objects of the lists a call names. */
  ghost function Touched(f: Family, c: Call): set<object>
    requires Legal(f, c)
  {
    if c.DelInit? && c.n in f.loose then {c.n}
    else
      var h := Target(f, c);
      var ends: set<object> := if c.MoveList? then {h, c.o} else {h, c.n};
      var nodes: set<object> := Elems(f.lists[if c.MoveList? then c.o else h]);
      ends + nodes
  }

  method DoAddHead(n: Node, h: Head, ghost s: seq<Node>)
    requires List(h, s) && n !in s
    modifies n, h, Elems(s)
    ensures List(h, [n] + s)
  {
    assert forall m :: m in s ==> m in Elems(s);
    HlistAddHead(n, h, s);
  }

  method DoAddBefore(n: Node, next: Node, ghost h: Head, ghost s: seq<Node>)
    requires List(h, s) && next in s && n !in s
    modifies n, h, Elems(s)
    ensures List(h, Subst(s, next, [n, next]))
  {
    ghost var a, b := Halves(s, next, [n, next]);
    HlistAddBefore(n, next, h, a, b);
  }

  method DoAddBehind(n: Node, prev: Node, ghost h: Head, ghost s: seq<Node>)
    requires List(h, s) && prev in s && n !in s
    modifies n, h, Elems(s)
    ensures List(h, Subst(s, prev, [prev, n]))
  {
    ghost var a, b := Halves(s, prev, [prev, n]);
    HlistAddBehind(n, prev, h, a, b);
  }

  method DoDel(n: Node, ghost h: Head, ghost s: seq<Node>)
    requires List(h, s) && n in s
    modifies h, Elems(s)
    ensures List(h, Without(s, n)) && Poisoned(n)
  {
    ghost var a, b := Halves(s, n, []);
    HlistDel(n, h, a, b);
  }

  method DoDelInit(n: Node, ghost h: Head, ghost s: seq<Node>)
    requires List(h, s) && n in s
    modifies h, Elems(s)
    ensures List(h, Without(s, n)) && Unhashed(n)
  {
    ghost var a, b := Halves(s, n, []);
    LookAround(h, a, n, b);
    HlistDelInit(n, h, a, b);
  }

  /** Run one call that changes one list. */
  method Perform(c: Call, ghost f: Family)
    requires Valid(f) && ChangesOne(f, c)
    modifies Touched(f, c)
    ensures List(Target(f, c), ListAfter(f, c))
    ensures c.Del? ==> Poisoned(c.n)
    ensures c.DelInit? ==> Unhashed(c.n)
  {
    ghost var h := Target(f, c);
    ghost var s := f.lists[h];
    assert forall m :: m in s ==> m in Listed(f);
    match c
    case AddHead(n, h') => DoAddHead(n, h', s);
    case AddBefore(n, next) => DoAddBefore(n, next, h, s);
    case AddBehind(n, prev) => DoAddBehind(n, prev, h, s);
    case Del(n) => DoDel(n, h, s);
    case DelInit(n) => DoDelInit(n, h, s);
  }

  // ----- any call, any run -----

  /** A call touches no other list and, off the lists, only its own node. */
  lemma {:induction false} TouchedApart(f: Family, c: Call)
    requires Disjoint(f) && ChangesOne(f, c)
    ensures forall k :: k in f.lists && k != Target(f, c) ==> k !in Touched(f, c)
    ensures forall k, n :: k in f.lists && k != Target(f, c) && n in f.lists[k] ==> n !in Touched(f, c)
    ensures forall n :: n in f.loose + f.dead && n != c.n ==> n !in Touched(f, c)
  {
    var h := Target(f, c);
    assert forall k, n :: k in f.lists && n in f.lists[k] ==> n in Listed(f);
    forall k, n | k in f.lists && k != h && n in f.lists[k] ensures n !in Touched(f, c) {
      assert Apart(f.lists[k], f.lists[h]);
    }
  }

  /** Perform, and what it leaves alone. */
  method PerformAmong(c: Call, ghost f: Family)
    requires Valid(f) && ChangesOne(f, c)
    modifies Touched(f, c)
    ensures List(Target(f, c), ListAfter(f, c))
    ensures forall k :: k in f.lists && k != Target(f, c) ==> List(k, f.lists[k])
    ensures forall n :: n in LooseAfter(f, c) ==> Unhashed(n)
    ensures forall n :: n in DeadAfter(f, c) ==> Poisoned(n)
  {
    TouchedApart(f, c);
    Perform(c, f);
  }

  /** The family after a call that changes one list is valid. */
  lemma {:induction false} ValidWith(f: Family, h: Head, s: seq<Node>, loose: set<Node>, dead: set<Node>)
    requires Disjoint(f) && h in f.lists && Conserves(f, h, s, loose, dead)
    requires List(h, s) && forall k :: k in f.lists && k != h ==> List(k, f.lists[k])
    requires forall n :: n in loose ==> Unhashed(n)
    requires forall n :: n in dead ==> Poisoned(n)
    ensures Valid(With(f, h, s, loose, dead))
  {
    DisjointWith(f, h, s, loose, dead);
  }

  /** Execute, for a call that changes one list. */
  method ExecuteOne(c: Call, ghost f: Family)
    requires Valid(f) && ChangesOne(f, c)
    modifies Touched(f, c)
    ensures Valid(Apply(f, c))
  {
    CallConserves(f, c);
    PerformAmong(c, f);
    ValidWith(f, Target(f, c), ListAfter(f, c), LooseAfter(f, c), DeadAfter(f, c));
  }

  lemma {:induction false} MoveConserves(f: Family, o: Head, h: Head)
    requires Disjoint(f) && Legal(f, MoveList(o, h))
    ensures Disjoint(Apply(f, MoveList(o, h))) && Nodes(Apply(f, MoveList(o, h))) == Nodes(f)
  {
    var g := Apply(f, MoveList(o, h));
    assert g.lists[h] == f.lists[o] && g.lists[o] == [];
    assert forall k :: k in f.lists && k != h && k != o ==> g.lists[k] == f.lists[k];
    forall n | n in Listed(f) ensures n in Listed(g) {
      var k: Head :| k in f.lists && n in f.lists[k];
      assert n in g.lists[if k == o then h else k];
    }
    forall n | n in Listed(g) ensures n in Listed(f) {
      var k: Head :| k in g.lists && n in g.lists[k];
      assert n in f.lists[if k == h then o else k];
    }
  }

  lemma {:induction false} MoveApart(f: Family, o: Head, h: Head)
    requires Disjoint(f) && Legal(f, MoveList(o, h))
    ensures forall k :: k in f.lists && k != o && k != h ==> k !in Touched(f, MoveList(o, h))
    ensures forall k, n :: k in f.lists && k != o && n in f.lists[k] ==> n !in Touched(f, MoveList(o, h))
    ensures forall n :: n in f.loose + f.dead ==> n !in Touched(f, MoveList(o, h))
  {
    assert forall k, n :: k in f.lists && n in f.lists[k] ==> n in Listed(f);
    forall k, n | k in f.lists && k != o && n in f.lists[k] ensures n !in Touched(f, MoveList(o, h)) {
      assert Apart(f.lists[k], f.lists[o]);
    }
  }

  method DoMoveList(o: Head, h: Head, ghost f: Family)
    requires Valid(f) && Legal(f, MoveList(o, h))
    modifies Touched(f, MoveList(o, h))
    ensures List(h, f.lists[o]) && List(o, [])
  {
    ghost var s := f.lists[o];
    assert forall n :: n in s ==> n in Elems(s);
    HlistMoveList(o, h, s);
  }

  /** Execute, for a call that moves a list to another head. */
  method ExecuteMove(o: Head, h: Head, ghost f: Family)
    requires Valid(f) && Legal(f, MoveList(o, h))
    modifies Touched(f, MoveList(o, h))
    ensures Valid(Apply(f, MoveList(o, h)))
  {
    MoveApart(f, o, h);
    DoMoveList(o, h, f);
    MoveConserves(f, o, h);
  }

  lemma {:induction false} ApplyKeepsObjects(f: Family, c: Call)
    requires AllDistinct(f) && Legal(f, c)
    ensures Nodes(Apply(f, c)) == Nodes(f) && Objects(Apply(f, c)) == Objects(f)
    ensures Touched(f, c) <= Objects(f)
  {
    if c.MoveList? {
      MoveConserves(f, c.o, c.h);
      assert Apply(f, c).lists.Keys == f.lists.Keys;
    } else if ChangesOne(f, c) {
      CallConserves(f, c);
      ListedWith(f, Target(f, c), ListAfter(f, c), LooseAfter(f, c), DeadAfter(f, c));
    }
    assert forall k, n :: k in f.lists && n in f.lists[k] ==> n in Listed(f);
  }

  lemma {:induction false} ListedIsHashed(f: Family, n: Node)
    requires Valid(f) && Unhashed(n)
    ensures n !in Listed(f)
  {
    if n in Listed(f) {
      var h := HeadOf(f, n);
      var s := f.lists[h];
      var k := Pos(s, n);
      Links(h, s);
    }
  }

  /** Every legal call on a family of disjoint lists gives the family its abstract
      meaning describes, and leaves all other lists and nodes as they were. */
  method Execute(c: Call, ghost f: Family)
    requires Valid(f) && Legal(f, c)
    modifies Touched(f, c)
    ensures Valid(Apply(f, c)) && Nodes(Apply(f, c)) == Nodes(f) && Objects(Apply(f, c)) == Objects(f)
  {
    ApplyKeepsObjects(f, c);
    if c.MoveList? {
      ExecuteMove(c.o, c.h, f);
    } else if c.DelInit? && Unhashed(c.n) {
      ListedIsHashed(f, c.n);
      HlistDelInitOffList(c.n);
    } else {
      ExecuteOne(c, f);
    }
  }

  ghost predicate LegalRun(f: Family, calls: seq<Call>)
    decreases |calls|
  {
    calls == [] || (Legal(f, calls[0]) && LegalRun(Apply(f, calls[0]), calls[1..]))
  }

  ghost function ApplyAll(f: Family, calls: seq<Call>): Family
    requires LegalRun(f, calls)
    decreases |calls|
  {
    if calls == [] then f else ApplyAll(Apply(f, calls[0]), calls[1..])
  }

  /** A run is its calls one after the other. */
  lemma {:induction false} RunInSteps(f: Family, calls: seq<Call>, c: Call)
    ensures LegalRun(f, []) && ApplyAll(f, []) == f
    ensures LegalRun(f, calls + [c]) <==> LegalRun(f, calls) && Legal(ApplyAll(f, calls), c)
    ensures LegalRun(f, calls + [c]) ==> ApplyAll(f, calls + [c]) == Apply(ApplyAll(f, calls), c)
    decreases |calls|
  {
    if calls == [] {
      assert [] + [c] == [c] && [c][1..] == [];
    } else {
      assert (calls + [c])[1..] == calls[1..] + [c];
      if Legal(f, calls[0]) {
        RunInSteps(Apply(f, calls[0]), calls[1..], c);
      }
    }
  }

  /** Any run of legal calls over any number of heads. */
  method ExecuteAll(calls: seq<Call>, ghost f: Family)
    requires Valid(f) && LegalRun(f, calls)
    modifies Objects(f)
    ensures Valid(ApplyAll(f, calls)) && Nodes(ApplyAll(f, calls)) == Nodes(f)
  {
    ghost var now, rest := f, calls;
    for i := 0 to |calls|
      invariant rest == calls[i..] && LegalRun(now, rest) && ApplyAll(now, rest) == ApplyAll(f, calls)
      invariant Nodes(now) == Nodes(f) && Objects(now) == Objects(f) && Valid(now)
    {
      ApplyKeepsObjects(now, rest[0]);
      Execute(calls[i], now);
      now, rest := Apply(now, calls[i]), rest[1..];
    }
  }
}
