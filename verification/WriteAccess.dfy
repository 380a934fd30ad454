/** The signed access counters of `fs.h`: positive while writers hold access,
    negative while deniers do. One shared 32-bit counter, any number of threads,
    every operation atomic. */
module WriteAccess {

  import opened DecimalText

  /** 32-bit wrap-around of atomic_inc() and atomic_dec(). */
  function Wrap(n: int): int {
    if n > INT_MAX then n - 0x1_0000_0000 else if n < INT_MIN then n + 0x1_0000_0000 else n
  }

  /** One step past either end comes back at the other, 2^32 away. */
  lemma {:induction false} WrapsAround(n: int)
    requires -0x8000_0001 <= n <= 0x8000_0000
    ensures FitsInt(Wrap(n)) && (Wrap(n) == n || Wrap(n) == n + 0x1_0000_0000 || Wrap(n) == n - 0x1_0000_0000)
  {
  }

  type Thread = nat

  /** The counter, and which threads hold write access or a denial of it (a
      thread may hold several). */
  datatype State = State(count: int, writers: multiset<Thread>, deniers: multiset<Thread>)

  datatype Event = Get(t: Thread) | Put(t: Thread) | Deny(t: Thread) | Allow(t: Thread)

  const START := State(0, multiset{}, multiset{})

  /** Only holders release; get and deny may be tried at any time. */
  predicate Enabled(s: State, e: Event) {
    match e
    case Put(t) => t in s.writers
    case Allow(t) => t in s.deniers
    case _ => true
  }

  /** atomic_inc_unless_negative() and atomic_dec_unless_positive() */
  predicate Succeeds(s: State, e: Event) {
    match e
    case Get(_) => s.count >= 0
    case Deny(_) => s.count <= 0
    case _ => true
  }

  function Step(s: State, e: Event): State
    requires Enabled(s, e)
  {
    if !Succeeds(s, e) then s
    else
      match e
      case Get(t) => State(Wrap(s.count + 1), s.writers + multiset{t}, s.deniers)
      case Put(t) => State(Wrap(s.count - 1), s.writers - multiset{t}, s.deniers)
      case Deny(t) => State(Wrap(s.count - 1), s.writers, s.deniers + multiset{t})
      case Allow(t) => State(Wrap(s.count + 1), s.writers, s.deniers - multiset{t})
  }

  /** The counter is writers minus deniers, and there are never both. */
  ghost predicate Inv(s: State) {
    && FitsInt(s.count)
    && s.count == |s.writers| - |s.deniers|
    && (s.writers == multiset{} || s.deniers == multiset{})
  }

  /** A successful call that takes the counter past the end of its range. */
  predicate Overflows(s: State, e: Event) {
    (e.Get? && s.count == INT_MAX) || (e.Deny? && s.count == INT_MIN)
  }

  lemma {:induction false} HolderCounts(m: multiset<Thread>, t: Thread)
    ensures |m + multiset{t}| == |m| + 1 && m + multiset{t} != multiset{}
    ensures t in m ==> |m - multiset{t}| == |m| - 1 && m != multiset{}
    ensures m == multiset{} <==> |m| == 0
  {
    assert t in m + multiset{t};
    assert t in m ==> m - multiset{t} + multiset{t} == m;
  }

  /** One call by any thread keeps the invariant exactly when it does not push
      the 32-bit counter out of range. */
  lemma {:induction false} StepKeepsInvariant(s: State, e: Event)
    requires Inv(s) && Enabled(s, e)
    ensures Inv(Step(s, e)) <==> !Overflows(s, e)
  {
    HolderCounts(s.writers, e.t);
    HolderCounts(s.deniers, e.t);
  }

  /** What the calls mean to their callers: get succeeds exactly when nobody
      denies, deny exactly when nobody writes, and the open-for-write test is
      true exactly when somebody holds write access. */
  lemma {:induction false} CounterTellsHolders(s: State, t: Thread)
    requires Inv(s)
    ensures Succeeds(s, Get(t)) <==> s.deniers == multiset{}
    ensures Succeeds(s, Deny(t)) <==> s.writers == multiset{}
    ensures s.count > 0 <==> s.writers != multiset{}
  {
    assert |s.writers| == 0 <==> s.writers == multiset{};
    assert |s.deniers| == 0 <==> s.deniers == multiset{};
  }

  // ----- what a call does to the holders -----

  /** A get that succeeds registers its thread: it holds access once more, all
      denials fail and the test is true. Nothing else changes. */
  lemma {:induction false} GetAcquires(s: State, t: Thread)
    requires Inv(s) && s.deniers == multiset{} && s.count < INT_MAX
    ensures var s' := Step(s, Get(t));
            && s'.writers[t] == s.writers[t] + 1 && s'.count == s.count + 1
            && (forall u :: u != t ==> s'.writers[u] == s.writers[u]) && s'.deniers == s.deniers
            && (forall u :: !Succeeds(s', Deny(u))) && s'.count > 0
  {
    CounterTellsHolders(s, t);
    StepKeepsInvariant(s, Get(t));
  }

  /** A deny that succeeds registers its thread: all gets fail until it allows. */
  lemma {:induction false} DenyExcludes(s: State, t: Thread)
    requires Inv(s) && s.writers == multiset{} && s.count > INT_MIN
    ensures var s' := Step(s, Deny(t));
            && s'.deniers[t] == s.deniers[t] + 1 && s'.count == s.count - 1
            && (forall u :: u != t ==> s'.deniers[u] == s.deniers[u]) && s'.writers == s.writers
            && (forall u :: !Succeeds(s', Get(u))) && s'.count < 0
  {
    CounterTellsHolders(s, t);
    StepKeepsInvariant(s, Deny(t));
  }

  /** A call that fails changes nothing. */
  lemma {:induction false} FailureChangesNothing(s: State, t: Thread)
    requires Inv(s)
    ensures s.deniers != multiset{} ==> Step(s, Get(t)) == s
    ensures s.writers != multiset{} ==> Step(s, Deny(t)) == s
  {
    CounterTellsHolders(s, t);
  }

  /** A put gives up one hold of its thread. When that was the last of all, the
      test is false and a deny succeeds. */
  lemma {:induction false} PutReleases(s: State, t: Thread)
    requires Inv(s) && t in s.writers
    ensures var s' := Step(s, Put(t));
            && Inv(s') && s'.writers[t] == s.writers[t] - 1 && s'.count == s.count - 1
            && (forall u :: u != t ==> s'.writers[u] == s.writers[u]) && s'.deniers == s.deniers
            && (s.writers == multiset{t} ==>
                  s'.writers == multiset{} && !(s'.count > 0) && forall u :: Succeeds(s', Deny(u)))
  {
    StepKeepsInvariant(s, Put(t));
    CounterTellsHolders(Step(s, Put(t)), t);
  }

  /** An allow gives up one denial of its thread. When that was the last of all,
      a get succeeds. */
  lemma {:induction false} AllowReleases(s: State, t: Thread)
    requires Inv(s) && t in s.deniers
    ensures var s' := Step(s, Allow(t));
            && Inv(s') && s'.deniers[t] == s.deniers[t] - 1 && s'.count == s.count + 1
            && (forall u :: u != t ==> s'.deniers[u] == s.deniers[u]) && s'.writers == s.writers
            && (s.deniers == multiset{t} ==>
                  s'.deniers == multiset{} && forall u :: Succeeds(s', Get(u)))
  {
    StepKeepsInvariant(s, Allow(t));
    CounterTellsHolders(Step(s, Allow(t)), t);
  }

  /** A put undoes a get. */
  lemma {:induction false} PutUndoesGet(s: State, t: Thread)
    requires Inv(s) && s.deniers == multiset{} && s.count < INT_MAX
    ensures Enabled(Step(s, Get(t)), Put(t)) && Step(Step(s, Get(t)), Put(t)) == s
  {
    GetAcquires(s, t);
    assert s.writers + multiset{t} - multiset{t} == s.writers;
  }

  /** An allow undoes a deny. */
  lemma {:induction false} AllowUndoesDeny(s: State, t: Thread)
    requires Inv(s) && s.writers == multiset{} && s.count > INT_MIN
    ensures Enabled(Step(s, Deny(t)), Allow(t)) && Step(Step(s, Deny(t)), Allow(t)) == s
  {
    DenyExcludes(s, t);
    assert s.deniers + multiset{t} - multiset{t} == s.deniers;
  }

  /** An interleaving of the calls of all threads, each made by a holder where
      it releases. */
  predicate Legal(s: State, es: seq<Event>)
    decreases |es|
  {
    es == [] || (Enabled(s, es[0]) && Legal(Step(s, es[0]), es[1..]))
  }

  function Run(s: State, es: seq<Event>): State
    requires Legal(s, es)
    decreases |es|
  {
    if es == [] then s else Run(Step(s, es[0]), es[1..])
  }

  /** No call of the run takes the counter past the end of its range. */
  predicate NoOverflow(s: State, es: seq<Event>)
    requires Legal(s, es)
    decreases |es|
  {
    es == [] || (!Overflows(s, es[0]) && NoOverflow(Step(s, es[0]), es[1..]))
  }

  /** The invariant holds in every state the run passes through. */
  ghost predicate AlwaysInv(s: State, es: seq<Event>)
    requires Legal(s, es)
    decreases |es|
  {
    Inv(s) && (es == [] || AlwaysInv(Step(s, es[0]), es[1..]))
  }

  /** Safety of every interleaving of any number of threads: writers and deniers
      exclude each other and the counter is exact, in all states of the run, if
      and only if no call overflows the counter. */
  lemma {:induction false} InterleavingIsSafe(s: State, es: seq<Event>)
    requires Inv(s) && Legal(s, es)
    ensures AlwaysInv(s, es) <==> NoOverflow(s, es)
    decreases |es|
  {
    if es != [] {
      StepKeepsInvariant(s, es[0]);
      if !Overflows(s, es[0]) {
        InterleavingIsSafe(Step(s, es[0]), es[1..]);
      }
    }
  }

  lemma {:induction false} FinalStateIsSafe(s: State, es: seq<Event>)
    requires Legal(s, es) && AlwaysInv(s, es)
    ensures Inv(Run(s, es))
    decreases |es|
  {
    if es != [] {
      FinalStateIsSafe(Step(s, es[0]), es[1..]);
    }
  }

  /** By how much a call changes what a thread holds: a successful get of its own
      adds one, a put of its own takes one. */
  function HoldChange(s: State, e: Event, t: Thread): int {
    if e == Get(t) && s.count >= 0 then 1 else if e == Put(t) then -1 else 0
  }

  function DenialChange(s: State, e: Event, t: Thread): int {
    if e == Deny(t) && s.count <= 0 then 1 else if e == Allow(t) then -1 else 0
  }

  lemma {:induction false} StepAccountsHolds(s: State, e: Event, t: Thread)
    requires Enabled(s, e)
    ensures Step(s, e).writers[t] == s.writers[t] + HoldChange(s, e, t)
  {
  }

  lemma {:induction false} StepAccountsDenials(s: State, e: Event, t: Thread)
    requires Enabled(s, e)
    ensures Step(s, e).deniers[t] == s.deniers[t] + DenialChange(s, e, t)
  {
  }

  /** What a thread has acquired by get and not released by put, over a run. */
  function Held(s: State, es: seq<Event>, t: Thread): int
    requires Legal(s, es)
    decreases |es|
  {
    if es == [] then 0 else HoldChange(s, es[0], t) + Held(Step(s, es[0]), es[1..], t)
  }

  /** What a thread has denied and not allowed again. */
  function Denied(s: State, es: seq<Event>, t: Thread): int
    requires Legal(s, es)
    decreases |es|
  {
    if es == [] then 0 else DenialChange(s, es[0], t) + Denied(Step(s, es[0]), es[1..], t)
  }

  /** Conservation over every interleaving: a thread holds exactly what it has
      acquired and not released, whatever the other threads do. */
  lemma {:induction false} HoldersAreAccounted(s: State, es: seq<Event>, t: Thread)
    requires Legal(s, es)
    ensures Run(s, es).writers[t] == s.writers[t] + Held(s, es, t)
    ensures Run(s, es).deniers[t] == s.deniers[t] + Denied(s, es, t)
    decreases |es|
  {
    if es != [] {
      StepAccountsHolds(s, es[0], t);
      StepAccountsDenials(s, es[0], t);
      HoldersAreAccounted(Step(s, es[0]), es[1..], t);
    }
  }

  lemma {:induction false} ShortRunsDoNotOverflow(s: State, es: seq<Event>)
    requires Inv(s) && Legal(s, es) && INT_MIN + |es| <= s.count <= INT_MAX - |es|
    ensures NoOverflow(s, es)
    decreases |es|
  {
    if es != [] {
      StepKeepsInvariant(s, es[0]);
      ShortRunsDoNotOverflow(Step(s, es[0]), es[1..]);
    }
  }

  /** From the initial state, less than 2^31 calls are always safe: in the state
      they lead to, the open-for-write test is right. */
  lemma {:induction false} OpenForWriteIsRight(es: seq<Event>)
    requires Legal(START, es) && |es| <= INT_MAX
    ensures AlwaysInv(START, es)
    ensures Run(START, es).count > 0 <==> Run(START, es).writers != multiset{}
  {
    ShortRunsDoNotOverflow(START, es);
    InterleavingIsSafe(START, es);
    FinalStateIsSafe(START, es);
    CounterTellsHolders(Run(START, es), 0);
  }

  /** Without the bound it fails: with INT_MAX writers, one more turns the counter
      negative, and a deny then succeeds while they all still write. */
  lemma {:induction false} OverflowBreaksExclusion(s: State, t: Thread)
    requires Inv(s) && s.count == INT_MAX
    ensures var s' := Step(s, Get(t));
            Succeeds(s', Deny(t)) && s'.writers != multiset{} && !(s'.count > 0)
  {
    assert t in s.writers + multiset{t};
  }

  /** `n` calls of get by one thread. */
  function Gets(t: Thread, n: nat): seq<Event> {
    if n == 0 then [] else [Get(t)] + Gets(t, n - 1)
  }

  lemma {:induction false} RunSnoc(s: State, es: seq<Event>, e: Event)
    requires Legal(s, es) && Enabled(Run(s, es), e)
    ensures Legal(s, es + [e]) && Run(s, es + [e]) == Step(Run(s, es), e)
    decreases |es|
  {
    if es == [] {
      assert [] + [e] == [e] && [e][1..] == [];
    } else {
      assert (es + [e])[1..] == es[1..] + [e];
      RunSnoc(Step(s, es[0]), es[1..], e);
    }
  }

  /** From any state without deniers, n gets in a row all succeed as long as the
      counter has room: every count up to INT_MAX is reached. */
  lemma {:induction false} GetsReach(s: State, t: Thread, n: nat)
    requires Inv(s) && s.count >= 0 && s.count + n <= INT_MAX
    ensures |Gets(t, n)| == n && Legal(s, Gets(t, n))
    ensures Inv(Run(s, Gets(t, n))) && Run(s, Gets(t, n)).count == s.count + n
    decreases n
  {
    if n > 0 {
      StepKeepsInvariant(s, Get(t));
      GetsReach(Step(s, Get(t)), t, n - 1);
      assert Gets(t, n)[1..] == Gets(t, n - 1);
    }
  }

  /** The bound of OpenForWriteIsRight is exact: 2^31 gets from the initial state
      are a legal run, and the test is wrong in the state they lead to. */
  lemma {:induction false} BoundIsTight(t: Thread)
    ensures var es := Gets(t, INT_MAX) + [Get(t)];
            && |es| == INT_MAX + 1 && Legal(START, es)
            && Run(START, es).writers != multiset{} && !(Run(START, es).count > 0)
            && Succeeds(Run(START, es), Deny(t))
  {
    GetsReach(START, t, INT_MAX);
    RunSnoc(START, Gets(t, INT_MAX), Get(t));
    OverflowBreaksExclusion(Run(START, Gets(t, INT_MAX)), t);
  }

  // ----- the calls -----

  datatype Errno = Ok | ETXTBSY | EPERM | EBUSY

  /** A counter shared by all threads, with its holders. */
  class Counter {
    var value: int
    ghost var writers: multiset<Thread>
    ghost var deniers: multiset<Thread>

    ghost function Model(): State
      reads this
    {
      State(value, writers, deniers)
    }

    constructor ()
      ensures Model() == START
    {
      value := 0;
      writers := multiset{};
      deniers := multiset{};
    }

    method IncUnlessNegative(ghost t: Thread) returns (ok: bool)
      modifies this
      ensures Model() == Step(old(Model()), Get(t)) && ok == Succeeds(old(Model()), Get(t))
    {
      ok := value >= 0;
      if ok {
        value := Wrap(value + 1);
        writers := writers + multiset{t};
      }
    }

    method DecUnlessPositive(ghost t: Thread) returns (ok: bool)
      modifies this
      ensures Model() == Step(old(Model()), Deny(t)) && ok == Succeeds(old(Model()), Deny(t))
    {
      ok := value <= 0;
      if ok {
        value := Wrap(value - 1);
        deniers := deniers + multiset{t};
      }
    }

    method Dec(ghost t: Thread)
      requires Enabled(Model(), Put(t))
      modifies this
      ensures Model() == Step(old(Model()), Put(t))
    {
      value := Wrap(value - 1);
      writers := writers - multiset{t};
    }

    method Inc(ghost t: Thread)
      requires Enabled(Model(), Allow(t))
      modifies this
      ensures Model() == Step(old(Model()), Allow(t))
    {
      value := Wrap(value + 1);
      deniers := deniers - multiset{t};
    }

    /** Whichever call a thread makes. */
    method Perform(e: Event)
      requires Enabled(Model(), e)
      modifies this
      ensures Model() == Step(old(Model()), e)
    {
      match e
      case Get(t) => var _ := IncUnlessNegative(t);
      case Deny(t) => var _ := DecUnlessPositive(t);
      case Put(t) => Dec(t);
      case Allow(t) => Inc(t);
    }
  }

  /** Any interleaving of calls on one counter is a run of the protocol, and
      leaves a consistent state if none of them overflows. */
  method PerformAll(c: Counter, es: seq<Event>)
    requires Legal(c.Model(), es)
    modifies c
    ensures c.Model() == Run(old(c.Model()), es)
    ensures Inv(old(c.Model())) && NoOverflow(old(c.Model()), es) ==> Inv(c.Model())
  {
    ghost var start, rest := c.Model(), es;
    for i := 0 to |es|
      invariant rest == es[i..] && Legal(c.Model(), rest) && Run(c.Model(), rest) == Run(start, es)
    {
      c.Perform(es[i]);
      rest := rest[1..];
    }
    if Inv(start) && NoOverflow(start, es) {
      InterleavingIsSafe(start, es);
      FinalStateIsSafe(start, es);
    }
  }

  class Inode {
    const iWritecount: Counter

    constructor ()
      ensures fresh(iWritecount) && iWritecount.Model() == START
    {
      iWritecount := new Counter();
    }
  }

  class File {
    const inode: Inode

    constructor (inode: Inode)
      ensures this.inode == inode
    {
      this.inode := inode;
    }
  }

  method GetWriteAccess(inode: Inode, ghost t: Thread) returns (e: Errno)
    modifies inode.iWritecount
    ensures inode.iWritecount.Model() == Step(old(inode.iWritecount.Model()), Get(t))
    ensures e == if Succeeds(old(inode.iWritecount.Model()), Get(t)) then Ok else ETXTBSY
  {
    var ok := inode.iWritecount.IncUnlessNegative(t);
    e := if ok then Ok else ETXTBSY;
  }

  method DenyWriteAccess(file: File, ghost t: Thread) returns (e: Errno)
    modifies file.inode.iWritecount
    ensures file.inode.iWritecount.Model() == Step(old(file.inode.iWritecount.Model()), Deny(t))
    ensures e == if Succeeds(old(file.inode.iWritecount.Model()), Deny(t)) then Ok else ETXTBSY
  {
    var ok := file.inode.iWritecount.DecUnlessPositive(t);
    e := if ok then Ok else ETXTBSY;
  }

  method PutWriteAccess(inode: Inode, ghost t: Thread)
    requires Enabled(inode.iWritecount.Model(), Put(t))
    modifies inode.iWritecount
    ensures inode.iWritecount.Model() == Step(old(inode.iWritecount.Model()), Put(t))
  {
    inode.iWritecount.Dec(t);
  }

  /** A null file is ignored. */
  method AllowWriteAccess(file: File?, ghost t: Thread)
    requires file != null ==> Enabled(file.inode.iWritecount.Model(), Allow(t))
    modifies if file == null then {} else {file.inode.iWritecount}
    ensures file != null ==>
              file.inode.iWritecount.Model() == Step(old(file.inode.iWritecount.Model()), Allow(t))
  {
    if file != null {
      file.inode.iWritecount.Inc(t);
    }
  }

  method InodeIsOpenForWrite(inode: Inode) returns (open: bool)
    requires Inv(inode.iWritecount.Model())
    ensures open <==> inode.iWritecount.writers != multiset{}
  {
    CounterTellsHolders(inode.iWritecount.Model(), 0);
    open := inode.iWritecount.value > 0;
  }

  class AddressSpace {
    const iMmapWritable: Counter

    constructor ()
      ensures fresh(iMmapWritable) && iMmapWritable.Model() == START
    {
      iMmapWritable := new Counter();
    }
  }

  method MappingMapWritable(mapping: AddressSpace, ghost t: Thread) returns (e: Errno)
    modifies mapping.iMmapWritable
    ensures mapping.iMmapWritable.Model() == Step(old(mapping.iMmapWritable.Model()), Get(t))
    ensures e == if Succeeds(old(mapping.iMmapWritable.Model()), Get(t)) then Ok else EPERM
  {
    var ok := mapping.iMmapWritable.IncUnlessNegative(t);
    e := if ok then Ok else EPERM;
  }

  method MappingDenyWritable(mapping: AddressSpace, ghost t: Thread) returns (e: Errno)
    modifies mapping.iMmapWritable
    ensures mapping.iMmapWritable.Model() == Step(old(mapping.iMmapWritable.Model()), Deny(t))
    ensures e == if Succeeds(old(mapping.iMmapWritable.Model()), Deny(t)) then Ok else EBUSY
  {
    var ok := mapping.iMmapWritable.DecUnlessPositive(t);
    e := if ok then Ok else EBUSY;
  }

  method MappingUnmapWritable(mapping: AddressSpace, ghost t: Thread)
    requires Enabled(mapping.iMmapWritable.Model(), Put(t))
    modifies mapping.iMmapWritable
    ensures mapping.iMmapWritable.Model() == Step(old(mapping.iMmapWritable.Model()), Put(t))
  {
    mapping.iMmapWritable.Dec(t);
  }

  method MappingAllowWritable(mapping: AddressSpace, ghost t: Thread)
    requires Enabled(mapping.iMmapWritable.Model(), Allow(t))
    modifies mapping.iMmapWritable
    ensures mapping.iMmapWritable.Model() == Step(old(mapping.iMmapWritable.Model()), Allow(t))
  {
    mapping.iMmapWritable.Inc(t);
  }

  method MappingWritablyMapped(mapping: AddressSpace) returns (mapped: bool)
    requires Inv(mapping.iMmapWritable.Model())
    ensures mapped <==> mapping.iMmapWritable.writers != multiset{}
  {
    CounterTellsHolders(mapping.iMmapWritable.Model(), 0);
    mapped := mapping.iMmapWritable.value > 0;
  }
}
