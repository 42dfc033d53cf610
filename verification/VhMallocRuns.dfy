/**
 Runs of the allocator: any sequence of requests, from any threads, is answered as the map from live
 address ranges to tags says. What a lookup finds then follows from the earlier requests and answers alone.
 */
module VhMallocRuns {
  import opened FreeSlots
  import opened MachineWords
  import PageTables
  import opened SlabArithmetic
  import opened SlabPools
  import opened VhMalloc

  datatype Request =
    | NewThread
    | Malloc(thread: nat, size: U64, rand: nat, region: U64)
    | Free(ptr: U64)
    | SetTag(ptr: U64, tag: Tag)
    | Find(ptr: U64)

  /** `Refused` is a request that no caller may make, and `Failed` a failed assertion: the process is gone. */
  datatype Answer = Refused | Failed | Done | NoBlock | NewBlock(base: nat) | Info(info: PointerInfo)

  /** What callers know of the heap: the live blocks, the pages of slabs, and how many threads have pools. */
  datatype Memory = Memory(live: map<nat, Block>, pages: set<nat>, threads: nat)

  // ---------------------------------------------------------------------------------------
  // What callers may rely on
  // ---------------------------------------------------------------------------------------

  ghost predicate InLiveBlock(live: map<nat, Block>, ptr: nat) {
    exists base: nat :: Covers(live, base, ptr)
  }

  /** Pointers into live blocks and to other memory may be freed, in any thread, but not free slots. */
  ghost predicate Allowed(m: Memory, q: Request) {
    match q
    case Malloc(thread, size, _, region) =>
      thread < m.threads && size != 1 && (2 <= size <= Pow2(29) ==> FreshRegion(m.pages, region, PagesFor(size)))
    case Free(ptr) => ptr == 0 || ptr / PAGE !in m.pages || InLiveBlock(m.live, ptr)
    case _ => true
  }

  /** The blocks that do not hold an address. */
  ghost function Without(live: map<nat, Block>, ptr: nat): map<nat, Block> {
    map base | base in live && !Covers(live, base, ptr) :: live[base]
  }

  /** The block that holds an address gets a tag. */
  ghost function Tagged(live: map<nat, Block>, ptr: nat, tag: Tag): map<nat, Block> {
    map base | base in live :: if Covers(live, base, ptr) then live[base].(tag := tag) else live[base]
  }

  ghost predicate CanTag(live: map<nat, Block>, ptr: nat, tag: Tag) {
    tag != 0 && exists base: nat :: Covers(live, base, ptr) && live[base].tag == MAX_TAG
  }

  /** The tag and the offset in the one live block of the address, or zeroes. */
  ghost predicate IsInfo(live: map<nat, Block>, ptr: nat, info: PointerInfo) {
    if info.tag == 0 then info.offset == 0 && !InLiveBlock(live, ptr)
    else info.offset <= ptr && Covers(live, ptr - info.offset, ptr) && live[ptr - info.offset].tag == info.tag
  }

  ghost predicate Allocated(m: Memory, size: nat, region: nat, ptr: nat, m': Memory)
    requires 2 <= size <= Pow2(29)
  {
    && ptr > 0 && Apart(m.live, ptr, ElementSize(Bin(size)))
    && m'.live == m.live[ptr := Block(ElementSize(Bin(size)), MAX_TAG)]
    && GrownBy(m.pages, m'.pages, region, PagesFor(size))
    && m'.threads == m.threads
  }

  /** One request and its answer. */
  ghost predicate Step(m: Memory, q: Request, a: Answer, m': Memory) {
    if !Allowed(m, q) then a == Refused && m' == m
    else
      match q
      case NewThread => a == Done && m' == m.(threads := m.threads + 1)
      case Malloc(_, size, _, region) =>
        if size == 0 then a == NoBlock && m' == m
        else if size > Pow2(29) then a == Failed && m' == m
        else a.NewBlock? && Allocated(m, size, region, a.base, m')
      case Free(ptr) => a == Done && m' == m.(live := Without(m.live, ptr))
      case SetTag(ptr, tag) =>
        if CanTag(m.live, ptr, tag) then a == Done && m' == m.(live := Tagged(m.live, ptr, tag))
        else a == Failed && m' == m
      case Find(ptr) => a.Info? && IsInfo(m.live, ptr, a.info) && m' == m
  }

  ghost predicate StepAt(ms: seq<Memory>, qs: seq<Request>, answers: seq<Answer>, i: nat)
    requires i < |answers| <= |qs| && |ms| == |answers| + 1
  {
    Step(ms[i], qs[i], answers[i], ms[i + 1])
  }

  /** The requests are answered in order, up to the first one that aborts; `ms` are the states in between. */
  ghost predicate IsRun(ms: seq<Memory>, qs: seq<Request>, answers: seq<Answer>) {
    && |answers| <= |qs| && |ms| == |answers| + 1
    && (forall i {:trigger StepAt(ms, qs, answers, i)} | 0 <= i < |answers| :: StepAt(ms, qs, answers, i))
    && (forall i | 0 <= i < |answers| && answers[i] == Failed :: i == |answers| - 1)
    && (|answers| < |qs| ==> answers != [] && answers[|answers| - 1] == Failed)
  }

  // ---------------------------------------------------------------------------------------
  // The allocator keeps to it
  // ---------------------------------------------------------------------------------------

  ghost function MemoryOf(h: Heap): Memory
    reads h, h.table
  {
    Memory(h.live, h.table.marks.Keys, |h.threads|)
  }

  /** Whether the memory is not in use yet, which is for the operating system to know. */
  method IsFreshRegion(h: Heap, region: nat, numPages: nat) returns (r: bool)
    requires h.Valid()
    ensures r <==> FreshRegion(h.table.marks.Keys, region, numPages)
  {
    if region == 0 || region % PAGE != 0 || region / PAGE + numPages > PageTables.PAGES {
      return false;
    }
    for i := 0 to numPages
      invariant forall n: nat | region / PAGE <= n < region / PAGE + i :: n !in h.table.marks.Keys
    {
      assert (region + i * PAGE) / PAGE == region / PAGE + i;
      var entry := h.table.Get(region + i * PAGE);
      if entry.Slab? {
        return false;
      }
    }
    return true;
  }

  method MayAllocate(h: Heap, thread: nat, size: U64, ghost rand: nat, region: U64) returns (r: bool)
    requires h.Valid()
    ensures r <==> Allowed(MemoryOf(h), Malloc(thread, size, rand, region))
  {
    if thread >= |h.threads| || size == 1 {
      return false;
    }
    if size == 0 || size > Pow2(29) {
      return true;
    }
    r := IsFreshRegion(h, region, PagesFor(size));
  }

  method Allocate(h: Heap, thread: nat, size: U64, rand: nat, region: U64) returns (a: Answer)
    requires h.Valid() && Allowed(MemoryOf(h), Malloc(thread, size, rand, region))
    modifies h.Footprint()
    ensures h.Valid() && fresh(h.Footprint() - old(h.Footprint()))
    ensures Step(old(MemoryOf(h)), Malloc(thread, size, rand, region), a, MemoryOf(h))
  {
    hide Heap.Valid, FreshRegion, GrownBy, Apart, PagesFor, Bin, ElementSize;
    var r := h.Malloc(thread, size, rand, region);
    a := match r
      case Aborted => Failed
      case NullPointer => NoBlock
      case Pointer(ptr) => NewBlock(ptr);
  }

  method Release(h: Heap, ptr: U64) returns (a: Answer)
    requires h.Valid()
    modifies h.Footprint()
    ensures h.Valid() && fresh(h.Footprint() - old(h.Footprint()))
    ensures Step(old(MemoryOf(h)), Free(ptr), a, MemoryOf(h))
  {
    var info := h.Of(ptr);
    if info.tag == 0 {
      var entry := h.table.Get(ptr);
      if entry.Slab? {
        return Refused;
      }
    }
    ghost var base := ptr - info.offset;
    OneBlockRemoved(h.table.marks, h.ids, h.live, base, ptr);
    h.Free(ptr, base);
    a := Done;
  }

  /** An address has no more than one live block. */
  lemma OneBlockRemoved(marks: map<nat, Slab>, ids: map<Slab, seq<Tag>>, live: map<nat, Block>, base: nat, ptr: nat)
    requires BlocksOk(marks, ids, live) && (Covers(live, base, ptr) || !InLiveBlock(live, ptr))
    ensures Without(live, ptr) == if Covers(live, base, ptr) then live - {base} else live
    ensures ptr / PAGE !in marks ==> !InLiveBlock(live, ptr)
  {
    forall b | b in live && b != base && Covers(live, base, ptr) ensures !Covers(live, b, ptr) {
      LiveBlocksAreDisjoint(marks, ids, live, if b < base then b else base, if b < base then base else b);
    }
    if ptr / PAGE !in marks {
      NotCovered(marks, ids, live, ptr);
    }
  }

  method Mark(h: Heap, ptr: U64, tag: Tag) returns (a: Answer)
    requires h.Valid()
    modifies h.Footprint()
    ensures h.Valid() && fresh(h.Footprint() - old(h.Footprint()))
    ensures Step(old(MemoryOf(h)), SetTag(ptr, tag), a, MemoryOf(h))
  {
    var ok, base := h.SetTag(ptr, tag);
    if ok {
      OneBlockRemoved(old(h.table.marks), old(h.ids), old(h.live), base, ptr);
      OneBlockTagged(old(h.live), base, ptr, tag);
    }
    a := if ok then Done else Failed;
  }

  lemma OneBlockTagged(live: map<nat, Block>, base: nat, ptr: nat, tag: Tag)
    requires Covers(live, base, ptr) && Without(live, ptr) == live - {base}
    ensures Tagged(live, ptr, tag) == live[base := live[base].(tag := tag)]
  {
    forall b | b in live && b != base ensures !Covers(live, b, ptr) {
      assert b in live - {base};
    }
  }

  method Start(h: Heap) returns (a: Answer)
    requires h.Valid()
    modifies h.Footprint()
    ensures h.Valid() && fresh(h.Footprint() - old(h.Footprint()))
    ensures Step(old(MemoryOf(h)), NewThread, a, MemoryOf(h))
  {
    h.NewThread();
    a := Done;
  }

  method Look(h: Heap, ptr: U64) returns (a: Answer)
    requires h.Valid()
    ensures Step(MemoryOf(h), Find(ptr), a, MemoryOf(h))
  {
    var info := h.Of(ptr);
    a := Info(info);
  }

  method Serve(h: Heap, q: Request) returns (a: Answer)
    requires h.Valid()
    modifies h.Footprint()
    ensures h.Valid() && fresh(h.Footprint() - old(h.Footprint()))
    ensures Step(old(MemoryOf(h)), q, a, MemoryOf(h))
  {
    hide Step, Allowed, Heap.Valid;
    match q
    case NewThread =>
      a := Start(h);
    case Malloc(thread, size, rand, region) =>
      var allowed := MayAllocate(h, thread, size, rand, region);
      if allowed {
        a := Allocate(h, thread, size, rand, region);
      } else {
        a := Refused;
        RefusedStep(MemoryOf(h), q);
      }
    case Free(ptr) =>
      a := Release(h, ptr);
    case SetTag(ptr, tag) =>
      a := Mark(h, ptr, tag);
    case Find(ptr) =>
      a := Look(h, ptr);
  }

  lemma RefusedStep(m: Memory, q: Request)
    requires !Allowed(m, q)
    ensures Step(m, q, Refused, m)
  {
  }

  /** Any requests in any order: every answer is what the map of live blocks says. */
  method Run(h: Heap, qs: seq<Request>) returns (answers: seq<Answer>, ghost ms: seq<Memory>)
    requires h.Valid()
    modifies h.Footprint()
    ensures h.Valid() && fresh(h.Footprint() - old(h.Footprint()))
    ensures IsRun(ms, qs, answers) && ms[0] == old(MemoryOf(h)) && ms[|answers|] == MemoryOf(h)
    ensures WellFormed(ms[0].live)
  {
    hide Step, Heap.Valid, RunSoFar, IsRun, WellFormed;
    HeapIsWellFormed(h);
    answers, ms := [], [MemoryOf(h)];
    NothingServed(MemoryOf(h), qs);
    while |answers| < |qs|
      invariant h.Valid() && fresh(h.Footprint() - old(h.Footprint()))
      invariant |answers| <= |qs| && |ms| == |answers| + 1 && RunSoFar(ms, qs, answers)
      invariant ms[0] == old(MemoryOf(h)) && ms[|answers|] == MemoryOf(h)
      decreases |qs| - |answers|
    {
      var a := Serve(h, qs[|answers|]);
      OneMore(ms, qs, answers, a, MemoryOf(h));
      answers, ms := answers + [a], ms + [MemoryOf(h)];
      if a == Failed {
        return;
      }
    }
    AllServed(ms, qs, answers);
  }

  /** A run in which nothing has aborted so far. */
  ghost predicate RunSoFar(ms: seq<Memory>, qs: seq<Request>, answers: seq<Answer>)
    requires |answers| <= |qs|
  {
    IsRun(ms, qs[..|answers|], answers) && Failed !in answers
  }

  lemma NothingServed(m: Memory, qs: seq<Request>)
    ensures RunSoFar([m], qs, [])
  {
  }

  lemma AllServed(ms: seq<Memory>, qs: seq<Request>, answers: seq<Answer>)
    requires |answers| == |qs| && RunSoFar(ms, qs, answers)
    ensures IsRun(ms, qs, answers)
  {
    assert qs[..|qs|] == qs;
  }

  lemma OneMore(ms: seq<Memory>, qs: seq<Request>, answers: seq<Answer>, a: Answer, m': Memory)
    requires |answers| < |qs| && RunSoFar(ms, qs, answers) && Step(ms[|answers|], qs[|answers|], a, m')
    ensures if a == Failed then IsRun(ms + [m'], qs, answers + [a]) else RunSoFar(ms + [m'], qs, answers + [a])
  {
    hide Step;
    var ms', answers' := ms + [m'], answers + [a];
    var n := |answers|;
    forall i | 0 <= i <= n ensures Step(ms'[i], qs[i], answers'[i], ms'[i + 1]) {
      assert i < n ==> StepAt(ms, qs[..n], answers, i);
    }
  }

  // ---------------------------------------------------------------------------------------
  // What follows from the requests and answers alone
  // ---------------------------------------------------------------------------------------

  ghost predicate BlockOk(live: map<nat, Block>, base: nat)
    requires base in live
  {
    base > 0 && live[base].size > 0 && live[base].tag != 0 && Apart(live - {base}, base, live[base].size)
  }

  /** Blocks are not empty, have tags, and do not overlap. */
  ghost predicate WellFormed(live: map<nat, Block>) {
    forall base {:trigger BlockOk(live, base)} | base in live :: BlockOk(live, base)
  }

  lemma ApartFromOthers(live: map<nat, Block>, a: nat, b: nat)
    requires a in live && b in live && Apart(live - {a}, a, live[a].size)
    ensures a == b || b + live[b].size <= a || a + live[a].size <= b
  {
    assert a == b || (b in live - {a} && (live - {a})[b] == live[b]);
  }

  lemma OneBlockOnly(live: map<nat, Block>, a: nat, b: nat, ptr: nat)
    requires WellFormed(live) && Covers(live, a, ptr) && Covers(live, b, ptr)
    ensures a == b
  {
    assert BlockOk(live, a);
    ApartFromOthers(live, a, b);
  }

  lemma StepKeepsWellFormed(m: Memory, q: Request, a: Answer, m': Memory)
    requires WellFormed(m.live) && Step(m, q, a, m')
    ensures WellFormed(m'.live)
  {
    if q.Malloc? && 2 <= q.size <= Pow2(29) {
      BinIsLeast(q.size, Bin(q.size));
    }
    forall base | base in m'.live ensures BlockOk(m'.live, base) {
      assert base in m.live ==> BlockOk(m.live, base);
      forall b | b in m'.live - {base} ensures b + m'.live[b].size <= base || base + m'.live[base].size <= b {
        assert b in m.live && base in m.live ==> (m.live - {base})[b] == m.live[b];
        assert b in m.live ==> BlockOk(m.live, b);
      }
    }
  }

  /** In every state of every run, the live blocks do not overlap. */
  lemma {:induction false} RunKeepsWellFormed(ms: seq<Memory>, qs: seq<Request>, answers: seq<Answer>, j: nat)
    requires IsRun(ms, qs, answers) && WellFormed(ms[0].live) && j <= |answers|
    ensures WellFormed(ms[j].live)
  {
    hide Step, WellFormed;
    if j > 0 {
      RunKeepsWellFormed(ms, qs, answers, j - 1);
      assert StepAt(ms, qs, answers, j - 1);
      StepKeepsWellFormed(ms[j - 1], qs[j - 1], answers[j - 1], ms[j]);
    }
  }

  predicate Within(base: nat, size: nat, ptr: nat) {
    base <= ptr < base + size
  }

  /** A successful request for an address range: to free it, or to tag it. */
  predicate Frees(q: Request, a: Answer, base: nat, size: nat) {
    q.Free? && a == Done && Within(base, size, q.ptr)
  }

  predicate Tags(q: Request, a: Answer, base: nat, size: nat) {
    q.SetTag? && a == Done && Within(base, size, q.ptr)
  }

  predicate NotFreed(qs: seq<Request>, answers: seq<Answer>, first: nat, end: nat, base: nat, size: nat)
    requires end <= |answers| <= |qs|
  {
    forall k | first <= k < end :: !Frees(qs[k], answers[k], base, size)
  }

  /** The tag that an address range has got between two requests. */
  function LastTag(qs: seq<Request>, answers: seq<Answer>, first: nat, end: nat, base: nat, size: nat): Tag
    requires end <= |answers| <= |qs|
    decreases end
  {
    if end <= first then MAX_TAG
    else if Tags(qs[end - 1], answers[end - 1], base, size) then qs[end - 1].tag
    else LastTag(qs, answers, first, end - 1, base, size)
  }

  /** Request `i` allocated the block at `base`, of this size. */
  predicate Allocates(qs: seq<Request>, answers: seq<Answer>, i: nat, base: nat, size: nat)
    requires i < |answers| <= |qs|
  {
    && qs[i].Malloc? && answers[i] == NewBlock(base)
    && 2 <= qs[i].size <= Pow2(29) && size == ElementSize(Bin(qs[i].size))
  }

  /** A block stays until it is freed, and only a successful `setTag` changes its tag. */
  lemma StepKeepsBlock(m: Memory, q: Request, a: Answer, m': Memory, base: nat)
    requires WellFormed(m.live) && Step(m, q, a, m') && base in m.live
    ensures Frees(q, a, base, m.live[base].size) <==> base !in m'.live
    ensures base in m'.live ==>
      m'.live[base] ==
        Block(m.live[base].size, if Tags(q, a, base, m.live[base].size) then q.tag else m.live[base].tag)
  {
    assert BlockOk(m.live, base);
    if q.Free? && a == Done && InLiveBlock(m.live, q.ptr) {
      assert Covers(m.live, base, q.ptr) <==> Frees(q, a, base, m.live[base].size);
    }
  }

  lemma {:induction false} BlockStays(
      ms: seq<Memory>, qs: seq<Request>, answers: seq<Answer>, i: nat, j: nat, base: nat, size: nat)
    requires IsRun(ms, qs, answers) && WellFormed(ms[0].live) && i < j <= |answers|
    requires Allocates(qs, answers, i, base, size) && NotFreed(qs, answers, i + 1, j, base, size)
    ensures base in ms[j].live && ms[j].live[base] == Block(size, LastTag(qs, answers, i + 1, j, base, size))
    decreases j
  {
    assert StepAt(ms, qs, answers, j - 1);
    if j > i + 1 {
      BlockStays(ms, qs, answers, i, j - 1, base, size);
      RunKeepsWellFormed(ms, qs, answers, j - 1);
      StepKeepsBlock(ms[j - 1], qs[j - 1], answers[j - 1], ms[j], base);
    }
  }

  /** Until a block is freed, any address in it is found, with its offset and the tag the block has got. */
  lemma AllocatedIsFound(
      ms: seq<Memory>, qs: seq<Request>, answers: seq<Answer>, i: nat, j: nat, base: nat, size: nat)
    requires IsRun(ms, qs, answers) && WellFormed(ms[0].live) && i < j < |answers|
    requires Allocates(qs, answers, i, base, size) && NotFreed(qs, answers, i + 1, j, base, size)
    requires qs[j].Find? && Within(base, size, qs[j].ptr)
    ensures answers[j] == Info(PointerInfo(LastTag(qs, answers, i + 1, j, base, size), qs[j].ptr - base))
  {
    BlockStays(ms, qs, answers, i, j, base, size);
    RunKeepsWellFormed(ms, qs, answers, j);
    assert StepAt(ms, qs, answers, j) && BlockOk(ms[j].live, base) && Covers(ms[j].live, base, qs[j].ptr);
    OneBlockOnly(ms[j].live, base, qs[j].ptr - answers[j].info.offset, qs[j].ptr);
  }

  /** A block that is live has been allocated in the run, and not been freed since. */
  lemma {:induction false} LiveWasAllocated(
      ms: seq<Memory>, qs: seq<Request>, answers: seq<Answer>, j: nat, base: nat) returns (i: nat)
    requires IsRun(ms, qs, answers) && ms[0].live == map[] && j <= |answers| && base in ms[j].live
    ensures i < j && Allocates(qs, answers, i, base, ms[j].live[base].size)
    ensures NotFreed(qs, answers, i + 1, j, base, ms[j].live[base].size)
    decreases j
  {
    assert StepAt(ms, qs, answers, j - 1);
    RunKeepsWellFormed(ms, qs, answers, j - 1);
    if base in ms[j - 1].live {
      StepKeepsBlock(ms[j - 1], qs[j - 1], answers[j - 1], ms[j], base);
      i := LiveWasAllocated(ms, qs, answers, j - 1, base);
    } else {
      i := j - 1;
    }
  }

  /** What is found was allocated in the run, and not freed since; there is nothing else at any other address. */
  lemma FoundWasAllocated(ms: seq<Memory>, qs: seq<Request>, answers: seq<Answer>, j: nat)
      returns (i: nat, base: nat, size: nat)
    requires IsRun(ms, qs, answers) && ms[0].live == map[] && j < |answers|
    requires qs[j].Find? && answers[j] != Info(PointerInfo(0, 0))
    ensures i < j && Allocates(qs, answers, i, base, size) && NotFreed(qs, answers, i + 1, j, base, size)
    ensures Within(base, size, qs[j].ptr)
  {
    assert StepAt(ms, qs, answers, j);
    base := qs[j].ptr - answers[j].info.offset;
    size := ms[j].live[base].size;
    i := LiveWasAllocated(ms, qs, answers, j, base);
  }

  /** Two allocations without a free of the first in between have no address in common. */
  lemma AllocationsAreDisjoint(
      ms: seq<Memory>, qs: seq<Request>, answers: seq<Answer>,
      i: nat, base: nat, size: nat, j: nat, base': nat, size': nat)
    requires IsRun(ms, qs, answers) && WellFormed(ms[0].live) && i < j < |answers|
    requires Allocates(qs, answers, i, base, size) && NotFreed(qs, answers, i + 1, j, base, size)
    requires Allocates(qs, answers, j, base', size')
    ensures base + size <= base' || base' + size' <= base
  {
    BlockStays(ms, qs, answers, i, j, base, size);
    assert StepAt(ms, qs, answers, j);
  }

  /** A tag is for life: a block that has one cannot be tagged again, and one that has none can. */
  lemma TagIsForLife(
      ms: seq<Memory>, qs: seq<Request>, answers: seq<Answer>, i: nat, j: nat, base: nat, size: nat)
    requires IsRun(ms, qs, answers) && WellFormed(ms[0].live) && i < j < |answers|
    requires Allocates(qs, answers, i, base, size) && NotFreed(qs, answers, i + 1, j, base, size)
    requires qs[j].SetTag? && qs[j].tag != 0 && Within(base, size, qs[j].ptr)
    ensures answers[j] == if LastTag(qs, answers, i + 1, j, base, size) == 0xFFFF_FFFF_FFFF_FFFF then Done else Failed
  {
    BlockStays(ms, qs, answers, i, j, base, size);
    RunKeepsWellFormed(ms, qs, answers, j);
    assert StepAt(ms, qs, answers, j) && Covers(ms[j].live, base, qs[j].ptr);
    forall b: nat | Covers(ms[j].live, b, qs[j].ptr) ensures b == base {
      OneBlockOnly(ms[j].live, base, b, qs[j].ptr);
    }
  }

  lemma HeapIsWellFormed(h: Heap)
    requires h.Valid()
    ensures WellFormed(h.live)
  {
    var live := h.live;
    forall base | base in live ensures BlockOk(live, base) {
      assert (live - {base})[base := live[base]] == live;
      NewBlockIsApart(h.table.marks, h.ids, live - {base}, base, live[base]);
      BlockIsNotEmpty(h.table.marks, h.ids, live, base);
      assert LiveAt(h.table.marks, h.ids, live, base);
    }
  }

  /** A run of a whole process, from a heap without threads and blocks. */
  method RunProcess(qs: seq<Request>) returns (answers: seq<Answer>, ghost ms: seq<Memory>)
    ensures IsRun(ms, qs, answers) && ms[0] == Memory(map[], {}, 0)
    ensures forall j | 0 <= j <= |answers| :: WellFormed(ms[j].live)
  {
    var h := new Heap();
    answers, ms := Run(h, qs);
    forall j | 0 <= j <= |answers| ensures WellFormed(ms[j].live) {
      RunKeepsWellFormed(ms, qs, answers, j);
    }
  }
}
