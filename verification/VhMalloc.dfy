/**
 The allocator as a whole: the pools of all threads, and the table that finds the slab of an address.
 `live` is what the rest of the tracer may rely on: a map from disjoint address ranges to tags.
 Each operation runs under the lock of one pool, so it is one step.
 */
module VhMalloc {
  import opened FreeSlots
  import opened MachineWords
  import opened SlabArithmetic
  import opened SlabPools
  import PageTables

  const MAX_TAG: Tag := 0xFFFF_FFFF_FFFF_FFFF
  const ADDRESSES: nat := TWO_64

  datatype Block = Block(size: nat, tag: Tag)
  datatype Lookup = Nothing | Found(block: Block)

  /** The mark of the page of an address. */
  ghost predicate MarkedAs(marks: map<nat, Slab>, ptr: nat, slab: Slab) {
    ptr / PAGE in marks && marks[ptr / PAGE] == slab
  }

  ghost predicate HeldIffMarked(marks: map<nat, Slab>, slab: Slab, ptr: nat) {
    slab.Holds(ptr) <==> MarkedAs(marks, ptr, slab)
  }

  /** Every slab is marked for exactly the addresses it holds, and none holds the null pointer. */
  ghost predicate MarksOk(marks: map<nat, Slab>, slabs: set<Slab>) {
    && 0 !in marks
    && (forall n | n in marks :: marks[n] in slabs)
    && (forall slab, ptr: nat | slab in slabs :: HeldIffMarked(marks, slab, ptr))
  }

  /** The block that starts at an address, according to the ids. */
  ghost function BlockIn(slab: Slab, ids: seq<Tag>, base: nat): Lookup {
    if slab.Holds(base) && slab.AddressOf(slab.ElementAt(base)) == base
       && slab.ElementAt(base) < |ids| && ids[slab.ElementAt(base)] != 0
    then Found(Block(slab.pool.elementSize, ids[slab.ElementAt(base)]))
    else Nothing
  }

  /** Writing an id changes the block that starts at the address of the element, and no other. */
  lemma BlockInUpdate(slab: Slab, ids: seq<Tag>, index: nat, tag: Tag, base: nat)
    requires index < |ids| == slab.capacity && slab.pool.elementSize > 0
    ensures BlockIn(slab, ids[index := tag], base) ==
      if base != slab.AddressOf(index) then BlockIn(slab, ids, base)
      else if tag == 0 then Nothing else Found(Block(slab.pool.elementSize, tag))
  {
    ElementOfAddress(slab, index, 0);
  }

  lemma BlockInFresh(slab: Slab, base: nat)
    ensures BlockIn(slab, FreshIds(slab.capacity), base) == Nothing
  {
  }

  /** The block that starts at an address, found through the mark of its page. */
  ghost function BlockAt(marks: map<nat, Slab>, ids: map<Slab, seq<Tag>>, base: nat): Lookup {
    var n := base / PAGE;
    if n in marks && marks[n] in ids then BlockIn(marks[n], ids[marks[n]], base) else Nothing
  }

  ghost predicate LiveAt(marks: map<nat, Slab>, ids: map<Slab, seq<Tag>>, live: map<nat, Block>, base: nat) {
    BlockAt(marks, ids, base) == if base in live then Found(live[base]) else Nothing
  }

  /** The live blocks are those that the ids say. */
  ghost predicate LiveOk(marks: map<nat, Slab>, ids: map<Slab, seq<Tag>>, live: map<nat, Block>) {
    forall base: nat :: LiveAt(marks, ids, live, base)
  }

  function SetBlock(live: map<nat, Block>, base: nat, size: nat, tag: Tag): map<nat, Block> {
    if tag == 0 then live - {base} else live[base := Block(size, tag)]
  }

  ghost predicate IdsFit(ids: map<Slab, seq<Tag>>) {
    forall slab | slab in ids :: |ids[slab]| == slab.capacity && slab.pool.elementSize > 0
  }

  ghost function WithId(ids: map<Slab, seq<Tag>>, slab: Slab, index: nat, tag: Tag): map<Slab, seq<Tag>>
    requires slab in ids && index < |ids[slab]|
  {
    var written: seq<Tag> := ids[slab][index := tag];
    ids[slab := written]
  }

  lemma MarkOfElement(marks: map<nat, Slab>, slabs: set<Slab>, slab: Slab, index: nat)
    requires MarksOk(marks, slabs) && slab in slabs && index < slab.capacity && slab.pool.elementSize > 0
    ensures MarkedAs(marks, slab.AddressOf(index), slab)
  {
    ElementOfAddress(slab, index, 0);
    assert HeldIffMarked(marks, slab, slab.AddressOf(index));
  }

  /** Writing one id changes one block. */
  lemma LiveAfterWrite(
      marks: map<nat, Slab>, ids: map<Slab, seq<Tag>>, live: map<nat, Block>, slab: Slab, index: nat, tag: Tag)
    requires MarksOk(marks, ids.Keys) && IdsFit(ids) && LiveOk(marks, ids, live)
    requires slab in ids && index < |ids[slab]|
    ensures IdsFit(WithId(ids, slab, index, tag)) && WithId(ids, slab, index, tag).Keys == ids.Keys
    ensures LiveOk(
      marks, WithId(ids, slab, index, tag), SetBlock(live, slab.AddressOf(index), slab.pool.elementSize, tag))
  {
    MarkOfElement(marks, ids.Keys, slab, index);
    var ids', live' := WithId(ids, slab, index, tag), SetBlock(live, slab.AddressOf(index), slab.pool.elementSize, tag);
    forall base: nat
      ensures LiveAt(marks, ids', live', base)
    {
      BlockInUpdate(slab, ids[slab], index, tag, base);
      assert LiveAt(marks, ids, live, base);
    }
  }

  /** A new slab has no blocks. */
  lemma LiveAfterGrowth(
      marks: map<nat, Slab>, marks': map<nat, Slab>, ids: map<Slab, seq<Tag>>, live: map<nat, Block>, slab: Slab)
    requires LiveOk(marks, ids, live) && slab !in ids
    requires forall n: nat | n in marks :: n in marks' && marks'[n] == marks[n]
    requires forall n: nat | n in marks' && n !in marks :: marks'[n] == slab
    ensures LiveOk(marks', ids[slab := FreshIds(slab.capacity)], live)
  {
    var ids' := ids[slab := FreshIds(slab.capacity)];
    forall base: nat
      ensures LiveAt(marks', ids', live, base)
    {
      BlockInFresh(slab, base);
      assert LiveAt(marks, ids, live, base);
    }
  }

  /** The pages `first` to `first + count` of a new slab get its mark. */
  lemma MarksAfterGrowth(marks: map<nat, Slab>, slabs: set<Slab>, slab: Slab, count: nat)
    requires MarksOk(marks, slabs) && slab !in slabs
    requires slab.objects > 0 && slab.objects % PAGE == 0 && slab.capacity * slab.pool.elementSize == count * PAGE
    requires forall n: nat | slab.objects / PAGE <= n < slab.objects / PAGE + count :: n !in marks
    ensures MarksOk(Marked(marks, slab.objects / PAGE, count, slab), slabs + {slab})
    ensures forall n: nat | n in marks ::
      && n in Marked(marks, slab.objects / PAGE, count, slab)
      && Marked(marks, slab.objects / PAGE, count, slab)[n] == marks[n]
    ensures forall n: nat | n in Marked(marks, slab.objects / PAGE, count, slab) && n !in marks ::
      Marked(marks, slab.objects / PAGE, count, slab)[n] == slab
  {
    var first := slab.objects / PAGE;
    var marks' := Marked(marks, first, count, slab);
    forall n: nat
      ensures n in marks' <==> n in marks || first <= n < first + count
      ensures n in marks' ==> marks'[n] == if first <= n < first + count then slab else marks[n]
    {
      MarkedAt(marks, first, count, slab, n);
    }
    forall s, ptr: nat | s in slabs + {slab} ensures HeldIffMarked(marks', s, ptr) {
      if s != slab {
        assert HeldIffMarked(marks, s, ptr);
      } else {
        HoldsByPage(slab, count, ptr);
        assert MarkedAs(marks, ptr, slab) ==> slab in slabs;
      }
    }
  }

  lemma HoldsByPage(slab: Slab, count: nat, ptr: nat)
    requires slab.objects % PAGE == 0 && slab.capacity * slab.pool.elementSize == count * PAGE
    ensures slab.Holds(ptr) <==>
      slab.objects / PAGE <= ptr / PAGE < slab.objects / PAGE + count
  {
  }

  ghost predicate BlocksOk(marks: map<nat, Slab>, ids: map<Slab, seq<Tag>>, live: map<nat, Block>) {
    IdsFit(ids) && MarksOk(marks, ids.Keys) && LiveOk(marks, ids, live)
  }

  /** Adding a slab for new pages changes no block. */
  lemma BlocksAfterGrowth(
      marks: map<nat, Slab>, ids: map<Slab, seq<Tag>>, live: map<nat, Block>, slab: Slab, count: nat)
    requires BlocksOk(marks, ids, live) && slab !in ids && slab.pool.elementSize > 0
    requires slab.objects > 0 && slab.objects % PAGE == 0 && slab.capacity * slab.pool.elementSize == count * PAGE
    requires forall n: nat | slab.objects / PAGE <= n < slab.objects / PAGE + count :: n !in marks
    ensures BlocksOk(Marked(marks, slab.objects / PAGE, count, slab), ids[slab := FreshIds(slab.capacity)], live)
  {
    MarksAfterGrowth(marks, ids.Keys, slab, count);
    LiveAfterGrowth(marks, Marked(marks, slab.objects / PAGE, count, slab), ids, live, slab);
    assert ids[slab := FreshIds(slab.capacity)].Keys == ids.Keys + {slab};
  }

  /** No block starts at a free element. */
  lemma FreeElement(marks: map<nat, Slab>, ids: map<Slab, seq<Tag>>, live: map<nat, Block>, slab: Slab, index: nat)
    requires MarksOk(marks, ids.Keys) && IdsFit(ids) && LiveOk(marks, ids, live)
    requires slab in ids && index < |ids[slab]| && ids[slab][index] == 0
    ensures slab.AddressOf(index) !in live
  {
    MarkOfElement(marks, ids.Keys, slab, index);
    ElementOfAddress(slab, index, 0);
    assert LiveAt(marks, ids, live, slab.AddressOf(index));
  }

  /** An address range is part of a live block. */
  ghost predicate Covers(live: map<nat, Block>, base: nat, ptr: nat) {
    base in live && base <= ptr < base + live[base].size
  }

  /** The lookup of an address in a live block leads to the block. */
  lemma LookupOfCovered(
      marks: map<nat, Slab>, ids: map<Slab, seq<Tag>>, live: map<nat, Block>, base: nat, ptr: nat) returns (slab: Slab)
    requires MarksOk(marks, ids.Keys) && IdsFit(ids) && LiveOk(marks, ids, live)
    requires Covers(live, base, ptr)
    ensures slab in ids && MarkedAs(marks, ptr, slab) && slab.Holds(ptr)
    ensures slab.AddressOf(slab.ElementAt(ptr)) == base
    ensures ids[slab][slab.ElementAt(ptr)] != 0
    ensures live[base] == Block(slab.pool.elementSize, ids[slab][slab.ElementAt(ptr)])
  {
    assert LiveAt(marks, ids, live, base);
    slab := marks[base / PAGE];
    ElementOfAddress(slab, slab.ElementAt(base), ptr - base);
    assert HeldIffMarked(marks, slab, ptr);
  }

  /** An address whose element has an id is in the live block of the element. */
  lemma CoveredByElement(marks: map<nat, Slab>, ids: map<Slab, seq<Tag>>, live: map<nat, Block>, slab: Slab, ptr: nat)
    requires MarksOk(marks, ids.Keys) && IdsFit(ids) && LiveOk(marks, ids, live)
    requires slab in ids && slab.Holds(ptr) && ids[slab][slab.ElementAt(ptr)] != 0
    ensures Covers(live, slab.AddressOf(slab.ElementAt(ptr)), ptr)
    ensures live[slab.AddressOf(slab.ElementAt(ptr))] == Block(slab.pool.elementSize, ids[slab][slab.ElementAt(ptr)])
  {
    var index := slab.ElementAt(ptr);
    AddressOfElement(slab, ptr);
    ElementOfAddress(slab, index, 0);
    MarkOfElement(marks, ids.Keys, slab, index);
    assert LiveAt(marks, ids, live, slab.AddressOf(index));
  }

  /** The addresses of other memory and of free elements are in no live block. */
  lemma NotCovered(marks: map<nat, Slab>, ids: map<Slab, seq<Tag>>, live: map<nat, Block>, ptr: nat)
    requires MarksOk(marks, ids.Keys) && IdsFit(ids) && LiveOk(marks, ids, live)
    requires var n := ptr / PAGE;
      n in marks ==> marks[n] in ids && marks[n].Holds(ptr) && ids[marks[n]][marks[n].ElementAt(ptr)] == 0
    ensures forall base: nat :: !Covers(live, base, ptr)
  {
    forall base: nat ensures !Covers(live, base, ptr) {
      if Covers(live, base, ptr) {
        var slab := LookupOfCovered(marks, ids, live, base, ptr);
      }
    }
  }

  /** The tag of the block of an address is the id of its element. */
  lemma OtherTag(marks: map<nat, Slab>, ids: map<Slab, seq<Tag>>, live: map<nat, Block>, slab: Slab, ptr: nat)
    requires BlocksOk(marks, ids, live) && slab in ids && MarkedAs(marks, ptr, slab) && slab.Holds(ptr)
    ensures forall b: nat | Covers(live, b, ptr) :: live[b].tag == ids[slab][slab.ElementAt(ptr)]
  {
    forall b: nat | Covers(live, b, ptr) ensures live[b].tag == ids[slab][slab.ElementAt(ptr)] {
      var slab' := LookupOfCovered(marks, ids, live, b, ptr);
    }
  }

  /** Live blocks do not overlap. */
  lemma LiveBlocksAreDisjoint(
      marks: map<nat, Slab>, ids: map<Slab, seq<Tag>>, live: map<nat, Block>, base: nat, base': nat)
    requires BlocksOk(marks, ids, live) && base in live && base' in live && base < base'
    ensures base + live[base].size <= base'
  {
    if base' < base + live[base].size {
      BlockIsNotEmpty(marks, ids, live, base');
      var slab := LookupOfCovered(marks, ids, live, base, base');
      var slab' := LookupOfCovered(marks, ids, live, base', base');
    }
  }

  lemma BlockIsNotEmpty(marks: map<nat, Slab>, ids: map<Slab, seq<Tag>>, live: map<nat, Block>, base: nat)
    requires BlocksOk(marks, ids, live) && base in live
    ensures live[base].size > 0
  {
    assert LiveAt(marks, ids, live, base);
  }

  datatype Allocation = Aborted | NullPointer | Pointer(ptr: nat)

  datatype PointerInfo = PointerInfo(tag: Tag, offset: nat)

  /** Memory that `mmap` may return for `numPages` pages: not null, page aligned, in user space, and not in use. */
  ghost predicate FreshRegion(pages: set<nat>, region: nat, numPages: nat) {
    && region > 0 && region % PAGE == 0
    && region / PAGE + numPages <= PageTables.PAGES
    && forall n: nat | region / PAGE <= n < region / PAGE + numPages :: n !in pages
  }

  /** The pages of the slab that an allocation of this size may need. */
  function PagesFor(size: nat): nat
    requires 2 <= size <= Pow2(29)
  {
    NumPages(ElementSize(Bin(size)), 2 * OVERPROVISION)
  }

  /** The pages `first` to `first + count` are added to those in use. */
  ghost predicate PagesAdded(pages: set<nat>, pages': set<nat>, first: nat, count: nat) {
    forall n: nat :: n in pages' <==> n in pages || first <= n < first + count
  }

  lemma KeysOfMarked(marks: map<nat, Slab>, slab: Slab, first: nat, count: nat)
    ensures PagesAdded(marks.Keys, Marked(marks, first, count, slab).Keys, first, count)
  {
    forall n: nat ensures n in Marked(marks, first, count, slab) <==> n in marks || first <= n < first + count {
      MarkedAt(marks, first, count, slab, n);
    }
  }

  /** The pages in use after a call that may have needed a new slab. */
  ghost predicate GrownBy(pages: set<nat>, pages': set<nat>, region: nat, numPages: nat) {
    pages' == pages || PagesAdded(pages, pages', region / PAGE, numPages)
  }

  /** An address range has no byte in common with the live blocks. */
  ghost predicate Apart(live: map<nat, Block>, base: nat, size: nat) {
    forall b {:trigger live[b]} | b in live :: b + live[b].size <= base || base + size <= b
  }

  /** A block that is the only new one has a place of its own, and not at the null pointer. */
  lemma NewBlockIsApart(marks: map<nat, Slab>, ids: map<Slab, seq<Tag>>, live: map<nat, Block>, base: nat, block: Block)
    requires base !in live && BlocksOk(marks, ids, live[base := block])
    ensures base > 0 && Apart(live, base, block.size)
  {
    assert LiveAt(marks, ids, live[base := block], base);
    forall b | b in live ensures b + live[b].size <= base || base + block.size <= b {
      if b < base {
        LiveBlocksAreDisjoint(marks, ids, live[base := block], b, base);
      } else {
        LiveBlocksAreDisjoint(marks, ids, live[base := block], base, b);
      }
    }
  }

  class Heap {
    const table: PageTables.PageTable<Slab>
    var threads: seq<seq<Pool>>
    ghost var pools: set<Pool>
    /** All slabs, with their ids. */
    ghost var ids: map<Slab, seq<Tag>>
    ghost var live: map<nat, Block>

    ghost predicate PoolOk(pool: Pool, ids: map<Slab, seq<Tag>>)
      reads pool, ids.Keys
    {
      pool.nodes <= ids.Keys && pool.Valid() && forall s | s in pool.nodes :: s.pool == pool
    }

    ghost predicate SlabOk(pools: set<Pool>, slab: Slab, tags: seq<Tag>)
      reads slab`ids, pools`nodes
    {
      slab.pool in pools && slab in slab.pool.nodes && slab.ids == tags
    }

    ghost predicate PoolsOk(pools: set<Pool>, ids: map<Slab, seq<Tag>>)
      reads pools, ids.Keys
    {
      && (forall p {:trigger PoolOk(p, ids)} | p in pools :: PoolOk(p, ids))
      && (forall s {:trigger SlabOk(pools, s, ids[s])} | s in ids :: SlabOk(pools, s, ids[s]))
    }

    ghost predicate ThreadsOk()
      reads `threads, `pools
    {
      forall t | 0 <= t < |threads| ::
        |threads[t]| == NUM_POOLS && forall b | 0 <= b < NUM_POOLS :: threads[t][b] in pools && threads[t][b].bin == b
    }

    ghost predicate Valid()
      reads this, table, table.regions, table.repr, pools, ids.Keys
    {
      table.Valid() && PoolsOk(pools, ids) && BlocksOk(table.marks, ids, live) && ThreadsOk()
    }

    /** The objects that the heap may change. */
    ghost function Footprint(): set<object>
      reads this, table
    {
      {this, table, table.regions} + table.repr + pools + ids.Keys
    }

    constructor ()
      ensures Valid() && fresh(Footprint())
      ensures live == map[] && threads == [] && table.marks == map[]
    {
      table := new PageTables.PageTable();
      threads := [];
      pools, ids, live := {}, map[], map[];
    }

    /** The first allocation of a thread sets up its pools. */
    method NewThread()
      requires Valid()
      modifies this
      ensures Valid() && fresh(Footprint() - old(Footprint()))
      ensures |threads| == |old(threads)| + 1 && threads[..|old(threads)|] == old(threads)
      ensures live == old(live)
    {
      var sizedPools: seq<Pool> := [];
      for bin := 0 to NUM_POOLS
        modifies {}
        invariant |sizedPools| == bin
        invariant forall b | 0 <= b < bin ::
          fresh(sizedPools[b]) && sizedPools[b].bin == b && PoolOk(sizedPools[b], ids)
      {
        var pool := new Pool(bin);
        assert PoolOk(pool, ids);
        sizedPools := sizedPools + [pool];
      }
      AddPools(sizedPools);
    }

    method AddPools(sizedPools: seq<Pool>)
      requires Valid() && |sizedPools| == NUM_POOLS
      requires forall b | 0 <= b < NUM_POOLS :: sizedPools[b].bin == b && PoolOk(sizedPools[b], ids)
      modifies `threads, `pools
      ensures Valid() && threads == old(threads) + [sizedPools]
      ensures pools == old(pools) + (set p | p in sizedPools)
    {
      MorePools(sizedPools);
      threads := threads + [sizedPools];
      pools := pools + (set p | p in sizedPools);
    }

    lemma MorePools(sizedPools: seq<Pool>)
      requires PoolsOk(pools, ids)
      requires forall b | 0 <= b < |sizedPools| :: PoolOk(sizedPools[b], ids)
      ensures PoolsOk(pools + (set p | p in sizedPools), ids)
    {
      forall s | s in ids ensures SlabOk(pools + (set p | p in sizedPools), s, ids[s]) {
        assert SlabOk(pools, s, ids[s]);
      }
    }

    // -------------------------------------------------------------------------------------
    // Looking up
    // -------------------------------------------------------------------------------------

    /** `PointerInfo::of`: the tag and offset in the one live block of the address, or zeroes. */
    method Of(ptr: nat) returns (info: PointerInfo)
      requires Valid() && ptr < ADDRESSES
      ensures info.tag != 0 ==>
        info.offset <= ptr && Covers(live, ptr - info.offset, ptr) && live[ptr - info.offset].tag == info.tag
      ensures info.tag == 0 ==> info.offset == 0 && forall base: nat :: !Covers(live, base, ptr)
    {
      var entry := table.Get(ptr);
      if entry.Null? {
        NotCovered(table.marks, ids, live, ptr);
        return PointerInfo(0, 0);
      }
      assert SlabOk(pools, entry.slab, ids[entry.slab]);
      info := GetId(entry.slab, ptr);
    }

    /** `getid` */
    method GetId(slab: Slab, ptr: nat) returns (info: PointerInfo)
      requires IdsFit(ids) && MarksOk(table.marks, ids.Keys) && LiveOk(table.marks, ids, live)
      requires slab in ids && slab.ids == ids[slab] && MarkedAs(table.marks, ptr, slab)
      ensures info.tag != 0 ==>
        info.offset <= ptr && Covers(live, ptr - info.offset, ptr) && live[ptr - info.offset].tag == info.tag
      ensures info.tag == 0 ==> info.offset == 0 && forall base: nat :: !Covers(live, base, ptr)
    {
      assert HeldIffMarked(table.marks, slab, ptr);
      var index := slab.ElementAt(ptr);
      var objectOffset := (ptr - slab.objects) % slab.pool.elementSize;
      var id := slab.ids[index];
      if id == 0 {
        NotCovered(table.marks, ids, live, ptr);
        return PointerInfo(0, 0);
      }
      AddressOfElement(slab, ptr);
      CoveredByElement(table.marks, ids, live, slab, ptr);
      return PointerInfo(id, objectOffset);
    }

    /** `xxmalloc_usable_size`: the size of the live block, or of the element that could hold one, or zero. */
    method UsableSize(ptr: nat, ghost base: nat) returns (size: nat)
      requires Valid() && ptr < ADDRESSES
      ensures Covers(live, base, ptr) ==> size == live[base].size
      ensures size ==
        if ptr / PAGE in table.marks then ElementSize(table.marks[ptr / PAGE].pool.bin) else 0
    {
      if Covers(live, base, ptr) {
        ghost var slab := LookupOfCovered(table.marks, ids, live, base, ptr);
      }
      var entry := table.Get(ptr);
      assert entry.Slab? ==> SlabOk(pools, entry.slab, ids[entry.slab]) && PoolOk(entry.slab.pool, ids);
      size := if entry.Slab? then entry.slab.pool.elementSize else 0;
    }

    // -------------------------------------------------------------------------------------
    // Changing
    // -------------------------------------------------------------------------------------

    /** `xxfree`, for a pointer into the live block at `base`, null, or a pointer to other memory. */
    method Free(ptr: nat, ghost base: nat)
      requires Valid() && ptr < ADDRESSES
      requires ptr == 0 || ptr / PAGE !in table.marks || Covers(live, base, ptr)
      modifies this, pools, ids.Keys
      ensures Valid() && Footprint() == old(Footprint()) && threads == old(threads)
      ensures live == if ptr / PAGE in table.marks then old(live) - {base} else old(live)
    {
      if ptr == 0 {
        return;
      }
      var entry := table.Get(ptr);
      if entry.Slab? {
        ghost var slab := LookupOfCovered(table.marks, ids, live, base, ptr);
        Release(entry.slab, ptr);
      }
    }

    method Release(slab: Slab, ptr: nat)
      requires Valid() && slab in ids && slab.Holds(ptr) && ids[slab][slab.ElementAt(ptr)] != 0
      modifies this, pools, ids.Keys
      ensures Valid() && Footprint() == old(Footprint()) && threads == old(threads)
      ensures live == old(live) - {slab.AddressOf(slab.ElementAt(ptr))}
    {
      ghost var index := slab.ElementAt(ptr);
      LiveAfterWrite(table.marks, ids, live, slab, index, 0);
      ReleaseInPool(slab, ptr);
      Commit(WithId(ids, slab, index, 0), SetBlock(live, slab.AddressOf(index), slab.pool.elementSize, 0));
    }

    ghost method Commit(ids': map<Slab, seq<Tag>>, live': map<nat, Block>)
      requires table.Valid() && PoolsOk(pools, ids') && BlocksOk(table.marks, ids', live') && ThreadsOk()
      modifies `ids, `live
      ensures Valid() && ids == ids' && live == live'
    {
      ids, live := ids', live';
    }

    method ReleaseInPool(slab: Slab, ptr: nat)
      requires PoolsOk(pools, ids) && slab in ids && slab.Holds(ptr)
      requires slab.ElementAt(ptr) < |ids[slab]| == slab.capacity
      requires ids[slab][slab.ElementAt(ptr)] != 0
      modifies pools, ids.Keys
      ensures PoolsOk(pools, WithId(ids, slab, slab.ElementAt(ptr), 0))
    {
      hide Pool.Valid;
      assert SlabOk(pools, slab, ids[slab]);
      ghost var pool := slab.pool;
      assert PoolOk(pool, ids);
      slab.pool.Deallocate(slab, ptr);
      ghost var ids' := WithId(ids, slab, slab.ElementAt(ptr), 0);
      forall p | p in pools ensures PoolOk(p, ids') {
        assert old(PoolOk(p, ids));
      }
      forall s | s in ids' ensures SlabOk(pools, s, ids'[s]) {
        assert old(SlabOk(pools, s, ids[s]));
      }
    }

    /** `xxmalloc`: `rand` is the random number, and `region` the memory for a new slab. */
    method Malloc(thread: nat, size: nat, rand: nat, region: nat) returns (r: Allocation)
      requires Valid() && thread < |threads| && size != 1
      requires 2 <= size <= Pow2(29) ==> FreshRegion(table.marks.Keys, region, PagesFor(size))
      modifies this, table, table.regions, table.repr, pools, ids.Keys
      ensures Valid() && fresh(Footprint() - old(Footprint())) && threads == old(threads)
      ensures size == 0 ==> r == NullPointer && live == old(live) && table.marks.Keys == old(table.marks.Keys)
      ensures size > Pow2(29) ==> r == Aborted && live == old(live) && table.marks.Keys == old(table.marks.Keys)
      ensures 2 <= size <= Pow2(29) ==>
        && r.Pointer? && r.ptr > 0 && Apart(old(live), r.ptr, ElementSize(Bin(size)))
        && live == old(live)[r.ptr := Block(ElementSize(Bin(size)), MAX_TAG)]
        && GrownBy(old(table.marks.Keys), table.marks.Keys, region, PagesFor(size))
    {
      if size == 0 {
        return NullPointer;
      }
      BinFitsIff(size);
      var bin := Bin(size);
      if bin >= NUM_POOLS {
        return Aborted;
      }
      var ptr, slab, index, slots := Allocate(threads[thread][bin], MAX_TAG, rand, region);
      NewBlockIsApart(table.marks, ids, old(live), ptr, live[ptr]);
      return Pointer(ptr);
    }

    /** `allocate`: the new block did not exist before, and is the only change. Some slots are always left free. */
    method Allocate(pool: Pool, tag: Tag, rand: nat, region: nat)
      returns (ptr: nat, ghost slab: Slab, ghost index: nat, ghost slots: Slots)
      requires Valid() && pool in pools && tag != 0
      requires FreshRegion(table.marks.Keys, region, NumPages(ElementSize(pool.bin), 2 * OVERPROVISION))
      modifies this, table, table.regions, table.repr, pools, ids.Keys
      ensures Valid() && fresh(Footprint() - old(Footprint())) && threads == old(threads)
      ensures pools == old(pools) && pool.free >= 3
      ensures GrownBy(
        old(table.marks.Keys), table.marks.Keys, region, NumPages(ElementSize(pool.bin), 2 * OVERPROVISION))
      ensures ptr !in old(live) && live == old(live)[ptr := Block(ElementSize(pool.bin), tag)]
      ensures if old(pool.free) > OVERPROVISION then slots == old(pool.slots) else OneMoreSlab(old(pool.slots), slots)
      ensures slab.pool == pool && ptr == slab.AddressOf(index) && FreeTotal(slots) > 0
      ensures IsFree(slots, slab.number, index) && Rank(slots, slab.number, index) == rand % FreeTotal(slots)
    {
      if pool.free <= OVERPROVISION {
        AllocateSlab(pool, 2 * OVERPROVISION, region);
      }
      slots := pool.slots;
      FreeIsTotal(pool);
      ptr, slab, index := TakeSlot(pool, rand % pool.free, tag);
    }

    lemma FreeIsTotal(pool: Pool)
      requires PoolsOk(pools, ids) && pool in pools
      ensures pool.free == FreeTotal(pool.slots)
    {
      assert PoolOk(pool, ids);
    }

    /** The slots of one more slab are behind the others. */
    ghost predicate OneMoreSlab(slots: Slots, slots': Slots) {
      |slots'| == |slots| + 1 && slots'[..|slots|] == slots
    }

    method TakeSlot(pool: Pool, offset: nat, tag: Tag) returns (ptr: nat, ghost slab: Slab, ghost index: nat)
      requires Valid() && pool in pools && offset < pool.free && tag != 0
      modifies this, pools, ids.Keys
      ensures Valid() && Footprint() == old(Footprint()) && threads == old(threads)
      ensures pools == old(pools) && pool.free == old(pool.free) - 1
      ensures ptr !in old(live) && live == old(live)[ptr := Block(ElementSize(pool.bin), tag)]
      ensures slab.pool == pool && ptr == slab.AddressOf(index)
      ensures IsFree(old(pool.slots), slab.number, index) && Rank(old(pool.slots), slab.number, index) == offset
    {
      var taken, slot := TakeInPool(pool, offset, tag);
      slab, index := taken, slot;
      LiveAfterWrite(table.marks, ids, live, slab, index, tag);
      FreeElement(table.marks, ids, live, slab, index);
      ptr := taken.AddressOf(slot);
      Commit(WithId(ids, slab, index, tag), SetBlock(live, ptr, slab.pool.elementSize, tag));
    }

    method TakeInPool(pool: Pool, offset: nat, tag: Tag) returns (slab: Slab, index: nat)
      requires PoolsOk(pools, ids) && pool in pools && offset < pool.free && tag != 0
      modifies pools, ids.Keys
      ensures slab in ids && slab.pool == pool && pool.elementSize == ElementSize(pool.bin)
      ensures index < |ids[slab]| && ids[slab][index] == 0
      ensures IsFree(old(pool.slots), slab.number, index) && Rank(old(pool.slots), slab.number, index) == offset
      ensures PoolsOk(pools, WithId(ids, slab, index, tag)) && pool.free == old(pool.free) - 1
    {
      assert PoolOk(pool, ids);
      slab, index := pool.Take(offset, tag);
      assert old(SlabOk(pools, slab, ids[slab]));
      ghost var ids' := WithId(ids, slab, index, tag);
      forall p | p in pools ensures PoolOk(p, ids') {
        assert old(PoolOk(p, ids));
      }
      forall s | s in ids' ensures SlabOk(pools, s, ids'[s]) {
        assert old(SlabOk(pools, s, ids[s]));
      }
    }

    /** `allocateSlab`: a new slab for `count` elements, at the address `region`. */
    method AllocateSlab(pool: Pool, count: nat, region: nat)
      requires Valid() && pool in pools
      requires FreshRegion(table.marks.Keys, region, NumPages(ElementSize(pool.bin), count))
      modifies this, table, table.regions, table.repr, pools, ids.Keys
      ensures Valid() && fresh(Footprint() - old(Footprint())) && fresh(ids.Keys - old(ids.Keys))
      ensures live == old(live) && threads == old(threads) && pools == old(pools)
      ensures PagesAdded(
        old(table.marks.Keys), table.marks.Keys, region / PAGE, NumPages(ElementSize(pool.bin), count))
      ensures pool.free >= old(pool.free) + count && pool.free > 0 && OneMoreSlab(old(pool.slots), pool.slots)
    {
      hide BlocksOk, ThreadsOk, PoolsOk, PagesAdded, Marked, NumPages, Capacity;
      CapacityIsExact(pool.bin, count);
      var numPages, slab := NewSlab(pool, count, region);
      BlocksAfterGrowth(table.marks, ids, live, slab, numPages);
      LinkSlab(pool, slab, numPages);
    }

    method LinkSlab(pool: Pool, slab: Slab, numPages: nat)
      requires Valid() && pool in pools && slab !in ids
      requires slab.pool == pool && slab.number == |pool.slabs| && slab.capacity > 0
      requires slab.ids == FreshIds(slab.capacity) && slab.free == slab.capacity
      requires FreshRegion(table.marks.Keys, slab.objects, numPages)
      requires BlocksOk(
        Marked(table.marks, slab.objects / PAGE, numPages, slab), ids[slab := FreshIds(slab.capacity)], live)
      modifies this, table, table.regions, table.repr, pools, ids.Keys, slab
      ensures Valid() && ids.Keys == old(ids.Keys) + {slab} && fresh(table.repr - old(table.repr))
      ensures PagesAdded(old(table.marks.Keys), table.marks.Keys, slab.objects / PAGE, numPages)
      ensures live == old(live) && threads == old(threads) && pools == old(pools)
      ensures pool.free == old(pool.free) + slab.capacity && OneMoreSlab(old(pool.slots), pool.slots)
    {
      hide BlocksOk, Marked, ThreadsOk, PoolsOk, PagesAdded, OneMoreSlab;
      KeysOfMarked(table.marks, slab, slab.objects / PAGE, numPages);
      MarkPages(table, slab, numPages);
      AddToPool(pool, slab);
      Commit(ids[slab := FreshIds(slab.capacity)], live);
    }

    method NewSlab(pool: Pool, count: nat, region: nat) returns (numPages: nat, slab: Slab)
      requires PoolsOk(pools, ids) && pool in pools
      ensures numPages == NumPages(pool.elementSize, count) && pool.elementSize == ElementSize(pool.bin)
      ensures fresh(slab) && slab !in ids && slab.pool == pool && slab.number == |pool.slabs|
      ensures slab.objects == region && slab.capacity == Capacity(pool.elementSize, count)
      ensures slab.ids == FreshIds(slab.capacity) && slab.free == slab.capacity
    {
      assert PoolOk(pool, ids);
      numPages := NumPages(pool.elementSize, count);
      var capacity := Capacity(pool.elementSize, count);
      slab := new Slab(pool, capacity, region, |pool.slabs|);
    }

    method AddToPool(pool: Pool, slab: Slab)
      requires PoolsOk(pools, ids) && pool in pools && slab !in ids
      requires slab.pool == pool && slab.number == |pool.slabs| && slab.capacity > 0
      requires slab.ids == FreshIds(slab.capacity) && slab.free == slab.capacity
      modifies pools, ids.Keys, slab
      ensures PoolsOk(pools, ids[slab := FreshIds(slab.capacity)]) && pool.free == old(pool.free) + slab.capacity
      ensures OneMoreSlab(old(pool.slots), pool.slots)
    {
      hide Pool.Valid;
      assert PoolOk(pool, ids);
      pool.AddSlab(slab);
      ghost var ids' := ids[slab := FreshIds(slab.capacity)];
      forall p | p in pools ensures PoolOk(p, ids') {
        assert old(PoolOk(p, ids));
      }
      forall s | s in ids' ensures SlabOk(pools, s, ids'[s]) {
        if s != slab {
          assert old(SlabOk(pools, s, ids[s]));
        }
      }
    }

    /** `setTag`: it fails unless the address is in a live block that has no tag yet. */
    method SetTag(ptr: nat, tag: Tag) returns (ok: bool, ghost base: nat)
      requires Valid() && ptr < ADDRESSES
      modifies this, pools, ids.Keys
      ensures Valid() && Footprint() == old(Footprint()) && threads == old(threads)
      ensures ok ==>
        && tag != 0 && Covers(old(live), base, ptr) && old(live)[base].tag == MAX_TAG
        && live == old(live)[base := old(live)[base].(tag := tag)]
      ensures !ok ==>
        && live == old(live)
        && (tag == 0 || forall b: nat | Covers(live, b, ptr) :: live[b].tag != MAX_TAG)
    {
      base := 0;
      if tag == 0 {
        return false, 0;
      }
      var entry := table.Get(ptr);
      if entry.Null? {
        NotCovered(table.marks, ids, live, ptr);
        return false, 0;
      }
      ok, base := TagElement(entry.slab, ptr, tag);
    }

    method TagElement(slab: Slab, ptr: nat, tag: Tag) returns (ok: bool, ghost base: nat)
      requires Valid() && slab in ids && MarkedAs(table.marks, ptr, slab) && tag != 0
      modifies this, pools, ids.Keys
      ensures Valid() && Footprint() == old(Footprint()) && threads == old(threads)
      ensures ok ==>
        && Covers(old(live), base, ptr) && old(live)[base].tag == MAX_TAG
        && live == old(live)[base := old(live)[base].(tag := tag)]
      ensures !ok ==> live == old(live) && forall b: nat | Covers(live, b, ptr) :: live[b].tag != MAX_TAG
    {
      assert HeldIffMarked(table.marks, slab, ptr) && SlabOk(pools, slab, ids[slab]);
      var index := slab.ElementAt(ptr);
      base := slab.AddressOf(index);
      if slab.ids[index] != MAX_TAG {
        OtherTag(table.marks, ids, live, slab, ptr);
        return false, 0;
      }
      CoveredByElement(table.marks, ids, live, slab, ptr);
      LiveAfterWrite(table.marks, ids, live, slab, index, tag);
      RetagInPool(slab, index, tag);
      Commit(WithId(ids, slab, index, tag), SetBlock(live, base, slab.pool.elementSize, tag));
      ok := true;
    }

    method RetagInPool(slab: Slab, index: nat, tag: Tag)
      requires PoolsOk(pools, ids) && slab in ids && index < |ids[slab]| == slab.capacity
      requires ids[slab][index] != 0 && tag != 0
      modifies pools, ids.Keys
      ensures PoolsOk(pools, WithId(ids, slab, index, tag))
    {
      hide Pool.Valid;
      assert SlabOk(pools, slab, ids[slab]);
      ghost var pool := slab.pool;
      assert PoolOk(pool, ids);
      slab.pool.Retag(slab, index, tag);
      ghost var ids' := WithId(ids, slab, index, tag);
      forall p | p in pools ensures PoolOk(p, ids') {
        assert old(PoolOk(p, ids));
      }
      forall s | s in ids' ensures SlabOk(pools, s, ids'[s]) {
        assert old(SlabOk(pools, s, ids[s]));
      }
    }
  }
}
