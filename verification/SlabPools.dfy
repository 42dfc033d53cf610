/**
 One pool of the allocator: slabs of equal elements on two intrusive lists.
 The list of all slabs has the youngest slab first. The free list holds the slabs with free slots.
 */
module SlabPools {
  import opened FreeSlots
  import opened MachineWords
  import opened SlabArithmetic
  import opened PageTables

  const OVERPROVISION: nat := 3

  /** The ids are the flexible array at the end of the slab, so they belong to the same object. */
  class Slab {
    const pool: Pool
    const capacity: nat
    const objects: nat
    /** The age order within the pool. */
    ghost const number: nat
    var free: nat
    var prev: Slab?
    var next: Slab?
    var freePrev: Slab?
    var freeNext: Slab?
    var ids: seq<Tag>

    constructor (pool: Pool, capacity: nat, objects: nat, ghost number: nat)
      ensures this.pool == pool && this.capacity == capacity && this.objects == objects && this.number == number
      ensures free == capacity && ids == FreshIds(capacity)
    {
      this.pool := pool;
      this.capacity := capacity;
      this.objects := objects;
      this.number := number;
      free := capacity;
      prev, next, freePrev, freeNext := null, null, null, null;
      ids := FreshIds(capacity);
    }

    /** The address range of the slab. */
    predicate Holds(ptr: nat) {
      objects <= ptr < objects + capacity * pool.elementSize
    }

    /** The element that `getElementIndex` finds. */
    function ElementAt(ptr: nat): (index: nat)
      requires Holds(ptr)
      ensures index < capacity
    {
      assert pool.elementSize > 0;
      ByteInElement(pool.elementSize, capacity, ptr - objects);
      (ptr - objects) / pool.elementSize
    }

    /** `getElementPtr`. */
    function AddressOf(index: nat): nat {
      objects + index * pool.elementSize
    }
  }

  function FreshIds(capacity: nat): (ids: seq<Tag>)
    ensures |ids| == capacity && Zeros(ids) == capacity
  {
    var ids: seq<Tag> := seq(capacity, _ => 0);
    AllZeros(ids, capacity);
    ids
  }

  /** `getElementIndex` of any byte of element `i` is `i`. */
  lemma ElementOfAddress(slab: Slab, i: nat, k: nat)
    requires i < slab.capacity && k < slab.pool.elementSize
    ensures slab.Holds(slab.AddressOf(i) + k)
    ensures slab.ElementAt(slab.AddressOf(i) + k) == i
  {
    ElementInSlab(slab.pool.elementSize, slab.capacity, i);
    ElementOfByte(slab.pool.elementSize, i, k);
  }

  /** Every byte of a slab belongs to the element that is found for it. */
  lemma AddressOfElement(slab: Slab, ptr: nat)
    requires slab.Holds(ptr)
    ensures slab.AddressOf(slab.ElementAt(ptr)) <= ptr < slab.AddressOf(slab.ElementAt(ptr)) + slab.pool.elementSize
    ensures ptr - slab.AddressOf(slab.ElementAt(ptr)) == (ptr - slab.objects) % slab.pool.elementSize
  {
    ByteInElement(slab.pool.elementSize, slab.capacity, ptr - slab.objects);
  }

  /** What a link leads to: null beyond the ends of the list. */
  ghost function SlabAt(list: seq<Slab>, i: int): Slab? {
    if 0 <= i < |list| then list[i] else null
  }

  /** The marks with `count` pages from page number `first` on added. */
  ghost function Marked(marks: map<nat, Slab>, first: nat, count: nat, slab: Slab): map<nat, Slab> {
    if count == 0 then marks else Marked(marks, first, count - 1, slab)[first + count - 1 := slab]
  }

  lemma {:induction false} MarkedAt(marks: map<nat, Slab>, first: nat, count: nat, slab: Slab, n: nat)
    ensures n in Marked(marks, first, count, slab) <==> n in marks || first <= n < first + count
    ensures n in Marked(marks, first, count, slab) ==>
      Marked(marks, first, count, slab)[n] == if first <= n < first + count then slab else marks[n]
  {
    if count > 0 {
      MarkedAt(marks, first, count - 1, slab, n);
    }
  }

  /** The loop that marks the pages of a new slab. */
  method MarkPages(table: PageTable<Slab>, slab: Slab, numPages: nat)
    requires table.Valid() && slab.objects % PAGE == 0
    requires slab.objects / PAGE + numPages <= PAGES
    modifies table, table.regions, table.repr
    ensures table.Valid() && fresh(table.repr - old(table.repr))
    ensures table.marks == Marked(old(table.marks), slab.objects / PAGE, numPages, slab)
  {
    ghost var first := slab.objects / PAGE;
    for i := 0 to numPages
      invariant table.Valid() && fresh(table.repr - old(table.repr))
      invariant table.marks == Marked(old(table.marks), first, i, slab)
    {
      assert (slab.objects + i * PAGE) / PAGE == first + i;
      table.Mark(slab.objects + i * PAGE, slab);
    }
  }

  /** A list of slabs by number, all of them in a set of objects. */
  ghost predicate Members(nodes: set<Slab>, list: seq<Slab>) {
    forall k | 0 <= k < |list| :: list[k] in nodes && list[k].number == k
  }

  lemma LinksWhenOpened(list: seq<Slab>, v: Slots, v': Slots, k: nat, j: nat)
    requires OpenedAt(v, v', k) && |list| == |v| && HasFree(v, j)
    ensures SlabAt(list, Older(v', j)) == if j == Younger(v, k) then list[k] else SlabAt(list, Older(v, j))
    ensures SlabAt(list, Younger(v', j + 1)) == if j == Older(v, k) then list[k] else SlabAt(list, Younger(v, j + 1))
  {
    NeighboursWhenOpened(v, v', k, j);
  }

  ghost predicate Indexed(nodes: set<Slab>, list: seq<Slab>) {
    forall slab | slab in nodes :: slab.number < |list| && list[slab.number] == slab
  }

  class Pool {
    const elementSize: nat
    const bin: nat
    var free: nat
    var freeHead: Slab?
    var freeTail: Slab?
    var fullHead: Slab?
    /** All slabs, oldest first, with the ids they hold. */
    ghost var slabs: seq<Slab>
    ghost var slots: Slots
    ghost var nodes: set<Slab>

    constructor (bin: nat)
      ensures Valid() && nodes == {} && this.bin == bin
    {
      elementSize := ElementSize(bin);
      this.bin := bin;
      free := 0;
      freeHead, freeTail, fullHead := null, null, null;
      slabs, slots, nodes := [], [], {};
    }

    ghost predicate SlabOk(slab: Slab, ids: seq<Tag>)
      reads slab`ids, slab`free
    {
      && slab.pool == this
      && slab.ids == ids && |ids| == slab.capacity && slab.free == Zeros(ids)
    }

    ghost predicate SlabsOk(nodes: set<Slab>, list: seq<Slab>, v: Slots)
      requires Members(nodes, list)
      reads nodes`ids, nodes`free
    {
      && |v| == |list|
      && forall k | 0 <= k < |list| :: SlabOk(list[k], v[k])
    }

    ghost predicate NeighboursOk(list: seq<Slab>, k: nat)
      requires k < |list|
      reads {list[k]}`prev, {list[k]}`next
    {
      list[k].prev == SlabAt(list, k + 1) && list[k].next == SlabAt(list, k - 1)
    }

    ghost predicate FullLinked(nodes: set<Slab>, list: seq<Slab>)
      requires Members(nodes, list)
      reads `fullHead, nodes`prev, nodes`next
    {
      && fullHead == SlabAt(list, |list| - 1)
      && forall k | 0 <= k < |list| :: NeighboursOk(list, k)
    }

    /** The links of slab `k` on the free list lead to its nearest neighbours with free slots. */
    ghost predicate LinksOk(list: seq<Slab>, v: Slots, k: nat)
      requires k < |v| == |list|
      reads {list[k]}`freePrev, {list[k]}`freeNext
    {
      HasFree(v, k) ==>
        list[k].freeNext == SlabAt(list, Older(v, k)) && list[k].freePrev == SlabAt(list, Younger(v, k + 1))
    }

    /** The free list is the part of the list of all slabs that has free slots in `v`. */
    ghost predicate FreeLinked(nodes: set<Slab>, list: seq<Slab>, v: Slots)
      requires |v| == |list| && Members(nodes, list)
      reads `freeHead, nodes`freePrev, nodes`freeNext
    {
      && freeHead == SlabAt(list, Older(v, |v|))
      && forall k | 0 <= k < |v| :: LinksOk(list, v, k)
    }

    ghost predicate ValidAs(nodes: set<Slab>, list: seq<Slab>, v: Slots)
      reads `free, `freeHead, `fullHead, nodes
    {
      && elementSize == ElementSize(bin)
      && Members(nodes, list)
      && Indexed(nodes, list)
      && SlabsOk(nodes, list, v)
      && free == FreeTotal(v)
      && FullLinked(nodes, list)
      && FreeLinked(nodes, list, v)
    }

    ghost predicate Valid()
      reads this, nodes
    {
      ValidAs(nodes, slabs, slots)
    }

    // -------------------------------------------------------------------------------------
    // Growing
    // -------------------------------------------------------------------------------------

    /** A new slab goes to the front of both lists. */
    method AddSlab(slab: Slab)
      requires Valid() && slab.number == |slabs|
      requires SlabOk(slab, FreshIds(slab.capacity)) && slab.capacity > 0
      modifies this, nodes`prev, nodes`freePrev, nodes`freeNext, slab
      ensures Valid() && nodes == old(nodes) + {slab}
      ensures slabs == old(slabs) + [slab] && slots == old(slots) + [FreshIds(slab.capacity)]
      ensures free == old(free) + slab.capacity && slab.ids == FreshIds(slab.capacity)
    {
      ghost var all, list, v := nodes + {slab}, slabs + [slab], slots + [FreshIds(slab.capacity)];
      PrepareSlab(slab);
      free := free + slab.capacity;
      LinkBoth(slab, slots + [[]], v);
      Record(all, list, v);
    }

    method LinkBoth(slab: Slab, ghost before: Slots, ghost v: Slots)
      requires Members(nodes, slabs) && FullLinked(nodes, slabs) && slab.number == |slabs|
      requires Members(nodes + {slab}, slabs + [slab])
      requires |before| == |slabs| + 1 && FreeLinked(nodes + {slab}, slabs + [slab], before)
      requires OpenedAt(before, v, |slabs|) && Younger(before, |slabs|) == |before|
      modifies `fullHead, `freeHead, `freeTail, slab`next, slab`freeNext, slab`prev, slab`freePrev
      modifies nodes`prev, nodes`freePrev, nodes`freeNext
      ensures FullLinked(nodes + {slab}, slabs + [slab]) && FreeLinked(nodes + {slab}, slabs + [slab], v)
    {
      LinkFull(slab);
      PushFree(slab, nodes + {slab}, slabs + [slab], before, v);
    }

    /** Before it is linked, the new slab is like one without free slots on the free list. */
    lemma PrepareSlab(slab: Slab)
      requires Valid() && slab.number == |slabs| && SlabOk(slab, FreshIds(slab.capacity)) && slab.capacity > 0
      ensures Members(nodes + {slab}, slabs + [slab]) && Indexed(nodes + {slab}, slabs + [slab])
      ensures SlabsOk(nodes + {slab}, slabs + [slab], slots + [FreshIds(slab.capacity)])
      ensures FreeLinked(nodes + {slab}, slabs + [slab], slots + [[]])
      ensures OpenedAt(slots + [[]], slots + [FreshIds(slab.capacity)], |slots|)
      ensures Younger(slots + [[]], |slots|) == |slots| + 1
      ensures FreeTotal(slots + [FreshIds(slab.capacity)]) == free + slab.capacity
    {
      ExtendSlabs(slab);
      ExtendFreeList(slab);
      OpenNewSlab(slots, FreshIds(slab.capacity));
      FreeFromAppend(slots, FreshIds(slab.capacity), 0);
    }

    ghost method Record(all: set<Slab>, list: seq<Slab>, v: Slots)
      requires ValidAs(all, list, v)
      modifies `nodes, `slabs, `slots
      ensures Valid() && nodes == all && slabs == list && slots == v
    {
      nodes, slabs, slots := all, list, v;
    }

    lemma ExtendSlabs(slab: Slab)
      requires Members(nodes, slabs) && slab.number == |slabs|
      requires SlabsOk(nodes, slabs, slots) && SlabOk(slab, FreshIds(slab.capacity))
      ensures Members(nodes + {slab}, slabs + [slab])
      ensures Indexed(nodes, slabs) ==> Indexed(nodes + {slab}, slabs + [slab])
      ensures SlabsOk(nodes + {slab}, slabs + [slab], slots + [FreshIds(slab.capacity)])
    {
      ghost var list, v := slabs + [slab], slots + [FreshIds(slab.capacity)];
      forall k | 0 <= k < |list| ensures SlabOk(list[k], v[k]) {
        assert k < |slabs| ==> SlabOk(slabs[k], slots[k]);
      }
    }

    lemma ExtendFreeList(slab: Slab)
      requires Members(nodes, slabs) && slab.number == |slabs|
      requires |slabs| == |slots| && FreeLinked(nodes, slabs, slots)
      ensures Members(nodes + {slab}, slabs + [slab])
      ensures FreeLinked(nodes + {slab}, slabs + [slab], slots + [[]])
    {
      var list, v := slabs + [slab], slots + [[]];
      NeighboursOfAppend(slots, [], |slots|);
      forall k | 0 <= k < |list| ensures LinksOk(list, v, k) {
        if k < |slabs| {
          ExtendLinks(slab, k);
        }
      }
    }

    lemma ExtendLinks(slab: Slab, k: nat)
      requires k < |slabs| == |slots| && LinksOk(slabs, slots, k)
      ensures LinksOk(slabs + [slab], slots + [[]], k)
    {
      NeighboursOfAppend(slots, [], k);
      NeighboursOfAppend(slots, [], k + 1);
    }

    /** Add to the front of the list of all slabs. */
    method LinkFull(slab: Slab)
      requires Members(nodes, slabs) && FullLinked(nodes, slabs) && slab.number == |slabs|
      modifies `fullHead, slab`prev, slab`next, nodes`prev
      ensures Members(nodes + {slab}, slabs + [slab]) && FullLinked(nodes + {slab}, slabs + [slab])
    {
      slab.prev := null;
      slab.next := fullHead;
      if slab.next != null {
        slab.next.prev := slab;
      }
      fullHead := slab;
      forall k | 0 <= k <= |slabs| ensures NeighboursOk(slabs + [slab], k) {
        assert k < |slabs| ==> old(NeighboursOk(slabs, k));
      }
    }

    // -------------------------------------------------------------------------------------
    // The free list
    // -------------------------------------------------------------------------------------

    /** The effect of putting slab `k` between its neighbours `o` and `y` on the free list. */
    twostate predicate Inserted(nodes: set<Slab>, list: seq<Slab>, k: nat, o: int, y: nat)
      requires Members(nodes, list) && k < |list|
      reads `freeHead, nodes`freePrev, nodes`freeNext
    {
      && list[k].freeNext == SlabAt(list, o) && list[k].freePrev == SlabAt(list, y)
      && freeHead == (if y == |list| then list[k] else old(freeHead))
      && forall j | 0 <= j < |list| && j != k :: LinksKept(list, k, o, y, j)
    }

    twostate predicate LinksKept(list: seq<Slab>, k: nat, o: int, y: nat, j: nat)
      requires k < |list| && j < |list|
      reads {list[j]}`freePrev, {list[j]}`freeNext
    {
      && list[j].freeNext == (if j == y then list[k] else old(list[j].freeNext))
      && list[j].freePrev == (if j == o then list[k] else old(list[j].freePrev))
    }

    /** Add to the front of the free list: all slabs with free slots are older. */
    method PushFree(slab: Slab, ghost nodes: set<Slab>, ghost list: seq<Slab>, ghost v: Slots, ghost v': Slots)
      requires Members(nodes, list) && |list| == |v| && FreeLinked(nodes, list, v)
      requires OpenedAt(v, v', slab.number) && list[slab.number] == slab && Younger(v, slab.number) == |v|
      modifies `freeHead, `freeTail, nodes`freePrev, nodes`freeNext
      ensures FreeLinked(nodes, list, v')
    {
      ghost var k := slab.number;
      EndsWhenOpened(v, v', k);
      PushLinks(slab, nodes, list, Older(v, k));
      assert LinksOk(list, v', k);
      forall j | 0 <= j < |list| ensures LinksOk(list, v', j) {
        if j != k && HasFree(v, j) {
          assert old(LinksOk(list, v, j)) && LinksKept(list, k, Older(v, k), Younger(v, k), j);
          LinksWhenOpened(list, v, v', k, j);
        }
      }
    }

    method PushLinks(slab: Slab, ghost nodes: set<Slab>, ghost list: seq<Slab>, ghost o: int)
      requires Members(nodes, list) && slab.number < |list| && list[slab.number] == slab
      requires freeHead == SlabAt(list, o) && o != slab.number
      modifies `freeHead, `freeTail, nodes`freePrev, nodes`freeNext
      ensures Inserted(nodes, list, slab.number, o, |list|)
      ensures freeTail == if old(freeHead) == null then slab else old(freeTail)
    {
      slab.freePrev := null;
      slab.freeNext := freeHead;
      if slab.freeNext != null {
        slab.freeNext.freePrev := slab;
      } else {
        freeTail := slab;
      }
      freeHead := slab;
    }

    /** `makeFree`: the slab got its first free slot back. */
    method MakeFree(slab: Slab, ghost v: Slots, ghost v': Slots)
      requires Members(nodes, slabs) && FullLinked(nodes, slabs) && SlabsOk(nodes, slabs, v')
      requires |slabs| == |v| && FreeLinked(nodes, slabs, v)
      requires OpenedAt(v, v', slab.number) && slabs[slab.number] == slab
      modifies `freeHead, `freeTail, nodes`freePrev, nodes`freeNext
      ensures FreeLinked(nodes, slabs, v')
    {
      ghost var k := slab.number;
      EndsWhenOpened(v, v', k);
      var cur := FindYounger(slab, v');
      if cur != null {
        InsertAfter(slab, cur, v, v');
      } else {
        PushFree(slab, nodes, slabs, v, v');
      }
    }

    /** The walk to the nearest predecessor with free slots. */
    method FindYounger(slab: Slab, ghost v: Slots) returns (cur: Slab?)
      requires Members(nodes, slabs) && FullLinked(nodes, slabs) && SlabsOk(nodes, slabs, v)
      requires slab.number < |slabs| && slabs[slab.number] == slab
      ensures cur == SlabAt(slabs, Younger(v, slab.number + 1))
    {
      assert NeighboursOk(slabs, slab.number);
      cur := slab.prev;
      ghost var j := slab.number + 1;
      while cur != null
        invariant j <= |slabs| && cur == SlabAt(slabs, j)
        invariant Younger(v, slab.number + 1) == Younger(v, j)
        decreases |slabs| - j
      {
        assert NeighboursOk(slabs, j) && SlabOk(slabs[j], v[j]);
        if cur.free > 0 {
          return;
        }
        cur := cur.prev;
        j := j + 1;
      }
    }

    method InsertAfter(slab: Slab, cur: Slab, ghost v: Slots, ghost v': Slots)
      requires Members(nodes, slabs) && |slabs| == |v| && FreeLinked(nodes, slabs, v)
      requires OpenedAt(v, v', slab.number) && slabs[slab.number] == slab
      requires cur == SlabAt(slabs, Younger(v, slab.number))
      modifies `freeTail, nodes`freePrev, nodes`freeNext
      ensures FreeLinked(nodes, slabs, v')
    {
      ghost var k := slab.number;
      EndsWhenOpened(v, v', k);
      NeighboursWhenClosed(v, k);
      assert LinksOk(slabs, v, Younger(v, k));
      InsertLinks(slab, cur, Older(v, k));
      assert LinksOk(slabs, v', k);
      forall j | 0 <= j < |slabs| ensures LinksOk(slabs, v', j) {
        if j != k && HasFree(v, j) {
          assert old(LinksOk(slabs, v, j)) && LinksKept(slabs, k, Older(v, k), Younger(v, k), j);
          LinksWhenOpened(slabs, v, v', k, j);
        }
      }
    }

    method InsertLinks(slab: Slab, cur: Slab, ghost o: int)
      requires Members(nodes, slabs) && slab.number < |slabs| && slabs[slab.number] == slab
      requires cur.number < |slabs| && slabs[cur.number] == cur != slab
      requires cur.freeNext == SlabAt(slabs, o) && o != slab.number && o != cur.number
      modifies `freeTail, nodes`freePrev, nodes`freeNext
      ensures Inserted(nodes, slabs, slab.number, o, cur.number)
      ensures freeTail == if old(cur.freeNext) == null then slab else old(freeTail)
    {
      slab.freeNext := cur.freeNext;
      slab.freePrev := cur;
      cur.freeNext := slab;
      if slab.freeNext != null {
        slab.freeNext.freePrev := slab;
      } else {
        freeTail := slab;
      }
    }

    /** The effect of taking slab `k` out from between its neighbours. */
    twostate predicate Removed(nodes: set<Slab>, list: seq<Slab>, k: nat, o: int, y: nat)
      requires Members(nodes, list) && k < |list|
      reads `freeHead, nodes`freePrev, nodes`freeNext
    {
      && freeHead == (if y == |list| then SlabAt(list, o) else old(freeHead))
      && forall j | 0 <= j < |list| && j != k :: LinksJoined(list, o, y, j)
    }

    twostate predicate LinksJoined(list: seq<Slab>, o: int, y: nat, j: nat)
      requires j < |list|
      reads {list[j]}`freePrev, {list[j]}`freeNext
    {
      && list[j].freeNext == (if j == y then SlabAt(list, o) else old(list[j].freeNext))
      && list[j].freePrev == (if j == o then SlabAt(list, y) else old(list[j].freePrev))
    }

    /** `makeFull`: the slab has no free slot any more. */
    method MakeFull(slab: Slab, ghost v: Slots, ghost v': Slots)
      requires Members(nodes, slabs) && |slabs| == |v| && FreeLinked(nodes, slabs, v)
      requires OpenedAt(v', v, slab.number) && slabs[slab.number] == slab
      modifies `freeHead, nodes`freePrev, nodes`freeNext
      ensures FreeLinked(nodes, slabs, v')
    {
      ghost var k := slab.number;
      EndsWhenOpened(v', v, k);
      NeighboursWhenClosed(v', k);
      assert LinksOk(slabs, v, k);
      RemoveLinks(slab, Older(v', k), Younger(v', k));
      forall j | 0 <= j < |slabs| ensures LinksOk(slabs, v', j) {
        if HasFree(v', j) {
          assert old(LinksOk(slabs, v, j)) && LinksJoined(slabs, Older(v', k), Younger(v', k), j);
          LinksWhenOpened(slabs, v', v, k, j);
        }
      }
    }

    method RemoveLinks(slab: Slab, ghost o: int, ghost y: nat)
      requires Members(nodes, slabs) && slab.number < |slabs| && slabs[slab.number] == slab
      requires slab.freeNext == SlabAt(slabs, o) && slab.freePrev == SlabAt(slabs, y) && y <= |slabs|
      requires -1 <= o < slab.number < y
      modifies `freeHead, nodes`freePrev, nodes`freeNext
      ensures Removed(nodes, slabs, slab.number, o, y)
    {
      if slab.freePrev != null {
        slab.freePrev.freeNext := slab.freeNext;
      } else {
        freeHead := slab.freeNext;
      }
      if slab.freeNext != null {
        slab.freeNext.freePrev := slab.freePrev;
      }
    }

    // -------------------------------------------------------------------------------------
    // Choosing a slot
    // -------------------------------------------------------------------------------------

    /** The walk along the free list: it never meets the end of the list. */
    method FindSlab(start: nat) returns (slab: Slab, offset: nat)
      requires Valid() && start < free
      ensures slab in nodes && offset < Zeros(slab.ids)
      ensures FreeFrom(slots, slab.number + 1) + offset == start
    {
      offset := start;
      OlderExists(slots, |slots|);
      slab := freeHead;
      while offset >= slab.free
        invariant slab in nodes && HasFree(slots, slab.number)
        invariant FreeFrom(slots, slab.number + 1) + offset == start
        decreases slab.number
      {
        ghost var k := slab.number;
        assert SlabOk(slabs[k], slots[k]) && LinksOk(slabs, slots, k);
        OlderExists(slots, k);
        offset := offset - slab.free;
        slab := slab.freeNext;
      }
      assert SlabOk(slabs[slab.number], slots[slab.number]);
    }

    /** The scan of the ids: it ends at a free slot, so the assertion behind it is never reached. */
    method FindIndex(slab: Slab, start: nat) returns (index: nat)
      requires |slab.ids| == slab.capacity && start < Zeros(slab.ids)
      ensures index < slab.capacity && slab.ids[index] == 0 && ZerosBefore(slab.ids, index) == start
    {
      var offset := start;
      for i := 0 to slab.capacity
        invariant ZerosBefore(slab.ids, i) + offset == start
      {
        if slab.ids[i] == 0 {
          if offset == 0 {
            return i;
          }
          offset := offset - 1;
        }
      }
      assert false;
    }

    /** Take the free slot of rank `offset`. */
    method Take(offset: nat, tag: Tag) returns (slab: Slab, index: nat)
      requires Valid() && offset < free && tag != 0
      modifies `free, `freeHead, nodes`ids, nodes`free, nodes`freePrev, nodes`freeNext, `nodes, `slabs, `slots
      ensures Valid() && nodes == old(nodes) && slabs == old(slabs) && slab in nodes
      ensures IsFree(old(slots), slab.number, index) && Rank(old(slots), slab.number, index) == offset
      ensures slots == Write(old(slots), slab.number, index, tag)
      ensures index < |old(slab.ids)| && slab.ids == old(slab.ids)[index := tag]
      ensures forall s | s in nodes && s != slab :: s.ids == old(s.ids)
      ensures free == old(free) - 1
    {
      var rest: nat;
      slab, rest := FindSlab(offset);
      assert SlabOk(slabs[slab.number], slots[slab.number]);
      index := FindIndex(slab, rest);
      Fill(slab, index, tag);
    }

    method Fill(slab: Slab, index: nat, tag: Tag)
      requires Valid() && slab in nodes && IsFree(slots, slab.number, index) && tag != 0
      modifies `free, `freeHead, slab`ids, slab`free, nodes`freePrev, nodes`freeNext, `nodes, `slabs, `slots
      ensures Valid() && nodes == old(nodes) && slabs == old(slabs)
      ensures slots == Write(old(slots), slab.number, index, tag)
      ensures index < |old(slab.ids)| && slab.ids == old(slab.ids)[index := tag] && free == old(free) - 1
    {
      hide FullLinked, FreeLinked, ZerosBefore, FreeFrom;
      FreeSlotCounts(slots, slab.number, index);
      assert SlabOk(slabs[slab.number], slots[slab.number]);
      WriteId(slab, index, tag, -1);
      CloseIfFull(slab, index, tag);
      Record(nodes, slabs, Write(slots, slab.number, index, tag));
    }

    method CloseIfFull(slab: Slab, ghost index: nat, ghost tag: Tag)
      requires Members(nodes, slabs) && Indexed(nodes, slabs) && slab in nodes
      requires |slabs| == |slots| && FreeLinked(nodes, slabs, slots)
      requires IsFree(slots, slab.number, index) && HasFree(slots, slab.number)
      requires slab.free == Zeros(Write(slots, slab.number, index, tag)[slab.number])
      modifies `freeHead, nodes`freePrev, nodes`freeNext
      ensures FreeLinked(nodes, slabs, Write(slots, slab.number, index, tag))
    {
      ghost var v := Write(slots, slab.number, index, tag);
      WriteOpensOrCloses(slots, slab.number, index, tag);
      if slab.free == 0 {
        MakeFull(slab, slots, v);
      } else {
        FreeListStays(v);
      }
    }

    /** Write an id, and adjust both counts of free slots. */
    method WriteId(slab: Slab, index: nat, tag: Tag, change: int)
      requires Members(nodes, slabs) && Indexed(nodes, slabs) && SlabsOk(nodes, slabs, slots) && slab in nodes
      requires free == FreeTotal(slots)
      requires index < slab.capacity && change == Cost(tag) - Cost(slab.ids[index])
      modifies slab`ids, slab`free, `free
      ensures index < |old(slab.ids)| && slab.ids == old(slab.ids)[index := tag]
      ensures SlabsOk(nodes, slabs, Write(slots, slab.number, index, tag))
      ensures free == FreeTotal(Write(slots, slab.number, index, tag)) && free == old(free) + change
      ensures slab.free == Zeros(Write(slots, slab.number, index, tag)[slab.number])
    {
      assert SlabOk(slabs[slab.number], slots[slab.number]);
      CountsOfUpdate(slots, slab.number, index, tag);
      slab.ids := slab.ids[index := tag];
      slab.free := slab.free + change;
      free := free + change;
      forall k | 0 <= k < |slabs| ensures SlabOk(slabs[k], Write(slots, slab.number, index, tag)[k]) {
        assert old(SlabOk(slabs[k], slots[k]));
      }
    }

    lemma FreeListStays(v: Slots)
      requires Members(nodes, slabs) && |slots| == |slabs| == |v| && FreeLinked(nodes, slabs, slots)
      requires forall j | 0 <= j < |v| :: HasFree(v, j) == HasFree(slots, j)
      ensures FreeLinked(nodes, slabs, v)
    {
      SameNeighbours(slots, v, |v|);
      forall k | 0 <= k < |v| ensures LinksOk(slabs, v, k) {
        SameNeighbours(slots, v, k);
        SameNeighbours(slots, v, k + 1);
        assert LinksOk(slabs, slots, k);
      }
    }

    // -------------------------------------------------------------------------------------
    // Operations
    // -------------------------------------------------------------------------------------

    /** `deallocate`, for a pointer into a live element. */
    method Deallocate(slab: Slab, ptr: nat)
      requires Valid() && slab in nodes && slab.Holds(ptr)
      requires |slab.ids| == slab.capacity && slab.ids[slab.ElementAt(ptr)] != 0
      modifies this, slab`ids, slab`free, nodes`freePrev, nodes`freeNext
      ensures Valid() && nodes == old(nodes) && slabs == old(slabs)
      ensures slots == Write(old(slots), slab.number, slab.ElementAt(ptr), 0)
      ensures slab.ids == old(slab.ids)[slab.ElementAt(ptr) := 0]
    {
      hide FullLinked, FreeLinked, ZerosBefore, FreeFrom;
      var index := slab.ElementAt(ptr);
      assert SlabOk(slabs[slab.number], slots[slab.number]);
      WriteId(slab, index, 0, 1);
      OpenIfFirst(slab, index);
      Record(nodes, slabs, Write(slots, slab.number, index, 0));
    }

    method OpenIfFirst(slab: Slab, ghost index: nat)
      requires Members(nodes, slabs) && Indexed(nodes, slabs) && slab in nodes
      requires |slabs| == |slots| && FullLinked(nodes, slabs) && FreeLinked(nodes, slabs, slots)
      requires index < |slots[slab.number]| && slots[slab.number][index] != 0
      requires SlabsOk(nodes, slabs, Write(slots, slab.number, index, 0))
      modifies `freeHead, `freeTail, nodes`freePrev, nodes`freeNext
      ensures FreeLinked(nodes, slabs, Write(slots, slab.number, index, 0))
    {
      ghost var v := Write(slots, slab.number, index, 0);
      WriteOpensOrCloses(slots, slab.number, index, 0);
      CountsOfUpdate(slots, slab.number, index, 0);
      assert SlabOk(slabs[slab.number], v[slab.number]);
      if slab.free == 1 {
        MakeFree(slab, slots, v);
      } else {
        FreeListStays(v);
      }
    }

    /** The write in `setTag`: one nonzero id for another. */
    method Retag(slab: Slab, index: nat, tag: Tag)
      requires Valid() && slab in nodes && tag != 0
      requires index < |slab.ids| == slab.capacity && slab.ids[index] != 0
      modifies slab`ids, `nodes, `slabs, `slots
      ensures Valid() && nodes == old(nodes) && slabs == old(slabs)
      ensures slots == Write(old(slots), slab.number, index, tag)
      ensures slab.ids == old(slab.ids)[index := tag]
    {
      ghost var v := Write(slots, slab.number, index, tag);
      assert SlabOk(slabs[slab.number], slots[slab.number]);
      CountsOfUpdate(slots, slab.number, index, tag);
      WriteOpensOrCloses(slots, slab.number, index, tag);
      FreeListStays(v);
      slab.ids := slab.ids[index := tag];
      forall k | 0 <= k < |slabs| ensures SlabOk(slabs[k], v[k]) {
        assert old(SlabOk(slabs[k], slots[k]));
      }
      Record(nodes, slabs, v);
    }

    // -------------------------------------------------------------------------------------
    // The free list as the pointers lead
    // -------------------------------------------------------------------------------------

    /** The slabs visited by following `freeNext` for so many steps. */
    ghost function Visited(node: Slab?, steps: nat): seq<Slab>
      reads this, nodes
    {
      if steps == 0 || node == null || node !in nodes then [] else [node] + Visited(node.freeNext, steps - 1)
    }

    lemma {:induction false} VisitedFrom(k: int, steps: nat)
      requires Valid() && -1 <= k < steps && k < |slots|
      requires k >= 0 ==> HasFree(slots, k)
      ensures Visited(SlabAt(slabs, k), steps) == SlabsAt(slabs, Chain(slots, k))
      decreases steps
    {
      if k >= 0 {
        assert LinksOk(slabs, slots, k);
        VisitedFrom(Older(slots, k), steps - 1);
        NumbersMore(slabs, k, Chain(slots, Older(slots, k)));
      }
    }

    /** From the head, the pointers lead through exactly the slabs with free slots, in the order of all slabs. */
    lemma FreeListIsFreeSlabs()
      requires Valid()
      ensures Visited(freeHead, |slabs| + 1) == SlabsAt(slabs, FreeSlabs(slots, |slots|))
    {
      VisitedFrom(Older(slots, |slots|), |slabs| + 1);
      ChainIsFreeSlabs(slots, |slots|);
    }
  }

  /** The slabs with these numbers. */
  ghost function SlabsAt(list: seq<Slab>, numbers: seq<nat>): seq<Slab> {
    if numbers == [] then []
    else (if numbers[0] < |list| then [list[numbers[0]]] else []) + SlabsAt(list, numbers[1..])
  }

  lemma NumbersMore(list: seq<Slab>, k: nat, numbers: seq<nat>)
    requires k < |list|
    ensures SlabsAt(list, [k] + numbers) == [list[k]] + SlabsAt(list, numbers)
  {
    assert ([k] + numbers)[1..] == numbers;
  }
}
