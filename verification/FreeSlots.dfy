/**
 The slots of a pool, without the pointers: every slab is the sequence of its ids, 0 for a free slot.
 Slabs are numbered by age. The slab lists run from the youngest slab to the oldest, that is downwards.
 */
module FreeSlots {
  import opened MachineWords

  type Tag = x: nat | x < TWO_64

  type Slots = seq<seq<Tag>>

  /** The id of one slot replaced. */
  function Write(slots: Slots, k: nat, i: nat, tag: Tag): Slots
    requires k < |slots| && i < |slots[k]|
  {
    var ids: seq<Tag> := slots[k][i := tag];
    slots[k := ids]
  }

  // ---------------------------------------------------------------------------------------
  // Counting
  // ---------------------------------------------------------------------------------------

  /** The number of free slots among the first `i`. */
  function ZerosBefore(ids: seq<Tag>, i: nat): (n: nat)
    requires i <= |ids|
    ensures n <= i
  {
    if i == 0 then 0 else ZerosBefore(ids, i - 1) + if ids[i - 1] == 0 then 1 else 0
  }

  function Zeros(ids: seq<Tag>): nat {
    ZerosBefore(ids, |ids|)
  }

  /** The number of free slots in slab `k` and the younger ones. */
  function FreeFrom(slots: Slots, k: nat): nat
    requires k <= |slots|
    decreases |slots| - k
  {
    if k == |slots| then 0 else Zeros(slots[k]) + FreeFrom(slots, k + 1)
  }

  function FreeTotal(slots: Slots): nat {
    FreeFrom(slots, 0)
  }

  predicate IsFree(slots: Slots, k: nat, i: nat) {
    k < |slots| && i < |slots[k]| && slots[k][i] == 0
  }

  lemma {:induction false} ZerosGrow(ids: seq<Tag>, i: nat, j: nat)
    requires i <= j <= |ids|
    ensures ZerosBefore(ids, i) <= ZerosBefore(ids, j)
    ensures i < j && ids[i] == 0 ==> ZerosBefore(ids, i) < ZerosBefore(ids, j)
    decreases j
  {
    if i < j {
      ZerosGrow(ids, i, j - 1);
    }
  }

  lemma {:induction false} ZerosSame(ids: seq<Tag>, ids': seq<Tag>, i: nat)
    requires i <= |ids| && i <= |ids'|
    requires forall j | 0 <= j < i :: ids[j] == 0 <==> ids'[j] == 0
    ensures ZerosBefore(ids, i) == ZerosBefore(ids', i)
  {
    if i > 0 {
      ZerosSame(ids, ids', i - 1);
    }
  }

  function Cost(tag: Tag): nat {
    if tag == 0 then 1 else 0
  }

  lemma {:induction false} ZerosOfUpdate(ids: seq<Tag>, i: nat, tag: Tag, j: nat)
    requires i < j <= |ids|
    ensures ZerosBefore(ids[i := tag], j) == ZerosBefore(ids, j) - Cost(ids[i]) + Cost(tag)
    decreases j
  {
    if i == j - 1 {
      ZerosSame(ids[i := tag], ids, i);
    } else {
      ZerosOfUpdate(ids, i, tag, j - 1);
    }
  }

  lemma {:induction false} AllZeros(ids: seq<Tag>, i: nat)
    requires i <= |ids|
    requires forall j | 0 <= j < i :: ids[j] == 0
    ensures ZerosBefore(ids, i) == i
  {
    if i > 0 {
      AllZeros(ids, i - 1);
    }
  }

  lemma {:induction false} FreeFromUpdate(slots: Slots, k: nat, ids: seq<Tag>, j: nat)
    requires k < |slots| && j <= |slots|
    ensures FreeFrom(slots[k := ids], j) == FreeFrom(slots, j) + if j <= k then Zeros(ids) - Zeros(slots[k]) else 0
    decreases |slots| - j
  {
    if j < |slots| {
      FreeFromUpdate(slots, k, ids, j + 1);
    }
  }

  lemma {:induction false} FreeFromAppend(slots: Slots, ids: seq<Tag>, j: nat)
    requires j <= |slots|
    ensures FreeFrom(slots + [ids], j) == FreeFrom(slots, j) + Zeros(ids)
    decreases |slots| - j
  {
    if j < |slots| {
      FreeFromAppend(slots, ids, j + 1);
    } else {
      assert FreeFrom(slots + [ids], j + 1) == 0;
    }
  }

  // ---------------------------------------------------------------------------------------
  // Neighbours on the free list
  // ---------------------------------------------------------------------------------------

  predicate HasFree(slots: Slots, k: nat) {
    k < |slots| && Zeros(slots[k]) > 0
  }

  lemma FreeSlotCounts(slots: Slots, k: nat, i: nat)
    requires IsFree(slots, k, i)
    ensures HasFree(slots, k)
  {
    ZerosGrow(slots[k], i, |slots[k]|);
  }

  /** The youngest slab with free slots that is older than `k`: -1 if there is none. */
  function Older(slots: Slots, k: nat): (j: int)
    requires k <= |slots|
    ensures -1 <= j < k && (j >= 0 ==> HasFree(slots, j))
    ensures forall m | j < m < k :: !HasFree(slots, m)
  {
    if k == 0 then -1 else if HasFree(slots, k - 1) then k - 1 else Older(slots, k - 1)
  }

  /** The oldest slab with free slots from `k` on: the number of slabs if there is none. */
  function Younger(slots: Slots, k: nat): (j: nat)
    requires k <= |slots|
    ensures k <= j <= |slots| && (j < |slots| ==> HasFree(slots, j))
    ensures forall m | k <= m < j :: !HasFree(slots, m)
    decreases |slots| - k
  {
    if k == |slots| || HasFree(slots, k) then k else Younger(slots, k + 1)
  }

  /** Slab `k` is the only one that differs, and it had no free slot before. */
  predicate OpenedAt(slots: Slots, slots': Slots, k: nat) {
    && k < |slots| == |slots'|
    && !HasFree(slots, k) && HasFree(slots', k)
    && forall j | 0 <= j < |slots| && j != k :: HasFree(slots', j) == HasFree(slots, j)
  }

  /** A slab that opens comes between its neighbours, and nothing else changes. */
  lemma NeighboursWhenOpened(slots: Slots, slots': Slots, k: nat, j: nat)
    requires OpenedAt(slots, slots', k) && HasFree(slots, j)
    ensures Older(slots', j) == if j == Younger(slots, k) then k else Older(slots, j)
    ensures Younger(slots', j + 1) == if j == Older(slots, k) then k else Younger(slots, j + 1)
  {
    var o, o', y, y' := Older(slots, j), Older(slots', j), Younger(slots, j + 1), Younger(slots', j + 1);
    assert o >= 0 ==> HasFree(slots', o);
    assert o' >= 0 && o' != k ==> HasFree(slots, o');
    assert y < |slots| ==> HasFree(slots', y);
    assert y' < |slots| && y' != k ==> HasFree(slots, y');
  }

  lemma EndsWhenOpened(slots: Slots, slots': Slots, k: nat)
    requires OpenedAt(slots, slots', k)
    ensures Older(slots', k) == Older(slots, k) && Younger(slots', k + 1) == Younger(slots, k) == Younger(slots, k + 1)
    ensures Older(slots', |slots|) == if Younger(slots, k) == |slots| then k else Older(slots, |slots|)
  {
    var o, o', y, y' := Older(slots, k), Older(slots', k), Younger(slots, k + 1), Younger(slots', k + 1);
    assert o >= 0 ==> HasFree(slots', o);
    assert o' >= 0 ==> HasFree(slots, o');
    assert y < |slots| ==> HasFree(slots', y);
    assert y' < |slots| ==> HasFree(slots, y');
    var p, p' := Older(slots, |slots|), Older(slots', |slots|);
    assert p >= 0 ==> HasFree(slots', p);
    assert p' >= 0 && p' != k ==> HasFree(slots, p');
  }

  /** Without the slab, its neighbours are each other's. */
  lemma NeighboursWhenClosed(slots: Slots, k: nat)
    requires k < |slots| && !HasFree(slots, k)
    ensures Older(slots, Younger(slots, k)) == Older(slots, k)
    ensures Older(slots, k) >= 0 ==> Younger(slots, Older(slots, k) + 1) == Younger(slots, k)
  {
    var o, y := Older(slots, k), Younger(slots, k);
    var o' := Older(slots, y);
    assert o' >= 0 ==> HasFree(slots, o');
    assert o >= 0 ==> HasFree(slots, o);
    if o >= 0 {
      var y' := Younger(slots, o + 1);
      assert y' < |slots| ==> HasFree(slots, y');
      assert y < |slots| ==> HasFree(slots, y);
    }
  }

  /** Writing an id opens the slab, closes it, or leaves the free list alone. */
  lemma WriteOpensOrCloses(slots: Slots, k: nat, i: nat, tag: Tag)
    requires k < |slots| && i < |slots[k]|
    ensures HasFree(slots, k) == HasFree(Write(slots, k, i, tag), k) ==>
      forall j | 0 <= j < |slots| :: HasFree(Write(slots, k, i, tag), j) == HasFree(slots, j)
    ensures !HasFree(slots, k) && HasFree(Write(slots, k, i, tag), k) ==> OpenedAt(slots, Write(slots, k, i, tag), k)
    ensures HasFree(slots, k) && !HasFree(Write(slots, k, i, tag), k) ==> OpenedAt(Write(slots, k, i, tag), slots, k)
  {
    var slots' := Write(slots, k, i, tag);
    assert forall j | 0 <= j < |slots| && j != k :: slots'[j] == slots[j];
  }

  /** The neighbours only depend on which slabs have free slots. */
  lemma SameNeighbours(slots: Slots, slots': Slots, j: nat)
    requires j <= |slots| == |slots'|
    requires forall m | 0 <= m < |slots| :: HasFree(slots', m) == HasFree(slots, m)
    ensures Older(slots', j) == Older(slots, j) && Younger(slots', j) == Younger(slots, j)
  {
    var o, o', y, y' := Older(slots, j), Older(slots', j), Younger(slots, j), Younger(slots', j);
    assert o >= 0 ==> HasFree(slots', o);
    assert o' >= 0 ==> HasFree(slots, o');
    assert y < |slots| ==> HasFree(slots', y);
    assert y' < |slots| ==> HasFree(slots, y');
  }

  /** Writing one id changes the counts by one at most. */
  lemma CountsOfUpdate(slots: Slots, k: nat, i: nat, tag: Tag)
    requires k < |slots| && i < |slots[k]|
    ensures Zeros(slots[k][i := tag]) == Zeros(slots[k]) - Cost(slots[k][i]) + Cost(tag)
    ensures FreeTotal(Write(slots, k, i, tag)) == FreeTotal(slots) - Cost(slots[k][i]) + Cost(tag)
  {
    ZerosOfUpdate(slots[k], i, tag, |slots[k]|);
    FreeFromUpdate(slots, k, slots[k][i := tag], 0);
  }

  lemma {:induction false} NoneFreeBetween(slots: Slots, j: nat, k: nat)
    requires j <= k <= |slots|
    requires forall m | j <= m < k :: !HasFree(slots, m)
    ensures FreeFrom(slots, j) == FreeFrom(slots, k)
    decreases k - j
  {
    if j < k {
      NoneFreeBetween(slots, j + 1, k);
      assert !HasFree(slots, j);
    }
  }

  /** A slab without free slots has no part in the free list. */
  lemma NeighboursOfAppend(slots: Slots, ids: seq<Tag>, k: nat)
    requires Zeros(ids) == 0 && k <= |slots|
    ensures Older(slots + [ids], k) == Older(slots, k)
    ensures Younger(slots + [ids], k) == if Younger(slots, k) == |slots| then |slots| + 1 else Younger(slots, k)
    ensures Older(slots + [ids], |slots| + 1) == Older(slots, |slots|)
  {
    var slots' := slots + [ids];
    assert forall m | 0 <= m < |slots| :: HasFree(slots', m) == HasFree(slots, m);
    assert !HasFree(slots', |slots|);
    var o, o', y, y' := Older(slots, k), Older(slots', k), Younger(slots, k), Younger(slots', k);
    assert o >= 0 ==> HasFree(slots', o);
    assert o' >= 0 ==> HasFree(slots, o');
    assert y < |slots| ==> HasFree(slots', y);
    assert y' < |slots| ==> HasFree(slots, y');
    var p, p' := Older(slots, |slots|), Older(slots', |slots| + 1);
    assert p >= 0 ==> HasFree(slots', p);
    assert p' >= 0 ==> HasFree(slots, p');
  }

  /** A new slab is one without free slots that opens. */
  lemma OpenNewSlab(slots: Slots, ids: seq<Tag>)
    requires Zeros(ids) > 0
    ensures OpenedAt(slots + [[]], slots + [ids], |slots|)
    ensures Younger(slots + [[]], |slots|) == |slots| + 1
  {
    assert forall j | 0 <= j < |slots| :: (slots + [[]])[j] == (slots + [ids])[j] == slots[j];
    assert !HasFree(slots + [[]], |slots|);
  }

  /** Where free slots are left below `k`, the free list goes on. */
  lemma OlderExists(slots: Slots, k: nat)
    requires k <= |slots|
    ensures FreeFrom(slots, Older(slots, k) + 1) == FreeFrom(slots, k)
    ensures FreeFrom(slots, k) < FreeTotal(slots) ==> Older(slots, k) >= 0
  {
    NoneFreeBetween(slots, Older(slots, k) + 1, k);
  }

  // ---------------------------------------------------------------------------------------
  // Choosing a slot
  // ---------------------------------------------------------------------------------------

  /** The number of free slots the walk over slabs and ids passes before it is at slot `i` of slab `k`. */
  function Rank(slots: Slots, k: nat, i: nat): nat
    requires k < |slots| && i < |slots[k]|
  {
    FreeFrom(slots, k + 1) + ZerosBefore(slots[k], i)
  }

  datatype Slot = Slot(slab: nat, index: nat)

  /** The free slot of a given rank. */
  function SlotOfRank(slots: Slots, offset: nat): (slot: Slot)
    requires offset < FreeTotal(slots)
    ensures IsFree(slots, slot.slab, slot.index) && Rank(slots, slot.slab, slot.index) == offset
  {
    SlotFrom(slots, 0, offset)
  }

  function SlotFrom(slots: Slots, k: nat, offset: nat): (slot: Slot)
    requires k <= |slots| && offset < FreeFrom(slots, k)
    ensures IsFree(slots, slot.slab, slot.index) && Rank(slots, slot.slab, slot.index) == offset
    decreases |slots| - k
  {
    if offset < FreeFrom(slots, k + 1) then SlotFrom(slots, k + 1, offset)
    else Slot(k, IndexOfRank(slots[k], |slots[k]|, offset - FreeFrom(slots, k + 1)))
  }

  function IndexOfRank(ids: seq<Tag>, n: nat, rank: nat): (i: nat)
    requires n <= |ids| && rank < ZerosBefore(ids, n)
    ensures i < n && ids[i] == 0 && ZerosBefore(ids, i) == rank
  {
    if ids[n - 1] == 0 && ZerosBefore(ids, n - 1) == rank then n - 1 else IndexOfRank(ids, n - 1, rank)
  }

  lemma {:induction false} FreeFromGrows(slots: Slots, j: nat, k: nat)
    requires j <= k <= |slots|
    ensures FreeFrom(slots, j) >= FreeFrom(slots, k)
    decreases k - j
  {
    if j < k {
      FreeFromGrows(slots, j + 1, k);
    }
  }

  /** The ranks of the free slots are numbers below the total, and different slots have different ranks. */
  lemma RankIsUnique(slots: Slots, k: nat, i: nat)
    requires IsFree(slots, k, i)
    ensures Rank(slots, k, i) < FreeTotal(slots)
    ensures SlotOfRank(slots, Rank(slots, k, i)) == Slot(k, i)
  {
    RankWithinSlab(slots, k, i);
    FreeFromGrows(slots, 0, k);
    var slot := SlotOfRank(slots, Rank(slots, k, i));
    RankWithinSlab(slots, slot.slab, slot.index);
    if slot.slab < k {
      FreeFromGrows(slots, slot.slab + 1, k);
    } else if slot.slab > k {
      FreeFromGrows(slots, k + 1, slot.slab);
    } else if slot.index < i {
      ZerosGrow(slots[k], slot.index, i);
    } else if slot.index > i {
      ZerosGrow(slots[k], i, slot.index);
    }
  }

  lemma RankWithinSlab(slots: Slots, k: nat, i: nat)
    requires IsFree(slots, k, i)
    ensures FreeFrom(slots, k + 1) <= Rank(slots, k, i) < FreeFrom(slots, k)
  {
    ZerosGrow(slots[k], i, |slots[k]|);
  }

  // ---------------------------------------------------------------------------------------
  // The free list as a sequence
  // ---------------------------------------------------------------------------------------

  /** The slabs below `k` that have free slots, youngest first. */
  function FreeSlabs(slots: Slots, k: nat): seq<nat>
    requires k <= |slots|
  {
    if k == 0 then [] else (if HasFree(slots, k - 1) then [k - 1] else []) + FreeSlabs(slots, k - 1)
  }

  /** Following the older neighbours. */
  function Chain(slots: Slots, k: int): seq<nat>
    requires k < |slots|
  {
    if k < 0 then [] else [k] + Chain(slots, Older(slots, k))
  }

  /** The neighbours run exactly over the slabs with free slots, in order. */
  lemma {:induction false} ChainIsFreeSlabs(slots: Slots, k: nat)
    requires k <= |slots|
    ensures Chain(slots, Older(slots, k)) == FreeSlabs(slots, k)
  {
    if k > 0 {
      ChainIsFreeSlabs(slots, k - 1);
    }
  }
}
