/**
 The trace runtime's set of edges: open addressing in one array that doubles in place.

 An edge is a pair of 64-bit words. The low bit of `traceSite` is bookkeeping: it names the
 epoch, that is, under which table size the slot was hashed. Doubling flips the epoch and
 rehashes inside the same array; an old-epoch edge in the way is evicted through the slot
 that is being emptied.
 */
module EdgeHashSet {
  import opened MachineWords

  const MAX_ATTEMPTS: nat := 1024

  datatype Edge = Edge(traceSite: U64, value: U64)

  /** What the set is a set of: an edge without its bookkeeping bit. */
  datatype Key = Key(site: nat, value: U64)

  const EDGE_ZERO := Edge(0, 0)

  function KeyOf(e: Edge): Key {
    Key(e.traceSite / 2, e.value)
  }

  predicate Present(e: Edge) {
    e.traceSite != 0
  }

  function EpochOf(e: Edge): nat {
    e.traceSite % 2
  }

  function SetEpoch(e: Edge, epoch: nat): (r: Edge)
    requires epoch < 2
    ensures KeyOf(r) == KeyOf(e) && EpochOf(r) == epoch
    ensures e.traceSite >= 2 ==> Present(r)
  {
    Edge(e.traceSite / 2 * 2 + epoch, e.value)
  }

  // ---------------------------------------------------------------------------------------
  // The probe sequence of an edge
  // ---------------------------------------------------------------------------------------

  /** The two hash functions. Nothing below depends on which ones they are. */
  datatype Hasher = Hasher(fnv1a: Key -> U64, murmur: U64 -> U64)

  /** The hash state after `k` calls: every fourth call mixes, the others add one with wrap-around. */
  function HashAfter(h: Hasher, key: Key, k: nat): U64
    requires k <= MAX_ATTEMPTS
  {
    if k == 0 then h.fnv1a(key)
    else NextHash(h, HashAfter(h, key, k - 1), MAX_ATTEMPTS - (k - 1))
  }

  function NextHash(h: Hasher, hash: U64, attemptsRemaining: nat): U64 {
    if attemptsRemaining % 4 == 3 then h.murmur(hash) else (hash + 1) % TWO_64
  }

  predicate IsPowerOfTwo(n: nat) {
    n == 1 || (n > 1 && n % 2 == 0 && IsPowerOfTwo(n / 2))
  }

  /** Bitwise conjunction, one bit at a time. */
  function BitAnd(a: nat, b: nat): (r: nat)
    ensures r <= b
  {
    if a == 0 || b == 0 then 0
    else 2 * BitAnd(a / 2, b / 2) + (if a % 2 == 1 && b % 2 == 1 then 1 else 0)
  }

  /** For a power of two `n`, masking with `n - 1` is the remainder modulo `n`. */
  lemma {:induction false} MaskIsRemainder(a: nat, n: nat)
    requires IsPowerOfTwo(n)
    ensures BitAnd(a, n - 1) == a % n
  {
    if n > 1 && a > 0 {
      var a', bit, m := a / 2, a % 2, n / 2;
      MaskIsRemainder(a', m);
      MaskOneBit(a', bit, m);
      RemainderOfDouble(a', bit, m);
    } else if a == 0 {
      assert 0 % n == 0;
    }
  }

  lemma MaskOneBit(a: nat, bit: nat, m: nat)
    requires m > 0 && bit < 2
    ensures BitAnd(2 * a + bit, 2 * m - 1) == 2 * BitAnd(a, m - 1) + bit
  {
    assert (2 * m - 1) / 2 == m - 1 && (2 * m - 1) % 2 == 1;
    assert (2 * a + bit) / 2 == a && (2 * a + bit) % 2 == bit;
  }

  lemma RemainderOfDouble(a: nat, bit: nat, m: nat)
    requires m > 0 && bit < 2
    ensures (2 * a + bit) % (2 * m) == 2 * (a % m) + bit
  {
    var q, r := a / m, a % m;
    assert a == m * q + r;
    DivisionIsUnique(2 * a + bit, 2 * m, q, 2 * r + bit);
  }

  lemma DivisionIsUnique(a: nat, n: nat, q: nat, r: nat)
    requires n > 0 && r < n && a == n * q + r
    ensures a % n == r
  {
    var q', r' := a / n, a % n;
    assert a == n * q' + r';
    assert n * (q - q') == r' - r;
    MultipleIsNotSmall(n, q - q');
  }

  lemma MultipleIsNotSmall(n: nat, d: int)
    ensures d >= 1 ==> n * d >= n
    ensures d <= -1 ==> n * d + n <= 0
  {
  }

  /** The slot that call number `k` of the index sequence yields. */
  function Probe(h: Hasher, count: nat, key: Key, k: nat): (slot: nat)
    requires count > 0 && k < MAX_ATTEMPTS
    ensures slot < count
  {
    BitAnd(HashAfter(h, key, k + 1), count - 1)
  }

  lemma Doubled(n: nat)
    requires IsPowerOfTwo(n)
    ensures IsPowerOfTwo(2 * n)
  {
    assert 2 * n / 2 == n;
  }

  lemma {:induction false} TimesPower(a: nat, b: nat)
    requires IsPowerOfTwo(a) && IsPowerOfTwo(b)
    ensures IsPowerOfTwo(a * b)
  {
    if a == 1 {
      assert a * b == b;
    } else {
      TimesPower(a / 2, b);
      Doubled(a / 2 * b);
      assert a * b == 2 * (a / 2 * b) by {
        assert a == 2 * (a / 2);
      }
    }
  }

  /** The hash has as many values as a power of two. */
  lemma WordIsPower()
    ensures IsPowerOfTwo(TWO_64)
  {
    assert IsPowerOfTwo(2) && IsPowerOfTwo(4);
    TimesPower(4, 4);
    TimesPower(0x10, 0x10);
    TimesPower(0x100, 0x100);
    TimesPower(0x1_0000, 0x1_0000);
    TimesPower(TWO_32, TWO_32);
  }

  lemma {:induction false} PowersDivide(a: nat, b: nat)
    requires IsPowerOfTwo(a) && IsPowerOfTwo(b) && a <= b
    ensures b % a == 0
  {
    if a > 1 {
      PowersDivide(a / 2, b / 2);
      RemainderOfDouble(b / 2, 0, a / 2);
    }
  }

  /** One more, with wrap-around at `w`. */
  function OneMore(a: nat, w: nat): nat {
    if a + 1 < w then a + 1 else 0
  }

  lemma Successor(a: nat, n: nat)
    requires n > 0
    ensures (a + 1) % n == OneMore(a % n, n)
  {
    var q, r := a / n, a % n;
    assert a == n * q + r;
    if r + 1 < n {
      DivisionIsUnique(a + 1, n, q, r + 1);
    } else {
      assert n * (q + 1) == n * q + n;
      DivisionIsUnique(a + 1, n, q + 1, 0);
    }
  }

  /** As many slots as the hash can tell apart. */
  function Reach(count: nat): (r: nat)
    ensures r <= count
  {
    if count < TWO_64 then count else TWO_64
  }

  lemma OneMoreIs(hash: U64)
    ensures (hash + 1) % TWO_64 == OneMore(hash, TWO_64) < TWO_64
  {
  }

  lemma OneMoreModulo(a: nat, w: nat, n: nat)
    requires n > 0 && a < w && w % n == 0
    ensures OneMore(a, w) % n == OneMore(a % n, n)
  {
    Successor(a, n);
    assert a + 1 < w || (a + 1 == w && 0 % n == 0);
  }

  lemma SmallModulo(a: nat, n: nat)
    requires a < n
    ensures a % n == a
  {
    DivisionIsUnique(a, n, 0, a);
  }

  /** The slot that a hash leads to, and the slot behind one. */
  function SlotOf(hash: nat, count: nat): nat
    requires count > 0
  {
    hash % count
  }

  function Behind(slot: nat, count: nat): nat
    requires count > 0
  {
    OneMore(slot, Reach(count))
  }

  /** Adding one to the hash, with wrap-around, goes to the next slot, with wrap-around. */
  lemma NextSlot(hash: U64, count: nat)
    requires IsPowerOfTwo(count)
    ensures SlotOf((hash + 1) % TWO_64, count) == Behind(SlotOf(hash, count), count)
  {
    hide OneMore;
    OneMoreIs(hash);
    var next := OneMore(hash, TWO_64);
    if count < TWO_64 {
      WordIsPower();
      PowersDivide(count, TWO_64);
      OneMoreModulo(hash, TWO_64, count);
    } else {
      assert next < count && hash < count;
      SmallModulo(hash, count);
      SmallModulo(next, count);
    }
  }

  /** Three of four probes look at the slot behind the one before. */
  lemma NextProbe(h: Hasher, count: nat, key: Key, k: nat)
    requires IsPowerOfTwo(count) && k + 1 < MAX_ATTEMPTS && k % 4 != 0
    ensures Probe(h, count, key, k + 1) == Behind(Probe(h, count, key, k), count)
  {
    hide *;
    ProbeIs(h, count, key, k);
    ProbeIs(h, count, key, k + 1);
    HashAddsOne(h, key, k + 1, count);
  }

  lemma ProbeIs(h: Hasher, count: nat, key: Key, k: nat)
    requires IsPowerOfTwo(count) && k < MAX_ATTEMPTS
    ensures Probe(h, count, key, k) == SlotOf(HashAfter(h, key, k + 1), count)
  {
    hide HashAfter;
    MaskIsRemainder(HashAfter(h, key, k + 1), count);
  }

  lemma HashAddsOne(h: Hasher, key: Key, k: nat, count: nat)
    requires k < MAX_ATTEMPTS && k % 4 != 1 && IsPowerOfTwo(count)
    ensures SlotOf(HashAfter(h, key, k + 1), count) == Behind(SlotOf(HashAfter(h, key, k), count), count)
  {
    hide SlotOf, Behind;
    NextSlot(HashAfter(h, key, k), count);
  }

  class IndexSequence {
    const hasher: Hasher
    const edgeCount: nat
    ghost const key: Key
    ghost var calls: nat
    var hash: U64
    var attemptsRemaining: nat

    ghost predicate Valid()
      reads this
    {
      && edgeCount > 0
      && calls + attemptsRemaining == MAX_ATTEMPTS
      && hash == HashAfter(hasher, key, calls)
    }

    constructor (hasher: Hasher, edgeCount: nat, e: Edge)
      requires edgeCount > 0
      ensures Valid() && calls == 0 && hash == hasher.fnv1a(KeyOf(e)) && attemptsRemaining == 1024
      ensures this.hasher == hasher && this.edgeCount == edgeCount && key == KeyOf(e)
    {
      this.hasher, this.edgeCount, this.key := hasher, edgeCount, KeyOf(e);
      hash := hasher.fnv1a(KeyOf(e));
      attemptsRemaining := MAX_ATTEMPTS;
      calls := 0;
    }

    /** The next slot to look at; `ok` is false when all attempts are used up. */
    method Next() returns (ok: bool, slot: nat)
      requires Valid()
      modifies this
      ensures Valid()
      ensures ok == (old(calls) < MAX_ATTEMPTS)
      ensures ok ==> calls == old(calls) + 1 && slot == Probe(hasher, edgeCount, key, old(calls))
      ensures ok && IsPowerOfTwo(edgeCount) ==>
        slot == hash % edgeCount
        && if old(attemptsRemaining) % 4 == 3 then hash == hasher.murmur(old(hash))
           else slot == OneMore(old(hash) % edgeCount, Reach(edgeCount))
    {
      if attemptsRemaining == 0 {
        return false, 0;
      }
      if IsPowerOfTwo(edgeCount) {
        NextSlot(hash, edgeCount);
        MaskIsRemainder(NextHash(hasher, hash, attemptsRemaining), edgeCount);
      }
      hash := NextHash(hasher, hash, attemptsRemaining);
      attemptsRemaining := attemptsRemaining - 1;
      calls := calls + 1;
      return true, BitAnd(hash, edgeCount - 1);
    }
  }

  // ---------------------------------------------------------------------------------------
  // What a table promises, as properties of the array's contents
  // ---------------------------------------------------------------------------------------

  /** The abstract set. */
  ghost function Keys(s: seq<Edge>): set<Key> {
    set p | 0 <= p < |s| && Present(s[p]) :: KeyOf(s[p])
  }

  predicate Settled(s: seq<Edge>, epoch: nat, p: int) {
    0 <= p < |s| && Present(s[p]) && EpochOf(s[p]) == epoch
  }

  /** Present edges hashed under the other epoch. */
  ghost function Unsettled(s: seq<Edge>, epoch: nat): set<nat> {
    set p | 0 <= p < |s| && Present(s[p]) && EpochOf(s[p]) != epoch
  }

  ghost predicate Unique(s: seq<Edge>) {
    forall p, q | 0 <= p < |s| && 0 <= q < |s| && Present(s[p]) && Present(s[q]) && KeyOf(s[p]) == KeyOf(s[q]) ::
      p == q
  }

  /** Slot `p` is probe number `k` of `key`, and the earlier probes are taken by settled edges. */
  ghost predicate FoundAt(h: Hasher, s: seq<Edge>, epoch: nat, key: Key, p: int, k: nat) {
    && |s| > 0 && k < MAX_ATTEMPTS
    && Probe(h, |s|, key, k) == p
    && forall j | 0 <= j < k :: Settled(s, epoch, Probe(h, |s|, key, j))
  }

  ghost predicate Findable(h: Hasher, s: seq<Edge>, epoch: nat) {
    forall p | Settled(s, epoch, p) :: exists k :: FoundAt(h, s, epoch, KeyOf(s[p]), p, k)
  }

  ghost predicate NonNull(s: seq<Edge>) {
    forall p | 0 <= p < |s| && Present(s[p]) :: s[p].traceSite >= 2
  }

  /** Between two `ResizeInsert` calls: only slots in [lo, hi) can still hold old-epoch edges. */
  ghost predicate Rehashing(h: Hasher, s: seq<Edge>, epoch: nat, lo: nat, hi: nat) {
    && Unique(s) && NonNull(s) && Findable(h, s, epoch)
    && forall p | 0 <= p < |s| && Present(s[p]) :: Settled(s, epoch, p) || lo <= p < hi
  }

  /** A table at rest. */
  ghost predicate Table(h: Hasher, s: seq<Edge>, epoch: nat) {
    Rehashing(h, s, epoch, 0, 0)
  }

  lemma RehashingRange(h: Hasher, s: seq<Edge>, epoch: nat, lo: nat, hi: nat)
    requires Unique(s) && NonNull(s) && Findable(h, s, epoch)
    requires forall p | p in Unsettled(s, epoch) :: lo <= p < hi
    ensures Rehashing(h, s, epoch, lo, hi)
  {
    forall p | 0 <= p < |s| && Present(s[p]) && !Settled(s, epoch, p) ensures lo <= p < hi {
      assert p in Unsettled(s, epoch);
    }
  }

  /** The first `n` probes of `key` are taken, by settled edges other than `key`. */
  ghost predicate Searched(h: Hasher, s: seq<Edge>, epoch: nat, key: Key, n: nat) {
    && |s| > 0 && n <= MAX_ATTEMPTS
    && forall j | 0 <= j < n :: Settled(s, epoch, Probe(h, |s|, key, j)) && KeyOf(s[Probe(h, |s|, key, j)]) != key
  }

  lemma NothingLeft(h: Hasher, s: seq<Edge>, epoch: nat, hi: nat)
    requires Rehashing(h, s, epoch, hi, hi)
    ensures Table(h, s, epoch)
  {
  }

  ghost function TakenSlots(s: seq<Edge>): nat {
    |set p: nat | p < |s| && Present(s[p])|
  }

  /** With pairwise different edges, the number of taken slots is the size of the set. */
  lemma PresentSlots(s: seq<Edge>)
    requires Unique(s)
    ensures TakenSlots(s) == |Keys(s)|
  {
    var slots := set p: nat | p < |s| && Present(s[p]);
    KeysOfSlots(s, slots);
    assert Keys(s) == set p | p in slots :: KeyOf(s[p]);
  }

  lemma {:induction false} KeysOfSlots(s: seq<Edge>, slots: set<nat>)
    requires Unique(s)
    requires forall p | p in slots :: p < |s| && Present(s[p])
    ensures |set p | p in slots :: KeyOf(s[p])| == |slots|
    decreases |slots|
  {
    if slots != {} {
      var q :| q in slots;
      var rest := slots - {q};
      KeysOfSlots(s, rest);
      var keys := set p | p in rest :: KeyOf(s[p]);
      assert KeyOf(s[q]) !in keys;
      assert (set p | p in slots :: KeyOf(s[p])) == keys + {KeyOf(s[q])};
    }
  }

  // ---------------------------------------------------------------------------------------
  // One rehash move, on contents
  // ---------------------------------------------------------------------------------------

  /**
   The contents after the edge in slot `i` has been settled in slot `q`: `q` holds the edge with
   the new epoch, and what was in `q` (the evicted edge, or nothing) has gone to `i`. When the
   probe ends at the slot being emptied, only the epoch bit changes.
   */
  function Move(s: seq<Edge>, epoch: nat, i: nat, q: nat): (s': seq<Edge>)
    requires i < |s| && q < |s| && epoch < 2
    ensures |s'| == |s|
  {
    if q == i then s[i := SetEpoch(s[i], epoch)]
    else s[q := SetEpoch(s[i], epoch)][i := if Present(s[q]) then s[q] else EDGE_ZERO]
  }

  /** The slots a move empties of old-epoch edges: one, always. */
  function MoveSettles(s: seq<Edge>, i: nat, q: nat): nat
    requires q < |s|
  {
    if q != i && Present(s[q]) then q else i
  }

  /** Where the edge in slot `p` came from when the contents of `i` and `q` trade places. */
  function Source(p: int, i: int, q: int): int {
    if p == q then i else if p == i then q else p
  }

  lemma MovedFrom(s: seq<Edge>, epoch: nat, i: nat, q: nat, p: nat)
    requires epoch < 2 && i in Unsettled(s, epoch) && q < |s| && NonNull(s) && p < |s|
    ensures var from, s' := s[Source(p, i, q)], Move(s, epoch, i, q);
            && Present(s'[p]) == Present(from)
            && (Present(from) ==> KeyOf(s'[p]) == KeyOf(from) && s'[p].traceSite >= 2)
            && (p != q ==> Present(from) ==> s'[p] == from)
            && (p == q ==> EpochOf(s'[p]) == epoch)
  {
  }

  lemma MoveConserves(s: seq<Edge>, epoch: nat, i: nat, q: nat)
    requires epoch < 2 && i in Unsettled(s, epoch) && q < |s| && !Settled(s, epoch, q)
    requires Unique(s) && NonNull(s)
    ensures Keys(Move(s, epoch, i, q)) == Keys(s)
    ensures Unique(Move(s, epoch, i, q)) && NonNull(Move(s, epoch, i, q))
  {
    hide Move, KeyOf, EpochOf;
    var s' := Move(s, epoch, i, q);
    forall p | 0 <= p < |s|
      ensures Present(s'[p]) == Present(s[Source(p, i, q)])
      ensures Present(s'[p]) ==> KeyOf(s'[p]) == KeyOf(s[Source(p, i, q)]) && s'[p].traceSite >= 2
    {
      MovedFrom(s, epoch, i, q, p);
    }
    forall k | k in Keys(s) ensures k in Keys(s') {
      var p :| 0 <= p < |s| && Present(s[p]) && KeyOf(s[p]) == k;
      var p' := Source(p, i, q);
      assert Source(p', i, q) == p;
      assert Present(s'[p']) && KeyOf(s'[p']) == k;
    }
  }

  lemma MoveSettlesOne(s: seq<Edge>, epoch: nat, i: nat, q: nat)
    requires epoch < 2 && i in Unsettled(s, epoch) && q < |s| && !Settled(s, epoch, q)
    requires NonNull(s)
    ensures MoveSettles(s, i, q) in Unsettled(s, epoch)
    ensures Unsettled(Move(s, epoch, i, q), epoch) == Unsettled(s, epoch) - {MoveSettles(s, i, q)}
  {
    forall p: nat | p < |s|
      ensures p in Unsettled(Move(s, epoch, i, q), epoch) <==> p in Unsettled(s, epoch) && p != MoveSettles(s, i, q)
    {
      MovedFrom(s, epoch, i, q, p);
    }
  }

  lemma MoveKeepsFindable(h: Hasher, s: seq<Edge>, epoch: nat, i: nat, q: nat, k: nat)
    requires epoch < 2 && i in Unsettled(s, epoch) && q < |s| && !Settled(s, epoch, q)
    requires NonNull(s) && Findable(h, s, epoch)
    requires FoundAt(h, s, epoch, KeyOf(s[i]), q, k)
    ensures Findable(h, Move(s, epoch, i, q), epoch)
  {
    var s' := Move(s, epoch, i, q);
    assert forall p | Settled(s, epoch, p) :: Settled(s', epoch, p) && s'[p] == s[p];
    forall p | Settled(s', epoch, p)
      ensures exists k' :: FoundAt(h, s', epoch, KeyOf(s'[p]), p, k')
    {
      if p == q {
        assert FoundAt(h, s', epoch, KeyOf(s'[p]), p, k);
      } else {
        assert Settled(s, epoch, p);
        var k' :| FoundAt(h, s, epoch, KeyOf(s[p]), p, k');
        assert FoundAt(h, s', epoch, KeyOf(s'[p]), p, k');
      }
    }
  }

  /** Flipping the epoch and doubling the array turns a table at rest into one to be rehashed. */
  lemma DoublingStartsRehash(h: Hasher, s: seq<Edge>, s': seq<Edge>, epoch: nat)
    requires epoch < 2 && Table(h, s, epoch)
    requires |s'| == 2 * |s| && s' == s + seq(|s|, _ => EDGE_ZERO)
    ensures Rehashing(h, s', 1 - epoch, 0, |s|) && Keys(s') == Keys(s)
  {
    forall p | 0 <= p < |s'| && Present(s'[p]) ensures p < |s| && s'[p] == s[p] && Settled(s, epoch, p) {
    }
    forall k | k in Keys(s) ensures k in Keys(s') {
      var p :| 0 <= p < |s| && Present(s[p]) && KeyOf(s[p]) == k;
      assert s'[p] == s[p];
    }
  }

  lemma InsertedKeys(s: seq<Edge>, e: Edge, q: nat)
    requires Unique(s) && NonNull(s) && e.traceSite >= 2 && KeyOf(e) !in Keys(s)
    requires q < |s| && !Present(s[q])
    ensures Unique(s[q := e]) && NonNull(s[q := e]) && Keys(s[q := e]) == Keys(s) + {KeyOf(e)}
  {
    var s' := s[q := e];
    assert forall p | 0 <= p < |s| && Present(s[p]) :: KeyOf(s[p]) in Keys(s) && s'[p] == s[p];
    assert Present(s'[q]);
  }

  /** Putting a new edge in the first free slot of its probe sequence. */
  lemma InsertAt(h: Hasher, s: seq<Edge>, epoch: nat, e: Edge, q: nat, k: nat)
    requires epoch < 2 && Table(h, s, epoch)
    requires e.traceSite >= 2 && EpochOf(e) == epoch && KeyOf(e) !in Keys(s)
    requires q < |s| && !Present(s[q]) && FoundAt(h, s, epoch, KeyOf(e), q, k)
    ensures Table(h, s[q := e], epoch) && Keys(s[q := e]) == Keys(s) + {KeyOf(e)}
  {
    var s' := s[q := e];
    InsertedKeys(s, e, q);
    forall p | Settled(s', epoch, p)
      ensures exists k' :: FoundAt(h, s', epoch, KeyOf(s'[p]), p, k')
    {
      if p == q {
        assert FoundAt(h, s', epoch, KeyOf(e), p, k);
      } else {
        assert Settled(s, epoch, p);
        var k' :| FoundAt(h, s, epoch, KeyOf(s[p]), p, k');
        assert FoundAt(h, s', epoch, KeyOf(s'[p]), p, k');
      }
    }
  }

  /** Meeting a free slot on an edge's probe sequence means that the edge is not in the table. */
  lemma AbsentWhenSlotFree(h: Hasher, s: seq<Edge>, epoch: nat, key: Key, q: nat, k: nat)
    requires Table(h, s, epoch)
    requires q < |s| && !Present(s[q]) && FoundAt(h, s, epoch, key, q, k)
    requires forall j | 0 <= j < k :: KeyOf(s[Probe(h, |s|, key, j)]) != key
    ensures key !in Keys(s)
  {
    forall p | 0 <= p < |s| && Present(s[p])
      ensures KeyOf(s[p]) != key
    {
      var k' :| FoundAt(h, s, epoch, KeyOf(s[p]), p, k');
    }
  }

  /** All probes of `key` are taken, by other edges. */
  ghost predicate AllTaken(h: Hasher, s: seq<Edge>, epoch: nat, key: Key) {
    Searched(h, s, epoch, key, MAX_ATTEMPTS)
  }

  /** No edge of a table has lost its place. */
  lemma NoneStuck(h: Hasher, s: seq<Edge>, epoch: nat)
    requires Table(h, s, epoch)
    ensures !Stuck(h, s, epoch, Keys(s))
  {
    forall key | key in Keys(s) ensures !AllTaken(h, s, epoch, key) {
      var p :| 0 <= p < |s| && Present(s[p]) && KeyOf(s[p]) == key;
      assert Settled(s, epoch, p);
      var k :| FoundAt(h, s, epoch, KeyOf(s[p]), p, k);
    }
  }

  /** The slot `q` and the three behind it, with wrap-around, are taken. */
  ghost predicate RowTaken(s: seq<Edge>, q: nat) {
    && q < Reach(|s|)
    && var a := OneMore(q, Reach(|s|));
       var b := OneMore(a, Reach(|s|));
       var c := OneMore(b, Reach(|s|));
       Present(s[q]) && Present(s[a]) && Present(s[b]) && Present(s[c])
  }

  ghost predicate Crowded(s: seq<Edge>) {
    exists q :: RowTaken(s, q)
  }

  /** Where all probes of an edge are taken, four slots in a row are. */
  lemma TakenInRow(h: Hasher, s: seq<Edge>, epoch: nat, key: Key)
    requires IsPowerOfTwo(|s|) && AllTaken(h, s, epoch, key)
    ensures Crowded(s)
  {
    hide IsPowerOfTwo, Probe;
    var count := |s|;
    NextProbe(h, count, key, 1);
    NextProbe(h, count, key, 2);
    NextProbe(h, count, key, 3);
    ProbeInReach(h, count, key, 1);
    var q := Probe(h, count, key, 1);
    assert Settled(s, epoch, q) && Settled(s, epoch, Probe(h, count, key, 2));
    assert Settled(s, epoch, Probe(h, count, key, 3)) && Settled(s, epoch, Probe(h, count, key, 4));
    assert RowTaken(s, q);
  }

  lemma ProbeInReach(h: Hasher, count: nat, key: Key, k: nat)
    requires IsPowerOfTwo(count) && k < MAX_ATTEMPTS
    ensures Probe(h, count, key, k) < Reach(count)
  {
    ProbeIs(h, count, key, k);
    if count >= TWO_64 {
      SmallModulo(HashAfter(h, key, k + 1), count);
    }
  }

  /** A crowded table is full, or has at least four edges. */
  lemma CrowdCount(s: seq<Edge>)
    requires IsPowerOfTwo(|s|) && Unique(s) && Crowded(s)
    ensures |Keys(s)| >= if |s| < 4 then |s| else 4
  {
    hide Keys, Unique;
    var n := Reach(|s|);
    var q :| RowTaken(s, q);
    var a := OneMore(q, n);
    var b := OneMore(a, n);
    var row := {q, a, b, OneMore(b, n)};
    PresentSlots(s);
    var taken := set p: nat | p < |s| && Present(s[p]);
    assert row <= taken;
    RowSize(q, n);
    SubsetIsSmaller(row, taken);
  }

  lemma RowSize(q: nat, n: nat)
    requires q < n && (n == 1 || n == 2 || n >= 4)
    ensures
      var a := OneMore(q, n);
      var b := OneMore(a, n);
      |{q, a, b, OneMore(b, n)}| == if n < 4 then n else 4
  {
    var a := OneMore(q, n);
    var b := OneMore(a, n);
    if n == 1 {
      assert {q, a, b, OneMore(b, n)} == {0};
    } else if n == 2 {
      assert {q, a, b, OneMore(b, n)} == {0, 1};
    }
  }

  lemma SubsetIsSmaller(a: set<nat>, b: set<nat>)
    requires a <= b
    ensures |a| <= |b|
  {
    assert b == a + (b - a);
  }

  /** One of these edges has no place left. */
  ghost predicate Stuck(h: Hasher, s: seq<Edge>, epoch: nat, keys: set<Key>) {
    exists key :: key in keys && AllTaken(h, s, epoch, key)
  }

  lemma SameSlotsSameKeys(s: seq<Edge>, s': seq<Edge>)
    requires |s| == |s'|
    requires forall p | 0 <= p < |s| :: Present(s[p]) <==> Present(s'[p])
    requires forall p | 0 <= p < |s| :: KeyOf(s[p]) == KeyOf(s'[p])
    ensures Keys(s) == Keys(s')
  {
    forall key ensures key in Keys(s) <==> key in Keys(s') {
      if key in Keys(s) {
        var p :| 0 <= p < |s| && Present(s[p]) && KeyOf(s[p]) == key;
        assert Present(s'[p]) && KeyOf(s'[p]) == key;
      }
      if key in Keys(s') {
        var p :| 0 <= p < |s'| && Present(s'[p]) && KeyOf(s'[p]) == key;
        assert Present(s[p]) && KeyOf(s[p]) == key;
      }
    }
  }

  lemma StuckInCrowd(h: Hasher, s: seq<Edge>, epoch: nat, keys: set<Key>)
    requires IsPowerOfTwo(|s|) && Unique(s) && Stuck(h, s, epoch, keys)
    ensures Crowded(s) && |Keys(s)| >= if |s| < 4 then |s| else 4
  {
    var key :| key in keys && AllTaken(h, s, epoch, key);
    TakenInRow(h, s, epoch, key);
    CrowdCount(s);
  }

  /** Settling one more edge frees no slot. */
  lemma StillTaken(h: Hasher, s: seq<Edge>, epoch: nat, i: nat, key: Key)
    requires epoch < 2 && i in Unsettled(s, epoch) && NonNull(s) && AllTaken(h, s, epoch, key)
    ensures AllTaken(h, s[i := SetEpoch(s[i], epoch)], epoch, key)
    ensures Keys(s[i := SetEpoch(s[i], epoch)]) == Keys(s)
    ensures Unique(s) ==> Unique(s[i := SetEpoch(s[i], epoch)])
  {
    var s' := s[i := SetEpoch(s[i], epoch)];
    SameSlotsSameKeys(s, s');
    forall j | 0 <= j < MAX_ATTEMPTS
      ensures Settled(s', epoch, Probe(h, |s|, key, j)) && KeyOf(s'[Probe(h, |s|, key, j)]) != key
    {
      assert Settled(s, epoch, Probe(h, |s|, key, j));
    }
  }

  // ---------------------------------------------------------------------------------------
  // The set itself
  // ---------------------------------------------------------------------------------------

  /** What `AddEdge` did. `Aborted` is a failed assertion: the process is gone. */
  datatype Outcome = Inserted | Duplicate | Aborted

  /** What `ResizeInsert` returned: `Again` asks for another call on the same slot. */
  datatype Rehash = Again | Done | Exhausted

  /**
   The effect of a `ResizeInsert` call on slot `i`: it keeps the set of edges, and settles slot `i` or, if it
   asks for another call, some other slot. It gives up only when all probes of the edge in slot `i` are taken.
   */
  ghost predicate Resized(h: Hasher, s: seq<Edge>, s': seq<Edge>, epoch: nat, i: nat, r: Rehash)
    requires i < |s| == |s'|
  {
    && (r.Exhausted? ==> Present(s[i]) && AllTaken(h, s', epoch, KeyOf(s[i])))
    && Keys(s') == Keys(s) && Unique(s')
    && (!r.Exhausted? ==> NonNull(s') && Findable(h, s', epoch))
    && (r.Again? ==> exists q | q in Unsettled(s, epoch) && q != i :: Unsettled(s', epoch) == Unsettled(s, epoch) - {q})
    && (r.Done? ==> Unsettled(s', epoch) == Unsettled(s, epoch) - {i})
    && (i !in Unsettled(s, epoch) ==> r.Done? && s' == s)
  }

  /** While slot `i` is being rehashed: `keys` is the set of edges all along. */
  ghost predicate RehashingSlot(h: Hasher, s: seq<Edge>, epoch: nat, i: nat, hi: nat, keys: set<Key>, r: Rehash) {
    && Keys(s) == keys && Unique(s)
    && (r.Exhausted? ==> Stuck(h, s, epoch, keys))
    && (!r.Exhausted? ==>
          && NonNull(s) && Findable(h, s, epoch)
          && forall p | p in Unsettled(s, epoch) :: i <= p < hi)
    && (r.Done? ==> i !in Unsettled(s, epoch))
  }

  lemma NextCall(h: Hasher, s: seq<Edge>, s': seq<Edge>, epoch: nat, i: nat, hi: nat, keys: set<Key>, r: Rehash)
    requires i < |s| == |s'|
    requires RehashingSlot(h, s, epoch, i, hi, keys, Again) && Resized(h, s, s', epoch, i, r)
    ensures RehashingSlot(h, s', epoch, i, hi, keys, r)
    ensures r.Again? ==> |Unsettled(s', epoch)| < |Unsettled(s, epoch)|
  {
    assert Present(s[i]) ==> KeyOf(s[i]) in Keys(s);
  }

  function TwoTo(n: nat): nat {
    if n == 0 then 1 else 2 * TwoTo(n - 1)
  }

  lemma {:induction false} TwoToIsPower(n: nat)
    ensures IsPowerOfTwo(TwoTo(n))
  {
    if n > 0 {
      TwoToIsPower(n - 1);
      Doubled(TwoTo(n - 1));
    }
  }

  lemma EmptyTable(h: Hasher, s: seq<Edge>)
    requires forall p | 0 <= p < |s| :: s[p] == EDGE_ZERO
    ensures Table(h, s, 0) && Keys(s) == {}
  {
  }

  class EdgeHashSet {
    const hasher: Hasher
    var edgeCount: nat
    var insertedEdges: nat
    var resizeThreshold: nat
    var edges: array<Edge>
    var epoch: nat

    ghost predicate Sized()
      reads this
    {
      && edges.Length == edgeCount
      && IsPowerOfTwo(edgeCount)
      && epoch < 2
    }

    ghost predicate Valid()
      reads this, edges
    {
      && Sized()
      && Table(hasher, edges[..], epoch)
      && insertedEdges == |Contents()| <= resizeThreshold
      && resizeThreshold == edgeCount * 3 / 4
    }

    ghost function Contents(): set<Key>
      reads this, edges
    {
      Keys(edges[..])
    }

    constructor (hasher: Hasher, log2InitialBufferSize: nat)
      ensures Valid() && Contents() == {}
      ensures fresh(edges) && edgeCount == TwoTo(log2InitialBufferSize) && epoch == 0 && this.hasher == hasher
    {
      this.hasher := hasher;
      epoch := 0;
      insertedEdges := 0;
      var count: nat := 1;
      for i := 0 to log2InitialBufferSize
        invariant count == TwoTo(i)
      {
        count := 2 * count;
      }
      TwoToIsPower(log2InitialBufferSize);
      edgeCount := count;
      edges := new Edge[count](_ => EDGE_ZERO);
      resizeThreshold := count * 3 / 4;
      new;
      EmptyTable(hasher, edges[..]);
    }

    /** One attempt to rehash the edge in slot `i` into its place under the current size. */
    method ResizeInsert(i: nat) returns (r: Rehash)
      requires Sized() && i < edges.Length
      requires Unique(edges[..]) && NonNull(edges[..]) && Findable(hasher, edges[..], epoch)
      modifies edges
      ensures Resized(hasher, old(edges[..]), edges[..], epoch, i, r)
    {
      hide Keys, Findable, HashAfter, BitAnd, IsPowerOfTwo;
      ghost var s := edges[..];
      if !Present(edges[i]) || EpochOf(edges[i]) == epoch {
        return Done;
      }
      assert i in Unsettled(s, epoch);
      edges[i] := SetEpoch(edges[i], epoch);
      var sequence := new IndexSequence(hasher, edgeCount, edges[i]);
      ghost var key := KeyOf(s[i]);
      while true
        modifies sequence, edges
        invariant sequence.Valid() && sequence.hasher == hasher && sequence.edgeCount == |s| && sequence.key == key
        invariant edges[..] == s[i := SetEpoch(s[i], epoch)]
        invariant Searched(hasher, s, epoch, key, sequence.calls)
        decreases sequence.attemptsRemaining
      {
        ghost var k := sequence.calls;
        var ok, q := sequence.Next();
        if !ok {
          StillTaken(hasher, s, epoch, i, key);
          return Exhausted;
        }
        if Present(edges[q]) && EpochOf(edges[q]) == epoch {
          if KeyOf(edges[i]) == KeyOf(edges[q]) {
            assert q == i;
            Moved(s, i, q, k);
            return Done;
          }
        } else if Present(edges[q]) {
          edges[i], edges[q] := edges[q], edges[i];
          Moved(s, i, q, k);
          return Again;
        } else {
          edges[q] := SetEpoch(edges[i], epoch);
          edges[i] := EDGE_ZERO;
          Moved(s, i, q, k);
          return Done;
        }
      }
    }

    lemma Moved(s: seq<Edge>, i: nat, q: nat, k: nat)
      requires epoch < 2 && i in Unsettled(s, epoch) && q < |s| && !Settled(s, epoch, q)
      requires Unique(s) && NonNull(s) && Findable(hasher, s, epoch)
      requires FoundAt(hasher, s, epoch, KeyOf(s[i]), q, k)
      requires edges[..] == Move(s, epoch, i, q)
      ensures Keys(edges[..]) == Keys(s)
      ensures Unique(edges[..]) && NonNull(edges[..]) && Findable(hasher, edges[..], epoch)
      ensures MoveSettles(s, i, q) in Unsettled(s, epoch)
      ensures Unsettled(edges[..], epoch) == Unsettled(s, epoch) - {MoveSettles(s, i, q)}
    {
      MoveConserves(s, epoch, i, q);
      MoveSettlesOne(s, epoch, i, q);
      MoveKeepsFindable(hasher, s, epoch, i, q, k);
    }

    /** Rehash slot `i` until it holds no old-epoch edge: the whole chain of evictions it starts. */
    method RehashSlot(i: nat, hi: nat) returns (ok: bool)
      requires Sized() && i < hi <= edges.Length
      requires Rehashing(hasher, edges[..], epoch, i, hi)
      modifies edges
      ensures Contents() == old(Contents()) && Unique(edges[..])
      ensures ok ==> Rehashing(hasher, edges[..], epoch, i + 1, hi)
      ensures !ok ==> Stuck(hasher, edges[..], epoch, old(Keys(edges[..])))
    {
      ghost var keys, s := Keys(edges[..]), edges[..];
      var r := ResizeInsert(i);
      NextCall(hasher, s, edges[..], epoch, i, hi, keys, r);
      while r.Again?
        modifies edges
        invariant RehashingSlot(hasher, edges[..], epoch, i, hi, keys, r)
        decreases r.Again?, |Unsettled(edges[..], epoch)|
      {
        s := edges[..];
        r := ResizeInsert(i);
        NextCall(hasher, s, edges[..], epoch, i, hi, keys, r);
      }
      if r.Done? {
        RehashingRange(hasher, edges[..], epoch, i + 1, hi);
      }
      return r.Done?;
    }

    /** Double the array in place and rehash everything in it. False when some probe sequence ran out. */
    method IncreaseSize() returns (ok: bool)
      requires Valid()
      modifies this, edges
      ensures fresh(edges)
      ensures Sized() && Contents() == old(Contents()) && Unique(edges[..])
      ensures edgeCount == 2 * old(edgeCount) && epoch == 1 - old(epoch) && insertedEdges == old(insertedEdges)
      ensures ok ==> Valid()
      ensures ok ==> TakenSlots(edges[..]) == old(TakenSlots(edges[..]))
      ensures ok <==> !Stuck(hasher, edges[..], epoch, old(Contents()))
    {
      ghost var before := edges[..];
      var oldCount := edgeCount;
      Double();
      ok := RehashAll(oldCount);
      if ok {
        resizeThreshold := edgeCount * 3 / 4;
        NoneStuck(hasher, edges[..], epoch);
        PresentSlots(before);
        PresentSlots(edges[..]);
      }
    }

    /** Flip the epoch, and double the mapping. */
    method Double()
      requires Sized() && Table(hasher, edges[..], epoch)
      modifies `epoch, `edgeCount, `edges
      ensures fresh(edges) && Sized() && edgeCount == 2 * old(edgeCount) && epoch == 1 - old(epoch)
      ensures Rehashing(hasher, edges[..], epoch, 0, old(edgeCount)) && Contents() == old(Contents())
    {
      ghost var before := edges[..];
      epoch := 1 - epoch;
      var oldCount := edgeCount;
      edgeCount := edgeCount * 2;
      Remap(oldCount);
      DoublingStartsRehash(hasher, before, edges[..], 1 - epoch);
    }

    /** Rehash all slots that were there before the doubling. */
    method RehashAll(oldCount: nat) returns (ok: bool)
      requires Sized() && oldCount <= edges.Length && Rehashing(hasher, edges[..], epoch, 0, oldCount)
      modifies edges
      ensures Contents() == old(Contents()) && Unique(edges[..])
      ensures ok ==> Table(hasher, edges[..], epoch)
      ensures !ok ==> Stuck(hasher, edges[..], epoch, old(Contents()))
    {
      ghost var keys := Contents();
      for i := 0 to oldCount
        invariant Contents() == keys && Rehashing(hasher, edges[..], epoch, i, oldCount)
      {
        ok := RehashSlot(i, oldCount);
        if !ok {
          return;
        }
      }
      NothingLeft(hasher, edges[..], epoch, oldCount);
      ok := true;
    }

    /** Grow the file and its mapping: the old contents stay, the new half reads as zeros. */
    method Remap(oldCount: nat)
      requires edges.Length == oldCount && edgeCount == 2 * oldCount
      modifies `edges
      ensures fresh(edges) && edges[..] == old(edges[..]) + seq(oldCount, _ => EDGE_ZERO)
    {
      var mapped := new Edge[edgeCount](_ => EDGE_ZERO);
      forall p | 0 <= p < oldCount {
        mapped[p] := edges[p];
      }
      edges := mapped;
    }

    /** Add an edge. An odd `traceSite` fails the assertion on entry; a null one spoils the table. */
    method AddEdge(e: Edge) returns (r: Outcome)
      requires Valid()
      modifies this, edges
      ensures edges == old(edges) || fresh(edges)
      ensures EpochOf(e) != 0 ==> r.Aborted?
      ensures r.Aborted? ==> EpochOf(e) != 0 || Stuck(hasher, edges[..], epoch, old(Contents()) + {KeyOf(e)})
      ensures !r.Aborted? && Present(e) ==>
        EpochOf(e) == 0 && !Stuck(hasher, edges[..], epoch, old(Contents()) + {KeyOf(e)})
      ensures r.Aborted? && EpochOf(e) == 0 ==> |old(Contents())| >= 4 && Crowded(edges[..])
      ensures old(insertedEdges < resizeThreshold) ==>
        (r.Aborted? <==> EpochOf(e) != 0 || AllTaken(hasher, old(edges[..]), old(epoch), KeyOf(e)))
      ensures !r.Aborted? ==> (Valid() <==> Present(e))
      ensures !r.Aborted? && Present(e) ==>
        && (r.Inserted? <==> KeyOf(e) !in old(Contents()))
        && Contents() == old(Contents()) + {KeyOf(e)}
    {
      if EpochOf(e) != 0 {
        return Aborted;
      }
      if insertedEdges >= resizeThreshold {
        var ok := IncreaseSize();
        if !ok {
          StuckInCrowd(hasher, edges[..], epoch, Contents());
          return Aborted;
        }
        assert insertedEdges < resizeThreshold;
      }
      r := Insert(e);
      if !r.Aborted? && Present(e) {
        NoneStuck(hasher, edges[..], epoch);
      }
    }

    /** The rest of `AddEdge`, once there is room below the threshold. */
    method Insert(e: Edge) returns (r: Outcome)
      requires Valid() && insertedEdges < resizeThreshold && EpochOf(e) == 0
      modifies `insertedEdges, edges
      ensures r.Aborted? <==> AllTaken(hasher, old(edges[..]), epoch, KeyOf(e))
      ensures r.Aborted? ==> edges[..] == old(edges[..]) && KeyOf(e) !in Contents()
      ensures r.Aborted? ==> |Contents()| >= 4 && Crowded(edges[..])
      ensures !r.Aborted? ==> (Valid() <==> Present(e))
      ensures !r.Aborted? && Present(e) ==>
        && (r.Inserted? <==> KeyOf(e) !in old(Contents()))
        && Contents() == old(Contents()) + {KeyOf(e)}
    {
      var slot;
      r, slot := FindSlot(e);
      if r.Inserted? {
        Place(slot, e);
      } else if r.Aborted? {
        CrowdCount(edges[..]);
      }
    }

    method Place(slot: nat, e: Edge)
      requires Valid() && insertedEdges < resizeThreshold
      requires slot < edges.Length && FillsWith(edges[..], slot, e)
      modifies `insertedEdges, edges
      ensures Valid() <==> Present(e)
      ensures Present(e) ==> KeyOf(e) !in old(Contents()) && Contents() == old(Contents()) + {KeyOf(e)}
    {
      hide Table, HashAfter, IsPowerOfTwo;
      ghost var s := edges[..];
      insertedEdges := insertedEdges + 1;
      edges[slot] := SetEpoch(e, epoch);
      assert edges[..] == s[slot := SetEpoch(e, epoch)];
    }

    /** The probe loop: the first free slot, or a duplicate, or no attempts left. */
    method FindSlot(e: Edge) returns (r: Outcome, slot: nat)
      requires Sized() && Table(hasher, edges[..], epoch) && EpochOf(e) == 0
      ensures r.Inserted? ==> slot < edges.Length && FillsWith(edges[..], slot, e)
      ensures r.Duplicate? ==> KeyOf(e) in Contents() && Present(e)
      ensures r.Aborted? <==> AllTaken(hasher, edges[..], epoch, KeyOf(e))
      ensures r.Aborted? ==> KeyOf(e) !in Contents() && Crowded(edges[..])
    {
      var sequence := new IndexSequence(hasher, edgeCount, SetEpoch(e, epoch));
      while true
        modifies sequence
        invariant sequence.Valid() && sequence.hasher == hasher && sequence.edgeCount == edgeCount
        invariant sequence.key == KeyOf(e)
        invariant Searched(hasher, edges[..], epoch, KeyOf(e), sequence.calls)
        decreases sequence.attemptsRemaining
      {
        ghost var k := sequence.calls;
        var ok, q := sequence.Next();
        if !ok {
          assert AllTaken(hasher, edges[..], epoch, KeyOf(e));
          NoneStuck(hasher, edges[..], epoch);
          TakenInRow(hasher, edges[..], epoch, KeyOf(e));
          return Aborted, 0;
        }
        if !Present(edges[q]) {
          Filled(hasher, edges[..], epoch, e, q, k);
          return Inserted, q;
        }
        if KeyOf(edges[q]) == KeyOf(e) {
          assert KeyOf(edges[..][q]) in Contents();
          return Duplicate, q;
        }
      }
    }

    /** Writing `e` to `slot` adds it to the set, and gives a table again exactly when `e` is not null. */
    ghost predicate FillsWith(s: seq<Edge>, slot: nat, e: Edge)
      requires slot < |s| && epoch < 2
      reads this
    {
      var s' := s[slot := SetEpoch(e, epoch)];
      && (Present(e) <==> Table(hasher, s', epoch) && |Keys(s')| == |Keys(s)| + 1)
      && (Present(e) ==> KeyOf(e) !in Keys(s) && Keys(s') == Keys(s) + {KeyOf(e)})
    }
  }

  /** A null edge is either written without becoming present, or becomes a present null edge. */
  lemma NullSpoils(s: seq<Edge>, q: nat, e: Edge)
    requires q < |s| && !Present(s[q]) && e.traceSite < 2
    ensures if Present(e) then !NonNull(s[q := e]) else Keys(s[q := e]) == Keys(s)
  {
    var s' := s[q := e];
    if Present(e) {
      assert Present(s'[q]);
    } else {
      forall k | k in Keys(s) ensures k in Keys(s') {
        var p :| 0 <= p < |s| && Present(s[p]) && KeyOf(s[p]) == k;
        assert s'[p] == s[p];
      }
      forall k | k in Keys(s') ensures k in Keys(s) {
        var p :| 0 <= p < |s'| && Present(s'[p]) && KeyOf(s'[p]) == k;
        assert s'[p] == s[p];
      }
    }
  }

  /** The state after `AddEdge` has filled a free slot, for every kind of edge it lets through. */
  lemma Filled(h: Hasher, s: seq<Edge>, epoch: nat, e: Edge, q: nat, k: nat)
    requires epoch < 2 && Table(h, s, epoch) && EpochOf(e) == 0
    requires Searched(h, s, epoch, KeyOf(e), k) && k < MAX_ATTEMPTS
    requires q == Probe(h, |s|, KeyOf(e), k) && !Present(s[q])
    ensures var s' := s[q := SetEpoch(e, epoch)];
            && (Present(e) <==> Table(h, s', epoch) && |Keys(s')| == |Keys(s)| + 1)
            && (Present(e) ==> KeyOf(e) !in Keys(s) && Keys(s') == Keys(s) + {KeyOf(e)})
  {
    if Present(e) {
      AbsentWhenSlotFree(h, s, epoch, KeyOf(e), q, k);
      InsertAt(h, s, epoch, SetEpoch(e, epoch), q, k);
    } else {
      NullSpoils(s, q, SetEpoch(e, epoch));
    }
  }

  /** The keys of a list of edges. */
  ghost function KeysOf(es: seq<Edge>): set<Key> {
    set i | 0 <= i < |es| :: KeyOf(es[i])
  }

  /** What call `i` of a run must report, by the mathematical set. */
  ghost function Expected(start: set<Key>, es: seq<Edge>, i: nat): Outcome
    requires i < |es|
  {
    if KeyOf(es[i]) in start + KeysOf(es[..i]) then Duplicate else Inserted
  }

  ghost predicate AsExpected(start: set<Key>, es: seq<Edge>, rs: seq<Outcome>) {
    |rs| <= |es| && forall i | 0 <= i < |rs| :: rs[i] == Expected(start, es, i)
  }

  /**
   Any run of insertions, with any number of doublings in between: unless the process aborts,
   call `i` reports an insertion exactly when its edge is not among the earlier ones, and the
   table ends up holding exactly the edges of the run, counted by `insertedEdges`.
   */
  method AddAll(hs: EdgeHashSet, es: seq<Edge>) returns (ok: bool, rs: seq<Outcome>)
    requires hs.Valid()
    requires forall i | 0 <= i < |es| :: Present(es[i])
    modifies hs, hs.edges
    ensures ok ==>
      && |rs| == |es| && hs.Valid()
      && hs.Contents() == old(hs.Contents()) + KeysOf(es)
      && AsExpected(old(hs.Contents()), es, rs)
    ensures ok <==>
      && (forall i | 0 <= i < |es| :: EpochOf(es[i]) == 0)
      && !Stuck(hs.hasher, hs.edges[..], hs.epoch, old(hs.Contents()) + KeysOf(es))
    ensures !ok ==>
      |rs| < |es| && (EpochOf(es[|rs|]) != 0 || |old(hs.Contents()) + KeysOf(es[..|rs|])| >= 4)
  {
    hide AddedSoFar, AsExpected, KeysOf, Stuck, Table, Keys, IsPowerOfTwo, KeyOf, EpochOf;
    rs := [];
    ghost var start := hs.Contents();
    NothingAdded(start, es);
    for i := 0 to |es|
      invariant hs.Valid() && |rs| == i
      invariant hs.edges == old(hs.edges) || fresh(hs.edges)
      invariant AddedSoFar(start, es, rs, hs.Contents())
      invariant forall k | 0 <= k < i :: EpochOf(es[k]) == 0
    {
      ghost var before := hs.Contents();
      var r := hs.AddEdge(es[i]);
      if r.Aborted? {
        SoFar(start, es, rs, before);
        StuckOnRun(hs.hasher, hs.edges[..], hs.epoch, start, es, rs, before);
        return false, rs;
      }
      AddedNext(start, es, rs, before, r);
      rs := rs + [r];
    }
    AllAdded(start, es, rs, hs.Contents());
    NoneStuck(hs.hasher, hs.edges[..], hs.epoch);
    return true, rs;
  }

  /** On a new set, a call reports an insertion exactly when the very same edge was not added before. */
  method AddAllToNew(hasher: Hasher, log2InitialBufferSize: nat, es: seq<Edge>) returns (ok: bool, rs: seq<Outcome>)
    requires forall i | 0 <= i < |es| :: Present(es[i])
    ensures ok ==> |rs| == |es| && forall i | 0 <= i < |es| :: rs[i] == if es[i] in es[..i] then Duplicate else Inserted
    ensures !ok ==> |rs| < |es| && (EpochOf(es[|rs|]) != 0 || |rs| >= 4)
  {
    var hs := new EdgeHashSet(hasher, log2InitialBufferSize);
    ok, rs := AddAll(hs, es);
    if ok {
      forall i | 0 <= i < |es| ensures rs[i] == if es[i] in es[..i] then Duplicate else Inserted {
        assert rs[i] == Expected({}, es, i);
        SameEdges(es, i);
      }
    } else {
      KeyCount(es[..|rs|]);
      assert {} + KeysOf(es[..|rs|]) == KeysOf(es[..|rs|]);
    }
  }

  lemma {:induction false} KeyCount(es: seq<Edge>)
    ensures |KeysOf(es)| <= |es|
  {
    if es != [] {
      KeyCount(es[..|es| - 1]);
      KeysOfNext(es, |es| - 1);
      assert es[..|es|] == es;
    }
  }

  /** Among edges with the bookkeeping bit clear, those with the same key are the same. */
  lemma SameEdges(es: seq<Edge>, i: nat)
    requires i < |es| && forall j | 0 <= j < |es| :: EpochOf(es[j]) == 0
    ensures KeyOf(es[i]) in KeysOf(es[..i]) <==> es[i] in es[..i]
  {
    if KeyOf(es[i]) in KeysOf(es[..i]) {
      var j :| 0 <= j < i && KeyOf(es[..i][j]) == KeyOf(es[i]);
      assert es[..i][j] == es[j] == es[i];
    }
    if es[i] in es[..i] {
      var j :| 0 <= j < i && es[..i][j] == es[i];
    }
  }

  /** The set after the first `|rs|` calls, and their answers. */
  ghost predicate AddedSoFar(start: set<Key>, es: seq<Edge>, rs: seq<Outcome>, contents: set<Key>) {
    AsExpected(start, es, rs) && contents == start + KeysOf(es[..|rs|])
  }

  lemma NothingAdded(start: set<Key>, es: seq<Edge>)
    ensures AddedSoFar(start, es, [], start)
  {
    assert KeysOf(es[..0]) == {};
  }

  lemma SoFar(start: set<Key>, es: seq<Edge>, rs: seq<Outcome>, contents: set<Key>)
    requires AddedSoFar(start, es, rs, contents)
    ensures |rs| <= |es| && contents == start + KeysOf(es[..|rs|])
  {
  }

  lemma AllAdded(start: set<Key>, es: seq<Edge>, rs: seq<Outcome>, contents: set<Key>)
    requires AddedSoFar(start, es, rs, contents) && |rs| == |es|
    ensures AsExpected(start, es, rs) && contents == start + KeysOf(es)
  {
    assert es[..|es|] == es;
  }

  lemma AddedNext(start: set<Key>, es: seq<Edge>, rs: seq<Outcome>, before: set<Key>, r: Outcome)
    requires AddedSoFar(start, es, rs, before) && |rs| < |es| && !r.Aborted?
    requires r.Inserted? <==> KeyOf(es[|rs|]) !in before
    ensures AddedSoFar(start, es, rs + [r], before + {KeyOf(es[|rs|])})
  {
    KeysOfNext(es, |rs|);
    AsExpectedNext(start, es, rs, r);
  }

  /** If the call gives up on an edge, it is one of the run or one that was there at the start. */
  lemma StuckOnRun(
      h: Hasher, s: seq<Edge>, epoch: nat, start: set<Key>, es: seq<Edge>, rs: seq<Outcome>, before: set<Key>)
    requires AddedSoFar(start, es, rs, before) && |rs| < |es|
    ensures Stuck(h, s, epoch, before + {KeyOf(es[|rs|])}) ==> Stuck(h, s, epoch, start + KeysOf(es))
  {
    forall key | key in before + {KeyOf(es[|rs|])} ensures key in start + KeysOf(es) {
      if key in KeysOf(es[..|rs|]) {
        var j :| 0 <= j < |rs| && KeyOf(es[..|rs|][j]) == key;
        assert es[..|rs|][j] == es[j];
      }
    }
  }

  lemma KeysOfNext(es: seq<Edge>, i: nat)
    requires i < |es|
    ensures KeysOf(es[..i + 1]) == KeysOf(es[..i]) + {KeyOf(es[i])}
  {
    forall k | k in KeysOf(es[..i]) + {KeyOf(es[i])} ensures k in KeysOf(es[..i + 1]) {
      var j :| 0 <= j <= i && KeyOf(es[j]) == k;
      assert es[..i + 1][j] == es[j];
    }
    forall k | k in KeysOf(es[..i + 1]) ensures k in KeysOf(es[..i]) + {KeyOf(es[i])} {
      var j :| 0 <= j <= i && KeyOf(es[..i + 1][j]) == k;
      assert j < i ==> es[..i][j] == es[j];
    }
  }

  lemma AsExpectedNext(start: set<Key>, es: seq<Edge>, rs: seq<Outcome>, r: Outcome)
    requires AsExpected(start, es, rs) && |rs| < |es| && r == Expected(start, es, |rs|)
    ensures AsExpected(start, es, rs + [r])
  {
  }
}
