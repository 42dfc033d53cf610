/**
 The arithmetic of the allocator: size classes, slab sizes, and element addresses.
 */
module SlabArithmetic {
  import opened MachineWords

  const NUM_POOLS: nat := 26

  function Pow2(k: nat): (n: nat)
    ensures n > 0
  {
    if k == 0 then 1 else 2 * Pow2(k - 1)
  }

  lemma {:induction false} Pow2Add(a: nat, b: nat)
    ensures Pow2(a + b) == Pow2(a) * Pow2(b)
  {
    if b > 0 {
      Pow2Add(a, b - 1);
      assert Pow2(a + b) == 2 * Pow2(a + b - 1);
      Double(Pow2(a), Pow2(b - 1));
    }
  }

  lemma Double(x: nat, y: nat)
    ensures x * (2 * y) == 2 * (x * y)
  {
  }

  lemma {:induction false} Pow2Grows(a: nat, b: nat)
    requires a <= b
    ensures Pow2(a) <= Pow2(b)
    ensures a < b ==> Pow2(a) < Pow2(b)
    decreases b - a
  {
    if a < b {
      Pow2Grows(a, b - 1);
    }
  }

  lemma Pow2Page()
    ensures Pow2(12) == PAGE
  {
    assert Pow2(4) == 16;
    Pow2Add(4, 4);
    Pow2Add(8, 4);
  }

  // ---------------------------------------------------------------------------------------
  // Size classes
  // ---------------------------------------------------------------------------------------

  /** The position of the highest bit, 63 minus the leading zeros of a 64-bit word. */
  function HighestBit(n: nat): (k: nat)
    requires n > 0
    ensures Pow2(k) <= n < Pow2(k + 1)
  {
    if n == 1 then 0 else HighestBit(n / 2) + 1
  }

  /** The bin that `xxmalloc` computes. The count of leading zeros is undefined for `size` 1. */
  function Bin(size: nat): nat
    requires size >= 2
  {
    var logSize := 1 + HighestBit(size - 1);
    if logSize < 4 then 0 else logSize - 4
  }

  /** `poolinit` of bin `b`. */
  function ElementSize(bin: nat): nat {
    Pow2(bin + 4)
  }

  /** The bin is the first one whose elements hold `size` bytes. */
  lemma BinIsLeast(size: nat, bin: nat)
    requires size >= 2
    ensures Bin(size) <= bin <==> size <= ElementSize(bin)
  {
    var k := HighestBit(size - 1);
    assert Pow2(k) < size <= Pow2(k + 1);
    if bin + 4 >= k + 1 {
      Pow2Grows(k + 1, bin + 4);
    } else {
      Pow2Grows(bin + 4, k);
    }
  }

  /** A size class is at most twice the size, except for the smallest one. */
  lemma ClassIsClose(size: nat)
    requires size >= 2
    ensures size <= ElementSize(Bin(size)) && (ElementSize(Bin(size)) == 16 || ElementSize(Bin(size)) < 2 * size)
  {
    BinIsLeast(size, Bin(size));
    if Bin(size) > 0 {
      BinIsLeast(size, Bin(size) - 1);
    } else {
      assert Pow2(4) == 2 * Pow2(3) && Pow2(3) == 2 * Pow2(2) && Pow2(2) == 2 * Pow2(1);
    }
  }

  /** The assertion on the bin fails for the sizes above 2^29, and only for those. */
  lemma BinFitsIff(size: nat)
    requires size >= 2
    ensures Bin(size) < NUM_POOLS <==> size <= Pow2(29)
  {
    BinIsLeast(size, NUM_POOLS - 1);
  }

  // ---------------------------------------------------------------------------------------
  // Slabs
  // ---------------------------------------------------------------------------------------

  function NumPages(elementSize: nat, count: nat): nat {
    var toAllocate := if count == 0 then elementSize else elementSize * count;
    if toAllocate % PAGE == 0 then toAllocate / PAGE else toAllocate / PAGE + 1
  }

  /** There is less than a page to spare. */
  lemma PagesAreFew(elementSize: nat, count: nat)
    requires count > 0
    ensures NumPages(elementSize, count) * PAGE - PAGE < elementSize * count <= NumPages(elementSize, count) * PAGE
      || elementSize * count == NumPages(elementSize, count) == 0
  {
  }

  function Capacity(elementSize: nat, count: nat): nat
    requires elementSize > 0
  {
    Quotient(NumPages(elementSize, count) * PAGE, elementSize);
    NumPages(elementSize, count) * PAGE / elementSize
  }

  /** Slabs of a size class have no slack, and room for at least the elements asked for. */
  lemma CapacityIsExact(bin: nat, count: nat)
    ensures Capacity(ElementSize(bin), count) * ElementSize(bin) == NumPages(ElementSize(bin), count) * PAGE
    ensures Capacity(ElementSize(bin), count) * ElementSize(bin) % PAGE == 0
    ensures Capacity(ElementSize(bin), count) >= count && Capacity(ElementSize(bin), count) >= 1
  {
    var size, pages := ElementSize(bin), NumPages(ElementSize(bin), count);
    var wanted := if count == 0 then 1 else count;
    assert wanted * size <= pages * PAGE;
    var quotient := PagesDivide(bin, count);
    Exact(pages * PAGE, size, quotient, wanted);
    DivideProduct(pages, PAGE, 0);
  }

  lemma Exact(bytes: nat, size: nat, quotient: nat, wanted: nat)
    requires size > 0 && bytes == quotient * size && wanted * size <= bytes
    ensures bytes / size == quotient >= wanted
  {
    DivideProduct(quotient, size, 0);
    Cancel(quotient, wanted, size);
  }

  /** An element size divides a page or is a number of pages. */
  lemma PagesDivide(bin: nat, count: nat) returns (quotient: nat)
    ensures NumPages(ElementSize(bin), count) * PAGE == quotient * ElementSize(bin)
  {
    var size, pages := ElementSize(bin), NumPages(ElementSize(bin), count);
    Pow2Page();
    if bin + 4 <= 12 {
      Pow2Add(8 - bin, bin + 4);
      quotient := pages * Pow2(8 - bin);
      Regroup(pages, Pow2(8 - bin), size);
    } else {
      Pow2Add(bin - 8, 12);
      quotient := if count == 0 then 1 else count;
      WholePages(Pow2(bin - 8), quotient, count);
    }
  }

  lemma WholePages(pagesPer: nat, wanted: nat, count: nat)
    requires wanted == if count == 0 then 1 else count
    ensures NumPages(pagesPer * PAGE, count) * PAGE == wanted * (pagesPer * PAGE)
  {
    Regroup(wanted, pagesPer, PAGE);
    DivideProduct(wanted * pagesPer, PAGE, 0);
  }

  lemma Regroup(a: nat, b: nat, c: nat)
    ensures a * (b * c) == (a * b) * c
  {
  }

  lemma Monotone(a: nat, b: nat, c: nat)
    requires a <= b
    ensures a * c <= b * c
  {
    assert b * c == a * c + (b - a) * c;
  }

  lemma Cancel(a: nat, b: nat, c: nat)
    ensures a * c < b * c ==> a < b
    ensures c > 0 && b * c <= a * c ==> b <= a
  {
    if b <= a {
      Monotone(b, a, c);
    } else {
      Monotone(a + 1, b, c);
      assert (a + 1) * c == a * c + c;
    }
  }

  lemma DivideProduct(q: nat, d: nat, r: nat)
    requires r < d
    ensures (q * d + r) / d == q && (q * d + r) % d == r
  {
    var x := q * d + r;
    Quotient(x, d);
    SameQuotient(q, r, x / d, x % d, d);
  }

  lemma Quotient(x: nat, d: nat)
    requires d > 0
    ensures x / d * d + x % d == x && x % d < d && x / d >= 0
  {
  }

  lemma SameQuotient(q: nat, r: nat, q': nat, r': nat, d: nat)
    requires r < d && r' < d && q * d + r == q' * d + r'
    ensures q == q' && r == r'
  {
    Step(q, d);
    Step(q', d);
    Cancel(q, q' + 1, d);
    Cancel(q', q + 1, d);
  }

  lemma Step(q: nat, d: nat)
    ensures (q + 1) * d == q * d + d
  {
  }

  /** Every byte of element `i` is found as that element, at its offset. */
  lemma ElementOfByte(elementSize: nat, i: nat, k: nat)
    requires k < elementSize
    ensures (i * elementSize + k) / elementSize == i && (i * elementSize + k) % elementSize == k
  {
    DivideProduct(i, elementSize, k);
  }

  /** A byte within a slab is within one of its elements. */
  lemma ByteInElement(elementSize: nat, capacity: nat, offset: nat)
    requires elementSize > 0 && offset < capacity * elementSize
    ensures offset / elementSize < capacity
    ensures offset == offset / elementSize * elementSize + offset % elementSize
  {
    Quotient(offset, elementSize);
    Cancel(offset / elementSize, capacity, elementSize);
  }

  /** The elements of a slab stay within the slab. */
  lemma ElementInSlab(elementSize: nat, capacity: nat, i: nat)
    requires i < capacity
    ensures i * elementSize + elementSize <= capacity * elementSize
  {
    Step(i, elementSize);
    Monotone(i + 1, capacity, elementSize);
  }
}
