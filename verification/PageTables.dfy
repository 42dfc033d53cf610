/**
 The two-level table from pages to slabs. The second level of a region is allocated when the first
 page of the region is marked, and never freed.
 */
module PageTables {
  import opened MachineWords

  const REGIONS: nat := 0x2_0000
  const REGION_PAGES: nat := 0x4_0000
  /** The first page number beyond the table. */
  const PAGES: nat := 0x8_0000_0000

  /** A pointer in the second level. */
  datatype Entry<+S> = Null | Slab(slab: S)

  /** The two lookups split the page number. */
  lemma SplitAddress(ptr: nat)
    ensures ptr / 0x4000_0000 == ptr / PAGE / REGION_PAGES
    ensures ptr % 0x4000_0000 / PAGE == ptr / PAGE % REGION_PAGES
  {
  }

  lemma SplitIsUnique(n: nat, m: nat)
    ensures n / REGION_PAGES == m / REGION_PAGES && n % REGION_PAGES == m % REGION_PAGES ==> n == m
    ensures n < PAGES <==> n / REGION_PAGES < REGIONS
  {
  }

  class PageTable<S> {
    const regions: array<array?<Entry<S>>>
    /** The marked page numbers, with their slabs. */
    ghost var marks: map<nat, S>
    ghost var repr: set<array<Entry<S>>>

    ghost predicate Shape()
      reads this, regions
    {
      && regions.Length == REGIONS
      && (forall i | 0 <= i < REGIONS :: regions[i] != null ==> regions[i] in repr && regions[i].Length == REGION_PAGES)
      && (forall i, j | 0 <= i < j < REGIONS :: regions[i] != null ==> regions[i] != regions[j])
    }

    /** The entry of page number `n`. */
    ghost function EntryOf(n: nat): Entry<S>
      requires Shape()
      reads this, regions, repr
    {
      if n < PAGES && regions[n / REGION_PAGES] != null then regions[n / REGION_PAGES][n % REGION_PAGES] else Null
    }

    ghost predicate Valid()
      reads this, regions, repr
    {
      && Shape()
      && forall n: nat {:trigger EntryOf(n)} :: EntryOf(n) == if n in marks then Slab(marks[n]) else Null
    }

    constructor ()
      ensures Valid() && marks == map[] && fresh(regions) && repr == {}
    {
      regions := new array?<Entry<S>>[REGIONS](_ => null);
      marks := map[];
      repr := {};
    }

    /** `getSlab`: defined for every address, also beyond the table. */
    method Get(ptr: nat) returns (e: Entry<S>)
      requires Valid()
      ensures e == if ptr / PAGE in marks then Slab(marks[ptr / PAGE]) else Null
    {
      SplitAddress(ptr);
      SplitIsUnique(ptr / PAGE, 0);
      assert EntryOf(ptr / PAGE) == if ptr / PAGE in marks then Slab(marks[ptr / PAGE]) else Null;
      var offset := ptr / 0x4000_0000;
      if offset >= REGIONS {
        return Null;
      }
      var region := regions[offset];
      if region == null {
        return Null;
      }
      return region[ptr % 0x4000_0000 / PAGE];
    }

    /** `markSlab`, for an address that user space can have. */
    method Mark(ptr: nat, slab: S)
      requires Valid() && ptr / PAGE < PAGES
      modifies this, regions, repr
      ensures Valid() && fresh(repr - old(repr))
      ensures marks == old(marks)[ptr / PAGE := slab]
    {
      SplitAddress(ptr);
      SplitIsUnique(ptr / PAGE, 0);
      AllocateRegion(ptr / PAGE / REGION_PAGES);
      SetEntry(ptr / PAGE, slab);
    }

    /** Allocate a second level, which `mmap` fills with zeroes. */
    method AllocateRegion(offset: nat)
      requires Valid() && offset < REGIONS
      modifies this, regions
      ensures Valid() && fresh(repr - old(repr)) && old(repr) <= repr && marks == old(marks)
      ensures regions[offset] != null
    {
      if regions[offset] == null {
        var region := new Entry<S>[REGION_PAGES](_ => Null);
        regions[offset] := region;
        repr := repr + {region};
        forall n: nat ensures EntryOf(n) == old(EntryOf(n)) {
          SplitIsUnique(n, 0);
        }
      }
    }

    method SetEntry(n: nat, slab: S)
      requires Valid() && n < PAGES && regions[n / REGION_PAGES] != null
      modifies this, repr
      ensures Valid() && repr == old(repr) && marks == old(marks)[n := slab]
    {
      SplitIsUnique(n, 0);
      var region := regions[n / REGION_PAGES];
      region[n % REGION_PAGES] := Slab(slab);
      marks := marks[n := slab];
      forall m: nat ensures EntryOf(m) == if m in marks then Slab(marks[m]) else Null {
        SplitIsUnique(m, n);
        assert m != n ==> EntryOf(m) == old(EntryOf(m));
      }
    }
  }
}
