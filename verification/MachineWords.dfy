/** The sizes that everything else is measured in. */
module MachineWords {

  const TWO_16 := 0x1_0000
  const TWO_31 := 0x8000_0000
  const TWO_32 := 0x1_0000_0000
  const TWO_48 := 0x1_0000_0000_0000
  const TWO_64 := 0x1_0000_0000_0000_0000

  type U32 = x: int | 0 <= x < TWO_32
  type I32 = x: int | -TWO_31 <= x < TWO_31
  type U64 = x: int | 0 <= x < TWO_64

  /** The bytes of a page of memory. */
  const PAGE: nat := 4096

  /** A page of the list of `dlsym` results, and the pointers behind its link and its count. */
  const DLSYM_PAGE_SIZE: nat := 16384
  const DLSYM_PAGE_NUM_POINTERS: nat := DLSYM_PAGE_SIZE / 8 - 2
}
