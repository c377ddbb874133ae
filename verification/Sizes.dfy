/** Sizes that the parts of the kernel share. */
module Sizes {

  /** Addresses, lengths and counters are 64-bit numbers. */
  const WRAP: nat := 0x1_0000_0000_0000_0000

  const PAGE_SIZE: nat := 0x1000
}
