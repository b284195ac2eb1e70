/** The fixed-width unsigned integers of the program, with the wrapping addition of `fetch_add`. */
module Integers {
  const TWO32: nat := 0x1_0000_0000
  const TWO63: nat := 0x8000_0000_0000_0000
  const TWO64: nat := 0x1_0000_0000_0000_0000

  type u32 = n: nat | n < 0x1_0000_0000
  type u64 = n: nat | n < 0x1_0000_0000_0000_0000

  function WrappingAdd(a: u64, b: u64): u64 {
    (a + b) % TWO64
  }
}
