/** Fixed-point widths of the synthesis engine, shared by the command generator and the command format. */
module Widths {
  const MAX_CH: nat := 64

  /** Sign bits of a block. */
  const SIGN_BITS: nat := 32

  /** Code units in a chip: 40 fractional bits. */
  const FRAC: int := 0x100_0000_0000

  const TWO17: int := 0x2_0000
  const TWO18: int := 0x4_0000
  const TWO31: int := 0x8000_0000
  const TWO32: int := 0x1_0000_0000
  const TWO34: int := 0x4_0000_0000
  const TWO43: int := 0x800_0000_0000
  const TWO52: int := 0x10_0000_0000_0000
  const TWO64: int := 0x1_0000_0000_0000_0000
}
