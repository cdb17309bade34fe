/**
 The widths of the machine integers the code relies on.
 */
module Widths {

  const TWO_15: int := 0x8000
  const TWO_31: int := 0x8000_0000
  const TWO_32: nat := 0x1_0000_0000
  const TWO_64: nat := 0x1_0000_0000_0000_0000

  const MAX_INT32: nat := TWO_31 - 1
  const MAX_UINT32: nat := TWO_32 - 1

  type Int32 = x: int | -TWO_31 <= x < TWO_31
  type Short = x: int | -TWO_15 <= x < TWO_15

  /** Storing a number in a short. */
  function ToShort(x: int): Short {
    (x + TWO_15) % (2 * TWO_15) - TWO_15
  }

  /** The int that 32-bit arithmetic leaves of a number. */
  function ToInt32(x: int): Int32 {
    (x + TWO_31) % TWO_32 - TWO_31
  }

  /** They are the short and the int that are equal to the number modulo their width. */
  lemma WrapsAround(x: int)
    ensures (x - ToShort(x)) % 0x1_0000 == 0 && (x - ToInt32(x)) % 0x1_0000_0000 == 0
  {}
}
