/** The unsigned machine words of the C sources, as ranges of the integers.

    An assignment to one of these types carries the obligation that the value
    fits, so a C expression that is written here without a remainder is thereby
    proved not to wrap.  Where the C code relies on wrap-around, the remainder
    is written out.  Shifts of words are division and multiplication by powers
    of two, and masks that keep the low bits are remainders. */
module Words {
  const TWO8: int := 0x100
  const TWO16: int := 0x1_0000
  const TWO32: int := 0x1_0000_0000
  const TWO64: int := 0x1_0000_0000_0000_0000
  const TWO128: int := 0x1_0000_0000_0000_0000_0000_0000_0000_0000

  type u8 = x: int | 0 <= x < TWO8
  type u16 = x: int | 0 <= x < TWO16
  type u32 = x: int | 0 <= x < TWO32
  type u64 = x: int | 0 <= x < TWO64
  type u128 = x: int | 0 <= x < TWO128

  type bytes = seq<u8>

  function Min(a: nat, b: nat): nat {
    if a < b then a else b
  }
}
