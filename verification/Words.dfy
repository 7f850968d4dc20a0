/** The C integer types of the Nios II target (alt_types.h): 32-bit words with
    wrap-around, and the two's complement reading of a word. */
module Words {

  const TWO32: int := 0x1_0000_0000
  const INT_MAX: int := 0x7FFF_FFFF

  type u32 = x: nat | x < TWO32
  type i32 = x: int | -0x8000_0000 <= x < 0x8000_0000

  /** Reduction of an unsigned result to 32 bits. */
  function U32(x: int): u32 {
    x % TWO32
  }

  /** Conversion of a word to the signed type. */
  function Signed(w: u32): i32 {
    if w < 0x8000_0000 then w else w - TWO32
  }

  /** Two words that agree modulo 2^32 and are close together are equal. */
  lemma WrapUnique(x: int, y: int)
    requires U32(x) == U32(y) && -TWO32 < x - y < TWO32
    ensures x == y
  {
  }

}
