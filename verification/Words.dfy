/** The sizes of machine words, and the smaller of two numbers. */
module Words {

  /** One past the largest 64-bit word, `size_t` and `uint64_t`. */
  const WORD64: int := 0x1_0000_0000_0000_0000

  const WORD32: int := 0x1_0000_0000

  function Min(x: int, y: int): int {
    if x < y then x else y
  }
}
