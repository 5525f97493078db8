/**
 Sixteen-bit machine words, as `uint16_t` is used throughout the toolchain.
 */
module Words {

  const WORD_COUNT: int := 0x10000

  type Word = x: int | 0 <= x < 0x10000

  /** Conversion of any integer to `uint16_t`. */
  function Wrap(x: int): (w: Word)
    ensures 0 <= x < WORD_COUNT ==> w == x
  {
    if 0 <= x < WORD_COUNT then x else x % WORD_COUNT
  }

  datatype Option<+T> = None | Some(value: T)
}
