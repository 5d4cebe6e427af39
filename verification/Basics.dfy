/** Types that every other module may use. */
module Basics {
  datatype Option<+T> = None | Some(value: T)

  type Byte = b: int | 0 <= b < 256

  /** Machine words are 64 bits wide. */
  const WORD_MAX := 0xFFFF_FFFF_FFFF_FFFF
  type Word = n: nat | n <= WORD_MAX
}
