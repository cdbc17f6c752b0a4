/** The fixed-width C integers the engine code converts to and from. */
module CInts {

  /** The range of a 32-bit `int`. */
  const INT32_MIN: int := -0x8000_0000
  const INT32_MAX: int := 0x7FFF_FFFF

  /** One more than the largest 32-bit `unsigned int`. */
  const UINT32_LIMIT: int := 0x1_0000_0000

  predicate IsInt32(i: int) {
    INT32_MIN <= i <= INT32_MAX
  }
}
