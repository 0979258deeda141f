/** Optional values, and the 64-bit signed integers of the program. */
module Wrappers {
  datatype Option<+T> = None | Some(value: T)
}

/** Two's complement 64-bit arithmetic, written out over `int`. */
module Int64 {
  const MIN: int := -0x8000_0000_0000_0000
  const MAX: int := 0x7FFF_FFFF_FFFF_FFFF
  const SPAN: int := 0x1_0000_0000_0000_0000

  predicate Fits(n: int) {
    MIN <= n <= MAX
  }

  /** The value an `int64` holds after an operation whose exact result is `n`. */
  function Wrap(n: int): (r: int)
    ensures Fits(r)
    ensures (r - n) % SPAN == 0
    ensures Fits(n) ==> r == n
  {
    (n - MIN) % SPAN + MIN
  }
}
