/** What the other modules share: an optional value, and the ranges of machine words. */
module Wrappers {
  datatype Option<+T> = None | Some(value: T)

  const WORD32: int := 4294967296
  const WORD63: int := 9223372036854775808
  const WORD64: int := 18446744073709551616
}
