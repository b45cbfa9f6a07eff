/** Column types shared by the table definitions. */
module Columns {

  const Int32Min: int := -0x8000_0000
  const Int32Max: int := 0x7FFF_FFFF

  /** A value an `Integer` column can hold. */
  predicate IsInt32(x: int) {
    Int32Min <= x <= Int32Max
  }

  /** A value a `String(n)` column accepts unchanged: at most `n`
      characters. (A longer value whose excess is all spaces, which
      PostgreSQL would silently cut to `n` characters, is rejected here.) */
  predicate FitsVarchar(s: string, n: nat) {
    |s| <= n
  }
}
