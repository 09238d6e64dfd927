/** Limits on lengths and indices that several builtins share. */
module Limits {

  /** The largest length of an array-like object, and the largest index. */
  const MAXIMUM_LENGTH: int := 0x1F_FFFF_FFFF_FFFF

  /** The largest length of a real array; indices from here on are no array indices. */
  const MAXIMUM_ARRAY_LENGTH: int := 0xFFFF_FFFF

  function Min(a: int, b: int): (r: int)
    ensures r <= a && r <= b && (r == a || r == b)
  {
    if a < b then a else b
  }
}
