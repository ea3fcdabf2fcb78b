/** What the whole project shares: optional values and the ranges of machine integers. */
module Basics {
  datatype Option<+T> = None | Some(value: T)

  function Min(a: nat, b: nat): nat { if a <= b then a else b }

  const INT32_LIMIT: int := 0x8000_0000
  const UINT32: nat := 0x1_0000_0000
  const SIZE_T: nat := 0x1_0000_0000_0000_0000
}
