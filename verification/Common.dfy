/** Small datatypes and integer types shared by the other modules. */
module Common {

  datatype Option<+T> = None | Some(value: T)

  const TWO_POW_31: int := 0x8000_0000
  const TWO_POW_32: int := 0x1_0000_0000
  const TWO_POW_63: int := 0x8000_0000_0000_0000
  const TWO_POW_64: int := 0x1_0000_0000_0000_0000

  const MIN_INT32: int := -0x8000_0000
  const MAX_INT32: int := 0x7fff_ffff
  const MAX_UINT32: int := 0xffff_ffff
  const MIN_INT64: int := -0x8000_0000_0000_0000
  const MAX_INT64: int := 0x7fff_ffff_ffff_ffff
  const MAX_UINT64: int := 0xffff_ffff_ffff_ffff

  type byte = x: int | 0 <= x < 0x100
  type int32 = x: int | -0x8000_0000 <= x < 0x8000_0000
  type uint32 = x: int | 0 <= x < 0x1_0000_0000
  type int64 = x: int | -0x8000_0000_0000_0000 <= x < 0x8000_0000_0000_0000
  type uint64 = x: int | 0 <= x < 0x1_0000_0000_0000_0000

  /** c is the hex digit of value x, of either case. */
  predicate IsHex(c: char, x: nat) {
    x < 16 && (c == "0123456789abcdef"[x] || c == "0123456789ABCDEF"[x])
  }

  /** The cast of a non-negative 64-bit pattern to a signed 64-bit integer. */
  function ToInt64(v: uint64): (r: int64)
    ensures (r - v) % 0x1_0000_0000_0000_0000 == 0
  {
    if v < 0x8000_0000_0000_0000 then v else v - 0x1_0000_0000_0000_0000
  }
}
