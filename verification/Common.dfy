/** Machine integers and small helpers shared by every component. */
module Common {

  const U16_SIZE: int := 0x1_0000
  const U32_SIZE: int := 0x1_0000_0000

  type u8 = x: int | 0 <= x < 256
  type u16 = x: int | 0 <= x < 0x1_0000
  type u32 = x: int | 0 <= x < 0x1_0000_0000

  datatype Option<+T> = None | Some(value: T)

  function Min(a: int, b: int): int {
    if a < b then a else b
  }

  function Flag(b: bool): nat {
    if b then 1 else 0
  }

  function MaxReal(a: real, b: real): real {
    if a < b then b else a
  }

  function Abs(x: real): real {
    if x < 0.0 then -x else x
  }

  /** `a - b` as the firmware computes elapsed time: modulo 2^32. */
  function Elapsed(a: u32, b: u32): u32 {
    (a - b) % U32_SIZE
  }

  function Last<T>(s: seq<T>, n: nat): seq<T> {
    if |s| <= n then s else s[|s| - n..]
  }
}
