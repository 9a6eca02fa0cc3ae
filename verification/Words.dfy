/** Machine words and small shared datatypes. */
module Words {
  const TWO_TO_THE_16: int := 0x1_0000
  const TWO_TO_THE_32: int := 0x1_0000_0000
  const TWO_TO_THE_64: int := 0x1_0000_0000_0000_0000

  type uint16 = x: int | 0 <= x < TWO_TO_THE_16
  type uint32 = x: int | 0 <= x < TWO_TO_THE_32
  type uint64 = x: int | 0 <= x < TWO_TO_THE_64

  datatype Option<+T> = None | Some(value: T)

  // Unsigned subtraction of the source, which wraps around below zero.
  function Minus64(a: uint64, b: uint64): uint64 {
    if a >= b then a - b else a - b + TWO_TO_THE_64
  }
}
