/** Small shared vocabulary. */
module Util {
  datatype Option<+T> = None | Some(value: T)

  type Byte = n: int | 0 <= n < 0x100
  type Code = n: int | 0 <= n < 0x1_0000   // uint16_t

  type Bytes8 = d: seq<Byte> | |d| == 8 witness seq(8, _ => 0)
}
