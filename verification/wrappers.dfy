/** Option and Result, standing for the repository's own optional and fallible values, and its bytes as numbers. */
module Wrappers {
  type byte = x: int | 0 <= x < 256

  /** Four bytes, the lowest first. */
  function U32Le(b: seq<byte>): (value: nat)
    requires |b| == 4
    ensures value < 0x1_0000_0000
  {
    (b[0] as nat) + 0x100 * (b[1] as nat) + 0x1_0000 * (b[2] as nat) + 0x100_0000 * (b[3] as nat)
  }

  datatype Option<+T> = None | Some(value: T)

  datatype Result<+T, +E> = Ok(value: T) | Err(error: E)
}
