/** The bytes that flash, queues and stream buffers hold, and the size of a chunk of them. */
module Bytes {
  type Byte = b: int | 0 <= b < 0x100

  function Min(a: nat, b: nat): nat {
    if a < b then a else b
  }
}
