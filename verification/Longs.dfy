// The signed 32-bit numbers of the kernel: int and long.
module Longs {
  type Long = x: int | -0x8000_0000 <= x < 0x8000_0000

  // what a sum or a difference becomes in one of them
  function Wrapped(x: int): (r: Long)
    ensures -0x8000_0000 <= x < 0x8000_0000 ==> r == x
    ensures 0x8000_0000 <= x < 0x1_8000_0000 ==> r == x - 0x1_0000_0000
    ensures -0x1_8000_0000 <= x < -0x8000_0000 ==> r == x + 0x1_0000_0000
  { (x + 0x8000_0000) % 0x1_0000_0000 - 0x8000_0000 }
}
