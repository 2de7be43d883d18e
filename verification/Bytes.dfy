// Bytes and the units they come in.
module Bytes {
  type Byte = n: int | 0 <= n < 256
  type Block = b: seq<Byte> | |b| == 1024 ghost witness seq(1024, _ => 0)

  const PAGE := 4096
  const WORD := 0x1_0000_0000    // one more than the largest unsigned long

  // what a C string can hold
  predicate Proper(s: seq<Byte>) { forall i :: 0 <= i < |s| ==> s[i] != 0 }

  // data has been written over buf, at that place
  ghost predicate Overwritten(buf: seq<Byte>, buf': seq<Byte>, at: int, data: seq<Byte>) {
    && |buf'| == |buf| && 0 <= at && at + |data| <= |buf|
    && forall i :: 0 <= i < |buf| ==> buf'[i] == if at <= i < at + |data| then data[i - at] else buf[i]
  }
}
