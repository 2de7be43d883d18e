// Bitmaps as the kernel keeps them: bytes, bit nr in byte nr >> 3 under the mask 1 << (nr & 7) (fs/bitmap.c).
module Bitmap {
  // 1 << k
  function Mask(k: int): bv8 requires 0 <= k < 8 {
    match k case 0 => 1 case 1 => 2 case 2 => 4 case 3 => 8 case 4 => 16 case 5 => 32 case 6 => 64 case 7 => 128
  }

  predicate Test(b: bv8, k: int) requires 0 <= k < 8 { b & Mask(k) != 0 }
  function On(b: bv8, k: int): bv8 requires 0 <= k < 8 { b | Mask(k) }
  function Off(b: bv8, k: int): bv8 requires 0 <= k < 8 { b & !Mask(k) }

  function Bits(a: seq<bv8>): (s: seq<bool>) ensures |s| == 8 * |a| {
    seq(8 * |a|, i requires 0 <= i < 8 * |a| => Test(a[i / 8], i % 8))
  }

  lemma OneBit(b: bv8, k: int, m: int)
    requires 0 <= k < 8 && 0 <= m < 8
    ensures Test(On(b, k), m) == (m == k || Test(b, m))
    ensures Test(Off(b, k), m) == (m != k && Test(b, m))
  {
    if m == k { assert (b | Mask(k)) & Mask(k) == Mask(k); }
  }

  lemma OnBits(a: seq<bv8>, nr: int)
    requires 0 <= nr < 8 * |a|
    ensures Bits(a[nr / 8 := On(a[nr / 8], nr % 8)]) == Bits(a)[nr := true]
  {
    hide Test, On;
    var x := a[nr / 8 := On(a[nr / 8], nr % 8)];
    forall i | 0 <= i < 8 * |a| ensures Bits(x)[i] == Bits(a)[nr := true][i] {
      if i / 8 == nr / 8 { OneBit(a[nr / 8], nr % 8, i % 8); }
    }
  }

  lemma OffBits(a: seq<bv8>, nr: int)
    requires 0 <= nr < 8 * |a|
    ensures Bits(a[nr / 8 := Off(a[nr / 8], nr % 8)]) == Bits(a)[nr := false]
  {
    hide Test, Off;
    var x := a[nr / 8 := Off(a[nr / 8], nr % 8)];
    forall i | 0 <= i < 8 * |a| ensures Bits(x)[i] == Bits(a)[nr := false][i] {
      if i / 8 == nr / 8 { OneBit(a[nr / 8], nr % 8, i % 8); }
    }
  }

  method SetBit(a: array<bv8>, nr: int) returns (was: bool)
    requires 0 <= nr < 8 * a.Length
    modifies a
    ensures Bits(a[..]) == old(Bits(a[..]))[nr := true] && was == old(Bits(a[..]))[nr]
  {
    hide Test, On;
    OnBits(a[..], nr);
    was := Test(a[nr / 8], nr % 8);
    a[nr / 8] := On(a[nr / 8], nr % 8);
    assert a[..] == old(a[..])[nr / 8 := On(old(a[nr / 8]), nr % 8)];
  }

  // the result is 1 if the bit was already clear
  method ClearBit(a: array<bv8>, nr: int) returns (wasClear: bool)
    requires 0 <= nr < 8 * a.Length
    modifies a
    ensures Bits(a[..]) == old(Bits(a[..]))[nr := false] && wasClear == !old(Bits(a[..]))[nr]
  {
    hide Test, Off;
    OffBits(a[..], nr);
    wasClear := !Test(a[nr / 8], nr % 8);
    a[nr / 8] := Off(a[nr / 8], nr % 8);
    assert a[..] == old(a[..])[nr / 8 := Off(old(a[nr / 8]), nr % 8)];
  }

  // the first clear bit of the 8192 bits of map block m, 8192 if there is none
  method FindFirstZero(a: array<bv8>, m: int) returns (j: int)
    requires 0 <= m && 1024 * (m + 1) <= a.Length
    ensures 0 <= j <= 8192
    ensures forall k :: 8192 * m <= k < 8192 * m + j ==> Bits(a[..])[k]
    ensures j < 8192 ==> !Bits(a[..])[8192 * m + j]
  {
    hide Test;
    j := 0;
    while j < 8192
      invariant 0 <= j <= 8192
      invariant forall k :: 8192 * m <= k < 8192 * m + j ==> Bits(a[..])[k]
    {
      var i := 8192 * m + j;
      if !Test(a[i / 8], i % 8) { return; }
      j := j + 1;
    }
  }

  // a map whose first byte is 1 and whose others are 0
  lemma FirstOnly(a: seq<bv8>)
    requires |a| > 0 && a[0] == 1 && forall i :: 0 < i < |a| ==> a[i] == 0
    ensures Bits(a)[0] && forall k :: 0 < k < |Bits(a)| ==> !Bits(a)[k]
  {
    forall k | 0 < k < |Bits(a)| ensures !Bits(a)[k] { OneOnly(k % 8); }
    OneOnly(0);
  }

  lemma OneOnly(k: int)
    requires 0 <= k < 8
    ensures Test(1, k) <==> k == 0
    ensures !Test(0, k)
  {}
}
