// Sv32 page-table words (include/linux/mm.h). A word is kept by its fields; Encode and Decode are inverse to each
// other, and every shift-and-mask expression the kernel applies to a word is an operation on the fields.
module Sv32 {
  // A 32-bit word, least significant bit first.
  type Bits = b: seq<bool> | |b| == 32 ghost witness seq(32, _ => false)
  type Ppn = n: int | 0 <= n < 0x40_0000

  datatype Word = Word(ppn: Ppn, s1: bool, s0: bool, d: bool, a: bool, g: bool, u: bool, x: bool, w: bool, r: bool,
    v: bool)

  const ZERO := Word(0, false, false, false, false, false, false, false, false, false, false)

  // ---- C operators on unsigned long
  function Zeros(n: nat): (b: seq<bool>) ensures |b| == n { seq(n, _ => false) }
  function Shr(b: Bits, n: nat): Bits requires n <= 32 { b[n..] + Zeros(n) }
  function Shl(b: Bits, n: nat): Bits requires n <= 32 { Zeros(n) + b[..32 - n] }
  function And(a: Bits, b: Bits): Bits { seq(32, i requires 0 <= i < 32 => a[i] && b[i]) }
  function Or(a: Bits, b: Bits): Bits { seq(32, i requires 0 <= i < 32 => a[i] || b[i]) }
  function Not(a: Bits): Bits { seq(32, i requires 0 <= i < 32 => !a[i]) }
  // the word whose set bits are the members of s, and the word (1 << n) - 1
  function Mask(s: set<int>): Bits { seq(32, i => i in s) }
  function Ones(n: nat): Bits { seq(32, i => i < n) }

  function PtePhys(pte: Bits): (phys: Bits) { Shl(And(Shr(pte, 10), Ones(22)), 12) }
  function PhysPpn(phys: Bits): (pte: Bits) { Shl(Shr(phys, 12), 10) }
  const PTE_V := {0}
  const PTE_W := {2}
  const PTE_U := {4}
  const PTE_USER_RW := {0, 1, 2, 4, 6, 7}
  const PTE_USER_RWX := {0, 1, 2, 3, 4, 6, 7}

  // ---- numbers and bits
  function Pow2(k: nat): nat { if k == 0 then 1 else 2 * Pow2(k - 1) }

  function NatBits(n: nat, k: nat): (b: seq<bool>)
    ensures |b| == k
  {
    if k == 0 then [] else [n % 2 == 1] + NatBits(n / 2, k - 1)
  }

  function BitsNat(b: seq<bool>): nat {
    if |b| == 0 then 0 else (if b[0] then 1 else 0) + 2 * BitsNat(b[1..])
  }

  lemma {:induction false} NatRoundTrip(n: nat, k: nat)
    requires n < Pow2(k)
    ensures BitsNat(NatBits(n, k)) == n
  {
    if k > 0 {
      NatRoundTrip(n / 2, k - 1);
      assert NatBits(n, k)[1..] == NatBits(n / 2, k - 1);
    }
  }

  lemma {:induction false} BitsRoundTrip(b: seq<bool>)
    ensures BitsNat(b) < Pow2(|b|) && NatBits(BitsNat(b), |b|) == b
  {
    if |b| > 0 {
      BitsRoundTrip(b[1..]);
      assert b == [b[0]] + b[1..];
    }
  }

  lemma {:induction false} PowAdd(a: nat, b: nat)
    ensures Pow2(a + b) == Pow2(a) * Pow2(b)
  {
    if a > 0 {
      PowAdd(a - 1, b);
      assert Pow2(a + b) == 2 * Pow2(a - 1 + b);
    }
  }

  lemma Pow22() ensures Pow2(22) == 0x40_0000 && Pow2(20) == 0x10_0000 {
    assert Pow2(5) == 32 by { assert Pow2(3) == 8; }
    PowAdd(5, 5);
    PowAdd(10, 10);
    PowAdd(2, 20);
  }

  // A number below 2^k leaves the bits from k up clear.
  lemma {:induction false} HighClear(n: nat, k: nat, m: nat)
    requires n < Pow2(k) && k <= m
    ensures NatBits(n, m)[k..] == Zeros(m - k)
  {
    if k == 0 {
      AllClear(m);
    } else {
      HighClear(n / 2, k - 1, m - 1);
      assert NatBits(n, m)[k..] == NatBits(n / 2, m - 1)[k - 1..];
    }
  }

  lemma {:induction false} AllClear(m: nat) ensures NatBits(0, m) == Zeros(m) {
    if m > 0 { AllClear(m - 1); }
  }

  // ---- the codec
  function Flag(e: Word, i: int): bool {
    match i
    case 0 => e.v case 1 => e.r case 2 => e.w case 3 => e.x case 4 => e.u
    case 5 => e.g case 6 => e.a case 7 => e.d case 8 => e.s0 case _ => e.s1
  }

  function Flags(e: Word): (b: seq<bool>) ensures |b| == 10 { seq(10, i => Flag(e, i)) }
  function Encode(e: Word): (b: Bits) { Flags(e) + NatBits(e.ppn, 22) }

  function Decode(b: Bits): (e: Word) {
    BitsRoundTrip(b[10..]);
    Pow22();
    Word(BitsNat(b[10..]), b[9], b[8], b[7], b[6], b[5], b[4], b[3], b[2], b[1], b[0])
  }

  // the 32-bit address of page n
  function PageAddr(n: Ppn): Bits { Zeros(12) + NatBits(n, 22)[..20] }

  lemma DecodeEncode(e: Word) ensures Decode(Encode(e)) == e {
    Pow22();
    NatRoundTrip(e.ppn, 22);
    assert Encode(e)[10..] == NatBits(e.ppn, 22);
  }

  lemma EncodeDecode(b: Bits) ensures Encode(Decode(b)) == b {
    BitsRoundTrip(b[10..]);
    var e := Decode(b);
    assert NatBits(e.ppn, 22) == b[10..];
    hide NatBits, BitsNat, Pow2, Decode;
    assert b[..10] == Flags(e) by { FlagsOfDecode(b); }
  }

  lemma FlagsOfDecode(b: Bits) ensures Flags(Decode(b)) == b[..10] {
    hide NatBits, BitsNat, Pow2;
  }

  lemma BitOf(e: Word, i: int)
    requires 0 <= i < 32
    ensures Encode(e)[i] == if i < 10 then Flags(e)[i] else NatBits(e.ppn, 22)[i - 10]
  {}

  // ---- the kernel's expressions, field by field
  lemma PtePhysOfWord(e: Word) ensures PtePhys(Encode(e)) == PageAddr(e.ppn) {
    var b := Encode(e);
    forall i | 0 <= i < 32 ensures PtePhys(b)[i] == PageAddr(e.ppn)[i] {
      if i >= 12 {
        assert And(Shr(b, 10), Ones(22))[i - 12] == b[i - 2];
        BitOf(e, i - 2);
      }
    }
  }

  lemma TestMask(b: Bits, k: int)
    requires 0 <= k < 32
    ensures And(b, Mask({k})) != Zeros(32) <==> b[k]
  {
    if b[k] { assert And(b, Mask({k}))[k]; } else { assert And(b, Mask({k})) == Zeros(32); }
  }

  lemma FlagTests(e: Word)
    ensures And(Encode(e), Mask(PTE_V)) != Zeros(32) <==> e.v
    ensures And(Encode(e), Mask(PTE_U)) != Zeros(32) <==> e.u
    ensures And(Encode(e), Mask(PTE_W)) != Zeros(32) <==> e.w
  {
    TestMask(Encode(e), 0);
    TestMask(Encode(e), 2);
    TestMask(Encode(e), 4);
  }

  lemma UpdateBit(b: Bits, k: int)
    requires 0 <= k < 32
    ensures And(b, Not(Mask({k}))) == b[k := false]
    ensures Or(b, Mask({k})) == b[k := true]
  {}

  lemma FlagsW(e: Word, b: bool, i: int)
    requires 0 <= i < 10
    ensures Flags(e.(w := b))[i] == if i == 2 then b else Flags(e)[i]
  {}

  lemma WBit(e: Word, b: bool) ensures Encode(e.(w := b)) == Encode(e)[2 := b] {
    hide NatBits, Flags;
    forall i | 0 <= i < 32 ensures Encode(e.(w := b))[i] == Encode(e)[2 := b][i] {
      if i < 10 { FlagsW(e, b, i); }
    }
  }

  lemma FlagUpdates(e: Word)
    ensures And(Encode(e), Not(Mask(PTE_W))) == Encode(e.(w := false))
    ensures Or(Encode(e), Mask(PTE_W)) == Encode(e.(w := true))
  {
    hide Encode;
    UpdateBit(Encode(e), 2);
    WBit(e, false);
    WBit(e, true);
  }

  lemma PpnPlace(n: Ppn, i: int)
    requires n < 0x10_0000 && 0 <= i < 32
    ensures PhysPpn(PageAddr(n))[i] == (i >= 10 && NatBits(n, 22)[i - 10])
  {
    Pow22();
    HighClear(n, 20, 22);
    var p := NatBits(n, 22);
    assert p[20..] == Zeros(2);
    if 20 <= i - 10 { assert p[i - 10] == p[20..][i - 30]; }
  }

  // phys_ppn(page) | flags, for a page below 4 GB
  lemma NewEntry(n: Ppn, s: set<int>, e: Word)
    requires n < 0x10_0000 && e.ppn == n
    requires forall i :: i in s ==> 0 <= i < 10
    requires forall i :: 0 <= i < 10 ==> Flags(e)[i] == (i in s)
    ensures Or(PhysPpn(PageAddr(n)), Mask(s)) == Encode(e)
  {
    var a, b := Or(PhysPpn(PageAddr(n)), Mask(s)), Encode(e);
    forall i | 0 <= i < 32 ensures a[i] == b[i] { BitOf(e, i); PpnPlace(n, i); }
  }
}
