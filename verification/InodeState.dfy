// The inode table as a write-back cache of the inodes on the disk (fs/inode.c, fs/bitmap.c).
module InodeState {
  const NR_INODE := 32
  const DEV := 0x101  // the root device

  // struct d_inode
  datatype DInode = DInode(mode: int, uid: int, size: int, time: int, gid: int, nlinks: int, zone: seq<int>)
  function Blank(): DInode { DInode(0, 0, 0, 0, 0, 0, seq(9, _ => 0)) }
  // A slot of the table. Device 0 is an unused or anonymous slot.
  datatype Slot = Slot(body: DInode, dev: int, num: int, count: int, dirt: bool)
  function Zeroed(count: int): Slot { Slot(Blank(), 0, 0, count, false) }

  // disk: the inodes as the inode blocks hold them; bits: the inode map
  datatype State = State(slot: seq<Slot>, disk: seq<DInode>, bits: seq<bool>, ninodes: int)

  predicate Of(x: Slot, nr: int) { x.dev == DEV && x.num == nr }

  ghost predicate SlotOk(x: Slot, disk: seq<DInode>, bits: seq<bool>) {
    && x.count >= 0 && (x.dev == 0 || x.dev == DEV)
    && (x.dirt ==> x.dev == DEV && x.count > 0)
    && (x.dev == DEV ==> 1 <= x.num < |disk| && x.num < |bits| && bits[x.num] && (!x.dirt ==> x.body == disk[x.num]))
  }

  // Slots hold allocated inodes, no inode has two slots, and what is not dirty is as on the disk.
  ghost predicate Inv(s: State) {
    && |s.slot| == NR_INODE && 0 <= s.ninodes && |s.disk| == s.ninodes + 1 && |s.bits| > 0 && s.bits[0]
    && (forall i :: 0 <= i < |s.slot| ==> SlotOk(s.slot[i], s.disk, s.bits))
    && Unique(s.slot)
  }

  ghost predicate Unique(slot: seq<Slot>) {
    forall i, j, nr :: 0 <= i < |slot| && 0 <= j < |slot| && Of(slot[i], nr) && Of(slot[j], nr) ==> i == j
  }

  // What inode nr holds, for all who use it: its slot, if it has one, and the disk otherwise.
  ghost predicate Means(s: State, nr: int, d: DInode)
    requires 0 <= nr < |s.disk|
  {
    && (forall i :: 0 <= i < |s.slot| && Of(s.slot[i], nr) ==> s.slot[i].body == d)
    && ((forall i :: 0 <= i < |s.slot| ==> !Of(s.slot[i], nr)) ==> s.disk[nr] == d)
  }

  ghost function LogicalAt(s: State, nr: int): DInode
    requires 0 <= nr < |s.disk|
  { if i :| 0 <= i < |s.slot| && Of(s.slot[i], nr) then s.slot[i].body else s.disk[nr] }

  lemma MeansLogical(s: State, nr: int, d: DInode)
    requires 0 <= nr < |s.disk| && Unique(s.slot)
    ensures Means(s, nr, d) <==> LogicalAt(s, nr) == d
  {}

  // Inodes whose slots and disk copies stay the same mean the same.
  lemma SameMeaning(s: State, s': State, k: int, nr: int)
    requires Unique(s.slot) && Unique(s'.slot) && |s'.slot| == |s.slot| && |s'.disk| == |s.disk| && 0 <= nr < |s.disk|
    requires s'.disk[nr] == s.disk[nr]
    requires forall i :: 0 <= i < |s.slot| && i != k ==>
      s'.slot[i].body == s.slot[i].body && s'.slot[i].dev == s.slot[i].dev && s'.slot[i].num == s.slot[i].num
    requires 0 <= k < |s.slot| ==> !Of(s.slot[k], nr) && !Of(s'.slot[k], nr)
    ensures LogicalAt(s', nr) == LogicalAt(s, nr)
  {}

  lemma HolderMeaning(s: State, k: int, nr: int)
    requires Unique(s.slot) && 0 <= k < |s.slot| && 0 <= nr < |s.disk| && Of(s.slot[k], nr)
    ensures LogicalAt(s, nr) == s.slot[k].body
  {}

  // ---- single changes: slot k becomes x
  function Put(s: State, k: int, x: Slot): State requires 0 <= k < |s.slot| { s.(slot := s.slot[k := x]) }

  lemma PutInv(s: State, k: int, x: Slot)
    requires Inv(s) && 0 <= k < NR_INODE && SlotOk(x, s.disk, s.bits)
    requires x.dev == DEV ==> forall i :: 0 <= i < NR_INODE && i != k ==> !Of(s.slot[i], x.num)
    ensures Inv(Put(s, k, x))
  {}

  // A clean inode leaves its slot: the disk has it. And a free slot takes an inode as the disk has it.
  lemma EvictMeaning(s: State, k: int, x: Slot, nr: int)
    requires Inv(s) && 0 <= k < NR_INODE && !s.slot[k].dirt && Inv(Put(s, k, x)) && (x.dev == DEV ==> !x.dirt)
    requires 0 <= nr < |s.disk|
    ensures LogicalAt(Put(s, k, x), nr) == LogicalAt(s, nr)
  {
    var s' := Put(s, k, x);
    assert SlotOk(s.slot[k], s.disk, s.bits) && SlotOk(s'.slot[k], s.disk, s.bits);
    MeansLogical(s, nr, LogicalAt(s, nr));
    if Of(s.slot[k], nr) { HolderMeaning(s, k, nr); }
    if Of(s'.slot[k], nr) {
      HolderMeaning(s', k, nr);
      Uncached(s, s', k, nr);
    } else if Of(s.slot[k], nr) {
      Uncached(s', s, k, nr);
    } else {
      SameMeaning(s, s', k, nr);
    }
  }

  // Slot k of s' has nr and slot k of s is clean or has another: then no slot of s has nr but, cleanly, k.
  lemma Uncached(s: State, s': State, k: int, nr: int)
    requires Inv(s) && Inv(s') && 0 <= k < NR_INODE && s' == Put(s, k, s'.slot[k]) && Of(s'.slot[k], nr)
    requires !s.slot[k].dirt && 0 <= nr < |s.disk|
    ensures LogicalAt(s, nr) == s.disk[nr]
  {
    assert SlotOk(s.slot[k], s.disk, s.bits);
    forall j | 0 <= j < NR_INODE && j != k ensures !Of(s.slot[j], nr) { assert s'.slot[j] == s.slot[j]; }
    assert Means(s, nr, s.disk[nr]);
    MeansLogical(s, nr, s.disk[nr]);
  }

  // A slot keeps its inode and changes its users, or, dirty, its content.
  lemma KeepMeaning(s: State, k: int, x: Slot, nr: int)
    requires Inv(s) && 0 <= k < NR_INODE && Inv(Put(s, k, x)) && x.dev == s.slot[k].dev && x.num == s.slot[k].num
    requires 0 <= nr < |s.disk|
    ensures LogicalAt(Put(s, k, x), nr) == if Of(x, nr) then x.body else LogicalAt(s, nr)
  {
    var s' := Put(s, k, x);
    if Of(x, nr) { HolderMeaning(s', k, nr); } else { SameMeaning(s, s', k, nr); }
  }

  // write_inode
  function WriteOut(s: State, k: int): State
    requires 0 <= k < |s.slot| && 0 <= s.slot[k].num < |s.disk|
  { s.(disk := s.disk[s.slot[k].num := s.slot[k].body], slot := s.slot[k := s.slot[k].(dirt := false)]) }

  lemma WriteOutOk(s: State, k: int)
    requires Inv(s) && 0 <= k < NR_INODE && s.slot[k].dev == DEV
    ensures SlotOk(s.slot[k], s.disk, s.bits) && Inv(WriteOut(s, k))
    ensures forall nr :: 0 <= nr < |s.disk| ==> LogicalAt(WriteOut(s, k), nr) == LogicalAt(s, nr)
  {
    assert SlotOk(s.slot[k], s.disk, s.bits);
    var s' := WriteOut(s, k);
    forall i | 0 <= i < NR_INODE ensures SlotOk(s'.slot[i], s'.disk, s'.bits) {
      assert SlotOk(s.slot[i], s.disk, s.bits);
      assert Of(s.slot[k], s.slot[k].num) && (i != k ==> !Of(s.slot[i], s.slot[k].num));
    }
    forall nr | 0 <= nr < |s.disk| ensures LogicalAt(s', nr) == LogicalAt(s, nr) {
      if nr == s.slot[k].num { HolderMeaning(s, k, nr); HolderMeaning(s', k, nr); } else { SameMeaning(s, s', k, nr); }
    }
  }

  // free_inode: the bit is cleared and the slot wiped
  function Free(s: State, k: int): State
    requires 0 <= k < |s.slot| && 0 <= s.slot[k].num < |s.bits|
  { s.(bits := s.bits[s.slot[k].num := false], slot := s.slot[k := Zeroed(0)]) }

  lemma FreeOk(s: State, k: int)
    requires Inv(s) && 0 <= k < NR_INODE && s.slot[k].dev == DEV
    ensures SlotOk(s.slot[k], s.disk, s.bits) && Inv(Free(s, k))
    ensures forall nr :: 0 <= nr < |s.disk| && nr != s.slot[k].num ==> LogicalAt(Free(s, k), nr) == LogicalAt(s, nr)
  {
    assert SlotOk(s.slot[k], s.disk, s.bits);
    var s' := Free(s, k);
    forall i | 0 <= i < NR_INODE ensures SlotOk(s'.slot[i], s'.disk, s'.bits) {
      assert SlotOk(s.slot[i], s.disk, s.bits);
      assert Of(s.slot[k], s.slot[k].num) && (i != k ==> !Of(s.slot[i], s.slot[k].num));
    }
    forall nr | 0 <= nr < |s.disk| && nr != s.slot[k].num ensures LogicalAt(s', nr) == LogicalAt(s, nr) {
      SameMeaning(s, s', k, nr);
    }
  }

  // new_inode: a free number gets its bit and a dirty slot
  function Allot(s: State, k: int, nr: int, d: DInode): State
    requires 0 <= k < |s.slot| && 0 <= nr < |s.bits|
  { s.(bits := s.bits[nr := true], slot := s.slot[k := Slot(d, DEV, nr, 1, true)]) }

  lemma AllotOk(s: State, k: int, nr: int, d: DInode)
    requires Inv(s) && 0 <= k < NR_INODE && s.slot[k].dev == 0 && 1 <= nr < |s.disk| && nr < |s.bits| && !s.bits[nr]
    ensures Inv(Allot(s, k, nr, d))
    ensures forall n :: 0 <= n < |s.disk| ==> LogicalAt(Allot(s, k, nr, d), n) == if n == nr then d else LogicalAt(s, n)
  {
    var s' := Allot(s, k, nr, d);
    forall i | 0 <= i < NR_INODE ensures SlotOk(s'.slot[i], s'.disk, s'.bits) && (i != k ==> !Of(s'.slot[i], nr)) {
      assert SlotOk(s.slot[i], s.disk, s.bits);
    }
    forall n | 0 <= n < |s.disk| ensures LogicalAt(s', n) == if n == nr then d else LogicalAt(s, n) {
      if n == nr { HolderMeaning(s', k, nr); } else { SameMeaning(s, s', k, n); }
    }
  }
}
