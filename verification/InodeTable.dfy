// iget, iput, get_empty_inode, read_inode, write_inode, sync_inodes (fs/inode.c), new_inode and free_inode
// (fs/bitmap.c).
module InodeTable {
  import opened InodeState
  import Bitmap

  ghost predicate AllUsed(s: State) { forall i :: 0 <= i < |s.slot| ==> s.slot[i].count > 0 }

  // All but the slots named are as they were.
  ghost predicate SameBut(s: State, s': State, k: int) {
    |s'.slot| == |s.slot| && s'.ninodes == s.ninodes && |s'.disk| == |s.disk|
      && forall i :: 0 <= i < |s.slot| && i != k ==> s'.slot[i] == s.slot[i]
  }

  ghost predicate SameLogical(s: State, s': State) {
    |s'.disk| == |s.disk| && forall nr :: 0 <= nr < |s.disk| ==> LogicalAt(s', nr) == LogicalAt(s, nr)
  }

  // how many steps of the scan lead from start to j
  function Distance(start: int, j: int): int { if j > start then j - start else j - start + NR_INODE }

  class Table {
    const slot: array<Slot>
    const disk: array<DInode>
    const ibits: array<bv8>
    const ninodes: int
    // last_inode
    var last: int

    ghost function St(): State
      reads this, slot, disk, ibits
    {
      State(slot[..], disk[..], Bitmap.Bits(ibits[..]), ninodes)
    }

    ghost predicate Apart() reads this {
      && slot as object != disk && slot as object != ibits && disk as object != ibits && 0 <= last < NR_INODE
      && ibits.Length % 1024 == 0 && 0 < ibits.Length <= 8192
    }

    ghost predicate Valid() reads this, slot, disk, ibits { Apart() && Inv(St()) }

    // an empty table over a file system that has been mounted, which marks number 0 as taken
    constructor (image: seq<DInode>, bitmap: seq<bv8>)
      requires |image| > 0 && |bitmap| % 1024 == 0 && 0 < |bitmap| <= 8192 && Bitmap.Bits(bitmap)[0]
      ensures Valid() && fresh(slot) && fresh(disk) && fresh(ibits)
      ensures St() == State(seq(NR_INODE, _ => Zeroed(0)), image, Bitmap.Bits(bitmap), |image| - 1)
    {
      slot := new Slot[NR_INODE](_ => Zeroed(0));
      disk := new DInode[|image|](i requires 0 <= i < |image| => image[i]);
      ibits := new bv8[|bitmap|](i requires 0 <= i < |bitmap| => bitmap[i]);
      ninodes, last := |image| - 1, 0;
      new;
      assert slot[..] == seq(NR_INODE, _ => Zeroed(0)) && disk[..] == image && ibits[..] == bitmap;
    }

    method PutSlot(k: int, x: Slot)
      requires Apart() && 0 <= k < slot.Length
      modifies slot
      ensures St() == Put(old(St()), k, x)
    { slot[k] := x; }

    method WriteInode(k: int)
      requires Valid() && 0 <= k < NR_INODE
      modifies slot, disk
      ensures Valid() && SameLogical(old(St()), St()) && !slot[k].dirt
      ensures SameBut(old(St()), St(), k) && slot[k] == old(slot[k]).(dirt := false) && ibits[..] == old(ibits[..])
    {
      ghost var s := St();
      assert SlotOk(s.slot[k], s.disk, s.bits);
      if !slot[k].dirt || slot[k].dev == 0 { return; }
      WriteOutOk(s, k);
      hide Inv, LogicalAt;
      disk[slot[k].num] := slot[k].body;
      slot[k] := slot[k].(dirt := false);
      assert St() == WriteOut(s, k);
    }

    // The scan of get_empty_inode: from the slot after the last one taken, once around.
    method FindEmpty() returns (k: int)
      requires Valid()
      modifies this`last
      ensures Valid() && -1 <= k < NR_INODE
      ensures k == -1 <==> AllUsed(St())
      ensures k != -1 ==> slot[k].count == 0 && !slot[k].dirt
    {
      k := -1;
      var i := NR_INODE;
      ghost var start := last;
      while i > 0
        invariant 0 <= i <= NR_INODE && Apart() && k == -1
        invariant (if i == NR_INODE then last == start else Distance(start, last) == NR_INODE - i)
        invariant forall j :: 0 <= j < NR_INODE && Distance(start, j) <= NR_INODE - i ==> slot[j].count > 0
        invariant Inv(St()) && slot.Length == NR_INODE
      {
        last := if last + 1 >= NR_INODE then 0 else last + 1;
        assert SlotOk(St().slot[last], St().disk, St().bits);
        if slot[last].count == 0 {
          k := last;
          if !slot[k].dirt { break; }
        }
        i := i - 1;
      }
    }

    // get_empty_inode; -1 is its panic. A slot nobody uses is never dirty, so nothing is written.
    method GetEmptyInode() returns (k: int)
      requires Valid()
      modifies this`last, slot
      ensures Valid() && -1 <= k < NR_INODE && SameLogical(old(St()), St()) && St().bits == old(St()).bits
      ensures disk[..] == old(disk[..])
      ensures k == -1 <==> AllUsed(old(St()))
      ensures k == -1 ==> St() == old(St())
      ensures k != -1 ==> old(slot[k]).count == 0 && St() == Put(old(St()), k, Zeroed(1))
    {
      ghost var s := St();
      k := FindEmpty();
      if k == -1 { return; }
      PutInv(s, k, Zeroed(1));
      forall nr | 0 <= nr < |s.disk| ensures LogicalAt(Put(s, k, Zeroed(1)), nr) == LogicalAt(s, nr) {
        EvictMeaning(s, k, Zeroed(1), nr);
      }
      hide Inv, LogicalAt;
      PutSlot(k, Zeroed(1));
    }

    // The search through the table for an inode.
    method FindInode(nr: int) returns (k: int)
      requires Valid()
      ensures -1 <= k < NR_INODE && (k != -1 ==> Of(slot[k], nr))
      ensures k == -1 ==> forall i :: 0 <= i < NR_INODE ==> !Of(slot[i], nr)
    {
      k := 0;
      while k < NR_INODE
        invariant 0 <= k <= NR_INODE && forall i :: 0 <= i < k ==> !Of(slot[i], nr)
      {
        if slot[k].dev == DEV && slot[k].num == nr { return; }
        k := k + 1;
      }
      k := -1;
    }

    method Share(k: int, e: int)
      requires Apart() && 0 <= k < slot.Length && 0 <= e < slot.Length && e != k && slot[e] == Zeroed(1)
      modifies slot
      ensures St() == Put(Put(old(St()), k, old(slot[k]).(count := old(slot[k]).count + 1)), e, Zeroed(1).(count := 0))
    {
      slot[k] := slot[k].(count := slot[k].count + 1);
      slot[e] := slot[e].(count := slot[e].count - 1);
    }

    // read_inode into an empty slot
    method Load(e: int, nr: int)
      requires Apart() && 0 <= e < slot.Length && 0 <= nr < disk.Length && slot[e] == Zeroed(1)
      modifies slot
      ensures St() == Put(old(St()), e, Slot(disk[nr], DEV, nr, 1, false))
    {
      slot[e] := slot[e].(dev := DEV, num := nr);
      slot[e] := slot[e].(body := disk[nr]);
    }

    // iget of an allocated inode, without mounts; -1 is the panic of get_empty_inode.
    method Iget(nr: int) returns (k: int)
      requires Valid() && 1 <= nr <= ninodes && nr < |St().bits| && St().bits[nr]
      modifies this`last, slot
      ensures Valid() && -1 <= k < NR_INODE && SameLogical(old(St()), St()) && St().bits == old(St()).bits
      ensures disk[..] == old(disk[..])
      ensures k == -1 <==> AllUsed(old(St()))
      ensures k == -1 ==> St() == old(St())
      ensures k != -1 ==> Opened(old(St()), St(), nr, k) && slot[k].body == LogicalAt(old(St()), nr)
    {
      hide Inv, LogicalAt, Opened, SameLogical;
      ghost var s := St();
      SizesOf(s);
      var e := GetEmptyInode();
      if e == -1 { return -1; }
      ghost var s1 := St();
      k := FindInode(nr);
      if k != -1 {
        FoundOk(s, s1, e, k, nr);
        Share(k, e);
      } else {
        LoadOk(s, s1, e, nr);
        Load(e, nr);
        k := e;
      }
    }

    // iput of a slot in use, for an inode that is neither a pipe nor a block device.
    method Iput(k: int)
      requires Valid() && 0 <= k < NR_INODE && slot[k].count > 0
      modifies slot, disk, ibits
      ensures Valid() && Closed(old(St()), St(), k)
    {
      ghost var s := St();
      assert SlotOk(s.slot[k], s.disk, s.bits);
      if slot[k].dev == 0 || slot[k].count > 1 {
        DropOk(s, k);
        hide Inv, LogicalAt, Closed;
        PutSlot(k, slot[k].(count := slot[k].count - 1));
        return;
      }
      if slot[k].body.nlinks == 0 {
        GoneOk(s, k);
        FreeInode(k);
        return;
      }
      if slot[k].dirt { WriteInode(k); }
      ghost var s1 := St();
      LastOk(s, s1, k);
      hide Inv, LogicalAt, Closed;
      PutSlot(k, slot[k].(count := slot[k].count - 1));
    }

    method FreeInode(k: int)
      requires Valid() && 0 <= k < NR_INODE && slot[k].dev == DEV
      modifies slot, ibits
      ensures Valid() && 0 <= old(slot[k]).num < |old(St()).bits| && St() == Free(old(St()), k)
    {
      ghost var s := St();
      FreeOk(s, k);
      hide Inv;
      var was := Bitmap.ClearBit(ibits, slot[k].num);
      slot[k] := Zeroed(0);
    }

    // new_inode: the first free number. -1: no free slot, a panic. -2: no free number.
    method NewInode(d: DInode) returns (k: int)
      requires Valid()
      modifies this`last, slot, ibits
      ensures Valid() && -2 <= k < NR_INODE && disk[..] == old(disk[..])
      ensures k == -1 <==> AllUsed(old(St()))
      ensures k == -1 ==> St() == old(St())
      ensures k == -2 ==>
        NoNumber(old(St())) && SameLogical(old(St()), St()) && St().bits == old(St()).bits
          && exists e :: 0 <= e < NR_INODE && old(slot[e]).count == 0 && St() == Put(old(St()), e, Zeroed(0))
      ensures k >= 0 ==> Created(old(St()), St(), k, d)
    {
      ghost var s := St();
      k := GetEmptyInode();
      if k == -1 { return; }
      ghost var s1 := St();
      var nr := FindNumber();
      if nr > ninodes {
        EmptyOk(s, s1, k);
        hide Inv, LogicalAt;
        PutSlot(k, slot[k].(count := slot[k].count - 1));
        return -2;
      }
      CreateOk(s, s1, k, nr, d);
      hide Inv, LogicalAt, Created;
      var was := Bitmap.SetBit(ibits, nr);
      slot[k] := Slot(d, DEV, nr, 1, true);
      assert St() == Allot(s1, k, nr, d);
    }

    method TestBit(nr: nat) returns (b: bool)
      ensures b <==> nr < |St().bits| && St().bits[nr]
    { b := nr < 8 * ibits.Length && Bitmap.Test(ibits[nr / 8], nr % 8); }

    function Map(): (b: seq<bool>)
      reads this, slot, disk, ibits
      ensures b == St().bits
    { Bitmap.Bits(ibits[..]) }

    // The first clear bit, past the last number if there is none.
    method FindNumber() returns (nr: int)
      requires Valid()
      ensures nr >= 1 && forall n :: 0 <= n < nr && n < |St().bits| && n <= ninodes ==> St().bits[n]
      ensures nr <= ninodes ==> nr < |St().bits| && !St().bits[nr]
    {
      var i, j := 0, 8192;
      var n := ibits.Length / 1024;
      while i < 8
        invariant 0 <= i <= 8 && j == 8192 && forall k :: 0 <= k < 8192 * i && k < |St().bits| ==> St().bits[k]
      {
        if i < n {
          j := Bitmap.FindFirstZero(ibits, i);
          if j < 8192 { return j + i * 8192; }
        }
        i := i + 1;
      }
      return ninodes + 1;
    }

    method SyncInodes()
      requires Valid()
      modifies slot, disk
      ensures Valid() && SameLogical(old(St()), St()) && St().bits == old(St()).bits
      ensures forall i :: 0 <= i < NR_INODE ==> slot[i] == old(slot[i]).(dirt := false)
      ensures forall nr :: 0 <= nr <= ninodes ==> disk[nr] == LogicalAt(old(St()), nr)
    {
      ghost var s := St();
      for i := 0 to NR_INODE
        invariant Valid() && SameLogical(s, St()) && St().bits == s.bits
        invariant forall j :: 0 <= j < NR_INODE ==> slot[j] == if j < i then s.slot[j].(dirt := false) else s.slot[j]
      {
        hide Inv, LogicalAt;
        WriteInode(i);
      }
      CleanDisk(St());
    }
  }

  // nr now has one more user, in slot k.
  ghost predicate Opened(s: State, s': State, nr: int, k: int) {
    && |s'.slot| == |s.slot| == NR_INODE && 0 <= k < NR_INODE && Of(s'.slot[k], nr)
    && ((exists e :: 0 <= e < NR_INODE && e != k && s.slot[e].count == 0 && Of(s.slot[k], nr)
           && s'.slot == s.slot[k := s.slot[k].(count := s.slot[k].count + 1)][e := Zeroed(0)])
        || (s.slot[k].count == 0 && s'.slot == s.slot[k := Slot(s'.slot[k].body, DEV, nr, 1, false)]
           && forall i :: 0 <= i < NR_INODE && i != k ==> !Of(s.slot[i], nr)))
  }

  lemma SizesOf(s: State)
    requires Inv(s)
    ensures |s.slot| == NR_INODE && |s.disk| == s.ninodes + 1
  {}

  lemma FoundOk(s: State, s1: State, e: int, k: int, nr: int)
    requires Inv(s) && Inv(s1) && SameLogical(s, s1) && 0 <= e < NR_INODE && 0 <= k < NR_INODE
    requires s1 == Put(s, e, Zeroed(1)) && s.slot[e].count == 0
    requires Of(s1.slot[k], nr) && 1 <= nr < |s.disk|
    ensures var s' := Put(Put(s1, k, s1.slot[k].(count := s1.slot[k].count + 1)), e, s1.slot[e].(count := 0));
      e != k && Inv(s') && SameLogical(s, s') && Opened(s, s', nr, k) && s'.slot[k].body == LogicalAt(s, nr)
  {
    assert e != k;
    var s2 := Put(s1, k, s1.slot[k].(count := s1.slot[k].count + 1));
    assert SlotOk(s1.slot[k], s1.disk, s1.bits);
    PutInv(s1, k, s2.slot[k]);
    var s' := Put(s2, e, Zeroed(0));
    assert s1.slot[e].(count := 0) == Zeroed(0);
    PutInv(s2, e, Zeroed(0));
    forall n | 0 <= n < |s.disk| ensures LogicalAt(s', n) == LogicalAt(s, n) {
      KeepMeaning(s1, k, s2.slot[k], n);
      if n == nr { HolderMeaning(s1, k, nr); }
      EvictMeaning(s2, e, Zeroed(0), n);
    }
    HolderMeaning(s1, k, nr);
    assert s'.slot == s.slot[k := s.slot[k].(count := s.slot[k].count + 1)][e := Zeroed(0)];
  }

  lemma LoadOk(s: State, s1: State, e: int, nr: int)
    requires Inv(s) && Inv(s1) && SameLogical(s, s1) && 0 <= e < NR_INODE && s1 == Put(s, e, Zeroed(1))
    requires s.slot[e].count == 0
    requires 1 <= nr < |s.disk| && nr < |s.bits| && s.bits[nr] && forall i :: 0 <= i < NR_INODE ==> !Of(s1.slot[i], nr)
    ensures var s' := Put(s1, e, Slot(s.disk[nr], DEV, nr, 1, false));
      Inv(s') && SameLogical(s, s') && Opened(s, s', nr, e) && s'.slot[e].body == LogicalAt(s, nr)
  {
    var x := Slot(s.disk[nr], DEV, nr, 1, false);
    PutInv(s1, e, x);
    var s' := Put(s1, e, x);
    forall n | 0 <= n < |s.disk| ensures LogicalAt(s', n) == LogicalAt(s, n) { EvictMeaning(s1, e, x, n); }
    HolderMeaning(s', e, nr);
    forall i | 0 <= i < NR_INODE && i != e ensures !Of(s.slot[i], nr) { assert s1.slot[i] == s.slot[i]; }
    assert s'.slot == s.slot[e := x];
  }

  // One user less. With the last one an inode without links is freed, and any other is written out.
  ghost predicate Closed(s: State, s': State, k: int)
    requires |s.slot| == NR_INODE && 0 <= k < NR_INODE
  {
    var x := s.slot[k];
    if x.dev == DEV && x.count == 1 && x.body.nlinks == 0 then
      && 0 <= x.num < |s.bits| && s' == Free(s, k) && forall nr :: 0 <= nr < |s.disk| && nr != x.num ==>
        LogicalAt(s', nr) == LogicalAt(s, nr)
    else
      && SameLogical(s, s') && s'.bits == s.bits && s'.ninodes == s.ninodes
      && s'.slot == s.slot[k := x.(count := x.count - 1, dirt := x.dirt && x.count > 1)]
  }

  lemma DropOk(s: State, k: int)
    requires Inv(s) && 0 <= k < NR_INODE && s.slot[k].count > 0 && (s.slot[k].dev == 0 || s.slot[k].count > 1)
    ensures var s' := Put(s, k, s.slot[k].(count := s.slot[k].count - 1)); Inv(s') && Closed(s, s', k)
  {
    var x := s.slot[k].(count := s.slot[k].count - 1);
    assert SlotOk(s.slot[k], s.disk, s.bits);
    PutInv(s, k, x);
    forall nr | 0 <= nr < |s.disk| ensures LogicalAt(Put(s, k, x), nr) == LogicalAt(s, nr) {
      KeepMeaning(s, k, x, nr);
      if Of(x, nr) { HolderMeaning(s, k, nr); }
    }
  }

  lemma GoneOk(s: State, k: int)
    requires Inv(s) && 0 <= k < NR_INODE && s.slot[k].dev == DEV && s.slot[k].count == 1 && s.slot[k].body.nlinks == 0
    ensures SlotOk(s.slot[k], s.disk, s.bits) && Closed(s, Free(s, k), k)
  { FreeOk(s, k); }

  lemma LastOk(s: State, s1: State, k: int)
    requires Inv(s) && Inv(s1) && 0 <= k < NR_INODE && s.slot[k].dev == DEV && s.slot[k].count == 1
    requires s.slot[k].body.nlinks != 0
    requires SameLogical(s, s1) && SameBut(s, s1, k) && s1.bits == s.bits && s1.slot[k] == s.slot[k].(dirt := false)
    ensures var s' := Put(s1, k, s1.slot[k].(count := s1.slot[k].count - 1)); Inv(s') && Closed(s, s', k)
  {
    var x := s1.slot[k].(count := 0);
    assert SlotOk(s1.slot[k], s1.disk, s1.bits);
    PutInv(s1, k, x);
    var s' := Put(s1, k, x);
    forall nr | 0 <= nr < |s.disk| ensures LogicalAt(s', nr) == LogicalAt(s, nr) {
      KeepMeaning(s1, k, x, nr);
      if Of(x, nr) { HolderMeaning(s1, k, nr); }
    }
    assert s'.slot == s.slot[k := s.slot[k].(count := 0, dirt := false)];
  }

  ghost predicate NoNumber(s: State) { forall n :: 1 <= n <= s.ninodes && n < |s.bits| ==> s.bits[n] }

  // d is a new inode, with the first number that was free.
  ghost predicate Created(s: State, s': State, k: int, d: DInode) {
    && |s.slot| == NR_INODE && 0 <= k < NR_INODE && s.slot[k].count == 0 && |s'.slot| == NR_INODE
    && var nr := s'.slot[k].num;
    && 1 <= nr <= s.ninodes && nr < |s.bits| && !s.bits[nr] && (forall n :: 1 <= n < nr ==> s.bits[n])
    && s'.slot == s.slot[k := Slot(d, DEV, nr, 1, true)] && s'.bits == s.bits[nr := true] && s'.disk == s.disk
      && s'.ninodes == s.ninodes
    && |s.disk| == s.ninodes + 1 && forall n :: 0 <= n < |s.disk| ==>
      LogicalAt(s', n) == if n == nr then d else LogicalAt(s, n)
  }

  lemma CreateOk(s: State, s1: State, k: int, nr: int, d: DInode)
    requires Inv(s) && Inv(s1) && 0 <= k < NR_INODE && s.slot[k].count == 0 && s1 == Put(s, k, Zeroed(1))
    requires SameLogical(s, s1)
    requires 1 <= nr <= s.ninodes && nr < |s.bits| && !s.bits[nr]
    requires forall n :: 0 <= n < nr && n < |s.bits| && n <= s.ninodes ==> s.bits[n]
    ensures Inv(Allot(s1, k, nr, d)) && Created(s, Allot(s1, k, nr, d), k, d)
  {
    AllotOk(s1, k, nr, d);
    assert Allot(s1, k, nr, d).slot == s.slot[k := Slot(d, DEV, nr, 1, true)];
    hide Inv, LogicalAt;
  }

  lemma EmptyOk(s: State, s1: State, k: int)
    requires Inv(s) && Inv(s1) && 0 <= k < NR_INODE && s.slot[k].count == 0 && s1 == Put(s, k, Zeroed(1))
    requires SameLogical(s, s1)
    ensures Put(s1, k, s1.slot[k].(count := 0)) == Put(s, k, Zeroed(0)) && Inv(Put(s, k, Zeroed(0)))
    ensures SameLogical(s, Put(s, k, Zeroed(0)))
  {
    PutInv(s, k, Zeroed(0));
    assert SlotOk(s.slot[k], s.disk, s.bits);
    forall nr | 0 <= nr < |s.disk| ensures LogicalAt(Put(s, k, Zeroed(0)), nr) == LogicalAt(s, nr) {
      EvictMeaning(s, k, Zeroed(0), nr);
    }
    assert s1.slot[k := Zeroed(0)] == s.slot[k := Zeroed(0)];
  }

  lemma CleanDisk(s: State)
    requires Inv(s) && forall i :: 0 <= i < NR_INODE ==> !s.slot[i].dirt
    ensures forall nr :: 0 <= nr < |s.disk| ==> s.disk[nr] == LogicalAt(s, nr)
  {
    forall nr | 0 <= nr < |s.disk| ensures s.disk[nr] == LogicalAt(s, nr) {
      forall i | 0 <= i < NR_INODE && Of(s.slot[i], nr) ensures s.slot[i].body == s.disk[nr] {
        assert SlotOk(s.slot[i], s.disk, s.bits);
      }
      assert Means(s, nr, s.disk[nr]);
      MeansLogical(s, nr, s.disk[nr]);
    }
  }
}
