// The file system code over zone map, blocks and inodes (fs/bitmap.c, fs/inode.c, fs/truncate.c).
module FileLayer {
  import opened Bytes
  import opened Zones
  import opened ZoneMoves
  import opened ZoneSteps
  import opened ZoneFree
  import Bitmap

  const MAX_BLOCKS := 7 + 512 + 512 * 512

  // where the zone number of file block k of inode n is stored
  function PosOf(n: int, k: int): Pos requires 0 <= k < MAX_BLOCKS {
    if k < 7 then Zone(n, k)
    else if k < 519 then Ind(n, k - 7)
    else Leaf(n, (k - 519) / 512, (k - 519) % 512)
  }

  // every zone the bitmap covers is taken
  ghost predicate Full(s: Disk) { forall b :: InData(s, b) && b - s.first + 1 < |s.bits| ==> Bit(s, b) }

  // the inodes differ in zone numbers only
  ghost predicate SameInodes(s: Disk, s': Disk) {
    |s'.inode| == |s.inode| && forall n :: 0 <= n < |s.inode| ==> s'.inode[n] == s.inode[n].(zone := s'.inode[n].zone)
  }

  class Fs {
    const zmap: array<bv8>
    const block: array<Block>
    const inode: array<Inode>
    const first: int
    const nzones: int
    ghost var held: set<int>

    // An empty file system: no data zone taken, no inode with anything in it.
    constructor (blocks: seq<Block>, inodes: nat, firstZone: int, zones: int, maps: nat)
      requires 0 < firstZone <= zones <= |blocks| && zones <= 65536 && 1 <= maps <= 8
      ensures fresh(zmap) && fresh(block) && fresh(inode)
      ensures Inv(St(), {}) && Maps() && held == {} && inode.Length == inodes && block[..] == blocks
      ensures forall n :: 0 <= n < inodes ==> inode[n] == Inode(true, 0, seq(9, _ => 0))
      ensures St().first == firstZone && St().nzones == zones && forall k :: 0 < k < |St().bits| ==> !St().bits[k]
    {
      zmap := new bv8[1024 * maps](i => if i == 0 then 1 else 0);
      block := new Block[|blocks|](i requires 0 <= i < |blocks| => blocks[i]);
      inode := new Inode[inodes](_ => Inode(true, 0, seq(9, _ => 0)));
      first, nzones, held := firstZone, zones, {};
      new;
      assert block[..] == blocks;
      Bitmap.FirstOnly(zmap[..]);
      NothingNamed(St());
    }

    ghost function St(): Disk reads this, zmap, block, inode {
      Disk(Bitmap.Bits(zmap[..]), block[..], inode[..], first, nzones, held)
    }

    // one to eight map blocks; the three tables are separate memory
    ghost predicate Maps() {
      zmap.Length % 1024 == 0 && 0 < zmap.Length <= 8192 && zmap as object != block as object
        && zmap as object != inode as object
    }

    method PutBlock(b: int, c: Block)
      requires Maps() && 0 <= b < block.Length
      modifies block
      ensures St() == SetBlock(old(St()), b, c)
    {
      block[b] := c;
      assert block[..] == old(block[..])[b := c];
    }

    method PutZone(n: int, i: int, v: int)
      requires Maps() && 0 <= n < inode.Length && 0 <= i < |inode[n].zone|
      modifies inode
      ensures St() == SetZone(old(St()), n, i, v)
    {
      inode[n] := inode[n].(zone := inode[n].zone[i := v]);
      assert inode[..] == old(inode[..])[n := old(inode[n]).(zone := old(inode[n]).zone[i := v])];
    }

    // new_block: first fit; 0 if no zone is left
    method NewBlock() returns (b: int)
      requires Inv(St(), {}) && Maps()
      modifies this, zmap, block
      ensures Inv(St(), {}) && SameContents(old(St()), St())
      ensures forall p :: IsPos(St(), p) ==> At(St(), p) == At(old(St()), p)
      ensures b == 0 ==> Full(old(St())) && Full(St()) && held == old(held)
      ensures b != 0 ==>
        InData(St(), b) && InBlocks(St(), b) && b !in old(held) && held == old(held) + {b} && block[b] == ZeroBlock()
      ensures b != 0 ==> !Bit(old(St()), b) && forall c :: InData(St(), c) && c < b ==> Bit(old(St()), c)
    {
      ghost var s := St();
      var n := zmap.Length / 1024;
      var i, j := 0, 8192;
      while i < 8
        invariant 0 <= i <= 8 && 0 <= j <= 8192
        invariant j == 8192 && St() == s
        invariant forall k :: 0 <= k < 8192 * i && k < |s.bits| ==> s.bits[k]
      {
        if i < n {
          j := Bitmap.FindFirstZero(zmap, i);
          if j < 8192 { break; }
        }
        i := i + 1;
      }
      if i >= 8 || j >= 8192 {
        FullWhenSet(s);
        Unchanged(s, s);
        return 0;
      }
      b := TakeBit(i, j);
      if b != 0 {
        PutBlock(b, ZeroBlock());
        held := held + {b};
        assert St() == Grab(s, b);
        GrabInv(s, b);
        forall p | IsPos(s, p) ensures At(St(), p) == At(s, p) { GrabKeeps(s, b, p); }
        FreeBlockUnnamed(s, b);
      }
    }

    // the tail of the search: bit j of map block i is the first clear one
    method TakeBit(i: int, j: int) returns (b: int)
      requires Inv(St(), {}) && Maps() && 0 <= i && 1024 * (i + 1) <= zmap.Length && 0 <= j < 8192
      requires !St().bits[i * 8192 + j] && forall k :: 0 <= k < i * 8192 + j ==> St().bits[k]
      modifies zmap
      ensures b == 0 ==> Full(old(St())) && Full(St()) && Inv(St(), {}) && SameContents(old(St()), St())
      ensures b == 0 ==> forall p :: IsPos(St(), p) ==> At(St(), p) == At(old(St()), p)
      ensures b != 0 ==> InData(St(), b) && 0 <= b - first + 1 < |St().bits| && St() == SetBit(old(St()), b, true)
      ensures b != 0 ==> !Bit(old(St()), b) && forall c :: InData(St(), c) && c < b ==> Bit(old(St()), c)
    {
      ghost var s := St();
      var k := j + i * 8192;
      var was := Bitmap.SetBit(zmap, k);
      assert !was;
      assert St() == s.(bits := s.bits[k := true]);
      b := k + first - 1;
      if b >= nzones {
        BeyondRange(s, St(), k);
        return 0;
      }
    }

    // i_zone[i], allocated first if create is set and it is empty
    method ZoneFor(n: int, i: int, create: bool) returns (b: int)
      requires Inv(St(), {}) && Maps() && held == {} && 0 <= n < inode.Length && inode[n].tree && 0 <= i < 9
      modifies this, zmap, block, inode
      ensures Inv(St(), {}) && held == {} && b == At(St(), Zone(n, i)) && inode[n].tree
      ensures !create ==> St() == old(St())
      ensures GrewAt(old(St()), St(), Zone(n, i)) && (create && b == 0 ==> Full(St()))
    {
      hide InRange, Distinct, Mapped;
      ghost var s := St();
      GrewRefl(s, Zone(n, i));
      if create && inode[n].zone[i] == 0 {
        b := NewBlock();
        ghost var s1 := St();
        if b != 0 {
          PutZone(n, i, b);
          held := held - {b};
          HookZoneInv(s1, n, i, b);
          GrewByZone(s, s1, n, i, b);
          assert held == {};
        } else {
          GrewSame(s, s1, Zone(n, i));
        }
      }
      b := inode[n].zone[i];
    }

    // entry k of the indirect block b0, allocated first if create is set and it is empty
    method EntryFor(b0: int, k: int, create: bool, ghost q: Pos) returns (b: int)
      requires Inv(St(), {}) && Maps() && held == {} && IsPos(St(), q) && IsNode(q) && At(St(), q) == b0 != 0
      requires 0 <= k < 512
      modifies this, zmap, block, inode
      ensures Inv(St(), {}) && held == {} && IsPos(St(), ChildAt(q, k)) && b == At(St(), ChildAt(q, k))
      ensures !create ==> St() == old(St())
      ensures GrewAt(old(St()), St(), ChildAt(q, k)) && (create && b == 0 ==> Full(St()))
    {
      hide InRange, Distinct, Mapped;
      ghost var s, p0 := St(), ChildAt(q, k);
      GrewRefl(s, p0);
      NamedInv(s, q, b0);
      ChildIs(s, q, b0, k);
      b := Entry(block[b0], k);
      if create && b == 0 {
        b := NewBlock();
        ghost var s1 := St();
        GrewSame(s, s1, p0);
        ChildIs(s1, q, b0, k);
        if b != 0 {
          HookEntryInv(s1, q, b0, k, b);
          PutBlock(b0, SetEntry(block[b0], k, b));
          held := held - {b};
          GrewByEntry(s, s1, q, b0, k, b);
          assert held == {};
        }
      }
    }

    // _bmap. It panics exactly on a block that no file has.
    method Bmap(n: int, blk: int, create: bool) returns (b: int, panic: bool)
      requires Inv(St(), {}) && Maps() && held == {} && 0 <= n < inode.Length && inode[n].tree
      modifies this, zmap, block, inode
      ensures Inv(St(), {}) && held == {} && (panic <==> !(0 <= blk < MAX_BLOCKS))
      ensures panic || !create ==> St() == old(St())
      ensures !panic ==>
        && b == At(St(), PosOf(n, blk)) && Grew(old(St()), St(), PosOf(n, blk)) && (create && b == 0 ==> Full(St()))
    {
      hide *;
      if blk < 0 || blk >= MAX_BLOCKS { return 0, true; }
      b := BlockFor(n, blk, create);
      panic := false;
    }

    // the rest of _bmap: through one, two or three pointers
    method BlockFor(n: int, blk: int, create: bool) returns (b: int)
      requires Inv(St(), {}) && Maps() && held == {} && 0 <= n < inode.Length && inode[n].tree && 0 <= blk < MAX_BLOCKS
      modifies this, zmap, block, inode
      ensures Inv(St(), {}) && held == {} && b == At(St(), PosOf(n, blk))
      ensures !create ==> St() == old(St())
      ensures Grew(old(St()), St(), PosOf(n, blk)) && (create && b == 0 ==> Full(St()))
    {
      hide InRange, Distinct, Mapped;
      ghost var s := St();
      if blk < 7 {
        b := ZoneFor(n, blk, create);
        GrewStep(s, s, St(), PosOf(n, blk), Zone(n, blk));
        return;
      }
      if blk < 519 {
        b := ZoneFor(n, 7, create);
        ghost var s1 := St();
        GrewStep(s, s, s1, PosOf(n, blk), Zone(n, 7));
        HoleBelow(s1, PosOf(n, blk));
        if b == 0 { return 0; }
        b := EntryFor(b, blk - 7, create, Zone(n, 7));
        GrewStep(s, s1, St(), PosOf(n, blk), Ind(n, blk - 7));
        return;
      }
      var i, j := (blk - 519) / 512, (blk - 519) % 512;
      b := ZoneFor(n, 8, create);
      ghost var s1 := St();
      GrewStep(s, s, s1, PosOf(n, blk), Zone(n, 8));
      HoleBelow(s1, Dind(n, i));
      HoleBelow(s1, PosOf(n, blk));
      if b == 0 { return 0; }
      b := EntryFor(b, i, create, Zone(n, 8));
      ghost var s2 := St();
      GrewStep(s, s1, s2, PosOf(n, blk), Dind(n, i));
      HoleBelow(s2, PosOf(n, blk));
      if b == 0 { return 0; }
      b := EntryFor(b, j, create, Dind(n, i));
      GrewStep(s, s2, St(), PosOf(n, blk), PosOf(n, blk));
    }

    // free_block: it panics on a block that is not a data zone and on one that is free already. stale is what the disk
    // holds.
    method FreeBlock(b: int, stale: seq<Block>) returns (panic: bool)
      requires Shape(St()) && Maps() && |stale| == block.Length && (InData(St(), b) ==> Covered(St(), b))
      modifies zmap, block
      ensures panic <==> !(InData(old(St()), b) && Bit(old(St()), b))
      ensures panic ==> St() == old(St())
      ensures !panic ==> St() == Drop(old(St()), b, stale[b])
    {
      if b < first || b >= nzones { return true; }
      panic := Bitmap.ClearBit(zmap, b - first + 1);
      if panic {
        assert St().bits == old(St()).bits;
        return;
      }
      PutBlock(b, stale[b]);
    }

    // free_ind on the low indirect block that position q names
    method FreeInd(b: int, stale: seq<Block>, ghost q: Pos, ghost dead: set<Pos>)
      requires Maps() && |stale| == block.Length && Inv(St(), dead) && Closed(dead)
      requires IsPos(St(), q) && IsNode(q) && IsLow(q) && At(St(), q) == b && (dead !! LowTree(q))
      modifies zmap, block
      ensures Inv(St(), dead + LowTree(q)) && Closed(dead + LowTree(q)) && Spared(old(St()), St(), dead + LowTree(q))
    {
      hide InRange, Distinct, Mapped, Closed, Spared, At, LowTree, Kids, FreeingInd;
      ghost var s0 := St();
      if b == 0 {
        LowTreeEmpty(s0, dead, q);
        SparedRefl(s0, dead + LowTree(q));
        return;
      }
      FreeingIndStart(s0, dead, q);
      for i := 0 to 512
        invariant FreeingInd(s0, St(), dead, q, i) && block.Length == |s0.block|
      {
        ghost var s := St();
        IndKept(s0, s, dead, q, i, b);
        var p := Entry(block[b], i);
        FreeingIndStep(s0, s, dead, q, i, Stale(stale, p));
        if p != 0 {
          var panic := FreeBlock(p, stale);
        }
      }
      IndKept(s0, St(), dead, q, 512, b);
      FreeIndEnd(s0, St(), dead, q, stale[b]);
      var panic := FreeBlock(b, stale);
    }

    // free_dind on inode n's doubly indirect block
    method FreeDind(n: int, b: int, stale: seq<Block>, ghost dead: set<Pos>)
      requires Maps() && |stale| == block.Length && Inv(St(), dead) && Closed(dead)
      requires IsPos(St(), Zone(n, 8)) && At(St(), Zone(n, 8)) == b && (dead !! HighTree(n))
      modifies zmap, block
      ensures Inv(St(), dead + HighTree(n)) && Spared(old(St()), St(), dead + HighTree(n))
    {
      hide InRange, Distinct, Mapped;
      ghost var s0 := St();
      if b == 0 {
        HighTreeEmpty(s0, dead, n);
        return;
      }
      assert Zone(n, 8) in HighTree(n);
      LiveInv(s0, dead, Zone(n, 8));
      assert Lows(n, 0) == {} && dead + {} == dead;
      for i := 0 to 512
        invariant FreeingDind(s0, St(), dead, n, i)
      {
        ghost var s, gone := St(), dead + Lows(n, i);
        DindKept(s0, s, dead, n, i, b);
        FreeInd(Entry(block[b], i), stale, Dind(n, i), gone);
        FreeingDindStep(s0, s, St(), dead, n, i);
      }
      DindKept(s0, St(), dead, n, 512, b);
      FreeDindEnd(s0, St(), dead, n, stale[b]);
      var panic := FreeBlock(b, stale);
    }

    // truncate's loop over the seven direct zones
    method FreeDirect(n: int, stale: seq<Block>) returns (panic: bool)
      requires Maps() && 0 <= n < inode.Length && inode[n].tree && |stale| == block.Length
      requires Inv(St(), {}) || FirstFreed(St(), n)
      modifies zmap, block, inode
      ensures panic <==> FirstFreed(old(St()), n)
      ensures !panic ==> Inv(St(), {}) && Spared(old(St()), St(), Direct(n, 7)) && inode[n].tree
      ensures !panic ==> forall k :: 0 <= k < 7 ==> inode[n].zone[k] == 0
      ensures forall m :: 0 <= m < inode.Length && m != n ==> inode[m] == old(inode[m])
    {
      hide InRange, Distinct, Mapped, Spared, Direct;
      ghost var s0 := St();
      SparedRefl(s0, Direct(n, 0));
      if Inv(s0, {}) { NotFreed(s0, n); }
      for i := 0 to 7
        invariant if FirstFreed(s0, n) then i == 0 && St() == s0 else Inv(St(), {})
        invariant Shape(s0) && Shape(St()) && Spared(s0, St(), Direct(n, i)) && inode[n].tree
        invariant forall k :: 0 <= k < i ==> inode[n].zone[k] == 0
        invariant forall m :: 0 <= m < inode.Length && m != n ==> inode[m] == old(inode[m])
      {
        ghost var s := St();
        if inode[n].zone[i] != 0 {
          var b := inode[n].zone[i];
          if !FirstFreed(s0, n) {
            LiveInv(s, {}, Zone(n, i));
            FreeZone(s, n, i, Stale(stale, b));
          }
          panic := FreeBlock(b, stale);
          if panic { return; }
          PutZone(n, i, 0);
          DirectStep(s0, s, St(), n, i);
        } else {
          DirectSkip(s0, s, n, i);
        }
      }
      panic := false;
    }

    // It does not panic while the map is right. It does if the first block is free already.
    method Truncate(n: int, stale: seq<Block>) returns (panic: bool)
      requires Maps() && 0 <= n < inode.Length && |stale| == block.Length
      requires Inv(St(), {}) || FirstFreed(St(), n)
      modifies zmap, block, inode
      ensures panic <==> FirstFreed(old(St()), n)
      ensures !panic ==> Inv(old(St()), {}) && Inv(St(), {})
      ensures !old(inode[n].tree) ==> St() == old(St())
      ensures !panic && old(inode[n].tree) ==> Emptied(old(St()), St(), n) && inode[n].tree && inode[n].size == 0
      ensures forall m :: 0 <= m < inode.Length && m != n ==> inode[m] == old(inode[m])
    {
      hide InRange, Distinct, Mapped, Closed, Spared, Direct, LowTree, HighTree, Emptied;
      ghost var s0 := St();
      if Inv(s0, {}) { NotFreed(s0, n); }
      panic := false;
      if !inode[n].tree { return; }
      panic := FreeDirect(n, stale);
      if panic { return; }
      ghost var s1, low := St(), LowTree(Zone(n, 7));
      NothingDead();
      assert {} + low == low;
      FreeInd(inode[n].zone[7], stale, Zone(n, 7), {});
      ghost var s2 := St();
      TreesApart(n);
      SparedZone(s1, s2, n);
      FreeDind(n, inode[n].zone[8], stale, low);
      ghost var s3 := St();
      SparedTrans(s1, s2, s3, low, low + HighTree(n));
      DirectGone(s3, n);
      PutInode(n, inode[n].(zone := inode[n].zone[7 := 0][8 := 0], size := 0));
      assert St() == Forget(s3, n);
      ForgetInv(s1, s3, n);
      EmptiedThen(s0, s1, St(), n);
    }

    method PutInode(n: int, x: Inode)
      requires Maps() && 0 <= n < inode.Length
      modifies inode
      ensures St() == old(St()).(inode := old(St()).inode[n := x])
    {
      inode[n] := x;
      assert inode[..] == old(inode[..])[n := x];
    }
  }

  // the zone map has a bit for it
  predicate Covered(s: Disk, b: int) { 0 <= b - s.first + 1 < |s.bits| }

  // The first block of an inode, which is still in its i_zone, is free.
  ghost predicate FirstFreed(s: Disk, n: int) {
    && Shape(s) && 0 <= n < |s.inode| && s.inode[n].tree && s.inode[n].zone[0] != 0
    && InData(s, s.inode[n].zone[0]) && Covered(s, s.inode[n].zone[0]) && !Bit(s, s.inode[n].zone[0])
  }

  lemma NotFreed(s: Disk, n: int)
    requires Inv(s, {}) && 0 <= n < |s.inode|
    ensures !FirstFreed(s, n)
  { if s.inode[n].tree && s.inode[n].zone[0] != 0 { LiveInv(s, {}, Zone(n, 0)); } }

  lemma NothingNamed(s: Disk)
    requires Shape(s) && s.held == {} && (forall k :: 0 < k < |s.bits| ==> !s.bits[k])
    requires forall n, i :: 0 <= n < |s.inode| && 0 <= i < 9 ==> s.inode[n].zone[i] == 0
    ensures Inv(s, {})
  {
    forall p ensures Live(s, {}, p) == 0 {
      if IsPos(s, p) { EmptyTree(s, p); }
    }
  }

  lemma EmptyTree(s: Disk, p: Pos)
    requires Shape(s) && IsPos(s, p) && forall n, i :: 0 <= n < |s.inode| && 0 <= i < 9 ==> s.inode[n].zone[i] == 0
    ensures At(s, p) == 0
    decreases if p.Zone? then 0 else if p.Leaf? then 2 else 1
  {
    if !p.Zone? {
      AtChild(s, p);
      EmptyTree(s, Parent(p));
    }
  }

  function Stale(stale: seq<Block>, b: int): Block { if 0 <= b < |stale| then stale[b] else ZeroBlock() }
  lemma SparedRefl(s: Disk, g: set<Pos>) requires Shape(s) ensures Spared(s, s, g) {}
  lemma NothingDead() ensures Closed({}) {}

  lemma SparedZone(s: Disk, s': Disk, n: int)
    requires Shape(s) && Shape(s') && 0 <= n < |s.inode| && Spared(s, s', LowTree(Zone(n, 7)))
    ensures At(s', Zone(n, 8)) == At(s, Zone(n, 8))
  {}

  lemma FreeingIndStart(s: Disk, dead: set<Pos>, q: Pos)
    requires Inv(s, dead) && Closed(dead) && IsPos(s, q) && IsNode(q) && IsLow(q) && At(s, q) != 0
    requires (dead !! LowTree(q))
    ensures FreeingInd(s, s, dead, q, 0) && InBlocks(s, At(s, q))
  {
    assert Kids(q, 0) == {} && dead + {} == dead;
    assert q in LowTree(q);
    LiveInv(s, dead, q);
  }

  // The indirect block's own entries are read from a block that is not freed before the loop ends.
  lemma IndKept(s0: Disk, s: Disk, dead: set<Pos>, q: Pos, i: int, b: int)
    requires FreeingInd(s0, s, dead, q, i) && 0 <= i <= 512 && Shape(s0) && IsPos(s0, q) && At(s0, q) == b
    requires InBlocks(s0, b) && (dead !! LowTree(q))
    ensures Shape(s) && IsPos(s, q) && At(s, q) == b && InBlocks(s, b) && q !in dead
    ensures i < 512 ==>
      IsPos(s, ChildAt(q, i)) && ChildAt(q, i) !in dead && At(s, ChildAt(q, i)) == Entry(s.block[b], i)
  {}

  lemma DindKept(s0: Disk, s: Disk, dead: set<Pos>, n: int, i: int, b: int)
    requires FreeingDind(s0, s, dead, n, i) && 0 <= i <= 512 && Shape(s0) && IsPos(s0, Zone(n, 8))
    requires At(s0, Zone(n, 8)) == b && InBlocks(s0, b)
    requires dead !! HighTree(n)
    ensures IsPos(s, Zone(n, 8)) && At(s, Zone(n, 8)) == b && InBlocks(s, b) && Zone(n, 8) !in dead
    ensures i < 512 ==>
      IsPos(s, Dind(n, i)) && At(s, Dind(n, i)) == Entry(s.block[b], i) && (dead + Lows(n, i)) !! LowTree(Dind(n, i))
  {}

  lemma TreesApart(n: int) ensures LowTree(Zone(n, 7)) !! HighTree(n) {
    forall p | p in LowTree(Zone(n, 7)) ensures p !in HighTree(n) {
      if p != Zone(n, 7) { var k :| 0 <= k < 512 && p == ChildAt(Zone(n, 7), k); assert p == Ind(n, k); }
    }
  }

  ghost function Direct(n: int, i: int): set<Pos> { set k | 0 <= k < i :: Zone(n, k) }

  lemma DirectStep(s0: Disk, s: Disk, s': Disk, n: int, i: int)
    requires 0 <= i && Shape(s0) && Shape(s) && Shape(s') && Spared(s0, s, Direct(n, i)) && Spared(s, s', {Zone(n, i)})
    ensures Spared(s0, s', Direct(n, i + 1))
  {}

  lemma DirectSkip(s0: Disk, s: Disk, n: int, i: int)
    requires 0 <= i && Shape(s0) && Shape(s) && Spared(s0, s, Direct(n, i))
    ensures Spared(s0, s, Direct(n, i + 1))
  {}

  lemma DirectGone(s: Disk, n: int)
    requires Shape(s) && 0 <= n < |s.inode| && forall k :: 0 <= k < 7 ==> s.inode[n].zone[k] == 0
    ensures forall i :: 0 <= i < 7 ==> At(s, Zone(n, i)) == 0
  {}

  lemma EmptiedThen(s0: Disk, s1: Disk, s2: Disk, n: int)
    requires Shape(s0) && Shape(s1) && Shape(s2) && Spared(s0, s1, Direct(n, 7)) && Emptied(s1, s2, n)
    ensures Emptied(s0, s2, n)
  {}

  // At most the empty position p0 was filled, with a zeroed block; no file content changed.
  ghost predicate GrewAt(s: Disk, s': Disk, p0: Pos) {
    && SameContents(s, s') && SameInodes(s, s')
    && (forall p :: IsPos(s, p) && (p != p0 || At(s, p) != 0) ==> At(s', p) == At(s, p))
  }

  // p0 and the indirect blocks on the way to it
  function Path(p0: Pos): set<Pos> {
    match p0
    case Zone(_, _) => {p0}
    case Ind(n, _) => {Zone(n, 7), p0}
    case Dind(n, _) => {Zone(n, 8), p0}
    case Leaf(n, k, _) => {Zone(n, 8), Dind(n, k), p0}
  }

  // The same, but indirect blocks on the way to p0 may have appeared too.
  ghost predicate Grew(s: Disk, s': Disk, p0: Pos) {
    && SameContents(s, s') && SameInodes(s, s')
    && (forall p :: IsPos(s, p) && (p !in Path(p0) || At(s, p) != 0) ==> At(s', p) == At(s, p))
  }

  lemma GrewRefl(s: Disk, p0: Pos) requires Shape(s) ensures GrewAt(s, s, p0) && Grew(s, s, p0) {}

  lemma GrewSame(s: Disk, s': Disk, p0: Pos)
    requires SameContents(s, s') && s'.inode == s.inode && forall p :: IsPos(s', p) ==> At(s', p) == At(s, p)
    ensures GrewAt(s, s', p0)
  {}

  lemma GrewByZone(s: Disk, s1: Disk, n: int, i: int, b: int)
    requires GrewSameReq(s, s1) && IsPos(s, Zone(n, i)) && At(s, Zone(n, i)) == 0
    requires SameContents(s1, HookZone(s1, n, i, b))
    requires forall p :: IsPos(s1, p) && p != Zone(n, i) ==> At(HookZone(s1, n, i, b), p) == At(s1, p)
    ensures GrewAt(s, HookZone(s1, n, i, b), Zone(n, i))
  {
    var s2 := HookZone(s1, n, i, b);
    forall p ensures SameContent(s, s2, p) { assert SameContent(s, s1, p) && SameContent(s1, s2, p); }
    forall p | IsPos(s, p) && (p != Zone(n, i) || At(s, p) != 0) ensures At(s2, p) == At(s, p) { assert IsPos(s1, p); }
  }

  lemma GrewByEntry(s: Disk, s1: Disk, q: Pos, b0: int, k: int, b: int)
    requires GrewSameReq(s, s1) && IsNode(q) && IsPos(s, ChildAt(q, k)) && At(s, ChildAt(q, k)) == 0
    requires 0 <= b0 < |s1.block| && 0 <= k < 512 && 0 <= b < 65536
    requires SameContents(s1, HookEntry(s1, b0, k, b))
    requires forall p :: IsPos(s1, p) && p != ChildAt(q, k) ==> At(HookEntry(s1, b0, k, b), p) == At(s1, p)
    ensures GrewAt(s, HookEntry(s1, b0, k, b), ChildAt(q, k))
  {
    var s2, p0 := HookEntry(s1, b0, k, b), ChildAt(q, k);
    forall p ensures SameContent(s, s2, p) { assert SameContent(s, s1, p) && SameContent(s1, s2, p); }
    forall p | IsPos(s, p) && (p != p0 || At(s, p) != 0) ensures At(s2, p) == At(s, p) { assert IsPos(s1, p); }
  }

  ghost predicate GrewSameReq(s: Disk, s': Disk) {
    SameContents(s, s') && s'.inode == s.inode && forall p :: IsPos(s', p) ==> At(s', p) == At(s, p)
  }

  lemma ChildIs(s: Disk, q: Pos, b0: int, k: int)
    requires Shape(s) && IsPos(s, q) && IsNode(q) && At(s, q) == b0 && InBlocks(s, b0) && 0 <= k < 512
    ensures IsPos(s, ChildAt(q, k)) && At(s, ChildAt(q, k)) == Entry(s.block[b0], k)
  {}

  lemma HoleBelow(s: Disk, p: Pos)
    requires Shape(s) && IsPos(s, p) && !p.Zone?
    ensures At(s, Parent(p)) == 0 ==> At(s, p) == 0
  {}

  lemma GrewStep(s: Disk, s1: Disk, s2: Disk, p0: Pos, q: Pos)
    requires (s1 == s && Shape(s)) || Grew(s, s1, p0)
    requires GrewAt(s1, s2, q) && q in Path(p0)
    ensures Grew(s, s2, p0)
  {
    if s1 == s { GrewRefl(s, p0); }
    forall p ensures SameContent(s, s2, p) { assert SameContent(s, s1, p) && SameContent(s1, s2, p); }
    forall p | IsPos(s, p) && (p !in Path(p0) || At(s, p) != 0) ensures At(s2, p) == At(s, p) {
      assert IsPos(s1, p);
      assert At(s1, p) == At(s, p);
    }
  }

  lemma FullWhenSet(s: Disk)
    requires Shape(s) && forall k :: 0 <= k < |s.bits| ==> s.bits[k]
    ensures Full(s)
  {}

  lemma Unchanged(s: Disk, s': Disk)
    requires Inv(s, {}) && Shape(s') && s'.inode == s.inode && s'.block == s.block && SameForm(s, s')
    requires SameBits(s, s') && s'.held == s.held
    ensures Inv(s', {}) && SameContents(s, s')
    ensures forall p :: IsPos(s', p) ==> At(s', p) == At(s, p)
  {
    forall p | IsPos(s', p) ensures At(s', p) == At(s, p) { SameTree(s, s', p); }
    forall p ensures Live(s', {}, p) == Live(s, {}, p) {}
    Relabel(s, {}, s', {});
    forall p ensures SameContent(s, s', p) {}
  }

  // The first clear bit lies past the last zone: it is set all the same, no zone is handed out, and none was free.
  lemma BeyondRange(s: Disk, s': Disk, k: int)
    requires Inv(s, {}) && 0 <= k < |s.bits| && k + s.first - 1 >= s.nzones && s' == s.(bits := s.bits[k := true])
    requires forall m :: 0 <= m < k ==> s.bits[m]
    ensures Full(s) && Full(s') && Inv(s', {}) && SameContents(s, s')
    ensures forall p :: IsPos(s', p) ==> At(s', p) == At(s, p)
  {
    Unchanged(s, s');
  }
}
