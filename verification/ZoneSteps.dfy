// A zone is taken and hung into a tree (new_block in fs/bitmap.c, _bmap in fs/inode.c).
module ZoneSteps {
  import opened Bytes
  import opened Zones
  import opened ZoneMoves

  // ---- the bytes a file position stands for: its block, or zeros for a hole
  ghost function Content(s: Disk, p: Pos): Block requires Shape(s) && IsPos(s, p) {
    if InBlocks(s, At(s, p)) then s.block[At(s, p)] else ZeroBlock()
  }

  ghost predicate SameContent(s: Disk, s': Disk, p: Pos) requires Shape(s) && Shape(s') && |s.inode| == |s'.inode| {
    IsPos(s, p) && !IsNode(p) ==> Content(s', p) == Content(s, p)
  }

  ghost predicate SameContents(s: Disk, s': Disk) {
    Shape(s) && Shape(s') && SameForm(s, s') && forall p :: SameContent(s, s', p)
  }

  lemma NamedInv(s: Disk, p: Pos, b: int)
    requires Inv(s, {}) && IsPos(s, p) && At(s, p) == b != 0
    ensures InData(s, b) && InBlocks(s, b) && b !in s.held && Bit(s, b)
    ensures forall q :: IsPos(s, q) && q != p ==> At(s, q) != b
  {
    assert Live(s, {}, p) == b;
    forall q | IsPos(s, q) && q != p ensures At(s, q) != b { assert Live(s, {}, q) == At(s, q); }
  }

  lemma FreeBlockUnnamed(s: Disk, b: int)
    requires Inv(s, {}) && InData(s, b) && !Bit(s, b)
    ensures b !in s.held && forall q :: IsPos(s, q) ==> At(s, q) != b
  {
    forall q | IsPos(s, q) ensures At(s, q) != b { assert Live(s, {}, q) == At(s, q); }
  }

  lemma HeldUnnamed(s: Disk, b: int)
    requires Inv(s, {}) && b in s.held
    ensures InData(s, b) && forall q :: IsPos(s, q) ==> At(s, q) != b
  {
    forall q | IsPos(s, q) ensures At(s, q) != b { assert Live(s, {}, q) == At(s, q); }
  }

  // ---- new_block: a clear bit is set, the block is zeroed, the caller holds it
  function Grab(s: Disk, b: int): Disk requires 0 <= b - s.first + 1 < |s.bits| && 0 <= b < |s.block| {
    SetBlock(SetBit(s, b, true), b, ZeroBlock()).(held := s.held + {b})
  }

  lemma GrabKeeps(s: Disk, b: int, p: Pos)
    requires Inv(s, {}) && InData(s, b) && !Bit(s, b) && 0 <= b - s.first + 1 < |s.bits| && IsPos(s, p)
    ensures Shape(Grab(s, b)) && At(Grab(s, b), p) == At(s, p)
  {
    FreeBlockUnnamed(s, b);
    var s1 := SetBlock(s, b, ZeroBlock());
    BlockWrite(s, {}, b, ZeroBlock(), p);
    var s' := Grab(s, b);
    SameTree(s1, s', p);
    assert Live(s1, {}, p) == At(s1, p) && Live(s, {}, p) == At(s, p);
  }

  // Positions depend on inodes and blocks only.
  lemma SameTree(s: Disk, s': Disk, p: Pos)
    requires Shape(s) && Shape(s') && s'.inode == s.inode && s'.block == s.block && IsPos(s, p)
    ensures At(s', p) == At(s, p)
    decreases if p.Zone? then 0 else if p.Leaf? then 2 else 1
  {
    if !p.Zone? { AtChild(s, p); AtChild(s', p); SameTree(s, s', Parent(p)); }
  }

  lemma GrabInv(s: Disk, b: int)
    requires Inv(s, {}) && InData(s, b) && !Bit(s, b) && 0 <= b - s.first + 1 < |s.bits|
    ensures Inv(Grab(s, b), {}) && SameContents(s, Grab(s, b))
  {
    var s' := Grab(s, b);
    FreeBlockUnnamed(s, b);
    forall p | IsPos(s, p) ensures At(s', p) == At(s, p) { GrabKeeps(s, b, p); }
    assert Shape(s');
    forall p ensures Live(s', {}, p) == Live(s, {}, p) {}
    GrabMapped(s, b);
    assert InRange(s', {}) by {
      forall p ensures Live(s', {}, p) == 0
      || (InData(s', Live(s', {}, p)) && Live(s', {}, p) !in s'.held) {
      assert IsPos(s, p) ==> At(s, p) != b; assert Live(s, {}, p) == Live(s', {}, p); } }
    assert Distinct(s', {});
    forall p ensures SameContent(s, s', p) {}
  }

  lemma GrabMapped(s: Disk, b: int)
    requires Inv(s, {}) && InData(s, b) && !Bit(s, b) && 0 <= b - s.first + 1 < |s.bits| && Shape(Grab(s, b))
    requires forall p :: Live(Grab(s, b), {}, p) == Live(s, {}, p)
    ensures Mapped(Grab(s, b), {})
  {}

  // ---- hooking a held, zeroed block into the tree
  function HookZone(s: Disk, n: int, i: int, b: int): Disk
    requires 0 <= n < |s.inode| && 0 <= i < |s.inode[n].zone|
  { SetZone(s, n, i, b).(held := s.held - {b}) }

  lemma HookZoneInv(s: Disk, n: int, i: int, b: int)
    requires Inv(s, {}) && IsPos(s, Zone(n, i)) && s.inode[n].tree && s.inode[n].zone[i] == 0
    requires b in s.held && InBlocks(s, b) && s.block[b] == ZeroBlock()
    ensures Inv(HookZone(s, n, i, b), {}) && SameContents(s, HookZone(s, n, i, b))
    ensures At(HookZone(s, n, i, b), Zone(n, i)) == b
    ensures forall p :: IsPos(s, p) && p != Zone(n, i) ==> At(HookZone(s, n, i, b), p) == At(s, p)
  {
    var s1, s' := SetZone(s, n, i, b), HookZone(s, n, i, b);
    HeldUnnamed(s, b);
    ZoneWrite(s, n, i, b, Zone(n, i));
    forall p | IsPos(s, p) && p != Zone(n, i) ensures At(s', p) == At(s, p) {
      ZoneWrite(s, n, i, b, p);
      SameTree(s1, s', p);
      if Below(p, Zone(n, i)) { ZeroBelow(s, s', Zone(n, i), p); }
    }
    SameTree(s1, s', Zone(n, i));
    forall p | p != Zone(n, i) ensures Live(s', {}, p) == Live(s, {}, p) {}
    HookInv(s, {}, s', Zone(n, i), b);
    forall p ensures SameContent(s, s', p) {}
  }

  // Below a hole, and below a zeroed block, there is nothing.
  lemma ZeroBelow(s: Disk, s': Disk, p0: Pos, p: Pos)
    requires Shape(s) && Shape(s') && IsPos(s, p) && IsPos(s, p0) && IsPos(s', p) && IsPos(s', p0) && Below(p, p0)
    requires p != p0
    requires At(s, p0) == 0 && InBlocks(s', At(s', p0)) && s'.block[At(s', p0)] == ZeroBlock()
    ensures At(s, p) == 0 && At(s', p) == 0
    decreases if p.Zone? then 0 else if p.Leaf? then 2 else 1
  {}

  function HookEntry(s: Disk, b0: int, k: int, b: int): Disk
    requires 0 <= b0 < |s.block| && 0 <= k < 512 && 0 <= b < 65536
  { SetBlock(s, b0, SetEntry(s.block[b0], k, b)).(held := s.held - {b}) }

  lemma HookEntryInv(s: Disk, q: Pos, b0: int, k: int, b: int)
    requires Inv(s, {}) && IsPos(s, q) && IsNode(q) && At(s, q) == b0 != 0 && InBlocks(s, b0) && 0 <= k < 512
    requires Entry(s.block[b0], k) == 0 && b in s.held && InBlocks(s, b) && s.block[b] == ZeroBlock()
    ensures b < 65536 && Inv(HookEntry(s, b0, k, b), {}) && SameContents(s, HookEntry(s, b0, k, b))
    ensures IsPos(s, ChildAt(q, k)) && At(HookEntry(s, b0, k, b), ChildAt(q, k)) == b
    ensures forall p :: IsPos(s, p) && p != ChildAt(q, k) ==> At(HookEntry(s, b0, k, b), p) == At(s, p)
  {
    var s1, s', p0 := SetBlock(s, b0, SetEntry(s.block[b0], k, b)), HookEntry(s, b0, k, b), ChildAt(q, k);
    HeldUnnamed(s, b);
    NamedInv(s, q, b0);
    assert SoleNode(s, q, b0);
    ChildOf(q, k, p0);
    AtChild(s, p0);
    EntryWrite(s, q, b0, k, b, p0);
    SameTree(s1, s', p0);
    forall p | IsPos(s, p) && p != p0 ensures At(s', p) == At(s, p) {
      EntryWrite(s, q, b0, k, b, p);
      SameTree(s1, s', p);
      if Below(p, p0) { ZeroBelow(s, s', p0, p); }
    }
    forall p | p != p0 ensures Live(s', {}, p) == Live(s, {}, p) {}
    HookInv(s, {}, s', p0, b);
    forall p ensures SameContent(s, s', p) {}
  }
}
