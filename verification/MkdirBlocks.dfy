// The zones that sys_mkdir takes (fs/namei.c): one for the new directory, and those that its parent lacks up to the
// block with a free entry. If there is no zone for the parent, the kernel panics.
module MkdirBlocks {
  import opened Counting
  import opened Bytes
  import opened Zones
  import opened ZoneMoves
  import opened ZoneSteps
  import opened FileLayer

  // ---- how many zones are left
  ghost function DataZones(s: Disk): set<int> { set b | s.first <= b < s.nzones && Covered(s, b) }
  ghost function FreeZones(s: Disk): set<int> { set b | b in DataZones(s) && !Bit(s, b) }

  ghost function Positions(s: Disk): (ps: set<Pos>)
    ensures forall p :: p in ps <==> IsPos(s, p)
  {
    (set n, i | 0 <= n < |s.inode| && 0 <= i < 9 :: Zone(n, i))
      + (set n, k | 0 <= n < |s.inode| && 0 <= k < 512 :: Ind(n, k))
      + (set n, k | 0 <= n < |s.inode| && 0 <= k < 512 :: Dind(n, k))
      + (set n, k, l | 0 <= n < |s.inode| && 0 <= k < 512 && 0 <= l < 512 :: Leaf(n, k, l))
  }

  ghost function Filled(s: Disk): set<Pos> requires Shape(s) { set p | p in Positions(s) && At(s, p) != 0 }
  ghost function Absent(s: Disk, ps: set<Pos>): set<Pos> requires Shape(s) {
    set p | p in ps && IsPos(s, p) && At(s, p) == 0
  }

  // Every zone is free or in one place of one file.
  lemma FreeAndFilled(s: Disk)
    requires Inv(s, {}) && s.held == {}
    ensures |FreeZones(s)| + |Filled(s)| == |DataZones(s)|
  {
    hide At, InRange, Distinct;
    var f := p => if p in Filled(s) then At(s, p) else 0;
    var used := DataZones(s) - FreeZones(s);
    forall p | p in Filled(s) ensures f(p) in used { NamedInv(s, p, At(s, p)); }
    forall p, q | p in Filled(s) && q in Filled(s) && f(p) == f(q) ensures p == q { NamedInv(s, p, At(s, p)); }
    forall b | b in used ensures exists p :: p in Filled(s) && f(p) == b {
      assert InData(s, b) && Bit(s, b);
      var p :| Live(s, {}, p) == b;
      assert p in Filled(s) && f(p) == b;
    }
    ImageSize(Filled(s), f, used);
    assert DataZones(s) == used + FreeZones(s);
  }

  // So what fills places of ps takes a zone for each.
  lemma ZonesPaid(s: Disk, s': Disk, p0: Pos, ps: set<Pos>)
    requires Inv(s, {}) && Inv(s', {}) && s.held == {} == s'.held && Grew(s, s', p0) && Path(p0) <= ps
    ensures |FreeZones(s)| - |Absent(s, ps)| == |FreeZones(s')| - |Absent(s', ps)|
  {
    hide InRange, Distinct, Mapped, Grew, Path, Filled, Absent, FreeZones;
    FreeAndFilled(s);
    FreeAndFilled(s');
    FilledMore(s, s', p0, ps);
    var made := Absent(s, ps) - Absent(s', ps);
    assert |Filled(s) + made| == |Filled(s)| + |made| && |Absent(s', ps) + made| == |Absent(s', ps)| + |made|;
  }

  lemma FilledMore(s: Disk, s': Disk, p0: Pos, ps: set<Pos>)
    requires Shape(s) && Shape(s') && Grew(s, s', p0) && Path(p0) <= ps
    ensures DataZones(s) == DataZones(s')
    ensures var made := Absent(s, ps) - Absent(s', ps);
      && Filled(s') == Filled(s) + made && Filled(s) !! made
      && Absent(s, ps) == Absent(s', ps) + made
  {
    hide At, Path, SameInodes, SameContent, Positions;
    assert DataZones(s) == DataZones(s');
    forall p | IsPos(s, p) && p !in ps ensures At(s', p) == At(s, p) {}
    forall p ensures p in Filled(s') <==> p in Filled(s) + (Absent(s, ps) - Absent(s', ps)) {}
  }

  // blocks 1 to blk of a directory, and the indirect blocks on the way to them
  ghost function Walk(d: int, blk: int): set<Pos> requires 0 <= blk < MAX_BLOCKS {
    set k, p | 1 <= k <= blk && p in Path(PosOf(d, k)) :: p
  }

  // Nothing but empty places of ps has changed.
  ghost predicate GrewIn(s: Disk, s': Disk, ps: set<Pos>) {
    && SameContents(s, s') && SameInodes(s, s')
    && forall p :: IsPos(s, p) && p !in ps ==> At(s', p) == At(s, p)
  }

  // blocks 1 to k - 1 are there
  ghost predicate There(s: Disk, d: int, k: int) requires Shape(s) && 0 <= d < |s.inode| && k <= MAX_BLOCKS {
    forall j :: 1 <= j < k ==> At(s, PosOf(d, j)) != 0
  }

  lemma ThereNone(s: Disk, d: int) requires Shape(s) && 0 <= d < |s.inode| ensures There(s, d, 1) {}

  // add_entry on its way to block blk, the first with a free entry, makes the blocks that are not there.
  method AddBlocks(fs: Fs, d: int, blk: int) returns (ok: bool)
    requires Inv(fs.St(), {}) && fs.Maps() && fs.held == {} && 0 <= d < fs.inode.Length && fs.inode[d].tree
    requires 0 <= blk < MAX_BLOCKS
    modifies fs, fs.zmap, fs.block, fs.inode
    ensures Inv(fs.St(), {}) && fs.held == {} && GrewIn(old(fs.St()), fs.St(), Walk(d, blk))
    ensures ok <==>
      At(old(fs.St()), Zone(d, 0)) != 0 && |Absent(old(fs.St()), Walk(d, blk))| <= |FreeZones(old(fs.St()))|
  {
    ghost var s0, ps := fs.St(), Walk(d, blk);
    GrewNone(s0, ps);
    hide InRange, Distinct, Mapped, Path, At, Walk, Grew, GrewIn, FreeZones, Absent, Full, There, PosOf;
    if fs.inode[d].zone[0] == 0 {
      assert At(s0, Zone(d, 0)) == 0 by { ZoneIs(s0, d, 0); }
      return false;
    }
    ZoneIs(s0, d, 0);
    ThereNone(s0, d);
    var k := 1;
    while k <= blk
      invariant 1 <= k <= blk + 1 && Inv(fs.St(), {}) && fs.held == {} && GrewIn(s0, fs.St(), ps) && fs.inode[d].tree
      invariant |FreeZones(s0)| - |Absent(s0, ps)| == |FreeZones(fs.St())| - |Absent(fs.St(), ps)|
      invariant There(fs.St(), d, k)
    {
      OnWalk(d, blk, k);
      var b := CreateBlock(fs, d, k, s0, ps);
      if b == 0 { return false; }
      k := k + 1;
    }
    AllThere(fs.St(), d, blk);
    ok := true;
  }

  // create_block, on that way
  method CreateBlock(fs: Fs, d: int, k: int, ghost s0: Disk, ghost ps: set<Pos>) returns (b: int)
    requires Inv(fs.St(), {}) && fs.Maps() && fs.held == {} && 0 <= d < fs.inode.Length && fs.inode[d].tree
    requires 1 <= k < MAX_BLOCKS && Path(PosOf(d, k)) <= ps && PosOf(d, k) in ps && GrewIn(s0, fs.St(), ps)
    modifies fs, fs.zmap, fs.block, fs.inode
    ensures Inv(fs.St(), {}) && fs.held == {} && fs.inode[d].tree && GrewIn(s0, fs.St(), ps)
    ensures |FreeZones(old(fs.St()))| - |Absent(old(fs.St()), ps)| == |FreeZones(fs.St())| - |Absent(fs.St(), ps)|
    ensures b == 0 ==> |FreeZones(fs.St())| < |Absent(fs.St(), ps)|
    ensures b != 0 && There(old(fs.St()), d, k) ==> There(fs.St(), d, k + 1)
  {
    hide InRange, Distinct, Mapped, Path, At, Grew, GrewIn, FreeZones, Absent, Full, There;
    ghost var s, p := fs.St(), PosOf(d, k);
    var panic;
    b, panic := fs.Bmap(d, k, true);
    ZonesPaid(s, fs.St(), p, ps);
    GrewMore(s0, s, fs.St(), p, ps);
    SameTrees(s, fs.St(), p);
    if There(s, d, k) { StillThere(s, fs.St(), d, k); }
    if b == 0 { NoneLeft(fs.St(), ps, p); }
  }

  lemma ZoneIs(s: Disk, n: int, i: int)
    requires Shape(s) && IsPos(s, Zone(n, i)) && s.inode[n].tree
    ensures At(s, Zone(n, i)) == s.inode[n].zone[i]
  {}

  lemma OnWalk(d: int, blk: int, k: int)
    requires 1 <= k <= blk < MAX_BLOCKS
    ensures Path(PosOf(d, k)) <= Walk(d, blk) && PosOf(d, k) in Walk(d, blk)
  { assert PosOf(d, k) in Path(PosOf(d, k)); }

  lemma GrewNone(s: Disk, ps: set<Pos>)
    requires Shape(s)
    ensures GrewIn(s, s, ps)
  {}

  lemma SameTrees(s: Disk, s': Disk, p0: Pos)
    requires Grew(s, s', p0)
    ensures |s'.inode| == |s.inode| && forall n :: 0 <= n < |s.inode| ==> s'.inode[n].tree == s.inode[n].tree
  {}

  lemma GrewMore(s0: Disk, s: Disk, s': Disk, p0: Pos, ps: set<Pos>)
    requires GrewIn(s0, s, ps) && Grew(s, s', p0) && Path(p0) <= ps
    ensures GrewIn(s0, s', ps)
  {
    hide At, Path;
    forall p ensures SameContent(s0, s', p) { assert SameContent(s0, s, p) && SameContent(s, s', p); }
    forall p | IsPos(s0, p) && p !in ps ensures At(s', p) == At(s0, p) { assert IsPos(s, p); }
  }

  lemma StillThere(s: Disk, s': Disk, d: int, k: int)
    requires 0 <= d < |s.inode| && 1 <= k < MAX_BLOCKS && Grew(s, s', PosOf(d, k))
    requires There(s, d, k)
    ensures At(s', PosOf(d, k)) != 0 ==> There(s', d, k + 1)
  {
    hide At, Path;
    forall j | 1 <= j < k ensures At(s', PosOf(d, j)) != 0 { assert At(s, PosOf(d, j)) != 0; }
  }

  lemma NoneLeft(s: Disk, ps: set<Pos>, p: Pos)
    requires Shape(s) && Full(s) && p in ps && IsPos(s, p) && At(s, p) == 0
    ensures |FreeZones(s)| < |Absent(s, ps)|
  {
    hide At;
    assert FreeZones(s) == {};
    assert p in Absent(s, ps);
  }

  lemma AllThere(s: Disk, d: int, blk: int)
    requires Shape(s) && 0 <= d < |s.inode| && 0 <= blk < MAX_BLOCKS
    requires There(s, d, blk + 1)
    ensures Absent(s, Walk(d, blk)) == {}
  {
    forall p | p in Walk(d, blk) && IsPos(s, p) ensures At(s, p) != 0 {
      var k :| 1 <= k <= blk && p in Path(PosOf(d, k));
      PathThere(s, PosOf(d, k), p);
    }
  }

  lemma PathThere(s: Disk, p0: Pos, p: Pos)
    requires Shape(s) && IsPos(s, p0) && At(s, p0) != 0 && p in Path(p0)
    ensures IsPos(s, p) && At(s, p) != 0
  {
    if !p0.Zone? { HoleBelow(s, p0); }
    if p0.Leaf? { HoleBelow(s, Dind(p0.n, p0.k)); }
  }

  // ---- sys_mkdir
  datatype Outcome = Made | NoSpace | Panic

  // The way out when add_entry fails: free_block on a block that the new inode still names, and then iput on that
  // inode, which truncates it.
  method GiveUp(fs: Fs, n: int, stale: seq<Block>) returns (panic: bool)
    requires Inv(fs.St(), {}) && fs.Maps() && 0 <= n < fs.inode.Length && |stale| == fs.block.Length
    requires fs.inode[n].tree && fs.inode[n].zone[0] != 0
    modifies fs.zmap, fs.block, fs.inode
    ensures panic
  {
    ghost var s, b := fs.St(), fs.inode[n].zone[0];
    ZoneIs(s, n, 0);
    NamedInv(s, Zone(n, 0), b);
    panic := fs.FreeBlock(fs.inode[n].zone[0], stale);
    if panic { return; }
    assert FirstFreed(fs.St(), n);
    panic := fs.Truncate(n, stale);
  }

  // n is the new inode, d its parent, whose first block with a free entry is blk. It panics exactly if there is a zone
  // for the new directory and then not enough for its parent.
  method Mkdir(fs: Fs, n: int, d: int, blk: int, stale: seq<Block>) returns (o: Outcome)
    requires Inv(fs.St(), {}) && fs.Maps() && fs.held == {} && |stale| == fs.block.Length && 0 <= blk < MAX_BLOCKS
    requires 0 <= n < fs.inode.Length && 0 <= d < fs.inode.Length && n != d && fs.inode[n].tree && fs.inode[d].tree
    requires fs.inode[n].zone[0] == 0
    modifies fs, fs.zmap, fs.block, fs.inode
    ensures var s, lack := old(fs.St()), |Absent(old(fs.St()), Walk(d, blk))|;
      o == if FreeZones(s) == {} then NoSpace
           else if At(s, Zone(d, 0)) == 0 || lack >= |FreeZones(s)| then Panic else Made
    ensures o != Panic ==>
      Inv(fs.St(), {}) && fs.held == {} && GrewIn(old(fs.St()), fs.St(), Walk(d, blk) + {Zone(n, 0)})
    ensures o == Made ==> At(fs.St(), Zone(n, 0)) != 0
  {
    ghost var s, p := fs.St(), Zone(n, 0);
    ZoneIs(s, n, 0);
    var b := fs.ZoneFor(n, 0, true);
    ghost var s1 := fs.St();
    hide InRange, Distinct, Mapped, At, Walk;
    TookOne(s, s1, n, d, blk);
    if b == 0 { return NoSpace; }
    var ok := AddBlocks(fs, d, blk);
    NewKept(s1, fs.St(), n, d, blk);
    if !ok {
      var panic := GiveUp(fs, n, stale);
      return Panic;
    }
    GrewBoth(s, s1, fs.St(), Walk(d, blk), p);
    o := Made;
  }

  lemma TookOne(s: Disk, s1: Disk, n: int, d: int, blk: int)
    requires Inv(s, {}) && Inv(s1, {}) && s.held == {} == s1.held && GrewAt(s, s1, Zone(n, 0)) && IsPos(s, Zone(n, 0))
    requires At(s, Zone(n, 0)) == 0 && (At(s1, Zone(n, 0)) == 0 ==> Full(s1)) && 0 <= d < |s.inode| && d != n
    requires 0 <= blk < MAX_BLOCKS
    ensures At(s1, Zone(n, 0)) == 0 <==> FreeZones(s) == {}
    ensures At(s1, Zone(n, 0)) != 0 ==> |FreeZones(s)| == |FreeZones(s1)| + 1
    ensures Absent(s1, Walk(d, blk)) == Absent(s, Walk(d, blk)) && At(s1, Zone(d, 0)) == At(s, Zone(d, 0))
    ensures s1.inode[d].tree == s.inode[d].tree && GrewIn(s, s1, Walk(d, blk) + {Zone(n, 0)})
  {
    var p := Zone(n, 0);
    GrewStep(s, s, s1, p, p);
    NotOnWalk(n, d, blk);
    hide Inv, At, Walk;
    assert Shape(s) && Shape(s1);
    ZonesPaid(s, s1, p, {p});
    assert Absent(s, {p}) == {p} && Absent(s1, {p}) == if At(s1, p) == 0 then {p} else {};
    if At(s1, p) == 0 { assert FreeZones(s1) == {}; }
    forall q | q in Walk(d, blk) && IsPos(s, q) ensures At(s1, q) == At(s, q) {}
    assert IsPos(s, Zone(d, 0));
  }

  lemma NotOnWalk(n: int, d: int, blk: int)
    requires n != d && 0 <= blk < MAX_BLOCKS
    ensures Zone(n, 0) !in Walk(d, blk)
  {}

  lemma NewKept(s: Disk, s': Disk, n: int, d: int, blk: int)
    requires 0 <= blk < MAX_BLOCKS && GrewIn(s, s', Walk(d, blk)) && n != d && IsPos(s, Zone(n, 0)) && s.inode[n].tree
    ensures s'.inode[n].tree && s'.inode[n].zone[0] == At(s', Zone(n, 0)) == At(s, Zone(n, 0))
  { NotOnWalk(n, d, blk); }

  lemma GrewBoth(s: Disk, s1: Disk, s2: Disk, ps: set<Pos>, p: Pos)
    requires GrewIn(s, s1, ps + {p}) && GrewIn(s1, s2, ps)
    ensures GrewIn(s, s2, ps + {p})
  {
    hide At;
    forall q ensures SameContent(s, s2, q) { assert SameContent(s, s1, q) && SameContent(s1, s2, q); }
    forall q | IsPos(s, q) && q !in ps + {p} ensures At(s2, q) == At(s, q) { assert IsPos(s1, q); }
  }

  // A disk of two zones, of which the root directory has one, and that is full: mkdir there is a panic.
  method LastZone(blocks: seq<Block>, stale: seq<Block>) returns (o: Outcome)
    requires |blocks| == 3 == |stale|
    ensures o == Panic
  {
    hide InRange, Distinct, Mapped, At, Walk, Path, FreeZones, Absent, Grew, Full;
    var fs := new Fs(blocks, 2, 1, 3, 1);
    ghost var s := fs.St();
    var b, panic := fs.Bmap(0, 0, true);
    OneLeft(s, fs.St());
    o := Mkdir(fs, 1, 0, 1, stale);
  }

  lemma OneLeft(s: Disk, s1: Disk)
    requires Inv(s, {}) && Inv(s1, {}) && s.held == {} == s1.held && |s.inode| == 2 && s.first == 1 && s.nzones == 3
    requires forall n :: 0 <= n < 2 ==> s.inode[n] == Inode(true, 0, seq(9, _ => 0))
    requires |s.bits| > 3 && (forall k :: 0 < k < |s.bits| ==> !s.bits[k]) && Grew(s, s1, Zone(0, 0))
    requires At(s1, Zone(0, 0)) == 0 ==> Full(s1)
    ensures |FreeZones(s1)| == 1 == |Absent(s1, Walk(0, 1))| && forall n :: 0 <= n < 2 ==> s1.inode[n].tree
    ensures s1.inode[1].zone[0] == 0
  {
    var p := Zone(0, 0);
    ZoneIs(s, 0, 0);
    ZoneIs(s, 0, 1);
    ZoneIs(s, 1, 0);
    ZoneIs(s1, 1, 0);
    hide InRange, Distinct, Mapped, At;
    assert FreeZones(s) == {1, 2};
    assert Full(s1) ==> FreeZones(s1) == {};
    assert Absent(s, {p}) == {p} && Absent(s1, {p}) == if At(s1, p) == 0 then {p} else {};
    ZonesPaid(s, s1, p, {p});
    ShortWalk();
    assert IsPos(s, Zone(0, 1)) && At(s1, Zone(0, 1)) == At(s, Zone(0, 1));
    assert Absent(s1, Walk(0, 1)) == {Zone(0, 1)};
  }

  lemma ShortWalk() ensures Walk(0, 1) == {Zone(0, 1)} {
    assert PosOf(0, 1) == Zone(0, 1) && Path(PosOf(0, 1)) == {Zone(0, 1)};
    forall p ensures p in Walk(0, 1) <==> p == Zone(0, 1) {
      if p == Zone(0, 1) { OnWalk(0, 1, 1); }
    }
  }
}
