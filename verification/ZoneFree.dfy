// A tree is taken apart (free_block in fs/bitmap.c, fs/truncate.c).
module ZoneFree {
  import opened Bytes
  import opened Zones
  import opened ZoneMoves
  import opened ZoneSteps

  // free_block: the bit is cleared, the bytes are whatever the disk had
  function Drop(s: Disk, b: int, c: Block): Disk requires 0 <= b - s.first + 1 < |s.bits| && 0 <= b < |s.block| {
    SetBlock(SetBit(s, b, false), b, c)
  }

  // Nothing living outside gone changed, not even in content.
  ghost predicate Spared(s: Disk, s': Disk, gone: set<Pos>) requires Shape(s) && Shape(s') {
    |s'.inode| == |s.inode| && SameForm(s, s') && s'.held == s.held &&
    forall p :: IsPos(s, p) && p !in gone ==> At(s', p) == At(s, p) && (!IsNode(p) ==> Content(s', p) == Content(s, p))
  }

  lemma SparedTrans(s: Disk, s1: Disk, s2: Disk, g1: set<Pos>, g2: set<Pos>)
    requires Shape(s) && Shape(s1) && Shape(s2) && Spared(s, s1, g1) && Spared(s1, s2, g2) && g1 <= g2
    ensures Spared(s, s2, g2)
  {}

  lemma LiveInv(s: Disk, dead: set<Pos>, p: Pos)
    requires Inv(s, dead) && IsPos(s, p) && p !in dead && At(s, p) != 0
    ensures InData(s, At(s, p)) && InBlocks(s, At(s, p)) && Bit(s, At(s, p))
    ensures forall q :: IsPos(s, q) && q !in dead && q != p ==> At(s, q) != At(s, p)
  {
    assert Live(s, dead, p) == At(s, p);
    forall q | IsPos(s, q) && q !in dead && q != p ensures At(s, q) != At(s, p) { assert Live(s, dead, q) == At(s, q); }
  }

  // Freeing the block that p0 names, when everything below p0 is already dead.
  lemma DropLive(s: Disk, dead: set<Pos>, p0: Pos, c: Block)
    requires Inv(s, dead) && IsPos(s, p0) && p0 !in dead && At(s, p0) != 0 && Closed(dead + {p0})
    ensures InData(s, At(s, p0)) && Bit(s, At(s, p0))
    ensures var s' := Drop(s, At(s, p0), c);
      Inv(s', dead + {p0}) && Spared(s, s', dead + {p0})
  {
    hide InRange, Distinct, Mapped;
    LiveInv(s, dead, p0);
    var b, dead' := At(s, p0), dead + {p0};
    var s1, s' := SetBlock(s, b, c), Drop(s, b, c);
    assert NotNode(s, dead', b);
    assert Shape(s') by { assert s.bits[0] && b - s.first + 1 != 0; }
    forall p | IsPos(s, p) && p !in dead' ensures At(s', p) == At(s, p) {
      BlockWrite(s, dead', b, c, p);
      SameTree(s1, s', p);
      assert Live(s1, dead', p) == At(s1, p) && Live(s, dead', p) == At(s, p);
    }
    forall p | p != p0 ensures Live(s', dead', p) == Live(s, dead, p) {}
    DropInv(s, dead, s', dead', p0, b);
  }

  lemma AddDead(s: Disk, dead: set<Pos>, more: set<Pos>)
    requires Inv(s, dead) && forall p :: p in more ==> Live(s, dead, p) == 0
    ensures Inv(s, dead + more)
  {
    Relabel(s, dead, s, dead + more);
  }

  ghost function Kids(q: Pos, j: int): set<Pos> requires IsNode(q) { set k | 0 <= k < j :: ChildAt(q, k) }
  // Lowest kind of indirect block: its entries are data blocks.
  predicate IsLow(q: Pos) { (q.Zone? && q.i == 7) || q.Dind? }

  // Growing a dead set by one data position keeps it closed.
  lemma ClosedPlus(dead: set<Pos>, q: Pos, k: int)
    requires Closed(dead) && IsNode(q) && IsLow(q)
    ensures Closed(dead + {ChildAt(q, k)})
  {}

  lemma ClosedParent(dead: set<Pos>, q: Pos)
    requires IsNode(q) && Closed(dead) && Kids(q, 512) <= dead
    ensures Closed(dead + {q})
  {
    forall p | InSlots(p) && !p.Zone? && Parent(p) in dead + {q} ensures p in dead + {q} {
      if Parent(p) == q { ChildOf(q, Slot(p), p); assert p in Kids(q, 512); }
    }
  }

  // One round of free_ind's loop.
  lemma FreeKid(s: Disk, dead: set<Pos>, q: Pos, k: int, c: Block)
    requires Inv(s, dead) && Closed(dead) && IsPos(s, q) && IsNode(q) && IsLow(q) && 0 <= k < 512
    requires ChildAt(q, k) !in dead && IsPos(s, ChildAt(q, k))
    ensures Closed(dead + {ChildAt(q, k)})
    ensures At(s, ChildAt(q, k)) == 0 ==> Inv(s, dead + {ChildAt(q, k)})
    ensures At(s, ChildAt(q, k)) != 0 ==> InData(s, At(s, ChildAt(q, k))) && Bit(s, At(s, ChildAt(q, k)))
    ensures At(s, ChildAt(q, k)) != 0 ==> Inv(Drop(s, At(s, ChildAt(q, k)), c), dead + {ChildAt(q, k)})
    ensures At(s, ChildAt(q, k)) != 0 ==> Spared(s, Drop(s, At(s, ChildAt(q, k)), c), dead + {ChildAt(q, k)})
  {
    var p0 := ChildAt(q, k);
    ClosedPlus(dead, q, k);
    if At(s, p0) == 0 { AddDead(s, dead, {p0}); } else { DropLive(s, dead, p0, c); }
  }

  // truncate on a direct zone: free the block, then forget its number
  lemma FreeZone(s: Disk, n: int, i: int, c: Block)
    requires Inv(s, {}) && IsPos(s, Zone(n, i)) && i < 7 && s.inode[n].tree && At(s, Zone(n, i)) != 0
    ensures InData(s, At(s, Zone(n, i))) && Bit(s, At(s, Zone(n, i)))
    ensures var s' := SetZone(Drop(s, At(s, Zone(n, i)), c), n, i, 0);
      Inv(s', {}) && Spared(s, s', {Zone(n, i)})
  {
    var p0 := Zone(n, i);
    assert Closed({p0});
    assert {} + {p0} == {p0};
    DropLive(s, {}, p0, c);
    var s1 := Drop(s, At(s, p0), c);
    var s' := SetZone(s1, n, i, 0);
    ForgetZone(s1, {p0}, n, i);
  }

  lemma ForgetZone(s: Disk, dead: set<Pos>, n: int, i: int)
    requires Inv(s, {Zone(n, i)}) && dead == {Zone(n, i)} && IsPos(s, Zone(n, i)) && i < 7
    ensures var s' := SetZone(s, n, i, 0);
      Inv(s', {}) && Spared(s, s', dead)
  {
    var s', p0 := SetZone(s, n, i, 0), Zone(n, i);
    ZoneWrite(s, n, i, 0, p0);
    forall p | IsPos(s, p) && p != p0 ensures At(s', p) == At(s, p) { ZoneWrite(s, n, i, 0, p); }
    forall p ensures Live(s', {}, p) == Live(s, dead, p) {}
    Relabel(s, dead, s', {});
  }

  // ---- the loops of free_ind and free_dind, as state invariants
  // dead0 plus the first j entries of the low indirect block q have been freed.
  ghost predicate FreeingInd(s0: Disk, s: Disk, dead0: set<Pos>, q: Pos, j: int) {
    && IsNode(q) && IsLow(q) && Shape(s0) && Inv(s, dead0 + Kids(q, j)) && Closed(dead0 + Kids(q, j))
    && s.inode == s0.inode && Spared(s0, s, dead0 + Kids(q, j))
  }

  lemma KidsMore(q: Pos, j: int)
    requires IsNode(q) && 0 <= j
    ensures Kids(q, j + 1) == Kids(q, j) + {ChildAt(q, j)} && ChildAt(q, j) !in Kids(q, j) && q !in Kids(q, j + 1)
  {}

  lemma FreeingIndStep(s0: Disk, s: Disk, dead0: set<Pos>, q: Pos, j: int, c: Block)
    requires FreeingInd(s0, s, dead0, q, j) && IsPos(s, q) && 0 <= j < 512 && IsPos(s, ChildAt(q, j))
    requires ChildAt(q, j) !in dead0
    ensures At(s, ChildAt(q, j)) == 0 ==> FreeingInd(s0, s, dead0, q, j + 1)
    ensures At(s, ChildAt(q, j)) != 0 ==> InData(s, At(s, ChildAt(q, j))) && Bit(s, At(s, ChildAt(q, j)))
    ensures At(s, ChildAt(q, j)) != 0 ==> FreeingInd(s0, Drop(s, At(s, ChildAt(q, j)), c), dead0, q, j + 1)
  {
    var dead, p0 := dead0 + Kids(q, j), ChildAt(q, j);
    KidsMore(q, j);
    assert dead + {p0} == dead0 + Kids(q, j + 1);
    hide InRange, Distinct, Mapped;
    FreeKid(s, dead, q, j, c);
    if At(s, p0) != 0 { SparedTrans(s0, s, Drop(s, At(s, p0), c), dead, dead + {p0}); }
  }

  // Everything at or below a low indirect block.
  ghost function LowTree(q: Pos): set<Pos> requires IsNode(q) { Kids(q, 512) + {q} }

  lemma FreeIndEnd(s0: Disk, s: Disk, dead0: set<Pos>, q: Pos, c: Block)
    requires FreeingInd(s0, s, dead0, q, 512) && IsPos(s, q) && q !in dead0 && At(s, q) != 0
    ensures InData(s, At(s, q)) && Bit(s, At(s, q))
    ensures var s' := Drop(s, At(s, q), c); var gone := dead0 + LowTree(q);
      Inv(s', gone) && Closed(gone) && Spared(s0, s', gone) && s'.inode == s0.inode
  {
    var dead := dead0 + Kids(q, 512);
    KidsMore(q, 511);
    ClosedParent(dead, q);
    hide InRange, Distinct, Mapped;
    DropLive(s, dead, q, c);
    assert dead + {q} == dead0 + LowTree(q);
    SparedTrans(s0, s, Drop(s, At(s, q), c), dead, dead + {q});
  }

  // An empty low position: nothing below it, so it can be counted as gone.
  lemma LowTreeEmpty(s: Disk, dead: set<Pos>, q: Pos)
    requires Inv(s, dead) && Closed(dead) && IsPos(s, q) && IsNode(q) && IsLow(q) && At(s, q) == 0
    ensures Inv(s, dead + LowTree(q)) && Closed(dead + LowTree(q))
  {
    forall p | p in LowTree(q) ensures Live(s, dead, p) == 0 {
      if p != q && IsPos(s, p) { AtChild(s, p); }
    }
    AddDead(s, dead, LowTree(q));
    forall p | InSlots(p) && !p.Zone? && Parent(p) in dead + LowTree(q) ensures p in dead + LowTree(q) {
      if Parent(p) == q { ChildOf(q, Slot(p), p); assert p in Kids(q, 512); }
    }
  }

  // Everything below the first j entries of inode n's doubly indirect block.
  ghost function Lows(n: int, j: int): set<Pos> {
    (set k | 0 <= k < j :: Dind(n, k)) + (set k, l | 0 <= k < j && 0 <= l < 512 :: Leaf(n, k, l))
  }

  lemma LowsMore(n: int, j: int)
    requires 0 <= j
    ensures Lows(n, j + 1) == Lows(n, j) + LowTree(Dind(n, j))
    ensures Dind(n, j) !in Lows(n, j) && forall l :: Leaf(n, j, l) !in Lows(n, j)
  {
    var a, b := Lows(n, j + 1), Lows(n, j) + LowTree(Dind(n, j));
    forall p | p in a ensures p in b {
      if p.Leaf? && p.k == j { assert p == ChildAt(Dind(n, j), p.l); }
    }
    forall p | p in b ensures p in a {}
  }

  ghost predicate FreeingDind(s0: Disk, s: Disk, dead0: set<Pos>, n: int, j: int) {
    && Shape(s0) && Inv(s, dead0 + Lows(n, j)) && Closed(dead0 + Lows(n, j))
    && s.inode == s0.inode && Spared(s0, s, dead0 + Lows(n, j))
  }

  lemma FreeingDindStep(s0: Disk, s: Disk, s': Disk, dead0: set<Pos>, n: int, j: int)
    requires FreeingDind(s0, s, dead0, n, j) && 0 <= j < 512
    requires Inv(s', dead0 + Lows(n, j) + LowTree(Dind(n, j))) && Closed(dead0 + Lows(n, j) + LowTree(Dind(n, j)))
    requires s'.inode == s.inode && Spared(s, s', dead0 + Lows(n, j) + LowTree(Dind(n, j)))
    ensures FreeingDind(s0, s', dead0, n, j + 1)
  {
    hide InRange, Distinct, Mapped;
    LowsMore(n, j);
    assert dead0 + Lows(n, j) + LowTree(Dind(n, j)) == dead0 + Lows(n, j + 1);
    SparedTrans(s0, s, s', dead0 + Lows(n, j), dead0 + Lows(n, j + 1));
  }

  ghost function HighTree(n: int): set<Pos> { Lows(n, 512) + {Zone(n, 8)} }

  lemma KidsInLows(n: int)
    ensures Kids(Zone(n, 8), 512) <= Lows(n, 512)
  {}

  lemma FreeDindEnd(s0: Disk, s: Disk, dead0: set<Pos>, n: int, c: Block)
    requires FreeingDind(s0, s, dead0, n, 512) && IsPos(s, Zone(n, 8)) && Zone(n, 8) !in dead0 && At(s, Zone(n, 8)) != 0
    ensures InData(s, At(s, Zone(n, 8))) && Bit(s, At(s, Zone(n, 8)))
    ensures var s' := Drop(s, At(s, Zone(n, 8)), c); var gone := dead0 + HighTree(n);
      Inv(s', gone) && Closed(gone) && Spared(s0, s', gone) && s'.inode == s0.inode
  {
    var dead, q := dead0 + Lows(n, 512), Zone(n, 8);
    KidsInLows(n);
    ClosedParent(dead, q);
    hide InRange, Distinct, Mapped;
    DropLive(s, dead, q, c);
    assert dead + {q} == dead0 + HighTree(n);
    SparedTrans(s0, s, Drop(s, At(s, q), c), dead, dead + {q});
  }

  lemma HighTreeEmpty(s: Disk, dead: set<Pos>, n: int)
    requires Inv(s, dead) && IsPos(s, Zone(n, 8)) && At(s, Zone(n, 8)) == 0
    ensures Inv(s, dead + HighTree(n))
  {
    forall p | p in HighTree(n) ensures Live(s, dead, p) == 0 {
      if !p.Zone? && IsPos(s, p) {
        AtChild(s, p);
        if p.Leaf? { AtChild(s, Parent(p)); }
      }
    }
    AddDead(s, dead, HighTree(n));
  }

  // truncate's last assignments: the dead positions are forgotten
  function Forget(s: Disk, n: int): Disk requires 0 <= n < |s.inode| && |s.inode[n].zone| == 9 {
    s.(inode := s.inode[n := s.inode[n].(zone := s.inode[n].zone[7 := 0][8 := 0], size := 0)])
  }

  lemma ForgetTargets(s: Disk, n: int, p: Pos)
    requires Shape(s) && 0 <= n < |s.inode| && IsPos(s, p)
    ensures Shape(Forget(s, n)) && IsPos(Forget(s, n), p)
    ensures p in LowTree(Zone(n, 7)) + HighTree(n) ==> At(Forget(s, n), p) == 0
    ensures p !in LowTree(Zone(n, 7)) + HighTree(n) ==> At(Forget(s, n), p) == At(s, p)
    decreases if p.Zone? then 0 else if p.Leaf? then 2 else 1
  {
    var s' := Forget(s, n);
    if !p.Zone? {
      AtChild(s, p);
      AtChild(s', p);
      ForgetTargets(s, n, Parent(p));
      InTrees(n, p);
    }
  }

  lemma InTrees(n: int, p: Pos)
    requires InSlots(p) && !p.Zone?
    ensures p in LowTree(Zone(n, 7)) + HighTree(n) <==> Parent(p) in LowTree(Zone(n, 7)) + HighTree(n)
  {
    if p == Ind(n, Slot(p)) { assert p == ChildAt(Zone(n, 7), Slot(p)); }
  }

  lemma ForgetInv(s0: Disk, s: Disk, n: int)
    requires Shape(s0) && 0 <= n < |s.inode| && Inv(s, LowTree(Zone(n, 7)) + HighTree(n))
    requires Spared(s0, s, LowTree(Zone(n, 7)) + HighTree(n))
    requires forall i :: 0 <= i < 7 ==> At(s, Zone(n, i)) == 0
    ensures Inv(Forget(s, n), {}) && Emptied(s0, Forget(s, n), n)
  {
    var s', gone := Forget(s, n), LowTree(Zone(n, 7)) + HighTree(n);
    forall p | IsPos(s, p) ensures At(s', p) == if p in gone then 0 else At(s, p) { ForgetTargets(s, n, p); }
    forall p ensures Live(s', {}, p) == Live(s, gone, p) {}
    Relabel(s, gone, s', {});
    forall p | IsPos(s0, p) && p.n == n ensures At(s', p) == 0 { InodeTree(s, n, p); }
    forall p | p in gone ensures p.n == n { InodeTree(s, n, p); }
  }

  lemma InodeTree(s: Disk, n: int, p: Pos)
    ensures p in LowTree(Zone(n, 7)) + HighTree(n) ==> p.n == n
    ensures IsPos(s, p) && p.n == n ==> p in LowTree(Zone(n, 7)) + HighTree(n) || (p.Zone? && p.i < 7)
  {
    if IsPos(s, p) && p.n == n && !p.Zone? { if p.Ind? { assert p == ChildAt(Zone(n, 7), p.k); } }
  }

  // Inode n maps nothing any more; every other inode's tree and bytes are untouched.
  ghost predicate Emptied(s: Disk, s': Disk, n: int) requires Shape(s) && Shape(s') {
    && |s'.inode| == |s.inode| && SameForm(s, s')
    && (forall p :: IsPos(s, p) && p.n == n ==> At(s', p) == 0)
    && (forall p :: IsPos(s, p) && p.n != n ==>
      At(s', p) == At(s, p) && (!IsNode(p) ==> Content(s', p) == Content(s, p)))
  }
}
