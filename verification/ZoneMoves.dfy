// The shape of block trees, and what writing one zone number or one block can move in them.
module ZoneMoves {
  import opened Bytes
  import opened Zones

  // ---- the shape of a tree
  predicate IsNode(p: Pos) { (p.Zone? && (p.i == 7 || p.i == 8)) || p.Dind? }

  function Parent(p: Pos): Pos requires !p.Zone? {
    match p case Ind(n, k) => Zone(n, 7) case Dind(n, k) => Zone(n, 8) case Leaf(n, k, l) => Dind(n, k)
  }

  function Slot(p: Pos): int requires !p.Zone? {
    match p case Ind(n, k) => k case Dind(n, k) => k case Leaf(n, k, l) => l
  }

  lemma AtChild(s: Disk, p: Pos)
    requires Shape(s) && IsPos(s, p) && !p.Zone?
    ensures IsPos(s, Parent(p)) && IsNode(Parent(p)) && 0 <= Slot(p) < 512
    ensures At(s, p) == Child(s, At(s, Parent(p)), Slot(p))
  {}

  function SetBlock(s: Disk, b: int, c: Block): Disk requires 0 <= b < |s.block| { s.(block := s.block[b := c]) }

  function SetZone(s: Disk, n: int, i: int, v: int): Disk
    requires 0 <= n < |s.inode| && 0 <= i < |s.inode[n].zone|
  { s.(inode := s.inode[n := s.inode[n].(zone := s.inode[n].zone[i := v])]) }

  function SetBit(s: Disk, b: int, v: bool): Disk requires 0 <= b - s.first + 1 < |s.bits| {
    s.(bits := s.bits[b - s.first + 1 := v])
  }

  // Same device, same number of inodes.
  predicate SameForm(s: Disk, s': Disk) {
    s'.first == s.first && s'.nzones == s.nzones && |s'.inode| == |s.inode| && |s'.block| == |s.block|
      && |s'.bits| == |s.bits|
  }

  ghost predicate SameBits(s: Disk, s': Disk) { forall b :: InData(s, b) ==> Bit(s', b) == Bit(s, b) }

  // ---- one position changes at a time
  lemma Relabel(s: Disk, dead: set<Pos>, s': Disk, dead': set<Pos>)
    requires Inv(s, dead) && Shape(s') && SameForm(s, s') && SameBits(s, s') && s'.held == s.held
    requires forall p :: Live(s', dead', p) == Live(s, dead, p)
    ensures Inv(s', dead')
  {}

  lemma HookInv(s: Disk, dead: set<Pos>, s': Disk, p0: Pos, b: int)
    requires Inv(s, dead) && Shape(s') && SameForm(s, s') && SameBits(s, s')
    requires b in s.held && s'.held == s.held - {b} && b != 0
    requires Live(s, dead, p0) == 0 && Live(s', dead, p0) == b
    requires forall p :: p != p0 ==> Live(s', dead, p) == Live(s, dead, p)
    ensures Inv(s', dead)
  {}

  lemma DropInv(s: Disk, dead: set<Pos>, s': Disk, dead': set<Pos>, p0: Pos, b: int)
    requires Inv(s, dead) && Shape(s') && SameForm(s, s') && s'.held == s.held
    requires Live(s, dead, p0) == b != 0 && Live(s', dead', p0) == 0 && !Bit(s', b)
    requires forall c :: InData(s, c) && c != b ==> Bit(s', c) == Bit(s, c)
    requires forall p :: p != p0 ==> Live(s', dead', p) == Live(s, dead, p)
    ensures Inv(s', dead')
  {}

  // ---- what a write can move
  predicate InSlots(p: Pos) {
    match p case Zone(n, i) => true case Ind(n, k) => 0 <= k < 512 case Dind(n, k) => 0
      <= k < 512 case Leaf(n, k, l) => 0 <= k < 512 && 0 <= l < 512
  }

  // Below a dead position everything is dead.
  ghost predicate Closed(dead: set<Pos>) { forall p :: InSlots(p) && !p.Zone? && Parent(p) in dead ==> p in dead }

  // No living indirect block is b.
  ghost predicate NotNode(s: Disk, dead: set<Pos>, b: int) requires Shape(s) {
    forall q :: IsNode(q) && IsPos(s, q) && q !in dead ==> At(s, q) != b
  }

  lemma BlockWrite(s: Disk, dead: set<Pos>, b: int, c: Block, p: Pos)
    requires Shape(s) && 0 <= b < |s.block| && Closed(dead) && NotNode(s, dead, b)
    ensures Shape(SetBlock(s, b, c)) && Live(SetBlock(s, b, c), dead, p) == Live(s, dead, p)
    decreases if p.Zone? then 0 else if p.Leaf? then 2 else 1
  {
    var s' := SetBlock(s, b, c);
    if IsPos(s, p) && p !in dead && !p.Zone? {
      AtChild(s, p);
      AtChild(s', p);
      BlockWrite(s, dead, b, c, Parent(p));
      assert Parent(p) !in dead;
    }
  }

  // Position p0 and what hangs below it.
  predicate Below(p: Pos, p0: Pos) {
    p == p0 || (!p.Zone? && (Parent(p) == p0 || (!Parent(p).Zone? && Parent(Parent(p)) == p0)))
  }

  lemma ZoneWrite(s: Disk, n: int, i: int, v: int, p: Pos)
    requires Shape(s) && IsPos(s, Zone(n, i)) && IsPos(s, p)
    ensures Shape(SetZone(s, n, i, v)) && IsPos(SetZone(s, n, i, v), p)
    ensures !Below(p, Zone(n, i)) ==> At(SetZone(s, n, i, v), p) == At(s, p)
    ensures s.inode[n].tree ==> At(SetZone(s, n, i, v), Zone(n, i)) == v
    decreases if p.Zone? then 0 else if p.Leaf? then 2 else 1
  {
    var s' := SetZone(s, n, i, v);
    assert s'.inode[n].zone == s.inode[n].zone[i := v];
    if !p.Zone? {
      AtChild(s, p);
      AtChild(s', p);
      ZoneWrite(s, n, i, v, Parent(p));
    }
  }

  function ChildAt(q: Pos, k: int): Pos requires IsNode(q) {
    match q case Zone(n, i) => if i == 7 then Ind(n, k) else Dind(n, k) case Dind(n, j) => Leaf(n, j, k)
  }

  // q is the only living node that is block b.
  ghost predicate SoleNode(s: Disk, q: Pos, b: int) requires Shape(s) {
    && IsPos(s, q) && IsNode(q) && At(s, q) == b && InBlocks(s, b)
    && forall r :: IsNode(r) && IsPos(s, r) && r != q ==> At(s, r) != b
  }

  lemma EntryWrite(s: Disk, q: Pos, b: int, k: int, v: int, p: Pos)
    requires Shape(s) && SoleNode(s, q, b) && 0 <= k < 512 && 0 <= v < 65536 && IsPos(s, p)
    ensures var s' := SetBlock(s, b, SetEntry(s.block[b], k, v));
      && Shape(s') && IsPos(s', p) && (!Below(p, ChildAt(q, k)) ==> At(s', p) == At(s, p))
      && (p == ChildAt(q, k) ==> At(s', p) == v)
    decreases if p.Zone? then 0 else if p.Leaf? then 2 else 1
  {
    var s' := SetBlock(s, b, SetEntry(s.block[b], k, v));
    if !p.Zone? {
      AtChild(s, p);
      AtChild(s', p);
      EntryWrite(s, q, b, k, v, Parent(p));
      ChildOf(q, k, p);
      EntryOfSet(s.block[b], k, v, Slot(p));
      NotBelowSelf(q, k);
    }
  }

  lemma ChildOf(q: Pos, k: int, p: Pos)
    requires IsNode(q) && !p.Zone?
    ensures p == ChildAt(q, k) <==> Parent(p) == q && Slot(p) == k
  {}

  lemma NotBelowSelf(q: Pos, k: int)
    requires IsNode(q)
    ensures !Below(q, ChildAt(q, k))
  {}
}
