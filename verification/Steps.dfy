// Single changes to the memory state, and what they leave alone.
module Steps {
  import opened Sv32
  import opened Frames

  // ---- words as the kernel writes them
  function TableWord(f: int): Word requires InRam(f) { ZERO.(ppn := f + 0x80000, v := true) }
  function UserRwx(f: int): Word
    requires InRam(f)
  {
    Word(f + 0x80000, false, false, true, true, false, true, true, true, true, true)
  }
  function UserRw(f: int): Word
    requires InRam(f)
  {
    Word(f + 0x80000, false, false, true, true, false, true, false, true, true, true)
  }

  // They are the words the C expressions phys_ppn(page) | flags build, for page RAM_BASE + (f << 12).
  lemma KernelEntries(f: int)
    requires InRam(f)
    ensures Or(PhysPpn(PageAddr(f + 0x80000)), Mask(PTE_V)) == Encode(TableWord(f))
    ensures Or(PhysPpn(PageAddr(f + 0x80000)), Mask(PTE_USER_RW)) == Encode(UserRw(f))
    ensures Or(PhysPpn(PageAddr(f + 0x80000)), Mask(PTE_USER_RWX)) == Encode(UserRwx(f))
  {
    NewEntry(f + 0x80000, PTE_V, TableWord(f));
    NewEntry(f + 0x80000, PTE_USER_RW, UserRw(f));
    NewEntry(f + 0x80000, PTE_USER_RWX, UserRwx(f));
  }

  function ZeroFrame(): Frame { seq(1024, _ => ZERO) }

  function SetCount(s: State, f: int, n: int): State requires 0 <= f < |s.count| { s.(count := s.count[f := n]) }
  function SetFrame(s: State, f: int, p: Frame): State requires 0 <= f < |s.ram| { s.(ram := s.ram[f := p]) }

  function SetWord(s: State, f: int, k: int, w: Word): State
    requires 0 <= f < |s.ram| && 0 <= k < 1024
  { SetFrame(s, f, s.ram[f][k := w]) }

  // f holds neither a directory nor a table.
  ghost predicate Plain(s: State, f: int) {
    && (forall o :: IsOwner(o) ==> DirOf(s, o) != f)
    && (forall o, i :: IsOwner(o) && 0 <= i < 512 ==> TableOf(s, o, i) != f)
  }

  ghost predicate SameWords(s: State, s': State, r: Ref) {
    && (r.Leaf? ==> LeafWord(s', r.o, r.i, r.j) == LeafWord(s, r.o, r.i, r.j))
    && (r.Dir? ==> forall k :: 512 <= k < 1024 ==> WordAt(s', DirOf(s', r.o), k) == WordAt(s, DirOf(s, r.o), k))
  }

  ghost predicate Same(s: State, s': State, r: Ref) {
    Target(s', r) == Target(s, r) && SameWords(s, s', r)
  }

  lemma PlainWrite(s: State, f: int, p: Frame, r: Ref)
    requires Shape(s) && InRam(f) && Plain(s, f) && IsRef(r)
    ensures Same(s, SetFrame(s, f, p), r)
  {}

  // Only (o, i) names table frame t, and no directory is t.
  ghost predicate SoleTable(s: State, o: Owner, i: int, t: int) {
    && InRam(t) && t == TableOf(s, o, i)
    && (forall q :: IsOwner(q) ==> DirOf(s, q) != t)
    && (forall q, k :: IsOwner(q) && 0 <= k < 512 && (q != o || k != i) ==> TableOf(s, q, k) != t)
  }

  lemma TableIsSole(s: State, o: Owner, i: int)
    requires Inv(s, {}) && IsRef(Table(o, i)) && TableOf(s, o, i) != -1
    ensures SoleTable(s, o, i, TableOf(s, o, i))
  {
    var t := TableOf(s, o, i);
    assert LT(s, {}, Table(o, i)) == t;
    DirsApart(s, o, i);
    forall q, k | IsOwner(q) && 0 <= k < 512 && (q != o || k != i) ensures TableOf(s, q, k) != t {
      assert LT(s, {}, Table(q, k)) == TableOf(s, q, k);
      assert Table(q, k) != Table(o, i);
    }
  }

  lemma TableWrite(s: State, o: Owner, i: int, t: int, j: int, w: Word, r: Ref)
    requires Shape(s) && SoleTable(s, o, i, t) && IsRef(Leaf(o, i, j)) && IsRef(r)
    ensures r != Leaf(o, i, j) ==> Same(s, SetWord(s, t, j, w), r)
    ensures r == Leaf(o, i, j) ==> LeafWord(SetWord(s, t, j, w), o, i, j) == w
  {
    var s' := SetWord(s, t, j, w);
    if r.Leaf? || r.Table? {
      assert DirOf(s', r.o) == DirOf(s, r.o) != t;
      assert TableOf(s', r.o, r.i) == TableOf(s, r.o, r.i);
    }
  }

  lemma DirsApart(s: State, o: Owner, i: int)
    requires Inv(s, {}) && IsRef(Table(o, i)) && TableOf(s, o, i) != -1
    ensures forall q :: IsOwner(q) ==> DirOf(s, q) != TableOf(s, o, i)
  {
    forall q | IsOwner(q) ensures DirOf(s, q) != TableOf(s, o, i) {
      assert LT(s, {}, Dir(q)) == DirOf(s, q);
      assert LT(s, {}, Table(o, i)) == TableOf(s, o, i);
    }
  }

  // what a count says of the references that are left
  function Named(s: State, f: int): int
    requires 0 <= f < |s.count| && f < |s.lost|
  { s.count[f] - s.lost[f] }

  ghost predicate CountsMoved(s: State, s': State, a: int, b: int) {
    && |s.count| == |s'.count| == |s.lost| == |s'.lost| == PAGING_PAGES
    && forall f :: InRam(f) ==>
         && Named(s', f) == Named(s, f) - (if a == f then 1 else 0) + (if b == f then 1 else 0)
         && (f in s.reserved ==> s'.count[f] == s.count[f])
  }

  // Reference r means the same thing before and after.
  ghost predicate Kept(s: State, dead: set<Ref>, s': State, dead': set<Ref>, r: Ref) {
    && LT(s', dead', r) == LT(s, dead, r)
    && (LT(s, dead, r) != -1 ==> SameWords(s, s', r))
  }

  lemma Preserve(s: State, dead: set<Ref>, s': State, dead': set<Ref>, r0: Ref)
    requires Inv(s, dead) && Shape(s') && s'.reserved == s.reserved && IsRef(r0)
    requires forall r :: r != r0 ==> Kept(s, dead, s', dead', r)
    requires GoodTarget(s', dead', r0)
    requires forall q :: q != r0 && LT(s, dead, q) == LT(s', dead', r0) != -1 ==> MayShare(s', r0, q)
    requires CountsMoved(s, s', LT(s, dead, r0), LT(s', dead', r0))
    ensures Inv(s', dead')
  {
    forall r | r != r0 ensures LT(s', dead', r) == LT(s, dead, r) { assert Kept(s, dead, s', dead', r); }
    forall r ensures GoodTarget(s', dead', r) {
      if r != r0 { assert Kept(s, dead, s', dead', r); assert GoodTarget(s, dead, r); }
    }
    forall f | InRam(f) ensures s'.count[f] == if f in s'.reserved then USED else |RefsTo(s', dead', f)| + s'.lost[f] {
      Retarget(s, dead, s', dead', r0, f);
      assert Named(s', f) == Named(s, f) - (if LT(s, dead, r0) == f then 1 else 0)
        + (if LT(s', dead', r0) == f then 1 else 0);
    }
    forall r, q | r != q && LT(s', dead', r) == LT(s', dead', q) != -1 ensures MayShare(s', r, q) {
      if r == r0 { assert MayShare(s', r0, q); }
      else if q == r0 { assert MayShare(s', r0, r); }
      else { assert MayShare(s, r, q); assert Kept(s, dead, s', dead', r) && Kept(s, dead, s', dead', q); }
    }
  }

  // Only o names directory frame d.
  ghost predicate SoleDir(s: State, o: Owner, d: int) {
    && InRam(d) && d == DirOf(s, o)
    && (forall q :: IsOwner(q) && q != o ==> DirOf(s, q) != d)
    && (forall q, k :: IsOwner(q) && 0 <= k < 512 ==> TableOf(s, q, k) != d)
  }

  lemma DirIsSole(s: State, o: Owner)
    requires Inv(s, {}) && IsOwner(o) && DirOf(s, o) != -1
    ensures SoleDir(s, o, DirOf(s, o))
  {
    var d := DirOf(s, o);
    assert LT(s, {}, Dir(o)) == d;
    forall q | IsOwner(q) && q != o ensures DirOf(s, q) != d {
      assert LT(s, {}, Dir(q)) == DirOf(s, q);
    }
    forall q, k | IsOwner(q) && 0 <= k < 512 ensures TableOf(s, q, k) != d {
      assert LT(s, {}, Table(q, k)) == TableOf(s, q, k);
    }
  }

  predicate Under(r: Ref, o: Owner, i: int) { (r.Table? || r.Leaf?) && r.o == o && r.i == i }

  lemma DirWrite(s: State, o: Owner, d: int, i: int, w: Word, r: Ref)
    requires Shape(s) && SoleDir(s, o, d) && IsRef(Table(o, i)) && IsRef(r)
    ensures !Under(r, o, i) ==> Same(s, SetWord(s, d, i, w), r)
    ensures DirOf(SetWord(s, d, i, w), o) == d && WordAt(SetWord(s, d, i, w), d, i) == w
  {
    var s' := SetWord(s, d, i, w);
    if (r.Leaf? || r.Table?) && !Under(r, o, i) {
      assert DirOf(s', r.o) == DirOf(s, r.o);
      assert WordAt(s', DirOf(s, r.o), r.i) == WordAt(s, DirOf(s, r.o), r.i);
      assert TableOf(s', r.o, r.i) == TableOf(s, r.o, r.i) != d;
    }
  }
}
