// Frames taken, handed on, shared and given back (mm/memory.c): each keeps every count the number of references.
module Moves {
  import opened Limits
  import opened Options
  import opened Sv32
  import opened Frames
  import opened Steps

  function PageAt(s: State, o: Owner, i: int, j: int): Option<Frame> {
    var f := LeafOf(s, o, i, j);
    if 0 <= f < |s.ram| then Some(s.ram[f]) else None
  }

  ghost predicate SamePage(s: State, s': State, o: Owner, i: int, j: int) {
    IsRef(Leaf(o, i, j)) ==> PageAt(s', o, i, j) == PageAt(s, o, i, j)
  }

  ghost predicate SamePages(s: State, s': State) {
    forall o, i, j :: SamePage(s, s', o, i, j)
  }

  lemma ZeroCountNoRefs(s: State, f: int, r: Ref)
    requires Inv(s, {}) && InRam(f) && s.count[f] == 0
    ensures LT(s, {}, r) != f
  {
    assert RefsTo(s, {}, f) == {};
    assert LT(s, {}, r) == f ==> r in RefsTo(s, {}, f);
  }

  lemma FreeIsPlain(s: State, f: int)
    requires Inv(s, {}) && InRam(f) && s.count[f] == 0
    ensures Plain(s, f) && f !in s.held && f !in s.building && f !in s.reserved
  {
    assert f !in s.reserved;
    forall o | IsOwner(o) ensures DirOf(s, o) != f {
      ZeroCountNoRefs(s, f, Dir(o));
      assert LT(s, {}, Dir(o)) == DirOf(s, o);
    }
    forall o, i | IsOwner(o) && 0 <= i < 512 ensures TableOf(s, o, i) != f {
      ZeroCountNoRefs(s, f, Table(o, i));
      assert LT(s, {}, Table(o, i)) == TableOf(s, o, i);
    }
    ZeroCountNoRefs(s, f, Held(f));
    ZeroCountNoRefs(s, f, Dir(New(f)));
    assert LT(s, {}, Held(f)) != f;
    assert f in s.building ==> DirOf(s, New(f)) == f;
  }

  // get_free_page: frame f leaves the pool, zeroed, held by the caller.
  function Alloc(s: State, f: int): State requires 0 <= f < |s.count| && 0 <= f < |s.ram| {
    SetFrame(SetCount(s, f, 1), f, ZeroFrame()).(held := s.held + {f})
  }

  lemma AllocInv(s: State, f: int)
    requires Inv(s, {}) && InRam(f) && s.count[f] == 0
    ensures Inv(Alloc(s, f), {}) && SamePages(s, Alloc(s, f))
  {
    var s' := Alloc(s, f);
    FreeIsPlain(s, f);
    forall r | IsRef(r) && r != Held(f) ensures Same(s, s', r) {
      PlainWrite(s, f, ZeroFrame(), r);
      assert Same(SetFrame(s, f, ZeroFrame()), s', r);
    }
    forall q ensures LT(s, {}, q) != f { ZeroCountNoRefs(s, f, q); }
    assert LT(s', {}, Held(f)) == f && LT(s, {}, Held(f)) == -1;
    forall r | r != Held(f) ensures Kept(s, {}, s', {}, r) { assert IsRef(r) ==> Same(s, s', r); }
    Preserve(s, {}, s', {}, Held(f));
    forall o, i, j | IsRef(Leaf(o, i, j)) ensures PageAt(s', o, i, j) == PageAt(s, o, i, j) {
      assert Same(s, s', Leaf(o, i, j));
      assert LT(s, {}, Leaf(o, i, j)) == LeafOf(s, o, i, j);
    }
  }

  // ---- dropping references
  function Uncount(s: State, f: int): State requires 0 <= f < |s.count| { SetCount(s, f, s.count[f] - 1) }

  // free_page on the frame of a reference that is about to disappear.
  lemma KillInv(s: State, dead: set<Ref>, r: Ref)
    requires Inv(s, dead) && LT(s, dead, r) != -1
    ensures InRam(LT(s, dead, r)) && s.count[LT(s, dead, r)] >= 1
    ensures Inv(Uncount(s, LT(s, dead, r)), dead + {r})
  {
    var f := LT(s, dead, r);
    assert r in RefsTo(s, dead, f);
    var s' := Uncount(s, f);
    forall q | q != r ensures Kept(s, dead, s', dead + {r}, q) { assert Same(s, s', q); }
    Preserve(s, dead, s', dead + {r}, r);
  }

  // ---- losing references
  function Lose(s: State, f: int): State requires 0 <= f < |s.lost| { s.(lost := s.lost[f := s.lost[f] + 1]) }

  // A reference is about to disappear and nothing is done about its frame.
  lemma LoseInv(s: State, dead: set<Ref>, r: Ref)
    requires Inv(s, dead) && LT(s, dead, r) != -1
    ensures InRam(LT(s, dead, r)) && Inv(Lose(s, LT(s, dead, r)), dead + {r})
  {
    var f := LT(s, dead, r);
    assert GoodTarget(s, dead, r);
    var s' := Lose(s, f);
    forall q | q != r ensures Kept(s, dead, s', dead + {r}, q) { assert Same(s, s', q); }
    Preserve(s, dead, s', dead + {r}, r);
  }

  // A whole set of them.
  ghost function LoseAll(s: State, gone: set<Ref>): State
    requires |s.lost| == PAGING_PAGES
  { s.(lost := seq(PAGING_PAGES, f requires 0 <= f < PAGING_PAGES => s.lost[f] + |RefsTo(s, {}, f) * gone|)) }

  lemma LoseAllInv(s: State, gone: set<Ref>)
    requires Inv(s, {})
    ensures Inv(LoseAll(s, gone), gone)
  {
    var s' := LoseAll(s, gone);
    forall r ensures Same(s, s', r) {}
    forall r ensures LT(s', gone, r) == if r in gone then -1 else LT(s, {}, r) {}
    hide TargetsOk, Exclusive, Counted, Same, LT;
    LoseAllTargets(s, s', gone);
    LoseAllShares(s, s', gone);
    LoseAllCounted(s, gone);
  }

  lemma LoseAllTargets(s: State, s': State, gone: set<Ref>)
    requires TargetsOk(s, {}) && s'.reserved == s.reserved && (forall r :: Same(s, s', r))
    requires forall r :: LT(s', gone, r) == if r in gone then -1 else LT(s, {}, r)
    ensures TargetsOk(s', gone)
  {
    forall r ensures GoodTarget(s', gone, r) {
      assert GoodTarget(s, {}, r);
      assert Same(s, s', r);
    }
  }

  lemma LoseAllCounted(s: State, gone: set<Ref>)
    requires Counted(s, {}) && forall r :: LT(LoseAll(s, gone), gone, r) == if r in gone then -1 else LT(s, {}, r)
    ensures Counted(LoseAll(s, gone), gone)
  {
    hide LT;
    var s' := LoseAll(s, gone);
    forall f | InRam(f) ensures s'.count[f] == if f in s'.reserved then USED else |RefsTo(s', gone, f)| + s'.lost[f] {
      var a := RefsTo(s, {}, f);
      assert RefsTo(s', gone, f) == a - gone;
      assert a == (a - gone) + (a * gone);
    }
  }

  lemma LoseAllShares(s: State, s': State, gone: set<Ref>)
    requires Exclusive(s, {}) && (forall r :: Same(s, s', r))
    requires forall r :: LT(s', gone, r) == if r in gone then -1 else LT(s, {}, r)
    ensures Exclusive(s', gone)
  {
    forall r, q | r != q && LT(s', gone, r) == LT(s', gone, q) != -1 ensures MayShare(s', r, q) {
      assert MayShare(s, r, q);
      assert Same(s, s', r) && Same(s, s', q);
    }
  }

  lemma CountOneNamed(s: State, r: Ref)
    requires Inv(s, {}) && LT(s, {}, r) != -1 && InRam(LT(s, {}, r)) && s.count[LT(s, {}, r)] == 1
    ensures Named(s, LT(s, {}, r)) == 1
  {
    var f := LT(s, {}, r);
    assert r in RefsTo(s, {}, f);
    assert |RefsTo(s, {}, f)| > 0;
  }

  // Two states that differ in nothing a live reference sees.
  lemma Relabel(s: State, dead: set<Ref>, s': State, dead': set<Ref>)
    requires Inv(s, dead) && Shape(s') && s'.reserved == s.reserved && s'.count == s.count && s'.lost == s.lost
    requires forall r :: Kept(s, dead, s', dead', r)
    ensures Inv(s', dead')
  {
    var r0 := Page(0);
    assert Kept(s, dead, s', dead', r0);
    forall q | q != r0 ensures !(LT(s, dead, q) == LT(s', dead', r0) != -1) {}
    Preserve(s, dead, s', dead', r0);
  }

  // dir[i] = 0 once everything under (o, i) has been freed.
  lemma ClearDirInv(s: State, dead: set<Ref>, o: Owner, d: int, i: int)
    requires Inv(s, dead) && SoleDir(s, o, d) && IsRef(Table(o, i))
    requires forall r :: r in dead ==> Under(r, o, i)
    requires forall r :: Under(r, o, i) ==> LT(s, dead, r) == -1
    ensures Inv(SetWord(s, d, i, ZERO), {})
  {
    var s' := SetWord(s, d, i, ZERO);
    forall r ensures Kept(s, dead, s', {}, r) {
      if IsRef(r) {
        DirWrite(s, o, d, i, ZERO, r);
        if Under(r, o, i) { assert TableOf(s', o, i) == -1; }
      }
    }
    Relabel(s, dead, s', {});
  }

  lemma ClearDirSole(s: State, o: Owner, d: int, i: int)
    requires Shape(s) && SoleDir(s, o, d) && IsRef(Table(o, i))
    ensures SoleDir(SetWord(s, d, i, ZERO), o, d)
  {
    var s' := SetWord(s, d, i, ZERO);
    forall q, k | IsOwner(q) && 0 <= k < 512 ensures TableOf(s', q, k) != d {
      DirWrite(s, o, d, i, ZERO, Table(q, k));
    }
    forall q | IsOwner(q) && q != o ensures DirOf(s', q) != d {
      DirWrite(s, o, d, i, ZERO, Dir(q));
    }
    DirWrite(s, o, d, i, ZERO, Dir(o));
  }

  // ---- giving a held frame away
  lemma HeldSole(s: State, f: int, q: Ref)
    requires Inv(s, {}) && InRam(f) && f in s.held && q != Held(f)
    ensures LT(s, {}, q) != f && f !in s.reserved
  {
    assert LT(s, {}, Held(f)) == f;
  }

  function Unheld(s: State, f: int): State { s.(held := s.held - {f}) }

  lemma DropHeldInv(s: State, f: int)
    requires Inv(s, {}) && InRam(f) && f in s.held
    ensures Inv(Unheld(Uncount(s, f), f), {})
  {
    hide TargetsOk, Exclusive, Counted;
    assert LT(s, {}, Held(f)) == f && {} + {Held(f)} == {Held(f)};
    KillInv(s, {}, Held(f));
    var s1, s' := Uncount(s, f), Unheld(Uncount(s, f), f);
    forall r ensures Kept(s1, {Held(f)}, s', {}, r) { assert r != Held(f) ==> Same(s1, s', r); }
    Relabel(s1, {Held(f)}, s', {});
  }

  lemma CountIsNotTarget(s: State, f: int, n: int, r: Ref)
    requires 0 <= f < |s.count|
    ensures Same(s, SetCount(s, f, n), r)
  {}

  lemma UnholdSole(s: State, f: int, q: Ref)
    requires Inv(s, {}) && InRam(f) && f in s.held
    ensures LT(Uncount(s, f), {Held(f)}, q) != f
  {
    if q != Held(f) { HeldSole(s, f, q); CountIsNotTarget(s, f, s.count[f] - 1, q); }
  }

  // The reference Held(f) becomes the reference r0; s' is the state after the word naming f is written.
  lemma HandOver(s: State, f: int, s': State, r0: Ref)
    requires Inv(s, {}) && InRam(f) && f in s.held && r0 != Held(f) && IsRef(r0) && LT(s, {}, r0) == -1
    requires Shape(s') && s'.reserved == s.reserved && s'.count == s.count && s'.lost == s.lost
    requires LT(s', {}, r0) == f && LT(s', {}, Held(f)) == -1 && GoodWords(s', r0)
    requires forall r :: r != r0 && r != Held(f) ==> Kept(s, {}, s', {}, r)
    ensures Inv(s', {})
  {
    assert LT(s, {}, Held(f)) == f && {} + {Held(f)} == {Held(f)};
    hide TargetsOk, Exclusive, Counted, Target, LeafWord;
    KillInv(s, {}, Held(f));
    var s1 := Uncount(s, f);
    forall r | r != r0 ensures Kept(s1, {Held(f)}, s', {}, r) {
      assert r != Held(f) ==> Kept(s, {}, s', {}, r);
      CountIsNotTarget(s, f, s.count[f] - 1, r);
    }
    HeldSole(s, f, r0);
    forall q ensures LT(s1, {Held(f)}, q) != f { UnholdSole(s, f, q); }
    CountIsNotTarget(s, f, s.count[f] - 1, r0);
    Preserve(s1, {Held(f)}, s', {}, r0);
  }

  function InstallTable(s: State, d: int, i: int, f: int): State
    requires InRam(f) && 0 <= d < |s.ram| && 0 <= i < 1024
  { Unheld(SetWord(s, d, i, TableWord(f)), f) }

  lemma InstallTableInv(s: State, o: Owner, d: int, i: int, f: int)
    requires Inv(s, {}) && SoleDir(s, o, d) && IsRef(Table(o, i)) && !WordAt(s, d, i).v
    requires InRam(f) && f in s.held && s.ram[f] == ZeroFrame()
    ensures Inv(InstallTable(s, d, i, f), {})
    ensures TableOf(InstallTable(s, d, i, f), o, i) == f
  {
    hide TargetsOk, Exclusive, Counted;
    var s' := InstallTable(s, d, i, f);
    var s1 := SetWord(s, d, i, TableWord(f));
    assert d != f by { HeldSole(s, f, Dir(o)); assert LT(s, {}, Dir(o)) == d; }
    DirWrite(s, o, d, i, TableWord(f), Table(o, i));
    assert TableOf(s', o, i) == f;
    forall r | r != Table(o, i) && r != Held(f) ensures Kept(s, {}, s', {}, r) { InstallTableKeeps(s, o, d, i, f, r); }
    HandOver(s, f, s', Table(o, i));
  }

  lemma InstallTableKeeps(s: State, o: Owner, d: int, i: int, f: int, r: Ref)
    requires Shape(s) && SoleDir(s, o, d) && IsRef(Table(o, i)) && !WordAt(s, d, i).v
    requires InRam(f) && d != f && s.ram[f] == ZeroFrame() && r != Table(o, i) && r != Held(f)
    ensures Kept(s, {}, InstallTable(s, d, i, f), {}, r)
  {
    var s1, s' := SetWord(s, d, i, TableWord(f)), InstallTable(s, d, i, f);
    if IsRef(r) {
      DirWrite(s, o, d, i, TableWord(f), Table(o, i));
      DirWrite(s, o, d, i, TableWord(f), r);
      assert Same(s1, s', r);
      if Under(r, o, i) { assert LeafWord(s, o, i, r.j) == ZERO; assert LeafWord(s', o, i, r.j) == ZERO; }
    }
  }

  function InstallLeaf(s: State, t: int, j: int, f: int, w: Word): State
    requires 0 <= t < |s.ram| && 0 <= j < 1024
  { Unheld(SetWord(s, t, j, w), f) }

  lemma UnheldIsNotTarget(s: State, f: int, r: Ref)
    ensures r != Held(f) ==> Same(s, Unheld(s, f), r)
  {}

  lemma InstallLeafInv(s: State, o: Owner, i: int, t: int, j: int, f: int, w: Word)
    requires Inv(s, {}) && SoleTable(s, o, i, t) && IsRef(Leaf(o, i, j)) && !WordAt(s, t, j).v
    requires InRam(f) && f in s.held && w.v && w.u && w.r && FrameOf(w) == f
    ensures Inv(InstallLeaf(s, t, j, f, w), {})
    ensures LeafWord(InstallLeaf(s, t, j, f, w), o, i, j) == w
  {
    var s1, s' := SetWord(s, t, j, w), InstallLeaf(s, t, j, f, w);
    var r0 := Leaf(o, i, j);
    LeafWriteKept(s, o, i, t, j, w);
    UnheldIsNotTarget(s1, f, r0);
    assert LT(s, {}, r0) == -1 && LT(s', {}, r0) == f && GoodWords(s', r0) && LT(s', {}, Held(f)) == -1;
    hide TargetsOk, Exclusive, Counted, Target, LeafWord, SoleTable;
    forall r | r != r0 && r != Held(f) ensures Kept(s, {}, s', {}, r) {
      assert Kept(s, {}, s1, {}, r);
      UnheldIsNotTarget(s1, f, r);
    }
    HandOver(s, f, s', r0);
  }

  // ---- sharing and unsharing one leaf
  lemma LeafWriteKept(s: State, o: Owner, i: int, t: int, j: int, w: Word)
    requires Inv(s, {}) && SoleTable(s, o, i, t) && IsRef(Leaf(o, i, j))
    ensures forall r :: r != Leaf(o, i, j) ==> Kept(s, {}, SetWord(s, t, j, w), {}, r)
    ensures LeafWord(SetWord(s, t, j, w), o, i, j) == w
  {
    TableWrite(s, o, i, t, j, w, Leaf(o, i, j));
    forall r | r != Leaf(o, i, j) ensures Kept(s, {}, SetWord(s, t, j, w), {}, r) {
      if IsRef(r) { TableWrite(s, o, i, t, j, w, r); }
    }
  }

  lemma ClearWInv(s: State, o: Owner, i: int, t: int, j: int)
    requires Inv(s, {}) && SoleTable(s, o, i, t) && IsRef(Leaf(o, i, j)) && WordAt(s, t, j).v
    ensures Inv(SetWord(s, t, j, WordAt(s, t, j).(w := false)), {})
  {
    var w := WordAt(s, t, j).(w := false);
    var s' := SetWord(s, t, j, w);
    LeafWriteKept(s, o, i, t, j, w);
    var r0 := Leaf(o, i, j);
    assert LT(s', {}, r0) == LT(s, {}, r0);
    forall q | q != r0 && LT(s, {}, q) == LT(s, {}, r0) != -1 ensures MayShare(s', r0, q) {
      assert MayShare(s, r0, q);
      assert Kept(s, {}, s', {}, q);
    }
    Preserve(s, {}, s', {}, r0);
  }

  lemma SetWInv(s: State, o: Owner, i: int, t: int, j: int)
    requires Inv(s, {}) && SoleTable(s, o, i, t) && IsRef(Leaf(o, i, j)) && WordAt(s, t, j).v
    requires InRam(LeafOf(s, o, i, j)) && Named(s, LeafOf(s, o, i, j)) == 1
    ensures Inv(SetWord(s, t, j, WordAt(s, t, j).(w := true)), {})
  {
    var w := WordAt(s, t, j).(w := true);
    var s' := SetWord(s, t, j, w);
    LeafWriteKept(s, o, i, t, j, w);
    var r0 := Leaf(o, i, j);
    assert LT(s', {}, r0) == LT(s, {}, r0);
    forall q | q != r0 ensures LT(s, {}, q) != LT(s, {}, r0) { CountOneSole(s, r0, q); }
    Preserve(s, {}, s', {}, r0);
  }

  lemma CountOneSole(s: State, r: Ref, q: Ref)
    requires Inv(s, {}) && r != q && LT(s, {}, r) != -1
    requires InRam(LT(s, {}, r)) && Named(s, LT(s, {}, r)) == 1
    ensures LT(s, {}, q) != LT(s, {}, r)
  {
    var f := LT(s, {}, r);
    var a := RefsTo(s, {}, f);
    assert r in a;
    assert |a - {r}| == 0;
    assert LT(s, {}, q) == f ==> q in a - {r};
  }

  function Share(s: State, t: int, j: int, w: Word, f: int): State
    requires 0 <= t < |s.ram| && 0 <= j < 1024 && 0 <= f < |s.count|
  { SetCount(SetWord(s, t, j, w), f, s.count[f] + 1) }

  lemma ShareKept(s: State, p: Owner, i: int, t: int, j: int, w: Word, f: int)
    requires Inv(s, {}) && SoleTable(s, p, i, t) && IsRef(Leaf(p, i, j)) && InRam(f)
    ensures forall r :: r != Leaf(p, i, j) ==> Kept(s, {}, Share(s, t, j, w, f), {}, r)
    ensures LeafWord(Share(s, t, j, w, f), p, i, j) == w
  {
    var s1, s' := SetWord(s, t, j, w), Share(s, t, j, w, f);
    LeafWriteKept(s, p, i, t, j, w);
    hide TargetsOk, Exclusive, Counted, Target, LeafWord, SoleTable;
    forall r | r != Leaf(p, i, j) ensures Kept(s, {}, s', {}, r) {
      CountIsNotTarget(s1, f, s.count[f] + 1, r);
      assert Kept(s, {}, s1, {}, r);
    }
    CountIsNotTarget(s1, f, s.count[f] + 1, Leaf(p, i, j));
  }

  // The child's entry copies the parent's read-only entry.
  lemma ShareInv(s: State, o: Owner, p: Owner, i: int, t: int, j: int)
    requires Inv(s, {}) && SoleTable(s, p, i, t) && IsRef(Leaf(o, i, j)) && IsRef(Leaf(p, i, j))
    requires !WordAt(s, t, j).v && LeafWord(s, o, i, j).v && !LeafWord(s, o, i, j).w
    requires InRam(LeafOf(s, o, i, j))
    ensures Inv(Share(s, t, j, LeafWord(s, o, i, j), LeafOf(s, o, i, j)), {})
  {
    var w, f := LeafWord(s, o, i, j), LeafOf(s, o, i, j);
    var s' := Share(s, t, j, w, f);
    var r0 := Leaf(p, i, j);
    ShareKept(s, p, i, t, j, w, f);
    SharersOf(s, o, i, j);
    assert LT(s', {}, r0) == f == LT(s, {}, Leaf(o, i, j));
    assert LT(s, {}, r0) == -1;
    TargetOk(s, Leaf(o, i, j));
    hide TargetsOk, Exclusive, Counted, Target, LeafWord, SoleTable;
    forall q | q != r0 && LT(s, {}, q) == f ensures MayShare(s', r0, q) {
      assert Kept(s, {}, s', {}, q);
    }
    Preserve(s, {}, s', {}, r0);
  }

  lemma TargetOk(s: State, r: Ref)
    requires Inv(s, {}) && LT(s, {}, r) != -1
    ensures InRam(LT(s, {}, r)) && LT(s, {}, r) !in s.reserved && GoodWords(s, r)
  {}

  // Whatever else names the frame of a read-only leaf is a read-only leaf at the same address.
  ghost predicate LeafSharers(s: State, o: Owner, i: int, j: int) {
    forall q :: LT(s, {}, q) == LeafOf(s, o, i, j) ==> q.Leaf? && q.i == i && q.j == j && !LeafWord(s, q.o, i, j).w
  }

  lemma SharersOf(s: State, o: Owner, i: int, j: int)
    requires Inv(s, {}) && IsRef(Leaf(o, i, j)) && LeafWord(s, o, i, j).v && !LeafWord(s, o, i, j).w
    requires InRam(LeafOf(s, o, i, j))
    ensures LeafSharers(s, o, i, j)
  {
    forall q | LT(s, {}, q) == LeafOf(s, o, i, j) ensures q.Leaf? && q.i == i && q.j == j && !LeafWord(s, q.o, i, j).w {
      assert LT(s, {}, Leaf(o, i, j)) == LeafOf(s, o, i, j);
      if q != Leaf(o, i, j) { assert MayShare(s, Leaf(o, i, j), q); }
    }
  }

  // ---- copy on write: the leaf moves from f to the held frame g
  lemma CopyLeafInv(s: State, o: Owner, i: int, t: int, j: int, f: int, g: int)
    requires Inv(s, {}) && SoleTable(s, o, i, t) && IsRef(Leaf(o, i, j)) && LeafOf(s, o, i, j) == f && InRam(f)
    requires InRam(g) && g in s.held
    ensures s.count[f] >= 1 && Inv(Unheld(SetWord(Uncount(s, f), t, j, UserRw(g)), g), {})
  {
    hide TargetsOk, Exclusive, Counted;
    var r0 := Leaf(o, i, j);
    assert LT(s, {}, r0) == f && {} + {r0} == {r0};
    KillInv(s, {}, r0);
    var s1 := Uncount(s, f);
    // clearing the dead entry gives back an invariant state
    var s2 := SetWord(s1, t, j, ZERO);
    CountKeepsSole(s, o, i, t, f, s.count[f] - 1);
    ClearLeafInv(s1, o, i, t, j);
    var s3 := Unheld(SetWord(Uncount(s, f), t, j, UserRw(g)), g);
    assert WordAt(s2, t, j) == ZERO;
    assert SoleTable(s2, o, i, t) by { TableStillSole(s1, o, i, t, j, ZERO); }
    InstallLeafInv(s2, o, i, t, j, g, UserRw(g));
    assert s2.ram[t][j := UserRw(g)] == s1.ram[t][j := UserRw(g)];
    assert s2.ram[t := s1.ram[t][j := UserRw(g)]] == s1.ram[t := s1.ram[t][j := UserRw(g)]];
    assert InstallLeaf(s2, t, j, g, UserRw(g)) == s3;
  }

  lemma CountKeepsSole(s: State, o: Owner, i: int, t: int, f: int, n: int)
    requires SoleTable(s, o, i, t) && 0 <= f < |s.count|
    ensures SoleTable(SetCount(s, f, n), o, i, t)
  {
    var s' := SetCount(s, f, n);
    forall q ensures DirOf(s', q) == DirOf(s, q) {}
    forall q, k ensures TableOf(s', q, k) == TableOf(s, q, k) {}
  }

  lemma TableStillSole(s: State, o: Owner, i: int, t: int, j: int, w: Word)
    requires Shape(s) && SoleTable(s, o, i, t) && IsRef(Leaf(o, i, j))
    ensures SoleTable(SetWord(s, t, j, w), o, i, t)
  {
    var s' := SetWord(s, t, j, w);
    forall q | IsOwner(q) ensures DirOf(s', q) != t { TableWrite(s, o, i, t, j, w, Dir(q)); }
    forall q, k | IsOwner(q) && 0 <= k < 512 ensures TableOf(s', q, k) == TableOf(s, q, k) {
      TableWrite(s, o, i, t, j, w, Table(q, k));
    }
  }

  lemma ClearLeafInv(s: State, o: Owner, i: int, t: int, j: int)
    requires IsRef(Leaf(o, i, j)) && Inv(s, {Leaf(o, i, j)}) && SoleTable(s, o, i, t)
    ensures Inv(SetWord(s, t, j, ZERO), {})
  {
    hide TargetsOk, Exclusive, Counted;
    var r0 := Leaf(o, i, j);
    var s' := SetWord(s, t, j, ZERO);
    TableWrite(s, o, i, t, j, ZERO, r0);
    forall r ensures Kept(s, {r0}, s', {}, r) {
      if IsRef(r) && r != r0 { TableWrite(s, o, i, t, j, ZERO, r); }
    }
    Relabel(s, {r0}, s', {});
  }

  // ---- a page mapped over another, whose frame is lost
  lemma OverwriteInv(s: State, o: Owner, i: int, t: int, j: int, f: int, w: Word)
    requires Inv(s, {}) && SoleTable(s, o, i, t) && IsRef(Leaf(o, i, j)) && WordAt(s, t, j).v
    requires InRam(f) && f in s.held && w.v && w.u && w.r && FrameOf(w) == f
    ensures InRam(LeafOf(s, o, i, j)) && Inv(InstallLeaf(Lose(s, LeafOf(s, o, i, j)), t, j, f, w), {})
  {
    hide TargetsOk, Exclusive, Counted;
    var r0, g := Leaf(o, i, j), LeafOf(s, o, i, j);
    assert LT(s, {}, r0) == g && {} + {r0} == {r0};
    LoseInv(s, {}, r0);
    var s1 := Lose(s, g);
    LoseKeepsSole(s, o, i, t, g);
    ClearLeafInv(s1, o, i, t, j);
    var s2 := SetWord(s1, t, j, ZERO);
    TableStillSole(s1, o, i, t, j, ZERO);
    assert WordAt(s2, t, j) == ZERO;
    InstallLeafInv(s2, o, i, t, j, f, w);
    assert s2.ram[t][j := w] == s1.ram[t][j := w];
    assert s2.ram[t := s1.ram[t][j := w]] == s1.ram[t := s1.ram[t][j := w]];
    assert InstallLeaf(s2, t, j, f, w) == InstallLeaf(s1, t, j, f, w);
  }

  lemma LoseKeepsSole(s: State, o: Owner, i: int, t: int, f: int)
    requires SoleTable(s, o, i, t) && 0 <= f < |s.lost|
    ensures SoleTable(Lose(s, f), o, i, t)
  {
    var s' := Lose(s, f);
    forall q ensures DirOf(s', q) == DirOf(s, q) {}
    forall q, k ensures TableOf(s', q, k) == TableOf(s, q, k) {}
  }

  // ---- frames that hold no table words
  lemma OneOwner(s: State, r: Ref, q: Ref)
    requires Inv(s, {}) && LT(s, {}, r) != -1 && r != q && !q.Leaf?
    ensures LT(s, {}, q) != LT(s, {}, r)
  {}

  lemma PlainTarget(s: State, r: Ref)
    requires Inv(s, {}) && LT(s, {}, r) != -1 && (r.Leaf? || r.Page? || r.Held?)
    ensures InRam(LT(s, {}, r)) && Plain(s, LT(s, {}, r))
  {
    TargetOk(s, r);
    hide Inv;
    var f := LT(s, {}, r);
    forall o | IsOwner(o) ensures DirOf(s, o) != f { OneOwner(s, r, Dir(o)); assert LT(s, {}, Dir(o)) == DirOf(s, o); }
    forall o, i | IsOwner(o) && 0 <= i < 512 ensures TableOf(s, o, i) != f {
      OneOwner(s, r, Table(o, i));
      assert LT(s, {}, Table(o, i)) == TableOf(s, o, i);
    }
  }

  lemma StoreInv(s: State, f: int, p: Frame)
    requires Inv(s, {}) && InRam(f) && Plain(s, f)
    ensures Inv(SetFrame(s, f, p), {})
  {
    hide TargetsOk, Exclusive, Counted;
    forall r ensures Kept(s, {}, SetFrame(s, f, p), {}, r) { if IsRef(r) { PlainWrite(s, f, p, r); } }
    Relabel(s, {}, SetFrame(s, f, p), {});
  }

  // ---- tasks
  function SetTask(s: State, t: int, x: Task): State requires 0 <= t < |s.task| { s.(task := s.task[t := x]) }

  lemma TakePageInv(s: State, t: int, f: int)
    requires Inv(s, {}) && 0 <= t < NR_TASKS && s.task[t].NoTask? && InRam(f) && f in s.held
    ensures Inv(Unheld(SetTask(s, t, Task(f, -1)), f), {})
  {
    hide TargetsOk, Exclusive, Counted;
    var s' := Unheld(SetTask(s, t, Task(f, -1)), f);
    forall r | r != Page(t) && r != Held(f) ensures Kept(s, {}, s', {}, r) { assert IsRef(r) ==> Same(s, s', r); }
    HandOver(s, f, s', Page(t));
  }

  lemma BeginDirInv(s: State, f: int)
    requires Inv(s, {}) && InRam(f) && f in s.held && f !in s.building && s.ram[f] == ZeroFrame()
    ensures Inv(Unheld(s, f).(building := s.building + {f}), {})
  {
    hide TargetsOk, Exclusive, Counted;
    var s' := Unheld(s, f).(building := s.building + {f});
    forall r | r != Dir(New(f)) && r != Held(f) ensures Kept(s, {}, s', {}, r) {
      if (r.Leaf? || r.Table?) && r.o == New(f) && IsRef(r) {
        assert TableOf(s, r.o, r.i) == -1 && TableOf(s', r.o, r.i) == -1;
      } else {
        assert IsRef(r) ==> Same(s, s', r);
      }
    }
    HandOver(s, f, s', Dir(New(f)));
  }

  lemma ReleaseInv(s: State, t: int)
    requires Inv(s, {}) && 0 <= t < NR_TASKS && s.task[t].Task? && s.task[t].pgdir == -1 && InRam(s.task[t].page)
    ensures s.count[s.task[t].page] >= 1 && Inv(SetTask(Uncount(s, s.task[t].page), t, NoTask), {})
  {
    hide TargetsOk, Exclusive, Counted;
    var r0 := Page(t);
    assert LT(s, {}, r0) == s.task[t].page && {} + {r0} == {r0};
    KillInv(s, {}, r0);
    var s1 := Uncount(s, s.task[t].page);
    var s' := SetTask(s1, t, NoTask);
    forall r ensures Kept(s1, {r0}, s', {}, r) { assert r != r0 ==> Same(s1, s', r); }
    Relabel(s1, {r0}, s', {});
  }

  // An empty directory goes away with the reference that names it.
  function Undir(s: State, o: Owner): State {
    match o
    case Proc(t) => if 0 <= t < |s.task| && s.task[t].Task? then SetTask(s, t, s.task[t].(pgdir := -1)) else s
    case New(d) => s.(building := s.building - {d})
  }

  lemma DropDirKept(s: State, o: Owner, d: int, r: Ref)
    requires IsOwner(o) && DirOf(s, o) == d && forall i :: 0 <= i < 512 ==> !WordAt(s, d, i).v
    ensures Kept(s, {Dir(o)}, Undir(s, o), {}, r)
  {
    var s' := Undir(s, o);
    assert DirOf(s', o) == -1;
    if (r.Leaf? || r.Table?) && r.o == o && IsRef(r) {
      assert TableOf(s, o, r.i) == -1 && TableOf(s', o, r.i) == -1;
    } else {
      assert IsRef(r) && r != Dir(o) ==> Same(s, s', r);
    }
  }

  lemma DropDirInv(s: State, o: Owner, d: int)
    requires Inv(s, {}) && IsOwner(o) && DirOf(s, o) == d && InRam(d)
    requires forall i :: 0 <= i < 512 ==> !WordAt(s, d, i).v
    ensures s.count[d] >= 1 && Inv(Undir(Uncount(s, d), o), {})
  {
    hide TargetsOk, Exclusive, Counted;
    var r0 := Dir(o);
    assert LT(s, {}, r0) == d && {} + {r0} == {r0};
    KillInv(s, {}, r0);
    var s1 := Uncount(s, d);
    forall i | 0 <= i < 512 ensures !WordAt(s1, d, i).v { assert WordAt(s1, d, i) == WordAt(s, d, i); }
    forall r ensures Kept(s1, {r0}, Undir(s1, o), {}, r) { DropDirKept(s1, o, d, r); }
    Relabel(s1, {r0}, Undir(s1, o), {});
  }

  // ---- a finished directory passes from the kernel to a task
  function AdoptDir(s: State, t: int, d: int): State requires 0 <= t < |s.task| && s.task[t].Task? {
    SetTask(s, t, s.task[t].(pgdir := d)).(building := s.building - {d})
  }

  function SwapOwner(o: Owner, t: int, d: int): Owner {
    if o == Proc(t) then New(d) else if o == New(d) then Proc(t) else o
  }

  function SwapRef(r: Ref, t: int, d: int): Ref {
    match r
    case Leaf(o, i, j) => Leaf(SwapOwner(o, t, d), i, j)
    case Table(o, i) => Table(SwapOwner(o, t, d), i)
    case Dir(o) => Dir(SwapOwner(o, t, d))
    case _ => r
  }

  lemma SwapTwice(r: Ref, t: int, d: int) ensures SwapRef(SwapRef(r, t, d), t, d) == r {}

  lemma AdoptTargets(s: State, t: int, d: int, r: Ref)
    requires 0 <= t < NR_TASKS == |s.task| && s.task[t].Task? && s.task[t].pgdir == -1 && d in s.building && InRam(d)
    ensures LT(AdoptDir(s, t, d), {}, SwapRef(r, t, d)) == LT(s, {}, r)
    ensures r.Leaf? ==> LeafWord(AdoptDir(s, t, d), SwapOwner(r.o, t, d), r.i, r.j) == LeafWord(s, r.o, r.i, r.j)
  {
    var s' := AdoptDir(s, t, d);
    if r.Leaf? || r.Table? || r.Dir? {
      assert DirOf(s', SwapOwner(r.o, t, d)) == DirOf(s, r.o);
      assert IsOwner(SwapOwner(r.o, t, d)) == IsOwner(r.o);
    }
    if r.Leaf? || r.Table? { assert TableOf(s', SwapOwner(r.o, t, d), r.i) == TableOf(s, r.o, r.i); }
  }

  lemma {:induction false} SwapImageSize(a: set<Ref>, b: set<Ref>, t: int, d: int)
    requires forall r :: r in a <==> SwapRef(r, t, d) in b
    ensures |a| == |b|
  {
    if a == {} {
      forall x ensures x !in b { SwapTwice(x, t, d); assert SwapRef(x, t, d) !in a; }
      assert b == {};
    } else {
      var x :| x in a;
      forall r ensures r in a - {x} <==> SwapRef(r, t, d) in b - {SwapRef(x, t, d)} {
        SwapTwice(r, t, d);
        SwapTwice(x, t, d);
      }
      SwapImageSize(a - {x}, b - {SwapRef(x, t, d)}, t, d);
    }
  }

  lemma AdoptGood(s: State, t: int, d: int, r: Ref)
    requires Inv(s, {}) && 0 <= t < NR_TASKS && s.task[t].Task? && s.task[t].pgdir == -1 && d in s.building && InRam(d)
    ensures GoodTarget(AdoptDir(s, t, d), {}, r)
  {
    var s', q := AdoptDir(s, t, d), SwapRef(r, t, d);
    AdoptTargets(s, t, d, q);
    SwapTwice(r, t, d);
    assert GoodTarget(s, {}, q);
    if r.Dir? {
      assert DirOf(s', r.o) == DirOf(s, q.o);
      forall k ensures WordAt(s', DirOf(s', r.o), k) == WordAt(s, DirOf(s, q.o), k) {}
    }
  }

  lemma AdoptDirInv(s: State, t: int, d: int)
    requires Inv(s, {}) && 0 <= t < NR_TASKS && s.task[t].Task? && s.task[t].pgdir == -1 && d in s.building && InRam(d)
    ensures Inv(AdoptDir(s, t, d), {})
  {
    var s' := AdoptDir(s, t, d);
    forall r ensures LT(s', {}, r) == LT(s, {}, SwapRef(r, t, d)) {
      AdoptTargets(s, t, d, SwapRef(r, t, d));
      SwapTwice(r, t, d);
    }
    AdoptExclusive(s, t, d);
    forall r ensures GoodTarget(s', {}, r) { AdoptGood(s, t, d, r); }
    forall f | InRam(f) ensures |RefsTo(s', {}, f)| == |RefsTo(s, {}, f)| {
      SwapImageSize(RefsTo(s', {}, f), RefsTo(s, {}, f), t, d);
    }
  }

  lemma AdoptExclusive(s: State, t: int, d: int)
    requires Inv(s, {}) && 0 <= t < NR_TASKS && s.task[t].Task? && s.task[t].pgdir == -1 && d in s.building && InRam(d)
    ensures Exclusive(AdoptDir(s, t, d), {})
  {
    var s' := AdoptDir(s, t, d);
    forall r, q | r != q && LT(s', {}, r) == LT(s', {}, q) != -1 ensures MayShare(s', r, q) {
      var r1, q1 := SwapRef(r, t, d), SwapRef(q, t, d);
      SwapTwice(r, t, d); SwapTwice(q, t, d);
      AdoptTargets(s, t, d, r1); AdoptTargets(s, t, d, q1);
      assert MayShare(s, r1, q1);
    }
  }
}
