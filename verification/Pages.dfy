// Which pages of which address spaces a change can be seen in.
module Pages {
  import opened Options
  import opened Sv32
  import opened Frames
  import opened Steps
  import opened Moves

  ghost predicate PagesExcept(s: State, s': State, o: Owner, i: int, j: int) {
    forall p, k, l :: (p != o || k != i || l != j) ==> SamePage(s, s', p, k, l)
  }

  // Same leaf, and its frame was not written.
  lemma LeafUntouched(s: State, s': State, f: int, o: Owner, i: int, j: int)
    requires |s'.ram| == |s.ram| && forall g :: 0 <= g < |s.ram| && g != f ==> s'.ram[g] == s.ram[g]
    requires LeafOf(s', o, i, j) == LeafOf(s, o, i, j) != f
    ensures PageAt(s', o, i, j) == PageAt(s, o, i, j)
  {}

  lemma LeafIsNotTable(s: State, o: Owner, i: int, p: Owner, k: int, l: int)
    requires Inv(s, {}) && IsRef(Table(o, i)) && TableOf(s, o, i) != -1 && IsRef(Leaf(p, k, l))
    ensures LeafOf(s, p, k, l) != TableOf(s, o, i)
  {
    if LeafOf(s, p, k, l) != -1 {
      assert LT(s, {}, Leaf(p, k, l)) == LeafOf(s, p, k, l);
      assert LT(s, {}, Table(o, i)) == TableOf(s, o, i);
      OneOwner(s, Leaf(p, k, l), Table(o, i));
    }
  }

  lemma LeafIsNotDir(s: State, o: Owner, p: Owner, k: int, l: int)
    requires Inv(s, {}) && IsOwner(o) && DirOf(s, o) != -1 && IsRef(Leaf(p, k, l))
    ensures LeafOf(s, p, k, l) != DirOf(s, o)
  {
    if LeafOf(s, p, k, l) != -1 {
      assert LT(s, {}, Leaf(p, k, l)) == LeafOf(s, p, k, l);
      assert LT(s, {}, Dir(o)) == DirOf(s, o);
      OneOwner(s, Leaf(p, k, l), Dir(o));
    }
  }

  // Writing one leaf word leaves every other page alone.
  lemma LeafWritePages(s: State, o: Owner, i: int, t: int, j: int, w: Word)
    requires Inv(s, {}) && SoleTable(s, o, i, t) && IsRef(Leaf(o, i, j))
    ensures PagesExcept(s, SetWord(s, t, j, w), o, i, j)
    ensures w.v && InRam(FrameOf(w)) && FrameOf(w) != t ==>
      PageAt(SetWord(s, t, j, w), o, i, j) == Some(s.ram[FrameOf(w)])
    ensures LeafWord(SetWord(s, t, j, w), o, i, j) == w
  {
    var s' := SetWord(s, t, j, w);
    TableWrite(s, o, i, t, j, w, Leaf(o, i, j));
    forall p, k, l | (p != o || k != i || l != j) && IsRef(Leaf(p, k, l))
      ensures PageAt(s', p, k, l) == PageAt(s, p, k, l)
    {
      TableWrite(s, o, i, t, j, w, Leaf(p, k, l));
      LeafIsNotTable(s, o, i, p, k, l);
      LeafUntouched(s, s', t, p, k, l);
    }
  }

  // Changing permission bits of a leaf leaves its page alone too.
  lemma FlagWritePages(s: State, o: Owner, i: int, t: int, j: int, w: Word)
    requires Inv(s, {}) && SoleTable(s, o, i, t) && IsRef(Leaf(o, i, j))
    requires WordAt(s, t, j).v && w.v && w.ppn == WordAt(s, t, j).ppn
    ensures SamePages(s, SetWord(s, t, j, w))
  {
    LeafWritePages(s, o, i, t, j, w);
    var s' := SetWord(s, t, j, w);
    assert LeafOf(s', o, i, j) == LeafOf(s, o, i, j);
    LeafIsNotTable(s, o, i, o, i, j);
    LeafUntouched(s, s', t, o, i, j);
    forall p, k, l ensures SamePage(s, s', p, k, l) {}
  }

  lemma DirWritePages(s: State, o: Owner, d: int, i: int, w: Word, p: Owner, k: int, l: int)
    requires Shape(s) && SoleDir(s, o, d) && IsRef(Table(o, i)) && IsRef(Leaf(p, k, l)) && LeafOf(s, p, k, l) != d
    requires p != o || k != i
    ensures PageAt(SetWord(s, d, i, w), p, k, l) == PageAt(s, p, k, l)
  {
    DirWrite(s, o, d, i, w, Leaf(p, k, l));
    LeafUntouched(s, SetWord(s, d, i, w), d, p, k, l);
  }

  lemma InstallTablePages(s: State, o: Owner, d: int, i: int, f: int)
    requires Inv(s, {}) && SoleDir(s, o, d) && IsRef(Table(o, i)) && !WordAt(s, d, i).v
    requires InRam(f) && f in s.held && s.ram[f] == ZeroFrame()
    ensures SamePages(s, InstallTable(s, d, i, f))
  {
    var s' := InstallTable(s, d, i, f);
    InstallTableInv(s, o, d, i, f);
    assert d != f by { HeldSole(s, f, Dir(o)); assert LT(s, {}, Dir(o)) == d; }
    forall p, k, l | IsRef(Leaf(p, k, l)) ensures PageAt(s', p, k, l) == PageAt(s, p, k, l) {
      LeafIsNotDir(s, o, p, k, l);
      if p == o && k == i {
        assert s'.ram[f] == ZeroFrame();
        assert LeafWord(s', o, i, l) == ZERO && LeafWord(s, o, i, l) == ZERO;
      } else {
        DirWritePages(s, o, d, i, TableWord(f), p, k, l);
        assert PageAt(s', p, k, l) == PageAt(SetWord(s, d, i, TableWord(f)), p, k, l);
      }
    }
  }

  // ---- isolation: a store through a writable leaf is seen through that leaf only
  lemma StorePages(s: State, o: Owner, i: int, j: int, p: Frame)
    requires Inv(s, {}) && IsRef(Leaf(o, i, j)) && InRam(LeafOf(s, o, i, j))
    requires LeafWord(s, o, i, j).w || Named(s, LeafOf(s, o, i, j)) == 1
    ensures Inv(SetFrame(s, LeafOf(s, o, i, j), p), {})
    ensures PagesExcept(s, SetFrame(s, LeafOf(s, o, i, j), p), o, i, j)
    ensures PageAt(SetFrame(s, LeafOf(s, o, i, j), p), o, i, j) == Some(p)
  {
    var f := LeafOf(s, o, i, j);
    var s' := SetFrame(s, f, p);
    assert LT(s, {}, Leaf(o, i, j)) == f;
    PlainTarget(s, Leaf(o, i, j));
    StoreInv(s, f, p);
    forall q, k, l | (q != o || k != i || l != j) && IsRef(Leaf(q, k, l))
      ensures PageAt(s', q, k, l) == PageAt(s, q, k, l)
    {
      PlainWrite(s, f, p, Leaf(q, k, l));
      NotShared(s, o, i, j, q, k, l);
      LeafUntouched(s, s', f, q, k, l);
    }
    PlainWrite(s, f, p, Leaf(o, i, j));
  }

  lemma NotShared(s: State, o: Owner, i: int, j: int, q: Owner, k: int, l: int)
    requires Inv(s, {}) && IsRef(Leaf(o, i, j)) && InRam(LeafOf(s, o, i, j))
    requires LeafWord(s, o, i, j).w || Named(s, LeafOf(s, o, i, j)) == 1
    requires IsRef(Leaf(q, k, l)) && (q != o || k != i || l != j)
    ensures LeafOf(s, q, k, l) != LeafOf(s, o, i, j)
  {
    hide TargetsOk, Exclusive, Counted;
    var r, x := Leaf(o, i, j), Leaf(q, k, l);
    assert LT(s, {}, r) == LeafOf(s, o, i, j) && LT(s, {}, x) == LeafOf(s, q, k, l);
    if Named(s, LeafOf(s, o, i, j)) == 1 { CountOneSole(s, r, x); } else { WritableSole(s, r, x); }
  }

  lemma WritableSole(s: State, r: Ref, x: Ref)
    requires Exclusive(s, {}) && r.Leaf? && x != r && LT(s, {}, r) != -1 && LeafWord(s, r.o, r.i, r.j).w
    ensures LT(s, {}, x) != LT(s, {}, r)
  {}

  lemma InstallLeafPages(s: State, o: Owner, i: int, t: int, j: int, f: int, w: Word)
    requires Inv(s, {}) && SoleTable(s, o, i, t) && IsRef(Leaf(o, i, j))
    requires InRam(f) && f in s.held && w.v && FrameOf(w) == f
    ensures PagesExcept(s, InstallLeaf(s, t, j, f, w), o, i, j)
    ensures PageAt(InstallLeaf(s, t, j, f, w), o, i, j) == Some(s.ram[f])
  {
    var s1, s' := SetWord(s, t, j, w), InstallLeaf(s, t, j, f, w);
    assert t != f by { HeldSole(s, f, Table(o, i)); assert LT(s, {}, Table(o, i)) == t; }
    LeafWritePages(s, o, i, t, j, w);
    forall p, k, l ensures PageAt(s', p, k, l) == PageAt(s1, p, k, l) {}
    forall p, k, l | (p != o || k != i || l != j) ensures SamePage(s, s', p, k, l) { assert SamePage(s, s1, p, k, l); }
  }
}
