// un_wp_page (mm/memory.c): the last owner writes in place, a sharer gets a copy.
module Fault {
  import opened Options
  import opened Sv32
  import opened Frames
  import opened Steps
  import opened Moves
  import opened Pages
  import opened Cow

  // ---- un_wp_page, the last owner: the entry just becomes writable
  lemma MakeWritable(s: State, o: Owner, i: int, t: int, j: int)
    requires Inv(s, {}) && SoleTable(s, o, i, t) && IsRef(Leaf(o, i, j)) && WordAt(s, t, j).v
    requires InRam(LeafOf(s, o, i, j)) && s.count[LeafOf(s, o, i, j)] == 1
    ensures var s' := SetWord(s, t, j, WordAt(s, t, j).(w := true));
      Inv(s', {}) && SamePages(s, s') && LeafWord(s', o, i, j) == WordAt(s, t, j).(w := true)
  {
    hide TargetsOk, Exclusive, Counted;
    assert LT(s, {}, Leaf(o, i, j)) == LeafOf(s, o, i, j);
    CountOneNamed(s, Leaf(o, i, j));
    SetWInv(s, o, i, t, j);
    FlagWritePages(s, o, i, t, j, WordAt(s, t, j).(w := true));
    TableWrite(s, o, i, t, j, WordAt(s, t, j).(w := true), Leaf(o, i, j));
  }

  // ---- un_wp_page, a shared page: the entry moves to a private copy in the fresh frame g
  function Privatize(s: State, t: int, j: int, f: int, g: int): State
    requires 0 <= t < |s.ram| && 0 <= j < 1024 && InRam(g) && 0 <= f < |s.count| && f < |s.ram| && g < |s.ram|
  { SetFrame(Unheld(SetWord(Uncount(s, f), t, j, UserRw(g)), g), g, s.ram[f]) }

  lemma PrivatizeInv(s: State, o: Owner, i: int, t: int, j: int, f: int, g: int)
    requires Inv(s, {}) && SoleTable(s, o, i, t) && IsRef(Leaf(o, i, j)) && LeafOf(s, o, i, j) == f && InRam(f)
    requires InRam(g) && g in s.held
    ensures s.count[f] >= 1
    ensures var s' := Privatize(s, t, j, f, g);
      Inv(s', {}) && SamePages(s, s') && LeafWord(s', o, i, j) == UserRw(g)
  {
    hide TargetsOk, Exclusive, Counted;
    CopyLeafInv(s, o, i, t, j, f, g);
    var s1, s2 := Uncount(s, f), Unheld(SetWord(Uncount(s, f), t, j, UserRw(g)), g);
    var s' := Privatize(s, t, j, f, g);
    CountKeepsSole(s, o, i, t, f, s.count[f] - 1);
    TableWrite(s1, o, i, t, j, UserRw(g), Leaf(o, i, j));
    UnheldIsNotTarget(SetWord(s1, t, j, UserRw(g)), g, Leaf(o, i, j));
    assert LeafWord(s2, o, i, j) == UserRw(g) && LT(s2, {}, Leaf(o, i, j)) == g;
    StorePages(s2, o, i, j, s.ram[f]);
    PlainTarget(s2, Leaf(o, i, j));
    PlainWrite(s2, g, s.ram[f], Leaf(o, i, j));
    PrivatizePages(s, s2, o, i, t, j, f, g);
    forall q, k, l ensures SamePage(s, s', q, k, l) {
      if q == o && k == i && l == j { assert PageAt(s', o, i, j) == Some(s.ram[f]); }
      else { assert SamePage(s, s2, q, k, l) && SamePage(s2, s', q, k, l); }
    }
  }

  lemma PrivatizePages(s: State, s2: State, o: Owner, i: int, t: int, j: int, f: int, g: int)
    requires Inv(s, {}) && SoleTable(s, o, i, t) && IsRef(Leaf(o, i, j)) && InRam(f) && InRam(g) && g in s.held
    requires s2 == Unheld(SetWord(Uncount(s, f), t, j, UserRw(g)), g)
    ensures PagesExcept(s, s2, o, i, j)
  {
    LeafWritePages(s, o, i, t, j, UserRw(g));
    var s1 := SetWord(s, t, j, UserRw(g));
    forall q, k, l | (q != o || k != i || l != j) ensures SamePage(s, s2, q, k, l) {
      assert SamePage(s, s1, q, k, l);
      assert PageAt(s2, q, k, l) == PageAt(s1, q, k, l);
    }
  }

  // A store through an unwritable leaf is seen by everyone who shares the frame.
  lemma SharedStoreSeen(s: State, o: Owner, i: int, j: int, p: Frame)
    requires Inv(s, {}) && IsRef(Leaf(o, i, j)) && InRam(LeafOf(s, o, i, j)) && Named(s, LeafOf(s, o, i, j)) != 1
    requires p != s.ram[LeafOf(s, o, i, j)]
    ensures var s' := SetFrame(s, LeafOf(s, o, i, j), p);
      exists q :: IsOwner(q) && q != o && PageAt(s', q, i, j) != PageAt(s, q, i, j)
  {
    var f, r0 := LeafOf(s, o, i, j), Leaf(o, i, j);
    assert LT(s, {}, r0) == f;
    var a := RefsTo(s, {}, f);
    TargetOk(s, r0);
    assert r0 in a;
    assert |a - {r0}| == |a| - 1 && |a| != 1;
    assert a - {r0} != {};
    var r :| r in a - {r0};
    assert MayShare(s, r, r0);
    PlainTarget(s, r0);
    PlainWrite(s, f, p, r);
    assert PageAt(SetFrame(s, f, p), r.o, i, j) == Some(p) && PageAt(s, r.o, i, j) == Some(s.ram[f]);
  }

  lemma AllocKeepsLeaf(s: State, g: int, o: Owner, i: int, j: int)
    requires Inv(s, {}) && InRam(g) && s.count[g] == 0 && IsRef(Leaf(o, i, j)) && TableOf(s, o, i) != -1
    requires InRam(LeafOf(s, o, i, j))
    ensures var s' := Alloc(s, g);
      && SoleTable(s', o, i, TableOf(s, o, i)) && LeafOf(s', o, i, j) == LeafOf(s, o, i, j) != g
      && g != TableOf(s, o, i) && g !in s.held && s'.ram[LeafOf(s, o, i, j)] == s.ram[LeafOf(s, o, i, j)]
      && s'.count[LeafOf(s, o, i, j)] == s.count[LeafOf(s, o, i, j)]
  {
    var s', r := Alloc(s, g), Leaf(o, i, j);
    FreeIsPlain(s, g);
    AllocInv(s, g);
    ZeroCountNoRefs(s, g, r);
    assert LT(s, {}, r) == LeafOf(s, o, i, j);
    TargetOk(s, r);
    PlainWrite(s, g, ZeroFrame(), r);
    PlainWrite(s, g, ZeroFrame(), Table(o, i));
    var s1 := SetFrame(s, g, ZeroFrame());
    assert TableOf(s', o, i) == TableOf(s1, o, i) && LeafOf(s', o, i, j) == LeafOf(s1, o, i, j);
    TableIsSole(s', o, i);
  }

  lemma PrivatizeEntries(s: State, o: Owner, i: int, t: int, j: int, f: int, g: int)
    requires Inv(s, {}) && SoleTable(s, o, i, t) && IsRef(Leaf(o, i, j)) && LeafOf(s, o, i, j) == f && InRam(f)
    requires InRam(g) && g in s.held
    ensures EntriesExcept(s, Privatize(s, t, j, f, g), o, i, j)
  {
    hide TargetsOk, Exclusive, Counted;
    CopyLeafInv(s, o, i, t, j, f, g);
    var s1 := Uncount(s, f);
    var s2 := Unheld(SetWord(s1, t, j, UserRw(g)), g);
    CountKeepsSole(s, o, i, t, f, s.count[f] - 1);
    TableWriteEntries(s1, o, i, t, j, UserRw(g));
    UnheldEntries(s1, SetWord(s1, t, j, UserRw(g)), g, o, i, j);
    TableWrite(s1, o, i, t, j, UserRw(g), Leaf(o, i, j));
    UnheldIsNotTarget(SetWord(s1, t, j, UserRw(g)), g, Leaf(o, i, j));
    assert LT(s2, {}, Leaf(o, i, j)) == g;
    PlainTarget(s2, Leaf(o, i, j));
    forall q, k, l | (q != o || k != i || l != j) ensures SameEntry(s, Privatize(s, t, j, f, g), q, k, l) {
      CountIsNotTarget(s, f, s.count[f] - 1, Leaf(q, k, l));
      assert SameEntry(s1, s2, q, k, l);
      PlainWriteEntries(s2, g, s.ram[f], q, k, l);
    }
  }
}
