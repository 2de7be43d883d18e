// copy_page_tables (mm/memory.c), one shared page and one table at a time.
module Cow {
  import opened Limits
  import opened Sv32
  import opened Frames
  import opened Steps
  import opened Moves
  import opened Pages
  import opened Counting

  ghost function Free(s: State): set<int> { set f | 0 <= f < PAGING_PAGES && f < |s.count| && s.count[f] == 0 }

  // ---- how often a frame can be shared
  ghost function Spaces(s: State): set<Owner> {
    (set t | 0 <= t < NR_TASKS :: Proc(t)) + (set d | d in s.building :: New(d))
  }

  lemma {:induction false} ProcsBound(n: nat)
    ensures |set t | 0 <= t < n :: Proc(t)| <= n
  {
    var a := set t | 0 <= t < n :: Proc(t);
    if n == 0 { assert a == {}; } else {
      ProcsBound(n - 1);
      assert a == (set t | 0 <= t < n - 1 :: Proc(t)) + {Proc(n - 1)};
    }
  }

  lemma {:induction false} NewsBound(a: set<Owner>, b: set<int>)
    requires forall o :: o in a ==> o.New? && o.d in b
    ensures |a| <= |b|
  {
    if a != {} {
      var x :| x in a;
      NewsBound(a - {x}, b - {x.d});
    }
  }

  lemma {:induction false} LeavesBound(a: set<Ref>, os: set<Owner>, i: int, j: int)
    requires forall r :: r in a ==> r.Leaf? && r.i == i && r.j == j && r.o in os
    ensures |a| <= |os|
  {
    if a != {} {
      var x :| x in a;
      LeavesBound(a - {x}, os - {x.o}, i, j);
    }
  }

  // Each address space holds a frame at most once, so a user page is named at most as often as there are address
  // spaces.
  lemma CountBound(s: State, o: Owner, i: int, j: int)
    requires Inv(s, {}) && IsRef(Leaf(o, i, j)) && InRam(LeafOf(s, o, i, j))
    ensures Named(s, LeafOf(s, o, i, j)) <= NR_TASKS + |s.building|
  {
    var f := LeafOf(s, o, i, j);
    var a := RefsTo(s, {}, f);
    assert LT(s, {}, Leaf(o, i, j)) == f;
    TargetOk(s, Leaf(o, i, j));
    forall r | r in a ensures r.Leaf? && r.i == i && r.j == j && r.o in Spaces(s) { LeafSharer(s, o, i, j, r); }
    LeavesBound(a, Spaces(s), i, j);
    ProcsBound(NR_TASKS);
    NewsBound(set d | d in s.building :: New(d), s.building);
  }

  // So a count of 255 is one of 191 references lost.
  lemma FilledLost(s: State, f: int)
    requires Inv(s, {}) && s.building == {} && InRam(f) && s.count[f] >= 255
    ensures s.lost[f] >= 191
  {
    var a := RefsTo(s, {}, f);
    assert f !in s.reserved;
    if r :| r in a && r.Leaf? {
      CountBound(s, r.o, r.i, r.j);
    } else if a != {} {
      var r :| r in a;
      forall q | q in a ensures q == r {
        assert LT(s, {}, q) == LT(s, {}, r) != -1;
        assert q != r ==> MayShare(s, q, r);
      }
      assert a == {r};
    }
  }

  lemma LeafSharer(s: State, o: Owner, i: int, j: int, r: Ref)
    requires Inv(s, {}) && IsRef(Leaf(o, i, j)) && InRam(LeafOf(s, o, i, j)) && LT(s, {}, r) == LeafOf(s, o, i, j)
    ensures r.Leaf? && r.i == i && r.j == j && r.o in Spaces(s)
  {
    assert LT(s, {}, Leaf(o, i, j)) == LeafOf(s, o, i, j);
    if r != Leaf(o, i, j) { assert MayShare(s, r, Leaf(o, i, j)); }
    assert IsRef(r) && LeafOf(s, r.o, i, j) != -1;
    assert DirOf(s, r.o) != -1;
  }

  // ---- one shared page: the inner step of copy_page_tables
  function CowShare(s: State, t1: int, t2: int, j: int): State
    requires 0 <= t1 < |s.ram| && 0 <= t2 < |s.ram| && 0 <= j < 1024 && 0 <= FrameOf(s.ram[t1][j]) < |s.count|
  {
    var w := s.ram[t1][j].(w := false);
    Share(SetWord(s, t1, j, w), t2, j, w, FrameOf(w))
  }

  lemma CowShareInv(s: State, o: Owner, p: Owner, i: int, t1: int, t2: int, j: int)
    requires Inv(s, {}) && SoleTable(s, o, i, t1) && SoleTable(s, p, i, t2) && o != p
    requires IsRef(Leaf(o, i, j)) && IsRef(Leaf(p, i, j)) && s.ram[t1][j].v && !s.ram[t2][j].v
    ensures InRam(FrameOf(s.ram[t1][j])) && s.count[FrameOf(s.ram[t1][j])] != 0
    ensures var s' := CowShare(s, t1, t2, j);
      Inv(s', {}) && SoleTable(s', o, i, t1) && SoleTable(s', p, i, t2)
  {
    hide TargetsOk, Exclusive, Counted, SoleTable;
    SoleWord(s, o, i, t1, j);
    SoleWord(s, p, i, t2, j);
    LeafInRam(s, o, i, j);
    var w := s.ram[t1][j].(w := false);
    var s1 := SetWord(s, t1, j, w);
    TablesDiffer(s, o, p, i, t1, t2);
    ClearWInv(s, o, i, t1, j);
    TableStillSole(s, o, i, t1, j, w);
    OtherStillSole(s, o, i, t1, j, w, p, t2);
    TableWrite(s, o, i, t1, j, w, Leaf(o, i, j));
    ShareInv(s1, o, p, i, t2, j);
    var s2 := SetWord(s1, t2, j, w);
    TableStillSole(s1, p, i, t2, j, w);
    OtherStillSole(s1, p, i, t2, j, w, o, t1);
    CountKeepsSole(s2, o, i, t1, FrameOf(w), s2.count[FrameOf(w)] + 1);
    CountKeepsSole(s2, p, i, t2, FrameOf(w), s2.count[FrameOf(w)] + 1);
  }

  lemma SoleWord(s: State, o: Owner, i: int, t: int, j: int)
    requires Shape(s) && SoleTable(s, o, i, t) && 0 <= j < 1024
    ensures InRam(t) && LeafWord(s, o, i, j) == s.ram[t][j] == WordAt(s, t, j)
  {}

  lemma LeafInRam(s: State, o: Owner, i: int, j: int)
    requires Inv(s, {}) && IsRef(Leaf(o, i, j)) && LeafWord(s, o, i, j).v
    ensures InRam(LeafOf(s, o, i, j)) && s.count[LeafOf(s, o, i, j)] != 0
  {
    var r := Leaf(o, i, j);
    assert LT(s, {}, r) == LeafOf(s, o, i, j);
    TargetOk(s, r);
    KillInv(s, {}, r);
  }

  lemma TablesDiffer(s: State, o: Owner, p: Owner, i: int, t1: int, t2: int)
    requires SoleTable(s, o, i, t1) && SoleTable(s, p, i, t2) && o != p && IsOwner(o) && 0 <= i < 512
    ensures t1 != t2
  {}

  lemma OtherStillSole(s: State, o: Owner, i: int, t: int, j: int, w: Word, p: Owner, t2: int)
    requires Shape(s) && SoleTable(s, o, i, t) && IsRef(Leaf(o, i, j)) && SoleTable(s, p, i, t2) && IsOwner(p)
    requires t != t2
    ensures SoleTable(SetWord(s, t, j, w), p, i, t2)
  {
    var s' := SetWord(s, t, j, w);
    forall q | IsOwner(q) ensures DirOf(s', q) != t2 { TableWrite(s, o, i, t, j, w, Dir(q)); }
    forall q, k | IsOwner(q) && 0 <= k < 512 ensures TableOf(s', q, k) == TableOf(s, q, k) {
      TableWrite(s, o, i, t, j, w, Table(q, k));
    }
  }

  lemma CowSharePages(s: State, o: Owner, p: Owner, i: int, t1: int, t2: int, j: int)
    requires Inv(s, {}) && SoleTable(s, o, i, t1) && SoleTable(s, p, i, t2) && o != p
    requires IsRef(Leaf(o, i, j)) && IsRef(Leaf(p, i, j)) && s.ram[t1][j].v && !s.ram[t2][j].v
    ensures InRam(FrameOf(s.ram[t1][j]))
    ensures var s' := CowShare(s, t1, t2, j);
      PagesExcept(s, s', p, i, j) && PageAt(s', p, i, j) == PageAt(s, o, i, j)
  {
    hide TargetsOk, Exclusive, Counted, SoleTable;
    SoleWord(s, o, i, t1, j);
    SoleWord(s, p, i, t2, j);
    LeafInRam(s, o, i, j);
    var w := s.ram[t1][j].(w := false);
    var f := FrameOf(w);
    var s1 := SetWord(s, t1, j, w);
    TablesDiffer(s, o, p, i, t1, t2);
    ClearWInv(s, o, i, t1, j);
    FlagWritePages(s, o, i, t1, j, w);
    OtherStillSole(s, o, i, t1, j, w, p, t2);
    LeafIsNotTable(s1, p, i, o, i, j) by { TableWrite(s, o, i, t1, j, w, Leaf(o, i, j)); }
    TableWrite(s, o, i, t1, j, w, Leaf(o, i, j));
    LeafWritePages(s1, p, i, t2, j, w);
    var s2, s' := SetWord(s1, t2, j, w), CowShare(s, t1, t2, j);
    forall q, k, l ensures PageAt(s', q, k, l) == PageAt(s2, q, k, l) {
      CountIsNotTarget(s2, f, s2.count[f] + 1, Leaf(q, k, l));
    }
    forall q, k, l | (q != p || k != i || l != j) ensures SamePage(s, s', q, k, l) {
      assert SamePage(s, s1, q, k, l) && SamePage(s1, s2, q, k, l);
    }
    assert SamePage(s, s1, o, i, j);
    assert LeafOf(s1, o, i, j) == f;
  }

  // ---- the inner loop of copy_page_tables, as a state invariant
  // Entries below j have been shared from o's table t1 into p's table t2; nothing else has moved.
  ghost predicate Copying(s0: State, s: State, o: Owner, p: Owner, i: int, t1: int, t2: int, j: int) {
    && Inv(s, {}) && SoleTable(s, o, i, t1) && SoleTable(s, p, i, t2)
    && s == s0.(count := s.count, ram := s.ram) && Free(s) == Free(s0)
    && |s0.ram| == PAGING_PAGES && |s0.count| == PAGING_PAGES && InRam(t1) && InRam(t2)
    && (forall l :: j <= l < 1024 ==> !WordAt(s, t2, l).v)
    && (forall l :: 0 <= l < j ==> PageAt(s, p, i, l) == PageAt(s0, o, i, l))
    && (forall q, k, l :: q != p || k != i ==> SamePage(s0, s, q, k, l))
    && (forall g :: InRam(g) && g != t1 && g != t2 ==> s.ram[g] == s0.ram[g])
    && (forall l :: WordAt(s, t1, l).v == WordAt(s0, t1, l).v)
  }

  lemma CopyPagesStep(s0: State, s: State, s': State, o: Owner, p: Owner, i: int, t1: int, t2: int, j: int)
    requires Copying(s0, s, o, p, i, t1, t2, j) && IsRef(Leaf(o, i, j)) && IsRef(Leaf(p, i, j)) && o != p
    requires PagesExcept(s, s', p, i, j) && PageAt(s', p, i, j) == PageAt(s, o, i, j)
    ensures forall l :: 0 <= l < j + 1 ==> PageAt(s', p, i, l) == PageAt(s0, o, i, l)
    ensures forall q, k, l :: q != p || k != i ==> SamePage(s0, s', q, k, l)
  {
    hide Inv, SoleTable, Free;
    assert SamePage(s0, s, o, i, j);
    forall l | 0 <= l < j ensures PageAt(s', p, i, l) == PageAt(s0, o, i, l) { assert SamePage(s, s', p, i, l); }
    forall q, k, l | q != p || k != i ensures SamePage(s0, s', q, k, l) {
      assert SamePage(s0, s, q, k, l) && SamePage(s, s', q, k, l);
    }
  }

  lemma CopyRamStep(s0: State, s: State, t1: int, t2: int, j: int)
    requires InRam(t1) && InRam(t2) && t1 != t2 && 0 <= j < 1024
    requires |s.ram| == |s0.ram| == PAGING_PAGES == |s.count| == |s0.count|
    requires s == s0.(count := s.count, ram := s.ram) && Free(s) == Free(s0)
    requires s.ram[t1][j].v && InRam(FrameOf(s.ram[t1][j])) && s.count[FrameOf(s.ram[t1][j])] > 0
    requires forall l :: j <= l < 1024 ==> !WordAt(s, t2, l).v
    requires forall g :: InRam(g) && g != t1 && g != t2 ==> s.ram[g] == s0.ram[g]
    requires forall l :: WordAt(s, t1, l).v == WordAt(s0, t1, l).v
    ensures var s' := CowShare(s, t1, t2, j);
      && s' == s0.(count := s'.count, ram := s'.ram) && Free(s') == Free(s0)
      && (forall l :: j + 1 <= l < 1024 ==> !WordAt(s', t2, l).v)
      && (forall g :: InRam(g) && g != t1 && g != t2 ==> s'.ram[g] == s0.ram[g])
      && (forall l :: WordAt(s', t1, l).v == WordAt(s0, t1, l).v)
  {
    var s' := CowShare(s, t1, t2, j);
    var f := FrameOf(s.ram[t1][j]);
    assert s'.count == s.count[f := s.count[f] + 1];
    assert Free(s') == Free(s);
    forall l | j + 1 <= l < 1024 ensures !WordAt(s', t2, l).v { assert !WordAt(s, t2, l).v; }
    forall l ensures WordAt(s', t1, l).v == WordAt(s0, t1, l).v { assert WordAt(s, t1, l).v == WordAt(s0, t1, l).v; }
  }

  // ---- no count goes up twice in one fork
  predicate OfOwner(r: Ref, p: Owner) { (r.Leaf? || r.Table?) && r.o == p }

  // A count that has gone up since s0 has gone up by one, for a leaf or a table of p.
  ghost predicate Bumped(s0: State, s: State, p: Owner) {
    && |s0.count| == |s.count| == PAGING_PAGES
    && forall f :: InRam(f) && s.count[f] > s0.count[f] ==> BumpedOnce(s0, s, p, f)
  }

  ghost predicate BumpedOnce(s0: State, s: State, p: Owner, f: int)
    requires 0 <= f < |s0.count| && f < |s.count|
  { s.count[f] == s0.count[f] + 1 && exists r :: OfOwner(r, p) && LT(s, {}, r) == f }

  ghost predicate Unfilled(s: State) { forall f :: 0 <= f < |s.count| ==> s.count[f] < 255 }

  // So a page that is about to be shared has the count that it had at first.
  lemma NotBumped(s0: State, s: State, o: Owner, p: Owner, i: int, j: int)
    requires Inv(s, {}) && Bumped(s0, s, p) && o != p && IsRef(Leaf(o, i, j)) && IsRef(Leaf(p, i, j))
    requires LeafWord(s, o, i, j).v && !LeafWord(s, p, i, j).v && InRam(LeafOf(s, o, i, j))
    ensures s.count[LeafOf(s, o, i, j)] <= s0.count[LeafOf(s, o, i, j)]
  {
    var f, x := LeafOf(s, o, i, j), Leaf(o, i, j);
    assert LT(s, {}, x) == f;
    forall r | OfOwner(r, p) ensures LT(s, {}, r) != f {
      if LT(s, {}, r) == f { SharedPlace(s, x, r); }
    }
  }

  lemma SharedPlace(s: State, x: Ref, r: Ref)
    requires Exclusive(s, {}) && x != r && LT(s, {}, x) == LT(s, {}, r) != -1
    ensures MayShare(s, x, r)
  {}

  lemma BumpedShare(s0: State, s: State, o: Owner, p: Owner, i: int, t1: int, t2: int, j: int)
    requires Inv(s, {}) && SoleTable(s, o, i, t1) && SoleTable(s, p, i, t2) && o != p && Bumped(s0, s, p)
    requires IsRef(Leaf(o, i, j)) && IsRef(Leaf(p, i, j)) && s.ram[t1][j].v && !s.ram[t2][j].v
    ensures InRam(FrameOf(s.ram[t1][j])) && s.count[FrameOf(s.ram[t1][j])] <= s0.count[FrameOf(s.ram[t1][j])]
    ensures Bumped(s0, CowShare(s, t1, t2, j), p)
  {
    hide TargetsOk, Exclusive, Counted, SoleTable, BumpedOnce;
    SoleWord(s, o, i, t1, j);
    SoleWord(s, p, i, t2, j);
    LeafInRam(s, o, i, j);
    NotBumped(s0, s, o, p, i, j);
    CowShareTargets(s, o, p, i, t1, t2, j);
    var s', f := CowShare(s, t1, t2, j), FrameOf(s.ram[t1][j]);
    assert s'.count == s.count[f := s.count[f] + 1];
    assert LT(s', {}, Leaf(p, i, j)) == f && LT(s, {}, Leaf(p, i, j)) == -1;
    forall g | InRam(g) && s'.count[g] > s0.count[g] ensures BumpedOnce(s0, s', p, g) {
      if g == f { NowBumped(s0, s', p, f, Leaf(p, i, j)); }
      else { StillBumped(s0, s, s', p, g, Leaf(p, i, j)); }
    }
  }

  lemma NowBumped(s0: State, s: State, p: Owner, f: int, r: Ref)
    requires 0 <= f < |s0.count| && f < |s.count| && s.count[f] == s0.count[f] + 1 && OfOwner(r, p) && LT(s, {}, r) == f
    ensures BumpedOnce(s0, s, p, f)
  {}

  lemma StillBumped(s0: State, s: State, s': State, p: Owner, f: int, r0: Ref)
    requires 0 <= f < |s0.count| && f < |s.count| && f < |s'.count| && s'.count[f] == s.count[f] && LT(s, {}, r0) == -1
    requires BumpedOnce(s0, s, p, f) && forall r :: r != r0 ==> LT(s', {}, r) == LT(s, {}, r)
    ensures BumpedOnce(s0, s', p, f)
  {
    var r :| OfOwner(r, p) && LT(s, {}, r) == f;
    assert LT(s', {}, r) == f;
  }

  lemma CowShareTargets(s: State, o: Owner, p: Owner, i: int, t1: int, t2: int, j: int)
    requires Inv(s, {}) && SoleTable(s, o, i, t1) && SoleTable(s, p, i, t2) && o != p
    requires IsRef(Leaf(o, i, j)) && IsRef(Leaf(p, i, j)) && s.ram[t1][j].v && InRam(FrameOf(s.ram[t1][j]))
    ensures forall r :: r != Leaf(p, i, j) ==> LT(CowShare(s, t1, t2, j), {}, r) == LT(s, {}, r)
    ensures LeafWord(CowShare(s, t1, t2, j), p, i, j) == s.ram[t1][j].(w := false)
  {
    hide TargetsOk, Exclusive, Counted, SoleTable;
    SoleWord(s, o, i, t1, j);
    SoleWord(s, p, i, t2, j);
    var w := s.ram[t1][j].(w := false);
    var s1 := SetWord(s, t1, j, w);
    TablesDiffer(s, o, p, i, t1, t2);
    ClearWInv(s, o, i, t1, j);
    OtherStillSole(s, o, i, t1, j, w, p, t2);
    ClearWTargets(s, o, i, t1, j);
    ShareKept(s1, p, i, t2, j, w, FrameOf(w));
    hide LT, LeafWord;
    forall r | r != Leaf(p, i, j) ensures LT(CowShare(s, t1, t2, j), {}, r) == LT(s, {}, r) {
      assert Kept(s1, {}, CowShare(s, t1, t2, j), {}, r);
    }
  }

  lemma ClearWTargets(s: State, o: Owner, i: int, t: int, j: int)
    requires Inv(s, {}) && SoleTable(s, o, i, t) && IsRef(Leaf(o, i, j)) && WordAt(s, t, j).v
    ensures forall r :: LT(SetWord(s, t, j, WordAt(s, t, j).(w := false)), {}, r) == LT(s, {}, r)
  {
    hide TargetsOk, Exclusive, Counted;
    var w := WordAt(s, t, j).(w := false);
    var s' := SetWord(s, t, j, w);
    LeafWriteKept(s, o, i, t, j, w);
    forall r ensures LT(s', {}, r) == LT(s, {}, r) {
      if r != Leaf(o, i, j) { assert Kept(s, {}, s', {}, r); }
    }
  }

  lemma BumpedTable(s0: State, s: State, f: int, p: Owner, d: int, i: int)
    requires Inv(s, {}) && InRam(f) && s.count[f] == 0 && IsRef(Table(p, i)) && SoleDir(s, p, d) && !WordAt(s, d, i).v
    requires Bumped(s0, s, p) && s0.count[f] >= 0
    ensures Bumped(s0, InstallTable(Alloc(s, f), d, i, f), p)
  {
    hide TargetsOk, Exclusive, Counted, BumpedOnce;
    var s1, s' := Alloc(s, f), InstallTable(Alloc(s, f), d, i, f);
    NewTableTargets(s, f, p, d, i);
    forall g | InRam(g) && s'.count[g] > s0.count[g] ensures BumpedOnce(s0, s', p, g) {
      if g == f { NowBumped(s0, s', p, f, Table(p, i)); }
      else { StillBumped(s0, s, s', p, g, Table(p, i)); }
    }
  }

  lemma NewTableTargets(s: State, f: int, o: Owner, d: int, i: int)
    requires Inv(s, {}) && InRam(f) && s.count[f] == 0 && IsRef(Table(o, i)) && SoleDir(s, o, d) && !WordAt(s, d, i).v
    ensures forall r :: r != Table(o, i) ==> LT(InstallTable(Alloc(s, f), d, i, f), {}, r) == LT(s, {}, r)
    ensures LT(InstallTable(Alloc(s, f), d, i, f), {}, Table(o, i)) == f && LT(s, {}, Table(o, i)) == -1
  {
    hide TargetsOk, Exclusive, Counted;
    var s1 := Alloc(s, f);
    FreeIsPlain(s, f);
    AllocInv(s, f);
    AllocSole(s, f, o, d);
    InstallTableInv(s1, o, d, i, f);
    AllocTargets(s, f);
    forall r | r != Table(o, i) ensures LT(InstallTable(s1, d, i, f), {}, r) == LT(s, {}, r) {
      if r != Held(f) { InstallTableKeeps(s1, o, d, i, f, r); }
    }
  }

  lemma AllocTargets(s: State, f: int)
    requires Inv(s, {}) && InRam(f) && s.count[f] == 0
    ensures forall r :: r != Held(f) ==> LT(Alloc(s, f), {}, r) == LT(s, {}, r)
  {
    hide TargetsOk, Exclusive, Counted;
    FreeIsPlain(s, f);
    forall r | r != Held(f) && IsRef(r) ensures LT(Alloc(s, f), {}, r) == LT(s, {}, r) {
      PlainWrite(s, f, ZeroFrame(), r);
      assert Same(SetFrame(s, f, ZeroFrame()), Alloc(s, f), r);
    }
  }

  // ---- the child's entries are the parent's
  ghost predicate Mirrored(s: State, t1: int, t2: int, j: int) {
    forall l :: 0 <= l < j && WordAt(s, t1, l).v ==> WordAt(s, t2, l) == WordAt(s, t1, l) && !WordAt(s, t1, l).w
  }

  lemma MirroredShare(s: State, t1: int, t2: int, j: int)
    requires Mirrored(s, t1, t2, j) && InRam(t1) && InRam(t2) && t1 != t2 && 0 <= j < 1024 && |s.ram| == PAGING_PAGES
    requires 0 <= FrameOf(s.ram[t1][j]) < |s.count|
    ensures Mirrored(CowShare(s, t1, t2, j), t1, t2, j + 1)
  {
    var s' := CowShare(s, t1, t2, j);
    forall l | 0 <= l < j + 1 && WordAt(s', t1, l).v
      ensures WordAt(s', t2, l) == WordAt(s', t1, l) && !WordAt(s', t1, l).w
    {
      if l < j { assert WordAt(s', t1, l) == WordAt(s, t1, l) && WordAt(s', t2, l) == WordAt(s, t2, l); }
    }
  }

  // The same entries, as far as a fork has come.
  ghost predicate Twins(s: State, o: Owner, p: Owner, i: int) {
    forall k, l :: 0 <= k < i && 0 <= l < 1024 ==> Twin(s, o, p, k, l)
  }

  ghost predicate Twin(s: State, o: Owner, p: Owner, k: int, l: int) {
    LeafWord(s, o, k, l).v ==> LeafWord(s, p, k, l) == LeafWord(s, o, k, l) && !LeafWord(s, o, k, l).w
  }

  lemma TwinsStep(s: State, s1: State, s2: State, o: Owner, p: Owner, i: int)
    requires Twins(s, o, p, i) && IsOwner(o) && IsOwner(p) && 0 <= i < 512
    requires forall q, k, l :: SameEntry(s, s1, q, k, l)
    requires forall q, k, l :: k != i ==> SameEntry(s1, s2, q, k, l)
    requires forall l :: 0 <= l < 1024 ==> Twin(s2, o, p, i, l)
    ensures Twins(s2, o, p, i + 1)
  {
    hide LeafWord;
    forall k, l | 0 <= k < i + 1 && 0 <= l < 1024 ensures Twin(s2, o, p, k, l) {
      if k < i {
        assert Twin(s, o, p, k, l);
        assert SameEntry(s, s1, o, k, l) && SameEntry(s, s1, p, k, l);
        assert SameEntry(s1, s2, o, k, l) && SameEntry(s1, s2, p, k, l);
      }
    }
  }

  lemma TwinsSkip(s: State, o: Owner, p: Owner, i: int)
    requires Twins(s, o, p, i) && TableOf(s, o, i) == -1
    ensures Twins(s, o, p, i + 1)
  {
    forall k, l | 0 <= k < i + 1 && 0 <= l < 1024 ensures Twin(s, o, p, k, l) {
      if k < i { assert Twin(s, o, p, k, l); }
    }
  }

  // Only the frames of two tables have been written.
  lemma TwoTables(s: State, s': State, o: Owner, p: Owner, i: int, t1: int, t2: int)
    requires SoleTable(s, o, i, t1) && SoleTable(s, p, i, t2) && s' == s.(count := s'.count, ram := s'.ram)
    requires |s.ram| == |s'.ram| == PAGING_PAGES && forall g :: InRam(g) && g != t1 && g != t2 ==> s'.ram[g] == s.ram[g]
    requires IsOwner(o) && IsOwner(p) && 0 <= i < 512
    ensures forall q, k, l :: k != i ==> SameEntry(s, s', q, k, l)
    ensures TableOf(s', o, i) == t1 && TableOf(s', p, i) == t2
  {
    forall q | IsOwner(q) ensures DirOf(s', q) == DirOf(s, q) && DirOf(s, q) != t1 && DirOf(s, q) != t2 {}
    forall q, k | IsOwner(q) && 0 <= k < 512 ensures TableOf(s', q, k) == TableOf(s, q, k) {}
    forall q, k, l | k != i ensures SameEntry(s, s', q, k, l) {
      if IsRef(Leaf(q, k, l)) { assert TableOf(s, q, k) != t1 && TableOf(s, q, k) != t2; }
    }
  }

  lemma CopyStep(s0: State, s: State, o: Owner, p: Owner, i: int, t1: int, t2: int, j: int)
    requires Copying(s0, s, o, p, i, t1, t2, j) && IsRef(Leaf(o, i, j)) && IsRef(Leaf(p, i, j)) && o != p
    requires s.ram[t1][j].v
    ensures InRam(FrameOf(s.ram[t1][j])) && 0 < s.count[FrameOf(s.ram[t1][j])] && !s.ram[t2][j].v
    ensures Copying(s0, CowShare(s, t1, t2, j), o, p, i, t1, t2, j + 1)
  {
    hide TargetsOk, Exclusive, Counted, SamePage, PageAt, SoleTable, CowShare;
    SoleWord(s, o, i, t1, j);
    SoleWord(s, p, i, t2, j);
    TablesDiffer(s, o, p, i, t1, t2);
    KillCount(s, o, i, j);
    CowShareInv(s, o, p, i, t1, t2, j);
    CowSharePages(s, o, p, i, t1, t2, j);
    CopyPagesStep(s0, s, CowShare(s, t1, t2, j), o, p, i, t1, t2, j);
    CopyRamStep(s0, s, t1, t2, j);
  }

  lemma KillCount(s: State, o: Owner, i: int, j: int)
    requires Inv(s, {}) && IsRef(Leaf(o, i, j)) && LeafWord(s, o, i, j).v
    ensures InRam(LeafOf(s, o, i, j)) && s.count[LeafOf(s, o, i, j)] > 0
  {
    LeafInRam(s, o, i, j);
    assert LT(s, {}, Leaf(o, i, j)) == LeafOf(s, o, i, j);
    KillInv(s, {}, Leaf(o, i, j));
  }

  lemma CopySkip(s0: State, s: State, o: Owner, p: Owner, i: int, t1: int, t2: int, j: int)
    requires Copying(s0, s, o, p, i, t1, t2, j) && IsRef(Leaf(o, i, j)) && IsRef(Leaf(p, i, j)) && o != p
    requires !WordAt(s, t1, j).v
    ensures Copying(s0, s, o, p, i, t1, t2, j + 1)
  {
    assert SamePage(s0, s, o, i, j);
    assert LeafOf(s, o, i, j) == -1 && LeafOf(s, p, i, j) == -1;
  }

  lemma CopyDone(s0: State, s: State, o: Owner, p: Owner, i: int, t1: int, t2: int)
    requires Copying(s0, s, o, p, i, t1, t2, 1024)
    ensures Inv(s, {}) && Free(s) == Free(s0)
    ensures forall l :: 0 <= l < 1024 ==> PageAt(s, p, i, l) == PageAt(s0, o, i, l)
    ensures forall q, k, l :: q != p || k != i ==> SamePage(s0, s, q, k, l)
    ensures forall g :: InRam(g) && g != t1 && g != t2 ==> s.ram[g] == s0.ram[g]
  {}

  // A fresh zeroed table goes into directory entry i.
  lemma NewTableStep(s: State, f: int, o: Owner, d: int, i: int)
    requires Inv(s, {}) && InRam(f) && s.count[f] == 0 && IsRef(Table(o, i)) && SoleDir(s, o, d) && !WordAt(s, d, i).v
    ensures var s' := InstallTable(Alloc(s, f), d, i, f);
      && Inv(s', {}) && SamePages(s, s') && s'.held == s.held && SoleTable(s', o, i, f)
      && (forall j :: 0 <= j < 1024 ==> WordAt(s', f, j) == ZERO)
      && (forall g :: g in s.held && InRam(g) ==> s'.ram[g] == s.ram[g])
      && (forall g :: 0 <= g < PAGING_PAGES && g != d && g != f ==> s'.ram[g] == s.ram[g])
  {
    hide TargetsOk, Exclusive, Counted;
    var s1 := Alloc(s, f);
    var s' := InstallTable(s1, d, i, f);
    AllocInv(s, f);
    AllocSole(s, f, o, d);
    FreeIsPlain(s, f);
    InstallTableInv(s1, o, d, i, f);
    InstallTablePages(s1, o, d, i, f);
    HeldNotDir(s, o);
    assert s'.held == s.held;
    TableIsSole(s', o, i);
    forall p, k, l ensures SamePage(s, s', p, k, l) { assert SamePage(s, s1, p, k, l) && SamePage(s1, s', p, k, l); }
  }

  lemma HeldNotDir(s: State, o: Owner)
    requires Inv(s, {}) && IsOwner(o) && DirOf(s, o) != -1
    ensures DirOf(s, o) !in s.held
  {
    var d := DirOf(s, o);
    assert LT(s, {}, Dir(o)) == d;
    if d in s.held { TargetOk(s, Dir(o)); HeldSole(s, d, Dir(o)); }
  }

  lemma AllocSole(s: State, f: int, o: Owner, d: int)
    requires Inv(s, {}) && InRam(f) && s.count[f] == 0 && SoleDir(s, o, d) && IsOwner(o)
    ensures SoleDir(Alloc(s, f), o, d) && d != f && Alloc(s, f).ram[d] == s.ram[d]
  {
    FreeIsPlain(s, f);
    var s' := Alloc(s, f);
    forall q | IsOwner(q) ensures DirOf(s', q) == DirOf(s, q) { }
    forall q, k | IsOwner(q) && 0 <= k < 512 ensures TableOf(s', q, k) == TableOf(s, q, k) { }
  }

  // ---- the outer loop of copy_page_tables
  ghost function TablesBelow(s: State, d: int, n: int): set<int> { set k | 0 <= k < n && WordAt(s, d, k).v }

  // What one finished table copy, s to s', tells about the two states.
  ghost predicate TableCopied(s: State, s': State, o: Owner, p: Owner, i: int, t1: int, t2: int) {
    && |s.ram| == PAGING_PAGES && Inv(s', {}) && Free(s') == Free(s) && s' == s.(count := s'.count, ram := s'.ram)
    && (forall l :: 0 <= l < 1024 ==> PageAt(s', p, i, l) == PageAt(s, o, i, l))
    && (forall q, k, l :: q != p || k != i ==> SamePage(s, s', q, k, l))
    && (forall g :: InRam(g) && g != t1 && g != t2 ==> s'.ram[g] == s.ram[g])
  }

  // Directory entries below i have been copied from o to p.
  ghost predicate Dup(s0: State, s: State, o: Owner, p: Owner, d1: int, d2: int, i: int) {
    && Inv(s, {}) && s == s0.(count := s.count, ram := s.ram)
    && InRam(d1) && InRam(d2) && DirOf(s, o) == d1 && DirOf(s, p) == d2 && |s0.ram| == PAGING_PAGES
    && s.ram[d1] == s0.ram[d1]
    && (forall k :: i <= k < 512 ==> !WordAt(s, d2, k).v)
    && (forall k, l :: 0 <= k < i && 0 <= l < 1024 ==> PageAt(s, p, k, l) == PageAt(s0, o, k, l))
    && (forall q, k, l :: q != p ==> SamePage(s0, s, q, k, l))
  }

  ghost predicate DupCount(s0: State, s: State, p: Owner, d1: int, i: int) {
    && |Free(s)| == |Free(s0)| - |TablesBelow(s0, d1, i)|
    && (TablesBelow(s0, d1, i) == {} ==> s == s0)
    && (TablesBelow(s0, d1, i) != {} ==> exists k :: 0 <= k < 512 && TableOf(s, p, k) != -1)
  }

  lemma DupStep(s0: State, s: State, s2: State, o: Owner, p: Owner, d1: int, d2: int, i: int, f: int)
    requires Dup(s0, s, o, p, d1, d2, i) && IsOwner(o) && IsOwner(p) && o != p && 0 <= i < 512
    requires WordAt(s, d1, i).v && InRam(f) && s.count[f] == 0
    requires TableCopied(InstallTable(Alloc(s, f), d2, i, f), s2, o, p, i, TableOf(s, o, i), f)
    ensures Dup(s0, s2, o, p, d1, d2, i + 1) && TableOf(s2, p, i) == f
  {
    hide TargetsOk, Exclusive, Counted;
    var s1 := InstallTable(Alloc(s, f), d2, i, f);
    DirIsSole(s, p);
    NewTableStep(s, f, p, d2, i);
    DirsAreApart(s, o, p, i, f, d1, d2);
    assert s2.ram[d1] == s1.ram[d1] == s.ram[d1];
    forall k | i + 1 <= k < 512 ensures !WordAt(s2, d2, k).v {
      assert !WordAt(s, d2, k).v;
      assert s2.ram[d2] == s1.ram[d2];
    }
    DupPages(s0, s, s1, s2, o, p, i);
  }

  lemma DirsAreApart(s: State, o: Owner, p: Owner, i: int, f: int, d1: int, d2: int)
    requires Inv(s, {}) && IsOwner(o) && IsOwner(p) && o != p && 0 <= i < 512 && DirOf(s, o) == d1 != -1
    requires DirOf(s, p) == d2 != -1
    requires InRam(f) && s.count[f] == 0 && TableOf(s, o, i) != -1
    ensures d1 != d2 && d1 != f && d2 != f && d1 != TableOf(s, o, i) && d2 != TableOf(s, o, i) && f != TableOf(s, o, i)
  {
    DirsApart(s, o, i);
    DirIsSole(s, p);
    FreeIsPlain(s, f);
  }

  lemma DupPages(s0: State, s: State, s1: State, s2: State, o: Owner, p: Owner, i: int)
    requires IsOwner(o) && IsOwner(p) && o != p && 0 <= i < 512
    requires SamePages(s, s1)
    requires forall l :: 0 <= l < 1024 ==> PageAt(s2, p, i, l) == PageAt(s1, o, i, l)
    requires forall q, k, l :: q != p || k != i ==> SamePage(s1, s2, q, k, l)
    requires forall k, l :: 0 <= k < i && 0 <= l < 1024 ==> PageAt(s, p, k, l) == PageAt(s0, o, k, l)
    requires forall q, k, l :: q != p ==> SamePage(s0, s, q, k, l)
    ensures forall k, l :: 0 <= k < i + 1 && 0 <= l < 1024 ==> PageAt(s2, p, k, l) == PageAt(s0, o, k, l)
    ensures forall q, k, l :: q != p ==> SamePage(s0, s2, q, k, l)
  {
    hide PageAt;
    forall q, k, l | q != p ensures SamePage(s0, s2, q, k, l) {
      assert SamePage(s0, s, q, k, l) && SamePage(s, s1, q, k, l) && SamePage(s1, s2, q, k, l);
    }
    forall k, l | 0 <= k < i + 1 && 0 <= l < 1024 ensures PageAt(s2, p, k, l) == PageAt(s0, o, k, l) {
      if k == i { assert SamePage(s, s1, o, i, l) && SamePage(s0, s, o, i, l); }
      else { assert SamePage(s1, s2, p, k, l) && SamePage(s, s1, p, k, l); }
    }
  }

  lemma DupSkip(s0: State, s: State, o: Owner, p: Owner, d1: int, d2: int, i: int)
    requires Dup(s0, s, o, p, d1, d2, i) && IsOwner(o) && IsOwner(p) && o != p && 0 <= i < 512 && !WordAt(s, d1, i).v
    ensures Dup(s0, s, o, p, d1, d2, i + 1)
    ensures TablesBelow(s0, d1, i + 1) == TablesBelow(s0, d1, i)
  {}

  lemma DupCountStep(s0: State, s: State, s2: State, p: Owner, d1: int, d2: int, i: int, f: int)
    requires DupCount(s0, s, p, d1, i) && 0 <= i < 512 && 0 <= d2 < |s.ram| && |s.count| == |s.ram| == PAGING_PAGES
    requires WordAt(s0, d1, i).v && InRam(f) && s.count[f] == 0
    requires Free(s2) == Free(InstallTable(Alloc(s, f), d2, i, f)) && TableOf(s2, p, i) != -1
    ensures DupCount(s0, s2, p, d1, i + 1)
  {
    assert Free(s2) == Free(s) - {f};
    assert f in Free(s);
    assert TablesBelow(s0, d1, i + 1) == TablesBelow(s0, d1, i) + {i};
  }

  lemma DupStart(s: State, o: Owner, p: Owner, d1: int, d2: int)
    requires Inv(s, {}) && IsOwner(o) && IsOwner(p) && DirOf(s, o) == d1 != -1 && DirOf(s, p) == d2 != -1
    requires forall k :: 0 <= k < 512 ==> !WordAt(s, d2, k).v
    ensures Dup(s, s, o, p, d1, d2, 0) && DupCount(s, s, p, d1, 0)
  {
    SoleDirIs(s, o); SoleDirIs(s, p);
    assert TablesBelow(s, d1, 0) == {};
    forall q, k, l ensures SamePage(s, s, q, k, l) {}
  }

  lemma SoleDirIs(s: State, o: Owner)
    requires Inv(s, {}) && IsOwner(o) && DirOf(s, o) != -1
    ensures InRam(DirOf(s, o))
  { DirIsSole(s, o); }

  lemma DupFails(s0: State, s: State, p: Owner, d1: int, i: int)
    requires DupCount(s0, s, p, d1, i) && 0 <= i < 512 && WordAt(s0, d1, i).v && Free(s) == {}
    ensures |Free(s0)| < |TablesBelow(s0, d1, 512)|
    ensures Free(s0) == {} ==> s == s0
    ensures Free(s0) != {} ==> exists k :: 0 <= k < 512 && TableOf(s, p, k) != -1
  {
    var a, b := TablesBelow(s0, d1, i), TablesBelow(s0, d1, 512);
    assert i in b && i !in a && a <= b - {i};
    SubsetAtMost(a, b - {i});
    assert |Free(s)| == 0;
    if Free(s0) == {} { assert a == {}; } else { NonEmpty(Free(s0)); assert a != {}; }
  }

  lemma NonEmpty<T>(a: set<T>) requires a != {} ensures |a| > 0 {}

  lemma DupTables(s: State, o: Owner, p: Owner, d1: int, d2: int, i: int, f: int)
    requires Inv(s, {}) && IsOwner(o) && IsOwner(p) && o != p && 0 <= i < 512 && DirOf(s, o) == d1 != -1
    requires DirOf(s, p) == d2 != -1
    requires InRam(f) && s.count[f] == 0 && WordAt(s, d1, i).v && !WordAt(s, d2, i).v
    ensures InRam(d1) && InRam(d2)
    ensures var s1 := InstallTable(Alloc(s, f), d2, i, f);
      && Inv(s1, {}) && SoleTable(s1, o, i, TableOf(s, o, i)) && SoleTable(s1, p, i, f) && s1.ram[f] == ZeroFrame()
      && s1.ram[d1] == s.ram[d1] && s1.held == s.held
  {
    hide TargetsOk, Exclusive, Counted;
    SoleDirIs(s, o); SoleDirIs(s, p);
    DirIsSole(s, p);
    NewTableStep(s, f, p, d2, i);
    DirsAreApart(s, o, p, i, f, d1, d2);
    var s1 := InstallTable(Alloc(s, f), d2, i, f);
    assert s1.ram[d1] == s.ram[d1];
    assert TableOf(s1, o, i) == TableOf(s, o, i);
    TableIsSole(s1, o, i);
    assert s1.ram[f] == ZeroFrame();
  }

  // ---- which entries a step leaves exactly as they were
  ghost predicate SameEntry(s: State, s': State, o: Owner, i: int, j: int) {
    IsRef(Leaf(o, i, j)) ==> LeafWord(s', o, i, j) == LeafWord(s, o, i, j)
  }

  ghost predicate EntriesExcept(s: State, s': State, o: Owner, i: int, j: int) {
    forall q, k, l :: (q != o || k != i || l != j) ==> SameEntry(s, s', q, k, l)
  }

  lemma PlainWriteEntries(s: State, f: int, p: Frame, q: Owner, k: int, l: int)
    requires Shape(s) && InRam(f) && Plain(s, f)
    ensures SameEntry(s, SetFrame(s, f, p), q, k, l)
  {}

  lemma AllocEntries(s: State, f: int, q: Owner, k: int, l: int)
    requires Inv(s, {}) && InRam(f) && s.count[f] == 0
    ensures SameEntry(s, Alloc(s, f), q, k, l)
  {
    FreeIsPlain(s, f);
    PlainWriteEntries(s, f, ZeroFrame(), q, k, l);
    var s1 := SetFrame(s, f, ZeroFrame());
    assert LeafWord(Alloc(s, f), q, k, l) == LeafWord(s1, q, k, l);
  }

  lemma NewTableEntries(s: State, f: int, o: Owner, d: int, i: int, q: Owner, k: int, l: int)
    requires Inv(s, {}) && InRam(f) && s.count[f] == 0 && IsRef(Table(o, i)) && SoleDir(s, o, d) && !WordAt(s, d, i).v
    ensures SameEntry(s, InstallTable(Alloc(s, f), d, i, f), q, k, l)
  {
    hide TargetsOk, Exclusive, Counted;
    if IsRef(Leaf(q, k, l)) {
      var s1 := Alloc(s, f);
      var s' := InstallTable(s1, d, i, f);
      AllocEntries(s, f, q, k, l);
      AllocSole(s, f, o, d);
      AllocInv(s, f);
      if q == o && k == i {
        NewTableStep(s, f, o, d, i);
        assert LeafWord(s', o, i, l) == ZERO && LeafWord(s, o, i, l) == ZERO;
      } else {
        DirWrite(s1, o, d, i, TableWord(f), Leaf(q, k, l));
        UnheldIsNotTarget(SetWord(s1, d, i, TableWord(f)), f, Leaf(q, k, l));
      }
    }
  }

  lemma TableWriteEntries(s: State, o: Owner, i: int, t: int, j: int, w: Word)
    requires Shape(s) && SoleTable(s, o, i, t) && IsRef(Leaf(o, i, j))
    ensures EntriesExcept(s, SetWord(s, t, j, w), o, i, j)
  {
    forall q, k, l | (q != o || k != i || l != j) ensures SameEntry(s, SetWord(s, t, j, w), q, k, l) {
      if IsRef(Leaf(q, k, l)) { TableWrite(s, o, i, t, j, w, Leaf(q, k, l)); }
    }
  }

  lemma UnheldEntries(s: State, s': State, f: int, o: Owner, i: int, j: int)
    requires EntriesExcept(s, s', o, i, j)
    ensures EntriesExcept(s, Unheld(s', f), o, i, j)
  {
    forall q, k, l | (q != o || k != i || l != j) ensures SameEntry(s, Unheld(s', f), q, k, l) {
      assert SameEntry(s, s', q, k, l);
      UnheldIsNotTarget(s', f, Leaf(q, k, l));
    }
  }

  lemma EntriesThen(s0: State, s: State, s': State, o: Owner, i: int, j: int)
    requires forall q, k, l :: SameEntry(s0, s, q, k, l)
    requires EntriesExcept(s, s', o, i, j)
    ensures EntriesExcept(s0, s', o, i, j)
  {
    forall q, k, l | (q != o || k != i || l != j) ensures SameEntry(s0, s', q, k, l) {
      assert SameEntry(s0, s, q, k, l) && SameEntry(s, s', q, k, l);
    }
  }
}
