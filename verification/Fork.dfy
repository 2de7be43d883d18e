// What copy_process (kernel/fork.c) makes for a child, and what its failure path gives up.
module Fork {
  import opened Limits
  import opened Sv32
  import opened Frames
  import opened Steps
  import opened Moves
  import opened Pages
  import opened Cow

  lemma AllocFree(s: State, f: int)
    requires |s.count| == PAGING_PAGES == |s.ram| && InRam(f) && s.count[f] == 0
    ensures Free(Alloc(s, f)) == Free(s) - {f} && |Free(Alloc(s, f))| == |Free(s)| - 1
  {}

  // ---- a task structure for slot nr
  function WithPage(s: State, p: int, nr: int, image: Frame): State
    requires InRam(p) && p < |s.count| && p < |s.ram| && 0 <= nr < |s.task|
  { SetFrame(Unheld(SetTask(Alloc(s, p), nr, Task(p, -1)), p), p, image) }

  lemma WithPageInv(s: State, p: int, nr: int, image: Frame)
    requires Inv(s, {}) && InRam(p) && s.count[p] == 0 && 0 <= nr < NR_TASKS && s.task[nr].NoTask?
    ensures var s' := WithPage(s, p, nr, image);
      && Inv(s', {}) && SamePages(s, s') && |Free(s')| == |Free(s)| - 1 && s'.held == s.held
  {
    hide TargetsOk, Exclusive, Counted;
    var s1 := Alloc(s, p);
    AllocInv(s, p);
    AllocFree(s, p);
    var s2 := Unheld(SetTask(s1, nr, Task(p, -1)), p);
    TakePageInv(s1, nr, p);
    assert LT(s2, {}, Page(nr)) == p;
    PlainTarget(s2, Page(nr));
    StoreInv(s2, p, image);
    var s' := WithPage(s, p, nr, image);
    forall q, k, l ensures SamePage(s, s', q, k, l) {
      assert SamePage(s, s1, q, k, l);
      if IsRef(Leaf(q, k, l)) { WithPageKeeps(s1, s2, s', p, nr, image, q, k, l); }
    }
    FreeIsPlain(s, p);
    assert Free(s') == Free(s1);
    assert s'.held == s.held;
  }

  lemma WithPageKeeps(s1: State, s2: State, s': State, p: int, nr: int, image: Frame, q: Owner, k: int, l: int)
    requires 0 <= nr < |s1.task| && s1.task[nr].NoTask? && s2 == Unheld(SetTask(s1, nr, Task(p, -1)), p)
    requires Inv(s2, {}) && Plain(s2, p) && InRam(p) && s' == SetFrame(s2, p, image) && LT(s2, {}, Page(nr)) == p
    requires 0 <= nr < NR_TASKS && IsRef(Leaf(q, k, l))
    ensures PageAt(s', q, k, l) == PageAt(s1, q, k, l)
  {
    assert DirOf(s2, q) == DirOf(s1, q);
    assert LeafOf(s2, q, k, l) == LeafOf(s1, q, k, l);
    PlainWrite(s2, p, image, Leaf(q, k, l));
    if LeafOf(s2, q, k, l) != -1 {
      assert LT(s2, {}, Leaf(q, k, l)) == LeafOf(s2, q, k, l);
      OneOwner(s2, Leaf(q, k, l), Page(nr));
    }
    LeafUntouched(s2, s', p, q, k, l);
  }

  // ---- an empty page directory for task nr
  function WithDir(s: State, d: int, nr: int): State
    requires InRam(d) && d < |s.count| && d < |s.ram| && 0 <= nr < |s.task| && s.task[nr].Task?
  { Unheld(SetTask(Alloc(s, d), nr, s.task[nr].(pgdir := d)), d) }

  lemma WithDirInv(s: State, d: int, nr: int)
    requires Inv(s, {}) && InRam(d) && s.count[d] == 0 && 0 <= nr < NR_TASKS && s.task[nr].Task?
    requires s.task[nr].pgdir == -1
    ensures var s' := WithDir(s, d, nr);
      && Inv(s', {}) && SamePages(s, s') && |Free(s')| == |Free(s)| - 1 && s'.held == s.held
      && (forall k :: 0 <= k < 1024 ==> WordAt(s', d, k) == ZERO)
  {
    hide TargetsOk, Exclusive, Counted;
    var s1 := Alloc(s, d);
    AllocInv(s, d);
    AllocFree(s, d);
    FreeIsPlain(s, d);
    var s2 := Unheld(s1, d).(building := s1.building + {d});
    BeginDirInv(s1, d);
    AdoptDirInv(s2, nr, d);
    var s' := WithDir(s, d, nr);
    assert s2.building - {d} == s.building;
    assert s' == AdoptDir(s2, nr, d);
    assert s'.held == s.held;
    assert Free(s') == Free(s1);
    forall q, k, l ensures SamePage(s, s', q, k, l) {
      assert SamePage(s, s1, q, k, l);
      if IsRef(Leaf(q, k, l)) {
        if q == Proc(nr) { assert TableOf(s', q, k) == -1 && TableOf(s1, q, k) == -1; }
        else { assert DirOf(s', q) == DirOf(s1, q); assert LeafOf(s', q, k, l) == LeafOf(s1, q, k, l); }
      }
    }
  }

  // ---- giving up
  function Forget(s: State, nr: int): State
    requires 0 <= nr < |s.task| && s.task[nr].Task? && 0 <= s.task[nr].page < |s.count|
    requires 0 <= s.task[nr].pgdir < |s.count|
  { Uncount(Uncount(SetTask(s, nr, NoTask), s.task[nr].pgdir), s.task[nr].page) }

  // what the child's directory has led to so far
  ghost function Gone(nr: int): set<Ref> { set r | r in AllRefs() && OfOwner(r, Proc(nr)) }

  // The failure path: the directory and the page go back, the tables and what they map are lost.
  ghost function Dropped(s: State, nr: int): State
    requires 0 <= nr < |s.task| && s.task[nr].Task? && 0 <= s.task[nr].page < |s.count|
    requires 0 <= s.task[nr].pgdir < |s.count| && |s.lost| == PAGING_PAGES
  { Forget(LoseAll(s, Gone(nr)), nr) }

  lemma DroppedPages(s: State, nr: int)
    requires 0 <= nr < |s.task| && s.task[nr].Task? && 0 <= s.task[nr].page < |s.count|
    requires 0 <= s.task[nr].pgdir < |s.count| && |s.lost| == PAGING_PAGES
    ensures forall q, k, l :: q != Proc(nr) ==> SamePage(s, Dropped(s, nr), q, k, l)
  {}

  lemma DroppedInv(s: State, nr: int)
    requires Inv(s, {}) && 0 <= nr < NR_TASKS && s.task[nr].Task? && s.task[nr].page != -1 && s.task[nr].pgdir != -1
    ensures InRam(s.task[nr].page) && InRam(s.task[nr].pgdir) && Inv(Dropped(s, nr), {})
  {
    hide TargetsOk, Exclusive, Counted;
    PageCounted(s, nr);
    var s1, g, d, p := LoseAll(s, Gone(nr)), Gone(nr), s.task[nr].pgdir, s.task[nr].page;
    LoseAllInv(s, g);
    assert LT(s1, g, Dir(Proc(nr))) == d;
    KillInv(s1, g, Dir(Proc(nr)));
    var s2, g2 := Uncount(s1, d), g + {Dir(Proc(nr))};
    assert LT(s2, g2, Page(nr)) == p;
    KillInv(s2, g2, Page(nr));
    var s3, g3 := Uncount(s2, p), g2 + {Page(nr)};
    var s' := Dropped(s, nr);
    assert s' == SetTask(s3, nr, NoTask);
    forall r ensures Kept(s3, g3, s', {}, r) { DroppedKept(s3, nr, r); }
    Relabel(s3, g3, s', {});
  }

  lemma DroppedKept(s: State, nr: int, r: Ref)
    requires Shape(s) && 0 <= nr < NR_TASKS && s.task[nr].Task?
    ensures Kept(s, Gone(nr) + {Dir(Proc(nr))} + {Page(nr)}, SetTask(s, nr, NoTask), {}, r)
  {
    var s' := SetTask(s, nr, NoTask);
    if OfTask(r, nr) {
      assert IsRef(r) && OfOwner(r, Proc(nr)) ==> r in Gone(nr);
      assert DirOf(s', Proc(nr)) == -1;
    } else if IsRef(r) {
      assert Same(s, s', r);
      assert r !in Gone(nr);
    }
  }

  predicate OfTask(r: Ref, nr: int) { OfOwner(r, Proc(nr)) || r == Dir(Proc(nr)) || r == Page(nr) }

  lemma PageCounted(s: State, nr: int)
    requires Inv(s, {}) && 0 <= nr < NR_TASKS && s.task[nr].Task? && s.task[nr].page != -1 && s.task[nr].pgdir != -1
    ensures InRam(s.task[nr].page) && InRam(s.task[nr].pgdir) && s.task[nr].page != s.task[nr].pgdir
    ensures s.count[s.task[nr].page] > 0 && s.count[s.task[nr].pgdir] > 0
  {
    var r, q := Page(nr), Dir(Proc(nr));
    assert LT(s, {}, r) == s.task[nr].page && LT(s, {}, q) == s.task[nr].pgdir;
    TargetOk(s, r); TargetOk(s, q);
    KillInv(s, {}, r); KillInv(s, {}, q);
    OneOwner(s, r, q);
  }

  ghost predicate NoTables(s: State, o: Owner) { forall k :: 0 <= k < 512 ==> TableOf(s, o, k) == -1 }

  // The failure path loses nothing if and only if no table had been copied.
  lemma DroppedLost(s: State, nr: int)
    requires Inv(s, {}) && 0 <= nr < NR_TASKS
    ensures LoseAll(s, Gone(nr)).lost == s.lost <==> NoTables(s, Proc(nr))
  {
    var l := LoseAll(s, Gone(nr)).lost;
    if NoTables(s, Proc(nr)) {
      forall r | OfOwner(r, Proc(nr)) ensures LT(s, {}, r) == -1 {
        assert IsRef(r) ==> TableOf(s, Proc(nr), r.i) == -1;
      }
      forall f | 0 <= f < PAGING_PAGES ensures l[f] == s.lost[f] {
        assert RefsTo(s, {}, f) * Gone(nr) == {};
      }
    } else {
      var k :| 0 <= k < 512 && TableOf(s, Proc(nr), k) != -1;
      var r := Table(Proc(nr), k);
      var t := TableOf(s, Proc(nr), k);
      assert LT(s, {}, r) == t;
      TargetOk(s, r);
      assert r in RefsTo(s, {}, t) * Gone(nr);
      NonEmpty(RefsTo(s, {}, t) * Gone(nr));
      assert l[t] > s.lost[t];
    }
  }
}
