// Where the memory manager falls short of private memories, reached from boot.
module MemoryLosses {
  import opened Limits
  import opened Options
  import opened Sv32
  import opened Frames
  import opened Steps
  import opened Moves
  import opened Cow
  import opened Memory
  import opened PrivateMemory

  lemma {:induction false} HowMany(s: set<int>, a: int, b: int)
    requires a <= b && forall f :: f in s <==> a <= f < b
    ensures |s| == b - a
    decreases b - a
  {
    if a < b { HowMany(s - {a}, a + 1, b); } else { assert s == {}; }
  }

  // mem_init with n frames, and a first program of these pages for task 0
  method Started(n: nat, image: nat -> Frame, pages: seq<Mapping>) returns (mm: Mm)
    requires n <= PAGING_PAGES && InBounds(pages) && AllUser(pages) && Distinct(pages)
      && 1 + |pages| + |Tabs(pages)| <= n
    ensures fresh(mm) && fresh(mm.memMap) && fresh(mm.ram) && fresh(mm.task)
    ensures Ready(mm.St()) && Unfilled(mm.St()) && mm.lost == NothingLost()
    ensures mm.task.Length == NR_TASKS && HasSpace(mm.St(), 0) && mm.task[1].NoTask?
    ensures |Free(mm.St())| == n - 1 - |pages| - |Tabs(pages)|
    ensures |TablesBelow(mm.St(), mm.task[0].pgdir, 512)| == |Tabs(pages)|
    ensures forall k, l :: 0 <= k < 512 && 0 <= l < 1024 ==> PageAt(mm.St(), Proc(0), k, l) == LastOf(pages, k, l)
  {
    mm := new Mm(PAGING_PAGES - n, PAGING_PAGES, image);
    HowMany(Free(mm.St()), PAGING_PAGES - n, PAGING_PAGES);
    hide Inv, Tabs, AllUser, Distinct, PageAt, WordAt;
    var d := mm.NewSpace(pages);
    ghost var s := mm.St();
    mm.CommitSpace(0, d);
    FreeSame(s, mm.St());
    FewFull(mm.St());
    SameTables(s, mm.St(), d, pages);
    forall k, l | 0 <= k < 512 && 0 <= l < 1024 ensures PageAt(mm.St(), Proc(0), k, l) == LastOf(pages, k, l) {
      assert IsRef(Leaf(New(d), k, l));
    }
  }

  lemma SameTables(s: State, s': State, d: int, pages: seq<Mapping>)
    requires HasTables(s, d, Tabs(pages)) && s'.ram == s.ram && InBounds(pages) && AllUser(pages)
    ensures TablesBelow(s', d, 512) == Tabs(pages)
  {
    forall k ensures WordAt(s', d, k) == WordAt(s, d, k) {}
  }

  lemma FewFull(s: State)
    requires Ready(s) && s.lost == NothingLost()
    ensures Unfilled(s)
  {
    ReadyShape(s);
    hide Inv;
    forall f | 0 <= f < |s.count| ensures s.count[f] < 255 { if s.count[f] >= 255 { FilledLost(s, f); } }
  }

  // Eight frames; a program of two pages in two tables leaves three; its fork gives up after the first table, which is
  // lost.
  method LeakedFork(image: nat -> Frame, page: Frame, child: Frame) returns (mm: Mm, out: Outcome)
    ensures out == Leaked && mm.lost != NothingLost()
  {
    var pages := [Mapping(0, 0, page), Mapping(1, 0, page)];
    TwoTabs(page);
    hide Inv, Tabs, Free, TablesBelow, LastOf;
    mm := Started(8, image, pages);
    out := Step(mm, Clone(0, 1, child));
  }

  lemma TwoTabs(page: Frame)
    ensures Tabs([Mapping(0, 0, page), Mapping(1, 0, page)]) == {0, 1}
  {
    var ms := [Mapping(0, 0, page), Mapping(1, 0, page)];
    assert ms[0].i == 0 && ms[1].i == 1;
  }

  lemma OneTab(page: Frame)
    ensures Tabs([Mapping(0, 0, page)]) == {0} && LastOf([Mapping(0, 0, page)], 0, 0) == Some(page)
  { assert [Mapping(0, 0, page)][0].i == 0; }

  // A program of one page, forked: two tasks name one frame.
  method Forked(image: nat -> Frame, page: Frame, child: Frame) returns (mm: Mm)
    ensures fresh(mm) && fresh(mm.memMap) && fresh(mm.ram) && fresh(mm.task)
    ensures Ready(mm.St()) && mm.task.Length == NR_TASKS && HasSpace(mm.St(), 0) && HasSpace(mm.St(), 1)
    ensures PageAt(mm.St(), Proc(0), 0, 0) == Some(page) == PageAt(mm.St(), Proc(1), 0, 0)
    ensures SharedPage(mm.St(), Proc(0), 0, 0) && |Free(mm.St())| == 94
    ensures LeafOf(mm.St(), Proc(1), 0, 0) == LeafOf(mm.St(), Proc(0), 0, 0)
  {
    OneTab(page);
    hide Inv, Tabs, Free, TablesBelow, LastOf, PageAt, Twins, SharedPage;
    mm := Started(100, image, [Mapping(0, 0, page)]);
    ghost var s := mm.St();
    var ok := mm.CopyProcess(0, 1, child);
    assert SamePage(s, mm.St(), Proc(0), 0, 0);
    ShareOne(mm.St(), page);
  }

  // The page is not to be written, and somebody else names its frame.
  ghost predicate SharedPage(s: State, o: Owner, i: int, j: int) {
    && LeafWord(s, o, i, j).v && !LeafWord(s, o, i, j).w && InRam(LeafOf(s, o, i, j))
    && |s.count| == PAGING_PAGES == |s.lost| && Named(s, LeafOf(s, o, i, j)) != 1
  }

  lemma ShareOne(s: State, page: Frame)
    requires Inv(s, {}) && Twins(s, Proc(0), Proc(1), 512) && PageAt(s, Proc(0), 0, 0) == Some(page)
    ensures SharedPage(s, Proc(0), 0, 0) && LeafOf(s, Proc(1), 0, 0) == LeafOf(s, Proc(0), 0, 0)
  {
    assert Twin(s, Proc(0), Proc(1), 0, 0);
    var f, r, q := LeafOf(s, Proc(0), 0, 0), Leaf(Proc(0), 0, 0), Leaf(Proc(1), 0, 0);
    LeafInRam(s, Proc(0), 0, 0);
    assert LT(s, {}, r) == f && LT(s, {}, q) == f;
    TargetOk(s, r);
    var a := RefsTo(s, {}, f);
    assert r in a && q in a - {r};
    assert |a - {r}| == |a| - 1 && |a - {r}| > 0;
  }

  // put_fs_long there writes into the memory of both.
  method SharedPut(image: nat -> Frame, page: Frame, child: Frame, w: Word)
    returns (mm: Mm, out: Outcome, ghost before: State)
    requires page[0] != w
    ensures PageAt(before, Proc(1), 0, 0) == Some(page) && out.Shared? && {0, 1} <= out.tasks
    ensures PageAt(mm.St(), Proc(1), 0, 0) == Some(page[0 := w])
  {
    hide Inv, OnlyOthers;
    mm := Forked(image, page, child);
    before := mm.St();
    out := PutOverBoth(mm, page, w);
  }

  method PutOverBoth(mm: Mm, page: Frame, w: Word) returns (out: Outcome)
    requires Ready(mm.St()) && HasSpace(mm.St(), 0) && SharedPage(mm.St(), Proc(0), 0, 0) && page[0] != w
    requires LeafOf(mm.St(), Proc(1), 0, 0) == LeafOf(mm.St(), Proc(0), 0, 0)
    requires PageAt(mm.St(), Proc(0), 0, 0) == Some(page) == PageAt(mm.St(), Proc(1), 0, 0)
    modifies mm, mm.memMap, mm.ram, mm.task
    ensures out.Shared? && {0, 1} <= out.tasks && PageAt(mm.St(), Proc(1), 0, 0) == Some(page[0 := w])
  {
    ghost var s := mm.St();
    ReadyShape(s);
    hide Inv, WorldOf, RefStep, LossRight, AreaRight;
    SharersNamed(s, 0, 0, 0);
    assert 1 in Sharers(s, LeafOf(s, Proc(0), 0, 0), 0, 0);
    out := Step(mm, KernelPut(0, 0, 0, 0, w));
    PutView(s, mm.St(), out, w, page);
  }

  lemma PutView(s: State, s': State, out: Outcome, w: Word, page: Frame)
    requires |s.task| == NR_TASKS == |s'.task| && WorldOf(s') == RefStep(WorldOf(s), KernelPut(0, 0, 0, 0, w), out)
    requires out.Shared? && 1 in out.tasks && PageAt(s, Proc(1), 0, 0) == Some(page)
    ensures PageAt(s', Proc(1), 0, 0) == Some(page[0 := w])
  {
    hide PageAt;
    ViewAt(s, 1);
    ViewAt(s', 1);
    LookSpace(s, Proc(1), 0, 0);
    LookSpace(s', Proc(1), 0, 0);
  }

  // verify_area of nearly the whole address space from an address that is not the start of a page verifies nothing at
  // all, so that the store it was to prepare is seen by the child.
  method SkippedVerify(image: nat -> Frame, page: Frame, child: Frame, w: Word)
    returns (mm: Mm, out: Outcome, ghost before: State)
    requires page[0] != w
    ensures PageAt(before, Proc(1), 0, 0) == Some(page) && out.Shared? && {0, 1} <= out.tasks
    ensures PageAt(mm.St(), Proc(1), 0, 0) == Some(page[0 := w])
  {
    hide Inv, OnlyOthers;
    mm := Forked(image, page, child);
    before := mm.St();
    var alive, panic := mm.VerifyArea(0, 1, 0x7fff_ffff);
    out := PutOverBoth(mm, page, w);
  }

  // A program whose file maps one address twice: the frame of the first page is lost.
  method OverlappingExec(image: nat -> Frame, page: Frame, again: Frame)
    returns (mm: Mm, outs: seq<Outcome>, ghost states: seq<State>)
    ensures outs == [Done] && |states| == 2 && states[0].lost == NothingLost() != states[1].lost
  {
    var pages := [Mapping(0, 0, page), Mapping(0, 0, again)];
    TwiceTab(page, again);
    hide Inv, Tabs, Distinct, RefStep, RefRun, Views;
    mm, outs, states := Boot(0, 8, image, [Exec(0, pages)]);
    HowMany(Free(states[0]), 0, 8);
    MappedAll(pages, 8);
    assert pages[..2] == pages;
    assert KindOf(states[0].task[0]) == Kinds(states[0].task)[0] == Bare;
    assert Went(states[0], Exec(0, pages), outs[0], states[1]);
  }

  lemma TwiceTab(page: Frame, again: Frame)
    ensures Tabs([Mapping(0, 0, page), Mapping(0, 0, again)]) == {0}
    ensures !Distinct([Mapping(0, 0, page), Mapping(0, 0, again)])
  {
    var ms := [Mapping(0, 0, page), Mapping(0, 0, again)];
    assert ms[0].i == 0 && ms[1].i == 0 && ms[0].j == ms[1].j;
  }

  // A store there is in a private copy, which may not be executed: executing it gives a page of zeros instead, and the
  // copy is lost.
  method FetchWipes(image: nat -> Frame, page: Frame, child: Frame, w: Word)
    returns (mm: Mm, out: Outcome, ghost before: State)
    ensures PageAt(before, Proc(0), 0, 0) == Some(page[0 := w])
    ensures out == Wiped && PageAt(mm.St(), Proc(0), 0, 0) == Some(ZeroFrame()) && mm.lost != before.lost
  {
    hide Inv, OnlyOthers, WorldOf, RefStep;
    mm := Forked(image, page, child);
    ghost var s := mm.St();
    SharedCosts(s, Proc(0), 0, 0);
    var alive := mm.UserStore(0, 0, 0, 0, w);
    before := mm.St();
    ReadyShape(s);
    assert mm.task[0] == s.task[0];
    assert Wipes(before, Proc(0), 0, 0) && FetchCost(before, Proc(0), 0, 0) <= |Free(before)|;
    out := Step(mm, Fetch(0, 0, 0));
    WipedView(before, mm.St());
  }

  lemma SharedCosts(s: State, o: Owner, i: int, j: int)
    requires Inv(s, {}) && SharedPage(s, o, i, j) && IsRef(Leaf(o, i, j))
    ensures SharedCost(s, o, i, j) == 1
  {
    assert LT(s, {}, Leaf(o, i, j)) == LeafOf(s, o, i, j);
    if s.count[LeafOf(s, o, i, j)] == 1 { CountOneNamed(s, Leaf(o, i, j)); }
  }

  lemma WipedView(s: State, s': State)
    requires |s.task| == NR_TASKS == |s'.task| && WorldOf(s') == RefStep(WorldOf(s), Fetch(0, 0, 0), Wiped)
    ensures PageAt(s', Proc(0), 0, 0) == Some(ZeroFrame())
  {
    ViewAt(s', 0);
    LookSpace(s', Proc(0), 0, 0);
  }
}
