// The reference machine: every task has a private memory of its own. Whatever a run of the paged machine does, every
// task sees what it would have seen on the reference machine, except that executing a page of its own can wipe that
// page, and that the kernel's own store into a page still shared is a store into the memory of every task sharing it.
module PrivateMemory {
  import opened Limits
  import opened Longs
  import opened Options
  import opened Sv32
  import opened Frames
  import opened Steps
  import opened Moves
  import opened Pages
  import opened Cow
  import opened Memory

  type Space = map<(int, int), Frame>

  datatype Op =
    | Thread(nr: int, image: Frame)
    | Clone(current: int, nr: int, image: Frame)
    | Store(current: int, i: int, j: int, k: int, w: Word)
    | Load(current: int, i: int, j: int, k: int)
    | Fetch(current: int, i: int, j: int)
    | Verify(current: int, start: int, size: Long)
    | KernelPut(current: int, i: int, j: int, k: int, w: Word)
    | Exec(current: int, pages: seq<Mapping>)
    | Exit(current: int, alone: bool)
    | Reap(t: int)

  // Killed: the kernel ended the task (no memory, bad address). Leaked: a fork failed after copying a table. Wiped: a
  // page of the task was taken for missing. Shared: the kernel wrote into the memory of all these tasks. Panic: nothing
  // runs after this. Got: what a load read.
  datatype Outcome = Done | Refused | Killed | Leaked | Wiped | Shared(tasks: set<int>) | Panic | Got(w: Word)

  // no task, a task without an address space of its own, a task with one
  datatype Kind = Nobody | Bare | Full
  datatype World = World(views: seq<Space>, kinds: seq<Kind>)

  function WriteTo(m: Space, i: int, j: int, k: int, w: Word): Space requires 0 <= k < 1024 {
    m[(i, j) := (if (i, j) in m then m[(i, j)] else ZeroFrame())[k := w]]
  }

  function WriteAll(ms: seq<Space>, ts: set<int>, i: int, j: int, k: int, w: Word): (ms': seq<Space>)
    requires 0 <= k < 1024
    ensures |ms'| == |ms|
  {
    seq(|ms|, t requires 0 <= t < |ms| => if t in ts then WriteTo(ms[t], i, j, k, w) else ms[t])
  }

  function Zeroed(m: Space, i: int, j: int): Space { m[(i, j) := ZeroFrame()] }

  function Extend(m: Space, a: int, b: int): Space
    decreases b - a
  {
    if a >= b then m
    else
      var p := (a / 1024, a % 1024);
      Extend(if p in m then m else m[p := ZeroFrame()], a + 1, b)
  }

  function ImageOf(ms: seq<Mapping>): Space {
    if ms == [] then map[] else ImageOf(ms[..|ms| - 1])[(ms[|ms| - 1].i, ms[|ms| - 1].j) := ms[|ms| - 1].page]
  }

  predicate Sane(op: Op) {
    match op
    case Thread(nr, _) => 0 <= nr < NR_TASKS
    case Clone(c, nr, _) => 0 <= c < NR_TASKS && 0 <= nr < NR_TASKS
    case Store(c, i, j, k, _) => 0 <= c < NR_TASKS && 0 <= i < 1024 && 0 <= j < 1024 && 0 <= k < 1024
    case Load(c, i, j, k) => 0 <= c < NR_TASKS && 0 <= i < 1024 && 0 <= j < 1024 && 0 <= k < 1024
    case Fetch(c, i, j) => 0 <= c < NR_TASKS && 0 <= i < 1024 && 0 <= j < 1024
    case Verify(c, start, _) => 0 <= c < NR_TASKS && 0 <= start < 0x1_0000_0000
    case KernelPut(c, i, j, k, _) => 0 <= c < NR_TASKS && 0 <= i < 1024 && 0 <= j < 1024 && 0 <= k < 1024
    case Exec(c, pages) => 0 <= c < NR_TASKS && InBounds(pages)
    case Exit(c, _) => 0 <= c < NR_TASKS
    case Reap(t) => 0 <= t < NR_TASKS
  }

  predicate Sized(w: World) { |w.views| == NR_TASKS == |w.kinds| }

  function Put(w: World, t: int, m: Space, k: Kind): World
    requires Sized(w) && 0 <= t < NR_TASKS
  { World(w.views[t := m], w.kinds[t := k]) }

  function RefStep(w: World, op: Op, out: Outcome): (w': World)
    requires Sized(w) && Sane(op)
    ensures Sized(w')
  {
    match op
    case Thread(nr, _) => if out == Done then w.(kinds := w.kinds[nr := Bare]) else w
    case Clone(c, nr, _) => if out == Done then Put(w, nr, w.views[c], Full) else w
    case Store(c, i, j, k, x) =>
      if out == Done then w.(views := w.views[c := WriteTo(w.views[c], i, j, k, x)])
      else if out == Killed then Put(w, c, map[], Bare) else w
    case Load(c, _, _, _) => if out == Killed then Put(w, c, map[], Bare) else w
    case Fetch(c, i, j) =>
      if out == Killed then Put(w, c, map[], Bare)
      else if out == Wiped || (out == Done && (i, j) !in w.views[c]) then
        w.(views := w.views[c := Zeroed(w.views[c], i, j)])
      else w
    case Verify(c, start, size) =>
      if out == Done then w.(views := w.views[c := Extend(w.views[c], start / 4096, AreaEnd(start, size))])
      else if out == Killed then Put(w, c, map[], Bare) else w
    case KernelPut(c, i, j, k, x) =>
      if out == Done then w.(views := w.views[c := WriteTo(w.views[c], i, j, k, x)])
      else if out.Shared? then w.(views := WriteAll(w.views, out.tasks, i, j, k, x))
      else if out == Killed then Put(w, c, map[], Bare) else w
    case Exec(c, pages) => if out == Done then Put(w, c, ImageOf(pages), Full) else w
    case Exit(c, alone) => if out == Done then Put(w, c, map[], if alone then Nobody else Bare) else w
    case Reap(t) => if out == Done then w.(kinds := w.kinds[t := Nobody]) else w
  }

  function RefRun(w: World, ops: seq<Op>, outs: seq<Outcome>): (w': World)
    requires Sized(w) && |outs| <= |ops| && forall x :: 0 <= x < |ops| ==> Sane(ops[x])
    ensures Sized(w')
  {
    if outs == [] then w
    else
      var n := |outs| - 1;
      RefStep(RefRun(w, ops, outs[..n]), ops[n], outs[n])
  }

  ghost function AllPages(): set<(int, int)> { set i, j | 0 <= i < 512 && 0 <= j < 1024 :: (i, j) }

  ghost function SpaceOf(s: State, o: Owner): Space {
    map p | p in AllPages() && PageAt(s, o, p.0, p.1) != None :: PageAt(s, o, p.0, p.1).value
  }

  ghost function Views(s: State): (v: seq<Space>) ensures |v| == NR_TASKS {
    seq(NR_TASKS, t => SpaceOf(s, Proc(t)))
  }

  function KindOf(t: Task): Kind { if t.NoTask? then Nobody else if t.pgdir == -1 then Bare else Full }

  function Kinds(ts: seq<Task>): (ks: seq<Kind>)
    ensures |ks| == |ts|
  {
    seq(|ts|, t requires 0 <= t < |ts| => KindOf(ts[t]))
  }

  ghost function WorldOf(s: State): (w: World)
    requires |s.task| == NR_TASKS
    ensures Sized(w)
  { World(Views(s), Kinds(s.task)) }

  lemma SameSpace(s: State, o: Owner, s': State, q: Owner)
    requires SamePlaces(s, o, s', q)
    ensures SpaceOf(s', q) == SpaceOf(s, o)
  {}

  lemma KeptSpace(s: State, s': State, t: int)
    requires 0 <= t < NR_TASKS && forall k, l :: SamePage(s, s', Proc(t), k, l)
    ensures SpaceOf(s', Proc(t)) == SpaceOf(s, Proc(t))
  {
    forall k, l | 0 <= k < 512 && 0 <= l < 1024 ensures PageAt(s', Proc(t), k, l) == PageAt(s, Proc(t), k, l) {
      assert SamePage(s, s', Proc(t), k, l);
    }
    SameSpace(s, Proc(t), s', Proc(t));
  }

  // What a space says about page (i, j).
  ghost function Look(m: Space, i: int, j: int): Option<Frame> { if (i, j) in m then Some(m[(i, j)]) else None }

  lemma LookSpace(s: State, o: Owner, i: int, j: int)
    requires 0 <= i < 512 && 0 <= j < 1024
    ensures Look(SpaceOf(s, o), i, j) == PageAt(s, o, i, j)
  {
    assert (i, j) in AllPages();
  }

  lemma SpaceIs(s: State, o: Owner, m: Space)
    requires forall i, j :: 0 <= i < 512 && 0 <= j < 1024 ==> Look(m, i, j) == PageAt(s, o, i, j)
    requires forall p :: p in m ==> 0 <= p.0 < 512 && 0 <= p.1 < 1024
    ensures SpaceOf(s, o) == m
  {
    hide PageAt;
    var a := SpaceOf(s, o);
    forall p ensures p in a <==> p in m {
      if 0 <= p.0 < 512 && 0 <= p.1 < 1024 { LookSpace(s, o, p.0, p.1); assert Look(m, p.0, p.1) == Look(a, p.0, p.1); }
    }
    forall p | p in a ensures a[p] == m[p] { LookSpace(s, o, p.0, p.1); assert Look(m, p.0, p.1) == Look(a, p.0, p.1); }
  }

  lemma StoredSpace(s: State, s': State, c: int, i: int, j: int, k: int, w: Word)
    requires 0 <= c < NR_TASKS && 0 <= i < 512 && 0 <= j < 1024 && Stored(s, s', Proc(c), i, j, k, w)
    ensures SpaceOf(s', Proc(c)) == WriteTo(SpaceOf(s, Proc(c)), i, j, k, w)
  {
    hide PageAt;
    var o := Proc(c);
    var m, m' := SpaceOf(s, o), WriteTo(SpaceOf(s, o), i, j, k, w);
    LookSpace(s, o, i, j);
    forall x, y | 0 <= x < 512 && 0 <= y < 1024 ensures Look(m', x, y) == PageAt(s', o, x, y) {
      LookSpace(s, o, x, y);
      if x != i || y != j { assert SamePage(s, s', o, x, y); assert Look(m', x, y) == Look(m, x, y); }
    }
    SpaceIs(s', o, m');
  }

  lemma EmptySpace(s: State, s': State, o: Owner)
    requires OnlyOthers(s, s', o)
    ensures SpaceOf(s', o) == map[]
  {}

  lemma {:induction false} LookExtend(m: Space, a: int, b: int, i: int, j: int)
    requires 0 <= a && 0 <= i < 512 && 0 <= j < 1024
    ensures Look(Extend(m, a, b), i, j) ==
      if a <= i * 1024 + j < b && Look(m, i, j) == None then Some(ZeroFrame()) else Look(m, i, j)
    decreases b - a
  {
    if a < b {
      var p := (a / 1024, a % 1024);
      var m1 := if p in m then m else m[p := ZeroFrame()];
      LookExtend(m1, a + 1, b, i, j);
    }
  }

  lemma {:induction false} ExtendKeys(m: Space, a: int, b: int)
    requires 0 <= a && b <= 0x8_0000 && forall p :: p in m ==> 0 <= p.0 < 512 && 0 <= p.1 < 1024
    ensures forall p :: p in Extend(m, a, b) ==> 0 <= p.0 < 512 && 0 <= p.1 < 1024
    decreases b - a
  {
    if a < b {
      var p := (a / 1024, a % 1024);
      ExtendKeys(if p in m then m else m[p := ZeroFrame()], a + 1, b);
    }
  }

  lemma GrownSpace(s: State, s': State, c: int, a: int, b: int)
    requires 0 <= c < NR_TASKS && 0 <= a && b <= 0x8_0000 && Grown(s, s', Proc(c), a, b)
    ensures SpaceOf(s', Proc(c)) == Extend(SpaceOf(s, Proc(c)), a, b)
  {
    hide PageAt;
    var o := Proc(c);
    var m := SpaceOf(s, o);
    forall x, y | 0 <= x < 512 && 0 <= y < 1024 ensures Look(Extend(m, a, b), x, y) == PageAt(s', o, x, y) {
      LookSpace(s, o, x, y);
      LookExtend(m, a, b, x, y);
      assert IsRef(Leaf(o, x, y));
    }
    ExtendKeys(m, a, b);
    SpaceIs(s', o, Extend(m, a, b));
  }

  lemma {:induction false} LookImage(ms: seq<Mapping>, i: int, j: int)
    ensures Look(ImageOf(ms), i, j) == LastOf(ms, i, j)
  { if ms != [] { LookImage(ms[..|ms| - 1], i, j); } }

  lemma {:induction false} ImageKeys(ms: seq<Mapping>)
    requires InBounds(ms) && AllUser(ms)
    ensures forall p :: p in ImageOf(ms) ==> 0 <= p.0 < 512 && 0 <= p.1 < 1024
  { if ms != [] { ImageKeys(ms[..|ms| - 1]); } }

  lemma HoldsSpace(s: State, o: Owner, ms: seq<Mapping>)
    requires IsOwner(o) && InBounds(ms) && AllUser(ms) && Holds(s, o, ms)
    ensures SpaceOf(s, o) == ImageOf(ms)
  {
    hide PageAt;
    var m := ImageOf(ms);
    forall k, l | 0 <= k < 512 && 0 <= l < 1024 ensures Look(m, k, l) == PageAt(s, o, k, l) {
      LookImage(ms, k, l);
      assert IsRef(Leaf(o, k, l));
    }
    ImageKeys(ms);
    SpaceIs(s, o, m);
  }

  lemma FreshSpace(s: State, s': State, c: int, i: int, j: int)
    requires 0 <= c < NR_TASKS && 0 <= i < 512 && 0 <= j < 1024 && FreshPage(s, s', Proc(c), i, j)
    ensures SpaceOf(s', Proc(c)) == Zeroed(SpaceOf(s, Proc(c)), i, j)
  {
    hide PageAt;
    var o := Proc(c);
    var m, m' := SpaceOf(s, o), Zeroed(SpaceOf(s, o), i, j);
    forall x, y | 0 <= x < 512 && 0 <= y < 1024 ensures Look(m', x, y) == PageAt(s', o, x, y) {
      LookSpace(s, o, x, y);
      if x != i || y != j {
        assert SamePage(s, s', o, x, y);
        assert Look(m', x, y) == Look(m, x, y);
      }
    }
    SpaceIs(s', o, m');
  }

  // ---- the steps
  lemma OneChanges(s: State, s': State, c: int, m: Space)
    requires 0 <= c < NR_TASKS && SpaceOf(s', Proc(c)) == m
    requires forall q, k, l :: q != Proc(c) && q.Proc? ==> SamePage(s, s', q, k, l)
    ensures Views(s') == Views(s)[c := m]
  {
    forall t | 0 <= t < NR_TASKS ensures Views(s')[t] == Views(s)[c := m][t] {
      if t != c { KeptSpace(s, s', t); }
    }
  }

  lemma NoneChanges(s: State, s': State)
    requires forall q: Owner, k, l :: q.Proc? ==> SamePage(s, s', q, k, l)
    ensures Views(s') == Views(s)
  {
    forall t | 0 <= t < NR_TASKS ensures Views(s')[t] == Views(s)[t] { KeptSpace(s, s', t); }
  }

  ghost predicate Ready(s: State) { Inv(s, {}) && s.building == {} && s.held == {} }

  lemma ReadyShape(s: State)
    requires Ready(s)
    ensures |s.task| == NR_TASKS && |s.ram| == PAGING_PAGES && |s.count| == PAGING_PAGES
  {}

  predicate HasSpace(s: State, t: int) { 0 <= t < |s.task| && s.task[t].Task? && s.task[t].pgdir != -1 }

  // What a step must answer.
  ghost predicate Expected(s: State, op: Op, out: Outcome)
    requires Sane(op) && |s.task| == NR_TASKS
  {
    match op
    case Thread(nr, _) => out == if s.task[nr].NoTask? && Free(s) != {} then Done else Refused
    case Clone(c, nr, _) =>
      out == if !s.task[nr].NoTask? || !HasSpace(s, c) then Refused
             else if |Free(s)| >= 2 + |TablesBelow(s, s.task[c].pgdir, 512)| then Done
             else if |Free(s)| <= 2 then Refused else Leaked
    case Store(c, i, j, _, _) =>
      out == if !HasSpace(s, c) then Refused else if i < 512 && StoreCost(s, Proc(c), i, j) <= |Free(s)| then Done
        else Killed
    case Load(c, i, j, k) =>
      if !HasSpace(s, c) then out == Refused
      else if i < 512 && PageAt(s, Proc(c), i, j) != None then out == Got(PageAt(s, Proc(c), i, j).value[k])
      else out == Killed
    case Fetch(c, i, j) =>
      out == if !HasSpace(s, c) then Refused
             else if i >= 512 || FetchCost(s, Proc(c), i, j) > |Free(s)| then Killed
             else if Wipes(s, Proc(c), i, j) then Wiped else Done
    case KernelPut(c, i, j, k, x) =>
      out == if !HasSpace(s, c) then Refused
             else if i >= 512 || !LeafWord(s, Proc(c), i, j).v then Killed
             else if Intrudes(s, c, i, j, k, x) then Shared(Sharers(s, LeafOf(s, Proc(c), i, j), i, j)) else Done
    case Verify(c, start, size) =>
      var a, b := start / 4096, AreaEnd(start, size);
      out == if !HasSpace(s, c) then Refused
             else if start >= 0x8000_0000 then Panic
             else if b <= 0x8_0000 && AreaCost(s, Proc(c), a, b) <= |Free(s)| then Done else Killed
    case Exec(c, ms) =>
      out == if s.task[c].Task? && AllUser(ms) && 1 + |ms| + |Tabs(ms)| <= |Free(s)| then Done else Refused
    case Exit(c, alone) => out == if s.task[c].Task? && (alone ==> s.task[c].page != -1) then Done else Refused
    case Reap(t) => out == if s.task[t].Task? && s.task[t].page != -1 && s.task[t].pgdir == -1 then Done else Refused
  }

  // The page is there and may not be executed.
  ghost predicate Wipes(s: State, o: Owner, i: int, j: int) { LeafWord(s, o, i, j).v && !LeafWord(s, o, i, j).x }

  // Word x would be new to somebody besides task c.
  ghost predicate Intrudes(s: State, c: int, i: int, j: int, k: int, x: Word)
    requires 0 <= k < 1024
  {
    var f := LeafOf(s, Proc(c), i, j);
    InRam(f) && |s.count| == |s.lost| == |s.ram| == PAGING_PAGES && Named(s, f) > 1 && s.ram[f][k] != x
  }

  // The tasks whose page (i, j) is in frame f.
  ghost function Sharers(s: State, f: int, i: int, j: int): set<int> {
    set t | 0 <= t < NR_TASKS && LeafOf(s, Proc(t), i, j) == f
  }

  // Frames are lost by a fork that gives up half way, by a page wiped, and by a program mapped over itself in the pages
  // that exec got to map; by nothing else.
  ghost predicate LossRight(s: State, op: Op, out: Outcome, s': State)
    requires Sane(op) && |s.task| == NR_TASKS
  {
    s'.lost != s.lost <==>
      out == Leaked || out == Wiped || (op.Exec? && s.task[op.current].Task? && MapsOver(s, op.pages))
  }

  ghost predicate MapsOver(s: State, pages: seq<Mapping>) requires InBounds(pages) {
    !Distinct(pages[..Mapped(pages, |Free(s)|)])
  }

  // An area that verify_area let through is the caller's own exactly if its size did not wrap around.
  ghost predicate AreaRight(op: Op, out: Outcome, s': State) requires Sane(op) {
    op.Verify? && out == Done ==>
      (AreaPrivate(s', Proc(op.current), op.start, op.size) <==> op.size + op.start % 4096 < 0x8000_0000)
  }

  ghost predicate Went(s: State, op: Op, out: Outcome, s': State)
    requires Sane(op) && |s.task| == NR_TASKS == |s'.task|
  {
    && Expected(s, op, out) && WorldOf(s') == RefStep(WorldOf(s), op, out)
    && LossRight(s, op, out, s') && AreaRight(op, out, s')
  }

  lemma SameKinds(ts: seq<Task>, ts': seq<Task>, t: int, x: Task)
    requires 0 <= t < |ts| && ts' == ts[t := x]
    ensures Kinds(ts') == Kinds(ts)[t := KindOf(x)]
  {}

  method StepThread(mm: Mm, op: Op) returns (out: Outcome)
    requires Ready(mm.St()) && Sane(op) && op.Thread?
    modifies mm, mm.memMap, mm.ram, mm.task
    ensures Ready(mm.St()) && Went(old(mm.St()), op, out, mm.St())
  {
    ghost var s := mm.St();
    ReadyShape(s);
    hide Inv, Views, Kinds;
    if !mm.task[op.nr].NoTask? { return Refused; }
    var p := mm.NewTask(op.nr, op.image);
    NoneChanges(s, mm.St());
    if p == -1 { return Refused; }
    SameKinds(s.task, mm.St().task, op.nr, Task(p, -1));
    out := Done;
  }

  lemma ViewAt(s: State, t: int)
    requires 0 <= t < NR_TASKS
    ensures Views(s)[t] == SpaceOf(s, Proc(t))
  {}

  lemma EmptyStays(s: State, s': State, c: int)
    requires 0 <= c < NR_TASKS && DirOf(s, Proc(c)) == -1 && DirOf(s', Proc(c)) == -1
    requires forall q, k, l :: q != Proc(c) ==> SamePage(s, s', q, k, l)
    ensures Views(s') == Views(s)
  {
    NoDirNoPages(s, Proc(c));
    NoDirNoPages(s', Proc(c));
    forall q: Owner, k, l | q.Proc? ensures SamePage(s, s', q, k, l) {}
    NoneChanges(s, s');
  }

  // How many frames the pool has left.
  method CountFree(mm: Mm) returns (n: nat)
    requires mm.memMap.Length == PAGING_PAGES
    ensures n == |Free(mm.St())|
  {
    n := 0;
    ghost var seen: set<int> := {};
    for f := 0 to PAGING_PAGES
      invariant n == |seen| && forall g :: g in seen <==> 0 <= g < f && InRam(g) && mm.memMap[g] == 0
    {
      if mm.memMap[f] == 0 {
        n := n + 1;
        seen := seen + {f};
      }
    }
    assert seen == Free(mm.St());
  }

  method StepClone(mm: Mm, op: Op) returns (out: Outcome)
    requires Ready(mm.St()) && Sane(op) && op.Clone? && Unfilled(mm.St())
    modifies mm, mm.memMap, mm.ram, mm.task
    ensures Ready(mm.St()) && Went(old(mm.St()), op, out, mm.St())
  {
    ghost var s := mm.St();
    ReadyShape(s);
    hide Views, Kinds, TargetsOk, Exclusive, Counted;
    if !mm.task[op.nr].NoTask? || !mm.task[op.current].Task? || mm.task[op.current].pgdir == -1 { return Refused; }
    var n := CountFree(mm);
    var ok := mm.CopyProcess(op.current, op.nr, op.image);
    ghost var s' := mm.St();
    assert s'.task == s.task[op.nr := mm.task[op.nr]];
    SameKinds(s.task, s'.task, op.nr, mm.task[op.nr]);
    if ok {
      SameSpace(s, Proc(op.current), s', Proc(op.nr));
      OneChanges(s, s', op.nr, SpaceOf(s, Proc(op.current)));
      ViewAt(s, op.current);
      return Done;
    }
    EmptyStays(s, s', op.nr);
    NobodyStays(s.task, op.nr);
    if n <= 2 { return Refused; } else { return Leaked; }
  }

  lemma NobodyStays(ts: seq<Task>, t: int)
    requires 0 <= t < |ts|
    ensures Kinds(ts)[t := KindOf(ts[t])] == Kinds(ts)
  {}

  // The task of a step that failed has ended.
  lemma StepKilled(s: State, s': State, c: int)
    requires 0 <= c < NR_TASKS == |s.task| && OnlyOthers(s, s', Proc(c)) && Ended(s.task, s'.task, c)
    ensures WorldOf(s') == Put(WorldOf(s), c, map[], Bare)
  {
    hide PageAt;
    EmptySpace(s, s', Proc(c));
    OneChanges(s, s', c, map[]);
    SameKinds(s.task, s'.task, c, s.task[c].(pgdir := -1));
  }

  lemma KilledWent(s: State, s': State, op: Op)
    requires Sane(op) && (op.Store? || op.Load? || op.Fetch? || op.KernelPut? || op.Verify?)
    requires |s.task| == NR_TASKS && Expected(s, op, Killed) && s'.lost == s.lost
    requires OnlyOthers(s, s', Proc(op.current)) && Ended(s.task, s'.task, op.current)
    ensures |s'.task| == NR_TASKS && Went(s, op, Killed, s')
  {
    hide OnlyOthers, WorldOf, Expected;
    StepKilled(s, s', op.current);
  }

  lemma RefusedWent(s: State, op: Op)
    requires Sane(op) && !op.Exec? && |s.task| == NR_TASKS && Expected(s, op, Refused)
    ensures Went(s, op, Refused, s)
  { hide WorldOf, Expected; }

  lemma StoreWent(s: State, s': State, op: Op)
    requires Sane(op) && op.Store? && op.i < 512 && |s.task| == NR_TASKS && Expected(s, op, Done)
    requires Stored(s, s', Proc(op.current), op.i, op.j, op.k, op.w) && s'.task == s.task && s'.lost == s.lost
    ensures Went(s, op, Done, s')
  {
    hide PageAt, Expected;
    ViewAt(s, op.current);
    StoredSpace(s, s', op.current, op.i, op.j, op.k, op.w);
    OneChanges(s, s', op.current, WriteTo(SpaceOf(s, Proc(op.current)), op.i, op.j, op.k, op.w));
  }

  method StepStore(mm: Mm, op: Op) returns (out: Outcome)
    requires Ready(mm.St()) && Sane(op) && op.Store?
    modifies mm, mm.memMap, mm.ram, mm.task
    ensures Ready(mm.St()) && Went(old(mm.St()), op, out, mm.St())
  {
    ghost var s := mm.St();
    ReadyShape(s);
    hide Inv, Went, OnlyOthers, LeafWord, StoreCost, Stored, Ended, Free, PageAt;
    if !mm.task[op.current].Task? || mm.task[op.current].pgdir == -1 {
      RefusedWent(s, op);
      return Refused;
    }
    var alive := mm.UserStore(op.current, op.i, op.j, op.k, op.w);
    if alive {
      StoreWent(s, mm.St(), op);
      return Done;
    }
    KilledWent(s, mm.St(), op);
    return Killed;
  }

  method StepPut(mm: Mm, op: Op) returns (out: Outcome)
    requires Ready(mm.St()) && Sane(op) && op.KernelPut?
    modifies mm, mm.memMap, mm.ram, mm.task
    ensures Ready(mm.St()) && Went(old(mm.St()), op, out, mm.St())
  {
    ghost var s := mm.St();
    ReadyShape(s);
    hide Inv, Went, OnlyOthers, LeafOf, LeafWord, Stored, NobodyElseSees, SeenByAll, Sharers, Intrudes, SetWord, Ended;
    if !mm.task[op.current].Task? || mm.task[op.current].pgdir == -1 {
      RefusedWent(s, op);
      return Refused;
    }
    var ts := {};
    if op.i < 512 { ts := SeenBy(mm, op.current, op.i, op.j, op.k, op.w); }
    var alive := mm.PutFsLong(op.current, op.i, op.j, op.k, op.w);
    if !alive {
      KilledWent(s, mm.St(), op);
      return Killed;
    }
    out := if ts == {} then Done else Shared(ts);
    PutWent(s, mm.St(), op, out);
  }

  // The entry of task t for page (i, j).
  method WordFor(mm: Mm, t: int, i: int, j: int) returns (w: Word)
    requires Inv(mm.St(), {}) && IsRef(Leaf(Proc(t), i, j))
    ensures w == LeafWord(mm.St(), Proc(t), i, j)
  {
    hide TargetsOk, Exclusive, Counted;
    if !mm.task[t].Task? || mm.task[t].pgdir == -1 { return ZERO; }
    SoleDirIs(mm.St(), Proc(t));
    var pt := mm.PteLookup(mm.task[t].pgdir, i);
    if pt == -1 { return ZERO; }
    TableInRam(mm.St(), Proc(t), i);
    return mm.ram[pt][j];
  }

  // Every task that will see word w if there is one besides the caller, else nobody.
  method SeenBy(mm: Mm, current: int, i: int, j: int, k: int, w: Word) returns (ts: set<int>)
    requires Inv(mm.St(), {}) && mm.building == {} && IsRef(Leaf(Proc(current), i, j)) && 0 <= k < 1024
    ensures LeafWord(mm.St(), Proc(current), i, j).v ==>
      && (ts == {} <==> !Intrudes(mm.St(), current, i, j, k, w))
      && (ts != {} ==> ts == Sharers(mm.St(), LeafOf(mm.St(), Proc(current), i, j), i, j))
  {
    hide TargetsOk, Exclusive, Counted, LeafWord;
    ghost var s := mm.St();
    var e := WordFor(mm, current, i, j);
    if !e.v { return {}; }
    LeafInRam(s, Proc(current), i, j);
    var f := FrameOf(e);
    ts := {};
    for t := 0 to NR_TASKS
      invariant forall u :: u in ts <==> 0 <= u < t && LeafOf(s, Proc(u), i, j) == f
    {
      var x := WordFor(mm, t, i, j);
      if x.v && FrameOf(x) == f { ts := ts + {t}; }
    }
    assert ts == Sharers(s, f, i, j);
    SharersNamed(s, current, i, j);
    if ts == {current} || mm.ram[f][k] == w { ts := {}; }
  }

  // The references to a page's frame are the entries of the tasks that share it.
  lemma SharersNamed(s: State, c: int, i: int, j: int)
    requires Inv(s, {}) && s.building == {} && IsRef(Leaf(Proc(c), i, j)) && InRam(LeafOf(s, Proc(c), i, j))
    ensures c in Sharers(s, LeafOf(s, Proc(c), i, j), i, j)
    ensures Named(s, LeafOf(s, Proc(c), i, j)) > 1 <==> Sharers(s, LeafOf(s, Proc(c), i, j), i, j) != {c}
  {
    hide Inv, LeafOf;
    var f, r := LeafOf(s, Proc(c), i, j), Leaf(Proc(c), i, j);
    var a, ts := RefsTo(s, {}, f), Sharers(s, f, i, j);
    assert LT(s, {}, r) == f && c in ts;
    NamedOthers(s, r);
    if ts != {c} {
      var t :| t in ts && t != c;
      assert LT(s, {}, Leaf(Proc(t), i, j)) == f;
      assert Leaf(Proc(t), i, j) in a - {r};
    }
    if a - {r} != {} {
      var q :| q in a - {r};
      LeafSharer(s, Proc(c), i, j, q);
      assert q.o.Proc? && q.o.t in ts && q.o.t != c;
    }
  }

  lemma NamedOthers(s: State, r: Ref)
    requires Inv(s, {}) && InRam(LT(s, {}, r))
    ensures |s.count| == |s.lost| == PAGING_PAGES
    ensures Named(s, LT(s, {}, r)) > 1 <==> RefsTo(s, {}, LT(s, {}, r)) - {r} != {}
  {
    hide Exclusive, Target;
    var a := RefsTo(s, {}, LT(s, {}, r));
    TargetOk(s, r);
    assert |a - {r}| == |a| - 1;
  }

  lemma PutWent(s: State, s': State, op: Op, out: Outcome)
    requires Inv(s, {}) && s.building == {} && Sane(op) && op.KernelPut? && op.i < 512 && s'.task == s.task
    requires HasSpace(s, op.current) && s'.lost == s.lost
    requires LeafWord(s, Proc(op.current), op.i, op.j).v && InRam(LeafOf(s, Proc(op.current), op.i, op.j))
    requires SeenByAll(s, s', LeafOf(s, Proc(op.current), op.i, op.j), op.k, op.w)
    requires var f := LeafOf(s, Proc(op.current), op.i, op.j);
      out == if Intrudes(s, op.current, op.i, op.j, op.k, op.w) then Shared(Sharers(s, f, op.i, op.j)) else Done
    ensures |s.task| == NR_TASKS && Went(s, op, out, s')
  {
    hide TargetsOk, Exclusive, Counted, SpaceOf, SeenByAll, WriteTo, Sharers, LeafWord, PageAt;
    var c, i, j, k, w := op.current, op.i, op.j, op.k, op.w;
    var f := LeafOf(s, Proc(c), i, j);
    SharersNamed(s, c, i, j);
    var ts := Sharers(s, f, i, j);
    forall t | 0 <= t < NR_TASKS
      ensures SpaceOf(s', Proc(t)) == if t in ts then WriteTo(SpaceOf(s, Proc(t)), i, j, k, w) else SpaceOf(s, Proc(t))
      ensures t in ts && s.ram[f][k] == w ==> SpaceOf(s', Proc(t)) == SpaceOf(s, Proc(t))
    {
      PutSpace(s, s', c, t, i, j, k, w);
    }
    assert Views(s') == RefStep(WorldOf(s), op, out).views;
  }

  lemma PutSpace(s: State, s': State, c: int, t: int, i: int, j: int, k: int, w: Word)
    requires Inv(s, {}) && IsRef(Leaf(Proc(c), i, j)) && 0 <= t < NR_TASKS && 0 <= k < 1024
    requires InRam(LeafOf(s, Proc(c), i, j)) && SeenByAll(s, s', LeafOf(s, Proc(c), i, j), k, w)
    ensures var f, m := LeafOf(s, Proc(c), i, j), SpaceOf(s, Proc(t));
      && SpaceOf(s', Proc(t)) == (if t in Sharers(s, f, i, j) then WriteTo(m, i, j, k, w) else m)
      && (s.ram[f][k] == w ==> SpaceOf(s', Proc(t)) == m)
  {
    hide TargetsOk, Exclusive, Counted, SeenByAll, Look, PageAt, LeafOf;
    var f, o := LeafOf(s, Proc(c), i, j), Proc(t);
    var m := SpaceOf(s, o);
    var m' := if t in Sharers(s, f, i, j) then WriteTo(m, i, j, k, w) else m;
    forall x, y | 0 <= x < 512 && 0 <= y < 1024 ensures Look(m', x, y) == PageAt(s', o, x, y) {
      PutLook(s, s', c, t, i, j, k, w, x, y);
    }
    SpaceIs(s', o, m');
    if s.ram[f][k] == w {
      forall x, y | 0 <= x < 512 && 0 <= y < 1024 ensures Look(m, x, y) == PageAt(s', o, x, y) {
        PutLook(s, s', c, t, i, j, k, w, x, y);
      }
      SpaceIs(s', o, m);
    }
  }

  lemma PutLook(s: State, s': State, c: int, t: int, i: int, j: int, k: int, w: Word, x: int, y: int)
    requires Inv(s, {}) && IsRef(Leaf(Proc(c), i, j)) && 0 <= t < NR_TASKS && 0 <= k < 1024 && 0 <= x < 512
      && 0 <= y < 1024
    requires InRam(LeafOf(s, Proc(c), i, j)) && SeenByAll(s, s', LeafOf(s, Proc(c), i, j), k, w)
    ensures var f, m := LeafOf(s, Proc(c), i, j), SpaceOf(s, Proc(t));
      && Look(if t in Sharers(s, f, i, j) then WriteTo(m, i, j, k, w) else m, x, y) == PageAt(s', Proc(t), x, y)
      && (s.ram[f][k] == w ==> Look(m, x, y) == PageAt(s', Proc(t), x, y))
  {
    hide TargetsOk, Exclusive, Counted, LeafWord;
    var f, o := LeafOf(s, Proc(c), i, j), Proc(t);
    LookSpace(s, o, i, j);
    LookSpace(s, o, x, y);
    assert IsRef(Leaf(o, x, y));
    if LeafOf(s, o, x, y) == f {
      assert LT(s, {}, Leaf(o, x, y)) == f;
      LeafSharer(s, Proc(c), i, j, Leaf(o, x, y));
      assert s.ram[f][k] == w ==> s.ram[f][k := w] == s.ram[f];
    }
  }

  method StepLoad(mm: Mm, op: Op) returns (out: Outcome)
    requires Ready(mm.St()) && Sane(op) && op.Load?
    modifies mm, mm.memMap, mm.ram, mm.task
    ensures Ready(mm.St()) && Went(old(mm.St()), op, out, mm.St())
  {
    ghost var s := mm.St();
    ReadyShape(s);
    hide Views, Kinds, Inv, OnlyOthers, Ended;
    if !mm.task[op.current].Task? || mm.task[op.current].pgdir == -1 { return Refused; }
    var alive, w := mm.UserLoad(op.current, op.i, op.j, op.k);
    if alive { return Got(w); }
    KilledWent(s, mm.St(), op);
    return Killed;
  }

  method StepFetch(mm: Mm, op: Op) returns (out: Outcome)
    requires Ready(mm.St()) && Sane(op) && op.Fetch?
    modifies mm, mm.memMap, mm.ram, mm.task
    ensures Ready(mm.St()) && Went(old(mm.St()), op, out, mm.St())
  {
    ghost var s := mm.St();
    ReadyShape(s);
    hide Inv, Went, OnlyOthers, PageAt, LeafWord, FetchCost, FreshPage, Ended, Wipes, Runs, Free;
    if !mm.task[op.current].Task? || mm.task[op.current].pgdir == -1 {
      RefusedWent(s, op);
      return Refused;
    }
    var wipes := MayWipe(mm, op.current, op.i, op.j);
    var alive := mm.UserFetch(op.current, op.i, op.j);
    if !alive {
      KilledWent(s, mm.St(), op);
      return Killed;
    }
    out := if wipes then Wiped else Done;
    FetchWent(s, mm.St(), op, out);
  }

  lemma FetchWent(s: State, s': State, op: Op, out: Outcome)
    requires Inv(s, {}) && Sane(op) && op.Fetch? && HasSpace(s, op.current) && |s.task| == NR_TASKS && s'.task == s.task
    requires op.i < 512 && out == if Wipes(s, Proc(op.current), op.i, op.j) then Wiped else Done
    requires Runs(s, Proc(op.current), op.i, op.j) ==> s' == s
    requires !Runs(s, Proc(op.current), op.i, op.j) ==> FreshPage(s, s', Proc(op.current), op.i, op.j)
    ensures WorldOf(s') == RefStep(WorldOf(s), op, out)
  {
    hide Kinds, TargetsOk, Exclusive, Counted, PageAt, FreshPage, LeafWord;
    var o := Proc(op.current);
    ViewAt(s, op.current);
    FetchedLook(s, o, op.i, op.j);
    if !Runs(s, o, op.i, op.j) {
      FreshSpace(s, s', op.current, op.i, op.j);
      FreshOthers(s, s', o, op.i, op.j);
      OneChanges(s, s', op.current, Zeroed(SpaceOf(s, o), op.i, op.j));
    }
  }

  lemma FreshOthers(s: State, s': State, o: Owner, i: int, j: int)
    requires FreshPage(s, s', o, i, j)
    ensures forall q, k, l :: q != o && q.Proc? ==> SamePage(s, s', q, k, l)
  {}

  method MayWipe(mm: Mm, current: int, i: int, j: int) returns (yes: bool)
    requires Inv(mm.St(), {}) && 0 <= current < NR_TASKS && mm.task[current].Task? && mm.task[current].pgdir != -1
    requires 0 <= i < 1024 && 0 <= j < 1024
    ensures i < 512 ==> (yes <==> Wipes(mm.St(), Proc(current), i, j))
  {
    if i >= 512 { return false; }
    var w := WordFor(mm, current, i, j);
    return w.v && !w.x;
  }

  lemma FetchedLook(s: State, o: Owner, i: int, j: int)
    requires Inv(s, {}) && IsRef(Leaf(o, i, j))
    ensures (i, j) in SpaceOf(s, o) <==> LeafWord(s, o, i, j).v
  {
    hide TargetsOk, Exclusive, Counted;
    LookSpace(s, o, i, j);
    if LeafWord(s, o, i, j).v { LeafInRam(s, o, i, j); }
  }

  method StepVerify(mm: Mm, op: Op) returns (out: Outcome)
    requires Ready(mm.St()) && Sane(op) && op.Verify?
    modifies mm, mm.memMap, mm.ram, mm.task
    ensures Ready(mm.St()) && Went(old(mm.St()), op, out, mm.St())
  {
    ghost var s, o := mm.St(), Proc(op.current);
    ReadyShape(s);
    hide Views, Kinds, TargetsOk, Exclusive, Counted, OnlyOthers, AreaCost, PageAt, PageWritable, AreaPrivate;
    if !mm.task[op.current].Task? || mm.task[op.current].pgdir == -1 { return Refused; }
    ViewAt(s, op.current);
    var alive, panic := mm.VerifyArea(op.current, op.start, op.size);
    ghost var s' := mm.St();
    if panic { return Panic; }
    if alive {
      ghost var a, b := op.start / 4096, AreaEnd(op.start, op.size);
      hide Grown;
      GrownSpace(s, s', op.current, a, b);
      GrownOthers(s, s', o, a, b);
      OneChanges(s, s', op.current, Extend(SpaceOf(s, o), a, b));
      return Done;
    }
    StepKilled(s, s', op.current);
    return Killed;
  }

  lemma GrownOthers(s: State, s': State, o: Owner, a: int, b: int)
    requires Grown(s, s', o, a, b)
    ensures forall q, k, l :: q != o && q.Proc? ==> SamePage(s, s', q, k, l)
  {}

  method StepExec(mm: Mm, op: Op) returns (out: Outcome)
    requires Ready(mm.St()) && Sane(op) && op.Exec?
    modifies mm, mm.memMap, mm.ram, mm.task
    ensures Ready(mm.St()) && Went(old(mm.St()), op, out, mm.St())
  {
    ghost var s, o := mm.St(), Proc(op.current);
    ReadyShape(s);
    hide Views, Kinds, TargetsOk, Exclusive, Counted, Distinct, Tabs, Holds, PageAt, Mapped, HasTables, SpaceOf, Free;
    if !mm.task[op.current].Task? { return Refused; }
    var d := mm.NewSpace(op.pages);
    ghost var s1 := mm.St();
    NoneChanges(s, s1);
    if d == -1 { return Refused; }
    HoldsSpace(s1, New(d), op.pages);
    mm.CommitSpace(op.current, d);
    SameSpace(s1, New(d), mm.St(), o);
    ExecWorld(s, s1, mm.St(), op.current, op.pages, d);
    return Done;
  }

  lemma ExecWorld(s: State, s1: State, s2: State, c: int, ms: seq<Mapping>, d: int)
    requires 0 <= c < NR_TASKS == |s.task| && s.task[c].Task? && d != -1 && Views(s1) == Views(s)
    requires SpaceOf(s2, Proc(c)) == ImageOf(ms) && s2.task == s.task[c := s.task[c].(pgdir := d)]
    requires forall q, k, l :: q != Proc(c) && q.Proc? ==> SamePage(s1, s2, q, k, l)
    ensures WorldOf(s2) == Put(WorldOf(s), c, ImageOf(ms), Full)
  {
    hide SpaceOf, ImageOf, SamePage;
    OneChanges(s1, s2, c, ImageOf(ms));
    SameKinds(s.task, s2.task, c, s.task[c].(pgdir := d));
  }

  method StepEnd(mm: Mm, op: Op) returns (out: Outcome)
    requires Ready(mm.St()) && Sane(op) && (op.Exit? || op.Reap?)
    modifies mm, mm.memMap, mm.ram, mm.task
    ensures Ready(mm.St()) && Went(old(mm.St()), op, out, mm.St())
  {
    ghost var s := mm.St();
    ReadyShape(s);
    hide Views, Kinds, TargetsOk, Exclusive, Counted, OnlyOthers;
    if op.Exit? {
      if !mm.task[op.current].Task? || (op.alone && mm.task[op.current].page == -1) { return Refused; }
      if op.alone {
        mm.ExitAlone(op.current);
        EmptySpace(s, mm.St(), Proc(op.current));
        GoneTask(s, mm.St(), op.current);
      } else {
        mm.DoExit(op.current);
        StepKilled(s, mm.St(), op.current);
      }
      return Done;
    }
    if !mm.task[op.t].Task? || mm.task[op.t].page == -1 || mm.task[op.t].pgdir != -1 { return Refused; }
    PageInRam(s, op.t);
    mm.Release(op.t);
    ReapedTask(s, mm.St(), op.t);
    return Done;
  }

  lemma GoneTask(s: State, s': State, c: int)
    requires 0 <= c < NR_TASKS == |s.task| == |s'.task| && OnlyOthers(s, s', Proc(c)) && s'.task[c].NoTask?
    requires forall t :: 0 <= t < NR_TASKS && t != c ==> s'.task[t] == s.task[t]
    ensures WorldOf(s') == Put(WorldOf(s), c, map[], Nobody)
  {
    hide PageAt;
    EmptySpace(s, s', Proc(c));
    OneChanges(s, s', c, map[]);
    assert s'.task == s.task[c := NoTask];
    SameKinds(s.task, s'.task, c, NoTask);
  }

  lemma ReapedTask(s: State, s': State, t: int)
    requires 0 <= t < NR_TASKS == |s.task| == |s'.task| && OnlyOthers(s, s', Proc(t)) && s'.task[t].NoTask?
    requires s.task[t].Task? && s.task[t].pgdir == -1
    requires forall u :: 0 <= u < NR_TASKS && u != t ==> s'.task[u] == s.task[u]
    ensures Views(s') == Views(s) && Kinds(s'.task) == Kinds(s.task)[t := Nobody]
  {
    hide PageAt;
    EmptyStays(s, s', t);
    assert s'.task == s.task[t := NoTask];
    SameKinds(s.task, s'.task, t, NoTask);
  }

  method Step(mm: Mm, op: Op) returns (out: Outcome)
    requires Ready(mm.St()) && Sane(op) && (op.Clone? ==> Unfilled(mm.St()))
    modifies mm, mm.memMap, mm.ram, mm.task
    ensures Ready(mm.St()) && Went(old(mm.St()), op, out, mm.St())
  {
    hide Inv, Went, Unfilled;
    match op
    case Thread(_, _) => out := StepThread(mm, op);
    case Clone(_, _, _) => out := StepClone(mm, op);
    case Store(_, _, _, _, _) => out := StepStore(mm, op);
    case Load(_, _, _, _) => out := StepLoad(mm, op);
    case Fetch(_, _, _) => out := StepFetch(mm, op);
    case KernelPut(_, _, _, _, _) => out := StepPut(mm, op);
    case Verify(_, _, _) => out := StepVerify(mm, op);
    case Exec(_, _) => out := StepExec(mm, op);
    case Exit(_, _) => out := StepEnd(mm, op);
    case Reap(_) => out := StepEnd(mm, op);
  }

  // ---- runs
  // Every state of the run is good, and every step goes from one to the next as it must.
  ghost predicate Traced(ops: seq<Op>, outs: seq<Outcome>, states: seq<State>)
    requires forall x :: 0 <= x < |ops| ==> Sane(ops[x])
  {
    && |outs| <= |ops| && |states| == |outs| + 1
    && (forall x :: 0 <= x < |states| ==> Ready(states[x]) && |states[x].task| == NR_TASKS)
    && forall x :: 0 <= x < |outs| ==> Went(states[x], ops[x], outs[x], states[x + 1])
  }

  lemma TracedNone(ops: seq<Op>, s: State)
    requires Ready(s) && forall x :: 0 <= x < |ops| ==> Sane(ops[x])
    ensures Traced(ops, [], [s])
  { ReadyShape(s); }

  lemma TracedMore(ops: seq<Op>, outs: seq<Outcome>, states: seq<State>, out: Outcome, s: State)
    requires (forall x :: 0 <= x < |ops| ==> Sane(ops[x])) && Traced(ops, outs, states) && |outs| < |ops|
    requires Ready(s) && |s.task| == NR_TASKS && Went(states[|outs|], ops[|outs|], out, s)
    ensures Traced(ops, outs + [out], states + [s])
  {
    hide Ready, Went, Sane;
    var os, ss := outs + [out], states + [s];
    forall x | 0 <= x < |ss| ensures Ready(ss[x]) && |ss[x].task| == NR_TASKS {
      if x < |states| { assert ss[x] == states[x]; }
    }
    forall x | 0 <= x < |os| ensures Went(ss[x], ops[x], os[x], ss[x + 1]) {
      if x < |outs| { assert ss[x + 1] == states[x + 1] && os[x] == outs[x]; }
    }
  }

  // So the paged machine shows each task what the reference machine shows it, at every step.
  lemma {:induction false} TraceRuns(ops: seq<Op>, outs: seq<Outcome>, states: seq<State>, n: nat)
    requires (forall x :: 0 <= x < |ops| ==> Sane(ops[x])) && Traced(ops, outs, states) && n <= |outs|
    ensures WorldOf(states[n]) == RefRun(WorldOf(states[0]), ops, outs[..n])
  {
    hide Ready, Expected, LossRight, AreaRight, Sane, WorldOf, RefStep;
    if n > 0 {
      TraceRuns(ops, outs, states, n - 1);
      assert outs[..n][..n - 1] == outs[..n - 1];
      assert Went(states[n - 1], ops[n - 1], outs[n - 1], states[n]);
    }
  }

  // Is there a count that one more would wrap around?
  method AnyFull(mm: Mm) returns (yes: bool)
    ensures yes <==> !Unfilled(mm.St())
  {
    yes := false;
    for f := 0 to mm.memMap.Length
      invariant yes <==> exists g :: 0 <= g < f && mm.memMap[g] >= 255
    {
      if mm.memMap[f] >= 255 { yes := true; }
    }
  }

  // A run stops at its end, after a panic, or before a fork while some frame is counted 255 times.
  ghost predicate Stopped(s: State, ops: seq<Op>, outs: seq<Outcome>) requires |outs| <= |ops| {
    && (forall x :: 0 <= x < |outs| - 1 ==> outs[x] != Panic)
    && (|outs| < |ops| ==> (outs != [] && outs[|outs| - 1] == Panic) || (ops[|outs|].Clone? && !Unfilled(s)))
  }

  // Every run, from any good state.
  method Run(mm: Mm, ops: seq<Op>) returns (outs: seq<Outcome>, ghost states: seq<State>)
    requires Ready(mm.St()) && forall x :: 0 <= x < |ops| ==> Sane(ops[x])
    modifies mm, mm.memMap, mm.ram, mm.task
    ensures Traced(ops, outs, states) && states[0] == old(mm.St()) && states[|outs|] == mm.St()
    ensures Stopped(mm.St(), ops, outs)
    ensures Ready(mm.St()) && mm.task.Length == NR_TASKS && old(|mm.St().task|) == NR_TASKS
    ensures WorldOf(mm.St()) == RefRun(old(WorldOf(mm.St())), ops, outs)
  {
    ReadyShape(mm.St());
    hide Inv, Went, Traced, Sane, Unfilled, WorldOf;
    outs, states := [], [mm.St()];
    TracedNone(ops, mm.St());
    while |outs| < |ops|
      invariant Ready(mm.St()) && mm.task.Length == NR_TASKS && |states| == |outs| + 1 <= |ops| + 1
      invariant Traced(ops, outs, states) && Panic !in outs
      invariant states[0] == old(mm.St()) && states[|outs|] == mm.St()
    {
      if ops[|outs|].Clone? {
        var full := AnyFull(mm);
        if full { break; }
      }
      var out := Step(mm, ops[|outs|]);
      ReadyShape(mm.St());
      TracedMore(ops, outs, states, out, mm.St());
      outs, states := outs + [out], states + [mm.St()];
      if out == Panic { break; }
    }
    TraceRuns(ops, outs, states, |outs|);
    assert outs[..|outs|] == outs;
  }

  // The same from mem_init on: nobody has any memory yet, and nothing is lost.
  method Boot(start: nat, end: nat, image: nat -> Frame, ops: seq<Op>)
    returns (mm: Mm, outs: seq<Outcome>, ghost states: seq<State>)
    requires start <= PAGING_PAGES && end <= PAGING_PAGES && forall x :: 0 <= x < |ops| ==> Sane(ops[x])
    ensures Traced(ops, outs, states) && states[|outs|] == mm.St()
    ensures FreeBetween(states[0], start, end) && states[0].lost == NothingLost() && WorldOf(states[0]) == NewWorld()
    ensures Stopped(mm.St(), ops, outs)
    ensures mm.task.Length == NR_TASKS && WorldOf(mm.St()) == RefRun(NewWorld(), ops, outs)
  {
    hide Inv, RefRun, WorldOf, Traced, Sane, Unfilled, NewWorld, Stopped;
    mm := new Mm(start, end, image);
    NothingYet(mm.St());
    outs, states := Run(mm, ops);
  }

  function NewWorld(): (w: World)
    ensures Sized(w)
  { World(seq(NR_TASKS, _ => map[]), seq(NR_TASKS, t => if t == 0 then Bare else Nobody)) }

  lemma NothingYet(s: State)
    requires |s.task| == NR_TASKS
    requires forall t :: 0 <= t < NR_TASKS ==> s.task[t] == if t == 0 then Task(-1, -1) else NoTask
    ensures WorldOf(s) == NewWorld()
  {
    forall t | 0 <= t < NR_TASKS ensures Views(s)[t] == map[] { NoDirNoPages(s, Proc(t)); }
    assert Kinds(s.task) == NewWorld().kinds;
  }
}
