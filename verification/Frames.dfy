// Physical memory as reference-counted frames (mm/memory.c): what names a frame, and when the counts are right.
module Frames {
  import opened Limits
  import opened Sv32

  const PAGING_PAGES := 32768
  const USED := 100

  type Frame = f: seq<Word> | |f| == 1024 ghost witness seq(1024, _ => ZERO)

  datatype Owner = Proc(t: int) | New(d: int)
  datatype Ref =
    | Leaf(o: Owner, i: int, j: int)
    | Table(o: Owner, i: int)
    | Dir(o: Owner)
    | Page(t: int)
    | Held(f: int)

  datatype Task = NoTask | Task(page: int, pgdir: int)
  // lost: how often a reference to the frame went away without free_page
  datatype State = State(count: seq<int>, ram: seq<Frame>, task: seq<Task>, held: set<int>, building: set<int>,
                         reserved: set<int>, lost: seq<nat>)

  predicate InRam(f: int) { 0 <= f < PAGING_PAGES }
  function FrameOf(w: Word): int { if w.ppn < 0x80000 then -2 else w.ppn - 0x80000 }

  predicate Shape(s: State) {
    && |s.count| == PAGING_PAGES && |s.ram| == PAGING_PAGES && |s.task| == NR_TASKS && |s.lost| == PAGING_PAGES
    && forall f | f in s.reserved :: InRam(f)
  }

  function DirOf(s: State, o: Owner): int {
    match o
    case Proc(t) => if 0 <= t < |s.task| && s.task[t].Task? then s.task[t].pgdir else -1
    case New(d) => if d in s.building then d else -1
  }

  function WordAt(s: State, f: int, k: int): Word {
    if 0 <= f < |s.ram| && 0 <= k < 1024 then s.ram[f][k] else ZERO
  }

  function TableOf(s: State, o: Owner, i: int): int {
    var w := WordAt(s, DirOf(s, o), i);
    if w.v then FrameOf(w) else -1
  }

  function LeafWord(s: State, o: Owner, i: int, j: int): Word {
    WordAt(s, TableOf(s, o, i), j)
  }

  function LeafOf(s: State, o: Owner, i: int, j: int): int {
    var w := LeafWord(s, o, i, j);
    if w.v then FrameOf(w) else -1
  }

  function Target(s: State, r: Ref): int {
    match r
    case Leaf(o, i, j) => LeafOf(s, o, i, j)
    case Table(o, i) => TableOf(s, o, i)
    case Dir(o) => DirOf(s, o)
    case Page(t) => if 0 <= t < |s.task| && s.task[t].Task? then s.task[t].page else -1
    case Held(f) => if f in s.held then f else -1
  }

  predicate IsOwner(o: Owner) {
    match o case Proc(t) => 0 <= t < NR_TASKS case New(d) => InRam(d)
  }

  predicate IsRef(r: Ref) {
    match r
    case Leaf(o, i, j) => IsOwner(o) && 0 <= i < 512 && 0 <= j < 1024
    case Table(o, i) => IsOwner(o) && 0 <= i < 512
    case Dir(o) => IsOwner(o)
    case Page(t) => 0 <= t < NR_TASKS
    case Held(f) => InRam(f)
  }

  ghost function Owners(): set<Owner> {
    (set t | 0 <= t < NR_TASKS :: Proc(t)) + (set d | 0 <= d < PAGING_PAGES :: New(d))
  }

  ghost function AllRefs(): (rs: set<Ref>)
    ensures forall r :: r in rs <==> IsRef(r)
  {
    (set o, i, j | o in Owners() && 0 <= i < 512 && 0 <= j < 1024 :: Leaf(o, i, j))
      + (set o, i | o in Owners() && 0 <= i < 512 :: Table(o, i))
      + (set o | o in Owners() :: Dir(o))
      + (set t | 0 <= t < NR_TASKS :: Page(t))
      + (set f | 0 <= f < PAGING_PAGES :: Held(f))
  }

  function LT(s: State, dead: set<Ref>, r: Ref): int {
    if IsRef(r) && r !in dead then Target(s, r) else -1
  }

  ghost function RefsTo(s: State, dead: set<Ref>, f: int): set<Ref> {
    set r | r in AllRefs() && LT(s, dead, r) == f
  }

  // A leaf is a user page that can be read; a directory maps nothing above the user half.
  ghost predicate GoodWords(s: State, r: Ref) {
    && (r.Leaf? ==> LeafWord(s, r.o, r.i, r.j).u && LeafWord(s, r.o, r.i, r.j).r)
    && (r.Dir? ==> forall k :: 512 <= k < 1024 ==> !WordAt(s, DirOf(s, r.o), k).v)
  }

  ghost predicate GoodTarget(s: State, dead: set<Ref>, r: Ref) {
    LT(s, dead, r) == -1 || (InRam(LT(s, dead, r)) && LT(s, dead, r) !in s.reserved && GoodWords(s, r))
  }

  ghost predicate TargetsOk(s: State, dead: set<Ref>) {
    forall r {:trigger LT(s, dead, r)} :: GoodTarget(s, dead, r)
  }

  ghost predicate MayShare(s: State, r: Ref, q: Ref) {
    && r.Leaf? && q.Leaf? && r.i == q.i && r.j == q.j
    && !LeafWord(s, r.o, r.i, r.j).w && !LeafWord(s, q.o, q.i, q.j).w
  }

  ghost predicate Exclusive(s: State, dead: set<Ref>) {
    forall r, q :: r != q && LT(s, dead, r) == LT(s, dead, q) != -1 ==> MayShare(s, r, q)
  }

  // A count is the number of references, those lost included.
  ghost predicate Counted(s: State, dead: set<Ref>) {
    && |s.count| == PAGING_PAGES == |s.lost|
    && forall f :: InRam(f) ==> s.count[f] == if f in s.reserved then USED else |RefsTo(s, dead, f)| + s.lost[f]
  }

  ghost predicate Inv(s: State, dead: set<Ref>) {
    Shape(s) && TargetsOk(s, dead) && Exclusive(s, dead) && Counted(s, dead)
  }

  lemma Retarget(s: State, dead: set<Ref>, s': State, dead': set<Ref>, r0: Ref, f: int)
    requires IsRef(r0) && f != -1
    requires forall r :: r != r0 ==> LT(s', dead', r) == LT(s, dead, r)
    ensures |RefsTo(s', dead', f)| == |RefsTo(s, dead, f)|
       - (if LT(s, dead, r0) == f then 1 else 0) + (if LT(s', dead', r0) == f then 1 else 0)
  {
    var a, b := RefsTo(s, dead, f), RefsTo(s', dead', f);
    assert a - {r0} == b - {r0};
    assert |a| == |a - {r0}| + (if r0 in a then 1 else 0);
    assert |b| == |b - {r0}| + (if r0 in b then 1 else 0);
  }
}
