// Every run of the descriptor calls against open files that are never reused: the 64 counted entries of the file
// table behave as if each open made a new one.
module DescriptorRuns {
  import opened Limits
  import opened Descriptors
  import opened Counting

  // id: which open file a slot leads to, -1 for none; inode: of each open file ever made
  datatype Ref = Ref(id: seq<int>, inode: seq<int>)
  datatype Op =
    | Opens(t: int, inode: int)
    | Closes(t: int, fd: int)
    | Dups(t: int, fd: int, arg: int)
    | Dups2(t: int, a: int, b: int)
    | Pipes(t: int, inode: int)
    | Forks(t: int, c: int)
    | Exits(t: int)
  datatype Out = Fd(n: int) | Pair(a: int, b: int) | Done

  predicate Sized(r: Ref) { |r.id| == NR_TASKS * NR_OPEN }

  predicate Good(op: Op) {
    0 <= op.t < NR_TASKS &&
    match op
    case Closes(_, fd) => fd >= 0
    case Dups(_, fd, arg) => fd >= 0 && arg >= 0
    case Dups2(_, a, b) => a >= 0 && b >= 0
    case Forks(t, c) => 0 <= c < NR_TASKS && c != t
    case _ => true
  }

  // the lowest free descriptor of t from lo on, -1 if there is none
  function LowFd(r: Ref, t: int, lo: int): (fd: int)
    requires Sized(r) && 0 <= t < NR_TASKS && 0 <= lo
    ensures fd == -1 || (lo <= fd < NR_OPEN && r.id[At(t, fd)] == -1)
    ensures forall d :: lo <= d < NR_OPEN && (fd == -1 || d < fd) ==> r.id[At(t, d)] != -1
    decreases NR_OPEN - lo
  { if lo >= NR_OPEN then -1 else if r.id[At(t, lo)] == -1 then lo else LowFd(r, t, lo + 1) }
  function Ids(r: Ref): set<int> { set i | 0 <= i < |r.id| && r.id[i] != -1 :: r.id[i] }

  function RefClose(r: Ref, t: int, fd: int): (Ref, int)
    requires Sized(r) && 0 <= t < NR_TASKS && 0 <= fd
  {
    if fd >= NR_OPEN || r.id[At(t, fd)] == -1 then (r, EINVAL) else (r.(id := r.id[At(t, fd) := -1]), 0)
  }

  function RefDup(r: Ref, t: int, fd: int, arg: int): (Ref, int)
    requires Sized(r) && 0 <= t < NR_TASKS && 0 <= fd && 0 <= arg
  {
    if fd >= NR_OPEN || r.id[At(t, fd)] == -1 then (r, EBADF)
    else if arg >= NR_OPEN then (r, EINVAL)
    else
      var n := LowFd(r, t, arg);
      if n == -1 then (r, EMFILE) else (r.(id := r.id[At(t, n) := r.id[At(t, fd)]]), n)
  }

  function RowOf(i: int): int { i / NR_OPEN }

  function RefStep(r: Ref, op: Op): (Ref, Out)
    requires Sized(r) && Good(op)
  {
    match op
    case Opens(t, inode) =>
      var fd := LowFd(r, t, 0);
      if fd == -1 || |Ids(r)| == NR_FILE then (r, Fd(EINVAL))
      else if inode < 0 then (r, Fd(inode))
      else (Ref(r.id[At(t, fd) := |r.inode|], r.inode + [inode]), Fd(fd))
    case Closes(t, fd) => var c := RefClose(r, t, fd); (c.0, Fd(c.1))
    case Dups(t, fd, arg) => var c := RefDup(r, t, fd, arg); (c.0, Fd(c.1))
    case Dups2(t, a, b) => var c := RefDup(RefClose(r, t, b).0, t, a, b); (c.0, Fd(c.1))
    case Pipes(t, inode) =>
      var a := LowFd(r, t, 0);
      var b := if a == -1 then -1 else LowFd(r, t, a + 1);
      if b == -1 || |Ids(r)| > NR_FILE - 2 || inode < 0 then (r, Pair(-1, -1))
      else (Ref(r.id[At(t, a) := |r.inode|][At(t, b) := |r.inode| + 1], r.inode + [inode, inode]), Pair(a, b))
    case Forks(t, c) =>
      var id := seq(|r.id|, i requires 0 <= i < |r.id| =>
        if RowOf(i) == c then r.id[At(t, i % NR_OPEN)] else r.id[i]);
      (r.(id := id), Done)
    case Exits(t) => (r.(id := seq(|r.id|, i requires 0 <= i < |r.id| => if RowOf(i) == t then -1 else r.id[i])), Done)
  }

  // A descriptor duplicated onto itself is closed, and the call fails.
  lemma DupOntoItself(r: Ref, t: int, fd: int)
    requires Sized(r) && 0 <= t < NR_TASKS && 0 <= fd < NR_OPEN
    ensures var after := RefStep(r, Dups2(t, fd, fd)); after.1 == Fd(EBADF) && after.0.id[At(t, fd)] == -1
  {}

  // The same slots are free, the same slots share a file, and they lead to the same inodes.
  ghost predicate Alike(s: State, r: Ref) {
    && Sized(r) && |s.filp| == |r.id| && Shape(s)
    && (forall i :: 0 <= i < |r.id| ==> (s.filp[i] == -1 <==> r.id[i] == -1) && -1 <= r.id[i] < |r.inode|)
    && (forall i, j :: 0 <= i < |r.id| && 0 <= j < |r.id| && r.id[i] != -1 && r.id[j] != -1 ==>
      (s.filp[i] == s.filp[j] <==> r.id[i] == r.id[j]))
    && (forall i :: 0 <= i < |r.id| && r.id[i] != -1 ==> s.file[s.filp[i]].inode == r.inode[r.id[i]])
  }

  ghost function FilesInUse(s: State): set<int> { set f | 0 <= f < |s.file| && s.file[f].count > 0 }

  lemma InUseWhen(s: State, f: int)
    requires Inv(s) && 0 <= f < NR_FILE
    ensures s.file[f].count >= 0 && (s.file[f].count > 0 <==> exists i :: 0 <= i < |s.filp| && s.filp[i] == f)
  {
    if i :| 0 <= i < |s.filp| && s.filp[i] == f { assert i in Slots(s, f); }
    if s.file[f].count > 0 {
      var i :| i in Slots(s, f);
    }
  }

  // ---- when the table is full
  ghost function SlotOf(s: State, f: int): (i: int)
    requires exists i :: 0 <= i < |s.filp| && s.filp[i] == f
    ensures 0 <= i < |s.filp| && s.filp[i] == f
  { var i :| 0 <= i < |s.filp| && s.filp[i] == f; i }

  lemma SameNumber(s: State, r: Ref)
    requires Inv(s) && Alike(s, r)
    ensures |Ids(r)| == |FilesInUse(s)|
  {
    var u := FilesInUse(s);
    forall f | f in u ensures exists i :: 0 <= i < |s.filp| && s.filp[i] == f { InUseWhen(s, f); }
    var g := (f: int) => if f in u then r.id[SlotOf(s, f)] else -1;
    forall f | f in u ensures g(f) in Ids(r) {}
    forall n | n in Ids(r) ensures exists f :: f in u && g(f) == n {
      var i :| 0 <= i < |r.id| && r.id[i] != -1 && r.id[i] == n;
      InUseWhen(s, s.filp[i]);
      assert s.filp[i] in u && g(s.filp[i]) == n;
    }
    hide Inv;
    ImageSize(u, g, Ids(r));
  }

  lemma FullWhen(s: State, r: Ref)
    requires Inv(s) && Alike(s, r)
    ensures NoFile(s) <==> |Ids(r)| == NR_FILE
  {
    SameNumber(s, r);
    var all := Range(NR_FILE);
    forall f | 0 <= f < NR_FILE ensures s.file[f].count >= 0 { InUseWhen(s, f); }
    hide Inv, Ids;
    if NoFile(s) { assert FilesInUse(s) == all; }
    if |Ids(r)| == NR_FILE {
      SubsetSize(FilesInUse(s), all);
      forall f | 0 <= f < NR_FILE ensures s.file[f].count != 0 { assert f in all; }
    }
  }

  lemma NearlyFull(s: State, r: Ref, f: int)
    requires Inv(s) && Alike(s, r) && OneFile(s, f)
    ensures |Ids(r)| > NR_FILE - 2
  {
    SameNumber(s, r);
    forall g | 0 <= g < NR_FILE && g != f ensures g in FilesInUse(s) { InUseWhen(s, g); }
    OneMissing(FilesInUse(s), NR_FILE, f);
  }

  lemma TwoFree(s: State, r: Ref, f: int, g: int)
    requires Inv(s) && Alike(s, r) && 0 <= f < g < NR_FILE && s.file[f].count == 0 && s.file[g].count == 0
    ensures |Ids(r)| <= NR_FILE - 2
  {
    SameNumber(s, r);
    TwoMissing(FilesInUse(s), NR_FILE, f, g);
  }

  // ---- lowest descriptors
  lemma LowIs(s: State, r: Ref, t: int, lo: int, fd: int)
    requires Alike(s, r) && 0 <= t < NR_TASKS && 0 <= lo
    ensures LowestFd(s, t, lo, fd) ==> LowFd(r, t, lo) == fd
    ensures NoFd(s, t, lo) <==> LowFd(r, t, lo) == -1
  {
    var n := LowFd(r, t, lo);
    if LowestFd(s, t, lo, fd) {
      assert r.id[At(t, fd)] == -1;
      if n != -1 && n < fd { assert TaskFd(t, n); }
    }
    if n != -1 { assert TaskFd(t, n) && s.filp[At(t, n)] == -1; }
  }

  // ---- each change
  lemma ShareAlike(s: State, r: Ref, i: int, j: int)
    requires Inv(s) && Alike(s, r) && 0 <= i < |r.id| && 0 <= j < |r.id| && r.id[i] != -1
    ensures Alike(Share(s, j, s.filp[i]), r.(id := r.id[j := r.id[i]]))
  { hide Inv; }

  lemma TakeAlike(s: State, r: Ref, i: int, f: int, x: int)
    requires Inv(s) && Alike(s, r) && 0 <= i < |r.id| && r.id[i] == -1 && 0 <= f < NR_FILE && s.file[f].count == 0
    ensures Alike(Take(s, i, f, x), Ref(r.id[i := |r.inode|], r.inode + [x]))
  {
    forall k | 0 <= k < |s.filp| ensures s.filp[k] != f { InUseWhen(s, f); }
    hide Inv;
  }

  lemma DropAlike(s: State, r: Ref, i: int)
    requires Inv(s) && Alike(s, r) && 0 <= i < |r.id| && r.id[i] != -1
    ensures Alike(Drop(s, i), r.(id := r.id[i := -1]))
  { hide Inv; }

  method Step(table: Table, op: Op, ghost r: Ref) returns (out: Out)
    requires table.Valid() && Alike(table.St(), r) && Good(op)
    modifies table, table.filp, table.file
    ensures table.Valid() && Alike(table.St(), RefStep(r, op).0) && out == RefStep(r, op).1
  {
    ghost var s := table.St();
    hide Inv, Alike;
    match op {
      case Opens(t, inode) =>
        FullWhen(s, r);
        var fd := table.Open(t, inode);
        OpenAlike(s, table.St(), r, t, inode, fd);
        out := Fd(fd);
      case Closes(t, fd) =>
        var c := table.Close(t, fd);
        CloseAlike(s, table.St(), r, t, fd, c);
        out := Fd(c);
      case Dups(t, fd, arg) =>
        var c := table.Dupfd(t, fd, arg);
        DupAlike(s, table.St(), r, t, fd, arg, c);
        out := Fd(c);
      case Dups2(t, a, b) =>
        var c := table.Dup2(t, a, b);
        ghost var s1, e :| Closed(s, s1, t, b, e) && Duplicated(s1, table.St(), t, a, b, c);
        CloseAlike(s, s1, r, t, b, e);
        ClosedInv(s, s1, t, b, e);
        DupAlike(s1, table.St(), RefClose(r, t, b).0, t, a, b, c);
        out := Fd(c);
      case Pipes(t, inode) =>
        var a, b := table.Pipe(t, inode);
        PipeAlike(s, table.St(), r, t, inode, a, b);
        out := Pair(a, b);
      case Forks(t, c) =>
        table.Exit(c);
        ghost var s1 := table.St();
        RowsEmptied(s, s1, r, c);
        table.Fork(t, c);
        Shaped(table.St());
        ForkAlike(s1, table.St(), RefStep(r, Exits(c)).0, r, t, c);
        out := Done;
      case Exits(t) =>
        table.Exit(t);
        Shaped(table.St());
        RowsEmptied(s, table.St(), r, t);
        out := Done;
    }
  }

  lemma OpenAlike(s: State, s': State, r: Ref, t: int, inode: int, fd: int)
    requires Inv(s) && Alike(s, r) && 0 <= t < NR_TASKS && (NoFile(s) <==> |Ids(r)| == NR_FILE)
    requires fd < 0 ==> s' == s
    requires fd >= 0 ==>
      inode >= 0 && LowestFd(s, t, 0, fd) && exists f :: LowestFile(s, f) && s' == Take(s, At(t, fd), f, inode)
    requires NoFd(s, t, 0) || NoFile(s) ==> fd == EINVAL
    requires !NoFd(s, t, 0) && !NoFile(s) ==> (if inode < 0 then fd == inode else fd >= 0)
    ensures Alike(s', RefStep(r, Opens(t, inode)).0) && RefStep(r, Opens(t, inode)).1 == Fd(fd)
  {
    hide Ids, Inv;
    LowIs(s, r, t, 0, fd);
    if fd >= 0 {
      var f :| LowestFile(s, f) && s' == Take(s, At(t, fd), f, inode);
      TakeAlike(s, r, At(t, fd), f, inode);
    }
  }

  lemma CloseAlike(s: State, s': State, r: Ref, t: int, fd: int, c: int)
    requires Inv(s) && Alike(s, r) && Closed(s, s', t, fd, c)
    ensures RefClose(r, t, fd).1 == c && Alike(s', RefClose(r, t, fd).0)
  {
    hide Inv;
    if c == 0 { DropAlike(s, r, At(t, fd)); }
  }

  lemma ClosedInv(s: State, s': State, t: int, fd: int, c: int)
    requires Inv(s) && Closed(s, s', t, fd, c)
    ensures Inv(s')
  { if c == 0 { DropOk(s, At(t, fd)); } }

  lemma DupAlike(s: State, s': State, r: Ref, t: int, fd: int, arg: int, c: int)
    requires Inv(s) && Alike(s, r) && Duplicated(s, s', t, fd, arg, c) && 0 <= arg
    ensures RefDup(r, t, fd, arg).1 == c && Alike(s', RefDup(r, t, fd, arg).0)
  {
    hide Inv;
    LowIs(s, r, t, arg, c);
    if c >= 0 { ShareAlike(s, r, At(t, fd), At(t, c)); }
  }

  lemma PipeAlike(s: State, s': State, r: Ref, t: int, inode: int, a: int, b: int)
    requires Inv(s) && Alike(s, r) && 0 <= t < NR_TASKS
    requires a == -1 ==>
      b == -1 && s' == s && (inode < 0 || (exists d :: OneFd(s, t, d)) || (exists f :: OneFile(s, f)))
    requires a != -1 ==> exists f, g :: PipeMade(s, s', t, a, b, f, g, inode)
    ensures Alike(s', RefStep(r, Pipes(t, inode)).0) && RefStep(r, Pipes(t, inode)).1 == Pair(a, b)
  {
    hide Inv, Ids;
    if a == -1 {
      if d :| OneFd(s, t, d) { TwoFds(s, r, t, d); }
      if f :| OneFile(s, f) { NearlyFull(s, r, f); }
    } else {
      var f, g :| PipeMade(s, s', t, a, b, f, g, inode);
      LowIs(s, r, t, 0, a);
      LowIs(s, r, t, a + 1, b);
      TwoFree(s, r, f, g);
      TwoAlike(s, r, t, a, b, f, g, inode);
      hide Alike;
    }
  }

  lemma TwoAlike(s: State, r: Ref, t: int, a: int, b: int, f: int, g: int, x: int)
    requires Inv(s) && Alike(s, r) && TaskFd(t, a) && TaskFd(t, b) && a != b && r.id[At(t, a)] == -1
    requires r.id[At(t, b)] == -1
    requires 0 <= f < g < NR_FILE && s.file[f].count == 0 && s.file[g].count == 0
    ensures Alike(Take(Take(s, At(t, a), f, x), At(t, b), g, x),
      Ref(r.id[At(t, a) := |r.inode|][At(t, b) := |r.inode| + 1], r.inode + [x, x]))
  {
    AtApart(t, a, t, b);
    TakeAlike(s, r, At(t, a), f, x);
    TakeOk(s, At(t, a), f, x);
    TakeAlike(Take(s, At(t, a), f, x), Ref(r.id[At(t, a) := |r.inode|], r.inode + [x]), At(t, b), g, x);
    assert r.inode + [x] + [x] == r.inode + [x, x];
  }

  lemma TwoFds(s: State, r: Ref, t: int, d: int)
    requires Alike(s, r) && 0 <= t < NR_TASKS && OneFd(s, t, d)
    ensures LowFd(r, t, 0) == -1 || LowFd(r, t, LowFd(r, t, 0) + 1) == -1
  {
    var a := LowFd(r, t, 0);
    if a != -1 {
      assert TaskFd(t, a);
      var b := LowFd(r, t, a + 1);
      if b != -1 { assert TaskFd(t, b); }
    }
  }

  lemma Split(i: int)
    requires 0 <= i < NR_TASKS * NR_OPEN
    ensures TaskFd(RowOf(i), i % NR_OPEN) && At(RowOf(i), i % NR_OPEN) == i
  {}

  lemma RowsEmptied(s: State, s': State, r: Ref, t: int)
    requires Alike(s, r) && Shape(s') && 0 <= t < NR_TASKS
    requires (forall f :: 0 <= f < NR_FILE ==> s'.file[f].inode == s.file[f].inode)
    requires forall u, fd :: TaskFd(u, fd) ==> s'.filp[At(u, fd)] == if u == t then -1 else s.filp[At(u, fd)]
    ensures Alike(s', RefStep(r, Exits(t)).0)
  {
    forall i | 0 <= i < |r.id| ensures s'.filp[i] == if RowOf(i) == t then -1 else s.filp[i] { Split(i); }
    hide RowOf;
  }

  lemma ForkAlike(s: State, s': State, r1: Ref, r: Ref, t: int, c: int)
    requires Alike(s, r1) && Sized(r) && Shape(s') && 0 <= t < NR_TASKS && 0 <= c < NR_TASKS && t != c
    requires r1 == RefStep(r, Exits(c)).0
    requires forall f :: 0 <= f < NR_FILE ==> s'.file[f].inode == s.file[f].inode
    requires forall u, fd :: TaskFd(u, fd) ==> s'.filp[At(u, fd)] == s.filp[At(if u == c then t else u, fd)]
    ensures Alike(s', RefStep(r, Forks(t, c)).0)
  {
    var r' := RefStep(r, Forks(t, c)).0;
    forall i | 0 <= i < |r.id| ensures exists j :: 0 <= j < |r.id| && s'.filp[i] == s.filp[j] && r'.id[i] == r1.id[j] {
      Split(i);
      var j := if RowOf(i) == c then At(t, i % NR_OPEN) else i;
      assert s'.filp[i] == s.filp[j] && r'.id[i] == r1.id[j];
    }
    hide RowOf, RefStep;
  }

  function RefRun(r: Ref, ops: seq<Op>): (res: (Ref, seq<Out>))
    requires Sized(r) && forall i :: 0 <= i < |ops| ==> Good(ops[i])
    ensures |res.1| == |ops|
    decreases ops
  {
    if ops == [] then (r, []) else
      var s := RefStep(r, ops[0]);
      var t := RefRun(s.0, ops[1..]);
      (t.0, [s.1] + t.1)
  }

  // Descriptors never lead to a file that was closed and made anew: the counts say when an entry is free.
  method Run(table: Table, ops: seq<Op>, ghost r: Ref) returns (outs: seq<Out>)
    requires table.Valid() && Alike(table.St(), r) && Sized(r) && forall i :: 0 <= i < |ops| ==> Good(ops[i])
    modifies table, table.filp, table.file
    ensures table.Valid() && Alike(table.St(), RefRun(r, ops).0) && outs == RefRun(r, ops).1
    decreases ops
  {
    hide Inv, Alike, RefStep;
    if ops == [] { return []; }
    var out := Step(table, ops[0], r);
    AlikeSized(table.St(), RefStep(r, ops[0]).0);
    var rest := Run(table, ops[1..], RefStep(r, ops[0]).0);
    return [out] + rest;
  }

  lemma AlikeSized(s: State, r: Ref)
    requires Alike(s, r)
    ensures Sized(r)
  {}

  method Boot(ops: seq<Op>) returns (outs: seq<Out>)
    requires forall i :: 0 <= i < |ops| ==> Good(ops[i])
    ensures outs == RefRun(Ref(seq(NR_TASKS * NR_OPEN, _ => -1), []), ops).1
  {
    var table := new Table();
    ghost var r := Ref(seq(NR_TASKS * NR_OPEN, _ => -1), []);
    assert Alike(table.St(), r);
    outs := Run(table, ops, r);
  }
}
