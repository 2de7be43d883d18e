// File descriptors (fs/open.c, fs/fcntl.c, fs/pipe.c, and what fork, kernel_thread and exit do to them).
module Descriptors {
  import opened Limits

  const NR_OPEN := 20
  const NR_FILE := 64

  datatype File = File(count: int, inode: int)
  // filp: slot fd of task t is at t * NR_OPEN + fd, -1 for NULL. held: the references to inodes that open files own.
  datatype State = State(filp: seq<int>, file: seq<File>, held: multiset<int>)

  ghost function Slots(s: State, f: int): set<int> { set i | 0 <= i < |s.filp| && s.filp[i] == f }
  ghost function Users(s: State, x: int): set<int> {
    set f | 0 <= f < |s.file| && s.file[f].count > 0 && s.file[f].inode == x
  }

  ghost predicate Shape(s: State) {
    |s.filp| == NR_TASKS * NR_OPEN && |s.file| == NR_FILE && forall i :: 0 <= i < |s.filp| ==> -1 <= s.filp[i] < NR_FILE
  }

  // f_count is the number of slots, in all tasks, that point to the file.
  ghost predicate Counted(s: State) { forall f :: 0 <= f < |s.file| ==> s.file[f].count == |Slots(s, f)| }
  // Each file in use owns one reference to its inode.
  ghost predicate Owned(s: State) { forall x :: s.held[x] == |Users(s, x)| }
  ghost predicate Inv(s: State) { Shape(s) && Counted(s) && Owned(s) }

  // ---- one slot changes
  lemma SlotChange(s: State, s': State, i: int, g: int)
    requires 0 <= i < |s.filp| == |s'.filp| && s'.filp == s.filp[i := s'.filp[i]]
    ensures |Slots(s', g)| == |Slots(s, g)| - (if s.filp[i] == g then 1 else 0) + (if s'.filp[i] == g then 1 else 0)
  {
    var base := Slots(s, g) - {i};
    assert Slots(s, g) == if s.filp[i] == g then base + {i} else base;
    assert Slots(s', g) == if s'.filp[i] == g then base + {i} else base;
  }

  lemma UserChange(s: State, s': State, f: int, x: int)
    requires 0 <= f < |s.file| && |s'.file| == |s.file| && s'.file == s.file[f := s'.file[f]]
    ensures |Users(s', x)| == |Users(s, x)| - (if s.file[f].count > 0 && s.file[f].inode == x then 1 else 0)
                                            + (if s'.file[f].count > 0 && s'.file[f].inode == x then 1 else 0)
  {
    var base := Users(s, x) - {f};
    assert Users(s, x) == if s.file[f].count > 0 && s.file[f].inode == x then base + {f} else base;
    assert Users(s', x) == if s'.file[f].count > 0 && s'.file[f].inode == x then base + {f} else base;
  }

  // The 16-bit counter cannot overflow: there are only so many slots.
  lemma CountBound(s: State, f: int)
    requires Inv(s) && 0 <= f < NR_FILE
    ensures 0 <= s.file[f].count <= NR_TASKS * NR_OPEN < 65536
  { SlotsBound(s.filp, f); assert Slots(s, f) == SlotsIn(s.filp, f, |s.filp|); }
  ghost function SlotsIn(filp: seq<int>, f: int, n: nat): set<int>
    requires n <= |filp|
  {
    set i | 0 <= i < n && filp[i] == f
  }

  lemma {:induction false} SlotsBoundTo(filp: seq<int>, f: int, n: nat)
    requires n <= |filp|
    ensures |SlotsIn(filp, f, n)| <= n
  {
    if n > 0 {
      SlotsBoundTo(filp, f, n - 1);
      assert SlotsIn(filp, f, n) == SlotsIn(filp, f, n - 1) + (if filp[n - 1] == f then {n - 1} else {});
    } else { assert SlotsIn(filp, f, 0) == {}; }
  }

  lemma SlotsBound(filp: seq<int>, f: int)
    ensures |SlotsIn(filp, f, |filp|)| <= |filp|
  { SlotsBoundTo(filp, f, |filp|); }

  // A free slot takes a file that is in use.
  function Share(s: State, i: int, f: int): State
    requires 0 <= i < |s.filp| && 0 <= f < |s.file|
  { s.(filp := s.filp[i := f], file := s.file[f := s.file[f].(count := s.file[f].count + 1)]) }

  lemma ShareOk(s: State, i: int, f: int)
    requires Inv(s) && 0 <= i < |s.filp| && s.filp[i] == -1 && 0 <= f < NR_FILE && s.file[f].count > 0
    ensures Inv(Share(s, i, f))
  {
    hide Slots, Users;
    var s' := Share(s, i, f);
    forall g | 0 <= g < NR_FILE ensures s'.file[g].count == |Slots(s', g)| { SlotChange(s, s', i, g); }
    forall x ensures s'.held[x] == |Users(s', x)| { UserChange(s, s', f, x); }
  }

  // A free slot takes a free file, with an inode that has been opened for it.
  function Take(s: State, i: int, f: int, x: int): State
    requires 0 <= i < |s.filp| && 0 <= f < |s.file|
  { State(s.filp[i := f], s.file[f := File(1, x)], s.held + multiset{x}) }

  lemma TakeOk(s: State, i: int, f: int, x: int)
    requires Inv(s) && 0 <= i < |s.filp| && s.filp[i] == -1 && 0 <= f < NR_FILE && s.file[f].count == 0
    ensures Inv(Take(s, i, f, x))
  {
    hide Slots, Users;
    var s' := Take(s, i, f, x);
    forall g | 0 <= g < NR_FILE ensures s'.file[g].count == |Slots(s', g)| { SlotChange(s, s', i, g); }
    forall y ensures s'.held[y] == |Users(s', y)| { UserChange(s, s', f, y); }
  }

  // A slot lets go of its file, and with the last one the inode goes.
  function Drop(s: State, i: int): State
    requires 0 <= i < |s.filp| && 0 <= s.filp[i] < |s.file|
  {
    var f := s.filp[i];
    var s1 := s.(filp := s.filp[i := -1], file := s.file[f := s.file[f].(count := s.file[f].count - 1)]);
    if s1.file[f].count == 0 then s1.(held := s1.held - multiset{s.file[f].inode}) else s1
  }

  lemma InUse(s: State, i: int)
    requires Inv(s) && 0 <= i < |s.filp| && s.filp[i] != -1
    ensures s.file[s.filp[i]].count > 0
  { assert i in Slots(s, s.filp[i]); }

  lemma DropOk(s: State, i: int)
    requires Inv(s) && 0 <= i < |s.filp| && s.filp[i] != -1
    ensures Inv(Drop(s, i))
    // the inode is given up exactly with the last slot
    ensures Drop(s, i).held != s.held <==> Slots(s, s.filp[i]) == {i}
  {
    InUse(s, i);
    assert i in Slots(s, s.filp[i]);
    hide Slots, Users;
    var s', f := Drop(s, i), s.filp[i];
    forall g | 0 <= g < NR_FILE ensures s'.file[g].count == |Slots(s', g)| { SlotChange(s, s', i, g); }
    forall y ensures s'.held[y] == |Users(s', y)| { UserChange(s, s', f, y); }
    Held(s, f);
    OneLeft(Slots(s, f), i);
  }

  lemma Held(s: State, f: int)
    requires Inv(s) && 0 <= f < NR_FILE && s.file[f].count > 0
    ensures s.held[s.file[f].inode] > 0
  { assert f in Users(s, s.file[f].inode); }

  lemma OneLeft(a: set<int>, i: int)
    requires i in a
    ensures |a| == 1 <==> a == {i}
  {
    assert a == (a - {i}) + {i};
    if |a| == 1 { assert a - {i} == {}; }
  }

  const EINVAL := -22
  const EBADF := -9
  const EMFILE := -24

  function At(t: int, fd: int): int { t * NR_OPEN + fd }

  lemma AtApart(t: int, fd: int, u: int, gd: int)
    requires TaskFd(t, fd) && TaskFd(u, gd)
    ensures At(t, fd) == At(u, gd) <==> t == u && fd == gd
    ensures 0 <= At(t, fd) < NR_TASKS * NR_OPEN
  {}
  predicate TaskFd(t: int, fd: int) { 0 <= t < NR_TASKS && 0 <= fd < NR_OPEN }

  // fd is the lowest free descriptor of t from lo on
  ghost predicate LowestFd(s: State, t: int, lo: int, fd: int) {
    |s.filp| == NR_TASKS * NR_OPEN && TaskFd(t, fd) && lo <= fd && s.filp[At(t, fd)] == -1
      && forall d :: lo <= d < fd && TaskFd(t, d) ==> s.filp[At(t, d)] != -1
  }

  ghost predicate NoFd(s: State, t: int, lo: int) {
    |s.filp| == NR_TASKS * NR_OPEN && forall d :: lo <= d < NR_OPEN && TaskFd(t, d) ==> s.filp[At(t, d)] != -1
  }

  ghost predicate LowestFile(s: State, f: int) {
    0 <= f < |s.file| && s.file[f].count == 0 && forall g :: 0 <= g < f ==> s.file[g].count != 0
  }

  ghost predicate NoFile(s: State) { forall g :: 0 <= g < |s.file| ==> s.file[g].count != 0 }
  // At most one file, f, is free.
  ghost predicate OneFile(s: State, f: int) { forall g :: 0 <= g < |s.file| && g != f ==> s.file[g].count != 0 }

  // At most one descriptor of t, a, is free.
  ghost predicate OneFd(s: State, t: int, a: int) {
    |s.filp| == NR_TASKS * NR_OPEN && forall d :: TaskFd(t, d) && d != a ==> s.filp[At(t, d)] != -1
  }

  // sys_close: the slot is emptied if there was something in it.
  ghost predicate Closed(s: State, s': State, t: int, fd: int, r: int) {
    |s.filp| == NR_TASKS * NR_OPEN && |s.file| == NR_FILE && 0 <= t < NR_TASKS && 0 <= fd &&
    if fd < NR_OPEN && 0 <= s.filp[At(t, fd)] < NR_FILE then r == 0 && s' == Drop(s, At(t, fd))
    else r == EINVAL && s' == s
  }

  // dupfd: the lowest free slot from arg on leads to the same file.
  ghost predicate Duplicated(s: State, s': State, t: int, fd: int, arg: int, r: int) {
    |s.filp| == NR_TASKS * NR_OPEN && |s.file| == NR_FILE && 0 <= t < NR_TASKS && 0 <= fd &&
    if !(fd < NR_OPEN && 0 <= s.filp[At(t, fd)] < NR_FILE) then r == EBADF && s' == s
    else if arg >= NR_OPEN then r == EINVAL && s' == s
    else if NoFd(s, t, arg) then r == EMFILE && s' == s
    else LowestFd(s, t, arg, r) && s' == Share(s, At(t, r), s.filp[At(t, fd)])
  }

  class Table {
    const filp: array<int>
    const file: array<File>
    // what iget, new_inode and get_pipe_inode have handed to open files, less what iput took back
    ghost var held: multiset<int>

    ghost function St(): State reads this, filp, file { State(filp[..], file[..], held) }
    ghost predicate Apart() { filp as object != file }
    ghost predicate Valid() reads this, filp, file { Apart() && Inv(St()) }

    constructor ()
      ensures Valid() && fresh(filp) && fresh(file) && held == multiset{}
      ensures forall i :: 0 <= i < filp.Length ==> filp[i] == -1
    {
      filp := new int[NR_TASKS * NR_OPEN](_ => -1);
      file := new File[NR_FILE](_ => File(0, 0));
      held := multiset{};
      new;
      assert forall f :: 0 <= f < NR_FILE ==> Slots(St(), f) == {};
      assert forall x :: Users(St(), x) == {};
    }

    method FindFd(t: int, lo: int) returns (fd: int)
      requires Shape(St()) && 0 <= t < NR_TASKS && 0 <= lo
      ensures fd == -1 ==> NoFd(St(), t, lo)
      ensures fd != -1 ==> LowestFd(St(), t, lo, fd)
    {
      fd := lo;
      while fd < NR_OPEN
        invariant lo <= fd && forall d :: lo <= d < fd && TaskFd(t, d) ==> filp[At(t, d)] != -1
      {
        if filp[At(t, fd)] == -1 { return; }
        fd := fd + 1;
      }
      fd := -1;
    }

    method FindFile() returns (f: int)
      requires Shape(St())
      ensures f == -1 ==> NoFile(St())
      ensures f != -1 ==> LowestFile(St(), f)
    {
      f := 0;
      while f < NR_FILE
        invariant 0 <= f <= NR_FILE && forall g :: 0 <= g < f ==> file[g].count != 0
      {
        if file[f].count == 0 { return; }
        f := f + 1;
      }
      f := -1;
    }

    // sys_open; inode is what open_namei answers: an inode it has opened, or a negative error
    method Open(t: int, inode: int) returns (fd: int)
      requires Valid() && 0 <= t < NR_TASKS
      modifies this`held, filp, file
      ensures Valid()
      ensures fd < 0 ==> St() == old(St())
      ensures fd >= 0 ==>
        inode >= 0 && LowestFd(old(St()), t, 0, fd)
          && exists f :: LowestFile(old(St()), f) && St() == Take(old(St()), At(t, fd), f, inode)
      ensures NoFd(old(St()), t, 0) || NoFile(old(St())) ==> fd == EINVAL
      ensures !NoFd(old(St()), t, 0) && !NoFile(old(St())) ==> (if inode < 0 then fd == inode else fd >= 0)
    {
      ghost var s := St();
      fd := FindFd(t, 0);
      if fd == -1 { return EINVAL; }
      var f := FindFile();
      if f == -1 { return EINVAL; }
      var i := At(t, fd);
      filp[i] := f;
      file[f] := file[f].(count := file[f].count + 1);
      if inode < 0 {
        filp[i] := -1;
        file[f] := file[f].(count := 0);
        assert filp[..] == s.filp && file[..] == s.file;
        return inode;
      }
      TakeOk(s, i, f, inode);
      file[f] := File(1, inode);
      held := held + multiset{inode};
      assert St() == Take(s, i, f, inode);
    }

    // sys_close
    method Close(t: int, fd: int) returns (r: int)
      requires Valid() && 0 <= t < NR_TASKS && 0 <= fd
      modifies this`held, filp, file
      ensures Valid() && Closed(old(St()), St(), t, fd, r)
    {
      if fd >= NR_OPEN { return EINVAL; }
      var i := At(t, fd);
      var f := filp[i];
      if f == -1 { return EINVAL; }
      ghost var s := St();
      DropOk(s, i);
      InUse(s, i);
      hide Inv;
      filp[i] := -1;
      file[f] := file[f].(count := file[f].count - 1);
      if file[f].count != 0 { return 0; }
      held := held - multiset{file[f].inode};
      return 0;
    }

    // dupfd
    method Dupfd(t: int, fd: int, arg: int) returns (r: int)
      requires Valid() && 0 <= t < NR_TASKS && 0 <= fd && 0 <= arg
      modifies filp, file
      ensures Valid() && Duplicated(old(St()), St(), t, fd, arg, r)
    {
      if fd >= NR_OPEN { return EBADF; }
      if filp[At(t, fd)] == -1 { return EBADF; }
      if arg >= NR_OPEN { return EINVAL; }
      r := FindFd(t, arg);
      if r == -1 { return EMFILE; }
      ghost var s := St();
      var f := filp[At(t, fd)];
      InUse(s, At(t, fd));
      ShareOk(s, At(t, r), f);
      hide Inv;
      filp[At(t, r)] := f;
      file[f] := file[f].(count := file[f].count + 1);
      assert St() == Share(s, At(t, r), f);
    }

    // sys_dup2: newfd is closed first, so that a descriptor cannot be duplicated onto itself.
    method Dup2(t: int, oldfd: int, newfd: int) returns (r: int)
      requires Valid() && 0 <= t < NR_TASKS && 0 <= oldfd && 0 <= newfd
      modifies this`held, filp, file
      ensures Valid() && exists s1, c :: Closed(old(St()), s1, t, newfd, c) && Duplicated(s1, St(), t, oldfd, newfd, r)
      ensures r == newfd <==> oldfd < NR_OPEN && newfd < NR_OPEN && old(filp[..])[At(t, oldfd)] != -1 && oldfd != newfd
      ensures r != newfd ==> r < 0
      ensures r == newfd ==> filp[At(t, newfd)] == filp[At(t, oldfd)] == old(filp[..])[At(t, oldfd)]
      ensures oldfd == newfd < NR_OPEN ==> filp[At(t, newfd)] == -1
      ensures forall i :: 0 <= i < filp.Length && i != At(t, newfd) ==> filp[i] == old(filp[i])
    {
      ghost var s := St();
      var c := Close(t, newfd);
      r := Dupfd(t, oldfd, newfd);
    }

    // sys_pipe; inode is what get_pipe_inode answers, negative for none. Two files share it, and it has two users.
    method Pipe(t: int, inode: int) returns (fd0: int, fd1: int)
      requires Valid() && 0 <= t < NR_TASKS
      modifies this`held, filp, file
      ensures Valid()
      ensures fd0 == -1 ==> fd1 == -1 && St() == old(St())
      ensures fd0 == -1 ==> inode < 0 || (exists a :: OneFd(old(St()), t, a)) || (exists f :: OneFile(old(St()), f))
      ensures fd0 != -1 ==> exists f, g :: PipeMade(old(St()), St(), t, fd0, fd1, f, g, inode)
    {
      ghost var s := St();
      Shaped(s);
      hide Inv;
      var f, g := FindFiles();
      if g == -1 { return -1, -1; }
      fd0, fd1 := FindTwo(t);
      if fd1 == -1 || inode < 0 { return -1, -1; }
      AtApart(t, fd0, t, fd1);
      TakeTwo(s, At(t, fd0), f, At(t, fd1), g, inode);
      filp[At(t, fd0)] := f;
      filp[At(t, fd1)] := g;
      file[f] := File(1, inode);
      file[g] := File(1, inode);
      held := held + multiset{inode} + multiset{inode};
      assert St() == Take(Take(s, At(t, fd0), f, inode), At(t, fd1), g, inode);
      assert PipeMade(s, St(), t, fd0, fd1, f, g, inode);
    }

    // the first two free files
    method FindFiles() returns (f: int, g: int)
      requires Shape(St())
      ensures g != -1 ==>
        LowestFile(St(), f) && f < g < NR_FILE && file[g].count == 0 && forall h :: f < h < g ==> file[h].count != 0
      ensures g == -1 ==> OneFile(St(), f)
    {
      f := FindFile();
      if f == -1 { return -1, -1; }
      g := f + 1;
      while g < NR_FILE
        invariant f < g <= NR_FILE && forall h :: f < h < g ==> file[h].count != 0
      {
        if file[g].count == 0 { return; }
        g := g + 1;
      }
      g := -1;
    }

    method FindTwo(t: int) returns (a: int, b: int)
      requires Shape(St()) && 0 <= t < NR_TASKS
      ensures b != -1 ==> LowestFd(St(), t, 0, a) && LowestFd(St(), t, a + 1, b)
      ensures b == -1 ==> OneFd(St(), t, a)
    {
      b := -1;
      a := FindFd(t, 0);
      if a != -1 { b := FindFd(t, a + 1); }
    }

    // copy_process and kernel_thread: the child has the parent's descriptors.
    method Fork(t: int, c: int)
      requires Valid() && 0 <= t < NR_TASKS && 0 <= c < NR_TASKS && t != c
      requires forall fd :: TaskFd(c, fd) ==> filp[At(c, fd)] == -1
      modifies filp, file
      ensures Valid() && St().held == old(St()).held
      ensures forall u, fd :: TaskFd(u, fd) ==> filp[At(u, fd)] == old(filp[..])[At(if u == c then t else u, fd)]
      ensures forall f :: 0 <= f < NR_FILE ==> file[f].inode == old(file[..])[f].inode
    {
      ghost var s := St();
      assert Shape(s);
      for k := 0 to NR_OPEN
        invariant Valid() && St().held == s.held
        invariant Copied(s.filp, filp[..], t, c, k)
        invariant forall f :: 0 <= f < NR_FILE ==> file[f].inode == s.file[f].inode
      {
        assert TaskFd(t, k) && TaskFd(c, k);
        var f := filp[At(t, k)];
        ghost var was := filp[..];
        if f != -1 { Copy(At(t, k), At(c, k), f); }
        CopiedOne(s.filp, was, filp[..], t, c, k);
      }
    }

    method Copy(i: int, j: int, f: int)
      requires Valid() && 0 <= i < filp.Length && 0 <= j < filp.Length && filp[i] == f != -1 && filp[j] == -1
      modifies filp, file
      ensures Valid() && St().held == old(St()).held && filp[..] == old(filp[..])[j := f]
      ensures forall g :: 0 <= g < NR_FILE ==> file[g].inode == old(file[..])[g].inode
    {
      InUse(St(), i);
      ShareOk(St(), j, f);
      hide Inv;
      ghost var s := St();
      assert Shape(s) by { Shaped(s); }
      filp[j] := f;
      file[f] := file[f].(count := file[f].count + 1);
      assert St() == Share(s, j, f);
    }

    // do_exit: all descriptors of the task are closed.
    method Exit(t: int)
      requires Valid() && 0 <= t < NR_TASKS
      modifies this`held, filp, file
      ensures Valid()
      ensures forall u, fd :: TaskFd(u, fd) ==> filp[At(u, fd)] == if u == t then -1 else old(filp[..])[At(u, fd)]
      ensures forall f :: 0 <= f < NR_FILE ==> file[f].inode == old(file[..])[f].inode
    {
      ghost var s := St();
      for k := 0 to NR_OPEN
        invariant Valid() && Emptied(s, St(), t, k)
      {
        ghost var s1 := St();
        if filp[At(t, k)] != -1 {
          var r := Close(t, k);
        }
        EmptiedOne(s, s1, St(), t, k);
      }
    }
  }

  // The first k descriptors of t have been closed.
  ghost predicate Emptied(s: State, s': State, t: int, k: int) {
    && Shape(s) && Shape(s') && (forall f :: 0 <= f < NR_FILE ==> s'.file[f].inode == s.file[f].inode)
    && forall u, fd :: TaskFd(u, fd) ==> s'.filp[At(u, fd)] == if u == t && fd < k then -1 else s.filp[At(u, fd)]
  }

  lemma EmptiedOne(s: State, s1: State, s': State, t: int, k: int)
    requires Emptied(s, s1, t, k) && TaskFd(t, k) && Shape(s')
    requires s' == if s1.filp[At(t, k)] == -1 then s1 else Drop(s1, At(t, k))
    ensures Emptied(s, s', t, k + 1)
  {}

  // The first k descriptors of t have been copied to c, which had none.
  ghost predicate Copied(before: seq<int>, now: seq<int>, t: int, c: int, k: int) {
    && |before| == |now| == NR_TASKS * NR_OPEN && 0 <= t < NR_TASKS
    && forall u, fd :: TaskFd(u, fd) ==>
      now[At(u, fd)] == if u != c then before[At(u, fd)] else if fd >= k then -1 else before[At(t, fd)]
  }

  lemma CopiedOne(before: seq<int>, was: seq<int>, now: seq<int>, t: int, c: int, k: int)
    requires Copied(before, was, t, c, k) && TaskFd(t, k) && TaskFd(c, k) && t != c
    requires now == if was[At(t, k)] == -1 then was else was[At(c, k) := was[At(t, k)]]
    ensures Copied(before, now, t, c, k + 1)
  {}

  ghost predicate PipeMade(s: State, s': State, t: int, fd0: int, fd1: int, f: int, g: int, x: int) {
    && x >= 0 && LowestFd(s, t, 0, fd0) && LowestFd(s, t, fd0 + 1, fd1) && LowestFile(s, f)
    && f < g < |s.file| && s.file[g].count == 0 && (forall h :: f < h < g ==> s.file[h].count != 0)
    && s' == Take(Take(s, At(t, fd0), f, x), At(t, fd1), g, x)
  }

  lemma Shaped(s: State)
    requires Inv(s)
    ensures Shape(s)
  {}

  lemma TakeTwo(s: State, i: int, f: int, j: int, g: int, x: int)
    requires Inv(s) && 0 <= i < |s.filp| && 0 <= j < |s.filp| && i != j && s.filp[i] == -1 && s.filp[j] == -1
    requires 0 <= f < NR_FILE && 0 <= g < NR_FILE && f != g && s.file[f].count == 0 && s.file[g].count == 0
    ensures Inv(Take(Take(s, i, f, x), j, g, x))
  {
    TakeOk(s, i, f, x);
    TakeOk(Take(s, i, f, x), j, g, x);
  }
}
