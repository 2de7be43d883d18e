// The memory manager itself (mm/memory.c), with what fork, exit and exec do to pages.
module Memory {
  import opened Limits
  import opened Counting
  import opened Longs
  import opened Options
  import opened Sv32
  import opened Frames
  import opened Steps
  import opened Moves
  import opened Pages
  import opened Cow
  import opened Fork
  import opened Fault

  class Mm {
    const memMap: array<int>
    const ram: array<Frame>
    const task: array<Task>
    ghost var held: set<int>
    ghost var building: set<int>
    ghost const reserved: set<int>
    ghost var lost: seq<nat>

    // mem_init at boot: the frames from start up to end are free, all others are the kernel's for good; only task 0
    // exists
    constructor (start: nat, end: nat, image: nat -> Frame)
      requires start <= PAGING_PAGES && end <= PAGING_PAGES
      ensures fresh(memMap) && fresh(ram) && fresh(task)
      ensures Inv(St(), {}) && held == {} && building == {} && FreeBetween(St(), start, end) && lost == NothingLost()
      ensures task.Length == NR_TASKS
      ensures forall t :: 0 <= t < NR_TASKS ==> task[t] == if t == 0 then Task(-1, -1) else NoTask
    {
      memMap := new int[PAGING_PAGES](_ => USED);
      ram := new Frame[PAGING_PAGES](image);
      task := new Task[NR_TASKS](t => if t == 0 then Task(-1, -1) else NoTask);
      held, building, lost := {}, {}, NothingLost();
      reserved := Outside(start, end);
      new;
      var left, f := end - start, start;
      while left > 0
        invariant held == {} && building == {} && lost == NothingLost() && f + left == end && (f == start || f <= end)
        invariant forall g :: 0 <= g < PAGING_PAGES ==> memMap[g] == if start <= g < f then 0 else USED
        invariant forall t :: 0 <= t < NR_TASKS ==> task[t] == if t == 0 then Task(-1, -1) else NoTask
        decreases left
      {
        memMap[f] := 0;
        left, f := left - 1, f + 1;
      }
      BootInv(St(), start, end);
    }

    ghost function St(): State
      reads this, memMap, ram, task
    {
      State(memMap[..], ram[..], task[..], held, building, reserved, lost)
    }

    method PutCount(f: int, n: int)
      requires 0 <= f < memMap.Length
      modifies memMap
      ensures St() == SetCount(old(St()), f, n)
    {
      memMap[f] := n;
      assert memMap[..] == old(memMap[..])[f := n];
    }

    method PutWord(f: int, k: int, w: Word)
      requires 0 <= f < ram.Length && 0 <= k < 1024
      modifies ram
      ensures St() == SetWord(old(St()), f, k, w)
    {
      ram[f] := ram[f][k := w];
      assert ram[..] == old(ram[..])[f := old(ram[f])[k := w]];
    }

    method ZeroPage(f: int)
      requires 0 <= f < ram.Length
      modifies ram
      ensures St() == SetFrame(old(St()), f, ZeroFrame())
    {
      for k := 0 to 1024
        invariant forall m :: 0 <= m < k ==> ram[f][m] == ZERO
        invariant forall g :: 0 <= g < ram.Length && g != f ==> ram[g] == old(ram[g])
      {
        ram[f] := ram[f][k := ZERO];
      }
      assert ram[f] == ZeroFrame();
      assert ram[..] == old(ram[..])[f := ZeroFrame()];
    }

    method CopyPage(f: int, g: int)
      requires 0 <= f < ram.Length && 0 <= g < ram.Length && f != g
      modifies ram
      ensures St() == SetFrame(old(St()), g, old(ram[f]))
    {
      for k := 0 to 1024
        invariant forall m :: 0 <= m < k ==> ram[g][m] == ram[f][m]
        invariant forall h :: 0 <= h < ram.Length && h != g ==> ram[h] == old(ram[h])
      {
        ram[g] := ram[g][k := ram[f][k]];
      }
      assert ram[g] == ram[f];
      assert ram[..] == old(ram[..])[g := old(ram[f])];
    }

    // get_free_page; -1 stands for the address 0
    method GetFreePage() returns (f: int)
      requires Inv(St(), {})
      modifies this, memMap, ram
      ensures f == -1 ==> St() == old(St()) && Free(old(St())) == {}
      ensures f != -1 ==> InRam(f) && old(St()).count[f] == 0 && (forall g :: 0 <= g < f ==> old(St()).count[g] != 0)
      ensures f != -1 ==> St() == Alloc(old(St()), f)
      ensures Inv(St(), {}) && SamePages(old(St()), St())
    {
      var i := 0;
      while i < PAGING_PAGES
        invariant 0 <= i <= PAGING_PAGES
        invariant forall g :: 0 <= g < i ==> memMap[g] != 0
      {
        if memMap[i] == 0 {
          PutCount(i, 1);
          ZeroPage(i);
          held := held + {i};
          AllocInv(old(St()), i);
          return i;
        }
        i := i + 1;
      }
      return -1;
    }
  
    // free_page; the two panics are preconditions, an address below RAM is ignored
    method FreePage(f: int)
      requires memMap.Length == PAGING_PAGES && (f < 0 || (InRam(f) && memMap[f] != 0))
      modifies memMap
      ensures St() == if f < 0 then old(St()) else Uncount(old(St()), f)
    {
      if f < 0 { return; }
      PutCount(f, memMap[f] - 1);
    }

    // the table frame behind a directory entry, -1 if there is none
    method PteLookup(pgdir: int, i: int) returns (t: int)
      requires 0 <= i < 1024 && (pgdir == -1 || 0 <= pgdir < ram.Length)
      ensures t == if pgdir == -1 || !ram[pgdir][i].v then -1 else FrameOf(ram[pgdir][i])
    {
      if pgdir == -1 { return -1; }
      var dir := ram[pgdir][i];
      if !dir.v { return -1; }
      return FrameOf(dir);
    }

    // the first half of put_page_pgdir: a table for directory entry i
    method PutTable(pgdir: int, i: int, ghost o: Owner) returns (t: int)
      requires Inv(St(), {}) && IsOwner(o) && DirOf(St(), o) == pgdir != -1 && 0 <= i < 512
      modifies this, memMap, ram
      ensures building == old(building) && held == old(held) && lost == old(lost)
      ensures Inv(St(), {}) && SamePages(old(St()), St()) && ram.Length == PAGING_PAGES
      ensures t != -1 ==> DirGrew(old(St()), St(), pgdir, i) && CountsKept(old(St()), St(), -1)
      ensures t == -1 <==> TableOf(old(St()), o, i) == -1 && Free(old(St())) == {}
      ensures t == -1 ==> St() == old(St())
      ensures t != -1 ==> SoleTable(St(), o, i, t) && DirOf(St(), o) == pgdir
      ensures t != -1 ==> forall j :: 0 <= j < 1024 ==> WordAt(St(), t, j) == LeafWord(old(St()), o, i, j)
      ensures forall f :: f in held && InRam(f) ==> ram[f] == old(ram[f])
      ensures forall q, k, l :: SameEntry(old(St()), St(), q, k, l)
      ensures t != -1 ==> |Free(St())| == |Free(old(St()))| + 1 - EmptyCost(old(St()), o, i)
    {
      hide TargetsOk, Exclusive, Counted;
      ghost var s0 := St();
      DirIsSole(s0, o);
      t := PteLookup(pgdir, i);
      if t == -1 {
        t := GetFreePage();
        if t == -1 { return; }
        assert t in Free(s0);
        PutWord(pgdir, i, TableWord(t));
        held := held - {t};
        NewTableStep(s0, t, o, pgdir, i);
        forall q, k, l ensures SameEntry(s0, St(), q, k, l) { NewTableEntries(s0, t, o, pgdir, i, q, k, l); }
        AllocFree(s0, t);
        FreeSame(Alloc(s0, t), St());
        FreeIsPlain(s0, t);
      } else {
        TableIsSole(s0, o, i);
      }
    }

    method PutPagePgdir(pgdir: int, page: int, i: int, j: int, ghost o: Owner) returns (ok: bool)
      requires Inv(St(), {}) && IsOwner(o) && DirOf(St(), o) == pgdir != -1
      requires 0 <= i < 1024 && 0 <= j < 1024
      requires InRam(page) ==> page in held
      modifies this, memMap, ram
      ensures building == old(building)
      ensures ok <==> i < 512 && InRam(page) && (TableOf(old(St()), o, i) != -1 || Free(old(St())) != {})
      ensures Inv(St(), {})
      ensures !ok ==> SamePages(old(St()), St()) && held == old(held) && lost == old(lost)
      ensures ok ==> held == old(held) - {page}
      ensures ok ==>
        && PagesExcept(old(St()), St(), o, i, j) && PageAt(St(), o, i, j) == Some(old(ram[page]))
        && LeafWord(St(), o, i, j) == UserRwx(page) && EntriesExcept(old(St()), St(), o, i, j)
        && lost == LostWith(old(St()), o, i, j)
      ensures ok ==> |Free(St())| == |Free(old(St()))| + 1 - EmptyCost(old(St()), o, i)
      ensures ok ==> DirGrew(old(St()), St(), pgdir, i) && CountsKept(old(St()), St(), -1)
    {
      hide TargetsOk, Exclusive, Counted;
      if i >= 512 { return false; }
      if page < 0 || page >= PAGING_PAGES { return false; }
      var t := PutTable(pgdir, i, o);
      if t == -1 { return false; }
      ghost var s2 := St();
      SoleTableApart(s2, o, i, t);
      PutEntry(t, page, i, j, o);
      SamePagesThen(old(St()), s2, St(), o, i, j);
      EntriesThen(old(St()), s2, St(), o, i, j);
      assert SameEntry(old(St()), s2, o, i, j);
      SameLost(old(St()), s2, o, i, j);
      FreeSame(s2, St());
      return true;
    }

    // its second half: the entry, over whatever it was
    method PutEntry(t: int, page: int, i: int, j: int, ghost o: Owner)
      requires Inv(St(), {}) && SoleTable(St(), o, i, t) && IsRef(Leaf(o, i, j)) && InRam(page) && page in held
      modifies this`held, this`lost, ram
      ensures Inv(St(), {}) && held == old(held) - {page} && lost == LostWith(old(St()), o, i, j)
      ensures PagesExcept(old(St()), St(), o, i, j) && PageAt(St(), o, i, j) == Some(old(ram[page]))
      ensures LeafWord(St(), o, i, j) == UserRwx(page) && EntriesExcept(old(St()), St(), o, i, j)
      ensures forall g :: 0 <= g < ram.Length && g != t ==> ram[g] == old(ram[g])
    {
      hide TargetsOk, Exclusive, Counted, PageAt, LostWith;
      ghost var s := St();
      var w := UserRwx(page);
      PutWord(t, j, w);
      held := held - {page};
      ghost var s1 := St();
      assert s1 == InstallLeaf(s, t, j, page, w);
      InstallLeafPages(s, o, i, t, j, page, w);
      TableWriteEntries(s, o, i, t, j, w);
      UnheldEntries(s, SetWord(s, t, j, w), page, o, i, j);
      TableWrite(s, o, i, t, j, w, Leaf(o, i, j));
      UnheldIsNotTarget(SetWord(s, t, j, w), page, Leaf(o, i, j));
      lost := LostWith(s, o, i, j);
      EntryInv(s, o, i, t, j, page, w);
      LossUnseen(s1, lost);
      SamePagesAfter(s, s1, St(), o, i, j);
    }

    // one round of free_page_tables: every page under entry i, then the table, then the entry
    method FreeOneTable(pgdir: int, i: int, ghost o: Owner)
      requires Inv(St(), {}) && SoleDir(St(), o, pgdir) && IsRef(Table(o, i)) && WordAt(St(), pgdir, i).v
      modifies memMap, ram
      ensures Inv(St(), {}) && SoleDir(St(), o, pgdir)
      ensures St().ram == old(St()).ram[pgdir := old(St()).ram[pgdir][i := ZERO]]
    {
      hide TargetsOk, Exclusive, Counted, SoleDir;
      ghost var s0 := St();
      SoleDirInRam(s0, o, pgdir);
      var pt := FrameOf(ram[pgdir][i]);
      TableInRam(s0, o, i);
      ghost var dead: set<Ref> := {};
      for j := 0 to 1024
        invariant St() == s0.(count := memMap[..]) && Inv(St(), dead)
        invariant dead == LeavesBelow(s0, o, i, j)
      {
        if ram[pt][j].v {
          LeafAlive(s0, St(), dead, o, i, j);
          KillInv(St(), dead, Leaf(o, i, j));
          FreePage(FrameOf(ram[pt][j]));
          dead := dead + {Leaf(o, i, j)};
        }
        assert LeavesBelow(s0, o, i, j + 1) == LeavesBelow(s0, o, i, j)
          + (if LeafWord(s0, o, i, j).v then {Leaf(o, i, j)} else {});
      }
      CountsKeepTargets(s0, memMap[..], dead, Table(o, i));
      assert LT(St(), dead, Table(o, i)) == pt;
      KillInv(St(), dead, Table(o, i));
      FreePage(pt);
      dead := dead + {Table(o, i)};
      ghost var s1 := St();
      PutWord(pgdir, i, ZERO);
      AllDead(s0, s1, dead, o, i);
      CountsKeepSoleDir(s0, s1.count, o, pgdir);
      ClearDirInv(s1, dead, o, pgdir, i);
      ClearDirSole(s1, o, pgdir, i);
    }

    // free_page_tables: afterwards the directory frame is free too, and only the reference to it remains
    method FreePageTables(pgdir: int, ghost o: Owner)
      requires Inv(St(), {}) && IsOwner(o) && DirOf(St(), o) == pgdir
      modifies memMap, ram
      ensures pgdir == -1 ==> St() == old(St())
      ensures Inv(Undir(St(), o), {}) && OnlyOthers(old(St()), Undir(St(), o), o)
    {
      hide TargetsOk, Exclusive, Counted, SoleDir;
      ghost var s0 := St();
      if pgdir == -1 {
        NoDirNoPages(s0, o);
        return;
      }
      DirIsSole(s0, o);
      SoleDirInRam(s0, o, pgdir);
      for i := 0 to 512
        invariant Inv(St(), {}) && SoleDir(St(), o, pgdir)
        invariant forall k :: 0 <= k < i ==> !ram[pgdir][k].v
        invariant forall p, k, l :: p != o ==> SamePage(s0, St(), p, k, l)
      {
        if ram[pgdir][i].v {
          ghost var s1 := St();
          SoleDirInRam(s1, o, pgdir);
          FreeOneTable(pgdir, i, o);
          ClearDirPages(s1, St(), o, pgdir, i);
          forall p, k, l | p != o ensures SamePage(s0, St(), p, k, l) {
            assert SamePage(s0, s1, p, k, l) && SamePage(s1, St(), p, k, l);
          }
        }
      }
      ghost var s2 := St();
      SoleDirInRam(s2, o, pgdir);
      forall k | 0 <= k < 512 ensures !WordAt(s2, pgdir, k).v { assert WordAt(s2, pgdir, k) == ram[pgdir][k]; }
      DropDirInv(s2, o, pgdir);
      FreePage(pgdir);
      DropDirPages(s0, s2, Undir(St(), o), o);
    }

    // one round of the inner loop of copy_page_tables, for a page with few enough users for an unsigned char
    method ShareEntry(fromPt: int, toPt: int, j: int)
      requires 0 <= fromPt < ram.Length && 0 <= toPt < ram.Length && fromPt != toPt && 0 <= j < 1024
      requires var f := FrameOf(ram[fromPt][j]); 0 <= f < memMap.Length && 0 <= memMap[f] < 255
      modifies memMap, ram
      ensures St() == CowShare(old(St()), fromPt, toPt, j)
    {
      var thisPage := ram[fromPt][j].(w := false);
      PutWord(fromPt, j, thisPage);
      PutWord(toPt, j, thisPage);
      PutCount(FrameOf(thisPage), (memMap[FrameOf(thisPage)] + 1) % 256);
    }

    // the inner loop of copy_page_tables over the 1024 entries of one table
    method CopyOneTable(fromPt: int, toPt: int, i: int, ghost o: Owner, ghost p: Owner, ghost start: State)
      requires Inv(St(), {}) && SoleTable(St(), o, i, fromPt) && SoleTable(St(), p, i, toPt) && o != p
      requires IsRef(Table(o, i)) && IsRef(Table(p, i)) && ram[toPt] == ZeroFrame()
      requires Bumped(start, St(), p) && Unfilled(start)
      modifies memMap, ram
      ensures Inv(St(), {}) && Free(St()) == Free(old(St())) && Bumped(start, St(), p)
      ensures forall l :: 0 <= l < 1024 ==> Twin(St(), o, p, i, l)
      ensures forall l :: 0 <= l < 1024 ==> PageAt(St(), p, i, l) == PageAt(old(St()), o, i, l)
      ensures forall q, k, l :: q != p || k != i ==> SamePage(old(St()), St(), q, k, l)
      ensures forall g :: InRam(g) && g != fromPt && g != toPt ==> St().ram[g] == old(St()).ram[g]
    {
      hide TargetsOk, Exclusive, Counted, SoleTable;
      ghost var s0 := St();
      SoleTableFacts(s0, o, p, i, fromPt, toPt);
      for j := 0 to 1024
        invariant Copying(s0, St(), o, p, i, fromPt, toPt, j) && Bumped(start, St(), p)
        invariant Mirrored(St(), fromPt, toPt, j)
      {
        hide PageAt, SamePage, Copying, CowShare, Bumped;
        ghost var s := St();
        CopyingFacts(s0, s, o, p, i, fromPt, toPt, j);
        if ram[fromPt][j].v {
          CopyStep(s0, s, o, p, i, fromPt, toPt, j);
          BumpedShare(start, s, o, p, i, fromPt, toPt, j);
          BumpedLength(start, s, p);
          MirroredShare(s, fromPt, toPt, j);
          ShareEntry(fromPt, toPt, j);
        } else {
          CopySkip(s0, s, o, p, i, fromPt, toPt, j);
        }
      }
      CopyDone(s0, St(), o, p, i, fromPt, toPt);
      MirroredTwins(s0, St(), o, p, i, fromPt, toPt);
    }

    method CopyPageTables(fromPgdir: int, toPgdir: int, ghost o: Owner, ghost p: Owner) returns (ok: bool)
      requires Inv(St(), {}) && IsOwner(o) && IsOwner(p) && o != p && Unfilled(St())
      requires DirOf(St(), o) == fromPgdir != -1 && DirOf(St(), p) == toPgdir != -1
      requires forall k :: 0 <= k < 512 ==> !WordAt(St(), toPgdir, k).v
      modifies this, memMap, ram
      ensures Dup(old(St()), St(), o, p, fromPgdir, toPgdir, 512) || !ok
      ensures ok ==> Twins(St(), o, p, 512)
      ensures ok ==> |Free(St())| == |Free(old(St()))| - |TablesBelow(old(St()), fromPgdir, 512)|
      ensures ok <==> |Free(old(St()))| >= |TablesBelow(old(St()), fromPgdir, 512)|
      ensures Inv(St(), {}) && DirOf(St(), p) == toPgdir && St() == old(St()).(count := St().count, ram := St().ram)
      ensures forall q, k, l :: q != p ==> SamePage(old(St()), St(), q, k, l)
      ensures !ok && Free(old(St())) == {} ==> St() == old(St())
      ensures !ok && Free(old(St())) != {} ==> exists k :: 0 <= k < 512 && TableOf(St(), p, k) != -1
    {
      hide TargetsOk, Exclusive, Counted, Bumped, Twins;
      ghost var s0 := St();
      DupStart(s0, o, p, fromPgdir, toPgdir);
      ForkStarts(s0, o, p);
      for i := 0 to 512
        invariant Dup(s0, St(), o, p, fromPgdir, toPgdir, i) && DupCount(s0, St(), p, fromPgdir, i)
        invariant Bumped(s0, St(), p) && Twins(St(), o, p, i)
      {
        if !ram[fromPgdir][i].v {
          DupSkip(s0, St(), o, p, fromPgdir, toPgdir, i);
          TwinsSkip(St(), o, p, i);
          continue;
        }
        ok := CopyEntry(fromPgdir, toPgdir, i, o, p, s0);
        if !ok {
          DupFails(s0, St(), p, fromPgdir, i);
          return;
        }
      }
      return true;
    }

    // one directory entry that is there: a new table and its entries
    method CopyEntry(fromPgdir: int, toPgdir: int, i: int, ghost o: Owner, ghost p: Owner, ghost s0: State)
      returns (ok: bool)
      requires IsOwner(o) && IsOwner(p) && o != p && 0 <= i < 512 && Inv(s0, {}) && Unfilled(s0)
      requires Dup(s0, St(), o, p, fromPgdir, toPgdir, i) && DupCount(s0, St(), p, fromPgdir, i)
      requires Bumped(s0, St(), p) && Twins(St(), o, p, i) && WordAt(St(), fromPgdir, i).v
      modifies this, memMap, ram
      ensures ok ==> Dup(s0, St(), o, p, fromPgdir, toPgdir, i + 1) && DupCount(s0, St(), p, fromPgdir, i + 1)
      ensures ok ==> Bumped(s0, St(), p) && Twins(St(), o, p, i + 1)
      ensures !ok ==> St() == old(St()) && Free(St()) == {}
    {
      hide TargetsOk, Exclusive, Counted, SoleTable, PageAt, LeafWord, Bumped, Twins;
      ghost var s := St();
      var newTable := GetFreePage();
      if newTable == -1 { return false; }
      PutWord(toPgdir, i, TableWord(newTable));
      held := held - {newTable};
      ghost var s1 := St();
      DupTables(s, o, p, fromPgdir, toPgdir, i, newTable);
      TableStarts(s0, s, o, p, toPgdir, i, newTable);
      var fromPt := FrameOf(ram[fromPgdir][i]);
      CopyOneTable(fromPt, newTable, i, o, p, s0);
      TwoTables(s1, St(), o, p, i, fromPt, newTable);
      TwinsStep(s, s1, St(), o, p, i);
      DupStep(s0, s, St(), o, p, fromPgdir, toPgdir, i, newTable);
      DupCountStep(s0, s, St(), p, fromPgdir, toPgdir, i, newTable);
      return true;
    }

    method PutTask(t: int, x: Task)
      requires 0 <= t < task.Length
      modifies task
      ensures St() == SetTask(old(St()), t, x)
    {
      task[t] := x;
      assert task[..] == old(task[..])[t := x];
    }

    method PutFrame(f: int, p: Frame)
      requires 0 <= f < ram.Length
      modifies ram
      ensures St() == SetFrame(old(St()), f, p)
    {
      ram[f] := p;
      assert ram[..] == old(ram[..])[f := p];
    }

    // copy_process, kernel_thread: a page for the task structure, entered in slot nr
    method NewTask(nr: int, image: Frame) returns (p: int)
      requires Inv(St(), {}) && 0 <= nr < NR_TASKS && task[nr].NoTask?
      modifies this, memMap, ram, task
      ensures held == old(held) && building == old(building)
      ensures p == -1 ==> St() == old(St()) && Free(old(St())) == {}
      ensures p != -1 ==>
        && InRam(p) && old(St()).count[p] == 0 && St() == WithPage(old(St()), p, nr, image)
        && |Free(St())| == |Free(old(St()))| - 1
      ensures Inv(St(), {}) && SamePages(old(St()), St())
    {
      hide TargetsOk, Exclusive, Counted;
      ghost var s0 := St();
      p := GetFreePage();
      if p == -1 { return; }
      PutTask(nr, Task(p, -1));
      held := held - {p};
      PutFrame(p, image);
      WithPageInv(s0, p, nr, image);
    }

    // copy_process: an empty page directory for task nr
    method NewPgdir(nr: int) returns (d: int)
      requires Inv(St(), {}) && 0 <= nr < NR_TASKS && task[nr].Task? && task[nr].pgdir == -1
      modifies this, memMap, ram, task
      ensures held == old(held) && building == old(building)
      ensures d == -1 ==> St() == old(St()) && Free(old(St())) == {}
      ensures d != -1 ==>
        && InRam(d) && old(St()).count[d] == 0 && St() == WithDir(old(St()), d, nr)
        && |Free(St())| == |Free(old(St()))| - 1
        && (forall k :: 0 <= k < 512 ==> !WordAt(St(), d, k).v) && NoTables(St(), Proc(nr))
      ensures Inv(St(), {}) && SamePages(old(St()), St())
    {
      hide TargetsOk, Exclusive, Counted;
      ghost var s0 := St();
      d := GetFreePage();
      if d == -1 { return; }
      PutTask(nr, task[nr].(pgdir := d));
      held := held - {d};
      WithDirInv(s0, d, nr);
    }

    // copy_process's failure path once the child has a page and an (empty or partly filled) directory
    method DropChild(nr: int)
      requires Inv(St(), {}) && 0 <= nr < NR_TASKS && task[nr].Task? && task[nr].page != -1 && task[nr].pgdir != -1
      modifies this`lost, memMap, task
      ensures Inv(St(), {}) && (lost == old(lost) <==> NoTables(old(St()), Proc(nr)))
      ensures task[nr].NoTask? && forall t :: 0 <= t < NR_TASKS && t != nr ==> task[t] == old(task[t])
      ensures forall q, k, l :: q != Proc(nr) ==> SamePage(old(St()), St(), q, k, l)
    {
      hide TargetsOk, Exclusive, Counted;
      ghost var s := St();
      PageCounted(s, nr);
      var p, newPgdir := task[nr].page, task[nr].pgdir;
      PutTask(nr, NoTask);
      FreePage(newPgdir);
      FreePage(p);
      lost := LoseAll(s, Gone(nr)).lost;
      assert St() == Dropped(s, nr);
      DroppedPages(s, nr);
      DroppedInv(s, nr);
      DroppedLost(s, nr);
    }

    // copy_process for the pages: image is the task structure and trap frame the child's page receives
    method CopyProcess(current: int, nr: int, image: Frame) returns (ok: bool)
      requires Inv(St(), {}) && 0 <= current < NR_TASKS && task[current].Task? && task[current].pgdir != -1
      requires 0 <= nr < NR_TASKS && task[nr].NoTask? && Unfilled(St())
      modifies this, memMap, ram, task
      ensures Inv(St(), {}) && held == old(held) && building == old(building)
      ensures ok <==> |Free(old(St()))| >= 2 + |TablesBelow(old(St()), old(task[current].pgdir), 512)|
      ensures forall q, k, l :: q != Proc(nr) ==> SamePage(old(St()), St(), q, k, l)
      ensures ok ==> task[nr].Task? && task[nr].pgdir != -1 && SamePlaces(old(St()), Proc(current), St(), Proc(nr))
      ensures ok ==> Twins(St(), Proc(current), Proc(nr), 512)
      ensures ok ==> |Free(St())| == |Free(old(St()))| - 2 - |TablesBelow(old(St()), old(task[current].pgdir), 512)|
      ensures !ok ==> task[nr].NoTask?
      ensures lost == old(lost) <==> ok || |Free(old(St()))| <= 2
      ensures forall t :: 0 <= t < NR_TASKS && t != nr ==> task[t] == old(task[t])
    {
      hide TargetsOk, Exclusive, Counted, PageAt, SamePage, TableOf, Free, TablesBelow, Dup, SamePlaces, WordAt, Twins;
      ghost var s0 := St();
      var p := NewTask(nr, image);
      if p == -1 { return false; }
      ghost var s1 := St();
      KeepsTables(s0, s1, Proc(current), p);
      var newPgdir := NewPgdir(nr);
      if newPgdir == -1 {
        PutTask(nr, NoTask);
        ReleaseInv(s1, nr);
        FreePage(p);
        assert St() == SetTask(Uncount(s1, p), nr, NoTask);
        ReleasePages(s0, s1, nr);
        return false;
      }
      ghost var s2 := St();
      KeepsTables(s1, s2, Proc(current), newPgdir);
      SamePagesTrans(s0, s1, s2);
      ok := CopyPageTables(task[current].pgdir, newPgdir, Proc(current), Proc(nr));
      ghost var s3 := St();
      if !ok {
        FailedCopy(s2, s3, nr);
        DropChild(nr);
        OthersTrans(s0, s2, s3, St(), Proc(nr));
        return false;
      }
      DupGives(s0, s2, s3, Proc(current), Proc(nr), task[current].pgdir, newPgdir);
    }

    // do_exit for the pages: the task keeps its own page and becomes a zombie without an address space
    method DoExit(current: int)
      requires Inv(St(), {}) && 0 <= current < NR_TASKS && task[current].Task?
      modifies memMap, ram, task
      ensures Inv(St(), {}) && OnlyOthers(old(St()), St(), Proc(current))
      ensures Ended(old(task[..]), task[..], current)
    {
      hide TargetsOk, Exclusive, Counted;
      FreePageTables(task[current].pgdir, Proc(current));
      PutTask(current, task[current].(pgdir := -1));
    }

    // do_exit of a task whose father is gone: tell_father releases it at once
    method ExitAlone(current: int)
      requires Inv(St(), {}) && 0 <= current < NR_TASKS && task[current].Task? && task[current].page != -1
      modifies memMap, ram, task
      ensures Inv(St(), {}) && OnlyOthers(old(St()), St(), Proc(current)) && task[current].NoTask?
      ensures forall t :: 0 <= t < NR_TASKS && t != current ==> task[t] == old(task[t])
    {
      hide TargetsOk, Exclusive, Counted, OnlyOthers;
      ghost var s := St();
      DoExit(current);
      ghost var s1 := St();
      PageInRam(s1, current);
      Release(current);
      OthersThen(s, s1, St(), Proc(current));
    }

    // release: the zombie's page goes back, the slot is empty
    method Release(t: int)
      requires Inv(St(), {}) && 0 <= t < NR_TASKS && task[t].Task? && task[t].pgdir == -1 && InRam(task[t].page)
      modifies memMap, task
      ensures Inv(St(), {}) && OnlyOthers(old(St()), St(), Proc(t)) && task[t].NoTask?
      ensures forall u :: 0 <= u < NR_TASKS && u != t ==> task[u] == old(task[u])
    {
      hide TargetsOk, Exclusive, Counted;
      ghost var s := St();
      ReleaseInv(s, t);
      var p := task[t].page;
      PutTask(t, NoTask);
      FreePage(p);
      assert St() == SetTask(Uncount(s, p), t, NoTask);
      SamePagesRefl(s);
      ReleasePages(s, s, t);
      NoDirNoPages(St(), Proc(t));
    }

    // the tail of un_wp_page: one sharer less, the entry names the new page, the bytes follow
    method TakeCopy(pt: int, j: int, oldPage: int, newPage: int)
      requires memMap.Length == ram.Length == PAGING_PAGES && InRam(pt) && 0 <= j < 1024
      requires InRam(oldPage) && InRam(newPage) && oldPage != newPage && oldPage != pt
      modifies this, memMap, ram
      ensures St() == Privatize(old(St()), pt, j, oldPage, newPage)
    {
      PutCount(oldPage, memMap[oldPage] - 1);
      PutWord(pt, j, UserRw(newPage));
      held := held - {newPage};
      CopyPage(oldPage, newPage);
    }

    // un_wp_page for a shared page; refused without a free frame
    method PrivateCopy(pt: int, j: int, oldPage: int, ghost i: int, ghost o: Owner) returns (ok: bool)
      requires Inv(St(), {}) && IsRef(Leaf(o, i, j)) && LeafWord(St(), o, i, j).v && TableOf(St(), o, i) == pt
      requires LeafOf(St(), o, i, j) == oldPage && InRam(pt) && InRam(oldPage) && memMap[oldPage] > 1
      modifies this, memMap, ram
      ensures Inv(St(), {}) && held == old(held) && building == old(building) && lost == old(lost)
      ensures ok <==> Free(old(St())) != {}
      ensures !ok ==> St() == old(St())
      ensures ok ==> SamePages(old(St()), St()) && LeafWord(St(), o, i, j).v && LeafWord(St(), o, i, j).w
      ensures ok ==> !LeafWord(St(), o, i, j).x
      ensures ok ==> EntriesExcept(old(St()), St(), o, i, j) && |Free(St())| == |Free(old(St()))| - 1
      ensures ok ==> CountsKept(old(St()), St(), oldPage) && RamKept(old(St()), St(), pt)
    {
      hide TargetsOk, Exclusive, Counted, SoleTable, PageAt;
      ghost var s := St();
      TableIsSole(s, o, i);
      var newPage := GetFreePage();
      if newPage == -1 { return false; }
      ghost var s1 := St();
      AllocFree(s, newPage);
      FreeIsPlain(s, newPage);
      AllocKeepsLeaf(s, newPage, o, i, j);
      LeafIsNotTable(s, o, i, o, i, j);
      TakeCopy(pt, j, oldPage, newPage);
      PrivatizeFree(s1, pt, j, oldPage, newPage);
      PrivatizeInv(s1, o, i, pt, j, oldPage, newPage);
      SamePagesTrans(s, s1, St());
      PrivatizeEntries(s1, o, i, pt, j, oldPage, newPage);
      forall q, k, l ensures SameEntry(s, s1, q, k, l) { AllocEntries(s, newPage, q, k, l); }
      EntriesThen(s, s1, St(), o, i, j);
      return true;
    }

    method UnWpPage(current: int, i: int, j: int) returns (alive: bool)
      requires Inv(St(), {}) && 0 <= current < NR_TASKS && task[current].Task? && task[current].pgdir != -1
      requires IsRef(Leaf(Proc(current), i, j)) && LeafWord(St(), Proc(current), i, j).v
      modifies this, memMap, ram, task
      ensures Inv(St(), {}) && held == old(held) && building == old(building) && lost == old(lost)
      ensures !alive ==> OnlyOthers(old(St()), St(), Proc(current)) && Ended(old(task[..]), task[..], current)
      ensures alive ==>
        && SamePages(old(St()), St()) && LeafWord(St(), Proc(current), i, j).v && LeafWord(St(), Proc(current), i, j).w
        && task[..] == old(task[..])
      ensures alive ==> EntriesExcept(old(St()), St(), Proc(current), i, j)
      ensures alive ==>
        && CountsKept(old(St()), St(), LeafOf(old(St()), Proc(current), i, j))
        && DirGrew(old(St()), St(), old(task[current].pgdir), i)
      ensures alive ==> (LeafWord(St(), Proc(current), i, j).x <==>
        LeafWord(old(St()), Proc(current), i, j).x && SharedCost(old(St()), Proc(current), i, j) == 0)
      ensures alive <==> SharedCost(old(St()), Proc(current), i, j) <= |Free(old(St()))|
      ensures alive ==> |Free(St())| == |Free(old(St()))| - SharedCost(old(St()), Proc(current), i, j)
    {
      hide TargetsOk, Exclusive, Counted, SoleTable;
      ghost var s, o := St(), Proc(current);
      SoleDirIs(s, o);
      var pt := PteLookup(task[current].pgdir, i);
      assert pt == TableOf(s, o, i) && pt != -1;
      TableIsSole(s, o, i);
      TableInRam(s, o, i);
      KillCount(s, o, i, j);
      NoneOrSome(Free(s));
      var oldPage := FrameOf(ram[pt][j]);
      if memMap[oldPage] == 1 {
        PutWord(pt, j, ram[pt][j].(w := true));
        MakeWritable(s, o, i, pt, j);
        FreeSame(s, St());
        DirStays(s, St(), o, pt, i);
        TableWriteEntries(s, o, i, pt, j, s.ram[pt][j].(w := true));
        return true;
      }
      var ok := PrivateCopy(pt, j, oldPage, i, o);
      if !ok {
        DoExit(current);
        return false;
      }
      DirStays(s, St(), o, pt, i);
      return true;
    }

    method GetEmptyPage(current: int, i: int, j: int) returns (alive: bool)
      requires Inv(St(), {}) && 0 <= current < NR_TASKS && task[current].Task? && task[current].pgdir != -1
      requires 0 <= i < 1024 && 0 <= j < 1024
      modifies this, memMap, ram, task
      ensures Inv(St(), {}) && building == old(building) && held == old(held)
      ensures !alive ==>
        && OnlyOthers(old(St()), St(), Proc(current)) && Ended(old(task[..]), task[..], current) && lost == old(lost)
      ensures alive ==> i < 512 && task[..] == old(task[..])
      ensures alive ==>
        && FreshPage(old(St()), St(), Proc(current), i, j) && EntriesExcept(old(St()), St(), Proc(current), i, j)
        && lost == LostWith(old(St()), Proc(current), i, j)
      ensures alive ==> CountsKept(old(St()), St(), -1) && DirGrew(old(St()), St(), old(task[current].pgdir), i)
      ensures alive <==> i < 512 && EmptyCost(old(St()), Proc(current), i) <= |Free(old(St()))|
      ensures alive ==> |Free(St())| == |Free(old(St()))| - EmptyCost(old(St()), Proc(current), i)
    {
      hide TargetsOk, Exclusive, Counted, PageAt, SoleTable, LeafWord, OnlyOthers;
      ghost var s, o := St(), Proc(current);
      var tmp := GetFreePage();
      if tmp == -1 {
        DoExit(current);
        return false;
      }
      ghost var s1 := St();
      forall q, k, l ensures SameEntry(s, s1, q, k, l) { AllocEntries(s, tmp, q, k, l); }
      FreeIsPlain(s, tmp);
      AllocFree(s, tmp);
      AllocTable(s, tmp, o, i);
      DirStays(s, s1, o, -1, i);
      NoneOrSome(Free(s1));
      alive := PutPagePgdir(task[current].pgdir, tmp, i, j, o);
      if !alive {
        ghost var s2 := St();
        DropHeldCounted(s2, tmp);
        FreePage(tmp);
        held := held - {tmp};
        DropHeldInv(s2, tmp);
        ghost var s3 := St();
        SamePagesTrans(s, s1, s2);
        DoExit(current);
        OthersAfter(s, s2, s3, St(), tmp, o);
        return;
      }
      assert IsRef(Leaf(o, i, j)) && SameEntry(s, s1, o, i, j);
      SameLost(s, s1, o, i, j);
      EntriesThen(s, s1, St(), o, i, j);
      SamePagesThen(s, s1, St(), o, i, j);
    }

    // page_fault_handler at page (i, j); the entry's own fault address bits below the page are dropped first
    method PageFaultHandler(current: int, i: int, j: int, fromUser: bool) returns (alive: bool)
      requires Inv(St(), {}) && 0 <= current < NR_TASKS && task[current].Task? && task[current].pgdir != -1
      requires 0 <= i < 1024 && 0 <= j < 1024
      modifies this, memMap, ram, task
      ensures Inv(St(), {}) && building == old(building) && held == old(held)
      ensures !alive ==>
        && OnlyOthers(old(St()), St(), Proc(current)) && Ended(old(task[..]), task[..], current) && lost == old(lost)
      ensures alive ==> fromUser && i < 512 && task[..] == old(task[..])
      ensures alive && !Writable(old(St()), Proc(current), i, j) ==>
        && Resolved(old(St()), St(), Proc(current), i, j) && lost == old(lost)
        && (LeafWord(St(), Proc(current), i, j).x <==> RunsAfter(old(St()), Proc(current), i, j))
      ensures alive && Writable(old(St()), Proc(current), i, j) ==>
        && FreshPage(old(St()), St(), Proc(current), i, j) && EntriesExcept(old(St()), St(), Proc(current), i, j)
        && lost == LostWith(old(St()), Proc(current), i, j)
      ensures alive <==> fromUser && i < 512 && FaultCost(old(St()), Proc(current), i, j) <= |Free(old(St()))|
      ensures alive ==>
        && |Free(St())| == |Free(old(St()))| - FaultCost(old(St()), Proc(current), i, j)
        && DirGrew(old(St()), St(), old(task[current].pgdir), i)
    {
      hide TargetsOk, Exclusive, Counted, PageAt, SoleTable, OnlyOthers;
      ghost var s, o := St(), Proc(current);
      if !fromUser || i >= 512 {
        DoExit(current);
        return false;
      }
      SoleDirIs(s, o);
      var pt := PteLookup(task[current].pgdir, i);
      if pt != -1 { TableInRam(s, o, i); }
      if pt != -1 && ram[pt][j].v && !ram[pt][j].w {
        alive := UnWpPage(current, i, j);
        if alive { SameResolves(s, St(), o, i, j); }
      } else {
        alive := GetEmptyPage(current, i, j);
        if alive && !LeafWord(s, o, i, j).v { FreshResolves(s, St(), o, i, j); }
      }
    }

    // A load by the running program. A load page fault has cause 13, for which trap_handler has no case: the task ends.
    method UserLoad(current: int, i: int, j: int, k: int) returns (alive: bool, w: Word)
      requires Inv(St(), {}) && 0 <= current < NR_TASKS && task[current].Task? && task[current].pgdir != -1
      requires 0 <= i < 1024 && 0 <= j < 1024 && 0 <= k < 1024
      modifies memMap, ram, task
      ensures Inv(St(), {})
      ensures alive <==> i < 512 && PageAt(old(St()), Proc(current), i, j) != None
      ensures alive ==> St() == old(St()) && w == PageAt(St(), Proc(current), i, j).value[k]
      ensures !alive ==> OnlyOthers(old(St()), St(), Proc(current)) && Ended(old(task[..]), task[..], current)
    {
      hide TargetsOk, Exclusive, Counted, OnlyOthers;
      ghost var s, o := St(), Proc(current);
      var f := Translate(current, i, j);
      if f == -1 {
        DoExit(current);
        return false, ZERO;
      }
      return true, ram[f][k];
    }

    // An instruction fetch by the running program, with the faults that it takes. Instruction page faults go to the
    // page fault handler, which takes a page that is there and may be written for one that is missing.
    method UserFetch(current: int, i: int, j: int) returns (alive: bool)
      requires Inv(St(), {}) && 0 <= current < NR_TASKS && task[current].Task? && task[current].pgdir != -1
      requires 0 <= i < 1024 && 0 <= j < 1024
      modifies this, memMap, ram, task
      ensures Inv(St(), {}) && building == old(building) && held == old(held)
      ensures !alive ==>
        && OnlyOthers(old(St()), St(), Proc(current)) && Ended(old(task[..]), task[..], current) && lost == old(lost)
      ensures alive ==> task[..] == old(task[..])
      ensures alive && Runs(old(St()), Proc(current), i, j) ==> St() == old(St())
      ensures alive && !Runs(old(St()), Proc(current), i, j) ==> FreshPage(old(St()), St(), Proc(current), i, j)
      ensures alive ==> (lost == old(lost) <==>
        !LeafWord(old(St()), Proc(current), i, j).v || Runs(old(St()), Proc(current), i, j))
      ensures alive <==> i < 512 && FetchCost(old(St()), Proc(current), i, j) <= |Free(old(St()))|
    {
      hide TargetsOk, Exclusive, Counted, PageAt, SoleTable, OnlyOthers;
      ghost var s, o := St(), Proc(current);
      var ok := MayRun(current, i, j);
      if ok { return true; }
      alive := PageFaultHandler(current, i, j, true);
      if !alive { return; }
      assert task[current] == old(task[..])[current];
      ghost var s1 := St();
      ok := MayRun(current, i, j);
      if ok {
        FirstFault(s, s1, o, i, j);
        return;
      }
      MidFault(s, s1, o, i, j);
      alive := PageFaultHandler(current, i, j, true);
      if alive { SecondFault(s, s1, St(), o, i, j); } else { ResolvedThenOthers(s, s1, St(), o, i, j); }
    }

    // what the hardware looks at
    method MayRun(current: int, i: int, j: int) returns (ok: bool)
      requires Inv(St(), {}) && 0 <= current < NR_TASKS && task[current].Task? && task[current].pgdir != -1
      requires 0 <= i < 1024 && 0 <= j < 1024
      ensures ok <==> i < 512 && Runs(St(), Proc(current), i, j)
    {
      hide TargetsOk, Exclusive, Counted;
      if i >= 512 { return false; }
      SoleDirIs(St(), Proc(current));
      var pt := PteLookup(task[current].pgdir, i);
      if pt == -1 { return false; }
      TableInRam(St(), Proc(current), i);
      return ram[pt][j].v && ram[pt][j].x;
    }

    // a store by the running program: through the entry if it allows it, else after the page fault
    method UserStore(current: int, i: int, j: int, k: int, w: Word) returns (alive: bool)
      requires Inv(St(), {}) && 0 <= current < NR_TASKS && task[current].Task? && task[current].pgdir != -1
      requires 0 <= i < 1024 && 0 <= j < 1024 && 0 <= k < 1024
      modifies this, memMap, ram, task
      ensures Inv(St(), {}) && building == old(building) && held == old(held) && lost == old(lost)
      ensures !alive ==> OnlyOthers(old(St()), St(), Proc(current)) && Ended(old(task[..]), task[..], current)
      ensures alive ==> i < 512 && task[..] == old(task[..])
      ensures alive ==> Stored(old(St()), St(), Proc(current), i, j, k, w)
      ensures alive ==> LeafWord(St(), Proc(current), i, j).v
      ensures alive && !Writable(old(St()), Proc(current), i, j) ==>
        (LeafWord(St(), Proc(current), i, j).x <==> RunsAfter(old(St()), Proc(current), i, j))
      ensures alive <==> i < 512 && StoreCost(old(St()), Proc(current), i, j) <= |Free(old(St()))|
      ensures alive ==> |Free(St())| == |Free(old(St()))| - StoreCost(old(St()), Proc(current), i, j)
    {
      hide TargetsOk, Exclusive, Counted, PageAt, SoleTable, OnlyOthers, StoreCost, RunsAfter, LeafWord;
      ghost var s, o := St(), Proc(current);
      alive := StoreFault(current, i, j);
      if !alive { return; }
      assert task[current] == old(task[..])[current];
      ghost var s1 := St();
      var f := Translate(current, i, j);
      PutWord(f, k, w);
      StoreThrough(s, s1, o, i, j, k, w);
      FreeSame(s1, St());
    }

    // the fault that the store takes, if any
    method StoreFault(current: int, i: int, j: int) returns (alive: bool)
      requires Inv(St(), {}) && 0 <= current < NR_TASKS && task[current].Task? && task[current].pgdir != -1
      requires 0 <= i < 1024 && 0 <= j < 1024
      modifies this, memMap, ram, task
      ensures Inv(St(), {}) && building == old(building) && held == old(held) && lost == old(lost)
      ensures !alive ==> OnlyOthers(old(St()), St(), Proc(current)) && Ended(old(task[..]), task[..], current)
      ensures alive ==> i < 512 && task[..] == old(task[..]) && Resolved(old(St()), St(), Proc(current), i, j)
      ensures alive && !Writable(old(St()), Proc(current), i, j) ==>
        (LeafWord(St(), Proc(current), i, j).x <==> RunsAfter(old(St()), Proc(current), i, j))
      ensures alive <==> i < 512 && StoreCost(old(St()), Proc(current), i, j) <= |Free(old(St()))|
      ensures alive ==> |Free(St())| == |Free(old(St()))| - StoreCost(old(St()), Proc(current), i, j)
    {
      hide TargetsOk, Exclusive, Counted, PageAt, SoleTable, OnlyOthers;
      ghost var s, o := St(), Proc(current);
      SoleDirIs(s, o);
      var pt := PteLookup(task[current].pgdir, i);
      if i < 512 && pt != -1 { TableInRam(s, o, i); }
      if i >= 512 || pt == -1 || !ram[pt][j].v || !ram[pt][j].w {
        alive := PageFaultHandler(current, i, j, true);
      } else {
        SameIsResolved(s, o, i, j);
        alive := true;
      }
    }

    // translate_user: the frame behind a mapped user page; the W bit is not looked at
    method Translate(current: int, i: int, j: int) returns (f: int)
      requires Inv(St(), {}) && 0 <= current < NR_TASKS && task[current].Task? && task[current].pgdir != -1
      requires 0 <= i < 1024 && 0 <= j < 1024
      ensures f != -1 <==> i < 512 && LeafWord(St(), Proc(current), i, j).v
      ensures f != -1 ==> f == LeafOf(St(), Proc(current), i, j) && InRam(f)
    {
      hide TargetsOk, Exclusive, Counted;
      if i >= 512 { return -1; }
      ghost var s, o := St(), Proc(current);
      SoleDirIs(s, o);
      var pt := PteLookup(task[current].pgdir, i);
      if pt == -1 { return -1; }
      TableInRam(s, o, i);
      if !ram[pt][j].v { return -1; }
      LeafInRam(s, o, i, j);
      LeafIsUser(s, o, i, j);
      if !ram[pt][j].u { return -1; }
      return FrameOf(ram[pt][j]);
    }

    // put_fs_long: seen through every entry that names the frame, so that nobody else sees it exactly when the page is
    // not shared (or the word is what was there)
    method PutFsLong(current: int, i: int, j: int, k: int, w: Word) returns (alive: bool)
      requires Inv(St(), {}) && 0 <= current < NR_TASKS && task[current].Task? && task[current].pgdir != -1
      requires 0 <= i < 1024 && 0 <= j < 1024 && 0 <= k < 1024
      modifies this, memMap, ram, task
      ensures Inv(St(), {}) && building == old(building) && held == old(held) && lost == old(lost)
      ensures alive <==> i < 512 && LeafWord(old(St()), Proc(current), i, j).v
      ensures !alive ==> OnlyOthers(old(St()), St(), Proc(current)) && Ended(old(task[..]), task[..], current)
      ensures alive ==> task[..] == old(task[..])
      ensures alive && Writable(old(St()), Proc(current), i, j) ==> Stored(old(St()), St(), Proc(current), i, j, k, w)
      ensures alive ==>
        var f := LeafOf(old(St()), Proc(current), i, j);
        InRam(f) && St() == SetWord(old(St()), f, k, w) && SeenByAll(old(St()), St(), f, k, w)
      ensures alive ==> (NobodyElseSees(old(St()), St(), Proc(current)) <==>
        var f := LeafOf(old(St()), Proc(current), i, j);
          InRam(f) && (Named(old(St()), f) == 1 || old(St()).ram[f][k] == w))
    {
      hide TargetsOk, Exclusive, Counted, PageAt, SoleTable, OnlyOthers;
      ghost var s, o := St(), Proc(current);
      var f := Translate(current, i, j);
      if f == -1 {
        DoExit(current);
        return false;
      }
      PutWord(f, k, w);
      KernelStore(s, o, i, j, k, w);
      KernelSeen(s, o, i, j, k, w);
      return true;
    }

    // verify_area: every page of the area mapped and private to the caller, if the size does not wrap around. It panics
    // exactly for a task with a directory and an address past user memory.
    method VerifyArea(current: int, start: int, size: Long) returns (alive: bool, panic: bool)
      requires Inv(St(), {}) && 0 <= current < NR_TASKS && task[current].Task? && 0 <= start < 0x1_0000_0000
      modifies this, memMap, ram, task
      ensures Inv(St(), {}) && building == old(building) && held == old(held) && lost == old(lost)
      ensures panic <==> old(task[current].pgdir) != -1 && start >= 0x8000_0000
      ensures panic || old(task[current].pgdir) == -1 || AreaEnd(start, size) <= start / 4096 ==>
        alive && St() == old(St())
      ensures !alive ==> OnlyOthers(old(St()), St(), Proc(current)) && Ended(old(task[..]), task[..], current)
      ensures alive ==> task[..] == old(task[..])
      ensures alive && !panic && old(task[current].pgdir) != -1 ==>
        && Grown(old(St()), St(), Proc(current), start / 4096, AreaEnd(start, size))
        && (forall n :: start / 4096 <= n < AreaEnd(start, size) ==> PageWritable(St(), Proc(current), n))
        && (AreaPrivate(St(), Proc(current), start, size) <==> size + start % 4096 < 0x8000_0000)
      ensures !panic && old(task[current].pgdir) != -1 ==> (alive <==>
        && AreaEnd(start, size) <= 0x8_0000
        && AreaCost(old(St()), Proc(current), start / 4096, AreaEnd(start, size)) <= |Free(old(St()))|)
    {
      hide TargetsOk, Exclusive, Counted, PageAt, SoleTable, OnlyOthers, LeafWord, Ahead, AreaCost, Grown, PageWritable;
      ghost var s0, o := St(), Proc(current);
      NothingCosts(s0, o, start / 4096);
      GrownRefl(s0, o, start / 4096);
      if task[current].pgdir == -1 { return true, false; }
      if start >= 0x8000_0000 { return true, true; }
      panic := false;
      AheadStart(s0, o, start / 4096);
      NoneOrSome(Free(s0));
      var left: int := Wrapped(size + start % 4096);
      var n := start / 4096;
      while left > 0
        invariant start / 4096 <= n <= 0x8_0000 && left == Wrapped(size + start % 4096) - 4096 * (n - start / 4096)
        invariant Inv(St(), {}) && building == old(building) && held == old(held) && task[..] == old(task[..])
        invariant task[current] == old(task[current]) && task.Length == NR_TASKS && lost == old(lost)
        invariant Grown(s0, St(), o, start / 4096, n) && (n == start / 4096 || left > -4096)
        invariant n == start / 4096 ==> St() == s0
        invariant forall m :: start / 4096 <= m < n ==> PageWritable(St(), o, m)
        invariant Ahead(s0, St(), o, start / 4096, n)
        invariant |Free(St())| == |Free(s0)| - AreaCost(s0, o, start / 4096, n)
      {
        ghost var s := St();
        var i, j := n / 1024, n % 1024;
        assert n < AreaEnd(start, size);
        alive := VerifyPage(current, i, j);
        if n < 0x8_0000 { AheadCost(s0, s, o, start / 4096, n); }
        if !alive {
          GrownThenOthers(s0, s, St(), o, start / 4096, n);
          AreaCostGrows(s0, o, start / 4096, n + 1, AreaEnd(start, size));
          return;
        }
        AheadStep(s0, s, St(), o, start / 4096, n);
        assert task[current] == old(task[..])[current];
        ResolvedGrows(s0, s, St(), o, start / 4096, i, j);
        forall m | start / 4096 <= m < n + 1 ensures PageWritable(St(), o, m) {
          if m < n { PageStaysWritable(s, St(), o, i, j, m); } else { NowWritable(s, St(), o, n); }
        }
        left := left - 4096;
        n := n + 1;
      }
      assert n == AreaEnd(start, size);
      AreaIs(St(), o, start, size);
      alive := true;
    }

    method VerifyPage(current: int, i: int, j: int) returns (alive: bool)
      requires Inv(St(), {}) && 0 <= current < NR_TASKS && task[current].Task? && task[current].pgdir != -1
      requires 0 <= i < 1024 && 0 <= j < 1024
      modifies this, memMap, ram, task
      ensures Inv(St(), {}) && building == old(building) && held == old(held) && lost == old(lost)
      ensures !alive ==> OnlyOthers(old(St()), St(), Proc(current)) && Ended(old(task[..]), task[..], current)
      ensures alive ==> i < 512 && task[..] == old(task[..]) && Resolved(old(St()), St(), Proc(current), i, j)
      ensures alive ==>
        && CountsKept(old(St()), St(), LeafOf(old(St()), Proc(current), i, j))
        && DirGrew(old(St()), St(), old(task[current].pgdir), i)
      ensures alive <==> i < 512 && StoreCost(old(St()), Proc(current), i, j) <= |Free(old(St()))|
      ensures alive ==> |Free(St())| == |Free(old(St()))| - StoreCost(old(St()), Proc(current), i, j)
    {
      hide TargetsOk, Exclusive, Counted, PageAt, SoleTable, OnlyOthers;
      ghost var s, o := St(), Proc(current);
      SoleDirIs(s, o);
      var pt := PteLookup(task[current].pgdir, i);
      if pt != -1 {
        UpperHalfEmpty(s, o, i);
        TableInRam(s, o, i);
      }
      if pt == -1 || !ram[pt][j].v {
        alive := GetEmptyPage(current, i, j);
        if alive { FreshResolves(s, St(), o, i, j); }
      } else if !ram[pt][j].w {
        alive := UnWpPage(current, i, j);
        if alive { SameResolves(s, St(), o, i, j); }
      } else {
        alive := true;
        SameIsResolved(s, o, i, j);
        DirStays(s, s, o, -1, i);
      }
    }

    // do_execve's failure path: the half-built directory goes away
    method AbandonSpace(d: int)
      requires Inv(St(), {}) && d in building && InRam(d)
      modifies this, memMap, ram
      ensures Inv(St(), {}) && held == old(held) && building == old(building) - {d} && lost == old(lost)
      ensures OnlyOthers(old(St()), St(), New(d))
    {
      hide TargetsOk, Exclusive, Counted, OnlyOthers;
      FreePageTables(d, New(d));
      building := building - {d};
    }

    // do_execve: a new directory holding the given pages, not yet anybody's. A page mapped over another loses its
    // frame.
    method NewSpace(pages: seq<Mapping>) returns (d: int)
      requires Inv(St(), {}) && InBounds(pages)
      modifies this, memMap, ram
      ensures Inv(St(), {}) && held == old(held)
      ensures d == -1 ==> SamePages(old(St()), St()) && building == old(building)
      ensures d != -1 ==> InRam(d) && d !in old(building) && building == old(building) + {d}
      ensures d != -1 ==> NobodyElseSees(old(St()), St(), New(d)) && Holds(St(), New(d), pages)
      ensures lost == old(lost) <==> Distinct(pages[..Mapped(pages, |Free(old(St()))|)])
      ensures d != -1 <==> Mapped(pages, |Free(old(St()))|) == |pages| && Free(old(St())) != {}
      ensures d != -1 <==> AllUser(pages) && 1 + |pages| + |Tabs(pages)| <= |Free(old(St()))|
      ensures d != -1 ==> |Free(St())| == |Free(old(St()))| - 1 - |pages| - |Tabs(pages)|
      ensures d != -1 ==> HasTables(St(), d, Tabs(pages))
    {
      hide Inv, Built, Tabs, Distinct, AllUser, Grew, Mapped, SamePages, NobodyElseSees, Holds, HasTables;
      ghost var s0 := St();
      NoneOrSome(Free(s0));
      NothingMapped(pages, s0.lost);
      d := BeginSpace();
      if d == -1 { return; }
      assert pages[..0] == [];
      for x := 0 to |pages|
        invariant Inv(St(), {}) && held == old(held) && building == old(building) + {d}
        invariant Built(s0, St(), d, pages[..x]) && Grew(s0.lost, lost) && (lost == s0.lost <==> Distinct(pages[..x]))
      {
        var ok := AddNext(d, pages, x, s0);
        if !ok { return -1; }
      }
      assert pages[..|pages|] == pages;
      AllBuilt(s0, St(), d, pages);
    }

    // an empty space
    method BeginSpace() returns (d: int)
      requires Inv(St(), {})
      modifies this, memMap, ram
      ensures Inv(St(), {}) && held == old(held) && lost == old(lost)
      ensures d == -1 <==> Free(old(St())) == {}
      ensures d == -1 ==> SamePages(old(St()), St()) && building == old(building)
      ensures d != -1 ==> InRam(d) && d !in old(building) && building == old(building) + {d}
      ensures d != -1 ==> Built(old(St()), St(), d, [])
    {
      hide TargetsOk, Exclusive, Counted, PageAt;
      ghost var s0 := St();
      NoneOrSome(Free(s0));
      d := GetFreePage();
      if d == -1 { return; }
      ghost var s1 := St();
      FreeIsPlain(s0, d);
      held := held - {d};
      building := building + {d};
      BeginDirInv(s1, d);
      BeginDirPages(s0, s1, St(), d);
      AllocFree(s0, d);
      FreeSame(s1, St());
      TabsNone(St(), d, []);
    }

    // one page more, or the end of the half-built space
    method AddNext(d: int, pages: seq<Mapping>, x: int, ghost s0: State) returns (ok: bool)
      requires Inv(St(), {}) && d in building && InRam(d) && d !in s0.building && InBounds(pages) && 0 <= x < |pages|
      requires Built(s0, St(), d, pages[..x]) && Grew(s0.lost, lost) && (lost == s0.lost <==> Distinct(pages[..x]))
      modifies this, memMap, ram
      ensures Inv(St(), {}) && held == old(held)
      ensures ok ==> building == old(building) && Built(s0, St(), d, pages[..x + 1])
      ensures ok ==> Grew(s0.lost, lost) && (lost == s0.lost <==> Distinct(pages[..x + 1]))
      ensures !ok ==> building == old(building) - {d} && SamePages(s0, St()) && lost == old(lost)
      ensures !ok ==> !(AllUser(pages) && 1 + |pages| + |Tabs(pages)| <= |Free(s0)|) && Mapped(pages, |Free(s0)|) == x
    {
      hide TargetsOk, Exclusive, Counted, OnlyOthers, PageAt, Holds, Tabs, HasTables, Distinct, AllUser, Grew, LostWith;
      ghost var s := St();
      TabsMore(s, d, pages, x);
      ok := AddPage(d, pages[x]);
      if !ok {
        ghost var s2 := St();
        AbandonSpace(d);
        AbandonPages(s0, s, s2, St(), d);
        TabsGrow(pages, x);
        TabsGrow(pages[..x + 1], x);
        assert pages[..x + 1][x] == pages[x] && |pages[..x]| == x;
        MappedStops(pages, |Free(s0)|, x);
        return;
      }
      assert pages[..x + 1] == pages[..x] + [pages[x]];
      Overlaps(s0, s, New(d), pages, x);
      HoldsOneMore(s0, s, St(), New(d), pages[..x], pages[x]);
      GrewTables(s, St(), d, pages, x);
    }

    method AddPage(d: int, m: Mapping) returns (ok: bool)
      requires Inv(St(), {}) && d in building && InRam(d) && 0 <= m.i < 1024 && 0 <= m.j < 1024
      modifies this, memMap, ram
      ensures Inv(St(), {}) && held == old(held) && building == old(building)
      ensures lost == if ok then LostWith(old(St()), New(d), m.i, m.j) else old(lost)
      ensures ok ==> DirGrew(old(St()), St(), d, m.i)
      ensures !ok ==> SamePages(old(St()), St())
      ensures ok ==>
        m.i < 512 && PagesExcept(old(St()), St(), New(d), m.i, m.j) && PageAt(St(), New(d), m.i, m.j) == Some(m.page)
      ensures ok <==> m.i < 512 && EmptyCost(old(St()), New(d), m.i) <= |Free(old(St()))|
      ensures ok ==> |Free(St())| == |Free(old(St()))| - EmptyCost(old(St()), New(d), m.i)
    {
      hide TargetsOk, Exclusive, Counted, PageAt, SameEntry, EntriesExcept;
      ghost var s, o := St(), New(d);
      var page := GetFreePage();
      if page == -1 { return false; }
      ghost var s1 := St();
      FreeIsPlain(s, page);
      PutFrame(page, m.page);
      HeldStore(s1, page, m.page);
      ghost var s2 := St();
      AllocFree(s, page);
      FreeSame(s1, s2);
      StoredTable(s, page, m.page, o, m.i);
      NoneOrSome(Free(s2));
      SamePagesTrans(s, s1, s2);
      HeldEntry(s, page, m.page, o, m.i, m.j);
      ok := PutPagePgdir(d, page, m.i, m.j, o);
      if !ok {
        ghost var s3 := St();
        DropHeldCounted(s3, page);
        FreePage(page);
        held := held - {page};
        DropHeldInv(s3, page);
        SamePagesTrans(s, s2, s3);
        DropHeldPages(s, s3, page);
      } else {
        SamePagesThen(s, s2, St(), o, m.i, m.j);
        SameLost(s, s2, o, m.i, m.j);
      }
    }

    // do_execve past the point of no return: the old address space goes, the new one takes its place
    method CommitSpace(current: int, d: int)
      requires Inv(St(), {}) && 0 <= current < NR_TASKS && task[current].Task? && d in building && InRam(d)
      modifies this, memMap, ram, task
      ensures Inv(St(), {}) && held == old(held) && building == old(building) - {d} && lost == old(lost)
      ensures old(task[current].pgdir) == -1 ==> St() == AdoptDir(old(St()), current, d)
      ensures SamePlaces(old(St()), New(d), St(), Proc(current))
      ensures forall q, k, l :: q != Proc(current) && q != New(d) ==> SamePage(old(St()), St(), q, k, l)
      ensures task[current] == old(task[current]).(pgdir := d)
      ensures forall t :: 0 <= t < NR_TASKS && t != current ==> task[t] == old(task[t])
    {
      hide TargetsOk, Exclusive, Counted, PageAt;
      ghost var s := St();
      FreePageTables(task[current].pgdir, Proc(current));
      ghost var s1 := Undir(St(), Proc(current));
      AdoptDirInv(s1, current, d);
      PutTask(current, task[current].(pgdir := d));
      building := building - {d};
      assert St() == AdoptDir(s1, current, d);
      AdoptPages(s, s1, current, d);
    }
  }

  // ---- what steps leave alone
  // The directory at d has an entry i now, and its other entries are as they were.
  ghost predicate DirGrew(s: State, s': State, d: int, i: int) {
    WordAt(s', d, i).v && forall k :: k != i ==> WordAt(s', d, k) == WordAt(s, d, k)
  }

  // Frames in use are counted as before, except f.
  ghost predicate CountsKept(s: State, s': State, f: int) {
    |s'.count| == |s.count| && forall g :: 0 <= g < |s.count| && g != f && s.count[g] != 0 ==> s'.count[g] == s.count[g]
  }

  // Frames in use hold what they held, except t.
  ghost predicate RamKept(s: State, s': State, t: int) {
    && |s'.ram| == |s.ram| == |s.count|
    && forall g :: 0 <= g < |s.ram| && g != t && s.count[g] != 0 ==> s'.ram[g] == s.ram[g]
  }

  lemma DirStays(s: State, s': State, o: Owner, t: int, i: int)
    requires Inv(s, {}) && IsOwner(o) && DirOf(s, o) != -1 && RamKept(s, s', t) && t != DirOf(s, o)
    ensures forall k :: WordAt(s', DirOf(s, o), k) == WordAt(s, DirOf(s, o), k)
    ensures WordAt(s, DirOf(s, o), i).v ==> DirGrew(s, s', DirOf(s, o), i)
  {
    hide TargetsOk, Exclusive, Counted;
    var d := DirOf(s, o);
    assert LT(s, {}, Dir(o)) == d;
    KillInv(s, {}, Dir(o));
  }

  // One task has lost its address space.
  ghost predicate Ended(ts: seq<Task>, ts': seq<Task>, t: int) {
    0 <= t < |ts| && ts[t].Task? && ts' == ts[t := ts[t].(pgdir := -1)]
  }

  // ---- what is lost
  function NothingLost(): seq<nat> { seq(PAGING_PAGES, _ => 0) }

  // the frames lost once something has been mapped at (i, j)
  ghost function LostWith(s: State, o: Owner, i: int, j: int): seq<nat> {
    if LeafWord(s, o, i, j).v && 0 <= LeafOf(s, o, i, j) < |s.lost| then Lose(s, LeafOf(s, o, i, j)).lost else s.lost
  }

  lemma SameLost(s: State, s': State, o: Owner, i: int, j: int)
    requires s'.lost == s.lost && SameEntry(s, s', o, i, j) && IsRef(Leaf(o, i, j))
    ensures LostWith(s', o, i, j) == LostWith(s, o, i, j)
  {}

  lemma LossUnseen(s: State, lost: seq<nat>)
    ensures SamePages(s, s.(lost := lost)) && forall q, k, l :: SameEntry(s, s.(lost := lost), q, k, l)
    ensures forall d, k :: WordAt(s.(lost := lost), d, k) == WordAt(s, d, k)
  {}

  lemma EntryInv(s: State, o: Owner, i: int, t: int, j: int, f: int, w: Word)
    requires Inv(s, {}) && SoleTable(s, o, i, t) && IsRef(Leaf(o, i, j)) && InRam(f) && f in s.held
    requires w.v && w.u && w.r && FrameOf(w) == f
    ensures Inv(InstallLeaf(s, t, j, f, w).(lost := LostWith(s, o, i, j)), {})
  {
    hide TargetsOk, Exclusive, Counted;
    var s' := InstallLeaf(s, t, j, f, w).(lost := LostWith(s, o, i, j));
    assert LeafWord(s, o, i, j) == WordAt(s, t, j);
    if WordAt(s, t, j).v {
      OverwriteInv(s, o, i, t, j, f, w);
      assert s' == InstallLeaf(Lose(s, LeafOf(s, o, i, j)), t, j, f, w);
    } else {
      InstallLeafInv(s, o, i, t, j, f, w);
      assert s' == InstallLeaf(s, t, j, f, w);
    }
  }

  lemma SoleTableApart(s: State, o: Owner, i: int, t: int)
    requires SoleTable(s, o, i, t) && IsOwner(o)
    ensures InRam(t) && DirOf(s, o) != t
  {}

  lemma SamePagesAfter(s0: State, s1: State, s2: State, o: Owner, i: int, j: int)
    requires PagesExcept(s0, s1, o, i, j) && SamePages(s1, s2) && IsRef(Leaf(o, i, j))
    requires EntriesExcept(s0, s1, o, i, j) && forall q, k, l :: SameEntry(s1, s2, q, k, l)
    ensures PagesExcept(s0, s2, o, i, j) && PageAt(s2, o, i, j) == PageAt(s1, o, i, j)
    ensures EntriesExcept(s0, s2, o, i, j) && LeafWord(s2, o, i, j) == LeafWord(s1, o, i, j)
  {
    hide PageAt, LeafWord;
    assert SamePage(s1, s2, o, i, j) && SameEntry(s1, s2, o, i, j);
    forall q, k, l | (q != o || k != i || l != j) ensures SamePage(s0, s2, q, k, l) && SameEntry(s0, s2, q, k, l) {
      assert SamePage(s0, s1, q, k, l) && SamePage(s1, s2, q, k, l) && SameEntry(s0, s1, q, k, l)
        && SameEntry(s1, s2, q, k, l);
    }
  }

  // ---- what a fault takes from the pool
  // a shared page is copied, the last owner's is not
  ghost function SharedCost(s: State, o: Owner, i: int, j: int): int {
    var f := LeafOf(s, o, i, j);
    if 0 <= f < |s.count| && s.count[f] == 1 then 0 else 1
  }

  // a page, and a table if there is none for it yet
  ghost function EmptyCost(s: State, o: Owner, i: int): int { if TableOf(s, o, i) == -1 then 2 else 1 }

  ghost function FaultCost(s: State, o: Owner, i: int, j: int): int {
    var w := LeafWord(s, o, i, j);
    if w.v && !w.w then SharedCost(s, o, i, j) else EmptyCost(s, o, i)
  }

  ghost function StoreCost(s: State, o: Owner, i: int, j: int): int {
    if Writable(s, o, i, j) then 0 else FaultCost(s, o, i, j)
  }

  // ---- instruction fetches
  // the page at (i, j) may be executed
  ghost predicate Runs(s: State, o: Owner, i: int, j: int) { LeafWord(s, o, i, j).v && LeafWord(s, o, i, j).x }

  // and whether it may be once a fault has made it writable: a private copy may not
  ghost predicate RunsAfter(s: State, o: Owner, i: int, j: int) {
    !LeafWord(s, o, i, j).v || (LeafWord(s, o, i, j).x && SharedCost(s, o, i, j) == 0)
  }

  // The fault that makes a page writable comes before the one that takes it for missing.
  ghost function FetchCost(s: State, o: Owner, i: int, j: int): int {
    if Runs(s, o, i, j) then 0
    else if !LeafWord(s, o, i, j).v || LeafWord(s, o, i, j).w then EmptyCost(s, o, i)
    else SharedCost(s, o, i, j) + 1
  }

  // a fetch whose first fault is the last one
  lemma FirstFault(s: State, s1: State, o: Owner, i: int, j: int)
    requires Inv(s, {}) && IsRef(Leaf(o, i, j)) && !Runs(s, o, i, j) && Runs(s1, o, i, j)
    requires !Writable(s, o, i, j) ==>
      Resolved(s, s1, o, i, j) && s1.lost == s.lost && (LeafWord(s1, o, i, j).x <==> RunsAfter(s, o, i, j))
    requires Writable(s, o, i, j) ==> FreshPage(s, s1, o, i, j) && s1.lost == LostWith(s, o, i, j)
    requires FaultCost(s, o, i, j) <= |Free(s)|
    ensures FreshPage(s, s1, o, i, j) && (s1.lost == s.lost <==> !LeafWord(s, o, i, j).v)
    ensures FetchCost(s, o, i, j) <= |Free(s)|
  {
    if Writable(s, o, i, j) { LostMore(s, o, i, j); }
  }

  lemma LostMore(s: State, o: Owner, i: int, j: int)
    requires Inv(s, {}) && IsRef(Leaf(o, i, j)) && LeafWord(s, o, i, j).v
    ensures LostWith(s, o, i, j) != s.lost
  {
    hide TargetsOk, Exclusive, Counted;
    LeafInRam(s, o, i, j);
    var f := LeafOf(s, o, i, j);
    assert Lose(s, f).lost[f] == s.lost[f] + 1;
  }

  // and one whose first fault has made the page writable
  lemma MidFault(s: State, s1: State, o: Owner, i: int, j: int)
    requires Inv(s, {}) && IsRef(Leaf(o, i, j)) && !Runs(s, o, i, j) && !Runs(s1, o, i, j)
    requires !Writable(s, o, i, j) ==>
      Resolved(s, s1, o, i, j) && s1.lost == s.lost && (LeafWord(s1, o, i, j).x <==> RunsAfter(s, o, i, j))
    requires Writable(s, o, i, j) ==> FreshPage(s, s1, o, i, j)
    requires |Free(s1)| == |Free(s)| - FaultCost(s, o, i, j)
    ensures Resolved(s, s1, o, i, j) && s1.lost == s.lost && LeafWord(s, o, i, j).v && !LeafWord(s, o, i, j).w
    ensures FetchCost(s, o, i, j) - |Free(s)| == FaultCost(s1, o, i, j) - |Free(s1)|
  {}

  lemma SecondFault(s: State, s1: State, s2: State, o: Owner, i: int, j: int)
    requires Inv(s1, {}) && IsRef(Leaf(o, i, j)) && Resolved(s, s1, o, i, j) && FreshPage(s1, s2, o, i, j)
    requires s1.lost == s.lost && s2.lost == LostWith(s1, o, i, j)
    ensures FreshPage(s, s2, o, i, j) && s2.lost != s.lost
  {
    hide PageAt;
    LostMore(s1, o, i, j);
    forall q, k, l | (q != o || k != i || l != j) ensures SamePage(s, s2, q, k, l) {
      assert SamePage(s, s1, q, k, l) && SamePage(s1, s2, q, k, l);
    }
  }

  lemma ResolvedThenOthers(s: State, s1: State, s2: State, o: Owner, i: int, j: int)
    requires Resolved(s, s1, o, i, j) && OnlyOthers(s1, s2, o)
    ensures OnlyOthers(s, s2, o)
  {
    hide PageAt;
    forall q, k, l | q != o ensures SamePage(s, s2, q, k, l) {
      assert SamePage(s, s1, q, k, l) && SamePage(s1, s2, q, k, l);
    }
  }

  lemma AllocTable(s: State, f: int, o: Owner, i: int)
    requires Inv(s, {}) && InRam(f) && s.count[f] == 0 && IsOwner(o) && 0 <= i < 1024
    ensures TableOf(Alloc(s, f), o, i) == TableOf(s, o, i)
  {
    hide TargetsOk, Exclusive, Counted;
    FreeIsPlain(s, f);
  }

  lemma StoredTable(s: State, f: int, p: Frame, o: Owner, i: int)
    requires Inv(s, {}) && InRam(f) && s.count[f] == 0 && IsOwner(o) && 0 <= i < 1024
    ensures TableOf(SetFrame(Alloc(s, f), f, p), o, i) == TableOf(s, o, i)
  {
    hide TargetsOk, Exclusive, Counted;
    FreeIsPlain(s, f);
  }

  lemma FreeSame(s: State, s': State)
    requires s'.count == s.count
    ensures Free(s') == Free(s)
  {}

  lemma PrivatizeFree(s: State, t: int, j: int, f: int, g: int)
    requires 0 <= t < |s.ram| && 0 <= j < 1024 && InRam(g) && 0 <= f < |s.count| && f < |s.ram| && g < |s.ram|
    requires s.count[f] > 1
    ensures Free(Privatize(s, t, j, f, g)) == Free(s)
  {}

  lemma NoneOrSome(a: set<int>)
    ensures a == {} <==> |a| == 0
  {}

  // the first page past an area of size bytes at start
  function PastEnd(start: int, size: int): int {
    if size + start % 4096 <= 0 then start / 4096 else (start + size + 4095) / 4096
  }

  // and where verify_area stops: it adds to the size in an int
  function AreaEnd(start: int, size: Long): int {
    var left := Wrapped(size + start % 4096);
    if left <= 0 then start / 4096 else start / 4096 + (left + 4095) / 4096
  }

  ghost predicate AreaPrivate(s: State, o: Owner, start: int, size: int) {
    forall n :: start / 4096 <= n < PastEnd(start, size) ==> PageWritable(s, o, n)
  }

  // All pages of the area are private if and only if the size has not wrapped around.
  lemma AreaIs(s: State, o: Owner, start: int, size: Long)
    requires Inv(s, {}) && IsOwner(o) && 0 <= start < 0x8000_0000
    requires forall n :: start / 4096 <= n < AreaEnd(start, size) ==> PageWritable(s, o, n)
    ensures AreaPrivate(s, o, start, size) <==> size + start % 4096 < 0x8000_0000
  {
    hide Inv, Writable;
    var a := start / 4096;
    assert start == 4096 * a + start % 4096;
    if size + start % 4096 < 0x8000_0000 {
      assert PastEnd(start, size) == AreaEnd(start, size);
    } else {
      assert PastEnd(start, size) >= a + 0x8_0000;
      if a > 0 {
        assert !PageWritable(s, o, 0x8_0000);
      } else if AreaPrivate(s, o, start, size) {
        FewWritable(s, o, 0x8_0000);
      }
    }
  }

  ghost function FramesBelow(s: State, o: Owner, n: int): set<int> {
    set m | 0 <= m < n :: FrameAt(s, o, m)
  }

  function FrameAt(s: State, o: Owner, m: int): int { LeafOf(s, o, m / 1024, m % 1024) }

  // Private pages are different frames, so there are not more of them than there is memory.
  lemma FewWritable(s: State, o: Owner, n: int)
    requires Inv(s, {}) && IsOwner(o) && 0 <= n <= 0x8_0000 && forall m :: 0 <= m < n ==> PageWritable(s, o, m)
    ensures n <= PAGING_PAGES
  {
    hide Inv, LeafOf, LeafWord;
    FramesSize(s, o, n);
    forall f | f in FramesBelow(s, o, n) ensures f in Range(PAGING_PAGES) {
      var m :| 0 <= m < n && f == FrameAt(s, o, m);
      assert PageWritable(s, o, m);
      LeafInRam(s, o, m / 1024, m % 1024);
    }
    SubsetAtMost(FramesBelow(s, o, n), Range(PAGING_PAGES));
  }

  lemma FramesSize(s: State, o: Owner, n: int)
    requires Inv(s, {}) && IsOwner(o) && 0 <= n <= 0x8_0000 && forall m :: 0 <= m < n ==> PageWritable(s, o, m)
    ensures |FramesBelow(s, o, n)| == n
  {
    hide Inv, FrameAt, PageWritable;
    var f := m => FrameAt(s, o, m);
    forall m, l | 0 <= m < n && 0 <= l < n && m != l ensures f(m) != f(l) { FramesDiffer(s, o, m, l); }
    forall x | x in FramesBelow(s, o, n) ensures exists m :: m in Range(n) && f(m) == x {
      var m :| 0 <= m < n && x == FrameAt(s, o, m);
      assert m in Range(n) && f(m) == x;
    }
    ImageSize(Range(n), f, FramesBelow(s, o, n));
  }

  lemma FramesDiffer(s: State, o: Owner, m: int, l: int)
    requires Inv(s, {}) && IsOwner(o) && 0 <= m < 0x8_0000 && 0 <= l < 0x8_0000 && m != l && PageWritable(s, o, m)
    ensures FrameAt(s, o, m) != FrameAt(s, o, l)
  {
    hide Inv, LeafOf, LeafWord;
    LeafInRam(s, o, m / 1024, m % 1024);
    assert m / 1024 != l / 1024 || m % 1024 != l % 1024;
    NotShared(s, o, m / 1024, m % 1024, o, l / 1024, l % 1024);
  }

  ghost predicate PageWritable(s: State, o: Owner, n: int) { 0 <= n < 0x8_0000 && Writable(s, o, n / 1024, n % 1024) }

  // Nobody else's pages changed; the owner's pages a to b are all there, zero where there was none before.
  ghost predicate Grown(s: State, s': State, o: Owner, a: int, b: int) {
    && NobodyElseSees(s, s', o)
    && (forall k, l :: IsRef(Leaf(o, k, l)) ==>
         PageAt(s', o, k, l) == if a <= k * 1024 + l < b then Some(Base(s, o, k, l)) else PageAt(s, o, k, l))
  }

  lemma GrownRefl(s: State, o: Owner, a: int) ensures Grown(s, s, o, a, a) {}

  lemma ResolvedGrows(s0: State, s: State, s': State, o: Owner, a: int, i: int, j: int)
    requires Grown(s0, s, o, a, i * 1024 + j) && Resolved(s, s', o, i, j) && IsRef(Leaf(o, i, j)) && a <= i * 1024 + j
    ensures Grown(s0, s', o, a, i * 1024 + j + 1)
  {
    forall q, k, l | q != o ensures SamePage(s0, s', q, k, l) {
      assert SamePage(s0, s, q, k, l) && SamePage(s, s', q, k, l);
    }
    forall k, l | IsRef(Leaf(o, k, l))
      ensures PageAt(s', o, k, l) == if a <= k * 1024 + l < i * 1024 + j + 1 then Some(Base(s0, o, k, l))
        else PageAt(s0, o, k, l)
    {
      if k != i || l != j { assert SamePage(s, s', o, k, l); }
    }
  }

  lemma GrownThenOthers(s0: State, s: State, s': State, o: Owner, a: int, b: int)
    requires Grown(s0, s, o, a, b) && OnlyOthers(s, s', o)
    ensures OnlyOthers(s0, s', o)
  {
    forall q, k, l | q != o ensures SamePage(s0, s', q, k, l) {
      assert SamePage(s0, s, q, k, l) && SamePage(s, s', q, k, l);
    }
  }

  lemma PageStaysWritable(s: State, s': State, o: Owner, i: int, j: int, m: int)
    requires PageWritable(s, o, m) && EntriesExcept(s, s', o, i, j) && IsOwner(o) && m < i * 1024 + j
    ensures PageWritable(s', o, m)
  {
    assert SameEntry(s, s', o, m / 1024, m % 1024);
  }

  lemma UpperHalfEmpty(s: State, o: Owner, i: int)
    requires Inv(s, {}) && IsOwner(o) && DirOf(s, o) != -1 && 0 <= i < 1024 && WordAt(s, DirOf(s, o), i).v
    ensures i < 512
  {
    assert LT(s, {}, Dir(o)) == DirOf(s, o);
    TargetOk(s, Dir(o));
  }

  // ---- what verify_area costs
  // for page n of an area that begins with page a, the first in it of a table that is missing pays for the table
  ghost function PageCost(s: State, o: Owner, a: int, n: int): int {
    if Writable(s, o, n / 1024, n % 1024) then 0
    else if LeafWord(s, o, n / 1024, n % 1024).v then SharedCost(s, o, n / 1024, n % 1024)
    else if TableOf(s, o, n / 1024) == -1 && (n == a || n % 1024 == 0) then 2
    else 1
  }

  ghost function AreaCost(s: State, o: Owner, a: int, b: int): (c: int)
    ensures c >= 0
    decreases b - a
  { if b <= a then 0 else AreaCost(s, o, a, b - 1) + PageCost(s, o, a, b - 1) }

  lemma NothingCosts(s: State, o: Owner, a: int)
    ensures AreaCost(s, o, a, a) == 0
  {}

  lemma NowWritable(s: State, s': State, o: Owner, n: int)
    requires Resolved(s, s', o, n / 1024, n % 1024) && 0 <= n < 0x8_0000
    ensures PageWritable(s', o, n)
  {}

  lemma {:induction false} AreaCostGrows(s: State, o: Owner, a: int, b: int, c: int)
    requires b <= c
    ensures AreaCost(s, o, a, b) <= AreaCost(s, o, a, c)
    decreases c - b
  { if b < c { AreaCostGrows(s, o, a, b, c - 1); } }

  // What the pages from n on will cost is as it was in s0, and the tables of the pages before it are there.
  ghost predicate Ahead(s0: State, s: State, o: Owner, a: int, n: int) {
    && (forall m :: n <= m < 0x8_0000 ==> SameCost(s0, s, o, m))
    && (forall k :: 0 <= k < 512 ==>
      (TableOf(s, o, k) != -1 <==> TableOf(s0, o, k) != -1 || (a < n && a / 1024 <= k <= (n - 1) / 1024)))
  }

  ghost predicate SameCost(s0: State, s: State, o: Owner, m: int) {
    && LeafWord(s, o, m / 1024, m % 1024) == LeafWord(s0, o, m / 1024, m % 1024)
    && (LeafWord(s0, o, m / 1024, m % 1024).v ==>
      SharedCost(s, o, m / 1024, m % 1024) == SharedCost(s0, o, m / 1024, m % 1024))
  }

  lemma AheadStart(s: State, o: Owner, a: int)
    ensures Ahead(s, s, o, a, a)
  {}

  lemma AheadCost(s0: State, s: State, o: Owner, a: int, n: int)
    requires Ahead(s0, s, o, a, n) && 0 <= a <= n < 0x8_0000
    ensures StoreCost(s, o, n / 1024, n % 1024) == PageCost(s0, o, a, n)
    ensures AreaCost(s0, o, a, n + 1) == AreaCost(s0, o, a, n) + StoreCost(s, o, n / 1024, n % 1024)
  {
    hide LeafWord, TableOf, SharedCost;
    assert SameCost(s0, s, o, n);
    assert a < n ==> (n / 1024 <= (n - 1) / 1024 <==> n % 1024 != 0);
    assert a / 1024 <= n / 1024;
  }

  lemma AheadStep(s0: State, s: State, s': State, o: Owner, a: int, n: int)
    requires Ahead(s0, s, o, a, n) && 0 <= a <= n < 0x8_0000 && Inv(s, {}) && IsOwner(o) && DirOf(s, o) != -1
    requires EntriesExcept(s, s', o, n / 1024, n % 1024) && CountsKept(s, s', LeafOf(s, o, n / 1024, n % 1024))
    requires DirOf(s', o) == DirOf(s, o) && DirGrew(s, s', DirOf(s, o), n / 1024)
    ensures Ahead(s0, s', o, a, n + 1)
  {
    forall k | 0 <= k < 512
      ensures TableOf(s', o, k) != -1 <==> TableOf(s0, o, k) != -1 || (a < n + 1 && a / 1024 <= k <= n / 1024)
    { GrewTable(s, s', o, n / 1024, k); }
    hide TargetsOk, Exclusive, Counted, LeafWord, TableOf, SharedCost;
    forall m | n + 1 <= m < 0x8_0000 ensures SameCost(s0, s', o, m) {
      assert SameCost(s0, s, o, m);
      assert m / 1024 != n / 1024 || m % 1024 != n % 1024;
      assert SameEntry(s, s', o, m / 1024, m % 1024);
      if LeafWord(s, o, m / 1024, m % 1024).v { CostKept(s, s', o, n / 1024, n % 1024, m / 1024, m % 1024); }
    }
  }

  lemma GrewTable(s: State, s': State, o: Owner, i: int, k: int)
    requires DirOf(s', o) == DirOf(s, o) && DirGrew(s, s', DirOf(s, o), i)
    ensures TableOf(s', o, k) != -1 <==> TableOf(s, o, k) != -1 || k == i
  {}

  // Another page of the same space is another frame.
  lemma CostKept(s: State, s': State, o: Owner, i: int, j: int, k: int, l: int)
    requires Inv(s, {}) && IsRef(Leaf(o, i, j)) && IsRef(Leaf(o, k, l)) && (k != i || l != j)
    requires LeafWord(s, o, k, l).v && LeafWord(s', o, k, l) == LeafWord(s, o, k, l)
    requires CountsKept(s, s', LeafOf(s, o, i, j))
    ensures SharedCost(s', o, k, l) == SharedCost(s, o, k, l)
  {
    LeafInRam(s, o, k, l);
    assert LT(s, {}, Leaf(o, i, j)) == LeafOf(s, o, i, j) && LT(s, {}, Leaf(o, k, l)) == LeafOf(s, o, k, l);
    assert LeafOf(s, o, i, j) != LeafOf(s, o, k, l) by {
      if LeafOf(s, o, i, j) == LeafOf(s, o, k, l) { SharedPlace(s, Leaf(o, i, j), Leaf(o, k, l)); }
    }
  }

  // ---- the pages of a new program
  datatype Mapping = Mapping(i: int, j: int, page: Frame)

  predicate InBounds(ms: seq<Mapping>) { forall x :: 0 <= x < |ms| ==> 0 <= ms[x].i < 1024 && 0 <= ms[x].j < 1024 }
  ghost predicate AllUser(ms: seq<Mapping>) { forall x :: 0 <= x < |ms| ==> ms[x].i < 512 }
  ghost predicate Distinct(ms: seq<Mapping>) {
    forall x, y :: 0 <= x < y < |ms| ==> ms[x].i != ms[y].i || ms[x].j != ms[y].j
  }

  // the tables that they need
  ghost function Tabs(ms: seq<Mapping>): set<int> { set x | 0 <= x < |ms| :: ms[x].i }

  ghost predicate HasTables(s: State, d: int, ts: set<int>) {
    forall k :: 0 <= k < 512 ==> (WordAt(s, d, k).v <==> k in ts)
  }

  // the last page listed for (k, l)
  function LastOf(ms: seq<Mapping>, k: int, l: int): Option<Frame> {
    if ms == [] then None
    else
      var m := ms[|ms| - 1];
      if m.i == k && m.j == l then Some(m.page) else LastOf(ms[..|ms| - 1], k, l)
  }

  // Owner o maps exactly the listed pages.
  ghost predicate Holds(s: State, o: Owner, ms: seq<Mapping>) {
    forall k, l :: IsRef(Leaf(o, k, l)) ==> PageAt(s, o, k, l) == LastOf(ms, k, l)
  }

  // The first x pages can be mapped with that many frames, and how many of them can.
  ghost predicate FitsFirst(ms: seq<Mapping>, x: int, free: int)
    requires 0 <= x <= |ms|
  { AllUser(ms[..x]) && 1 + x + |Tabs(ms[..x])| <= free }

  ghost function MappedFrom(ms: seq<Mapping>, free: int, x: nat): (y: nat)
    requires x <= |ms|
    ensures x <= y <= |ms|
    decreases |ms| - x
  { if x < |ms| && FitsFirst(ms, x + 1, free) then MappedFrom(ms, free, x + 1) else x }

  ghost function Mapped(ms: seq<Mapping>, free: int): (y: nat)
    ensures y <= |ms|
  { MappedFrom(ms, free, 0) }

  lemma {:induction false} MappedReach(ms: seq<Mapping>, free: int, y: nat, x: nat)
    requires y <= x <= |ms| && FitsFirst(ms, x, free)
    ensures MappedFrom(ms, free, y) == MappedFrom(ms, free, x)
    decreases x - y
  {
    hide FitsFirst;
    if y < x {
      FitsBefore(ms, y + 1, x, free);
      MappedReach(ms, free, y + 1, x);
    }
  }

  lemma FitsBefore(ms: seq<Mapping>, y: nat, x: nat, free: int)
    requires y <= x <= |ms| && FitsFirst(ms, x, free)
    ensures FitsFirst(ms, y, free)
  {
    var a, b := ms[..y], ms[..x];
    assert a == b[..y];
    if y > 0 { TabsGrow(b, y - 1); } else { assert Tabs(a) == {}; }
    forall z | 0 <= z < |a| ensures a[z].i < 512 { assert a[z] == b[z]; }
  }

  lemma MappedStops(ms: seq<Mapping>, free: int, x: nat)
    requires x < |ms| && FitsFirst(ms, x, free) && !FitsFirst(ms, x + 1, free)
    ensures Mapped(ms, free) == x
  {
    hide FitsFirst;
    MappedReach(ms, free, 0, x);
  }

  lemma MappedAll(ms: seq<Mapping>, free: int)
    requires AllUser(ms) && 1 + |ms| + |Tabs(ms)| <= free
    ensures Mapped(ms, free) == |ms|
  {
    assert ms[..|ms|] == ms;
    MappedReach(ms, free, 0, |ms|);
  }

  ghost predicate Grew(l: seq<nat>, l': seq<nat>) { |l'| == |l| && forall f :: 0 <= f < |l| ==> l[f] <= l'[f] }

  // A page loses the frame of another exactly if it is not the first at its address.
  lemma Overlaps(s0: State, s: State, o: Owner, ms: seq<Mapping>, x: int)
    requires 0 <= x < |ms| && InBounds(ms) && ms[x].i < 512 && IsOwner(o) && Inv(s, {}) && Holds(s, o, ms[..x])
    requires Grew(s0.lost, s.lost) && (s.lost == s0.lost <==> Distinct(ms[..x]))
    ensures var l := LostWith(s, o, ms[x].i, ms[x].j);
      Grew(s0.lost, l) && (l == s0.lost <==> Distinct(ms[..x + 1]))
  {
    hide TargetsOk, Exclusive, Counted, LeafWord;
    var i, j := ms[x].i, ms[x].j;
    assert IsRef(Leaf(o, i, j));
    assert PageAt(s, o, i, j) == LastOf(ms[..x], i, j);
    DistinctNext(ms, x);
    if LeafWord(s, o, i, j).v {
      LeafInRam(s, o, i, j);
      var f := LeafOf(s, o, i, j);
      assert LostWith(s, o, i, j)[f] == s.lost[f] + 1;
    }
  }

  lemma DistinctNext(ms: seq<Mapping>, x: int)
    requires 0 <= x < |ms|
    ensures Distinct(ms[..x + 1]) <==> Distinct(ms[..x]) && LastOf(ms[..x], ms[x].i, ms[x].j) == None
  {
    var a, b, m := ms[..x], ms[..x + 1], ms[x];
    assert b == a + [m];
    if LastOf(a, m.i, m.j) == None {
      ListedNone(a, m.i, m.j);
      forall y, z | 0 <= y < z < |b| && Distinct(a) ensures b[y].i != b[z].i || b[y].j != b[z].j {
        assert b[y] == a[y] && (z < x ==> b[z] == a[z]);
      }
      if Distinct(b) {
        forall y, z | 0 <= y < z < |a|
          ensures a[y].i != a[z].i || a[y].j != a[z].j { assert a[y] == b[y] && a[z] == b[z]; }
      }
    } else {
      var y := Listed(a, m.i, m.j);
      assert b[y] == a[y] && b[x] == m;
    }
  }

  lemma {:induction false} ListedNone(ms: seq<Mapping>, k: int, l: int)
    requires LastOf(ms, k, l) == None
    ensures forall x :: 0 <= x < |ms| ==> ms[x].i != k || ms[x].j != l
  {
    if ms != [] {
      ListedNone(ms[..|ms| - 1], k, l);
      forall x | 0 <= x < |ms|
        ensures ms[x].i != k || ms[x].j != l { assert x < |ms| - 1 ==> ms[x] == ms[..|ms| - 1][x]; }
    }
  }

  lemma {:induction false} Listed(ms: seq<Mapping>, k: int, l: int) returns (x: int)
    requires LastOf(ms, k, l) != None
    ensures 0 <= x < |ms| && ms[x].i == k && ms[x].j == l
  {
    x := |ms| - 1;
    if ms[x].i != k || ms[x].j != l { x := Listed(ms[..x], k, l); }
  }

  lemma HeldEntry(s: State, f: int, p: Frame, o: Owner, i: int, j: int)
    requires Inv(s, {}) && InRam(f) && s.count[f] == 0
    ensures SameEntry(s, SetFrame(Alloc(s, f), f, p), o, i, j)
  {
    hide TargetsOk, Exclusive, Counted;
    var s1 := SetFrame(s, f, p);
    FreeIsPlain(s, f);
    PlainWriteEntries(s, f, p, o, i, j);
    assert SetFrame(Alloc(s, f), f, p).ram == s1.ram;
    assert LeafWord(SetFrame(Alloc(s, f), f, p), o, i, j) == LeafWord(s1, o, i, j);
  }

  // From s0 to s, a space at d has been made and these pages put into it.
  ghost predicate Built(s0: State, s: State, d: int, ms: seq<Mapping>) {
    && NobodyElseSees(s0, s, New(d)) && Holds(s, New(d), ms) && HasTables(s, d, Tabs(ms)) && AllUser(ms)
    && |Free(s)| == |Free(s0)| - 1 - |ms| - |Tabs(ms)|
  }

  lemma AllBuilt(s0: State, s: State, d: int, ms: seq<Mapping>)
    requires Built(s0, s, d, ms)
    ensures NobodyElseSees(s0, s, New(d)) && Holds(s, New(d), ms) && HasTables(s, d, Tabs(ms)) && AllUser(ms)
    ensures |Free(s)| == |Free(s0)| - 1 - |ms| - |Tabs(ms)|
    ensures Mapped(ms, |Free(s0)|) == |ms| && ms[..|ms|] == ms && Free(s0) != {}
  {
    hide NobodyElseSees, Holds, HasTables, AllUser, Tabs, Mapped;
    NoneOrSome(Free(s0));
    MappedAll(ms, |Free(s0)|);
  }

  lemma NothingMapped(ms: seq<Mapping>, lost: seq<nat>)
    ensures Mapped(ms, 0) == 0 && Distinct(ms[..0]) && Grew(lost, lost) && !(AllUser(ms) && 1 + |ms| + |Tabs(ms)| <= 0)
  {}

  lemma TabsNone(s: State, d: int, ms: seq<Mapping>)
    requires forall k :: 0 <= k < 512 ==> !WordAt(s, d, k).v
    ensures Tabs(ms[..0]) == {} && HasTables(s, d, Tabs(ms[..0])) && AllUser(ms[..0])
  {}

  lemma TabsMore(s: State, d: int, ms: seq<Mapping>, x: int)
    requires 0 <= x < |ms| && HasTables(s, d, Tabs(ms[..x])) && InBounds(ms) && d in s.building
    ensures Tabs(ms[..x + 1]) == Tabs(ms[..x]) + {ms[x].i}
    ensures ms[x].i < 512 ==> |Tabs(ms[..x + 1])| == |Tabs(ms[..x])| + EmptyCost(s, New(d), ms[x].i) - 1
  {
    assert ms[..x + 1] == ms[..x] + [ms[x]];
    forall i ensures i in Tabs(ms[..x + 1]) <==> i in Tabs(ms[..x]) || i == ms[x].i {
      if i in Tabs(ms[..x]) {
        var y :| 0 <= y < x && ms[..x][y].i == i;
        assert ms[..x + 1][y].i == i;
      }
      if i == ms[x].i { assert ms[..x + 1][x].i == i; }
      if i in Tabs(ms[..x + 1]) {
        var y :| 0 <= y < x + 1 && ms[..x + 1][y].i == i;
        assert y < x ==> ms[..x][y].i == i;
      }
    }
    hide Tabs;
    if ms[x].i < 512 { assert WordAt(s, d, ms[x].i).v <==> ms[x].i in Tabs(ms[..x]); }
  }

  // Every page costs, so a prefix that does not fit decides.
  lemma {:induction false} TabsGrow(ms: seq<Mapping>, x: int)
    requires 0 <= x < |ms|
    ensures |Tabs(ms[..x + 1])| <= |Tabs(ms)| && (AllUser(ms) ==> ms[x].i < 512)
  {
    forall i | i in Tabs(ms[..x + 1]) ensures i in Tabs(ms) {
      var y :| 0 <= y < x + 1 && ms[..x + 1][y].i == i;
      assert ms[y].i == i;
    }
    SubsetAtMost(Tabs(ms[..x + 1]), Tabs(ms));
  }

  lemma GrewTables(s: State, s': State, d: int, ms: seq<Mapping>, x: int)
    requires 0 <= x < |ms| && HasTables(s, d, Tabs(ms[..x])) && DirGrew(s, s', d, ms[x].i) && ms[x].i < 512
    requires Tabs(ms[..x + 1]) == Tabs(ms[..x]) + {ms[x].i} && AllUser(ms[..x])
    ensures HasTables(s', d, Tabs(ms[..x + 1])) && AllUser(ms[..x + 1])
  {
    hide Tabs;
    var ns := ms[..x + 1];
    forall y | 0 <= y < |ns| ensures ns[y].i < 512 { assert y < x ==> ns[y] == ms[..x][y]; }
  }

  ghost function Outside(start: int, end: int): set<int> {
    set f | 0 <= f < PAGING_PAGES && InRam(f) && !(start <= f < end)
  }
  ghost predicate FreeBetween(s: State, start: int, end: int) {
    forall f :: InRam(f) ==> (f in Free(s) <==> start <= f < end)
  }

  lemma BootInv(s: State, start: nat, end: nat)
    requires Shape(s) && s.held == {} && s.building == {} && s.reserved == Outside(start, end)
    requires s.lost == NothingLost()
    requires forall g :: 0 <= g < PAGING_PAGES ==> s.count[g] == if start <= g < end then 0 else USED
    requires forall t :: 0 <= t < NR_TASKS ==> s.task[t] == if t == 0 then Task(-1, -1) else NoTask
    ensures Inv(s, {}) && FreeBetween(s, start, end)
  {
    forall o ensures DirOf(s, o) == -1 {}
    forall r ensures LT(s, {}, r) == -1 {
      if r.Leaf? || r.Table? { assert TableOf(s, r.o, r.i) == -1; }
    }
    forall r ensures GoodTarget(s, {}, r) { assert LT(s, {}, r) == -1; }
    assert TargetsOk(s, {});
    assert Exclusive(s, {});
    forall f | InRam(f) ensures |RefsTo(s, {}, f)| == 0 { assert RefsTo(s, {}, f) == {}; }
    assert Counted(s, {});
  }

  lemma BeginDirPages(s0: State, s1: State, s2: State, d: int)
    requires SamePages(s0, s1) && InRam(d) && |s1.ram| == PAGING_PAGES && s1.ram[d] == ZeroFrame()
    requires s2 == Unheld(s1, d).(building := s1.building + {d})
    ensures NobodyElseSees(s0, s2, New(d)) && Holds(s2, New(d), []) && forall k :: 0 <= k < 512 ==> !WordAt(s2, d, k).v
  {
    forall q, k, l | q != New(d) ensures SamePage(s0, s2, q, k, l) {
      assert SamePage(s0, s1, q, k, l);
      assert DirOf(s2, q) == DirOf(s1, q);
      assert TableOf(s2, q, k) == TableOf(s1, q, k);
    }
    forall k, l | IsRef(Leaf(New(d), k, l)) ensures PageAt(s2, New(d), k, l) == None {
      assert TableOf(s2, New(d), k) == -1;
    }
  }

  lemma AbandonPages(s0: State, s: State, s2: State, s3: State, d: int)
    requires NobodyElseSees(s0, s, New(d)) && SamePages(s, s2) && OnlyOthers(s2, s3, New(d))
    requires d !in s0.building && InRam(d)
    ensures SamePages(s0, s3)
  {
    forall q, k, l ensures SamePage(s0, s3, q, k, l) {
      if q == New(d) {
        assert TableOf(s0, q, k) == -1;
      } else {
        assert SamePage(s0, s, q, k, l) && SamePage(s, s2, q, k, l) && SamePage(s2, s3, q, k, l);
      }
    }
  }

  lemma HoldsOneMore(s0: State, s: State, s': State, o: Owner, ms: seq<Mapping>, m: Mapping)
    requires NobodyElseSees(s0, s, o) && Holds(s, o, ms) && IsRef(Leaf(o, m.i, m.j))
    requires PagesExcept(s, s', o, m.i, m.j) && PageAt(s', o, m.i, m.j) == Some(m.page)
    ensures NobodyElseSees(s0, s', o) && Holds(s', o, ms + [m])
  {
    hide PageAt;
    forall q, k, l | q != o ensures SamePage(s0, s', q, k, l) {
      assert SamePage(s0, s, q, k, l) && SamePage(s, s', q, k, l);
    }
    var ns := ms + [m];
    assert ns[..|ms|] == ms;
    forall k, l | IsRef(Leaf(o, k, l)) ensures PageAt(s', o, k, l) == LastOf(ns, k, l) {
      if k != m.i || l != m.j { assert SamePage(s, s', o, k, l); }
    }
  }

  lemma HeldStore(s: State, f: int, p: Frame)
    requires Inv(s, {}) && InRam(f) && f in s.held
    ensures Inv(SetFrame(s, f, p), {}) && SamePages(s, SetFrame(s, f, p))
  {
    hide TargetsOk, Exclusive, Counted;
    assert LT(s, {}, Held(f)) == f;
    PlainTarget(s, Held(f));
    StoreInv(s, f, p);
    forall q, k, l ensures SamePage(s, SetFrame(s, f, p), q, k, l) {
      if IsRef(Leaf(q, k, l)) {
        PlainWrite(s, f, p, Leaf(q, k, l));
        HeldSole(s, f, Leaf(q, k, l));
        assert LT(s, {}, Leaf(q, k, l)) == LeafOf(s, q, k, l);
        LeafUntouched(s, SetFrame(s, f, p), f, q, k, l);
      }
    }
  }

  lemma DropHeldPages(s0: State, s: State, f: int)
    requires SamePages(s0, s) && 0 <= f < |s.count|
    ensures SamePages(s0, Unheld(Uncount(s, f), f))
  {
    var s' := Unheld(Uncount(s, f), f);
    forall q, k, l ensures SamePage(s0, s', q, k, l) {
      assert SamePage(s0, s, q, k, l);
      assert PageAt(s', q, k, l) == PageAt(s, q, k, l);
    }
  }

  lemma AdoptPages(s0: State, s: State, t: int, d: int)
    requires OnlyOthers(s0, s, Proc(t)) && 0 <= t < NR_TASKS == |s.task| && s.task[t].Task? && s.task[t].pgdir == -1
    requires d in s.building && InRam(d)
    ensures SamePlaces(s0, New(d), AdoptDir(s, t, d), Proc(t))
    ensures forall q, k, l :: q != Proc(t) && q != New(d) ==> SamePage(s0, AdoptDir(s, t, d), q, k, l)
  {
    var s' := AdoptDir(s, t, d);
    forall k, l | 0 <= k < 512 && 0 <= l < 1024 ensures PageAt(s', Proc(t), k, l) == PageAt(s0, New(d), k, l) {
      AdoptTargets(s, t, d, Leaf(New(d), k, l));
      assert SamePage(s0, s, New(d), k, l);
    }
    forall q, k, l | q != Proc(t) && q != New(d) ensures SamePage(s0, s', q, k, l) {
      AdoptTargets(s, t, d, Leaf(q, k, l));
      assert SamePage(s0, s, q, k, l);
    }
  }

  ghost predicate Writable(s: State, o: Owner, i: int, j: int) { LeafWord(s, o, i, j).v && LeafWord(s, o, i, j).w }

  // The page a program sees at (i, j) once it may write there: its old page, or zeros.
  ghost function Base(s: State, o: Owner, i: int, j: int): Frame {
    match PageAt(s, o, i, j) case Some(p) => p case None => ZeroFrame()
  }

  ghost predicate Resolved(s: State, s': State, o: Owner, i: int, j: int) {
    && PagesExcept(s, s', o, i, j) && PageAt(s', o, i, j) == Some(Base(s, o, i, j))
    && Writable(s', o, i, j) && EntriesExcept(s, s', o, i, j)
  }

  ghost predicate Stored(s: State, s': State, o: Owner, i: int, j: int, k: int, w: Word) {
    PagesExcept(s, s', o, i, j) && 0 <= k < 1024 && PageAt(s', o, i, j) == Some(Base(s, o, i, j)[k := w])
  }

  ghost predicate NobodyElseSees(s: State, s': State, o: Owner) {
    forall q, k, l :: q != o ==> SamePage(s, s', q, k, l)
  }

  lemma LeafIsUser(s: State, o: Owner, i: int, j: int)
    requires Inv(s, {}) && IsRef(Leaf(o, i, j)) && LeafWord(s, o, i, j).v
    ensures LeafWord(s, o, i, j).u
  {
    assert LT(s, {}, Leaf(o, i, j)) == LeafOf(s, o, i, j);
    TargetOk(s, Leaf(o, i, j));
  }

  lemma SameResolves(s: State, s': State, o: Owner, i: int, j: int)
    requires Inv(s, {}) && IsRef(Leaf(o, i, j)) && LeafWord(s, o, i, j).v
    requires SamePages(s, s') && Writable(s', o, i, j) && EntriesExcept(s, s', o, i, j)
    ensures Resolved(s, s', o, i, j)
  {
    LeafInRam(s, o, i, j);
    assert SamePage(s, s', o, i, j);
  }

  lemma SameIsResolved(s: State, o: Owner, i: int, j: int)
    requires Inv(s, {}) && IsRef(Leaf(o, i, j)) && Writable(s, o, i, j)
    ensures Resolved(s, s, o, i, j)
  {
    SamePagesRefl(s);
    SameResolves(s, s, o, i, j);
  }

  lemma FreshResolves(s: State, s': State, o: Owner, i: int, j: int)
    requires !LeafWord(s, o, i, j).v && FreshPage(s, s', o, i, j) && EntriesExcept(s, s', o, i, j)
    ensures Resolved(s, s', o, i, j)
  {}

  lemma StoreThrough(s: State, s1: State, o: Owner, i: int, j: int, k: int, w: Word)
    requires Inv(s1, {}) && IsRef(Leaf(o, i, j)) && 0 <= k < 1024 && Resolved(s, s1, o, i, j)
    requires InRam(LeafOf(s1, o, i, j))
    ensures Inv(SetWord(s1, LeafOf(s1, o, i, j), k, w), {})
    ensures Stored(s, SetWord(s1, LeafOf(s1, o, i, j), k, w), o, i, j, k, w)
    ensures LeafWord(SetWord(s1, LeafOf(s1, o, i, j), k, w), o, i, j) == LeafWord(s1, o, i, j)
  {
    var f := LeafOf(s1, o, i, j);
    assert LT(s1, {}, Leaf(o, i, j)) == f;
    PlainTarget(s1, Leaf(o, i, j));
    PlainWrite(s1, f, s1.ram[f][k := w], Leaf(o, i, j));
    var s2 := SetWord(s1, f, k, w);
    StorePages(s1, o, i, j, s1.ram[f][k := w]);
    assert PageAt(s1, o, i, j) == Some(s1.ram[f]);
    forall q, x, y | (q != o || x != i || y != j) ensures SamePage(s, s2, q, x, y) {
      assert SamePage(s, s1, q, x, y) && SamePage(s1, s2, q, x, y);
    }
  }

  // Whoever names frame f sees the word, and nobody sees anything else.
  ghost predicate SeenByAll(s: State, s': State, f: int, k: int, w: Word)
    requires 0 <= f < |s.ram| && 0 <= k < 1024
  {
    forall q, x, y :: IsRef(Leaf(q, x, y)) ==>
      && LeafOf(s', q, x, y) == LeafOf(s, q, x, y)
      && PageAt(s', q, x, y) == if LeafOf(s, q, x, y) == f then Some(s.ram[f][k := w]) else PageAt(s, q, x, y)
  }

  lemma KernelSeen(s: State, o: Owner, i: int, j: int, k: int, w: Word)
    requires Inv(s, {}) && IsRef(Leaf(o, i, j)) && LeafWord(s, o, i, j).v && InRam(LeafOf(s, o, i, j)) && 0 <= k < 1024
    ensures var f := LeafOf(s, o, i, j); SeenByAll(s, SetWord(s, f, k, w), f, k, w)
  {
    hide TargetsOk, Exclusive, Counted;
    var f := LeafOf(s, o, i, j);
    var s' := SetWord(s, f, k, w);
    assert LT(s, {}, Leaf(o, i, j)) == f;
    PlainTarget(s, Leaf(o, i, j));
    forall q, x, y | IsRef(Leaf(q, x, y))
      ensures LeafOf(s', q, x, y) == LeafOf(s, q, x, y)
      ensures PageAt(s', q, x, y) == if LeafOf(s, q, x, y) == f then Some(s.ram[f][k := w]) else PageAt(s, q, x, y)
    {
      PlainWrite(s, f, s.ram[f][k := w], Leaf(q, x, y));
    }
  }

  lemma KernelStore(s: State, o: Owner, i: int, j: int, k: int, w: Word)
    requires Inv(s, {}) && IsRef(Leaf(o, i, j)) && LeafWord(s, o, i, j).v && InRam(LeafOf(s, o, i, j)) && 0 <= k < 1024
    ensures var f := LeafOf(s, o, i, j); var s' := SetWord(s, f, k, w);
      && Inv(s', {})
      && (Writable(s, o, i, j) ==> Stored(s, s', o, i, j, k, w))
      && (NobodyElseSees(s, s', o) <==> Named(s, f) == 1 || s.ram[f][k] == w)
  {
    hide TargetsOk, Exclusive, Counted;
    var f := LeafOf(s, o, i, j);
    var p := s.ram[f][k := w];
    var s' := SetWord(s, f, k, w);
    assert LT(s, {}, Leaf(o, i, j)) == f;
    PlainTarget(s, Leaf(o, i, j));
    StoreInv(s, f, p);
    if Writable(s, o, i, j) { SameIsResolved(s, o, i, j); StoreThrough(s, s, o, i, j, k, w); }
    if Named(s, f) == 1 {
      StorePages(s, o, i, j, p);
    } else if s.ram[f][k] == w {
      assert p == s.ram[f];
      assert s'.ram == s.ram;
    } else {
      assert p[k] != s.ram[f][k];
      SharedStoreSeen(s, o, i, j, p);
      var q :| IsOwner(q) && q != o && PageAt(s', q, i, j) != PageAt(s, q, i, j);
      assert !SamePage(s, s', q, i, j);
    }
  }

  // One zero page appeared, mapped writable; nothing else changed.
  ghost predicate FreshPage(s: State, s': State, o: Owner, i: int, j: int) {
    && PagesExcept(s, s', o, i, j) && PageAt(s', o, i, j) == Some(ZeroFrame())
    && LeafWord(s', o, i, j).v && LeafWord(s', o, i, j).w && LeafWord(s', o, i, j).x
  }

  lemma DropHeldCounted(s: State, f: int)
    requires Inv(s, {}) && InRam(f) && f in s.held
    ensures s.count[f] > 0
  { assert LT(s, {}, Held(f)) == f; KillInv(s, {}, Held(f)); }

  lemma OthersAfter(s: State, s2: State, s3: State, s4: State, f: int, o: Owner)
    requires SamePages(s, s2) && 0 <= f < |s2.count| && s3 == Unheld(Uncount(s2, f), f) && OnlyOthers(s3, s4, o)
    ensures OnlyOthers(s, s4, o)
  {
    forall q, k, l | q != o ensures SamePage(s, s4, q, k, l) {
      assert SamePage(s, s2, q, k, l) && SamePage(s3, s4, q, k, l);
      assert PageAt(s3, q, k, l) == PageAt(s2, q, k, l);
    }
  }

  lemma FailedCopy(s2: State, s3: State, nr: int)
    requires Free(s2) == {} ==> s3 == s2
    requires Free(s2) != {} ==> exists k :: 0 <= k < 512 && TableOf(s3, Proc(nr), k) != -1
    requires NoTables(s2, Proc(nr))
    ensures NoTables(s3, Proc(nr)) <==> |Free(s2)| == 0
  {}

  // Owner q sees in s' exactly what owner o saw in s.
  ghost predicate SamePlaces(s: State, o: Owner, s': State, q: Owner) {
    forall k, l :: 0 <= k < 512 && 0 <= l < 1024 ==> PageAt(s', q, k, l) == PageAt(s, o, k, l)
  }

  lemma SamePagesRefl(s: State) ensures SamePages(s, s) {}

  lemma SamePagesTrans(s0: State, s1: State, s2: State)
    requires SamePages(s0, s1) && SamePages(s1, s2)
    ensures SamePages(s0, s2)
  {
    forall q, k, l ensures SamePage(s0, s2, q, k, l) { assert SamePage(s0, s1, q, k, l) && SamePage(s1, s2, q, k, l); }
  }

  lemma OthersTrans(s0: State, s1: State, s2: State, s3: State, o: Owner)
    requires SamePages(s0, s1)
    requires forall q, k, l :: q != o ==> SamePage(s1, s2, q, k, l)
    requires forall q, k, l :: q != o ==> SamePage(s2, s3, q, k, l)
    ensures forall q, k, l :: q != o ==> SamePage(s0, s3, q, k, l)
  {
    hide PageAt;
    forall q, k, l | q != o ensures SamePage(s0, s3, q, k, l) {
      assert SamePage(s0, s1, q, k, l) && SamePage(s1, s2, q, k, l) && SamePage(s2, s3, q, k, l);
    }
  }

  lemma ReleasePages(s0: State, s: State, nr: int)
    requires SamePages(s0, s) && 0 <= nr < |s.task| && s.task[nr].Task? && 0 <= s.task[nr].page < |s.count|
    ensures forall q, k, l :: q != Proc(nr) ==> SamePage(s0, SetTask(Uncount(s, s.task[nr].page), nr, NoTask), q, k, l)
  {
    var s' := SetTask(Uncount(s, s.task[nr].page), nr, NoTask);
    forall q, k, l | q != Proc(nr) ensures SamePage(s0, s', q, k, l) {
      assert SamePage(s0, s, q, k, l);
      assert DirOf(s', q) == DirOf(s, q);
      assert TableOf(s', q, k) == TableOf(s, q, k);
    }
  }

  lemma KeepsTables(s: State, s': State, o: Owner, f: int)
    requires Inv(s, {}) && IsOwner(o) && DirOf(s, o) != -1 && InRam(f) && s.count[f] == 0
    requires |s'.ram| == PAGING_PAGES && DirOf(s', o) == DirOf(s, o)
    requires forall g :: InRam(g) && g != f ==> s'.ram[g] == s.ram[g]
    ensures TablesBelow(s', DirOf(s', o), 512) == TablesBelow(s, DirOf(s, o), 512)
  {
    FreeIsPlain(s, f);
    SoleDirIs(s, o);
    var d := DirOf(s, o);
    forall k ensures WordAt(s', d, k) == WordAt(s, d, k) {}
  }

  lemma DupGives(s0: State, s2: State, s3: State, o: Owner, p: Owner, d1: int, d2: int)
    requires SamePages(s0, s2) && Dup(s2, s3, o, p, d1, d2, 512) && IsOwner(o) && IsOwner(p)
    ensures SamePlaces(s0, o, s3, p)
    ensures forall q, k, l :: q != p ==> SamePage(s0, s3, q, k, l)
  {
    hide PageAt;
    forall k, l | 0 <= k < 512 && 0 <= l < 1024 ensures PageAt(s3, p, k, l) == PageAt(s0, o, k, l) {
      assert SamePage(s0, s2, o, k, l);
    }
    forall q, k, l | q != p ensures SamePage(s0, s3, q, k, l) {
      assert SamePage(s0, s2, q, k, l) && SamePage(s2, s3, q, k, l);
    }
  }

  lemma OthersThen(s0: State, s: State, s': State, o: Owner)
    requires OnlyOthers(s0, s, o) && OnlyOthers(s, s', o)
    ensures OnlyOthers(s0, s', o)
  {
    hide PageAt;
    forall q, k, l | q != o ensures SamePage(s0, s', q, k, l) {
      assert SamePage(s0, s, q, k, l) && SamePage(s, s', q, k, l);
    }
  }

  lemma PageInRam(s: State, t: int)
    requires Inv(s, {}) && 0 <= t < NR_TASKS && s.task[t].Task? && s.task[t].page != -1
    ensures InRam(s.task[t].page)
  {
    assert LT(s, {}, Page(t)) == s.task[t].page;
    TargetOk(s, Page(t));
  }

  lemma BumpedLength(s0: State, s: State, p: Owner)
    requires Bumped(s0, s, p)
    ensures |s0.count| == PAGING_PAGES
  {}

  lemma MirroredTwins(s0: State, s: State, o: Owner, p: Owner, i: int, t1: int, t2: int)
    requires Copying(s0, s, o, p, i, t1, t2, 1024) && Mirrored(s, t1, t2, 1024)
    ensures forall l :: 0 <= l < 1024 ==> Twin(s, o, p, i, l)
  {
    forall l | 0 <= l < 1024 ensures Twin(s, o, p, i, l) {
      assert LeafWord(s, o, i, l) == WordAt(s, t1, l) && LeafWord(s, p, i, l) == WordAt(s, t2, l);
    }
  }

  lemma TableStarts(s0: State, s: State, o: Owner, p: Owner, d: int, i: int, f: int)
    requires Inv(s0, {}) && Inv(s, {}) && Bumped(s0, s, p) && InRam(f) && s.count[f] == 0 && IsOwner(p) && 0 <= i < 512
    requires DirOf(s, p) == d != -1 && !WordAt(s, d, i).v
    ensures InRam(d) && Bumped(s0, InstallTable(Alloc(s, f), d, i, f), p)
    ensures forall q, k, l :: SameEntry(s, InstallTable(Alloc(s, f), d, i, f), q, k, l)
  {
    hide TargetsOk, Exclusive, Bumped, SameEntry;
    DirIsSole(s, p);
    BumpedLength(s0, s, p);
    CountAtLeast(s0, f);
    BumpedTable(s0, s, f, p, d, i);
    forall q, k, l ensures SameEntry(s, InstallTable(Alloc(s, f), d, i, f), q, k, l) {
      NewTableEntries(s, f, p, d, i, q, k, l);
    }
  }

  lemma ForkStarts(s: State, o: Owner, p: Owner)
    requires |s.count| == PAGING_PAGES
    ensures Bumped(s, s, p) && Twins(s, o, p, 0)
  {}

  lemma CountAtLeast(s: State, f: int)
    requires Inv(s, {}) && InRam(f)
    ensures s.count[f] >= 0
  {}

  lemma CopyingFacts(s0: State, s: State, o: Owner, p: Owner, i: int, t1: int, t2: int, j: int)
    requires Copying(s0, s, o, p, i, t1, t2, j) && o != p && IsRef(Table(o, i)) && IsRef(Table(p, i))
    ensures |s.ram| == PAGING_PAGES == |s.count| && InRam(t1) && InRam(t2) && t1 != t2 && s.building == s0.building
  {}

  lemma SoleTableFacts(s: State, o: Owner, p: Owner, i: int, t1: int, t2: int)
    requires SoleTable(s, o, i, t1) && SoleTable(s, p, i, t2) && o != p && IsOwner(o) && IsOwner(p) && 0 <= i < 512
    ensures InRam(t1) && InRam(t2) && t1 != t2 && TableOf(s, o, i) == t1 && TableOf(s, p, i) == t2
  {}

  // Owner o has no pages left; everybody else's are untouched.
  ghost predicate OnlyOthers(s: State, s': State, o: Owner) {
    && (forall p, k, l :: p != o ==> SamePage(s, s', p, k, l))
    && DirOf(s', o) == -1
    && (forall k, l :: PageAt(s', o, k, l) == None)
  }

  lemma NoDirNoPages(s: State, o: Owner)
    requires IsOwner(o) && DirOf(s, o) == -1
    ensures Undir(s, o) == s && OnlyOthers(s, s, o)
  {}

  lemma ClearDirPages(s: State, s': State, o: Owner, d: int, i: int)
    requires Inv(s, {}) && SoleDir(s, o, d) && IsRef(Table(o, i))
    requires s' == SetWord(s, d, i, ZERO).(count := s'.count)
    ensures forall p, k, l :: p != o || k != i ==> SamePage(s, s', p, k, l)
  {
    var s1 := SetWord(s, d, i, ZERO);
    forall p, k, l | (p != o || k != i) && IsRef(Leaf(p, k, l)) ensures PageAt(s', p, k, l) == PageAt(s, p, k, l) {
      LeafIsNotDir(s, o, p, k, l);
      DirWritePages(s, o, d, i, ZERO, p, k, l);
      CountsKeepTargets(s1, s'.count, {}, Leaf(p, k, l));
    }
  }

  lemma DropDirPages(s0: State, s: State, s': State, o: Owner)
    requires Shape(s) && IsOwner(o) && InRam(DirOf(s, o))
    requires s' == Undir(Uncount(s, DirOf(s, o)), o)
    requires forall p, k, l :: p != o ==> SamePage(s0, s, p, k, l)
    ensures OnlyOthers(s0, s', o)
  {
    forall k, l ensures PageAt(s', o, k, l) == None { assert TableOf(s', o, k) == -1; }
    forall p, k, l | p != o ensures SamePage(s0, s', p, k, l) {
      assert SamePage(s0, s, p, k, l);
      assert DirOf(s', p) == DirOf(s, p);
      assert TableOf(s', p, k) == TableOf(s, p, k);
    }
  }

  ghost function LeavesBelow(s: State, o: Owner, i: int, j: int): set<Ref> {
    set l | 0 <= l < j && LeafWord(s, o, i, l).v :: Leaf(o, i, l)
  }

  lemma SoleDirInRam(s: State, o: Owner, d: int) requires SoleDir(s, o, d) ensures InRam(d) && DirOf(s, o) == d {}

  lemma TableInRam(s: State, o: Owner, i: int)
    requires Inv(s, {}) && IsRef(Table(o, i)) && TableOf(s, o, i) != -1
    ensures InRam(TableOf(s, o, i))
  { assert LT(s, {}, Table(o, i)) == TableOf(s, o, i); TargetOk(s, Table(o, i)); }

  lemma CountsKeepTargets(s: State, c: seq<int>, dead: set<Ref>, r: Ref)
    ensures Same(s, s.(count := c), r) && LT(s.(count := c), dead, r) == LT(s, dead, r)
  {}

  lemma CountsKeepSoleDir(s: State, c: seq<int>, o: Owner, d: int)
    requires SoleDir(s, o, d)
    ensures SoleDir(s.(count := c), o, d)
  {
    var s' := s.(count := c);
    forall q ensures DirOf(s', q) == DirOf(s, q) {}
    forall q, k ensures TableOf(s', q, k) == TableOf(s, q, k) {}
  }

  lemma LeafAlive(s0: State, s: State, dead: set<Ref>, o: Owner, i: int, j: int)
    requires s == s0.(count := s.count) && IsRef(Leaf(o, i, j)) && dead == LeavesBelow(s0, o, i, j)
    ensures LT(s, dead, Leaf(o, i, j)) == LeafOf(s0, o, i, j)
  {}

  // Once the leaves and the table are freed nothing under (o, i) is alive.
  lemma AllDead(s0: State, s: State, dead: set<Ref>, o: Owner, i: int)
    requires s == s0.(count := s.count) && IsRef(Table(o, i)) && dead == LeavesBelow(s0, o, i, 1024) + {Table(o, i)}
    ensures forall r :: Under(r, o, i) ==> LT(s, dead, r) == -1
    ensures forall r :: r in dead ==> Under(r, o, i)
  {
    forall r | Under(r, o, i) ensures LT(s, dead, r) == -1 {
      CountsKeepTargets(s0, s.count, dead, r);
      if r.Leaf? && LeafWord(s0, o, i, r.j).v && IsRef(r) { assert r in LeavesBelow(s0, o, i, 1024); }
    }
  }

  lemma SamePagesThen(s0: State, s1: State, s2: State, o: Owner, i: int, j: int)
    requires SamePages(s0, s1) && PagesExcept(s1, s2, o, i, j)
    ensures PagesExcept(s0, s2, o, i, j)
  {
    forall p, k, l | (p != o || k != i || l != j) ensures SamePage(s0, s2, p, k, l) {
      assert SamePage(s0, s1, p, k, l) && SamePage(s1, s2, p, k, l);
    }
  }
}
