// Any run of writes, reads, seeks and truncations on open files, whatever the disk refuses on the way, against plain
// byte sequences.
module FileRuns {
  import opened Bytes
  import opened Longs
  import opened Zones
  import opened ZoneFree
  import opened FileLayer
  import opened FileBytes

  const EBADF := -9
  const EINVAL := -22

  // an entry of the file table on inode n, a regular file or a directory
  datatype Open = Open(n: int, dir: bool, file: File)
  // what users know: the bytes of the files, and the open files with their positions
  datatype World = World(files: seq<seq<Byte>>, open: seq<Open>)

  // stale is what the disk holds of the blocks that a truncation gives up.
  datatype Op =
    | Write(fd: int, buf: seq<Byte>)
    | Read(fd: int, count: Long)
    | Seek(fd: int, offset: Long, origin: int)
    | Trunc(fd: int, stale: seq<Block>)
  datatype Out = Ret(r: int, data: seq<Byte>) | Panic

  predicate Known(w: World) {
    forall fd :: 0 <= fd < |w.open| ==> 0 <= w.open[fd].n < |w.files| && 0 <= w.open[fd].file.pos
  }

  // lseek: the new position, or EINVAL
  function Target(pos: int, size: int, offset: Long, origin: int): int {
    var to := if origin == 0 then offset else if origin == 1 then Wrapped(pos + offset) else Wrapped(size + offset);
    if !(0 <= origin <= 2) || to < 0 then EINVAL else to
  }

  // how many bytes a write has put: all it answers, or as far as the largest file goes if it panics
  function Put(start: int, out: Out): int {
    if out.Ret? then Count(out.r) else if start < MAX_BYTES then MAX_BYTES - start else 0
  }

  function Data(f: seq<Byte>, pos: int, count: int): seq<Byte>
    requires 0 <= pos
  { if count <= 0 then [] else f[Clip(pos, |f|)..Clip(pos + count, |f|)] }

  function MoveTo(open: seq<Open>, fd: int, pos: int): seq<Open>
    requires 0 <= fd < |open|
  { open[fd := open[fd].(file := open[fd].file.(pos := pos))] }

  function RefStep(w: World, op: Op, out: Out): (r: World)
    requires Known(w)
    ensures |r.files| == |w.files| && |r.open| == |w.open|
  {
    if !(0 <= op.fd < |w.open|) then w else
    var o := w.open[op.fd];
    var f := w.files[o.n];
    match op
    case Write(fd, buf) =>
      var start := Start(o.file, |f|);
      var done := Put(start, out);
      if o.dir || !(0 < done <= |buf|) then w else
        var w1 := w.(files := w.files[o.n := Overlay(f, start, buf[..done])]);
        if o.file.append || out.Panic? then w1 else w1.(open := MoveTo(w.open, fd, o.file.pos + done))
    case Read(fd, count) => w.(open := MoveTo(w.open, fd, o.file.pos + |Data(f, o.file.pos, count)|))
    case Seek(fd, offset, origin) =>
      var to := Target(o.file.pos, |f|, offset, origin);
      if to < 0 then w else w.(open := MoveTo(w.open, fd, to))
    case Trunc(fd, _) => w.(files := w.files[o.n := []])
  }

  // What the answer must be, with s the disk after the operation. A write is cut short exactly where the disk has no
  // block for the next byte, and panics exactly when it has come to the end of the largest file with bytes left.
  ghost predicate Expected(w: World, op: Op, out: Out, s: Disk)
    requires Known(w)
  {
    if !(0 <= op.fd < |w.open|) then out == Ret(if op.Seek? || op.Trunc? then EBADF else EINVAL, []) else
    var o := w.open[op.fd];
    var f := w.files[o.n];
    match op
    case Write(_, buf) =>
      var start := Start(o.file, |f|);
      if buf == [] then out == Ret(0, [])
      else if o.dir then out == Ret(EINVAL, [])
      else if out.Panic? then start + |buf| > MAX_BYTES
      else
        && out.data == [] && (out.r == -1 || 0 < out.r <= |buf|)
        && (if Count(out.r) == |buf| then start + |buf| <= MAX_BYTES else Short(s, o.n, start + Count(out.r)))
    case Read(_, count) =>
      if count < 0 then out == Ret(EINVAL, []) else
        var data := Data(f, o.file.pos, count);
        out == Ret(|data|, data)
    case Seek(_, offset, origin) => out == Ret(Target(o.file.pos, |f|, offset, origin), [])
    case Trunc(_, _) => out == Ret(0, [])
  }

  lemma StepKnown(w: World, op: Op, out: Out)
    requires Known(w)
    ensures Known(RefStep(w, op, out))
  { hide Overlay, Target, Data; }

  function RefRun(w: World, ops: seq<Op>, outs: seq<Out>): (r: World)
    requires |outs| <= |ops| && Known(w)
    ensures Known(r) && |r.files| == |w.files| && |r.open| == |w.open|
  {
    if outs == [] then w else
      var r := RefRun(w, ops, outs[..|outs| - 1]);
      StepKnown(r, ops[|outs| - 1], outs[|outs| - 1]);
      RefStep(r, ops[|outs| - 1], outs[|outs| - 1])
  }

  ghost predicate Good(s: Disk) { Inv(s, {}) && s.held == {} && ZeroTails(s) && GoodSizes(s) }

  // the files that are open are regular files or directories
  ghost predicate OpenOk(s: Disk, open: seq<Open>) {
    forall fd :: 0 <= fd < |open| ==> 0 <= open[fd].n < |s.inode| && s.inode[open[fd].n].tree && 0 <= open[fd].file.pos
  }

  ghost function Files(s: Disk): (r: seq<seq<Byte>>)
    requires Shape(s) && GoodSizes(s)
    ensures |r| == |s.inode|
  { seq(|s.inode|, n requires 0 <= n < |s.inode| => FileSeq(s, n)) }

  lemma FilesStep(s: Disk, s': Disk, n: int, f: seq<Byte>)
    requires Shape(s) && Shape(s') && GoodSizes(s) && GoodSizes(s') && |s'.inode| == |s.inode| && 0 <= n < |s.inode|
    requires FileSeq(s', n) == f && forall m :: 0 <= m < |s.inode| && m != n ==> FileSeq(s', m) == FileSeq(s, m)
    ensures Files(s') == Files(s)[n := f]
  {
    forall m | 0 <= m < |s.inode| ensures Files(s')[m] == Files(s)[n := f][m] {}
  }

  lemma NothingPut(w: World, fd: int, buf: seq<Byte>, s: Disk)
    requires Known(w) && 0 <= fd < |w.open| && (buf == [] || w.open[fd].dir)
    ensures var out := Ret(if buf == [] then 0 else EINVAL, []);
      RefStep(w, Write(fd, buf), out) == w && Expected(w, Write(fd, buf), out, s)
  {}

  lemma WriteIs(w: World, fd: int, buf: seq<Byte>, r: int, panic: bool, out: Out, file: File, s: Disk)
    requires Known(w) && 0 <= fd < |w.open| && !w.open[fd].dir && buf != []
    requires (r == -1 || 0 < r <= |buf|) && out == if panic then Panic else Ret(r, [])
    requires
      var o := w.open[fd];
      var start := Start(o.file, |w.files[o.n]|);
      && (panic <==> Count(r) < |buf| && start + Count(r) >= MAX_BYTES)
        && (Count(r) > 0 ==> start + Count(r) <= MAX_BYTES)
      && (Count(r) < |buf| && !panic ==> Short(s, o.n, start + Count(r)))
      && file == if o.file.append || panic then o.file else o.file.(pos := o.file.pos + Count(r))
    ensures
      var o := w.open[fd];
      var start := Start(o.file, |w.files[o.n]|);
      && Expected(w, Write(fd, buf), out, s)
      && World(w.files[o.n := Overlay(w.files[o.n], start, buf[..Count(r)])], w.open[fd := o.(file := file)])
         == RefStep(w, Write(fd, buf), out)
  {
    hide Short;
    var o := w.open[fd];
    var start := Start(o.file, |w.files[o.n]|);
    assert Put(start, out) == Count(r);
    if Count(r) == 0 { assert buf[..0] == []; }
  }

  // sys_write; a directory is not written
  method StepWrite(fs: Fs, open: seq<Open>, fd: int, buf: seq<Byte>) returns (out: Out, open': seq<Open>)
    requires Good(fs.St()) && fs.Maps() && OpenOk(fs.St(), open) && 0 <= fd < |open|
    modifies fs, fs.zmap, fs.block, fs.inode
    ensures Good(fs.St()) && OpenOk(fs.St(), open')
    ensures var w := World(Files(old(fs.St())), open);
      && World(Files(fs.St()), open') == RefStep(w, Write(fd, buf), out)
      && Expected(w, Write(fd, buf), out, fs.St())
  {
    hide InRange, Distinct, Mapped, Wrote, ZeroTails, Short, Overlay, RefStep, Expected, FileSeq;
    ghost var s := fs.St();
    var o := open[fd];
    if buf == [] || o.dir {
      NothingPut(World(Files(s), open), fd, buf, s);
      return Ret(if buf == [] then 0 else EINVAL, []), open;
    }
    ghost var start := Start(o.file, s.inode[o.n].size);
    var r, file, panic := FileWrite(fs, o.n, o.file, buf);
    WriteRefines(s, fs.St(), o.n, start, buf, Count(r));
    FilesStep(s, fs.St(), o.n, Overlay(FileSeq(s, o.n), start, buf[..Count(r)]));
    out := if panic then Panic else Ret(r, []);
    open' := open[fd := o.(file := file)];
    WriteIs(World(Files(s), open), fd, buf, r, panic, out, file, fs.St());
  }

  // sys_read
  method StepRead(fs: Fs, open: seq<Open>, fd: int, count: Long) returns (out: Out, open': seq<Open>)
    requires Good(fs.St()) && fs.Maps() && OpenOk(fs.St(), open) && 0 <= fd < |open|
    modifies fs, fs.zmap, fs.block, fs.inode
    ensures fs.St() == old(fs.St()) && OpenOk(fs.St(), open')
    ensures var w := World(Files(fs.St()), open);
      && World(Files(fs.St()), open') == RefStep(w, Read(fd, count), out)
      && Expected(w, Read(fd, count), out, fs.St())
  {
    hide InRange, Distinct, Mapped, ZeroTails, FileSeq;
    if count < 0 { return Ret(EINVAL, []), open; }
    var r, data, file := SysRead(fs, open[fd].n, open[fd].file, count);
    out := Ret(r, data);
    open' := open[fd := open[fd].(file := file)];
  }

  method Step(fs: Fs, open: seq<Open>, op: Op) returns (out: Out, open': seq<Open>)
    requires Good(fs.St()) && fs.Maps() && OpenOk(fs.St(), open)
    modifies fs, fs.zmap, fs.block, fs.inode
    ensures Good(fs.St()) && OpenOk(fs.St(), open')
    ensures var w := World(Files(old(fs.St())), open);
      World(Files(fs.St()), open') == RefStep(w, op, out) && Expected(w, op, out, fs.St())
    ensures op.Read? || op.Seek? ==> fs.St() == old(fs.St())
  {
    hide InRange, Distinct, Mapped, ZeroTails, FileSeq, Overlay, Short, Target;
    if !(0 <= op.fd < |open|) { return Ret(if op.Seek? || op.Trunc? then EBADF else EINVAL, []), open; }
    ghost var s := fs.St();
    match op
    case Write(fd, buf) => out, open' := StepWrite(fs, open, fd, buf);
    case Read(fd, count) => out, open' := StepRead(fs, open, fd, count);
    case Seek(fd, offset, origin) =>
      var to := Target(open[fd].file.pos, fs.inode[open[fd].n].size, offset, origin);
      out := Ret(to, []);
      open' := if to < 0 then open else MoveTo(open, fd, to);
    case Trunc(fd, stale) =>
      var n := open[fd].n;
      NotFreed(s, n);
      var panic := fs.Truncate(n, seq(fs.block.Length, i => Stale(stale, i)));
      TruncateRefines(s, fs.St(), n);
      FilesStep(s, fs.St(), n, []);
      out, open' := Ret(0, []), open;
  }

  // ---- runs
  // Every disk of the run holds the files that the reference run has there, every answer is the expected one, and
  // nothing but writes and truncations touches the disk.
  ghost predicate Traced(w: World, ops: seq<Op>, outs: seq<Out>, disks: seq<Disk>)
    requires Known(w)
  {
    && |outs| <= |ops| && |disks| == |outs| + 1
    && (forall i :: 0 <= i < |disks| ==> Good(disks[i]) && Files(disks[i]) == RefRun(w, ops, outs[..i]).files)
    && forall i :: 0 <= i < |outs| ==> Went(RefRun(w, ops, outs[..i]), ops[i], outs[i], disks[i], disks[i + 1])
  }

  ghost predicate Went(w: World, op: Op, out: Out, s: Disk, s': Disk)
    requires Known(w)
  { Expected(w, op, out, s') && (op.Read? || op.Seek? ==> s' == s) }

  lemma RunMore(w: World, ops: seq<Op>, outs: seq<Out>, out: Out)
    requires Known(w) && |outs| < |ops|
    ensures RefRun(w, ops, outs + [out]) == RefStep(RefRun(w, ops, outs), ops[|outs|], out)
  {
    hide RefStep, Known;
    assert (outs + [out])[..|outs|] == outs;
  }

  lemma TracedMore(w: World, ops: seq<Op>, outs: seq<Out>, disks: seq<Disk>, out: Out, s: Disk)
    requires Known(w) && Traced(w, ops, outs, disks) && |outs| < |ops| && Good(s)
    requires Went(RefRun(w, ops, outs), ops[|outs|], out, disks[|outs|], s)
    requires Files(s) == RefStep(RefRun(w, ops, outs), ops[|outs|], out).files
    ensures Traced(w, ops, outs + [out], disks + [s])
    ensures RefRun(w, ops, outs + [out]) == RefStep(RefRun(w, ops, outs), ops[|outs|], out)
  {
    hide RefRun, RefStep, Went, Good, Files, Known;
    RunMore(w, ops, outs, out);
    GoodShape(s);
    forall i | 0 <= i < |disks| ensures Shape(disks[i]) && GoodSizes(disks[i]) { GoodShape(disks[i]); }
    var all, ds := outs + [out], disks + [s];
    assert all[..|outs|] == outs && all[..|all|] == all;
    forall i | 0 <= i <= |outs| ensures all[..i] == outs[..i] {}
    assert outs[..|outs|] == outs;
    forall i | 0 <= i < |ds| ensures Good(ds[i]) && Files(ds[i]) == RefRun(w, ops, all[..i]).files {
      if i <= |outs| { assert ds[i] == disks[i]; }
    }
    forall i | 0 <= i < |all| ensures Went(RefRun(w, ops, all[..i]), ops[i], all[i], ds[i], ds[i + 1]) {
      if i < |outs| { assert ds[i + 1] == disks[i + 1] && all[i] == outs[i]; }
    }
  }

  lemma GoodShape(s: Disk)
    requires Good(s)
    ensures Shape(s) && GoodSizes(s)
  {}

  // Every run is a run on byte sequences, and stops before its end only at a panic. disks are its disks.
  method Run(fs: Fs, open: seq<Open>, ops: seq<Op>) returns (outs: seq<Out>, open': seq<Open>, ghost disks: seq<Disk>)
    requires Good(fs.St()) && fs.Maps() && OpenOk(fs.St(), open)
    modifies fs, fs.zmap, fs.block, fs.inode
    ensures Good(fs.St()) && OpenOk(fs.St(), open') && Traced(World(Files(old(fs.St())), open), ops, outs, disks)
    ensures World(Files(fs.St()), open') == RefRun(World(Files(old(fs.St())), open), ops, outs)
    ensures disks[0] == old(fs.St()) && disks[|outs|] == fs.St()
    ensures |outs| < |ops| ==> outs != [] && outs[|outs| - 1].Panic?
    ensures forall i :: 0 <= i < |outs| - 1 ==> !outs[i].Panic?
  {
    hide InRange, Distinct, Mapped, Files, RefStep, Expected, Traced, ZeroTails, GoodSizes;
    ghost var w := World(Files(fs.St()), open);
    outs, open', disks := [], open, [fs.St()];
    TracedNone(w, ops, fs.St());
    while |outs| < |ops|
      invariant Good(fs.St()) && OpenOk(fs.St(), open') && Traced(w, ops, outs, disks)
        && |disks| == |outs| + 1 <= |ops| + 1
      invariant World(Files(fs.St()), open') == RefRun(w, ops, outs)
      invariant disks[0] == old(fs.St()) && disks[|outs|] == fs.St()
      invariant forall i :: 0 <= i < |outs| ==> !outs[i].Panic?
    {
      var out;
      out, open' := Step(fs, open', ops[|outs|]);
      TracedMore(w, ops, outs, disks, out, fs.St());
      outs, disks := outs + [out], disks + [fs.St()];
      if out.Panic? { return; }
    }
  }

  lemma TracedNone(w: World, ops: seq<Op>, s: Disk)
    requires Known(w) && Good(s) && w.files == Files(s)
    ensures Traced(w, ops, [], [s])
  {}

  // A position at or past the end of the largest file can be set, and the next write there panics.
  lemma WritePanics(w: World, fd: int, to: Long, buf: seq<Byte>, out: Out, s: Disk)
    requires Known(w) && 0 <= fd < |w.open| && !w.open[fd].dir && !w.open[fd].file.append && MAX_BYTES <= to
    requires buf != []
    requires
      var w1 := RefStep(w, Seek(fd, to, 0), Ret(to, []));
      Known(w1) && Expected(w1, Write(fd, buf), out, s)
    ensures Expected(w, Seek(fd, to, 0), Ret(to, []), s) && out == Panic
  {}

  function EmptyFiles(n: nat): seq<seq<Byte>> { seq(n, _ => []) }

  lemma NoFiles(s: Disk)
    requires Inv(s, {}) && forall n :: 0 <= n < |s.inode| ==> s.inode[n] == Inode(true, 0, seq(9, _ => 0))
    ensures GoodSizes(s) && ZeroTails(s) && Files(s) == EmptyFiles(|s.inode|)
  {
    forall n, p | 0 <= n < |s.inode| && 0 <= p < MAX_BYTES ensures ByteAt(s, n, p) == 0 {
      PosOfGood(s, n, p / 1024);
      EmptyTree(s, PosOf(n, p / 1024));
    }
    forall n | 0 <= n < |s.inode| ensures FileSeq(s, n) == [] {}
  }

  // Any run on a new file system, with any files open.
  method Boot(blocks: seq<Block>, inodes: nat, firstZone: int, zones: int, maps: nat, open: seq<Open>, ops: seq<Op>)
    returns (fs: Fs, outs: seq<Out>, ghost disks: seq<Disk>)
    requires 0 < firstZone <= zones <= |blocks| && zones <= 65536 && 1 <= maps <= 8
    requires Known(World(EmptyFiles(inodes), open))
    ensures Good(fs.St()) && Traced(World(EmptyFiles(inodes), open), ops, outs, disks)
    ensures Files(fs.St()) == RefRun(World(EmptyFiles(inodes), open), ops, outs).files && disks[|outs|] == fs.St()
    ensures disks[0].nzones == zones && forall k :: 0 < k < |disks[0].bits| ==> !disks[0].bits[k]
    ensures |outs| < |ops| ==> outs != [] && outs[|outs| - 1].Panic?
    ensures forall i :: 0 <= i < |outs| - 1 ==> !outs[i].Panic?
  {
    hide InRange, Distinct, Mapped, Files, RefRun, Traced, ZeroTails, GoodSizes, EmptyFiles;
    fs := new Fs(blocks, inodes, firstZone, zones, maps);
    NoFiles(fs.St());
    var open';
    outs, open', disks := Run(fs, open, ops);
  }
}
