// Files as byte sequences over the block trees.
module FileBytes {
  import opened Bytes
  import opened Zones
  import opened ZoneMoves
  import opened ZoneSteps
  import opened ZoneFree
  import opened FileLayer

  const MAX_BYTES := MAX_BLOCKS * 1024

  ghost function ByteAt(s: Disk, n: int, p: int): Byte
    requires Shape(s) && 0 <= n < |s.inode| && 0 <= p < MAX_BYTES
  { Content(s, PosOf(n, p / 1024))[p % 1024] }

  function Splice(c: Block, off: int, src: seq<Byte>): Block requires 0 <= off && off + |src| <= 1024 {
    c[..off] + src + c[off + |src|..]
  }

  // The bytes pos.. of file n became buf[..i]; no other byte of any file changed.
  ghost predicate Wrote(s0: Disk, s: Disk, n: int, pos: int, buf: seq<Byte>, i: int) {
    && Shape(s0) && Shape(s) && |s.inode| == |s0.inode| && 0 <= i <= |buf|
    && forall m, p :: 0 <= m < |s0.inode| && 0 <= p < MAX_BYTES ==>
         ByteAt(s, m, p) == if m == n && pos <= p < pos + i then buf[p - pos] else ByteAt(s0, m, p)
  }

  lemma PosOfGood(s: Disk, n: int, k: int)
    requires 0 <= n < |s.inode| && 0 <= k < MAX_BLOCKS
    ensures IsPos(s, PosOf(n, k)) && !IsNode(PosOf(n, k))
  {}

  lemma PosOfInjective(n: int, k: int, m: int, l: int)
    requires 0 <= k < MAX_BLOCKS && 0 <= l < MAX_BLOCKS && PosOf(n, k) == PosOf(m, l)
    ensures n == m && k == l
  {}

  lemma DataWrite(s: Disk, p0: Pos, c: Block)
    requires Inv(s, {}) && IsPos(s, p0) && !IsNode(p0) && At(s, p0) != 0
    ensures InBlocks(s, At(s, p0)) && Inv(SetBlock(s, At(s, p0), c), {})
    ensures forall p :: IsPos(s, p) && !IsNode(p) ==>
      Content(SetBlock(s, At(s, p0), c), p) == if p == p0 then c else Content(s, p)
    ensures At(SetBlock(s, At(s, p0), c), p0) == At(s, p0)
  {
    var b := At(s, p0);
    NamedInv(s, p0, b);
    var s' := SetBlock(s, b, c);
    assert NotNode(s, {}, b) && Closed({});
    forall p ensures Shape(s') && Live(s', {}, p) == Live(s, {}, p) { BlockWrite(s, {}, b, c, p); }
    Relabel(s, {}, s', {});
    forall p | IsPos(s, p) ensures At(s', p) == At(s, p) { assert Live(s', {}, p) == Live(s, {}, p); }
  }

  lemma WroteStart(s: Disk, n: int, pos: int, buf: seq<Byte>)
    requires Shape(s)
    ensures Wrote(s, s, n, pos, buf, 0)
  {}

  lemma SameBytes(s: Disk, s': Disk, m: int, p: int)
    requires SameContents(s, s') && 0 <= m < |s.inode| && 0 <= p < MAX_BYTES
    ensures ByteAt(s', m, p) == ByteAt(s, m, p)
  {
    PosOfGood(s, m, p / 1024);
    assert SameContent(s, s', PosOf(m, p / 1024));
  }

  // One round of file_write's loop: s1 is after create_block, s2 after the copy.
  lemma WroteStep(s0: Disk, s: Disk, s1: Disk, n: int, pos: int, buf: seq<Byte>, i: int, c: int)
    requires Wrote(s0, s, n, pos, buf, i) && SameContents(s, s1) && Inv(s1, {}) && 0 <= n < |s.inode| && 0 <= pos
    requires 0 < c && i + c <= |buf| && (pos + i) % 1024 + c <= 1024 && pos + i + c <= MAX_BYTES
    requires At(s1, PosOf(n, (pos + i) / 1024)) != 0
    ensures InBlocks(s1, At(s1, PosOf(n, (pos + i) / 1024)))
    ensures
      var b := At(s1, PosOf(n, (pos + i) / 1024));
      var s2 := SetBlock(s1, b, Splice(s1.block[b], (pos + i) % 1024, buf[i..i + c]));
      Inv(s2, {}) && Wrote(s0, s2, n, pos, buf, i + c)
  {
    var q := PosOf(n, (pos + i) / 1024);
    PosOfGood(s1, n, (pos + i) / 1024);
    var b := At(s1, q);
    var off := (pos + i) % 1024;
    NamedInv(s1, q, b);
    var d := Splice(s1.block[b], off, buf[i..i + c]);
    var s2 := SetBlock(s1, b, d);
    DataWrite(s1, q, d);
    hide InRange, Distinct, Mapped;
    forall m, p | 0 <= m < |s0.inode| && 0 <= p < MAX_BYTES
      ensures ByteAt(s2, m, p) == if m == n && pos <= p < pos + i + c then buf[p - pos] else ByteAt(s0, m, p)
    {
      SameBytes(s, s1, m, p);
      WroteByte(s1, s2, n, pos, buf, i, c, m, p);
      assert ByteAt(s, m, p) == if m == n && pos <= p < pos + i then buf[p - pos] else ByteAt(s0, m, p);
    }
  }

  lemma WroteByte(s1: Disk, s2: Disk, n: int, pos: int, buf: seq<Byte>, i: int, c: int, m: int, p: int)
    requires Shape(s1) && Shape(s2) && |s2.inode| == |s1.inode| && 0 <= n < |s1.inode| && 0 <= m < |s1.inode|
    requires 0 <= p < MAX_BYTES && 0 <= pos && 0 <= i
    requires 0 < c && i + c <= |buf| && (pos + i) % 1024 + c <= 1024 && pos + i + c <= MAX_BYTES
    requires forall x :: IsPos(s1, x) && !IsNode(x) ==>
      Content(s2, x) == if x == PosOf(n, (pos + i) / 1024) then Splice(Content(s1, x), (pos + i) % 1024, buf[i..i + c])
        else Content(s1, x)
    ensures ByteAt(s2, m, p) == if m == n && pos + i <= p < pos + i + c then buf[p - pos] else ByteAt(s1, m, p)
  {
    PosOfGood(s1, m, p / 1024);
    var q := PosOf(n, (pos + i) / 1024);
    if PosOf(m, p / 1024) == q {
      PosOfInjective(m, p / 1024, n, (pos + i) / 1024);
    }
  }

  // ---- files
  datatype File = File(pos: int, append: bool)

  ghost function Range(s: Disk, n: int, a: int, b: int): (r: seq<Byte>)
    requires Shape(s) && 0 <= n < |s.inode| && 0 <= a <= b <= MAX_BYTES
    ensures |r| == b - a
  { seq<Byte>(b - a, x requires 0 <= x < b - a => ByteAt(s, n, a + x)) }

  // Past the end of a file there are only zeros.
  ghost predicate ZeroTails(s: Disk) {
    Shape(s) && forall n, p :: 0 <= n < |s.inode| && 0 <= p < MAX_BYTES && s.inode[n].size <= p ==> ByteAt(s, n, p) == 0
  }

  ghost predicate GoodSizes(s: Disk) { forall n :: 0 <= n < |s.inode| ==> 0 <= s.inode[n].size <= MAX_BYTES }

  // copy src into block b at off, byte by byte
  method CopyIn(fs: Fs, b: int, off: int, src: seq<Byte>)
    requires fs.Maps() && 0 <= b < fs.block.Length && 0 <= off && off + |src| <= 1024
    modifies fs.block
    ensures fs.St() == SetBlock(old(fs.St()), b, Splice(old(fs.block[b]), off, src))
  {
    for x := 0 to |src|
      invariant forall k :: 0 <= k < fs.block.Length && k != b ==> fs.block[k] == old(fs.block[k])
      invariant fs.block[b] == Splice(old(fs.block[b]), off, src[..x])
    {
      fs.block[b] := fs.block[b][off + x := src[x]];
      assert src[..x + 1] == src[..x] + [src[x]];
      assert fs.block[b] == Splice(old(fs.block[b]), off, src[..x + 1]);
    }
    assert src[..|src|] == src;
    assert fs.block[..] == old(fs.block[..])[b := Splice(old(fs.block[b]), off, src)];
  }

  // There is no block for byte p of file n, and none left to give it.
  ghost predicate Short(s: Disk, n: int, p: int) {
    && Shape(s) && 0 <= n < |s.inode| && 0 <= p < MAX_BYTES
    && Full(s) && At(s, PosOf(n, p / 1024)) == 0
  }

  // one round of file_write's loop; the ghosts say what has been written before it
  method WriteChunk(fs: Fs, n: int, pos: int, src: seq<Byte>, ghost s0: Disk, ghost buf: seq<Byte>, ghost i: int)
    returns (c: int, panic: bool)
    requires Inv(fs.St(), {}) && fs.Maps() && fs.held == {} && 0 <= n < fs.inode.Length && fs.inode[n].tree
    requires 0 <= i < |buf| && src == buf[i..] && 0 <= pos - i
    requires Wrote(s0, fs.St(), n, pos - i, buf, i)
    modifies fs, fs.zmap, fs.block, fs.inode
    ensures Inv(fs.St(), {}) && fs.held == {} && SameInodes(old(fs.St()), fs.St()) && fs.inode[n].tree
    ensures 0 <= c <= |src| && Wrote(s0, fs.St(), n, pos - i, buf, i + c)
    ensures (panic <==> pos >= MAX_BYTES) && (c == 0 && !panic ==> Short(fs.St(), n, pos))
    ensures if panic then c == 0 else pos + c <= MAX_BYTES
  {
    hide InRange, Distinct, Mapped, Wrote, Full, At;
    ghost var s := fs.St();
    var b;
    b, panic := fs.Bmap(n, pos / 1024, true);
    ghost var s1 := fs.St();
    if panic {
      NoInodes(s);
      return 0, true;
    }
    if b == 0 {
      WroteSame(s0, s, s1, n, pos - i, buf, i);
      return 0, false;
    }
    c := 1024 - pos % 1024;
    if c > |src| { c := |src|; }
    WroteStep(s0, s, s1, n, pos - i, buf, i, c);
    assert src[..c] == buf[i..i + c];
    CopyIn(fs, b, pos % 1024, src[..c]);
    SameInodesBlock(s, s1, fs.St());
  }

  lemma WroteSame(s0: Disk, s: Disk, s1: Disk, n: int, pos: int, buf: seq<Byte>, i: int)
    requires Wrote(s0, s, n, pos, buf, i) && SameContents(s, s1)
    ensures Wrote(s0, s1, n, pos, buf, i)
  {
    forall m, p | 0 <= m < |s0.inode| && 0 <= p < MAX_BYTES
      ensures ByteAt(s1, m, p) == if m == n && pos <= p < pos + i then buf[p - pos] else ByteAt(s0, m, p)
    { SameBytes(s, s1, m, p);
      assert ByteAt(s, m, p) == if m == n && pos <= p < pos + i then buf[p - pos] else ByteAt(s0, m, p); }
  }

  lemma NoInodes(s: Disk)
    ensures SameInodes(s, s)
  {}

  lemma SameInodesBlock(s: Disk, s1: Disk, s2: Disk)
    requires SameInodes(s, s1) && s2.inode == s1.inode
    ensures SameInodes(s, s2)
  {}

  // i_size is no part of the tree
  lemma SizeOnly(s: Disk, n: int, size: int)
    requires Inv(s, {}) && 0 <= n < |s.inode|
    ensures var s' := s.(inode := s.inode[n := s.inode[n].(size := size)]);
      Inv(s', {}) && SameContents(s, s')
  {
    var s' := s.(inode := s.inode[n := s.inode[n].(size := size)]);
    forall p | IsPos(s, p) ensures At(s', p) == At(s, p) { SizeTree(s, s', n, size, p); }
    forall p ensures Live(s', {}, p) == Live(s, {}, p) {}
    Relabel(s, {}, s', {});
    forall p ensures SameContent(s, s', p) {}
  }

  lemma SizeTree(s: Disk, s': Disk, n: int, size: int, p: Pos)
    requires Shape(s) && Shape(s') && 0 <= n < |s.inode| && s' == s.(inode := s.inode[n := s.inode[n].(size := size)])
    requires IsPos(s, p)
    ensures At(s', p) == At(s, p)
    decreases if p.Zone? then 0 else if p.Leaf? then 2 else 1
  {
    if !p.Zone? { AtChild(s, p); AtChild(s', p); SizeTree(s, s', n, size, Parent(p)); }
  }

  // Sizes and kinds of all inodes but n.
  ghost predicate OthersSame(s: Disk, s': Disk, n: int) {
    |s'.inode| == |s.inode| && forall m :: 0 <= m < |s.inode| && m != n ==>
      s'.inode[m].size == s.inode[m].size && s'.inode[m].tree == s.inode[m].tree
  }

  // r is what file_write returns, or would have at a panic. It panics exactly if it has bytes left to put past the
  // largest file.
  method FileWrite(fs: Fs, n: int, filp: File, buf: seq<Byte>) returns (r: int, filp': File, panic: bool)
    requires Inv(fs.St(), {}) && fs.Maps() && fs.held == {} && 0 <= n < fs.inode.Length && fs.inode[n].tree
    requires 0 <= fs.inode[n].size && 0 <= filp.pos
    modifies fs, fs.zmap, fs.block, fs.inode
    ensures Inv(fs.St(), {}) && fs.held == {} && (r == -1 || 0 < r <= |buf|)
    ensures Wrote(old(fs.St()), fs.St(), n, Start(filp, old(fs.inode[n].size)), buf, Count(r))
    ensures fs.inode[n].tree
    ensures fs.inode[n].size == SizeAfter(old(fs.inode[n].size), Start(filp, old(fs.inode[n].size)), Count(r))
    ensures filp' == if filp.append || panic then filp else filp.(pos := filp.pos + Count(r))
    ensures panic <==> Count(r) < |buf| && Start(filp, old(fs.inode[n].size)) + Count(r) >= MAX_BYTES
    ensures Count(r) > 0 ==> Start(filp, old(fs.inode[n].size)) + Count(r) <= MAX_BYTES
    ensures Count(r) < |buf| && !panic ==> Short(fs.St(), n, Start(filp, old(fs.inode[n].size)) + Count(r))
    ensures OthersSame(old(fs.St()), fs.St(), n)
  {
    hide InRange, Distinct, Mapped, Wrote, Short;
    ghost var s0 := fs.St();
    var start := if filp.append then fs.inode[n].size else filp.pos;
    var pos, i := start, 0;
    WroteStart(s0, n, start, buf);
    while i < |buf|
      invariant 0 <= i <= |buf| && pos == start + i && (i > 0 ==> pos <= MAX_BYTES)
      invariant Inv(fs.St(), {}) && fs.held == {} && Wrote(s0, fs.St(), n, start, buf, i)
      invariant fs.inode[n].tree && fs.inode[n].size == SizeAfter(s0.inode[n].size, start, i)
      invariant OthersSame(s0, fs.St(), n)
      decreases |buf| - i
    {
      var c;
      c, panic := WriteChunk(fs, n, pos, buf[i..], s0, buf, i);
      if panic { return if i != 0 then i else -1, filp, true; }
      if c == 0 { break; }
      ghost var s1 := fs.St();
      pos := pos + c;
      i := i + c;
      if pos > fs.inode[n].size {
        SizeOnly(s1, n, pos);
        fs.PutInode(n, fs.inode[n].(size := pos));
        WroteSame(s0, s1, fs.St(), n, start, buf, i);
      }
    }
    r := if i != 0 then i else -1;
    filp' := if filp.append then filp else filp.(pos := pos);
    panic := false;
  }

  function Start(filp: File, size: int): int { if filp.append then size else filp.pos }
  function Count(r: int): int { if r == -1 then 0 else r }
  function SizeAfter(size: int, start: int, done: int): int {
    if done > 0 && start + done > size then start + done else size
  }

  // One round of the loop of file_read: up to the end of the block, and zeros for a block that is not there.
  method ReadBlock(fs: Fs, n: int, pos: int, left: int) returns (data: seq<Byte>, panic: bool)
    requires Inv(fs.St(), {}) && fs.Maps() && fs.held == {} && 0 <= n < fs.inode.Length && fs.inode[n].tree
    requires 0 <= pos && 0 < left
    modifies fs, fs.zmap, fs.block, fs.inode
    ensures fs.St() == old(fs.St()) && (panic <==> pos >= MAX_BYTES)
    ensures !panic ==>
      && 0 < |data| <= left && pos % 1024 + |data| <= 1024 && pos + |data| <= MAX_BYTES
      && IsPos(fs.St(), PosOf(n, pos / 1024))
      && forall x :: 0 <= x < |data| ==> data[x] == Content(fs.St(), PosOf(n, pos / 1024))[pos % 1024 + x]
  {
    hide InRange, Distinct, Mapped, At;
    var b;
    b, panic := fs.Bmap(n, pos / 1024, false);
    if panic { return [], true; }
    PosOfGood(fs.St(), n, pos / 1024);
    var nr := pos % 1024;
    var chars := if 1024 - nr < left then 1024 - nr else left;
    if b != 0 {
      NamedInv(fs.St(), PosOf(n, pos / 1024), b);
      data := fs.block[b][nr..nr + chars];
    } else {
      data := seq(chars, _ => 0);
    }
  }

  method FileRead(fs: Fs, n: int, filp: File, count: int) returns (r: int, out: seq<Byte>, filp': File, panic: bool)
    requires Inv(fs.St(), {}) && fs.Maps() && fs.held == {} && 0 <= n < fs.inode.Length && fs.inode[n].tree
    requires 0 <= filp.pos
    modifies fs, fs.zmap, fs.block, fs.inode
    ensures fs.St() == old(fs.St()) && (panic <==> count > 0 && filp.pos + count > MAX_BYTES)
    ensures count <= 0 ==> r == 0 && out == [] && filp' == filp
    ensures count > 0 && !panic ==>
      r == count && out == Range(fs.St(), n, filp.pos, filp.pos + count) && filp' == filp.(pos := filp.pos + count)
  {
    hide InRange, Distinct, Mapped, At, Range, Content;
    r, out, filp', panic := 0, [], filp, false;
    if count <= 0 { return; }
    ghost var s := fs.St();
    var left := count;
    if filp.pos <= MAX_BYTES { NothingRead(s, n, filp.pos); }
    while left > 0
      invariant 0 <= left <= count && fs.St() == s && filp' == filp.(pos := filp.pos + count - left)
      invariant left < count ==> filp'.pos <= MAX_BYTES
      invariant filp'.pos <= MAX_BYTES ==> out == Range(s, n, filp.pos, filp'.pos)
    {
      var data;
      data, panic := ReadBlock(fs, n, filp'.pos, left);
      if panic { return; }
      ReadChunk(s, n, filp.pos, filp'.pos, out, data);
      out := out + data;
      filp' := filp'.(pos := filp'.pos + |data|);
      left := left - |data|;
    }
    r := count - left;
  }

  lemma NothingRead(s: Disk, n: int, p: int)
    requires Shape(s) && 0 <= n < |s.inode| && 0 <= p <= MAX_BYTES
    ensures Range(s, n, p, p) == []
  {}

  lemma ReadChunk(s: Disk, n: int, a: int, p: int, out: seq<Byte>, data: seq<Byte>)
    requires Shape(s) && 0 <= n < |s.inode| && 0 <= a <= p && 0 < |data| && p % 1024 + |data| <= 1024
    requires p + |data| <= MAX_BYTES
    requires out == Range(s, n, a, p)
    requires forall x :: 0 <= x < |data| ==> data[x] == Content(s, PosOf(n, p / 1024))[p % 1024 + x]
    ensures out + data == Range(s, n, a, p + |data|)
  {
    var c := |data|;
    forall x | 0 <= x < p + c - a ensures (out + data)[x] == Range(s, n, a, p + c)[x] {
      assert Range(s, n, a, p + c)[x] == ByteAt(s, n, a + x);
      if x < p - a {
        assert (out + data)[x] == Range(s, n, a, p)[x];
      } else {
        assert (out + data)[x] == data[a + x - p];
        assert (a + x) / 1024 == p / 1024 && (a + x) % 1024 == p % 1024 + (a + x - p);
      }
    }
  }

  // sys_read on a regular file or directory: no further than the end of the file
  method SysRead(fs: Fs, n: int, filp: File, count: int) returns (r: int, out: seq<Byte>, filp': File)
    requires Inv(fs.St(), {}) && fs.Maps() && fs.held == {} && 0 <= n < fs.inode.Length && fs.inode[n].tree
    requires 0 <= filp.pos && 0 <= fs.inode[n].size <= MAX_BYTES && 0 <= count
    modifies fs, fs.zmap, fs.block, fs.inode
    ensures fs.St() == old(fs.St())
    ensures out == FileSeq(fs.St(), n)[Clip(filp.pos, fs.inode[n].size)..Clip(filp.pos + count, fs.inode[n].size)]
    ensures r == |out| && filp' == filp.(pos := filp.pos + |out|)
  {
    hide InRange, Distinct, Mapped;
    var c := count;
    if c + filp.pos > fs.inode[n].size { c := fs.inode[n].size - filp.pos; }
    if c <= 0 { return 0, [], filp; }
    var panic;
    r, out, filp', panic := FileRead(fs, n, filp, c);
    RangeOfFile(fs.St(), n, filp.pos, filp.pos + c);
  }

  function Clip(p: int, size: int): int { if p < size then p else size }

  // the file as a user sees it
  ghost function FileSeq(s: Disk, n: int): (f: seq<Byte>)
    requires Shape(s) && 0 <= n < |s.inode| && 0 <= s.inode[n].size <= MAX_BYTES
    ensures |f| == s.inode[n].size
  { Range(s, n, 0, s.inode[n].size) }

  lemma RangeOfFile(s: Disk, n: int, a: int, b: int)
    requires Shape(s) && 0 <= n < |s.inode| && 0 <= a <= b <= s.inode[n].size <= MAX_BYTES
    ensures Range(s, n, a, b) == FileSeq(s, n)[a..b]
  {}

  // What a write does to a byte sequence: a gap before it fills with zeros.
  function Overlay(f: seq<Byte>, start: int, data: seq<Byte>): seq<Byte> requires 0 <= start {
    if data == [] then f
    else if start + |data| <= |f| then f[..start] + data + f[start + |data|..]
    else if start <= |f| then f[..start] + data
    else f + seq<Byte>(start - |f|, _ => 0) + data
  }

  // file_write on the disk is Overlay on the byte sequence of the file, and nothing on any other file.
  lemma WriteRefines(s: Disk, s': Disk, n: int, start: int, buf: seq<Byte>, done: int)
    requires Wrote(s, s', n, start, buf, done) && ZeroTails(s) && GoodSizes(s) && 0 <= n < |s.inode| && 0 <= start
    requires done > 0 ==> start + done <= MAX_BYTES
    requires s'.inode[n].size == SizeAfter(s.inode[n].size, start, done) && OthersSame(s, s', n)
    ensures GoodSizes(s') && ZeroTails(s')
    ensures FileSeq(s', n) == Overlay(FileSeq(s, n), start, buf[..done])
    ensures forall m :: 0 <= m < |s.inode| && m != n ==> FileSeq(s', m) == FileSeq(s, m)
  {
    WriteOwn(s, s', n, start, buf, done);
    forall m | 0 <= m < |s.inode| && m != n ensures FileSeq(s', m) == FileSeq(s, m) {
      forall p | 0 <= p < s.inode[m].size ensures FileSeq(s', m)[p] == FileSeq(s, m)[p] {
        assert ByteAt(s', m, p) == ByteAt(s, m, p);
      }
    }
    forall m, p | 0 <= m < |s'.inode| && 0 <= p < MAX_BYTES && s'.inode[m].size <= p ensures ByteAt(s', m, p) == 0 {
      assert ByteAt(s', m, p) == ByteAt(s, m, p);
    }
  }

  lemma WriteOwn(s: Disk, s': Disk, n: int, start: int, buf: seq<Byte>, done: int)
    requires Wrote(s, s', n, start, buf, done) && ZeroTails(s) && GoodSizes(s) && 0 <= n < |s.inode| && 0 <= start
    requires done > 0 ==> start + done <= MAX_BYTES
    requires s'.inode[n].size == SizeAfter(s.inode[n].size, start, done)
    ensures FileSeq(s', n) == Overlay(FileSeq(s, n), start, buf[..done])
  {
    var f, g, h := FileSeq(s, n), FileSeq(s', n), Overlay(FileSeq(s, n), start, buf[..done]);
    assert |g| == |h|;
    forall p | 0 <= p < |g| ensures g[p] == h[p] {
      assert g[p] == ByteAt(s', n, p);
      assert ByteAt(s', n, p) == if start <= p < start + done then buf[p - start] else ByteAt(s, n, p);
      if p < |f| { assert f[p] == ByteAt(s, n, p); } else { assert ByteAt(s, n, p) == 0; }
    }
  }

  // Reading back what was written.
  lemma WriteThenRead(s: Disk, s': Disk, n: int, start: int, buf: seq<Byte>, done: int)
    requires Wrote(s, s', n, start, buf, done) && 0 <= n < |s.inode| && 0 <= start && start + done <= MAX_BYTES
    ensures Range(s', n, start, start + done) == buf[..done]
  {}

  // truncate empties the file and keeps the zero tails.
  lemma TruncateRefines(s: Disk, s': Disk, n: int)
    requires Shape(s) && Shape(s') && Emptied(s, s', n) && ZeroTails(s) && GoodSizes(s) && 0 <= n < |s.inode|
    requires s'.inode[n].size == 0
    requires forall m :: 0 <= m < |s.inode| && m != n ==> s'.inode[m] == s.inode[m]
    ensures GoodSizes(s') && ZeroTails(s') && FileSeq(s', n) == []
    ensures forall m :: 0 <= m < |s.inode| && m != n ==> FileSeq(s', m) == FileSeq(s, m)
  {
    forall m, p | 0 <= m < |s.inode| && 0 <= p < MAX_BYTES
      ensures ByteAt(s', m, p) == if m == n then 0 else ByteAt(s, m, p)
    {
      PosOfGood(s, m, p / 1024);
    }
    forall m | 0 <= m < |s.inode| && m != n ensures FileSeq(s', m) == FileSeq(s, m) {
      forall p | 0 <= p < s.inode[m].size ensures FileSeq(s', m)[p] == FileSeq(s, m)[p] {
        assert ByteAt(s', m, p) == ByteAt(s, m, p);
      }
    }
    forall m, p | 0 <= m < |s'.inode| && 0 <= p < MAX_BYTES && s'.inode[m].size <= p ensures ByteAt(s', m, p) == 0 {
      if m != n { assert ByteAt(s', m, p) == ByteAt(s, m, p); }
    }
  }
}
