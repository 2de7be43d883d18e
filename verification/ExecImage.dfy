// The program of a new process in memory: read_file and load_segment (fs/exec.c), from a file on the disk.
module ExecImage {
  import opened Bytes
  import opened Counting
  import opened Zones
  import opened ZoneSteps
  import opened FileLayer
  import opened FileBytes
  import ExecArgs

  const USER_LIMIT := 0x80000000

  // A program header: where the segment is in the file and in memory.
  datatype Phdr = Phdr(load: bool, offset: int, vaddr: int, filesz: int, memsz: int)
  predicate IsPhdr(h: Phdr) {
    0 <= h.offset < WORD && 0 <= h.vaddr < WORD && 0 <= h.filesz < WORD && 0 <= h.memsz < WORD
  }

  // ---- read_file
  // the byte of the block that bmap gives, which for a hole is block 0
  ghost function SeenAt(s: Disk, n: int, p: int): Byte
    requires Inv(s, {}) && |s.block| > 0 && 0 <= n < |s.inode| && 0 <= p < MAX_BYTES
  {
    PosOfGood(s, n, p / 1024);
    NamedBlock(s, PosOf(n, p / 1024));
    s.block[At(s, PosOf(n, p / 1024))][p % 1024]
  }

  ghost predicate Hole(s: Disk, n: int, p: int)
    requires Shape(s) && 0 <= n < |s.inode| && 0 <= p < MAX_BYTES
  { At(s, PosOf(n, p / 1024)) == 0 }

  lemma NamedBlock(s: Disk, q: Pos)
    requires Inv(s, {}) && IsPos(s, q) && |s.block| > 0
    ensures 0 <= At(s, q) < |s.block|
  { if At(s, q) != 0 { NamedInv(s, q, At(s, q)); } }

  // read_file finds the bytes of the file, except that it takes block 0 for what a hole holds.
  lemma SeenRight(s: Disk, n: int, p: int)
    requires Inv(s, {}) && |s.block| > 0 && 0 <= n < |s.inode| && 0 <= p < MAX_BYTES
    ensures SeenAt(s, n, p) == ByteAt(s, n, p) <==> !Hole(s, n, p) || s.block[0][p % 1024] == 0
  {
    PosOfGood(s, n, p / 1024);
    var q := PosOf(n, p / 1024);
    if At(s, q) != 0 { NamedInv(s, q, At(s, q)); }
  }

  ghost predicate SeenRange(s: Disk, n: int, off: int, out: seq<Byte>)
    requires Inv(s, {}) && |s.block| > 0 && 0 <= n < |s.inode|
  { 0 <= off && off + |out| <= MAX_BYTES && forall i :: 0 <= i < |out| ==> out[i] == SeenAt(s, n, off + i) }

  // Nothing stops it at the end of the file, and it panics exactly if it is to pass the end of the largest one.
  method ReadFile(fs: Fs, n: int, off: int, len: int) returns (out: seq<Byte>, panic: bool)
    requires Inv(fs.St(), {}) && fs.Maps() && fs.held == {} && 0 <= n < fs.inode.Length && fs.inode[n].tree
    requires fs.block.Length > 0
    requires 0 <= off && 0 <= len
    modifies fs, fs.zmap, fs.block, fs.inode
    ensures fs.St() == old(fs.St()) && (panic <==> len > 0 && off + len > MAX_BYTES)
    ensures !panic ==> |out| == len && (len > 0 ==> SeenRange(fs.St(), n, off, out))
  {
    hide InRange, Distinct, Mapped;
    ghost var s := fs.St();
    var left := len;
    out, panic := [], false;
    while left > 0
      invariant 0 <= left <= len && |out| == len - left && fs.St() == s
      invariant off + |out| <= MAX_BYTES || out == []
      invariant off + |out| <= MAX_BYTES ==> SeenRange(s, n, off, out)
    {
      var at := off + |out|;
      var coff := at % 1024;
      var c := if 1024 - coff > left then left else 1024 - coff;
      var b;
      b, panic := fs.Bmap(n, at / 1024, false);
      if panic { return; }
      PosOfGood(s, n, at / 1024);
      NamedBlock(s, PosOf(n, at / 1024));
      var data := fs.block[b][coff..coff + c];
      SeenMore(s, n, off, out, data);
      out := out + data;
      left := left - c;
    }
  }

  lemma SeenMore(s: Disk, n: int, off: int, out: seq<Byte>, data: seq<Byte>)
    requires Inv(s, {}) && |s.block| > 0 && 0 <= n < |s.inode| && SeenRange(s, n, off, out)
    requires off + |out| + |data| <= MAX_BYTES && (off + |out|) % 1024 + |data| <= 1024 && data != []
    requires IsPos(s, PosOf(n, (off + |out|) / 1024)) && 0 <= At(s, PosOf(n, (off + |out|) / 1024)) < |s.block|
    requires var at := off + |out|; data == s.block[At(s, PosOf(n, at / 1024))][at % 1024..at % 1024 + |data|]
    ensures SeenRange(s, n, off, out + data)
  {
    hide InRange, Distinct, Mapped, At;
    var at := off + |out|;
    forall i | |out| <= i < |out| + |data| ensures (out + data)[i] == SeenAt(s, n, off + i) {
      assert (off + i) / 1024 == at / 1024 && (off + i) % 1024 == at % 1024 + (i - |out|);
    }
  }

  // ---- load_segment
  // all in unsigned 32-bit arithmetic
  function First(h: Phdr): int { h.vaddr / PAGE * PAGE }
  function End(h: Phdr): int { (h.vaddr + h.memsz + 0xfff) % WORD / PAGE * PAGE }
  function FileEnd(h: Phdr): int { (h.offset + h.filesz) % WORD }
  function FileOff(h: Phdr, v: int): int { (h.offset + v - h.vaddr) % WORD }

  // how much of the page at v comes from the file
  function Taken(h: Phdr, v: int): int {
    if FileOff(h, v) >= FileEnd(h) then 0 else if FileEnd(h) - FileOff(h, v) > PAGE then PAGE
      else FileEnd(h) - FileOff(h, v)
  }

  predicate Within(h: Phdr, v: int) { v % PAGE == 0 && First(h) <= v < End(h) }
  // what it takes of the file is below the end of the largest one
  predicate Readable(h: Phdr, v: int) { Taken(h, v) > 0 ==> FileOff(h, v) + Taken(h, v) <= MAX_BYTES }
  ghost predicate ReadableFile(s: Disk, n: int) { Inv(s, {}) && |s.block| > 0 && 0 <= n < |s.inode| && s.inode[n].tree }

  ghost predicate IsImage(s: Disk, n: int, h: Phdr, v: int, page: seq<Byte>)
    requires ReadableFile(s, n)
  {
    && |page| == PAGE && Readable(h, v)
    && forall i :: 0 <= i < PAGE ==> page[i] == if i < Taken(h, v) then SeenAt(s, n, FileOff(h, v) + i) else 0
  }

  // From p to p', the pages of the segment below end have been mapped, in place of what may have been there.
  ghost predicate Loads(p: map<int, seq<Byte>>, p': map<int, seq<Byte>>, s: Disk, n: int, h: Phdr, end: int)
    requires ReadableFile(s, n)
  {
    && (forall v :: v in p' <==> v in p || (Within(h, v) && v < end))
    && (forall v :: v in p' ==> if Within(h, v) && v < end then IsImage(s, n, h, v, p'[v]) else v in p && p'[v] == p[v])
  }

  const TABLE := 1024 * PAGE    // what one page table maps

  // free pages that it takes to map those from v up to w, page tables included
  ghost function Needs(tables: set<int>, v: int, w: int): (c: int)
    ensures c >= 0
    decreases w - v
  { if v >= w then 0 else Cost(tables, v) + Needs(tables + {v / TABLE}, v + PAGE, w) }
  // the page tables there are then
  ghost function WithTables(tables: set<int>, v: int, w: int): set<int>
    decreases w - v
  { if v >= w then tables else WithTables(tables + {v / TABLE}, v + PAGE, w) }

  // The pages from v up to w are in user memory and there is memory for them.
  ghost predicate Fits(tables: set<int>, free: int, v: int, w: int) {
    (v < w ==> w <= USER_LIMIT) && Needs(tables, v, w) <= free
  }

  // the first page from v on that cannot be read, or where the pages end
  function Stop(h: Phdr, v: int, w: int): int
    decreases w - v
  { if v >= w || !Readable(h, v) then v else Stop(h, v + PAGE, w) }

  datatype Outcome = Returned(r: int) | Panic

  // A segment is loaded if its pages can be read and fit. Its first page that cannot be read is a panic, if there is
  // memory for those before it and one more page.
  ghost function Verdict(h: Phdr, tables: set<int>, free: int): Outcome {
    var v, w := First(h), Stop(h, First(h), End(h));
    if !Fits(tables, free, v, w) then Returned(-12)
    else if w >= End(h) then Returned(0)
    else if Needs(tables, v, w) < free then Panic
    else Returned(-12)
  }

  function Cost(tables: set<int>, v: int): int { if v / TABLE in tables then 1 else 2 }

  lemma NeedsFirst(tables: set<int>, v: int, w: int)
    requires v < w
    ensures Needs(tables, v, w) == Cost(tables, v) + Needs(tables + {v / TABLE}, v + PAGE, w)
    ensures WithTables(tables, v, w) == WithTables(tables + {v / TABLE}, v + PAGE, w)
  {}

  lemma NeedsNone(tables: set<int>, v: int, w: int)
    requires v >= w
    ensures Needs(tables, v, w) == 0 && WithTables(tables, v, w) == tables
  {}

  lemma StopNext(h: Phdr, v: int, w: int)
    ensures Stop(h, v, w) == if v >= w || !Readable(h, v) then v else Stop(h, v + PAGE, w)
  {}

  lemma {:induction false} StopBounds(h: Phdr, v: int, w: int)
    requires v % PAGE == 0 && w % PAGE == 0
    ensures v <= Stop(h, v, w) && (v <= w ==> Stop(h, v, w) <= w) && (Stop(h, v, w) < w ==> !Readable(h, Stop(h, v, w)))
    decreases w - v
  {
    hide Readable;
    if v < w && Readable(h, v) { StopBounds(h, v + PAGE, w); }
  }

  lemma PageBounds(h: Phdr)
    requires IsPhdr(h)
    ensures First(h) % PAGE == 0 && End(h) % PAGE == 0 && 0 <= First(h)
    ensures forall v :: v % PAGE == 0 && First(h) <= v < End(h) ==> Within(h, v)
  {}

  lemma LoadsMore(p: map<int, seq<Byte>>, p1: map<int, seq<Byte>>, p2: map<int, seq<Byte>>, s: Disk, n: int, h: Phdr,
          v: int)
    requires ReadableFile(s, n) && Loads(p, p1, s, n, h, v) && Within(h, v)
    requires v in p2 && p2 == p1[v := p2[v]] && IsImage(s, n, h, v, p2[v])
    ensures Loads(p, p2, s, n, h, v + PAGE)
  {
    hide IsImage, ReadableFile;
    forall w | Within(h, w) ensures w < v + PAGE <==> w < v || w == v { NextPage(v, w); }
  }

  lemma NextPage(v: int, w: int)
    requires v % PAGE == 0 && w % PAGE == 0
    ensures w < v + PAGE <==> w < v || w == v
  {}

  class AddressSpace {
    var pages: map<int, seq<Byte>>
    var tables: set<int>
    var free: nat

    constructor (pages: map<int, seq<Byte>>, tables: set<int>, free: nat)
      ensures this.pages == pages && this.tables == tables && this.free == free
    { this.pages, this.tables, this.free := pages, tables, free; }

    // put_page_pgdir
    method PutPage(v: int, page: seq<Byte>) returns (ok: bool)
      requires 0 <= v
      modifies this
      ensures ok <==> v < USER_LIMIT && (v / TABLE in old(tables) || old(free) > 0)
      ensures ok ==>
        pages == old(pages)[v := page] && tables == old(tables) + {v / TABLE} && free == if v / TABLE in old(tables)
          then old(free) else old(free) - 1
      ensures !ok ==> pages == old(pages) && tables == old(tables) && free == old(free)
    {
      if v >= USER_LIMIT { return false; }
      if v / TABLE !in tables {
        if free == 0 { return false; }
        free := free - 1;
        tables := tables + {v / TABLE};
      }
      pages := pages[v := page];
      ok := true;
    }

    method LoadPage(fs: Fs, n: int, h: Phdr, v: int) returns (o: Outcome)
      requires fs.Maps() && fs.held == {} && ReadableFile(fs.St(), n) && IsPhdr(h) && 0 <= v
      modifies this, fs, fs.zmap, fs.block, fs.inode
      ensures fs.St() == old(fs.St())
      ensures o ==
        if old(free) > 0 && !Readable(h, v) then Panic
        else Returned(if v < USER_LIMIT && Cost(old(tables), v) <= old(free) then 0 else -12)
      ensures o == Returned(0) ==>
        v in pages && pages == old(pages)[v := pages[v]] && IsImage(fs.St(), n, h, v, pages[v])
      ensures o == Returned(0) ==> tables == old(tables) + {v / TABLE} && free == old(free) - Cost(old(tables), v)
    {
      hide Inv;
      if free == 0 { return Returned(-12); }
      free := free - 1;
      var foff := (h.offset + v - h.vaddr) % WORD;
      var page := seq(PAGE, _ => 0);
      if foff < FileEnd(h) {
        var c := FileEnd(h) - foff;
        if c > PAGE { c := PAGE; }
        var data, panic := ReadFile(fs, n, foff, c);
        if panic { return Panic; }
        page := data + page[c..];
      }
      var ok := PutPage(v, page);
      if !ok { free := free + 1; }
      o := Returned(if ok then 0 else -12);
    }

    method LoadSegment(fs: Fs, n: int, h: Phdr) returns (o: Outcome)
      requires fs.Maps() && fs.held == {} && ReadableFile(fs.St(), n) && IsPhdr(h)
      modifies this, fs, fs.zmap, fs.block, fs.inode
      ensures fs.St() == old(fs.St()) && o == Verdict(h, old(tables), old(free))
      ensures o == Returned(0) ==> Loads(old(pages), pages, fs.St(), n, h, End(h))
      ensures o == Returned(0) ==> free == old(free) - Needs(old(tables), First(h), End(h))
      ensures o == Returned(0) ==> tables == WithTables(old(tables), First(h), End(h))
    {
      hide ReadableFile, IsImage, Loads, First, End, Within, Needs, WithTables, Readable, Stop;
      var v, end := First(h), End(h);
      ghost var stop := Stop(h, v, end);
      PageBounds(h);
      StopBounds(h, v, end);
      LoadsNone(pages, fs.St(), n, h);
      while v < end
        invariant fs.St() == old(fs.St()) && v % PAGE == 0 && First(h) <= v && stop == Stop(h, v, end)
        invariant First(h) < v ==> v <= USER_LIMIT && v <= end
        invariant First(h) >= end ==> v == First(h)
        invariant Loads(old(pages), pages, fs.St(), n, h, v)
        invariant free + Needs(old(tables), First(h), stop) == old(free) + Needs(tables, v, stop)
        invariant WithTables(old(tables), First(h), stop) == WithTables(tables, v, stop)
      {
        ghost var p := pages;
        StopNext(h, v, end);
        StopBounds(h, v + PAGE, end);
        if v < stop { NeedsFirst(tables, v, stop); } else { NeedsNone(tables, v, stop); }
        o := LoadPage(fs, n, h, v);
        if o != Returned(0) { return; }
        LoadsMore(old(pages), p, pages, fs.St(), n, h, v);
        v := v + PAGE;
      }
      StopNext(h, v, end);
      NeedsNone(tables, v, stop);
      if First(h) >= end {
        NeedsNone(old(tables), First(h), stop);
        NeedsNone(old(tables), First(h), end);
      }
      o := Returned(0);
      LoadsAll(old(pages), pages, fs.St(), n, h, v);
    }

    // The segments of a program, in order.
    method LoadAll(fs: Fs, n: int, hs: seq<Phdr>) returns (o: Outcome)
      requires fs.Maps() && fs.held == {} && ReadableFile(fs.St(), n) && forall k :: 0 <= k < |hs| ==> IsPhdr(hs[k])
      modifies this, fs, fs.zmap, fs.block, fs.inode
      ensures fs.St() == old(fs.St()) && o == VerdictAll(hs, old(tables), old(free))
      ensures o == Returned(0) ==> Whole(old(pages), pages, fs.St(), n, hs)
    {
      hide ReadableFile, IsImage, Whole, Loads, Verdict, First, End, Needs, WithTables;
      ghost var p := pages;
      WholeNone(p, fs.St(), n, hs);
      for i := 0 to |hs|
        invariant fs.St() == old(fs.St()) && Whole(p, pages, fs.St(), n, hs[..i])
        invariant VerdictAll(hs, old(tables), old(free)) == VerdictAll(hs[i..], tables, free)
      {
        var h := hs[i];
        ghost var q := pages;
        assert hs[i..][1..] == hs[i + 1..];
        if h.load {
          if h.vaddr >= USER_LIMIT || (h.vaddr + h.memsz) % WORD > ExecArgs.STACK_BASE { return Returned(-8); }
          o := LoadSegment(fs, n, h);
          if o != Returned(0) { return; }
        }
        WholeMore(p, q, pages, fs.St(), n, hs, i);
      }
      assert hs[..|hs|] == hs;
      o := Returned(0);
    }
  }

  lemma LoadsNone(p: map<int, seq<Byte>>, s: Disk, n: int, h: Phdr)
    requires ReadableFile(s, n)
    ensures Loads(p, p, s, n, h, First(h))
  {}

  lemma LoadsAll(p: map<int, seq<Byte>>, p': map<int, seq<Byte>>, s: Disk, n: int, h: Phdr, v: int)
    requires ReadableFile(s, n) && Loads(p, p', s, n, h, v) && v >= End(h)
    ensures Loads(p, p', s, n, h, End(h))
  {}

  // ---- the whole image
  predicate Accepted(h: Phdr) { h.load && h.vaddr < USER_LIMIT && (h.vaddr + h.memsz) % WORD <= ExecArgs.STACK_BASE }

  // The first header that is refused, or that memory does not suffice for, decides.
  ghost function VerdictAll(hs: seq<Phdr>, tables: set<int>, free: int): Outcome {
    if hs == [] then Returned(0)
    else if !hs[0].load then VerdictAll(hs[1..], tables, free)
    else if !Accepted(hs[0]) then Returned(-8)
    else if Verdict(hs[0], tables, free) != Returned(0) then Verdict(hs[0], tables, free)
    else
      var v, w := First(hs[0]), End(hs[0]);
      VerdictAll(hs[1..], WithTables(tables, v, w), free - Needs(tables, v, w))
  }

  // the last segment that has something in the page at v, or -1
  function Owner(hs: seq<Phdr>, v: int): (k: int)
    ensures -1 <= k < |hs| && (k >= 0 ==> hs[k].load && Within(hs[k], v))
    ensures forall l :: k < l < |hs| && hs[l].load ==> !Within(hs[l], v)
  {
    if hs == [] then -1
    else var i := |hs| - 1; if hs[i].load && Within(hs[i], v) then i else Owner(hs[..i], v)
  }

  // Every page is as its owner says; the others are as they were.
  ghost predicate Whole(p: map<int, seq<Byte>>, p': map<int, seq<Byte>>, s: Disk, n: int, hs: seq<Phdr>) {
    && ReadableFile(s, n)
    && (forall v :: v in p' <==> v in p || Owner(hs, v) >= 0)
    && (forall v :: v in p' ==> if Owner(hs, v) >= 0 then IsImage(s, n, hs[Owner(hs, v)], v, p'[v]) else p'[v] == p[v])
  }

  lemma WholeNone(p: map<int, seq<Byte>>, s: Disk, n: int, hs: seq<Phdr>)
    requires ReadableFile(s, n)
    ensures Whole(p, p, s, n, hs[..0])
  {}

  lemma WholeMore(p: map<int, seq<Byte>>, q: map<int, seq<Byte>>, q': map<int, seq<Byte>>, s: Disk, n: int,
          hs: seq<Phdr>, i: int)
    requires 0 <= i < |hs| && Whole(p, q, s, n, hs[..i]) && ReadableFile(s, n)
    requires hs[i].load ==> Loads(q, q', s, n, hs[i], End(hs[i]))
    requires !hs[i].load ==> q' == q
    ensures Whole(p, q', s, n, hs[..i + 1])
  {
    hide ReadableFile, IsImage, Owner;
    forall v ensures Owner(hs[..i + 1], v) == if hs[i].load && Within(hs[i], v) then i else Owner(hs[..i], v) {
      OwnerNext(hs, i, v);
    }
  }

  lemma OwnerNext(hs: seq<Phdr>, i: int, v: int)
    requires 0 <= i < |hs|
    ensures Owner(hs[..i + 1], v) == if hs[i].load && Within(hs[i], v) then i else Owner(hs[..i], v)
  {}

  // ---- what the image should be
  // Past the end of the largest file there is nothing.
  ghost function FileByte(s: Disk, n: int, o: int): Byte
    requires ReadableFile(s, n) && 0 <= o
  { if o < MAX_BYTES then ByteAt(s, n, o) else 0 }

  // The byte at a: from the file as far as the segment has one, and then zero.
  ghost function Wanted(s: Disk, n: int, h: Phdr, a: int): Byte
    requires ReadableFile(s, n) && IsPhdr(h) && h.vaddr <= a
  { if a < h.vaddr + h.filesz then FileByte(s, n, h.offset + a - h.vaddr) else 0 }

  ghost predicate Right(s: Disk, n: int, h: Phdr, p: map<int, seq<Byte>>)
    requires ReadableFile(s, n) && IsPhdr(h)
  { forall a :: h.vaddr <= a < h.vaddr + h.memsz ==> HasByte(p, a, Wanted(s, n, h, a)) }

  ghost predicate HasByte(p: map<int, seq<Byte>>, a: int, c: Byte) {
    var v := a / PAGE * PAGE;
    v in p && |p[v]| == PAGE && p[v][a - v] == c
  }

  // where load_segment looks for the byte at a
  function From(h: Phdr, a: int): int { FileOff(h, a / PAGE * PAGE) + a % PAGE }

  // When the byte at a gets the right value: if it is read from its own place, there is a block there; if it is read
  // from a place that a wrap has led to, that holds a zero; and if it is not read, it is zero in the file.
  ghost predicate Clean(s: Disk, n: int, h: Phdr, a: int)
    requires ReadableFile(s, n) && IsPhdr(h) && h.vaddr <= a
  {
    var o, f := h.offset + a - h.vaddr, From(h, a);
    if f < FileEnd(h) then
      f < MAX_BYTES && if f == o then !Hole(s, n, o) || s.block[0][o % 1024] == 0 else SeenAt(s, n, f) == 0
    else
      a < h.vaddr + h.filesz ==> FileByte(s, n, o) == 0
  }

  lemma ByteIs(s: Disk, n: int, h: Phdr, a: int, page: seq<Byte>)
    requires ReadableFile(s, n) && IsPhdr(h) && h.vaddr <= a < h.vaddr + h.memsz
    requires IsImage(s, n, h, a / PAGE * PAGE, page)
    ensures page[a % PAGE] == Wanted(s, n, h, a) <==> Clean(s, n, h, a)
  {
    hide Inv, SeenAt, ByteAt, Hole, FileOff, FileEnd;
    var v, i, o := a / PAGE * PAGE, a % PAGE, h.offset + a - h.vaddr;
    Offsets(h, a);
    assert i < Taken(h, v) <==> From(h, a) < FileEnd(h);
    if From(h, a) < FileEnd(h) {
      assert From(h, a) < FileOff(h, v) + Taken(h, v) <= MAX_BYTES;
      if From(h, a) == o { SeenRight(s, n, o); }
    }
  }

  // The place is that of the byte or off by a wrap, and then the segment has no byte of a file there.
  lemma Offsets(h: Phdr, a: int)
    requires IsPhdr(h) && h.vaddr <= a
    ensures var o, f := h.offset + a - h.vaddr, From(h, a);
      0 <= FileOff(h, a / PAGE * PAGE)
        && (f < FileEnd(h) && f < MAX_BYTES ==> if f == o then a < h.vaddr + h.filesz else o >= MAX_BYTES)
  {
    var v, x := a / PAGE * PAGE, h.offset + a / PAGE * PAGE - h.vaddr;
    assert v + a % PAGE == a && -PAGE < x;
    assert FileEnd(h) <= h.offset + h.filesz;
    if x < 0 { Below(x); } else if x < WORD { Modulo(x); }
  }

  lemma Modulo(x: int)
    requires 0 <= x < WORD
    ensures x % WORD == x
  {}

  lemma Below(x: int)
    requires -WORD <= x < 0
    ensures x % WORD == x + WORD
  {}

  predicate Wraps(h: Phdr) { h.vaddr + h.memsz >= WORD }

  lemma InSegment(h: Phdr, a: int)
    requires IsPhdr(h) && Accepted(h) && !Wraps(h) && h.vaddr <= a < h.vaddr + h.memsz
    ensures Within(h, a / PAGE * PAGE)
  {
    Modulo(h.vaddr + h.memsz);
    Modulo(h.vaddr + h.memsz + 0xfff);
  }

  ghost predicate AllClean(s: Disk, n: int, h: Phdr)
    requires ReadableFile(s, n) && IsPhdr(h)
  { forall a :: h.vaddr <= a < h.vaddr + h.memsz ==> Clean(s, n, h, a) }

  ghost predicate Images(s: Disk, n: int, h: Phdr, p: map<int, seq<Byte>>)
    requires ReadableFile(s, n)
  { forall v :: Within(h, v) ==> v in p && IsImage(s, n, h, v, p[v]) }

  predicate InUser(p: map<int, seq<Byte>>) { forall v :: v in p ==> v < USER_LIMIT }

  // A segment that do_execve accepts and load_segment loads is right if and only if its end does not wrap around and
  // each of its bytes is clean.
  lemma SegmentRight(s: Disk, n: int, h: Phdr, p: map<int, seq<Byte>>)
    requires ReadableFile(s, n) && IsPhdr(h) && Accepted(h) && Images(s, n, h, p) && InUser(p)
    ensures Right(s, n, h, p) <==> !Wraps(h) && AllClean(s, n, h)
  {
    hide ReadableFile, IsImage, Wanted, Clean, Within;
    if Wraps(h) {
      assert h.vaddr <= USER_LIMIT < h.vaddr + h.memsz && !HasByte(p, USER_LIMIT, Wanted(s, n, h, USER_LIMIT));
    } else {
      forall a | h.vaddr <= a < h.vaddr + h.memsz ensures HasByte(p, a, Wanted(s, n, h, a)) <==> Clean(s, n, h, a) {
        InSegment(h, a);
        ByteIs(s, n, h, a, p[a / PAGE * PAGE]);
        ImageLong(s, n, h, a / PAGE * PAGE, p[a / PAGE * PAGE]);
      }
    }
  }

  lemma EndsBelow(h: Phdr, v: int)
    requires IsPhdr(h) && Accepted(h) && Within(h, v)
    ensures v < USER_LIMIT
  {
    var e := (h.vaddr + h.memsz) % WORD;
    assert e == if Wraps(h) then h.vaddr + h.memsz - WORD else h.vaddr + h.memsz;
    Modulo(e + 0xfff);
    assert (h.vaddr + h.memsz + 0xfff) % WORD == e + 0xfff;
  }

  // Of a segment whose end wraps around at most the first page is loaded.
  lemma WrappedLoads(h: Phdr, v: int)
    requires IsPhdr(h) && Accepted(h) && Wraps(h) && Within(h, v)
    ensures v == First(h)
  {
    var e := h.vaddr + h.memsz - WORD;
    assert (h.vaddr + h.memsz) % WORD == e && e < h.vaddr;
    Modulo(e + 0xfff);
  }

  lemma ImageLong(s: Disk, n: int, h: Phdr, v: int, page: seq<Byte>)
    requires ReadableFile(s, n) && IsImage(s, n, h, v, page)
    ensures |page| == PAGE
  {}

  // What load_segment puts at a.
  ghost function Puts(s: Disk, n: int, h: Phdr, a: int): Byte
    requires ReadableFile(s, n)
  {
    var f := From(h, a);
    if f < FileEnd(h) && 0 <= f < MAX_BYTES then SeenAt(s, n, f) else 0
  }

  lemma PutsThere(s: Disk, n: int, h: Phdr, a: int, page: seq<Byte>)
    requires ReadableFile(s, n) && IsImage(s, n, h, a / PAGE * PAGE, page)
    ensures |page| == PAGE && page[a % PAGE] == Puts(s, n, h, a)
  {
    hide Inv, SeenAt, FileEnd;
    var v := a / PAGE * PAGE;
    assert FileOff(h, v) >= 0;
    hide FileOff;
    assert a % PAGE < Taken(h, v) <==> From(h, a) < FileEnd(h);
  }

  // The last segment with something in the page of a byte puts there what segment k wants there.
  ghost predicate OwnerPuts(s: Disk, n: int, hs: seq<Phdr>, k: int, a: int)
    requires ReadableFile(s, n) && 0 <= k < |hs| && IsPhdr(hs[k]) && hs[k].vaddr <= a
  {
    var l := Owner(hs, a / PAGE * PAGE);
    if l == k then Clean(s, n, hs[k], a) else 0 <= l && Puts(s, n, hs[l], a) == Wanted(s, n, hs[k], a)
  }

  // A segment of a program that was loaded is in memory as it is in the file, if and only if its end does not wrap
  // around and the last segment in the page of each of its bytes puts there what it wants: it is clean where it is the
  // last.
  lemma ProgramRight(p: map<int, seq<Byte>>, p': map<int, seq<Byte>>, s: Disk, n: int, hs: seq<Phdr>, k: int)
    requires Whole(p, p', s, n, hs) && InUser(p) && 0 <= k < |hs| && hs[k].load
    requires forall l :: 0 <= l < |hs| && hs[l].load ==> IsPhdr(hs[l]) && Accepted(hs[l])
    ensures Right(s, n, hs[k], p') <==>
      !Wraps(hs[k]) && forall a :: hs[k].vaddr <= a < hs[k].vaddr + hs[k].memsz ==> OwnerPuts(s, n, hs, k, a)
  {
    hide ReadableFile, IsImage, Wanted, Clean, Within, Puts, Accepted;
    var h := hs[k];
    forall v | v in p' ensures v < USER_LIMIT { if Owner(hs, v) >= 0 { EndsBelow(hs[Owner(hs, v)], v); } }
    if Wraps(h) {
      AcceptedLow(h);
      assert h.vaddr <= USER_LIMIT < h.vaddr + h.memsz && !HasByte(p', USER_LIMIT, Wanted(s, n, h, USER_LIMIT));
    } else {
      forall a | h.vaddr <= a < h.vaddr + h.memsz
        ensures HasByte(p', a, Wanted(s, n, h, a)) <==> OwnerPuts(s, n, hs, k, a)
      {
        InSegment(h, a);
        var v := a / PAGE * PAGE;
        var l := Owner(hs, v);
        PutsThere(s, n, hs[l], a, p'[v]);
        if l == k { ByteIs(s, n, h, a, p'[v]); }
      }
    }
  }

  lemma AcceptedLow(h: Phdr)
    requires Accepted(h)
    ensures h.vaddr < USER_LIMIT
  {}

  // The second of two segments of one page does not have the first byte of the file, which the first one wants: it is
  // lost, though there is memory and nothing is refused.
  lemma OverlapLoses(p: map<int, seq<Byte>>, p': map<int, seq<Byte>>, s: Disk, n: int, hs: seq<Phdr>, free: nat)
    requires hs == [Phdr(true, 0, PAGE, 1, 1), Phdr(true, 0, PAGE + 2048, 1, 1)]
    requires Whole(p, p', s, n, hs) && InUser(p) && FileByte(s, n, 0) != 0 && free >= 3
    ensures VerdictAll(hs, {}, free) == Returned(0) && !Right(s, n, hs[0], p')
  {
    OverlapFits(hs, free);
    hide ReadableFile, IsImage, Right, Whole, FileByte;
    ProgramRight(p, p', s, n, hs, 0);
    assert Within(hs[1], PAGE) && Owner(hs, PAGE) == 1;
    assert From(hs[1], PAGE) == WORD - 2048 && Puts(s, n, hs[1], PAGE) == 0;
    assert !OwnerPuts(s, n, hs, 0, PAGE);
  }

  lemma OverlapFits(hs: seq<Phdr>, free: nat)
    requires hs == [Phdr(true, 0, PAGE, 1, 1), Phdr(true, 0, PAGE + 2048, 1, 1)] && free >= 3
    ensures VerdictAll(hs, {}, free) == Returned(0)
  {
    forall h | h in hs ensures First(h) == PAGE && End(h) == 2 * PAGE && Readable(h, PAGE) && Accepted(h) {}
    hide Verdict, Accepted, First, End, Readable, Needs, WithTables;
    OnePage(hs[0], {}, free);
    OnePage(hs[1], {0}, free - 2);
    assert hs[1..] == [hs[1]] && hs[1..][1..] == [];
    assert VerdictAll(hs[1..], {0}, free - 2) == Returned(0);
    var t: set<int> := {};
    assert WithTables(t, First(hs[0]), End(hs[0])) == {0} && Needs(t, First(hs[0]), End(hs[0])) == 2;
  }

  lemma OnePage(h: Phdr, t: set<int>, free: nat)
    requires First(h) == PAGE && End(h) == 2 * PAGE && Readable(h, PAGE) && free >= Cost(t, PAGE)
    ensures Verdict(h, t, free) == Returned(0)
    ensures Needs(t, PAGE, 2 * PAGE) == Cost(t, PAGE) && WithTables(t, PAGE, 2 * PAGE) == t + {0}
  {
    hide First, End, Readable;
    StopNext(h, PAGE, 2 * PAGE);
    StopNext(h, 2 * PAGE, 2 * PAGE);
    NeedsFirst(t, PAGE, 2 * PAGE);
    NeedsNone(t + {0}, 2 * PAGE, 2 * PAGE);
  }

  // no page has something of two segments
  ghost predicate Apart(hs: seq<Phdr>) {
    forall k, l, v :: 0 <= k < l < |hs| && hs[k].load && hs[l].load && Within(hs[k], v) ==> !Within(hs[l], v)
  }

  // Segments that keep to pages of their own are in memory as they are in the file, if and only if each does not wrap
  // and is clean.
  lemma ApartRight(p: map<int, seq<Byte>>, p': map<int, seq<Byte>>, s: Disk, n: int, hs: seq<Phdr>, k: int)
    requires Whole(p, p', s, n, hs) && Apart(hs) && InUser(p) && 0 <= k < |hs| && hs[k].load
    requires forall l :: 0 <= l < |hs| && hs[l].load ==> IsPhdr(hs[l]) && Accepted(hs[l])
    ensures Right(s, n, hs[k], p') <==> !Wraps(hs[k]) && AllClean(s, n, hs[k])
  {
    hide ReadableFile, IsImage, Right, Clean, Within, Puts, Wanted, Accepted;
    ProgramRight(p, p', s, n, hs, k);
    if !Wraps(hs[k]) {
      forall a | hs[k].vaddr <= a < hs[k].vaddr + hs[k].memsz
        ensures OwnerPuts(s, n, hs, k, a) <==> Clean(s, n, hs[k], a)
      {
        InSegment(hs[k], a);
        assert Owner(hs, a / PAGE * PAGE) == k;
      }
    }
  }

  // As linkers lay segments out, and with all blocks there, that is so.
  lemma CongruentClean(s: Disk, n: int, h: Phdr)
    requires ReadableFile(s, n) && IsPhdr(h) && h.offset % PAGE == h.vaddr % PAGE
    requires h.offset + h.filesz <= MAX_BYTES && h.vaddr + h.memsz <= ExecArgs.STACK_BASE
    requires forall o :: h.offset <= o < h.offset + h.filesz ==> !Hole(s, n, o)
    ensures AllClean(s, n, h)
  {
    hide Inv, Hole, SeenAt;
    Modulo(h.offset + h.filesz);
    forall a | h.vaddr <= a < h.vaddr + h.memsz ensures From(h, a) == h.offset + a - h.vaddr {
      Modulo(h.offset + a / PAGE * PAGE - h.vaddr);
    }
  }

  // A segment that is further into its page than its bytes are into the file loses its first page.
  lemma FirstPageLost(s: Disk, n: int, h: Phdr, p: map<int, seq<Byte>>)
    requires ReadableFile(s, n) && IsPhdr(h) && Accepted(h) && Images(s, n, h, p) && InUser(p)
    requires h.offset < h.vaddr % PAGE && 0 < h.filesz && 0 < h.memsz && h.offset + h.filesz <= MAX_BYTES
    requires ByteAt(s, n, h.offset) != 0
    ensures !Right(s, n, h, p)
  {
    hide ReadableFile, IsImage, Right, Within, ByteAt, Hole;
    SegmentRight(s, n, h, p);
    Below(h.offset + h.vaddr / PAGE * PAGE - h.vaddr);
    assert !Clean(s, n, h, h.vaddr);
  }

  // A hole shows block 0 of the disk.
  lemma HoleShows(s: Disk, n: int, h: Phdr, p: map<int, seq<Byte>>, a: int)
    requires ReadableFile(s, n) && IsPhdr(h) && Accepted(h) && Images(s, n, h, p) && InUser(p)
    requires h.vaddr <= a < h.vaddr + h.memsz && From(h, a) == h.offset + a - h.vaddr < FileEnd(h)
      && From(h, a) < MAX_BYTES
    requires Hole(s, n, From(h, a)) && s.block[0][From(h, a) % 1024] != 0
    ensures !Right(s, n, h, p)
  {
    hide ReadableFile, IsImage, Right, Within, ByteAt, Hole;
    SegmentRight(s, n, h, p);
    assert !Clean(s, n, h, a);
  }

  // A segment without bytes in the file, at an offset from which its second page wraps to the beginning of the file:
  // that page gets the file's first bytes and not zeros.
  lemma BssFromFile(s: Disk, n: int, p: map<int, seq<Byte>>)
    requires ReadableFile(s, n) && SeenAt(s, n, 0) != 0 && InUser(p)
    requires Images(s, n, Phdr(true, WORD - PAGE, PAGE, 0, 2 * PAGE), p)
    ensures !Right(s, n, Phdr(true, WORD - PAGE, PAGE, 0, 2 * PAGE), p)
  {
    hide ReadableFile, IsImage, Right, Within, ByteAt, Hole, SeenAt;
    var h := Phdr(true, WORD - PAGE, PAGE, 0, 2 * PAGE);
    SegmentRight(s, n, h, p);
    assert From(h, 2 * PAGE) == 0;
    assert !Clean(s, n, h, 2 * PAGE);
  }
}
