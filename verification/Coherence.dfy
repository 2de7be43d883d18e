// What the buffer cache means: the content of a block is its up-to-date buffer if there is one, and the
// ramdisk block otherwise (fs/buffer.c, kernel/blk_drv/ll_rw_blk.c, kernel/blk_drv/ramdisk.c).
module Coherence {
  import opened Bytes
  import opened Rings
  import opened CacheState

  // major 1, minor 1: the only block device with a driver
  const RAMDISK := 0x101

  predicate Stored(dev: int, nr: int, disk: seq<Block>) { dev == RAMDISK && 0 <= nr < |disk| }

  // No request is pending, only up-to-date buffers are dirty, and a clean one agrees with the disk.
  predicate Sound(h: Head, disk: seq<Block>) {
    && !h.lock && 0 <= h.count < 256 && h.nr >= 0
    && (h.dirt ==> h.uptodate)
    && (h.uptodate ==> Stored(h.dev, h.nr, disk))
    && (h.uptodate && !h.dirt ==> h.data == disk[h.nr])
  }

  ghost predicate Coherent(c: Cache) { forall x :: 0 <= x < |c.bh| ==> Sound(c.bh[x], c.disk) }

  predicate Holds(h: Head, nr: int) { h.dev == RAMDISK && h.nr == nr && h.uptodate }

  ghost function LogicalBlock(c: Cache, nr: int): Block
    requires 0 <= nr < |c.disk|
  {
    if x :| 0 <= x < |c.bh| && Holds(c.bh[x], nr) then c.bh[x].data else c.disk[nr]
  }

  // The disk as its users see it.
  ghost function Logical(c: Cache): seq<Block> { seq(|c.disk|, nr requires 0 <= nr < |c.disk| => LogicalBlock(c, nr)) }

  ghost predicate Means(c: Cache, nr: int, b: Block)
    requires 0 <= nr < |c.disk|
  {
    && (forall x :: 0 <= x < |c.bh| && Holds(c.bh[x], nr) ==> c.bh[x].data == b)
    && ((forall x :: 0 <= x < |c.bh| ==> !Holds(c.bh[x], nr)) ==> c.disk[nr] == b)
  }

  lemma MeansLogical(c: Cache, nr: int, b: Block)
    requires 0 <= nr < |c.disk| && Unique(c.bh, -1)
    ensures Means(c, nr, b) <==> Logical(c)[nr] == b
  {
    var v := LogicalBlock(c, nr);
    assert Logical(c)[nr] == v;
    assert Means(c, nr, v) by {
      if x :| 0 <= x < |c.bh| && Holds(c.bh[x], nr) {
        forall y | 0 <= y < |c.bh| && Holds(c.bh[y], nr) ensures y == x {}
      }
    }
  }

  lemma LogicalFrom(c: Cache, c': Cache)
    requires Unique(c.bh, -1) && Unique(c'.bh, -1) && |c'.disk| == |c.disk|
    requires forall nr :: 0 <= nr < |c.disk| ==> Means(c', nr, Logical(c)[nr])
    ensures Logical(c') == Logical(c)
  {
    forall nr | 0 <= nr < |c.disk| ensures Logical(c')[nr] == Logical(c)[nr] { MeansLogical(c', nr, Logical(c)[nr]); }
  }

  // Heads that carry the same content.
  predicate Alike(a: Head, b: Head) {
    a.dev == b.dev && a.nr == b.nr && a.uptodate == b.uptodate && a.dirt == b.dirt && a.data == b.data
  }

  ghost predicate AlikeBut(c: Cache, c': Cache, x: int) {
    |c'.bh| == |c.bh| && forall y :: 0 <= y < |c.bh| && y != x ==> Alike(c.bh[y], c'.bh[y])
  }

  lemma AlikeLogical(c: Cache, c': Cache)
    requires AlikeBut(c, c', -1) && c'.disk == c.disk && Unique(c.bh, -1)
    ensures Unique(c'.bh, -1) && Logical(c') == Logical(c)
  {
    forall nr | 0 <= nr < |c.disk| ensures Means(c', nr, Logical(c)[nr]) {
      MeansLogical(c, nr, Logical(c)[nr]);
      forall x | 0 <= x < |c.bh| ensures Holds(c'.bh[x], nr) == Holds(c.bh[x], nr) { assert Alike(c.bh[x], c'.bh[x]); }
    }
    LogicalFrom(c, c');
  }

  // A block that x holds neither before nor after means what it meant.
  lemma OtherMeans(c: Cache, c': Cache, x: int, nr: int)
    requires 0 <= nr < |c.disk| == |c'.disk| && c'.disk[nr] == c.disk[nr] && Unique(c.bh, -1)
    requires 0 <= x < |c.bh| && AlikeBut(c, c', x) && !Holds(c.bh[x], nr) && !Holds(c'.bh[x], nr)
    ensures Means(c', nr, Logical(c)[nr])
  {
    MeansLogical(c, nr, Logical(c)[nr]);
    forall y | 0 <= y < |c.bh|
      ensures Holds(c'.bh[y], nr) == Holds(c.bh[y], nr) && (Holds(c.bh[y], nr) ==> c'.bh[y].data == c.bh[y].data)
    {
      assert y != x ==> Alike(c.bh[y], c'.bh[y]);
    }
  }

  lemma HolderMeans(c: Cache, x: int, nr: int)
    requires 0 <= nr < |c.disk| && Unique(c.bh, -1) && 0 <= x < |c.bh| && Holds(c.bh[x], nr)
    ensures Means(c, nr, c.bh[x].data) && Logical(c)[nr] == c.bh[x].data
  {
    forall y | 0 <= y < |c.bh| && Holds(c.bh[y], nr) ensures y == x {}
    assert Means(c, nr, c.bh[x].data);
    MeansLogical(c, nr, c.bh[x].data);
  }

  lemma UnheldMeans(c: Cache, x: int, nr: int)
    requires 0 <= nr < |c.disk| && Unique(c.bh, -1) && 0 <= x < |c.bh| && c.bh[x].dev == RAMDISK && c.bh[x].nr == nr
    requires !c.bh[x].uptodate
    ensures Logical(c)[nr] == c.disk[nr]
  {
    forall y | 0 <= y < |c.bh| ensures !Holds(c.bh[y], nr) {}
    assert Means(c, nr, c.disk[nr]);
    MeansLogical(c, nr, c.disk[nr]);
  }

  // A clean buffer may be given to another key: what it held is on the disk.
  lemma EvictLogical(c: Cache, c': Cache, x: int)
    requires 0 <= x < |c.bh| && AlikeBut(c, c', x) && c'.disk == c.disk && Unique(c.bh, -1) && Unique(c'.bh, -1)
    requires Sound(c.bh[x], c.disk) && !c.bh[x].dirt && !c'.bh[x].uptodate
    ensures Logical(c') == Logical(c)
  {
    forall nr | 0 <= nr < |c.disk| ensures Means(c', nr, Logical(c)[nr]) {
      MeansLogical(c, nr, Logical(c)[nr]);
      forall y | 0 <= y < |c.bh| && y != x ensures Holds(c'.bh[y], nr) == Holds(c.bh[y], nr) {
        assert Alike(c.bh[y], c'.bh[y]);
      }
      if Holds(c.bh[x], nr) {
        forall y | 0 <= y < |c.bh| && y != x ensures !Holds(c.bh[y], nr) {}
      }
    }
    LogicalFrom(c, c');
  }

  function ReadIn(c: Cache, x: int): Cache
    requires 0 <= x < |c.bh| && Stored(c.bh[x].dev, c.bh[x].nr, c.disk)
  { c.(bh := c.bh[x := c.bh[x].(data := c.disk[c.bh[x].nr], uptodate := true)]) }

  lemma ReadInLogical(c: Cache, x: int)
    requires 0 <= x < |c.bh| && Unique(c.bh, -1) && Sound(c.bh[x], c.disk) && !c.bh[x].uptodate
    requires Stored(c.bh[x].dev, c.bh[x].nr, c.disk)
    ensures Sound(ReadIn(c, x).bh[x], c.disk) && Unique(ReadIn(c, x).bh, -1)
    ensures Logical(ReadIn(c, x)) == Logical(c) && ReadIn(c, x).bh[x].data == Logical(c)[c.bh[x].nr]
  {
    var c' := ReadIn(c, x);
    UnheldMeans(c, x, c.bh[x].nr);
    forall nr | 0 <= nr < |c.disk| ensures Means(c', nr, Logical(c)[nr]) {
      if nr == c.bh[x].nr { HolderMeans(c', x, nr); } else { OtherMeans(c, c', x, nr); }
    }
    LogicalFrom(c, c');
  }

  function WriteOut(c: Cache, x: int): Cache
    requires 0 <= x < |c.bh| && Stored(c.bh[x].dev, c.bh[x].nr, c.disk)
  { c.(bh := c.bh[x := c.bh[x].(dirt := false, uptodate := true)], disk := c.disk[c.bh[x].nr := c.bh[x].data]) }

  lemma WriteOutLogical(c: Cache, x: int)
    requires 0 <= x < |c.bh| && Unique(c.bh, -1) && Coherent(c) && c.bh[x].dirt
    ensures Stored(c.bh[x].dev, c.bh[x].nr, c.disk) && Coherent(WriteOut(c, x)) && Unique(WriteOut(c, x).bh, -1)
    ensures Logical(WriteOut(c, x)) == Logical(c)
  {
    assert Sound(c.bh[x], c.disk);
    var c' := WriteOut(c, x);
    HolderMeans(c, x, c.bh[x].nr);
    forall nr | 0 <= nr < |c.disk| ensures Means(c', nr, Logical(c)[nr]) {
      if nr == c.bh[x].nr { HolderMeans(c', x, nr); } else { OtherMeans(c, c', x, nr); }
    }
    LogicalFrom(c, c');
    forall y | 0 <= y < |c.bh| ensures Sound(c'.bh[y], c'.disk) { assert Sound(c.bh[y], c.disk); }
  }

  function Fill(c: Cache, x: int, b: Block): Cache
    requires 0 <= x < |c.bh|
  { c.(bh := c.bh[x := c.bh[x].(data := b, uptodate := true, dirt := true)]) }

  lemma FillLogical(c: Cache, x: int, b: Block)
    requires 0 <= x < |c.bh| && Unique(c.bh, -1) && Sound(c.bh[x], c.disk) && Stored(c.bh[x].dev, c.bh[x].nr, c.disk)
    ensures Sound(Fill(c, x, b).bh[x], c.disk) && Unique(Fill(c, x, b).bh, -1)
    ensures Logical(Fill(c, x, b)) == Logical(c)[c.bh[x].nr := b]
  {
    var c' := Fill(c, x, b);
    HolderMeans(c', x, c.bh[x].nr);
    forall nr | 0 <= nr < |c.disk| && nr != c.bh[x].nr ensures Logical(c')[nr] == Logical(c)[nr] {
      OtherMeans(c, c', x, nr);
      MeansLogical(c', nr, Logical(c)[nr]);
    }
  }

  // Once no buffer of the ramdisk is dirty, the disk is what its users see.
  lemma CleanLogical(c: Cache)
    requires Unique(c.bh, -1) && Coherent(c) && forall x :: 0 <= x < |c.bh| ==> !c.bh[x].dirt
    ensures c.disk == Logical(c)
  {
    forall nr | 0 <= nr < |c.disk| ensures c.disk[nr] == Logical(c)[nr] {
      assert Means(c, nr, c.disk[nr]) by {
        forall x | 0 <= x < |c.bh| && Holds(c.bh[x], nr) ensures c.bh[x].data == c.disk[nr] {
          assert Sound(c.bh[x], c.disk);
        }
      }
      MeansLogical(c, nr, c.disk[nr]);
    }
  }
}
