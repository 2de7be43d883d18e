// The buffer cache as one value: every buffer on the free ring and on the hash chain of its key (fs/buffer.c).
module CacheState {
  import opened Sequences
  import opened Bytes
  import opened Rings

  const NR_HASH := 307

  // _hashfn: exclusive or on unsigned words, modulo 307
  function Hash(dev: int, nr: int): (h: int)
    ensures 0 <= h < NR_HASH
  {
    var d: bv32 := if 0 <= dev < 0x1_0000 then dev as bv32 else 0;
    var n: bv32 := if 0 <= nr < 0x1_0000_0000 then nr as bv32 else 0;
    ((d ^ n) as int) % NR_HASH
  }

  function HashOf(h: Head): int { Hash(h.dev, h.nr) }

  datatype Cache = Cache(bh: seq<Head>, hash: seq<int>, free: int, disk: seq<Block>)
  // the order of the free list, and of each hash chain
  datatype Links = Links(ring: seq<int>, chains: seq<seq<int>>)

  ghost predicate Unique(bh: seq<Head>, out: int) {
    forall x, y :: 0 <= x < y < |bh| && x != out && y != out && bh[x].dev != 0 ==>
      bh[x].dev != bh[y].dev || bh[x].nr != bh[y].nr
  }

  ghost predicate OnRing(c: Cache, l: Links, out: int) {
    RingOk(c.bh, c.free, l.ring) && forall x :: 0 <= x < |c.bh| ==> (x in l.ring <==> x != out)
  }

  ghost predicate OnChains(c: Cache, l: Links, out: int) {
    && |c.hash| == NR_HASH == |l.chains|
    && (forall h :: 0 <= h < NR_HASH ==> ChainOk(c.bh, c.hash[h], l.chains[h]))
    && (forall h, x :: 0 <= h < NR_HASH && 0 <= x < |c.bh| ==>
      (x in l.chains[h] <==> x != out && c.bh[x].dev != 0 && HashOf(c.bh[x]) == h))
    && (forall x :: 0 <= x < |c.bh| && x != out && c.bh[x].dev == 0 ==> c.bh[x].next == -1 && c.bh[x].prev == -1)
  }

  // Every buffer but out is on the free list, on the chain of its key if it has a device, and no key occurs twice.
  ghost predicate Struct(c: Cache, l: Links, out: int) {
    |c.bh| >= 2 && OnRing(c, l, out) && OnChains(c, l, out) && Unique(c.bh, out)
  }

  // ---- remove_from_queues
  function RemoveHash(c: Cache, x: int): Cache
    requires 0 <= x < |c.bh| && -1 <= c.bh[x].next < |c.bh| && -1 <= c.bh[x].prev < |c.bh| && |c.hash| == NR_HASH
  {
    var h := HashOf(c.bh[x]);
    Cache(UnlinkHash(c.bh, x), if c.hash[h] == x then c.hash[h := c.bh[x].next] else c.hash, c.free, c.disk)
  }

  function RemoveRing(c: Cache, x: int): Cache
    requires 0 <= x < |c.bh| && 0 <= c.bh[x].prevFree < |c.bh| && 0 <= c.bh[x].nextFree < |c.bh|
  {
    c.(bh := UnlinkFree(c.bh, x), free := if c.free == x then c.bh[x].nextFree else c.free)
  }

  lemma UnlinkHashFields(bh: seq<Head>, x: int, y: int)
    requires 0 <= x < |bh| && 0 <= y < |bh| && -1 <= bh[x].next < |bh| && -1 <= bh[x].prev < |bh|
    ensures UnlinkHash(bh, x)[y] == bh[y].(next := UnlinkHash(bh, x)[y].next, prev := UnlinkHash(bh, x)[y].prev)
  {}

  lemma UnlinkFreeFields(bh: seq<Head>, x: int, y: int)
    requires 0 <= x < |bh| && 0 <= y < |bh| && 0 <= bh[x].prevFree < |bh| && 0 <= bh[x].nextFree < |bh|
    ensures UnlinkFree(bh, x)[y]
      == bh[y].(nextFree := UnlinkFree(bh, x)[y].nextFree, prevFree := UnlinkFree(bh, x)[y].prevFree)
  {}

  ghost function IndexOf(xs: seq<int>, x: int): (k: int)
    requires x in xs
    ensures 0 <= k < |xs| && xs[k] == x
  { var k :| 0 <= k < |xs| && xs[k] == x; k }

  ghost function DropChain(l: Links, h: int, x: int): Links
    requires 0 <= h < |l.chains| && x in l.chains[h]
  { l.(chains := l.chains[h := Without(l.chains[h], IndexOf(l.chains[h], x))]) }

  lemma InWithout(xs: seq<int>, k: int, n: int, y: int)
    requires DistinctIn(xs, n) && 0 <= k < |xs|
    ensures y in Without(xs, k) <==> y in xs && y != xs[k]
  {
    if y in xs && y != xs[k] {
      var i :| 0 <= i < |xs| && xs[i] == y;
      assert Without(xs, k)[if i < k then i else i - 1] == y;
    }
  }

  lemma LinksInRange(c: Cache, l: Links, x: int)
    requires Struct(c, l, -1) && 0 <= x < |c.bh|
    ensures -1 <= c.bh[x].next < |c.bh| && -1 <= c.bh[x].prev < |c.bh|
    ensures 0 <= c.bh[x].prevFree < |c.bh| && 0 <= c.bh[x].nextFree < |c.bh| && |c.hash| == NR_HASH == |l.chains|
  {
    hide Hash;
    if c.bh[x].dev != 0 {
      var h := HashOf(c.bh[x]);
      var k := IndexOf(l.chains[h], x);
      UnlinkHashOk(c.bh, c.hash[h], l.chains[h], k);
    }
    var k := IndexOf(l.ring, x);
    assert c.bh[l.ring[k]].nextFree == Succ(l.ring, k) && c.bh[l.ring[k]].prevFree == Pred(l.ring, k);
  }

  ghost function AfterHash(c: Cache, l: Links, x: int): Links
    requires Struct(c, l, -1) && 0 <= x < |c.bh|
  { if c.bh[x].dev != 0 then DropChain(l, HashOf(c.bh[x]), x) else l }

  // An unhashed buffer is on no chain: the hash part of the removal changes nothing.
  lemma RemoveUnhashed(c: Cache, l: Links, x: int)
    requires Struct(c, l, -1) && 0 <= x < |c.bh| && c.bh[x].dev == 0
    ensures -1 <= c.bh[x].next < |c.bh| && -1 <= c.bh[x].prev < |c.bh| && RemoveHash(c, x) == c && OnChains(c, l, x)
  {
    hide Hash;
    LinksInRange(c, l, x);
    var h := HashOf(c.bh[x]);
    assert x !in l.chains[h];
    assert ChainOk(c.bh, c.hash[h], l.chains[h]);
  }

  lemma OtherChain(c: Cache, l: Links, x: int, g: int)
    requires Struct(c, l, -1) && 0 <= x < |c.bh| && c.bh[x].dev != 0 && 0 <= g < NR_HASH && g != HashOf(c.bh[x])
    requires -1 <= c.bh[x].next < |c.bh| && -1 <= c.bh[x].prev < |c.bh|
    ensures ChainOk(UnlinkHash(c.bh, x), c.hash[g], l.chains[g])
  {
    hide Hash;
    var h := HashOf(c.bh[x]);
    var k := IndexOf(l.chains[h], x);
    var n, p := c.bh[x].next, c.bh[x].prev;
    assert n == Next(l.chains[h], k) && p == Prev(l.chains[h], k);
    assert n != -1 ==> n in l.chains[h];
    assert p != -1 ==> p in l.chains[h];
    forall i | 0 <= i < |l.chains[g]|
      ensures UnlinkHash(c.bh, x)[l.chains[g][i]].next == c.bh[l.chains[g][i]].next
      ensures UnlinkHash(c.bh, x)[l.chains[g][i]].prev == c.bh[l.chains[g][i]].prev
    {
      var y := l.chains[g][i];
      assert y in l.chains[g] && y !in l.chains[h];
      UnlinkHashHeads(c.bh, x, y);
    }
    ChainKept(c.bh, UnlinkHash(c.bh, x), c.hash[g], l.chains[g]);
  }

  ghost predicate Removable(c: Cache, l: Links, x: int) {
    && Struct(c, l, -1) && 0 <= x < |c.bh| && c.bh[x].dev != 0
    && -1 <= c.bh[x].next < |c.bh| && -1 <= c.bh[x].prev < |c.bh|
  }

  lemma Chained(c: Cache, l: Links, x: int)
    requires Struct(c, l, -1) && 0 <= x < |c.bh| && c.bh[x].dev != 0
    ensures |l.chains| == NR_HASH && x in l.chains[HashOf(c.bh[x])]
  { hide Hash; }

  lemma UnlinkHashSize(bh: seq<Head>, x: int)
    requires 0 <= x < |bh| && -1 <= bh[x].next < |bh| && -1 <= bh[x].prev < |bh|
    ensures |UnlinkHash(bh, x)| == |bh|
  {}

  lemma RemovedChain(c: Cache, l: Links, x: int, g: int)
    requires Removable(c, l, x) && 0 <= g < NR_HASH
    ensures ChainOk(RemoveHash(c, x).bh, RemoveHash(c, x).hash[g], DropChain(l, HashOf(c.bh[x]), x).chains[g])
  {
    hide Hash;
    var h := HashOf(c.bh[x]);
    if g != h { OtherChain(c, l, x, g); } else { UnlinkHashOk(c.bh, c.hash[h], l.chains[h], IndexOf(l.chains[h], x)); }
  }

  lemma RemovedMembers(c: Cache, l: Links, x: int, g: int, y: int)
    requires Removable(c, l, x) && 0 <= g < NR_HASH && 0 <= y < |c.bh|
    ensures y in DropChain(l, HashOf(c.bh[x]), x).chains[g] <==> y != x && c.bh[y].dev != 0 && HashOf(c.bh[y]) == g
  {
    hide Hash;
    var h := HashOf(c.bh[x]);
    assert y in l.chains[g] <==> c.bh[y].dev != 0 && HashOf(c.bh[y]) == g;
    if g == h { InWithout(l.chains[h], IndexOf(l.chains[h], x), |c.bh|, y); }
  }

  lemma RemovedUnhashed(c: Cache, l: Links, x: int, y: int)
    requires Removable(c, l, x) && 0 <= y < |c.bh| && y != x && c.bh[y].dev == 0
    ensures UnlinkHash(c.bh, x)[y].next == -1 && UnlinkHash(c.bh, x)[y].prev == -1
  {
    hide Hash;
    var h := HashOf(c.bh[x]);
    var k := IndexOf(l.chains[h], x);
    UnlinkHashHeads(c.bh, x, y);
    assert c.bh[x].next == Next(l.chains[h], k) && c.bh[x].prev == Prev(l.chains[h], k);
    assert y !in l.chains[h];
  }

  lemma RemoveHashed(c: Cache, l: Links, x: int)
    requires Removable(c, l, x)
    ensures OnChains(RemoveHash(c, x), DropChain(l, HashOf(c.bh[x]), x), x)
  {
    hide Hash, Struct, ChainOk, UnlinkHash, Without, IndexOf, OnChains;
    LinksInRange(c, l, x);
    Chained(c, l, x);
    var h := HashOf(c.bh[x]);
    var c', l' := RemoveHash(c, x), DropChain(l, h, x);
    UnlinkHashSize(c.bh, x);
    forall g | 0 <= g < NR_HASH ensures ChainOk(c'.bh, c'.hash[g], l'.chains[g]) { RemovedChain(c, l, x, g); }
    forall g, y | 0 <= g < NR_HASH && 0 <= y < |c'.bh|
      ensures y in l'.chains[g] <==> y != x && c'.bh[y].dev != 0 && HashOf(c'.bh[y]) == g
    {
      UnlinkHashFields(c.bh, x, y);
      RemovedMembers(c, l, x, g, y);
    }
    forall y | 0 <= y < |c'.bh| && y != x && c'.bh[y].dev == 0 ensures c'.bh[y].next == -1 && c'.bh[y].prev == -1 {
      UnlinkHashFields(c.bh, x, y);
      RemovedUnhashed(c, l, x, y);
    }
    OnChainsIf(c', l', x);
  }

  lemma OnChainsIf(c: Cache, l: Links, x: int)
    requires |c.hash| == NR_HASH == |l.chains| && forall g :: 0 <= g < NR_HASH ==> ChainOk(c.bh, c.hash[g], l.chains[g])
    requires forall g, y :: 0 <= g < NR_HASH && 0 <= y < |c.bh| ==>
      (y in l.chains[g] <==> y != x && c.bh[y].dev != 0 && HashOf(c.bh[y]) == g)
    requires forall y :: 0 <= y < |c.bh| && y != x && c.bh[y].dev == 0 ==> c.bh[y].next == -1 && c.bh[y].prev == -1
    ensures OnChains(c, l, x)
  { hide Hash, ChainOk; }

  // Head tables that agree on everything but the free-list links have the same chains.
  lemma ChainsIgnoreRing(c: Cache, c': Cache, l: Links, l': Links, out: int)
    requires OnChains(c, l, out) && |c'.bh| == |c.bh| && c'.hash == c.hash && l'.chains == l.chains
    requires forall y :: 0 <= y < |c.bh| ==>
      c'.bh[y] == c.bh[y].(nextFree := c'.bh[y].nextFree, prevFree := c'.bh[y].prevFree)
    ensures OnChains(c', l', out)
  {
    hide Hash;
    forall h | 0 <= h < NR_HASH ensures ChainOk(c'.bh, c'.hash[h], l'.chains[h]) {
      assert ChainOk(c.bh, c.hash[h], l.chains[h]);
      ChainKept(c.bh, c'.bh, c.hash[h], l.chains[h]);
    }
    forall h, x | 0 <= h < NR_HASH && 0 <= x < |c'.bh|
      ensures x in l'.chains[h] <==> x != out && c'.bh[x].dev != 0 && HashOf(c'.bh[x]) == h
    {
      assert x in l.chains[h] <==> x != out && c.bh[x].dev != 0 && HashOf(c.bh[x]) == h;
    }
  }

  lemma RingIgnoresChains(c: Cache, c': Cache, l: Links, l': Links, out: int)
    requires OnRing(c, l, out) && |c'.bh| == |c.bh| && c'.free == c.free && l'.ring == l.ring
    requires forall y :: 0 <= y < |c.bh| ==>
      c'.bh[y].nextFree == c.bh[y].nextFree && c'.bh[y].prevFree == c.bh[y].prevFree
    ensures OnRing(c', l', out)
  {
    RingKept(c.bh, c'.bh, c.free, l.ring);
  }

  // ---- the whole of remove_from_queues
  ghost function DropRing(l: Links, x: int): Links
    requires x in l.ring
  {
    l.(ring := Without(l.ring, IndexOf(l.ring, x)))
  }

  lemma RemoveHashOk(c: Cache, l: Links, x: int)
    requires Struct(c, l, -1) && 0 <= x < |c.bh|
    ensures -1 <= c.bh[x].next < |c.bh| && -1 <= c.bh[x].prev < |c.bh|
    ensures OnChains(RemoveHash(c, x), AfterHash(c, l, x), x) && OnRing(RemoveHash(c, x), AfterHash(c, l, x), -1)
  {
    hide Hash, OnChains, Unique;
    LinksInRange(c, l, x);
    var c', l' := RemoveHash(c, x), AfterHash(c, l, x);
    if c.bh[x].dev == 0 { RemoveUnhashed(c, l, x); } else { RemoveHashed(c, l, x); }
    forall y | 0 <= y < |c.bh| ensures c'.bh[y].nextFree == c.bh[y].nextFree && c'.bh[y].prevFree == c.bh[y].prevFree {
      UnlinkHashFields(c.bh, x, y);
    }
    RingIgnoresChains(c, c', l, l', -1);
  }

  lemma RemoveRingOk(c: Cache, l: Links, x: int)
    requires |c.bh| >= 2 && OnRing(c, l, -1) && OnChains(c, l, x) && 0 <= x < |c.bh|
    ensures 0 <= c.bh[x].prevFree < |c.bh| && 0 <= c.bh[x].nextFree < |c.bh|
    ensures OnRing(RemoveRing(c, x), DropRing(l, x), x) && OnChains(RemoveRing(c, x), DropRing(l, x), x)
  {
    hide OnChains, RingOk, UnlinkFree, Without;
    var k := IndexOf(l.ring, x);
    RingHasTwo(l.ring, |c.bh|, x);
    RingDistinct(c.bh, c.free, l.ring);
    UnlinkFreeOk(c.bh, c.free, l.ring, k);
    var c', l' := RemoveRing(c, x), DropRing(l, x);
    UnlinkFreeSize(c.bh, x);
    forall y | 0 <= y < |c.bh|
      ensures (y in l'.ring <==> y != x)
      && c'.bh[y] == c.bh[y].(nextFree := c'.bh[y].nextFree, prevFree := c'.bh[y].prevFree)
    {
      InWithout(l.ring, k, |c.bh|, y);
      UnlinkFreeFields(c.bh, x, y);
    }
    ChainsIgnoreRing(c, c', l, l', x);
  }

  lemma RingDistinct(bh: seq<Head>, free: int, ring: seq<int>)
    requires RingOk(bh, free, ring)
    ensures DistinctIn(ring, |bh|)
  {}

  lemma RingHasTwo(ring: seq<int>, n: int, x: int)
    requires n >= 2 && 0 <= x < n && forall y :: 0 <= y < n ==> y in ring
    ensures |ring| >= 2
  {
    var y := if x == 0 then 1 else 0;
    assert x in ring && y in ring;
  }

  // ---- what happens to a buffer off the queues is nobody else's business
  lemma OutChanges(c: Cache, l: Links, x: int, h: Head)
    requires OnRing(c, l, x) && OnChains(c, l, x) && 0 <= x < |c.bh|
    ensures OnRing(c.(bh := c.bh[x := h]), l, x) && OnChains(c.(bh := c.bh[x := h]), l, x)
  {
    RingWithout(c, l, x, h);
    ChainsWithout(c, l, x, h);
  }

  lemma RingWithout(c: Cache, l: Links, x: int, h: Head)
    requires OnRing(c, l, x) && 0 <= x < |c.bh|
    ensures OnRing(c.(bh := c.bh[x := h]), l, x)
  {
    assert x !in l.ring;
    RingKept(c.bh, c.bh[x := h], c.free, l.ring);
  }

  lemma ChainsWithout(c: Cache, l: Links, x: int, h: Head)
    requires OnChains(c, l, x) && 0 <= x < |c.bh|
    ensures OnChains(c.(bh := c.bh[x := h]), l, x)
  {
    hide Hash;
    var c' := c.(bh := c.bh[x := h]);
    forall g | 0 <= g < NR_HASH ensures ChainOk(c'.bh, c'.hash[g], l.chains[g]) {
      assert x !in l.chains[g];
      ChainKept(c.bh, c'.bh, c.hash[g], l.chains[g]);
    }
    forall g, y | 0 <= g < NR_HASH && 0 <= y < |c'.bh|
      ensures y in l.chains[g] <==> y != x && c'.bh[y].dev != 0 && HashOf(c'.bh[y]) == g
    {
      assert y in l.chains[g] <==> y != x && c.bh[y].dev != 0 && HashOf(c.bh[y]) == g;
    }
  }

  // ---- insert_into_queues
  function InsertRing(c: Cache, x: int): Cache
    requires 0 <= x < |c.bh| && 0 <= c.free < |c.bh| && 0 <= c.bh[c.free].prevFree < |c.bh|
  { c.(bh := LinkFree(c.bh, c.free, x)) }

  function InsertHash(c: Cache, x: int): Cache
    requires 0 <= x < |c.bh| && |c.hash| == NR_HASH && -1 <= c.hash[HashOf(c.bh[x])] < |c.bh|
  {
    if c.bh[x].dev == 0 then c.(bh := c.bh[x := c.bh[x].(prev := -1, next := -1)])
    else
      var h := HashOf(c.bh[x]);
      c.(bh := LinkHash(c.bh, c.hash[h], x), hash := c.hash[h := x])
  }

  lemma LinkFreeFields(bh: seq<Head>, free: int, x: int, y: int)
    requires 0 <= x < |bh| && 0 <= y < |bh| && 0 <= free < |bh| && 0 <= bh[free].prevFree < |bh|
    ensures LinkFree(bh, free, x)[y]
      == bh[y].(nextFree := LinkFree(bh, free, x)[y].nextFree, prevFree := LinkFree(bh, free, x)[y].prevFree)
  {}

  lemma LinkHashFields(bh: seq<Head>, head: int, x: int, y: int)
    requires 0 <= x < |bh| && 0 <= y < |bh| && -1 <= head < |bh|
    ensures LinkHash(bh, head, x)[y]
      == bh[y].(next := LinkHash(bh, head, x)[y].next, prev := LinkHash(bh, head, x)[y].prev)
    ensures y != x && y != head ==> LinkHash(bh, head, x)[y] == bh[y]
  {}

  lemma InsertRingOk(c: Cache, l: Links, x: int)
    requires OnRing(c, l, x) && OnChains(c, l, x) && 0 <= x < |c.bh|
    ensures 0 <= c.free < |c.bh| && 0 <= c.bh[c.free].prevFree < |c.bh|
    ensures OnRing(InsertRing(c, x), l.(ring := l.ring + [x]), -1)
    ensures OnChains(InsertRing(c, x), l.(ring := l.ring + [x]), x)
  {
    hide OnChains;
    LinkFreeOk(c.bh, c.free, l.ring, x);
    var c', l' := InsertRing(c, x), l.(ring := l.ring + [x]);
    forall y | 0 <= y < |c.bh|
      ensures c'.bh[y] == c.bh[y].(nextFree := c'.bh[y].nextFree, prevFree := c'.bh[y].prevFree)
    {
      LinkFreeFields(c.bh, c.free, x, y);
    }
    ChainsIgnoreRing(c, c', l, l', x);
  }

  ghost function AddChain(l: Links, h: int, x: int): Links
    requires 0 <= h < |l.chains|
  {
    l.(chains := l.chains[h := [x] + l.chains[h]])
  }

  lemma InsertedChain(c: Cache, l: Links, x: int, g: int)
    requires OnChains(c, l, x) && 0 <= x < |c.bh| && c.bh[x].dev != 0 && 0 <= g < NR_HASH
    requires -1 <= c.hash[HashOf(c.bh[x])] < |c.bh|
    ensures ChainOk(InsertHash(c, x).bh, InsertHash(c, x).hash[g], AddChain(l, HashOf(c.bh[x]), x).chains[g])
  {
    hide Hash;
    var h := HashOf(c.bh[x]);
    assert x !in l.chains[h] && x !in l.chains[g];
    if g == h { LinkHashOk(c.bh, c.hash[h], l.chains[h], x); }
    else {
      var c' := InsertHash(c, x);
      forall i | 0 <= i < |l.chains[g]| ensures c'.bh[l.chains[g][i]] == c.bh[l.chains[g][i]] {
        var y := l.chains[g][i];
        assert y in l.chains[g];
        assert c.hash[h] != -1 ==> c.hash[h] in l.chains[h];
        LinkHashFields(c.bh, c.hash[h], x, y);
      }
      ChainKept(c.bh, c'.bh, c.hash[g], l.chains[g]);
    }
  }

  lemma HashInRange(c: Cache, l: Links, out: int, h: int)
    requires OnChains(c, l, out) && 0 <= h < NR_HASH
    ensures |c.hash| == NR_HASH == |l.chains| && -1 <= c.hash[h] < |c.bh|
  { assert ChainOk(c.bh, c.hash[h], l.chains[h]); }

  lemma InsertedMembers(c: Cache, l: Links, x: int, g: int, y: int)
    requires OnChains(c, l, x) && 0 <= x < |c.bh| && c.bh[x].dev != 0 && 0 <= g < NR_HASH && 0 <= y < |c.bh|
    ensures y in AddChain(l, HashOf(c.bh[x]), x).chains[g] <==> c.bh[y].dev != 0 && HashOf(c.bh[y]) == g
  {
    hide Hash;
    assert y in l.chains[g] <==> y != x && c.bh[y].dev != 0 && HashOf(c.bh[y]) == g;
  }

  lemma InsertHashOk(c: Cache, l: Links, x: int)
    requires OnRing(c, l, -1) && OnChains(c, l, x) && 0 <= x < |c.bh|
    ensures -1 <= c.hash[HashOf(c.bh[x])] < |c.bh|
    ensures c.bh[x].dev != 0 ==>
      OnChains(InsertHash(c, x), AddChain(l, HashOf(c.bh[x]), x), -1)
        && OnRing(InsertHash(c, x), AddChain(l, HashOf(c.bh[x]), x), -1)
    ensures c.bh[x].dev == 0 ==> OnChains(InsertHash(c, x), l, -1) && OnRing(InsertHash(c, x), l, -1)
  {
    hide Hash, ChainOk;
    HashInRange(c, l, x, HashOf(c.bh[x]));
    if c.bh[x].dev != 0 { InsertHashed(c, l, x); } else { InsertUnhashed(c, l, x); }
  }

  lemma InsertHashed(c: Cache, l: Links, x: int)
    requires OnRing(c, l, -1) && OnChains(c, l, x) && 0 <= x < |c.bh| && c.bh[x].dev != 0
    requires -1 <= c.hash[HashOf(c.bh[x])] < |c.bh|
    ensures var l' := AddChain(l, HashOf(c.bh[x]), x);
      OnChains(InsertHash(c, x), l', -1) && OnRing(InsertHash(c, x), l', -1)
  {
    hide Hash, ChainOk, LinkHash;
    var h, c' := HashOf(c.bh[x]), InsertHash(c, x);
    var l' := AddChain(l, h, x);
    LinkHashSize(c.bh, c.hash[h], x);
    forall g | 0 <= g < NR_HASH ensures ChainOk(c'.bh, c'.hash[g], l'.chains[g]) { InsertedChain(c, l, x, g); }
    forall y | 0 <= y < |c.bh| ensures c'.bh[y] == c.bh[y].(next := c'.bh[y].next, prev := c'.bh[y].prev) {
      LinkHashFields(c.bh, c.hash[h], x, y);
    }
    forall g, y | 0 <= g < NR_HASH && 0 <= y < |c'.bh|
      ensures y in l'.chains[g] <==> y != -1 && c'.bh[y].dev != 0 && HashOf(c'.bh[y]) == g
    {
      InsertedMembers(c, l, x, g, y);
    }
    forall y | 0 <= y < |c'.bh| && c'.bh[y].dev == 0 ensures c'.bh[y].next == -1 && c'.bh[y].prev == -1 {
      LinkHashFields(c.bh, c.hash[h], x, y);
      HeadHashed(c, l, x);
    }
    RingIgnoresChains(c, c', l, l', -1);
  }

  lemma InsertUnhashed(c: Cache, l: Links, x: int)
    requires OnRing(c, l, -1) && OnChains(c, l, x) && 0 <= x < |c.bh| && c.bh[x].dev == 0
    requires -1 <= c.hash[HashOf(c.bh[x])] < |c.bh|
    ensures OnChains(InsertHash(c, x), l, -1) && OnRing(InsertHash(c, x), l, -1)
  {
    hide Hash, ChainOk;
    var c' := InsertHash(c, x);
    forall g | 0 <= g < NR_HASH ensures ChainOk(c'.bh, c'.hash[g], l.chains[g]) { OutLinks(c, l, x, g); }
    forall g, y | 0 <= g < NR_HASH && 0 <= y < |c'.bh|
      ensures y in l.chains[g] <==> y != -1 && c'.bh[y].dev != 0 && HashOf(c'.bh[y]) == g
    {
      assert y in l.chains[g] <==> y != x && c.bh[y].dev != 0 && HashOf(c.bh[y]) == g;
    }
    RingIgnoresChains(c, c', l, l, -1);
  }

  lemma LinkHashSize(bh: seq<Head>, head: int, x: int)
    requires 0 <= x < |bh| && -1 <= head < |bh|
    ensures |LinkHash(bh, head, x)| == |bh|
  {}

  lemma HeadHashed(c: Cache, l: Links, x: int)
    requires OnChains(c, l, x) && 0 <= x < |c.bh|
    ensures var y := c.hash[HashOf(c.bh[x])]; y == -1 || (0 <= y < |c.bh| && c.bh[y].dev != 0)
  {
    hide Hash;
    var h := HashOf(c.bh[x]);
    assert ChainOk(c.bh, c.hash[h], l.chains[h]);
    assert c.hash[h] != -1 ==> c.hash[h] in l.chains[h];
  }

  lemma OutLinks(c: Cache, l: Links, x: int, g: int)
    requires OnChains(c, l, x) && 0 <= x < |c.bh| && 0 <= g < NR_HASH
    ensures ChainOk(c.bh[x := c.bh[x].(prev := -1, next := -1)], c.hash[g], l.chains[g])
  {
    assert x !in l.chains[g];
    ChainKept(c.bh, c.bh[x := c.bh[x].(prev := -1, next := -1)], c.hash[g], l.chains[g]);
  }

  // ---- a buffer changes its key
  predicate SameLinks(a: Head, b: Head) {
    a.dev == b.dev && a.nr == b.nr && a.next == b.next && a.prev == b.prev && a.nextFree == b.nextFree
      && a.prevFree == b.prevFree
  }

  // The structure looks at keys and links only.
  lemma StructKept(c: Cache, c': Cache, l: Links)
    requires Struct(c, l, -1) && |c'.bh| == |c.bh| && c'.hash == c.hash && c'.free == c.free
    requires forall y :: 0 <= y < |c.bh| ==> SameLinks(c.bh[y], c'.bh[y])
    ensures Struct(c', l, -1)
  {
    ChainsKept(c, c', l);
    hide OnChains;
    RingIgnoresChains(c, c', l, l, -1);
  }

  lemma ChainsKept(c: Cache, c': Cache, l: Links)
    requires OnChains(c, l, -1) && |c'.bh| == |c.bh| && c'.hash == c.hash
    requires forall y :: 0 <= y < |c.bh| ==> SameLinks(c.bh[y], c'.bh[y])
    ensures OnChains(c', l, -1)
  {
    hide Hash;
    forall h | 0 <= h < NR_HASH ensures ChainOk(c'.bh, c'.hash[h], l.chains[h]) {
      assert ChainOk(c.bh, c.hash[h], l.chains[h]);
      ChainKept(c.bh, c'.bh, c.hash[h], l.chains[h]);
    }
    forall h, x | 0 <= h < NR_HASH && 0 <= x < |c'.bh|
      ensures x in l.chains[h] <==> x != -1 && c'.bh[x].dev != 0 && HashOf(c'.bh[x]) == h
    {
      assert SameLinks(c.bh[x], c'.bh[x]);
      assert x in l.chains[h] <==> x != -1 && c.bh[x].dev != 0 && HashOf(c.bh[x]) == h;
    }
  }

  // everything but the links
  predicate SameBody(a: Head, b: Head) {
    a == b.(next := a.next, prev := a.prev, nextFree := a.nextFree, prevFree := a.prevFree)
  }
  ghost predicate SameBodies(a: seq<Head>, b: seq<Head>) {
    |a| == |b| && forall y :: 0 <= y < |a| ==> SameBody(a[y], b[y])
  }

  lemma RemovalMeant(c: Cache, l: Links, x: int)
    requires Struct(c, l, -1) && 0 <= x < |c.bh|
    ensures -1 <= c.bh[x].next < |c.bh| && -1 <= c.bh[x].prev < |c.bh| && |c.hash| == NR_HASH
    ensures var b := RemoveHash(c, x).bh; x < |b| && 0 <= b[x].prevFree < |b| && 0 <= b[x].nextFree < |b|
  {
    hide OnRing, OnChains, Unique, RemoveHash;
    LinksInRange(c, l, x);
    RemoveHashSize(c, x);
    RemoveHashOk(c, l, x);
    RemoveRingOk(RemoveHash(c, x), AfterHash(c, l, x), x);
  }

  lemma RemoveHashSize(c: Cache, x: int)
    requires 0 <= x < |c.bh| && -1 <= c.bh[x].next < |c.bh| && -1 <= c.bh[x].prev < |c.bh| && |c.hash| == NR_HASH
    ensures |RemoveHash(c, x).bh| == |c.bh|
  { UnlinkHashSize(c.bh, x); }

  ghost function Removed(c: Cache, l: Links, x: int): Cache
    requires Struct(c, l, -1) && 0 <= x < |c.bh|
  {
    RemovalMeant(c, l, x);
    RemoveRing(RemoveHash(c, x), x)
  }

  lemma RemovedOk(c: Cache, l: Links, x: int)
    requires Struct(c, l, -1) && 0 <= x < |c.bh|
    ensures exists l' :: OnRing(Removed(c, l, x), l', x) && OnChains(Removed(c, l, x), l', x)
    ensures SameBodies(c.bh, Removed(c, l, x).bh) && Removed(c, l, x).disk == c.disk
  {
    hide OnRing, OnChains, Unique;
    LinksInRange(c, l, x);
    RemoveHashOk(c, l, x);
    RemoveRingOk(RemoveHash(c, x), AfterHash(c, l, x), x);
    assert OnRing(Removed(c, l, x), DropRing(AfterHash(c, l, x), x), x);
    forall y | 0 <= y < |c.bh| ensures SameBody(c.bh[y], Removed(c, l, x).bh[y]) {
      UnlinkHashFields(c.bh, x, y);
      UnlinkFreeFields(RemoveHash(c, x).bh, x, y);
    }
  }

  ghost function Inserted(c: Cache, l: Links, x: int): Cache
    requires OnRing(c, l, x) && OnChains(c, l, x) && 0 <= x < |c.bh|
  {
    InsertRingOk(c, l, x);
    InsertHashOk(InsertRing(c, x), l.(ring := l.ring + [x]), x);
    InsertHash(InsertRing(c, x), x)
  }

  lemma InsertedOk(c: Cache, l: Links, x: int)
    requires OnRing(c, l, x) && OnChains(c, l, x) && 0 <= x < |c.bh|
    ensures exists l' :: OnRing(Inserted(c, l, x), l', -1) && OnChains(Inserted(c, l, x), l', -1)
    ensures SameBodies(c.bh, Inserted(c, l, x).bh) && Inserted(c, l, x).disk == c.disk
  {
    InsertedBodies(c, l, x);
    hide OnRing, OnChains, Hash;
    InsertRingOk(c, l, x);
    var c1, l1 := InsertRing(c, x), l.(ring := l.ring + [x]);
    InsertHashOk(c1, l1, x);
    HashInRange(c1, l1, x, HashOf(c1.bh[x]));
    assert OnRing(Inserted(c, l, x), if c1.bh[x].dev == 0 then l1 else AddChain(l1, HashOf(c1.bh[x]), x), -1);
  }

  lemma InsertedBodies(c: Cache, l: Links, x: int)
    requires OnRing(c, l, x) && OnChains(c, l, x) && 0 <= x < |c.bh|
    ensures SameBodies(c.bh, Inserted(c, l, x).bh) && Inserted(c, l, x).disk == c.disk
  {
    hide OnRing, OnChains, Hash;
    InsertRingOk(c, l, x);
    var c1, l1 := InsertRing(c, x), l.(ring := l.ring + [x]);
    InsertHashOk(c1, l1, x);
    var h := HashOf(c1.bh[x]);
    HashInRange(c1, l1, x, h);
    forall y | 0 <= y < |c.bh| ensures SameBody(c.bh[y], Inserted(c, l, x).bh[y]) {
      LinkFreeFields(c.bh, c.free, x, y);
      LinkHashFields(c1.bh, c1.hash[h], x, y);
    }
  }
}
