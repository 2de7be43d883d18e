// The two linked structures over the buffer heads: the circular free list and the hash chains (fs/buffer.c).
module Rings {
  import opened Sequences
  import opened Bytes

  // -1 stands for a NULL pointer; a pointer to a buffer head is its index
  datatype Head = Head(dev: int, nr: int, uptodate: bool, dirt: bool, count: int, lock: bool,
                       next: int, prev: int, nextFree: int, prevFree: int, data: Block)

  ghost predicate DistinctIn(xs: seq<int>, n: int) {
    && (forall i :: 0 <= i < |xs| ==> 0 <= xs[i] < n)
    && (forall i, j :: 0 <= i < j < |xs| ==> xs[i] != xs[j])
  }

  function Succ(xs: seq<int>, i: int): int requires 0 <= i < |xs| { if i + 1 < |xs| then xs[i + 1] else xs[0] }
  function Pred(xs: seq<int>, i: int): int requires 0 <= i < |xs| { if i > 0 then xs[i - 1] else xs[|xs| - 1] }

  // ring lists, from the list head on, the buffers of a circular doubly linked list
  ghost predicate RingOk(bh: seq<Head>, free: int, ring: seq<int>) {
    && |ring| > 0 && DistinctIn(ring, |bh|) && ring[0] == free
    && forall i :: 0 <= i < |ring| ==> bh[ring[i]].nextFree == Succ(ring, i) && bh[ring[i]].prevFree == Pred(ring, i)
  }

  lemma WithoutDistinct(xs: seq<int>, k: int, n: int)
    requires DistinctIn(xs, n) && 0 <= k < |xs|
    ensures DistinctIn(Without(xs, k), n) && xs[k] !in Without(xs, k)
  {}

  function UnlinkFree(bh: seq<Head>, x: int): seq<Head>
    requires 0 <= x < |bh| && 0 <= bh[x].prevFree < |bh| && 0 <= bh[x].nextFree < |bh|
  {
    var p, n := bh[x].prevFree, bh[x].nextFree;
    var b1 := bh[p := bh[p].(nextFree := n)];
    b1[n := b1[n].(prevFree := p)]
  }

  // Neighbours in a ring that loses its k-th member.
  lemma WithoutSucc(ring: seq<int>, k: int, i: int)
    requires 0 <= k < |ring| && |ring| >= 2 && 0 <= i < |ring| - 1
    ensures var j := if i < k then i else i + 1;
      && Without(ring, k)[i] == ring[j]
      && Succ(Without(ring, k), i)
        == (if j + 1 == k || (j + 1 == |ring| && k == 0) then Succ(ring, k) else Succ(ring, j))
      && Pred(Without(ring, k), i)
        == (if j == k + 1 || (j == 0 && k == |ring| - 1) then Pred(ring, k) else Pred(ring, j))
  {}

  lemma UnlinkFreeHeads(bh: seq<Head>, x: int, y: int)
    requires 0 <= x < |bh| && 0 <= y < |bh| && 0 <= bh[x].prevFree < |bh| && 0 <= bh[x].nextFree < |bh|
    ensures UnlinkFree(bh, x)[y].nextFree == if y == bh[x].prevFree then bh[x].nextFree else bh[y].nextFree
    ensures UnlinkFree(bh, x)[y].prevFree == if y == bh[x].nextFree then bh[x].prevFree else bh[y].prevFree
  {}

  lemma UnlinkFreeOk(bh: seq<Head>, free: int, ring: seq<int>, k: int)
    requires RingOk(bh, free, ring) && 0 <= k < |ring| && |ring| >= 2
    ensures 0 <= bh[ring[k]].prevFree < |bh| && 0 <= bh[ring[k]].nextFree < |bh|
    ensures RingOk(UnlinkFree(bh, ring[k]), if free == ring[k] then bh[ring[k]].nextFree else free, Without(ring, k))
  {
    hide UnlinkFree;
    var x, r := ring[k], Without(ring, k);
    NeighboursOk(bh, free, ring, k);
    WithoutDistinct(ring, k, |bh|);
    var b := UnlinkFree(bh, x);
    assert |b| == |bh| by { UnlinkFreeSize(bh, x); }
    forall i | 0 <= i < |r| ensures b[r[i]].nextFree == Succ(r, i) && b[r[i]].prevFree == Pred(r, i) {
      UnlinkedAt(bh, free, ring, k, i);
    }
  }

  lemma NeighboursOk(bh: seq<Head>, free: int, ring: seq<int>, k: int)
    requires RingOk(bh, free, ring) && 0 <= k < |ring|
    ensures bh[ring[k]].nextFree == Succ(ring, k) && bh[ring[k]].prevFree == Pred(ring, k)
    ensures 0 <= bh[ring[k]].prevFree < |bh| && 0 <= bh[ring[k]].nextFree < |bh|
  {}

  lemma UnlinkFreeSize(bh: seq<Head>, x: int)
    requires 0 <= x < |bh| && 0 <= bh[x].prevFree < |bh| && 0 <= bh[x].nextFree < |bh|
    ensures |UnlinkFree(bh, x)| == |bh|
  {}

  lemma UnlinkedAt(bh: seq<Head>, free: int, ring: seq<int>, k: int, i: int)
    requires RingOk(bh, free, ring) && 0 <= k < |ring| && |ring| >= 2 && 0 <= i < |ring| - 1
    requires 0 <= bh[ring[k]].prevFree < |bh| && 0 <= bh[ring[k]].nextFree < |bh|
    ensures 0 <= Without(ring, k)[i] < |bh| == |UnlinkFree(bh, ring[k])|
    ensures var b, r := UnlinkFree(bh, ring[k]), Without(ring, k);
      b[r[i]].nextFree == Succ(r, i) && b[r[i]].prevFree == Pred(r, i)
  {
    hide UnlinkFree, Without;
    var j := if i < k then i else i + 1;
    NeighboursOk(bh, free, ring, k);
    NeighboursOk(bh, free, ring, j);
    WithoutSucc(ring, k, i);
    UnlinkFreeSize(bh, ring[k]);
    UnlinkFreeHeads(bh, ring[k], ring[j]);
  }

  // x goes to the end of the free list: just before its head
  function LinkFree(bh: seq<Head>, free: int, x: int): seq<Head>
    requires 0 <= x < |bh| && 0 <= free < |bh| && 0 <= bh[free].prevFree < |bh|
  {
    var l := bh[free].prevFree;
    var b1 := bh[x := bh[x].(nextFree := free, prevFree := l)];
    var b2 := b1[l := b1[l].(nextFree := x)];
    b2[free := b2[free].(prevFree := x)]
  }

  lemma LinkFreeOk(bh: seq<Head>, free: int, ring: seq<int>, x: int)
    requires RingOk(bh, free, ring) && 0 <= x < |bh| && x !in ring
    ensures 0 <= bh[free].prevFree < |bh| && RingOk(LinkFree(bh, free, x), free, ring + [x])
  {
    var r := ring + [x];
    assert bh[ring[0]].prevFree == Pred(ring, 0);
    var b := LinkFree(bh, free, x);
    forall i | 0 <= i < |r| ensures b[r[i]].nextFree == Succ(r, i) && b[r[i]].prevFree == Pred(r, i) {
      LinkFreeAt(bh, free, ring, x, i);
    }
  }

  lemma LinkFreeAt(bh: seq<Head>, free: int, ring: seq<int>, x: int, i: int)
    requires RingOk(bh, free, ring) && 0 <= x < |bh| && x !in ring && 0 <= i <= |ring|
    requires bh[free].prevFree == ring[|ring| - 1]
    ensures var r, b := ring + [x], LinkFree(bh, free, x);
      b[r[i]].nextFree == Succ(r, i) && b[r[i]].prevFree == Pred(r, i)
  {
    if i < |ring| {
      var y := ring[i];
      assert y != x && bh[y].nextFree == Succ(ring, i) && bh[y].prevFree == Pred(ring, i);
      assert y == free <==> i == 0;
      assert y == ring[|ring| - 1] <==> i == |ring| - 1;
    }
  }

  // ---- hash chains
  function Next(xs: seq<int>, i: int): int requires 0 <= i < |xs| { if i + 1 < |xs| then xs[i + 1] else -1 }
  function Prev(xs: seq<int>, i: int): int requires 0 <= i < |xs| { if i > 0 then xs[i - 1] else -1 }
  function First(xs: seq<int>): int { if xs == [] then -1 else xs[0] }

  ghost predicate ChainOk(bh: seq<Head>, head: int, chain: seq<int>) {
    && DistinctIn(chain, |bh|) && head == First(chain)
    && forall i :: 0 <= i < |chain| ==> bh[chain[i]].next == Next(chain, i) && bh[chain[i]].prev == Prev(chain, i)
  }

  function UnlinkHash(bh: seq<Head>, x: int): seq<Head>
    requires 0 <= x < |bh| && -1 <= bh[x].next < |bh| && -1 <= bh[x].prev < |bh|
  {
    var n, p := bh[x].next, bh[x].prev;
    var b1 := if n != -1 then bh[n := bh[n].(prev := p)] else bh;
    if p != -1 then b1[p := b1[p].(next := n)] else b1
  }

  lemma WithoutNext(chain: seq<int>, k: int, i: int)
    requires 0 <= k < |chain| && 0 <= i < |chain| - 1
    ensures var j := if i < k then i else i + 1;
      && Without(chain, k)[i] == chain[j]
      && Next(Without(chain, k), i) == (if j + 1 == k then Next(chain, k) else Next(chain, j))
      && Prev(Without(chain, k), i) == (if j == k + 1 then Prev(chain, k) else Prev(chain, j))
  {}

  lemma UnlinkHashHeads(bh: seq<Head>, x: int, y: int)
    requires 0 <= x < |bh| && 0 <= y < |bh| && -1 <= bh[x].next < |bh| && -1 <= bh[x].prev < |bh|
    ensures UnlinkHash(bh, x)[y].next == if y == bh[x].prev then bh[x].next else bh[y].next
    ensures UnlinkHash(bh, x)[y].prev == if y == bh[x].next then bh[x].prev else bh[y].prev
  {}

  lemma UnlinkHashOk(bh: seq<Head>, head: int, chain: seq<int>, k: int)
    requires ChainOk(bh, head, chain) && 0 <= k < |chain|
    ensures -1 <= bh[chain[k]].next < |bh| && -1 <= bh[chain[k]].prev < |bh|
    ensures ChainOk(UnlinkHash(bh, chain[k]), if head == chain[k] then bh[chain[k]].next else head, Without(chain, k))
  {
    var x := chain[k];
    var c := Without(chain, k);
    assert bh[x].next == Next(chain, k) && bh[x].prev == Prev(chain, k);
    WithoutDistinct(chain, k, |bh|);
    var b := UnlinkHash(bh, x);
    hide UnlinkHash;
    forall i | 0 <= i < |c| ensures b[c[i]].next == Next(c, i) && b[c[i]].prev == Prev(c, i) {
      var j := if i < k then i else i + 1;
      WithoutNext(chain, k, i);
      UnlinkHashHeads(bh, x, chain[j]);
      assert bh[chain[j]].next == Next(chain, j) && bh[chain[j]].prev == Prev(chain, j);
    }
  }

  // x becomes the first of its chain
  function LinkHash(bh: seq<Head>, head: int, x: int): seq<Head>
    requires 0 <= x < |bh| && -1 <= head < |bh|
  {
    var b1 := bh[x := bh[x].(prev := -1, next := head)];
    if head != -1 then b1[head := b1[head].(prev := x)] else b1
  }

  lemma LinkHashOk(bh: seq<Head>, head: int, chain: seq<int>, x: int)
    requires ChainOk(bh, head, chain) && 0 <= x < |bh| && x !in chain
    ensures -1 <= head < |bh| && ChainOk(LinkHash(bh, head, x), x, [x] + chain)
  {
    var c := [x] + chain;
    var b := LinkHash(bh, head, x);
    forall i | 0 <= i < |c| ensures b[c[i]].next == Next(c, i) && b[c[i]].prev == Prev(c, i) {
      if i > 0 { assert c[i] == chain[i - 1] && bh[chain[i - 1]].next == Next(chain, i - 1)
        && bh[chain[i - 1]].prev == Prev(chain, i - 1); }
    }
  }

  // A chain does not notice a write that leaves its members' links alone.
  lemma ChainKept(bh: seq<Head>, b: seq<Head>, head: int, chain: seq<int>)
    requires ChainOk(bh, head, chain) && |b| == |bh|
    requires forall i :: 0 <= i < |chain| ==>
      b[chain[i]].next == bh[chain[i]].next && b[chain[i]].prev == bh[chain[i]].prev
    ensures ChainOk(b, head, chain)
  {}

  lemma RingKept(bh: seq<Head>, b: seq<Head>, free: int, ring: seq<int>)
    requires RingOk(bh, free, ring) && |b| == |bh|
    requires forall i :: 0 <= i < |ring| ==>
      b[ring[i]].nextFree == bh[ring[i]].nextFree && b[ring[i]].prevFree == bh[ring[i]].prevFree
    ensures RingOk(b, free, ring)
  {}
}
