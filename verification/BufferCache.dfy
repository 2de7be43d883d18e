// The buffer cache over the ramdisk (fs/buffer.c, kernel/blk_drv/ll_rw_blk.c, kernel/blk_drv/ramdisk.c).
module BufferCache {
  import opened Bytes
  import opened Rings
  import opened CacheState
  import opened Coherence

  ghost predicate Linked(c: Cache) { exists l :: Struct(c, l, -1) }

  function Badness(h: Head): int { (if h.dirt then 2 else 0) + if h.lock then 1 else 0 }

  // ---- one request, from ll_rw_block to end_request
  function Transfer(c: Cache, x: int, write: bool): Cache
    requires 0 <= x < |c.bh| && 0 <= c.bh[x].nr
  {
    var h := c.bh[x];
    if h.dev / 256 != 1 || (write && !h.dirt) || (!write && h.uptodate) then c
    else if h.dev % 256 != 1 || h.nr >= |c.disk| then c.(bh := c.bh[x := h.(dirt := false, uptodate := false)])
    else if write then WriteOut(c, x)
    else ReadIn(c.(bh := c.bh[x := h.(dirt := false)]), x)
  }

  lemma TransferStruct(c: Cache, x: int, write: bool)
    requires Linked(c) && 0 <= x < |c.bh| && 0 <= c.bh[x].nr
    ensures Linked(Transfer(c, x, write))
  {
    hide Struct;
    var l :| Struct(c, l, -1);
    StructKept(c, Transfer(c, x, write), l);
  }

  lemma LinkedUnique(c: Cache)
    requires Linked(c)
    ensures Unique(c.bh, -1) && |c.bh| >= 2
  {}

  // Neither a read nor a write of a coherent cache changes what any block means.
  lemma TransferLogical(c: Cache, x: int, write: bool)
    requires Linked(c) && Coherent(c) && 0 <= x < |c.bh| && 0 <= c.bh[x].nr
    ensures Coherent(Transfer(c, x, write)) && Logical(Transfer(c, x, write)) == Logical(c)
  {
    LinkedUnique(c);
    assert Sound(c.bh[x], c.disk);
    TransferCases(c, x, write);
    var c' := Transfer(c, x, write);
    hide Linked, Unique, Transfer, Logical;
    if c' == c {
    } else if write {
      WriteOutLogical(c, x);
    } else {
      ReadInLogical(c, x);
    }
  }

  // On a coherent cache a request does nothing, or writes a dirty buffer out, or reads a stale one in.
  lemma TransferCases(c: Cache, x: int, write: bool)
    requires 0 <= x < |c.bh| && 0 <= c.bh[x].nr && Sound(c.bh[x], c.disk)
    ensures var h := c.bh[x];
      if write then Transfer(c, x, write) == if h.dirt then WriteOut(c, x) else c
      else Transfer(c, x, write) == if !h.uptodate && Stored(h.dev, h.nr, c.disk) then ReadIn(c, x) else c
  {}

  // The free list is one list: any two readings of the links agree.
  lemma {:induction false} RingAgree(bh: seq<Head>, free: int, r: seq<int>, s: seq<int>, i: int)
    requires RingOk(bh, free, r) && RingOk(bh, free, s) && 0 <= i < |r| && i < |s|
    ensures r[i] == s[i]
  {
    if i > 0 {
      RingAgree(bh, free, r, s, i - 1);
      assert bh[r[i - 1]].nextFree == Succ(r, i - 1) && bh[s[i - 1]].nextFree == Succ(s, i - 1);
    }
  }

  lemma RingOnce(bh: seq<Head>, free: int, r: seq<int>, s: seq<int>)
    requires RingOk(bh, free, r) && RingOk(bh, free, s) && |r| <= |s|
    ensures r == s
  {
    forall i | 0 <= i < |r| ensures r[i] == s[i] { RingAgree(bh, free, r, s, i); }
    var e := |r| - 1;
    assert bh[r[e]].nextFree == Succ(r, e) && bh[s[e]].nextFree == Succ(s, e);
  }

  // Of the unheld buffers among the first n of the free list, x = ring[k] is the one getblk keeps: the first of the
  // least badness.
  ghost predicate Best(bh: seq<Head>, ring: seq<int>, n: int, k: int)
    requires DistinctIn(ring, |bh|) && n <= |ring|
  {
    && 0 <= k < n && bh[ring[k]].count == 0
    && (forall i :: 0 <= i < k && bh[ring[i]].count == 0 ==> Badness(bh[ring[i]]) > Badness(bh[ring[k]]))
    && (forall i :: k < i < n && bh[ring[i]].count == 0 ==> Badness(bh[ring[i]]) >= Badness(bh[ring[k]]))
  }

  ghost predicate AllHeld(bh: seq<Head>, ring: seq<int>, n: int)
    requires DistinctIn(ring, |bh|) && n <= |ring|
  { forall i :: 0 <= i < n ==> bh[ring[i]].count != 0 }

  ghost predicate Scanned(bh: seq<Head>, ring: seq<int>, n: int, x: int, k: int) {
    && DistinctIn(ring, |bh|) && 0 <= n <= |ring|
    && if x == -1 then AllHeld(bh, ring, n) else Best(bh, ring, n, k) && ring[k] == x
  }

  lemma ScanStart(c: Cache, l: Links)
    requires Struct(c, l, -1)
    ensures RingOk(c.bh, c.free, l.ring) && Scanned(c.bh, l.ring, 0, -1, 0) && |l.ring| > 0 && l.ring[0] == c.free
    ensures 0 <= c.free < |c.bh|
  {}

  lemma ScanStep(bh: seq<Head>, ring: seq<int>, n: int, x: int, k: int)
    requires Scanned(bh, ring, n, x, k) && n < |ring|
    ensures var y := ring[n];
      if bh[y].count == 0 && (x == -1 || Badness(bh[y]) < Badness(bh[x]))
      then Scanned(bh, ring, n + 1, y, n) && (Badness(bh[y]) == 0 ==> Scanned(bh, ring, |ring|, y, n))
      else Scanned(bh, ring, n + 1, x, k)
  {}

  lemma RingNext(bh: seq<Head>, free: int, ring: seq<int>, n: int)
    requires RingOk(bh, free, ring) && 0 <= n < |ring|
    ensures 0 <= ring[n] < |bh| && (bh[ring[n]].nextFree == free <==> n + 1 == |ring|)
    ensures n + 1 < |ring| ==> bh[ring[n]].nextFree == ring[n + 1]
  {}

  // What the scan finds, said of all buffers.
  lemma ScanEnd(c: Cache, l: Links, x: int, k: int)
    requires Struct(c, l, -1) && Scanned(c.bh, l.ring, |l.ring|, x, k)
    ensures x == -1 ==> forall y :: 0 <= y < |c.bh| ==> c.bh[y].count != 0
    ensures x != -1 ==> 0 <= x < |c.bh| && c.bh[x].count == 0
    ensures x != -1 ==> forall y :: 0 <= y < |c.bh| && c.bh[y].count == 0 ==> Badness(c.bh[y]) >= Badness(c.bh[x])
    ensures x != -1 ==> FirstBest(c, x)
  {
    hide OnChains, Unique;
    assert RingOk(c.bh, c.free, l.ring);
    forall y | 0 <= y < |c.bh| ensures x == -1 ==> c.bh[y].count != 0
      ensures x != -1 && c.bh[y].count == 0 ==> Badness(c.bh[y]) >= Badness(c.bh[x])
    {
      assert y in l.ring;
      var i :| 0 <= i < |l.ring| && l.ring[i] == y;
    }
  }

  // x comes first on the free list among the unheld buffers of least badness.
  ghost predicate FirstBest(c: Cache, x: int) {
    exists ring, k :: RingOk(c.bh, c.free, ring) && Best(c.bh, ring, |ring|, k) && ring[k] == x
  }

  // None of the first k buffers of the chain has the key.
  ghost predicate Passed(bh: seq<Head>, chain: seq<int>, k: int, dev: int, nr: int) {
    && 0 <= k <= |chain| && (forall i :: 0 <= i < |chain| ==> 0 <= chain[i] < |bh| && bh[chain[i]].dev != 0)
    && (forall i :: 0 <= i < |chain| ==> bh[chain[i]].next == Next(chain, i))
    && (forall i :: 0 <= i < k ==> bh[chain[i]].dev != dev || bh[chain[i]].nr != nr)
  }

  lemma ChainOfKey(c: Cache, l: Links, dev: int, nr: int)
    requires Struct(c, l, -1)
    ensures |c.hash| == NR_HASH == |l.chains|
    ensures var ch := l.chains[Hash(dev, nr)];
      Passed(c.bh, ch, 0, dev, nr) && c.hash[Hash(dev, nr)] == (if |ch| > 0 then ch[0] else -1)
      && -1 <= c.hash[Hash(dev, nr)] < |c.bh|
  {}

  lemma ChainStep(bh: seq<Head>, chain: seq<int>, k: int, dev: int, nr: int)
    requires Passed(bh, chain, k, dev, nr) && k < |chain|
    ensures 0 <= chain[k] < |bh| && bh[chain[k]].dev != 0
    ensures bh[chain[k]].next == (if k + 1 < |chain| then chain[k + 1] else -1)
    ensures -1 <= bh[chain[k]].next < |bh|
    ensures bh[chain[k]].dev != dev || bh[chain[k]].nr != nr ==> Passed(bh, chain, k + 1, dev, nr)
  {}

  lemma NotCached(c: Cache, l: Links, dev: int, nr: int)
    requires Struct(c, l, -1) && Passed(c.bh, l.chains[Hash(dev, nr)], |l.chains[Hash(dev, nr)]|, dev, nr)
    ensures !HasKey(c, dev, nr)
  {
    var h := Hash(dev, nr);
    hide Hash, ChainOk;
    forall y | 0 <= y < |c.bh| && dev != 0 ensures c.bh[y].dev != dev || c.bh[y].nr != nr {
      assert y in l.chains[h] <==> y != -1 && c.bh[y].dev != 0 && HashOf(c.bh[y]) == h;
    }
  }

  // A head as buffer_init sets it up, before the two ends of the list are joined.
  function Blank(data: Block, i: int): Head {
    Head(0, 0, false, false, 0, false, -1, -1, i + 1, i - 1, data)
  }

  ghost predicate Initial(c: Cache) {
    && |c.bh| >= 2 && c.free == 0 && |c.hash| == NR_HASH && (forall h :: 0 <= h < NR_HASH ==> c.hash[h] == -1)
    && forall i :: 0 <= i < |c.bh| ==> c.bh[i] == Blank(c.bh[i].data, i).(
      prevFree := if i == 0 then |c.bh| - 1 else i - 1, nextFree := if i == |c.bh| - 1 then 0 else i + 1)
  }

  ghost function InitialLinks(n: int): Links requires n >= 0 { Links(seq(n, i => i), seq(NR_HASH, _ => [])) }

  lemma InitialRing(c: Cache)
    requires Initial(c)
    ensures OnRing(c, InitialLinks(|c.bh|), -1)
  {
    var r := InitialLinks(|c.bh|).ring;
    forall x | 0 <= x < |c.bh| ensures x in r { assert r[x] == x; }
  }

  lemma InitialChains(c: Cache)
    requires Initial(c)
    ensures OnChains(c, InitialLinks(|c.bh|), -1) && Unique(c.bh, -1)
  {}

  lemma InitOk(c: Cache)
    requires Initial(c)
    ensures Linked(c) && Coherent(c) && Logical(c) == c.disk
  {
    InitialRing(c);
    InitialChains(c);
    hide OnRing, OnChains, Unique;
    assert Struct(c, InitialLinks(|c.bh|), -1);
    CleanLogical(c);
  }

  class Buffers {
    const bh: array<Head>
    const hash: array<int>
    var free: int
    const disk: array<Block>

    ghost function St(): Cache reads this, bh, hash, disk { Cache(bh[..], hash[..], free, disk[..]) }
    ghost predicate Apart() { bh as object != hash && bh as object != disk && hash as object != disk }
    ghost predicate Valid() reads this, bh, hash, disk { Apart() && Linked(St()) && Coherent(St()) }

    // buffer_init: n heads in a ring, none with a device. What the memory of the data areas held does not matter.
    constructor (n: int, data: seq<Block>, image: seq<Block>)
      requires n >= 2 && |data| == n
      ensures Valid() && fresh(bh) && fresh(hash) && fresh(disk) && bh.Length == n
      ensures St().disk == image && Logical(St()) == image
      ensures forall x :: 0 <= x < n ==> bh[x].count == 0 && bh[x].dev == 0
    {
      var heads := new Head[n](i requires 0 <= i < n => Blank(data[i], 0));
      for i := 0 to n
        invariant forall j :: 0 <= j < i ==> heads[j] == Blank(data[j], j)
      {
        heads[i] := Blank(data[i], i);
      }
      var table := new int[NR_HASH](_ => -1);
      var blocks := new Block[|image|](i requires 0 <= i < |image| => image[i]);
      bh, hash, disk, free := heads, table, blocks, 0;
      new;
      bh[0] := bh[0].(prevFree := n - 1);
      bh[n - 1] := bh[n - 1].(nextFree := 0);
      assert disk[..] == image;
      InitOk(St());
    }

    // find_buffer: walk the hash chain of the key.
    method FindBuffer(dev: int, nr: int) returns (x: int)
      requires Apart() && Linked(St())
      ensures -1 <= x < bh.Length
      ensures x != -1 ==> bh[x].dev == dev && bh[x].nr == nr && dev != 0
      ensures x == -1 ==> !HasKey(St(), dev, nr)
    {
      ghost var l :| Struct(St(), l, -1);
      ghost var b, chain, k := bh[..], l.chains[Hash(dev, nr)], 0;
      ChainOfKey(St(), l, dev, nr);
      hide *;
      x := hash[Hash(dev, nr)];
      while x != -1
        invariant 0 <= k <= |chain| && x == (if k < |chain| then chain[k] else -1) && -1 <= x < bh.Length
        invariant Passed(b, chain, k, dev, nr)
        decreases |chain| - k
      {
        ChainStep(b, chain, k, dev, nr);
        if bh[x].dev == dev && bh[x].nr == nr { return; }
        x := bh[x].next;
        k := k + 1;
      }
      NotCached(St(), l, dev, nr);
    }

    // One turn of the scan: keep the better of x and tmp, and stop at one that could not be better.
    method Consider(tmp: int, x: int, ghost ring: seq<int>, ghost n: int, ghost k: int)
      returns (x': int, stop: bool, ghost k': int)
      requires 0 <= n < |ring| && 0 <= tmp < bh.Length && tmp == ring[n] && -1 <= x < bh.Length
      requires Scanned(bh[..], ring, n, x, k)
      ensures -1 <= x' < bh.Length && Scanned(bh[..], ring, if stop then |ring| else n + 1, x', k')
    {
      ScanStep(bh[..], ring, n, x, k);
      hide Scanned;
      x', stop, k' := x, false, k;
      if bh[tmp].count == 0 && (x == -1 || Badness(bh[tmp]) < Badness(bh[x])) {
        x', stop, k' := tmp, Badness(bh[tmp]) == 0, n;
      }
    }

    // The scan of the free list in getblk.
    method Victim() returns (x: int)
      requires Apart() && Linked(St())
      ensures -1 <= x < bh.Length
      ensures x == -1 ==> forall y :: 0 <= y < bh.Length ==> bh[y].count != 0
      ensures x != -1 ==>
        bh[x].count == 0 && forall y :: 0 <= y < bh.Length && bh[y].count == 0 ==> Badness(bh[y]) >= Badness(bh[x])
      ensures x != -1 ==> FirstBest(St(), x)
    {
      ghost var l :| Struct(St(), l, -1);
      ghost var b, ring, n, k := bh[..], l.ring, 0, 0;
      ScanStart(St(), l);
      hide *;
      var tmp, stop := free, false;
      x := -1;
      while !stop
        invariant 0 <= n <= |ring| && -1 <= x < bh.Length && Scanned(b, ring, n, x, k)
        invariant if stop then n == |ring| else n < |ring| && 0 <= tmp < bh.Length && tmp == ring[n]
        decreases |ring| - n
      {
        x, stop, k := Consider(tmp, x, ring, n, k);
        RingNext(b, free, ring, n);
        n := if stop then |ring| else n + 1;
        if !stop {
          tmp := bh[tmp].nextFree;
          stop := tmp == free;
        }
      }
      ScanEnd(St(), l, x, k);
    }

    method Put(x: int, h: Head)
      requires Apart() && 0 <= x < bh.Length
      modifies bh
      ensures St() == old(St()).(bh := old(St()).bh[x := h])
    { bh[x] := h; }

    // remove_from_queues, first the hash chain and then the free list
    method LeaveChain(x: int)
      requires Apart() && 0 <= x < bh.Length && hash.Length == NR_HASH && -1 <= bh[x].next < bh.Length
      requires -1 <= bh[x].prev < bh.Length
      modifies bh, hash
      ensures St() == RemoveHash(old(St()), x)
    {
      ghost var c := St();
      hide Hash;
      var next, prev := bh[x].next, bh[x].prev;
      if next != -1 { bh[next] := bh[next].(prev := prev); }
      if prev != -1 { bh[prev] := bh[prev].(next := next); }
      assert bh[..] == UnlinkHash(c.bh, x);
      UnlinkHashFields(c.bh, x, x);
      hide UnlinkHash;
      var key := HashOf(bh[x]);
      if hash[key] == x { hash[key] := next; }
    }

    method LeaveRing(x: int)
      requires Apart() && 0 <= x < bh.Length && 0 <= bh[x].nextFree < bh.Length && 0 <= bh[x].prevFree < bh.Length
      modifies this`free, bh
      ensures St() == RemoveRing(old(St()), x)
    {
      var n, p := bh[x].nextFree, bh[x].prevFree;
      bh[p] := bh[p].(nextFree := n);
      bh[n] := bh[n].(prevFree := p);
      if free == x { free := n; }
    }

    method RemoveFromQueues(x: int, ghost l: Links)
      requires Apart() && 0 <= x < bh.Length && Struct(St(), l, -1)
      modifies this`free, bh, hash
      ensures St() == Removed(old(St()), l, x)
    {
      ghost var c := St();
      RemovedSteps(c, l, x);
      hide *;
      LeaveChain(x);
      LeaveRing(x);
    }

    // insert_into_queues: last on the free list, first on its hash chain
    method JoinRing(x: int)
      requires Apart() && 0 <= x < bh.Length && 0 <= free < bh.Length && 0 <= bh[free].prevFree < bh.Length
      modifies bh
      ensures St() == InsertRing(old(St()), x)
    {
      var last := bh[free].prevFree;
      bh[x] := bh[x].(nextFree := free, prevFree := last);
      bh[last] := bh[last].(nextFree := x);
      bh[free] := bh[free].(prevFree := x);
    }

    method JoinChain(x: int)
      requires Apart() && 0 <= x < bh.Length && hash.Length == NR_HASH && -1 <= hash[HashOf(bh[x])] < bh.Length
      modifies bh, hash
      ensures St() == InsertHash(old(St()), x)
    {
      ghost var c := St();
      hide Hash;
      bh[x] := bh[x].(prev := -1, next := -1);
      if bh[x].dev == 0 { return; }
      var key := HashOf(bh[x]);
      var head := hash[key];
      bh[x] := bh[x].(next := head);
      hash[key] := x;
      if head != -1 { bh[head] := bh[head].(prev := x); }
      assert bh[..] == LinkHash(c.bh, head, x);
    }

    method InsertIntoQueues(x: int, ghost l: Links)
      requires Apart() && 0 <= x < bh.Length && OnRing(St(), l, x) && OnChains(St(), l, x)
      modifies bh, hash
      ensures St() == Inserted(old(St()), l, x)
    {
      ghost var c := St();
      InsertedSteps(c, l, x);
      hide *;
      JoinRing(x);
      JoinChain(x);
    }

    // The last steps of getblk: a clean unheld buffer becomes the buffer of another block.
    method Take(x: int, dev: int, nr: int)
      requires Apart() && 0 <= x < bh.Length && Linked(St()) && !HasKey(St(), dev, nr)
      modifies this`free, bh, hash
      ensures Linked(St()) && St().disk == old(St()).disk
      ensures SameBodies(St().bh, old(St()).bh[x := Taken(old(bh[x]), dev, nr)])
    {
      ghost var c := St();
      ghost var l :| Struct(c, l, -1);
      bh[x] := bh[x].(count := 1, dirt := false, uptodate := false);
      ghost var c1 := St();
      ClaimOk(c, l, x);
      RemovedOk(c1, l, x);
      hide *;
      RemoveFromQueues(x, l);
      ghost var c2, l2 := St(), var l2 :| OnRing(St(), l2, x) && OnChains(St(), l2, x); l2;
      Put(x, bh[x].(dev := dev, nr := nr));
      OutChanges(c2, l2, x, c2.bh[x].(dev := dev, nr := nr));
      ghost var c3 := St();
      InsertedOk(c3, l2, x);
      InsertIntoQueues(x, l2);
      TakeOk(c, x, dev, nr, c2, St());
    }

    // ll_rw_block, make_request, add_request and do_rd_request for a queue that is empty: the request is done at once.
    method LlRwBlock(x: int, write: bool)
      requires Apart() && 0 <= x < bh.Length && 0 <= bh[x].nr && !bh[x].lock
      modifies bh, disk
      ensures St() == Transfer(old(St()), x, write)
    {
      ghost var c := St();
      if bh[x].dev / 256 != 1 { return; }
      bh[x] := bh[x].(lock := true);
      if (write && !bh[x].dirt) || (!write && bh[x].uptodate) {
        bh[x] := bh[x].(lock := false);
        assert bh[..] == c.bh;
        return;
      }
      bh[x] := bh[x].(dirt := false);
      if bh[x].dev % 256 != 1 || bh[x].nr >= disk.Length {
        bh[x] := bh[x].(uptodate := false, lock := false);
      } else {
        if write { disk[bh[x].nr] := bh[x].data; } else { bh[x] := bh[x].(data := disk[bh[x].nr]); }
        bh[x] := bh[x].(uptodate := true, lock := false);
      }
    }

    // One of sync_dev's two rounds over the buffers.
    method SyncRound(dev: int)
      requires Valid()
      modifies bh, disk
      ensures Valid() && Synced(old(St()), St(), dev, bh.Length)
    {
      ghost var c := St();
      SyncedStart(c, dev);
      hide *;
      for i := 0 to bh.Length
        invariant Apart() && Synced(c, St(), dev, i)
      {
        ghost var s := St();
        SyncStep(c, s, dev, i);
        if bh[i].dev == dev && bh[i].dirt { LlRwBlock(i, true); }
      }
      SyncedValid(c, St(), dev, bh.Length);
    }

    // sync_dev, for an inode table with nothing to write: afterwards no buffer of the device is dirty.
    method SyncDev(dev: int)
      requires Valid()
      modifies bh, disk
      ensures Valid() && Synced(old(St()), St(), dev, bh.Length)
      ensures dev == RAMDISK ==> St().disk == Logical(old(St()))
    {
      ghost var c := St();
      SyncRound(dev);
      ghost var s := St();
      SyncRound(dev);
      SyncedTwice(c, s, St(), dev);
      if dev == RAMDISK { SyncedDisk(c, St()); }
    }

    // get_hash_table
    method GetHashTable(dev: int, nr: int) returns (x: int)
      requires Valid()
      modifies bh
      ensures Valid() && -1 <= x < bh.Length
      ensures x == -1 ==> St() == old(St()) && !HasKey(St(), dev, nr)
      ensures x != -1 ==> Found(old(St()), St(), dev, nr, x)
    {
      ghost var c := St();
      hide Linked, Coherent;
      x := FindBuffer(dev, nr);
      if x != -1 {
        HeldOk(c, x, (c.bh[x].count + 1) % 256);
        Put(x, bh[x].(count := (bh[x].count + 1) % 256));
      }
    }

    // getblk; -1 is the sleep on buffer_wait, after which the caller starts again
    method Getblk(dev: int, nr: int) returns (x: int)
      requires Valid() && 0 <= dev < 0x1_0000 && 0 <= nr
      modifies this`free, bh, hash, disk
      ensures Valid() && Logical(St()) == Logical(old(St())) && -1 <= x < bh.Length
      ensures x == -1 <==> AllBusy(old(St())) && !HasKey(old(St()), dev, nr)
      ensures x == -1 ==> St() == old(St())
      ensures x != -1 ==> Found(old(St()), St(), dev, nr, x) || Replaced(old(St()), St(), dev, nr, x)
    {
      ghost var c := St();
      x := GetHashTable(dev, nr);
      if x != -1 {
        FoundLogical(c, St(), dev, nr, x);
        return;
      }
      x := Victim();
      if x == -1 { return; }
      assert !HasKey(c, dev, nr);
      hide *;
      var old_dev := bh[x].dev;
      UncleanStart(c);
      while bh[x].dirt
        invariant Valid() && Cleaned(c, St())
        invariant bh[x].dirt ==> St() == c && bh[x].dev == old_dev
        decreases bh[x].dirt
      {
        SyncDev(bh[x].dev);
        CleanedBy(c, St(), old_dev, x);
      }
      ghost var s := St();
      CleanedKeys(c, s, dev, nr);
      Take(x, dev, nr);
      ReplacedOk(c, s, St(), dev, nr, x);
    }

    // brelse of a held buffer
    method Brelse(x: int)
      requires Valid() && 0 <= x < bh.Length && bh[x].count > 0
      modifies bh
      ensures Valid() && Logical(St()) == Logical(old(St()))
      ensures St() == old(St()).(bh := old(St()).bh[x := old(bh[x]).(count := old(bh[x].count) - 1)])
    {
      ghost var c := St();
      assert Sound(c.bh[x], c.disk);
      HeldOk(c, x, c.bh[x].count - 1);
      hide *;
      Put(x, bh[x].(count := bh[x].count - 1));
    }

    // What users of a buffer do to change its block: fill in the data and mark it up to date and dirty.
    method Store(x: int, b: Block)
      requires Valid() && 0 <= x < bh.Length && Stored(bh[x].dev, bh[x].nr, disk[..])
      modifies bh
      ensures Valid() && St() == Fill(old(St()), x, b)
      ensures Logical(St()) == Logical(old(St()))[bh[x].nr := b]
    {
      ghost var c := St();
      StoreOk(c, x, b);
      hide *;
      Put(x, bh[x].(data := b, uptodate := true, dirt := true));
    }

    // bread
    method Bread(dev: int, nr: int) returns (r: Got)
      requires Valid() && 0 <= dev < 0x1_0000 && 0 <= nr
      modifies this`free, bh, hash, disk
      ensures Valid() && BreadSpec(old(St()), St(), dev, nr, r)
    {
      ghost var c := St();
      hide Linked, Coherent, Replaced, Found, BreadSpec, Logical, AllBusy, HasKey, Room;
      var x := Getblk(dev, nr);
      if x == -1 {
        BreadAsleep(c, dev, nr);
        return Asleep;
      }
      ghost var c1 := St();
      GainedOk(c, c1, dev, nr, x);
      LinkedUnique(c);
      RoomIs(c, c1, dev, nr, x);
      ReadOk(c, c1, dev, nr, x);
      ReadDoneHeld(c, c1, if c1.bh[x].uptodate then c1 else Transfer(c1, x, false), dev, nr, x);
      hide *;
      if !bh[x].uptodate { LlRwBlock(x, false); }
      ghost var c2 := St();
      if bh[x].uptodate {
        r := Buffer(x);
      } else if bh[x].count == 0 {
        r := Panic;
      } else {
        Brelse(x);
        r := Unreadable;
      }
      BreadEnd(c, c1, c2, St(), dev, nr, x, r);
    }
  }

  lemma RemovedSteps(c: Cache, l: Links, x: int)
    requires Struct(c, l, -1) && 0 <= x < |c.bh|
    ensures |c.hash| == NR_HASH && -1 <= c.bh[x].next < |c.bh| && -1 <= c.bh[x].prev < |c.bh|
    ensures var c1 := RemoveHash(c, x);
      && |c1.bh| == |c.bh| && 0 <= c1.bh[x].nextFree < |c.bh| && 0 <= c1.bh[x].prevFree < |c.bh|
        && Removed(c, l, x) == RemoveRing(c1, x)
  {
    LinksInRange(c, l, x);
    RemoveHashOk(c, l, x);
    UnlinkHashFields(c.bh, x, x);
    UnlinkHashSize(c.bh, x);
    hide Struct, UnlinkHash;
  }

  lemma InsertedSteps(c: Cache, l: Links, x: int)
    requires OnRing(c, l, x) && OnChains(c, l, x) && 0 <= x < |c.bh|
    ensures 0 <= c.free < |c.bh| && 0 <= c.bh[c.free].prevFree < |c.bh|
    ensures var c1 := InsertRing(c, x);
      && |c1.bh| == |c.bh| && |c1.hash| == NR_HASH && -1 <= c1.hash[HashOf(c1.bh[x])] < |c.bh|
        && Inserted(c, l, x) == InsertHash(c1, x)
      && c1.bh[x].dev == c.bh[x].dev && c1.bh[x].nr == c.bh[x].nr
  {}

  ghost predicate HasKey(c: Cache, dev: int, nr: int) {
    dev != 0 && exists y :: 0 <= y < |c.bh| && c.bh[y].dev == dev && c.bh[y].nr == nr
  }
  function Taken(h: Head, dev: int, nr: int): Head {
    h.(count := 1, dirt := false, uptodate := false, dev := dev, nr := nr)
  }

  lemma ClaimOk(c: Cache, l: Links, x: int)
    requires Struct(c, l, -1) && 0 <= x < |c.bh|
    ensures Struct(c.(bh := c.bh[x := c.bh[x].(count := 1, dirt := false, uptodate := false)]), l, -1)
  {
    var c' := c.(bh := c.bh[x := c.bh[x].(count := 1, dirt := false, uptodate := false)]);
    hide Struct;
    StructKept(c, c', l);
  }

  lemma TakeOk(c: Cache, x: int, dev: int, nr: int, c2: Cache, c': Cache)
    requires 0 <= x < |c.bh| && |c.bh| >= 2 && Unique(c.bh, -1) && !HasKey(c, dev, nr)
    requires SameBodies(c.bh[x := c.bh[x].(count := 1, dirt := false, uptodate := false)], c2.bh)
    requires SameBodies(c2.bh[x := c2.bh[x].(dev := dev, nr := nr)], c'.bh)
    requires exists l :: OnRing(c', l, -1) && OnChains(c', l, -1)
    ensures Linked(c') && SameBodies(c'.bh, c.bh[x := Taken(c.bh[x], dev, nr)])
  {
    var t := c.bh[x := Taken(c.bh[x], dev, nr)];
    forall y | 0 <= y < |t| ensures SameBody(c'.bh[y], t[y]) {
      assert SameBody(c.bh[x := c.bh[x].(count := 1, dirt := false, uptodate := false)][y], c2.bh[y]);
      assert SameBody(c2.bh[x := c2.bh[x].(dev := dev, nr := nr)][y], c'.bh[y]);
    }
    forall y, z | 0 <= y < z < |c'.bh| && c'.bh[y].dev != 0
      ensures c'.bh[y].dev != c'.bh[z].dev || c'.bh[y].nr != c'.bh[z].nr
    {
      assert SameBody(c'.bh[y], t[y]) && SameBody(c'.bh[z], t[z]);
    }
    var l :| OnRing(c', l, -1) && OnChains(c', l, -1);
    assert Struct(c', l, -1);
  }

  // c is c0 after sync_dev has gone through the first n buffers.
  ghost predicate Synced(c0: Cache, c: Cache, dev: int, n: int) {
    && Linked(c) && Coherent(c) && Logical(c) == Logical(c0) && |c.bh| == |c0.bh| && |c.disk| == |c0.disk|
      && c.hash == c0.hash && c.free == c0.free
    && forall y :: 0 <= y < |c.bh| ==> c.bh[y] == if y < n then Swept(c0.bh[y], dev) else c0.bh[y]
  }

  function Swept(h: Head, dev: int): Head { if h.dev == dev then h.(dirt := false) else h }

  lemma SyncedStart(c: Cache, dev: int)
    requires Linked(c) && Coherent(c)
    ensures Synced(c, c, dev, 0)
  {}

  lemma SyncStep(c0: Cache, c: Cache, dev: int, i: int)
    requires Synced(c0, c, dev, i) && 0 <= i < |c.bh|
    ensures !c.bh[i].lock && 0 <= c.bh[i].nr
    ensures Synced(c0, if c.bh[i].dev == dev && c.bh[i].dirt then Transfer(c, i, true) else c, dev, i + 1)
  {
    SyncedSound(c0, c, dev, i);
    hide *;
    if c.bh[i].dev == dev && c.bh[i].dirt { SyncWrite(c0, c, dev, i); } else { SyncSkip(c0, c, dev, i); }
  }

  lemma SyncedSound(c0: Cache, c: Cache, dev: int, i: int)
    requires Synced(c0, c, dev, i) && 0 <= i < |c.bh|
    ensures Sound(c.bh[i], c.disk) && !c.bh[i].lock && 0 <= c.bh[i].nr
  {}

  lemma SyncSkip(c0: Cache, c: Cache, dev: int, i: int)
    requires Synced(c0, c, dev, i) && 0 <= i < |c.bh| && !(c.bh[i].dev == dev && c.bh[i].dirt)
    ensures Synced(c0, c, dev, i + 1)
  {
    hide Linked, Coherent, Logical;
    assert Swept(c0.bh[i], dev) == c0.bh[i];
  }

  lemma SyncWrite(c0: Cache, c: Cache, dev: int, i: int)
    requires Synced(c0, c, dev, i) && 0 <= i < |c.bh| && c.bh[i].dev == dev && c.bh[i].dirt && Sound(c.bh[i], c.disk)
    ensures Synced(c0, Transfer(c, i, true), dev, i + 1)
  {
    TransferStruct(c, i, true);
    TransferLogical(c, i, true);
    TransferCases(c, i, true);
    hide Linked, Coherent, Logical, Transfer;
  }

  lemma SyncedValid(c0: Cache, c: Cache, dev: int, n: int)
    requires Synced(c0, c, dev, n)
    ensures Linked(c) && Coherent(c)
  {}

  lemma SyncedTwice(c0: Cache, c1: Cache, c2: Cache, dev: int)
    requires Synced(c0, c1, dev, |c0.bh|) && Synced(c1, c2, dev, |c0.bh|)
    ensures Synced(c0, c2, dev, |c0.bh|)
  {}

  lemma SyncedDisk(c0: Cache, c: Cache)
    requires Synced(c0, c, RAMDISK, |c0.bh|)
    ensures c.disk == Logical(c0)
  {}

  ghost predicate AllBusy(c: Cache) { forall y :: 0 <= y < |c.bh| ==> c.bh[y].count != 0 }

  // The block was cached: its buffer gains a user and nothing else changes.
  ghost predicate Found(c: Cache, c': Cache, dev: int, nr: int, x: int) {
    && 0 <= x < |c.bh| && c.bh[x].dev == dev && c.bh[x].nr == nr && dev != 0
    && c' == c.(bh := c.bh[x := c.bh[x].(count := (c.bh[x].count + 1) % 256)])
  }

  // c' is c after some dirty buffers were written to disk.
  ghost predicate Cleaned(c: Cache, c': Cache) {
    && |c'.bh| == |c.bh| && Logical(c') == Logical(c) && |c'.disk| == |c.disk|
    && forall y :: 0 <= y < |c.bh| ==> c'.bh[y] == c.bh[y].(dirt := c'.bh[y].dirt) && (c'.bh[y].dirt ==> c.bh[y].dirt)
  }

  // The block was not cached: the first of the least bad unheld buffers is now its buffer, with one user and nothing
  // read yet; no other buffer has changed hands, and at most it has been written to disk.
  ghost predicate Replaced(c: Cache, c': Cache, dev: int, nr: int, x: int) {
    && !HasKey(c, dev, nr) && 0 <= x < |c.bh| == |c'.bh| && c.bh[x].count == 0 && FirstBest(c, x)
    && c'.bh[x].dev == dev && c'.bh[x].nr == nr && c'.bh[x].count == 1 && !c'.bh[x].uptodate && !c'.bh[x].dirt
    && forall y :: 0 <= y < |c.bh| && y != x ==> Kept(c.bh[y], c'.bh[y])
  }

  predicate Kept(h: Head, h': Head) { SameBody(h', h.(dirt := h'.dirt)) && (h'.dirt ==> h.dirt) }

  lemma HeldOk(c: Cache, x: int, n: int)
    requires Linked(c) && Coherent(c) && 0 <= x < |c.bh| && 0 <= n < 256
    ensures var c' := c.(bh := c.bh[x := c.bh[x].(count := n)]); Linked(c') && Coherent(c') && Logical(c') == Logical(c)
  {
    LinkedUnique(c);
    var c' := c.(bh := c.bh[x := c.bh[x].(count := n)]);
    forall y | 0 <= y < |c'.bh| ensures Sound(c'.bh[y], c'.disk) { assert Sound(c.bh[y], c.disk); }
    hide Struct, Unique, Coherent;
    var l :| Struct(c, l, -1);
    StructKept(c, c', l);
    AlikeLogical(c, c');
  }

  lemma FoundLogical(c: Cache, c': Cache, dev: int, nr: int, x: int)
    requires Linked(c) && Coherent(c) && Found(c, c', dev, nr, x)
    ensures Logical(c') == Logical(c) && HasKey(c, dev, nr)
  { HeldOk(c, x, (c.bh[x].count + 1) % 256); }

  lemma UncleanStart(c: Cache)
    ensures Cleaned(c, c)
  {}

  lemma CleanedBy(c: Cache, c': Cache, dev: int, x: int)
    requires Synced(c, c', dev, |c.bh|) && 0 <= x < |c.bh| && c.bh[x].dev == dev
    ensures Cleaned(c, c') && !c'.bh[x].dirt
  { hide Logical, Linked, Coherent; }

  lemma CleanedKeys(c: Cache, c': Cache, dev: int, nr: int)
    requires Cleaned(c, c') && !HasKey(c, dev, nr)
    ensures !HasKey(c', dev, nr)
  {}

  lemma ReplacedOk(c: Cache, s: Cache, c': Cache, dev: int, nr: int, x: int)
    requires Cleaned(c, s) && Linked(s) && Coherent(s) && !HasKey(c, dev, nr) && 0 <= x < |c.bh| && c.bh[x].count == 0
    requires FirstBest(c, x)
    requires Linked(c') && c'.disk == s.disk && !s.bh[x].dirt && 0 <= nr
    requires SameBodies(c'.bh, s.bh[x := Taken(s.bh[x], dev, nr)])
    ensures Replaced(c, c', dev, nr, x) && Coherent(c') && Logical(c') == Logical(c)
  {
    LinkedUnique(s);
    LinkedUnique(c');
    hide Linked, Unique, FirstBest;
    var t := s.bh[x := Taken(s.bh[x], dev, nr)];
    forall y | 0 <= y < |c'.bh|
      ensures Sound(c'.bh[y], c'.disk) && (y != x ==> Alike(s.bh[y], c'.bh[y]) && Kept(c.bh[y], c'.bh[y]))
    {
      assert SameBody(c'.bh[y], t[y]) && Sound(s.bh[y], s.disk);
    }
    assert SameBody(c'.bh[x], t[x]);
    EvictLogical(s, c', x);
  }

  // Panic: brelse finds a buffer that nobody holds, because its count has wrapped around
  datatype Got = Buffer(x: int) | Unreadable | Asleep | Panic
  ghost predicate Gained(c: Cache, c': Cache, dev: int, nr: int, x: int) {
    Found(c, c', dev, nr, x) || Replaced(c, c', dev, nr, x)
  }
  // The counter of the block has room for one more user.
  ghost predicate Room(c: Cache, dev: int, nr: int) {
    forall y :: 0 <= y < |c.bh| && c.bh[y].dev == dev && c.bh[y].nr == nr ==> c.bh[y].count < 255
  }

  function Unhold(c: Cache, x: int): Cache
    requires 0 <= x < |c.bh|
  { c.(bh := c.bh[x := c.bh[x].(count := c.bh[x].count - 1)]) }

  // bread sleeps, with nothing changed, exactly when the block is not cached and every buffer is held. Otherwise it
  // succeeds exactly on the blocks of the ramdisk, and then its buffer has one more user, modulo 256, and the content
  // of the block. On others it fails, and panics exactly if there were 255 users.
  ghost predicate BreadSpec(c: Cache, c': Cache, dev: int, nr: int, r: Got) {
    && Logical(c') == Logical(c) && |c'.disk| == |c.disk|
    && (r.Asleep? <==> AllBusy(c) && !HasKey(c, dev, nr))
    && (r.Asleep? ==> c' == c)
    && (!r.Asleep? ==> (r.Buffer? <==> Stored(dev, nr, c.disk)))
    && (r.Buffer? ==> exists c1 :: BreadGot(c, c1, c', dev, nr, r.x))
    && (r.Panic? ==> !Stored(dev, nr, c.disk) && !Room(c, dev, nr))
    && (!r.Asleep? && !Stored(dev, nr, c.disk) && !Room(c, dev, nr) && dev > 0 ==> r.Panic?)
    && (r.Unreadable? ==> exists c1, x :: Gained(c, c1, dev, nr, x) && c' == Unhold(c1, x))
  }

  ghost predicate BreadGot(c: Cache, c1: Cache, c': Cache, dev: int, nr: int, x: int)
    requires |c.disk| == |c'.disk|
  {
    && Gained(c, c1, dev, nr, x) && Stored(dev, nr, c.disk) && Stored(dev, nr, c1.disk)
    && c' == (if c1.bh[x].uptodate then c1 else ReadIn(c1, x)) && c'.bh[x].uptodate && c'.bh[x].data == Logical(c)[nr]
  }

  // c2 is what becomes of c1 when the buffer x that getblk gave is read.
  ghost predicate ReadDone(c: Cache, c1: Cache, c2: Cache, dev: int, nr: int, x: int) {
    && 0 <= x < |c1.bh| == |c2.bh| && Gained(c, c1, dev, nr, x) && |c1.disk| == |c.disk| == |c2.disk|
      && Logical(c2) == Logical(c)
    && (if Stored(dev, nr, c.disk) then BreadGot(c, c1, c2, dev, nr, x) else c2 == c1 && !c2.bh[x].uptodate)
  }

  lemma BreadAsleep(c: Cache, dev: int, nr: int)
    requires AllBusy(c) && !HasKey(c, dev, nr)
    ensures BreadSpec(c, c, dev, nr, Asleep)
  {}

  lemma ReadDoneHeld(c: Cache, c1: Cache, c2: Cache, dev: int, nr: int, x: int)
    requires ReadDone(c, c1, c2, dev, nr, x)
    ensures c2.bh[x].count == c1.bh[x].count
  {}

  lemma BreadEnd(c: Cache, c1: Cache, c2: Cache, c': Cache, dev: int, nr: int, x: int, r: Got)
    requires ReadDone(c, c1, c2, dev, nr, x)
    requires (Room(c, dev, nr) ==> c2.bh[x].count != 0) && (dev > 0 && c2.bh[x].count != 0 ==> Room(c, dev, nr))
    requires if c2.bh[x].uptodate then c' == c2 && r == Buffer(x)
      else if c2.bh[x].count == 0 then c' == c2 && r == Panic
      else c' == Unhold(c2, x) && Logical(c') == Logical(c2) && r == Unreadable
    ensures BreadSpec(c, c', dev, nr, r)
  {}

  lemma StoreOk(c: Cache, x: int, b: Block)
    requires Linked(c) && Coherent(c) && 0 <= x < |c.bh| && Stored(c.bh[x].dev, c.bh[x].nr, c.disk)
    ensures Linked(Fill(c, x, b)) && Coherent(Fill(c, x, b)) && Logical(Fill(c, x, b)) == Logical(c)[c.bh[x].nr := b]
  {
    LinkedUnique(c);
    assert Sound(c.bh[x], c.disk);
    FillLogical(c, x, b);
    forall y | 0 <= y < |c.bh| ensures Sound(Fill(c, x, b).bh[y], c.disk) { assert Sound(c.bh[y], c.disk); }
    hide Struct, Unique, Coherent, Logical;
    var l :| Struct(c, l, -1);
    StructKept(c, Fill(c, x, b), l);
  }

  // What bread finds in the buffer that getblk gave it, and what a read makes of it.
  lemma GainedOk(c: Cache, c1: Cache, dev: int, nr: int, x: int)
    requires Gained(c, c1, dev, nr, x) && Coherent(c) && Coherent(c1)
    ensures 0 <= x < |c1.bh| && !c1.bh[x].lock && c1.bh[x].nr == nr >= 0 && c1.bh[x].dev == dev && 0 <= c1.bh[x].count
  {}

  lemma RoomIs(c: Cache, c1: Cache, dev: int, nr: int, x: int)
    requires Gained(c, c1, dev, nr, x) && Unique(c.bh, -1) && Coherent(c) && 0 <= x < |c1.bh|
    ensures Room(c, dev, nr) ==> c1.bh[x].count != 0
    ensures dev > 0 && c1.bh[x].count != 0 ==> Room(c, dev, nr)
  {}

  lemma ReadOk(c: Cache, c1: Cache, dev: int, nr: int, x: int)
    requires Gained(c, c1, dev, nr, x) && Linked(c1) && Coherent(c1) && Logical(c1) == Logical(c)
    requires 0 <= x < |c1.bh| && c1.bh[x].nr == nr >= 0 && c1.bh[x].dev == dev
    ensures var c2 := if c1.bh[x].uptodate then c1 else Transfer(c1, x, false);
      ReadDone(c, c1, c2, dev, nr, x) && Linked(c2) && Coherent(c2)
  {
    assert |Logical(c1)| == |Logical(c)|;
    assert Sound(c1.bh[x], c1.disk);
    LinkedUnique(c1);
    if c1.bh[x].uptodate {
      HolderMeans(c1, x, nr);
    } else {
      TransferStruct(c1, x, false);
      TransferLogical(c1, x, false);
      TransferCases(c1, x, false);
      hide Linked, Coherent, Gained, Logical, Transfer;
      if Stored(dev, nr, c1.disk) {
        UnheldMeans(c1, x, nr);
      }
    }
  }
}
