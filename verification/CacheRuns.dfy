// Every run of users of the buffer cache is a run of users of a plain disk with n places to hold its blocks.
module CacheRuns {
  import opened Bytes
  import opened Rings
  import opened CacheState
  import opened Coherence
  import opened BufferCache
  import opened Counting

  // Users name the buffer they hold by its block. Image is the ramdisk itself, looked at after sync_dev.
  datatype Op = Get(nr: nat) | Put(nr: nat) | Write(nr: nat, b: Block) | Sync
  datatype Out = Data(b: Block) | Error | Wait | Done | Refused | Image(disk: seq<Block>)
  // the blocks of the disk and how many users hold each
  datatype Ref = Ref(disk: seq<Block>, held: seq<nat>)

  function HeldBlocks(r: Ref): set<int> { set nr | 0 <= nr < |r.held| && r.held[nr] > 0 }
  predicate IsHeld(r: Ref, nr: int) { 0 <= nr < |r.held| && r.held[nr] > 0 }

  // A user waits for a block nobody holds when every place is taken. Blocks past the end cannot be read. An
  // 8-bit counter admits 255 users; a run that asks for more is cut off here.
  function RefStep(r: Ref, n: int, op: Op): (Ref, Out)
    requires |r.held| == |r.disk|
  {
    match op
    case Get(nr) =>
      if |HeldBlocks(r)| == n && !IsHeld(r, nr) then (r, Wait)
      else if nr >= |r.disk| then (r, Error)
      else if r.held[nr] == 255 then (r, Refused)
      else (r.(held := r.held[nr := r.held[nr] + 1]), Data(r.disk[nr]))
    case Put(nr) => if IsHeld(r, nr) then (r.(held := r.held[nr := r.held[nr] - 1]), Done) else (r, Refused)
    case Write(nr, b) => if IsHeld(r, nr) then (r.(disk := r.disk[nr := b]), Done) else (r, Refused)
    case Sync => (r, Image(r.disk))
  }

  function RefRun(r: Ref, n: int, ops: seq<Op>): (res: (Ref, seq<Out>))
    requires |r.held| == |r.disk|
    ensures |res.1| == |ops|
    decreases ops
  {
    if ops == [] then (r, []) else
      var s := RefStep(r, n, ops[0]);
      var t := RefRun(s.0, n, ops[1..]);
      (t.0, [s.1] + t.1)
  }

  ghost function Users(r: Ref, h: Head): nat { if h.dev == RAMDISK && 0 <= h.nr < |r.held| then r.held[h.nr] else 0 }

  ghost predicate Agree(c: Cache, r: Ref) {
    && |r.held| == |r.disk| && Logical(c) == r.disk && |c.disk| == |r.disk|
    && (forall x :: 0 <= x < |c.bh| ==> c.bh[x].count == Users(r, c.bh[x]))
    && (forall nr :: IsHeld(r, nr) ==> HasKey(c, RAMDISK, nr))
  }

  // ---- who waits
  ghost function BusySet(c: Cache): set<int> { set x | 0 <= x < |c.bh| && c.bh[x].count != 0 }

  lemma BusyBlocks(c: Cache, r: Ref)
    requires Unique(c.bh, -1) && Agree(c, r)
    ensures |BusySet(c)| == |HeldBlocks(r)|
  {
    hide Logical;
    var s, f := BusySet(c), (x: int) => if 0 <= x < |c.bh| then c.bh[x].nr else 0;
    forall x | x in s ensures c.bh[x].dev == RAMDISK && IsHeld(r, c.bh[x].nr) {
      assert c.bh[x].count == Users(r, c.bh[x]);
    }
    forall nr | nr in HeldBlocks(r) ensures exists x :: x in s && f(x) == nr {
      assert IsHeld(r, nr) && HasKey(c, RAMDISK, nr);
      var x :| 0 <= x < |c.bh| && c.bh[x].dev == RAMDISK && c.bh[x].nr == nr;
      assert c.bh[x].count == Users(r, c.bh[x]);
      assert x in s && f(x) == nr;
    }
    ImageSize(s, f, HeldBlocks(r));
  }

  lemma WaitWhen(c: Cache, r: Ref, nr: nat)
    requires Unique(c.bh, -1) && Agree(c, r)
    ensures AllBusy(c) && !HasKey(c, RAMDISK, nr) <==> |HeldBlocks(r)| == |c.bh| && !IsHeld(r, nr)
  {
    BusyBlocks(c, r);
    var all := Range(|c.bh|);
    hide Logical, Unique, HeldBlocks;
    if AllBusy(c) { assert BusySet(c) == all; }
    if |HeldBlocks(r)| == |c.bh| {
      SubsetSize(BusySet(c), all);
      forall x | 0 <= x < |c.bh| ensures c.bh[x].count != 0 { assert x in all; }
      if HasKey(c, RAMDISK, nr) {
        var x :| 0 <= x < |c.bh| && c.bh[x].dev == RAMDISK && c.bh[x].nr == nr;
        assert c.bh[x].count == Users(r, c.bh[x]);
      }
    }
  }

  // ---- each operation keeps the two in step
  lemma GetAgree(c: Cache, c1: Cache, c': Cache, r: Ref, nr: nat, x: int)
    requires Agree(c, r) && Unique(c.bh, -1) && nr < |r.disk| && r.held[nr] < 255 && Logical(c') == Logical(c)
    requires |c'.disk| == |c.disk|
    requires BreadGot(c, c1, c', RAMDISK, nr, x)
    ensures Agree(c', r.(held := r.held[nr := r.held[nr] + 1]))
  {
    var r' := r.(held := r.held[nr := r.held[nr] + 1]);
    hide Logical;
    forall y | 0 <= y < |c'.bh| ensures c'.bh[y].count == Users(r', c'.bh[y]) {
      assert c.bh[y].count == Users(r, c.bh[y]);
      GainedHeads(c, c1, RAMDISK, nr, x, y);
      if Replaced(c, c1, RAMDISK, nr, x) && y == x { assert !IsHeld(r, nr); }
    }
    forall n | IsHeld(r', n) ensures HasKey(c', RAMDISK, n) {
      if n == nr {
        assert c'.bh[x].nr == n;
      } else {
        assert IsHeld(r, n) && HasKey(c, RAMDISK, n);
        var y :| 0 <= y < |c.bh| && c.bh[y].dev == RAMDISK && c.bh[y].nr == n;
        assert c.bh[y].count == Users(r, c.bh[y]);
        GainedHeads(c, c1, RAMDISK, nr, x, y);
        assert c'.bh[y].nr == n;
      }
    }
  }

  // Only x changes hands.
  lemma GainedHeads(c: Cache, c1: Cache, dev: int, nr: int, x: int, y: int)
    requires Gained(c, c1, dev, nr, x) && 0 <= y < |c.bh|
    ensures |c1.bh| == |c.bh| && c1.bh[x].dev == dev && c1.bh[x].nr == nr
    ensures y != x ==> c1.bh[y].dev == c.bh[y].dev && c1.bh[y].nr == c.bh[y].nr && c1.bh[y].count == c.bh[y].count
    ensures y != x && Found(c, c1, dev, nr, x) ==> c1.bh[y] == c.bh[y]
    ensures Found(c, c1, dev, nr, x) ==>
      c.bh[x].dev == dev && c.bh[x].nr == nr && c1.bh[x].count == (c.bh[x].count + 1) % 256
    ensures Replaced(c, c1, dev, nr, x) ==> c1.bh[x].count == 1 && c.bh[x].count == 0 && !HasKey(c, dev, nr)
  { if Replaced(c, c1, dev, nr, x) && y != x { assert Kept(c.bh[y], c1.bh[y]); } }

  lemma ErrorAgree(c: Cache, c1: Cache, c': Cache, r: Ref, nr: nat, x: int)
    requires Agree(c, r) && nr >= |r.disk| && Logical(c') == Logical(c) && |c'.disk| == |c.disk|
    requires Gained(c, c1, RAMDISK, nr, x) && 0 <= x < |c1.bh| && c' == Unhold(c1, x)
    ensures Agree(c', r)
  {
    hide Logical;
    forall y | 0 <= y < |c'.bh| ensures c'.bh[y].count == Users(r, c'.bh[y]) {
      GainedHeads(c, c1, RAMDISK, nr, x, y);
      assert c.bh[y].count == Users(r, c.bh[y]);
    }
    forall n | IsHeld(r, n) ensures HasKey(c', RAMDISK, n) {
      assert HasKey(c, RAMDISK, n);
      var y :| 0 <= y < |c.bh| && c.bh[y].dev == RAMDISK && c.bh[y].nr == n;
      assert c.bh[y].count == Users(r, c.bh[y]);
      GainedHeads(c, c1, RAMDISK, nr, x, y);
      assert c'.bh[y].nr == n;
    }
  }

  // Heads that keep their keys and, but for the buffer of block nr, their users.
  lemma SameAgree(c: Cache, c': Cache, r: Ref, r': Ref)
    requires Agree(c, r) && |c'.bh| == |c.bh| && |c'.disk| == |c.disk| && Logical(c') == r'.disk
    requires |r'.disk| == |r.disk| && |r'.held| == |r.held|
    requires forall y :: 0 <= y < |c.bh| ==>
      c'.bh[y].dev == c.bh[y].dev && c'.bh[y].nr == c.bh[y].nr && c'.bh[y].count == Users(r', c'.bh[y])
    requires forall n :: IsHeld(r', n) ==> IsHeld(r, n)
    ensures Agree(c', r')
  {
    hide Logical;
    forall n | IsHeld(r', n) ensures HasKey(c', RAMDISK, n) {
      assert IsHeld(r, n) && HasKey(c, RAMDISK, n);
      var y :| 0 <= y < |c.bh| && c.bh[y].dev == RAMDISK && c.bh[y].nr == n;
      assert c'.bh[y].nr == n;
    }
  }

  lemma PutAgree(c: Cache, c': Cache, r: Ref, nr: nat, x: int)
    requires Agree(c, r) && Unique(c.bh, -1) && IsHeld(r, nr) && Logical(c') == Logical(c)
    requires 0 <= x < |c.bh| && c.bh[x].dev == RAMDISK && c.bh[x].nr == nr && c' == Unhold(c, x)
    ensures Agree(c', r.(held := r.held[nr := r.held[nr] - 1]))
  {
    var r' := r.(held := r.held[nr := r.held[nr] - 1]);
    forall y | 0 <= y < |c.bh| ensures c'.bh[y].count == Users(r', c'.bh[y]) {
      assert c.bh[y].count == Users(r, c.bh[y]);
    }
    SameAgree(c, c', r, r');
  }

  lemma WriteAgree(c: Cache, c': Cache, r: Ref, nr: nat, x: int, b: Block)
    requires Agree(c, r) && IsHeld(r, nr) && 0 <= x < |c.bh| && c' == Fill(c, x, b)
    requires Logical(c') == Logical(c)[nr := b]
    ensures Agree(c', r.(disk := r.disk[nr := b]))
  {
    var r' := r.(disk := r.disk[nr := b]);
    forall y | 0 <= y < |c.bh| ensures c'.bh[y].count == Users(r', c'.bh[y]) {
      assert c.bh[y].count == Users(r, c.bh[y]);
    }
    SameAgree(c, c', r, r');
  }

  lemma SyncAgree(c: Cache, c': Cache, r: Ref)
    requires Agree(c, r) && Synced(c, c', RAMDISK, |c.bh|)
    ensures Agree(c', r)
  {
    hide Logical, Linked, Coherent;
    forall y | 0 <= y < |c.bh| ensures c'.bh[y].count == Users(r, c'.bh[y]) {
      assert c.bh[y].count == Users(r, c.bh[y]);
    }
    SameAgree(c, c', r, r);
  }

  // The buffer of a held block is in the cache and knows its users.
  lemma HeldBuffer(c: Cache, r: Ref, nr: nat, x: int)
    requires Agree(c, r) && (x == -1 ==> !HasKey(c, RAMDISK, nr))
    requires (x != -1 ==> 0 <= x < |c.bh| && c.bh[x].dev == RAMDISK && c.bh[x].nr == nr)
    ensures IsHeld(r, nr) <==> x != -1 && c.bh[x].count != 0
    ensures x != -1 && nr < |r.held| ==> c.bh[x].count == r.held[nr]
  { if x != -1 { assert c.bh[x].count == Users(r, c.bh[x]); } }

  lemma RoomFor(c: Cache, r: Ref, nr: nat)
    requires Agree(c, r) && (nr < |r.held| ==> r.held[nr] < 255)
    ensures Room(c, RAMDISK, nr)
  {
    forall y | 0 <= y < |c.bh| && c.bh[y].dev == RAMDISK && c.bh[y].nr == nr ensures c.bh[y].count < 255 {
      assert c.bh[y].count == Users(r, c.bh[y]);
    }
  }

  lemma GotAgree(c: Cache, c': Cache, r: Ref, nr: nat, got: Got)
    requires Agree(c, r) && Unique(c.bh, -1) && BreadSpec(c, c', RAMDISK, nr, got) && !got.Panic?
    requires (nr < |r.held| ==> r.held[nr] < 255)
    ensures var (r', out) := RefStep(r, |c.bh|, Get(nr));
      && Agree(c', r')
      && match got
         case Asleep => out == Wait
         case Unreadable => out == Error
         case Buffer(x) => 0 <= x < |c'.bh| && out == Data(c'.bh[x].data)
         case Panic => false
  {
    WaitWhen(c, r, nr);
    hide Unique, Logical, AllBusy, HasKey, HeldBlocks;
    match got
    case Asleep =>
    case Unreadable =>
      hide Agree;
      var c1, x :| Gained(c, c1, RAMDISK, nr, x) && c' == Unhold(c1, x);
      ErrorAgree(c, c1, c', r, nr, x);
    case Buffer(x) =>
      var c1 :| BreadGot(c, c1, c', RAMDISK, nr, x);
      GetAgree(c, c1, c', r, nr, x);
  }

  method StepGet(cache: Buffers, nr: nat, ghost r: Ref) returns (out: Out)
    requires cache.Valid() && Agree(cache.St(), r)
    modifies cache`free, cache.bh, cache.hash, cache.disk
    ensures cache.Valid() && Agree(cache.St(), RefStep(r, cache.bh.Length, Get(nr)).0)
    ensures out == RefStep(r, cache.bh.Length, Get(nr)).1
  {
    ghost var c := cache.St();
    LinkedUnique(c);
    hide Linked, Coherent, Unique, Logical;
    WaitWhen(c, r, nr);
    var x := cache.FindBuffer(RAMDISK, nr);
    HeldBuffer(c, r, nr, x);
    if x != -1 && cache.bh[x].count == 255 { return Refused; }
    RoomFor(c, r, nr);
    var got := cache.Bread(RAMDISK, nr);
    assert !got.Panic?;
    GotAgree(c, cache.St(), r, nr, got);
    hide *;
    match got {
      case Asleep => out := Wait;
      case Unreadable => out := Error;
      case Buffer(b) => out := Data(cache.bh[b].data);
      case Panic => assert false;
    }
  }

  method Step(cache: Buffers, op: Op, ghost r: Ref) returns (out: Out)
    requires cache.Valid() && Agree(cache.St(), r)
    modifies cache`free, cache.bh, cache.hash, cache.disk
    ensures cache.Valid() && Agree(cache.St(), RefStep(r, cache.bh.Length, op).0)
    ensures out == RefStep(r, cache.bh.Length, op).1
  {
    ghost var c := cache.St();
    LinkedUnique(c);
    hide Linked, Coherent, Unique, Logical;
    match op {
      case Get(nr) => out := StepGet(cache, nr, r);
      case Put(nr) =>
        var x := cache.FindBuffer(RAMDISK, nr);
        HeldBuffer(c, r, nr, x);
        if x == -1 || cache.bh[x].count == 0 { return Refused; }
        cache.Brelse(x);
        PutAgree(c, cache.St(), r, nr, x);
        out := Done;
      case Write(nr, b) =>
        var x := cache.FindBuffer(RAMDISK, nr);
        HeldBuffer(c, r, nr, x);
        if x == -1 || cache.bh[x].count == 0 { return Refused; }
        cache.Store(x, b);
        WriteAgree(c, cache.St(), r, nr, x, b);
        out := Done;
      case Sync =>
        cache.SyncDev(RAMDISK);
        SyncAgree(c, cache.St(), r);
        out := Image(cache.disk[..]);
    }
  }

  // Whatever its users do, they see a disk: every read returns the last block written, and the ramdisk holds what was
  // written once it is synced.
  method Run(cache: Buffers, ops: seq<Op>, ghost r: Ref) returns (outs: seq<Out>)
    requires cache.Valid() && Agree(cache.St(), r)
    modifies cache`free, cache.bh, cache.hash, cache.disk
    ensures cache.Valid() && Agree(cache.St(), RefRun(r, cache.bh.Length, ops).0)
    ensures outs == RefRun(r, cache.bh.Length, ops).1
    decreases ops
  {
    if ops == [] { return []; }
    var out := Step(cache, ops[0], r);
    var rest := Run(cache, ops[1..], RefStep(r, cache.bh.Length, ops[0]).0);
    return [out] + rest;
  }

  // A run from the start: buffer_init, an image, nobody holding anything.
  method Boot(n: int, data: seq<Block>, image: seq<Block>, ops: seq<Op>) returns (outs: seq<Out>)
    requires n >= 2 && |data| == n
    ensures outs == RefRun(Ref(image, seq(|image|, _ => 0)), n, ops).1
  {
    var cache := new Buffers(n, data, image);
    ghost var r := Ref(image, seq(|image|, _ => 0));
    assert Agree(cache.St(), r) by { hide Logical; }
    outs := Run(cache, ops, r);
  }
}
