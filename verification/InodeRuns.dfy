// Every run of users of the inode table is a run of users of a plain array of inodes, with room to hold 32 of them.
module InodeRuns {
  import opened InodeState
  import opened InodeTable
  import opened Counting
  import Bitmap

  datatype Op = Get(nr: nat) | Put(nr: nat) | Edit(nr: nat, d: DInode) | New(d: DInode) | Sync
  datatype Out = Data(d: DInode) | Number(nr: int) | Done | Refused | NoNumbers | Panic | Image(disk: seq<DInode>)
  datatype Ref = Ref(inode: seq<DInode>, alloc: seq<bool>, held: seq<nat>)

  predicate Allocated(r: Ref, nr: int) { 1 <= nr < |r.inode| && nr < |r.alloc| && r.alloc[nr] }
  predicate IsHeld(r: Ref, nr: int) { 0 <= nr < |r.held| && r.held[nr] > 0 }
  function HeldSet(r: Ref): set<int> { set nr | 0 <= nr < |r.held| && r.held[nr] > 0 }

  // the first number, from n on, that is not allocated; |r.inode| if there is none
  function FirstFree(r: Ref, n: nat): (m: nat)
    requires n <= |r.inode|
    ensures n <= m <= |r.inode| && (forall k :: n <= k < m && k < |r.alloc| ==> r.alloc[k])
    ensures (m < |r.inode| ==> m < |r.alloc| && !r.alloc[m])
    decreases |r.inode| - n
  { if n == |r.inode| || (n < |r.alloc| && !r.alloc[n]) then n else FirstFree(r, n + 1) }

  function Masked(inode: seq<DInode>, alloc: seq<bool>): seq<DInode> {
    seq(|inode|, i requires 0 <= i < |inode| => if 1 <= i < |alloc| && alloc[i] then inode[i] else Blank())
  }

  predicate Sized(r: Ref) { |r.held| == |r.inode| > 0 }

  function RefStep(r: Ref, op: Op): (Ref, Out)
    requires Sized(r)
  {
    match op
    case Get(nr) =>
      if !Allocated(r, nr) then (r, Refused)
      else if |HeldSet(r)| == NR_INODE then (r, Panic)
      else (r.(held := r.held[nr := r.held[nr] + 1]), Data(r.inode[nr]))
    case Put(nr) =>
      if !IsHeld(r, nr) then (r, Refused)
      else if r.held[nr] == 1 && r.inode[nr].nlinks == 0 && nr < |r.alloc|
        then (r.(alloc := r.alloc[nr := false], held := r.held[nr := 0]), Done)
      else (r.(held := r.held[nr := r.held[nr] - 1]), Done)
    case Edit(nr, d) => if IsHeld(r, nr) then (r.(inode := r.inode[nr := d]), Done) else (r, Refused)
    case New(d) =>
      var nr := FirstFree(r, 1);
      if |HeldSet(r)| == NR_INODE then (r, Panic)
      else if nr == |r.inode| then (r, NoNumbers)
      else (Ref(r.inode[nr := d], r.alloc[nr := true], r.held[nr := 1]), Number(nr))
    case Sync => (r, Image(Masked(r.inode, r.alloc)))
  }

  function RefRun(r: Ref, ops: seq<Op>): (res: (Ref, seq<Out>))
    requires Sized(r)
    ensures |res.1| == |ops|
    decreases ops
  {
    if ops == [] then (r, []) else
      var s := RefStep(r, ops[0]);
      var t := RefRun(s.0, ops[1..]);
      (t.0, [s.1] + t.1)
  }

  function Users(r: Ref, x: Slot): int { if x.dev == DEV && 0 <= x.num < |r.held| then r.held[x.num] else 0 }
  ghost predicate HasSlot(s: State, nr: int) { exists i :: 0 <= i < |s.slot| && Of(s.slot[i], nr) }

  ghost predicate Agree(s: State, r: Ref) {
    && Sized(r) && |s.slot| == NR_INODE && |s.disk| == |r.inode| == s.ninodes + 1 && s.bits == r.alloc
    && (forall i :: 0 <= i < NR_INODE ==> s.slot[i].count == Users(r, s.slot[i]))
    && (forall nr :: IsHeld(r, nr) ==> HasSlot(s, nr))
    && (forall nr :: Allocated(r, nr) ==> LogicalAt(s, nr) == r.inode[nr])
  }

  // ---- when the table is full
  ghost function UsedSet(s: State): set<int> { set i | 0 <= i < |s.slot| && s.slot[i].count != 0 }

  lemma UsedHeld(s: State, r: Ref)
    requires Inv(s) && Agree(s, r)
    ensures |UsedSet(s)| == |HeldSet(r)|
  {
    hide LogicalAt;
    var u, f := UsedSet(s), (i: int) => if 0 <= i < |s.slot| then s.slot[i].num else 0;
    forall i | i in u ensures s.slot[i].dev == DEV && IsHeld(r, s.slot[i].num) && Of(s.slot[i], f(i)) {
      assert s.slot[i].count == Users(r, s.slot[i]);
    }
    forall nr | nr in HeldSet(r) ensures exists i :: i in u && f(i) == nr {
      assert IsHeld(r, nr) && HasSlot(s, nr);
      var i :| 0 <= i < |s.slot| && Of(s.slot[i], nr);
      assert s.slot[i].count == Users(r, s.slot[i]);
      assert i in u && f(i) == nr;
    }
    assert Unique(s.slot);
    hide Inv, Agree;
    ImageSize(u, f, HeldSet(r));
  }

  lemma CountsPositive(s: State)
    requires Inv(s)
    ensures |s.slot| == NR_INODE && forall i :: 0 <= i < NR_INODE ==> s.slot[i].count >= 0
  { forall i | 0 <= i < NR_INODE ensures s.slot[i].count >= 0 { assert SlotOk(s.slot[i], s.disk, s.bits); } }

  lemma FullWhen(s: State, r: Ref)
    requires Inv(s) && Agree(s, r)
    ensures AllUsed(s) <==> |HeldSet(r)| == NR_INODE
  {
    hide LogicalAt, HeldSet, Inv, Agree, Range;
    UsedHeld(s, r);
    CountsPositive(s);
    var all := Range(NR_INODE);
    if AllUsed(s) { assert UsedSet(s) == all; }
    if |HeldSet(r)| == NR_INODE {
      SubsetSize(UsedSet(s), all);
      forall i | 0 <= i < NR_INODE ensures s.slot[i].count > 0 { assert i in all; }
    }
  }

  // ---- each operation keeps the two in step
  lemma GetAgree(s: State, s': State, r: Ref, nr: nat, k: int)
    requires Inv(s) && Inv(s') && Agree(s, r) && Allocated(r, nr) && SameLogical(s, s') && s'.bits == s.bits
    requires |s'.disk| == |s.disk| && s'.ninodes == s.ninodes
    requires Opened(s, s', nr, k)
    ensures Agree(s', r.(held := r.held[nr := r.held[nr] + 1]))
  {
    var r' := r.(held := r.held[nr := r.held[nr] + 1]);
    hide LogicalAt;
    forall i | 0 <= i < NR_INODE ensures s'.slot[i].count == Users(r', s'.slot[i]) {
      assert s.slot[i].count == Users(r, s.slot[i]);
      if !Of(s.slot[k], nr) && i == k { NotHeld(s, r, nr); }
      assert i != k ==> !Of(s'.slot[i], nr);
    }
    forall n | IsHeld(r', n) ensures HasSlot(s', n) {
      if n == nr { assert Of(s'.slot[k], n); }
      else {
        assert IsHeld(r, n);
        HeldSlot(s, r, n);
        var i :| 0 <= i < NR_INODE && Of(s.slot[i], n) && s.slot[i].count > 0;
        assert Of(s'.slot[i], n);
      }
    }
    forall n | Allocated(r', n) ensures LogicalAt(s', n) == r'.inode[n] { assert Allocated(r, n); }
  }

  lemma HeldSlot(s: State, r: Ref, n: int)
    requires Agree(s, r) && IsHeld(r, n)
    ensures exists i :: 0 <= i < NR_INODE && Of(s.slot[i], n) && s.slot[i].count > 0
  {
    hide LogicalAt;
    assert HasSlot(s, n);
    var i :| 0 <= i < |s.slot| && Of(s.slot[i], n);
    assert s.slot[i].count == Users(r, s.slot[i]);
  }

  // An inode that no slot, or only an unused slot, has is not held.
  lemma NotHeld(s: State, r: Ref, n: int)
    requires Agree(s, r) && 0 <= n < |r.held|
    requires forall i :: 0 <= i < NR_INODE && Of(s.slot[i], n) ==> s.slot[i].count == 0
    ensures r.held[n] == 0
  { if IsHeld(r, n) { HeldSlot(s, r, n); } }

  // One slot keeps its inode but gets other users or content.
  lemma SlotAgree(s: State, s': State, r: Ref, r': Ref, k: int, nr: int)
    requires Inv(s) && Inv(s') && Agree(s, r) && Sized(r') && |r'.inode| == |r.inode| && |s'.disk| == |s.disk|
    requires s'.ninodes == s.ninodes && s'.bits == r'.alloc == s.bits
    requires 0 <= k < NR_INODE && Of(s.slot[k], nr) && 0 <= nr < |r.held| && |s'.slot| == NR_INODE
    requires s'.slot[k].dev == s.slot[k].dev && s'.slot[k].num == s.slot[k].num && s'.slot[k].count == r'.held[nr]
    requires forall i :: 0 <= i < NR_INODE && i != k ==> s'.slot[i] == s.slot[i]
    requires r'.held == r.held[nr := r'.held[nr]] && (r'.held[nr] > 0 ==> r.held[nr] > 0)
    requires forall n :: Allocated(r, n) ==> LogicalAt(s', n) == r'.inode[n]
    ensures Agree(s', r')
  {
    hide LogicalAt;
    forall i | 0 <= i < NR_INODE ensures s'.slot[i].count == Users(r', s'.slot[i]) {
      assert s.slot[i].count == Users(r, s.slot[i]);
      assert i != k ==> !Of(s.slot[i], nr);
    }
    forall n | IsHeld(r', n) ensures HasSlot(s', n) {
      assert IsHeld(r, n) && HasSlot(s, n);
      var i :| 0 <= i < NR_INODE && Of(s.slot[i], n);
      assert Of(s'.slot[i], n);
    }
    forall n | Allocated(r', n) ensures LogicalAt(s', n) == r'.inode[n] { assert Allocated(r, n); }
  }

  lemma FreeAgree(s: State, r: Ref, k: int, nr: int)
    requires Inv(s) && Agree(s, r) && 0 <= k < NR_INODE && Of(s.slot[k], nr) && 0 <= nr < |r.held| && nr < |s.bits|
    requires s.slot[k].count == 1
    requires forall n :: 0 <= n < |s.disk| && n != nr ==> LogicalAt(Free(s, k), n) == LogicalAt(s, n)
    ensures Agree(Free(s, k), r.(alloc := r.alloc[nr := false], held := r.held[nr := 0]))
  {
    var s', r' := Free(s, k), r.(alloc := r.alloc[nr := false], held := r.held[nr := 0]);
    hide LogicalAt;
    forall i | 0 <= i < NR_INODE ensures s'.slot[i].count == Users(r', s'.slot[i]) {
      assert s.slot[i].count == Users(r, s.slot[i]);
      assert i != k ==> !Of(s.slot[i], nr);
    }
    forall n | IsHeld(r', n) ensures HasSlot(s', n) {
      assert IsHeld(r, n) && HasSlot(s, n);
      var i :| 0 <= i < NR_INODE && Of(s.slot[i], n);
      assert Of(s'.slot[i], n);
    }
    forall n | Allocated(r', n) ensures LogicalAt(s', n) == r'.inode[n] { assert Allocated(r, n); }
  }

  lemma NewAgree(s: State, s': State, r: Ref, k: int, d: DInode)
    requires Inv(s) && Inv(s') && Agree(s, r) && Created(s, s', k, d)
    ensures var nr := FirstFree(r, 1);
      nr == s'.slot[k].num && nr < |r.inode| && Agree(s', Ref(r.inode[nr := d], r.alloc[nr := true], r.held[nr := 1]))
  {
    var nr := s'.slot[k].num;
    var m := FirstFree(r, 1);
    assert m == nr;
    var r' := Ref(r.inode[nr := d], r.alloc[nr := true], r.held[nr := 1]);
    hide LogicalAt;
    forall i | 0 <= i < NR_INODE ensures s'.slot[i].count == Users(r', s'.slot[i]) {
      assert s.slot[i].count == Users(r, s.slot[i]) && SlotOk(s.slot[i], s.disk, s.bits);
      assert i != k ==> !Of(s.slot[i], nr);
    }
    forall n | IsHeld(r', n) ensures HasSlot(s', n) {
      if n == nr { assert Of(s'.slot[k], n); }
      else {
        assert IsHeld(r, n);
        HeldSlot(s, r, n);
        var i :| 0 <= i < NR_INODE && Of(s.slot[i], n) && s.slot[i].count > 0;
        assert Of(s'.slot[i], n);
      }
    }
    forall n | Allocated(r', n) ensures LogicalAt(s', n) == r'.inode[n] { assert n != nr ==> Allocated(r, n); }
  }

  lemma EvictAgree(s: State, r: Ref, e: int)
    requires Inv(s) && Agree(s, r) && 0 <= e < NR_INODE && s.slot[e].count == 0
    requires SameLogical(s, InodeState.Put(s, e, Zeroed(0)))
    ensures Agree(InodeState.Put(s, e, Zeroed(0)), r)
  {
    var s' := InodeState.Put(s, e, Zeroed(0));
    hide LogicalAt;
    forall i | 0 <= i < NR_INODE ensures s'.slot[i].count == Users(r, s'.slot[i]) {
      assert s.slot[i].count == Users(r, s.slot[i]);
    }
    forall n | IsHeld(r, n) ensures HasSlot(s', n) {
      HeldSlot(s, r, n);
      var i :| 0 <= i < NR_INODE && Of(s.slot[i], n) && s.slot[i].count > 0;
      assert Of(s'.slot[i], n);
    }
  }

  lemma NoFree(s: State, r: Ref)
    requires Agree(s, r) && NoNumber(s)
    ensures FirstFree(r, 1) == |r.inode|
  {}

  lemma SyncAgree(s: State, s': State, r: Ref)
    requires Agree(s, r) && SameLogical(s, s') && s'.bits == s.bits && s'.ninodes == s.ninodes && |s'.slot| == NR_INODE
    requires forall i :: 0 <= i < NR_INODE ==> s'.slot[i] == s.slot[i].(dirt := false)
    requires forall nr :: 0 <= nr < |s.disk| ==> s'.disk[nr] == LogicalAt(s, nr)
    ensures Agree(s', r) && Masked(s'.disk, s'.bits) == Masked(r.inode, r.alloc)
  {
    hide LogicalAt;
    forall i | 0 <= i < NR_INODE ensures s'.slot[i].count == Users(r, s'.slot[i]) {
      assert s.slot[i].count == Users(r, s.slot[i]);
    }
    forall n | IsHeld(r, n) ensures HasSlot(s', n) {
      assert HasSlot(s, n);
      var i :| 0 <= i < NR_INODE && Of(s.slot[i], n);
      assert Of(s'.slot[i], n);
    }
    forall i | 0 <= i < |r.inode| ensures Masked(s'.disk, s'.bits)[i] == Masked(r.inode, r.alloc)[i] {
      if Allocated(r, i) { assert LogicalAt(s, i) == r.inode[i]; }
    }
  }

  // The slot of a held inode knows its users and its content.
  lemma SlotOf(s: State, r: Ref, nr: nat, k: int)
    requires Inv(s) && Agree(s, r) && (k == -1 ==> forall i :: 0 <= i < NR_INODE ==> !Of(s.slot[i], nr))
    requires (k != -1 ==> 0 <= k < NR_INODE && Of(s.slot[k], nr))
    ensures IsHeld(r, nr) <==> k != -1 && s.slot[k].count > 0
    ensures k != -1 ==>
      nr < |r.held| && nr < |s.bits| && Allocated(r, nr) && s.slot[k].count == r.held[nr]
        && s.slot[k].body == r.inode[nr]
  {
    if k != -1 {
      assert SlotOk(s.slot[k], s.disk, s.bits) && s.slot[k].count == Users(r, s.slot[k]);
      HolderMeaning(s, k, nr);
    } else if IsHeld(r, nr) {
      HeldSlot(s, r, nr);
    }
  }

  method StepGet(t: Table, nr: nat, ghost r: Ref) returns (out: Out)
    requires t.Valid() && Agree(t.St(), r)
    modifies t, t.slot
    ensures t.Valid() && Agree(t.St(), RefStep(r, Get(nr)).0) && out == RefStep(r, Get(nr)).1
  {
    ghost var s := t.St();
    FullWhen(s, r);
    var bit := t.TestBit(nr);
    if !(1 <= nr <= t.ninodes) || !bit { return Refused; }
    assert Allocated(r, nr);
    hide Inv, LogicalAt, Agree, Opened;
    AgreeAt(s, r, nr);
    var k := t.Iget(nr);
    if k == -1 { return Panic; }
    GetAgree(s, t.St(), r, nr, k);
    out := Data(t.slot[k].body);
  }

  lemma AgreeAt(s: State, r: Ref, nr: nat)
    requires Agree(s, r) && Allocated(r, nr)
    ensures LogicalAt(s, nr) == r.inode[nr]
  {}

  lemma PutAgree(s: State, s': State, r: Ref, nr: nat, k: int)
    requires Inv(s) && Inv(s') && Agree(s, r) && 0 <= k < NR_INODE && Of(s.slot[k], nr) && IsHeld(r, nr)
    requires Closed(s, s', k)
    ensures Agree(s', RefStep(r, Put(nr)).0) && RefStep(r, Put(nr)).1 == Done
  {
    SlotOf(s, r, nr, k);
    var x := s.slot[k];
    if x.count == 1 && x.body.nlinks == 0 {
      hide LogicalAt;
      FreeAgree(s, r, k, nr);
    } else {
      hide LogicalAt;
      forall n | Allocated(r, n) ensures LogicalAt(s', n) == r.inode[n] {}
      SlotAgree(s, s', r, r.(held := r.held[nr := r.held[nr] - 1]), k, nr);
    }
  }

  lemma EditAgree(s: State, r: Ref, nr: nat, k: int, d: DInode)
    requires Inv(s) && Agree(s, r) && 0 <= k < NR_INODE && Of(s.slot[k], nr) && IsHeld(r, nr)
    ensures var s' := InodeState.Put(s, k, s.slot[k].(body := d, dirt := true));
      Inv(s') && Agree(s', RefStep(r, Edit(nr, d)).0)
  {
    SlotOf(s, r, nr, k);
    var x := s.slot[k].(body := d, dirt := true);
    assert SlotOk(s.slot[k], s.disk, s.bits);
    forall i | 0 <= i < NR_INODE && i != k ensures !Of(s.slot[i], x.num) {}
    PutInv(s, k, x);
    var s', r' := InodeState.Put(s, k, x), r.(inode := r.inode[nr := d]);
    forall n | Allocated(r, n) ensures LogicalAt(s', n) == r'.inode[n] { KeepMeaning(s, k, x, n); }
    hide LogicalAt;
    SlotAgree(s, s', r, r', k, nr);
  }

  method Step(t: Table, op: Op, ghost r: Ref) returns (out: Out)
    requires t.Valid() && Agree(t.St(), r)
    modifies t, t.slot, t.disk, t.ibits
    ensures t.Valid() && Agree(t.St(), RefStep(r, op).0) && out == RefStep(r, op).1
  {
    ghost var s := t.St();
    hide Inv, LogicalAt, Agree, Closed, Created;
    match op {
      case Get(nr) => out := StepGet(t, nr, r);
      case Put(nr) =>
        var k := t.FindInode(nr);
        SlotOf(s, r, nr, k);
        if k == -1 || t.slot[k].count <= 0 { return Refused; }
        t.Iput(k);
        PutAgree(s, t.St(), r, nr, k);
        out := Done;
      case Edit(nr, d) =>
        var k := t.FindInode(nr);
        SlotOf(s, r, nr, k);
        if k == -1 || t.slot[k].count <= 0 { return Refused; }
        EditAgree(s, r, nr, k, d);
        t.PutSlot(k, t.slot[k].(body := d, dirt := true));
        out := Done;
      case New(d) => out := StepNew(t, d, r);
      case Sync =>
        t.SyncInodes();
        SizesOf(s);
        SizesOf(t.St());
        SyncAgree(s, t.St(), r);
        out := Image(Masked(t.disk[..], t.Map()));
    }
  }

  method StepNew(t: Table, d: DInode, ghost r: Ref) returns (out: Out)
    requires t.Valid() && Agree(t.St(), r)
    modifies t, t.slot, t.ibits
    ensures t.Valid() && Agree(t.St(), RefStep(r, New(d)).0) && out == RefStep(r, New(d)).1
  {
    ghost var s := t.St();
    FullWhen(s, r);
    hide Inv, LogicalAt, Agree, Created;
    var k := t.NewInode(d);
    if k == -1 { return Panic; }
    if k == -2 {
      NoFree(s, r);
      ghost var e :| 0 <= e < NR_INODE && s.slot[e].count == 0 && t.St() == InodeState.Put(s, e, Zeroed(0));
      EvictAgree(s, r, e);
      return NoNumbers;
    }
    NewAgree(s, t.St(), r, k, d);
    out := Number(t.slot[k].num);
  }

  // Whatever happens to slots on the way, users see one array of inodes.
  method Run(t: Table, ops: seq<Op>, ghost r: Ref) returns (outs: seq<Out>)
    requires t.Valid() && Agree(t.St(), r)
    modifies t, t.slot, t.disk, t.ibits
    ensures t.Valid() && Agree(t.St(), RefRun(r, ops).0) && outs == RefRun(r, ops).1
    decreases ops
  {
    hide Inv, LogicalAt, Agree;
    AgreeSized(t.St(), r);
    if ops == [] { return []; }
    var out := Step(t, ops[0], r);
    var rest := Run(t, ops[1..], RefStep(r, ops[0]).0);
    return [out] + rest;
  }

  lemma AgreeSized(s: State, r: Ref)
    requires Agree(s, r)
    ensures Sized(r)
  {}

  method Boot(image: seq<DInode>, bitmap: seq<bv8>, ops: seq<Op>) returns (outs: seq<Out>)
    requires |image| > 0 && |bitmap| % 1024 == 0 && 0 < |bitmap| <= 8192 && Bitmap.Bits(bitmap)[0]
    ensures outs == RefRun(Ref(image, Bitmap.Bits(bitmap), seq(|image|, _ => 0)), ops).1
  {
    var t := new Table(image, bitmap);
    ghost var r := Ref(image, Bitmap.Bits(bitmap), seq(|image|, _ => 0));
    BootAgree(t.St(), r);
    outs := Run(t, ops, r);
  }

  lemma BootAgree(s: State, r: Ref)
    requires Inv(s) && s.slot == seq(NR_INODE, _ => Zeroed(0)) && s.disk == r.inode && s.bits == r.alloc
    requires |r.inode| > 0 && r.held == seq(|r.inode|, _ => 0)
    ensures Agree(s, r)
  { CleanDisk(s); }
}
