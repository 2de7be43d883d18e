// Every run of malloc and free_s by users that keep to their own objects.
module HeapRuns {
  import opened Bytes
  import opened BucketLists
  import opened Buckets
  import opened HeapState
  import opened Kmalloc
  import opened HeapBooks

  // Words are read and written at aligned offsets inside an object.
  datatype Op = Alloc(len: nat) | Release(a: int, size: int) | Put(a: int, off: int, v: int) | Get(a: int, off: int)
  datatype Out = Got(a: int) | Panic | Ok | Refused | Val(v: int)
  // What the users know: their objects with the lengths they asked for, the words they have written, the pages the
  // allocator was given, and how many of them hold descriptors.
  datatype Books = Books(live: map<int, nat>, cells: map<int, int>, all: set<int>, descs: nat)

  predicate MayUse(r: Books, a: int, off: int) { a in r.live && 0 <= off && off % 4 == 0 && off + 4 <= r.live[a] }
  predicate MayFree(r: Books, a: int, size: int) {
    a in r.live && r.live[a] <= PAGE && size <= Size(BucketFor(r.live[a]))
  }

  // how many pages and how many descriptors are not in use
  function Left(r: Books): int { |r.all| - r.descs - |CutPages(r.live)| }
  function Spare(r: Books): int { DESCS * r.descs - |CutPages(r.live)| }
  // No page of the right kind has room, and there is no page to cut up, or only one and no descriptor for it.
  predicate OutOfMemory(r: Books, b: int)
    requires 0 <= b < 9
  { !Room(r.live, b) && (Left(r) == 0 || (Left(r) == 1 && Spare(r) == 0)) }

  predicate Apart(r: Books, a: int, len: nat) { forall x :: x in r.live ==> a + len <= x || x + r.live[x] <= a }

  // What users may rely on: an object is refused only without memory, it comes from a page that has room if there is
  // one, objects never overlap, and a word read is the word last written.
  predicate Allowed(r: Books, op: Op, out: Out) {
    match op
    case Alloc(len) =>
      var b := BucketFor(len);
      if b == 9 || OutOfMemory(r, b) then out.Panic?
      else
        && out.Got? && out.a > 0 && out.a !in r.live && Apart(r, out.a, len)
        && PageOf(out.a) in r.all && (PageOf(out.a) in CutPages(r.live) <==> Room(r.live, b))
    case Release(a, size) => out == if MayFree(r, a, size) then Ok else Refused
    case Put(a, off, v) => out == if MayUse(r, a, off) then Ok else Refused
    case Get(a, off) =>
      if MayUse(r, a, off) then out.Val? && (a + off in r.cells ==> out.v == r.cells[a + off]) else out.Refused?
  }

  function Next(r: Books, op: Op, out: Out): Books {
    match op
    case Alloc(len) =>
      if out.Got? && len <= PAGE then
        var more := if !Room(r.live, BucketFor(len)) && Spare(r) == 0 then 1 else 0;
        r.(live := r.live[out.a := len], descs := r.descs + more)
      else r
    case Release(a, size) =>
      if out.Ok? && MayFree(r, a, size) then
        r.(live := r.live - {a}, cells := map x | x in r.cells
          && !(a <= x < a + Size(BucketFor(r.live[a]))) :: r.cells[x])
      else r
    case Put(a, off, v) => if out.Ok? then r.(cells := r.cells[a + off := v]) else r
    case Get(_, _) => r
  }

  // A run, up to its first panic.
  predicate Trace(r: Books, ops: seq<Op>, outs: seq<Out>)
    decreases ops
  {
    if ops == [] then outs == []
    else
      && outs != [] && Allowed(r, ops[0], outs[0])
      && if outs[0].Panic? then |outs| == 1 else Trace(Next(r, ops[0], outs[0]), ops[1..], outs[1..])
  }

  ghost predicate Agree(h: Heap, l: Layout, r: Books) {
    && Knows(h, l, r.live) && |h.taken| == r.descs && (forall p :: Owns(h, l, p) <==> p in r.all)
    && (forall x :: x in r.cells ==> Read(h.mem, x) == r.cells[x] && exists a :: a in r.live && Covers(r, a, x))
  }

  predicate Covers(r: Books, a: int, x: int) {
    a in r.live && r.live[a] <= PAGE && a <= x < a + Size(BucketFor(r.live[a]))
  }

  lemma NewToBooks(h: Heap, l: Layout, r: Books, a: int)
    requires Agree(h, l, r) && forall c :: !Obj(h, l, a, c)
    ensures a !in r.live
  {
    hide Inv, Obj, BucketFor;
    if a in r.live { Owned(h, l, r, a); }
  }

  // The numbers the users work out are the allocator's own.
  lemma Counts(h: Heap, l: Layout, r: Books, b: int)
    requires Agree(h, l, r) && 0 <= b < 9
    ensures |h.heads| == 10 && |h.pages| == Left(r) && (h.heads[SPARE] == -1 <==> Spare(r) == 0)
    ensures (NoneFree(l, b) <==> !Room(r.live, b)) && (OutOfMemory(r, b) <==> Exhausted(h) && NoneFree(l, b))
  {
    hide Inv, Obj, Owns, Knows, NoneFree, Room, CutPages;
    PagesLeft(h, l, r.live, r.all);
    SpareIs(h, l, r.live);
    RoomIs(h, l, r.live, b);
  }

  lemma HandedKnows(h: Heap, l: Layout, r: Books, h': Heap, l': Layout, len: nat, a: int)
    requires Agree(h, l, r) && len <= PAGE && Inv(h', l', -1) && Handed(h, l, h', l', a, BucketFor(len))
    ensures Knows(h', l', r.live[a := len]) && forall p :: Owns(h', l', p) <==> p in r.all
  {
    NewToBooks(h, l, r, a);
    hide Inv, Obj, BucketFor, Owns;
  }

  ghost predicate Took(h: Heap, l: Layout, h': Heap, b: int)
    requires |h.heads| == 10
  { if NoneFree(l, b) then Spent(h, h') else h'.pages == h.pages && h'.taken == h.taken }

  // A new page is cut up exactly if there was no room on those there are.
  lemma AllocPage(h: Heap, l: Layout, r: Books, h': Heap, l': Layout, len: nat, a: int)
    requires Agree(h, l, r) && len <= PAGE && Inv(h', l', -1) && Handed(h, l, h', l', a, BucketFor(len))
    requires |h.heads| == 10 && Took(h, l, h', BucketFor(len))
    ensures PageOf(a) in r.all && (PageOf(a) in CutPages(r.live) <==> Room(r.live, BucketFor(len)))
    ensures |h'.taken| == Next(r, Alloc(len), Got(a)).descs
  {
    hide Inv, Obj, Owns, Knows, NoneFree, Room, Handed, Agree, Exhausted;
    var b, live' := BucketFor(len), r.live[a := len];
    Counts(h, l, r, b);
    HandedKnows(h, l, r, h', l', len, a);
    BookParts(h, l, r);
    PagesLeft(h, l, r.live, r.all);
    PagesLeft(h', l', live', r.all);
    NewToBooks(h, l, r, a) by { HandedNew(h, l, h', l', a, b); }
    CutMore(r.live, a, len);
  }

  lemma HandedNew(h: Heap, l: Layout, h': Heap, l': Layout, a: int, b: int)
    requires Handed(h, l, h', l', a, b)
    ensures forall c :: !Obj(h, l, a, c)
  {}

  lemma BookParts(h: Heap, l: Layout, r: Books)
    requires Agree(h, l, r)
    ensures Knows(h, l, r.live) && |h.taken| == r.descs && forall p :: Owns(h, l, p) <==> p in r.all
  {}

  lemma CutMore(live: map<int, nat>, a: int, len: nat)
    requires a !in live
    ensures CutPages(live[a := len]) == CutPages(live) + {PageOf(a)}
    ensures |CutPages(live[a := len])| == |CutPages(live)| + if PageOf(a) in CutPages(live) then 0 else 1
  {
    var t, t' := CutPages(live), CutPages(live[a := len]);
    forall p ensures p in t' <==> p in t || p == PageOf(a) {
      if p in t {
        var x :| x in live && PageOf(x) == p;
        assert x in live[a := len];
      }
      if p == PageOf(a) { assert a in live[a := len]; }
    }
    assert t' == t + {PageOf(a)};
  }

  lemma AllocApart(h: Heap, l: Layout, r: Books, h': Heap, l': Layout, len: nat, a: int)
    requires Agree(h, l, r) && len <= PAGE && Inv(h', l', -1) && Handed(h, l, h', l', a, BucketFor(len))
    ensures a > 0 && a !in r.live && Apart(r, a, len)
  {
    NewToBooks(h, l, r, a);
    forall x | x in r.live ensures a + len <= x || x + r.live[x] <= a {
      assert Obj(h', l', x, BucketFor(r.live[x])) && Obj(h', l', a, BucketFor(len));
      ObjApart(h', l', -1, a, BucketFor(len), x, BucketFor(r.live[x]));
    }
  }

  lemma AllocAgree(h: Heap, l: Layout, r: Books, h': Heap, l': Layout, len: nat, a: int)
    requires Agree(h, l, r) && len <= PAGE && Inv(h', l', -1) && Handed(h, l, h', l', a, BucketFor(len))
    requires |h.heads| == 10 && Took(h, l, h', BucketFor(len))
    ensures Agree(h', l', Next(r, Alloc(len), Got(a)))
  {
    hide Inv, Obj, BucketFor, Size, Knows, Took, CutPages, Room;
    var r' := Next(r, Alloc(len), Got(a));
    HandedKnows(h, l, r, h', l', len, a);
    AllocPage(h, l, r, h', l', len, a);
    forall x | x in r'.cells ensures Read(h'.mem, x) == r'.cells[x] && exists y :: y in r'.live && Covers(r', y, x) {
      var y :| y in r.live && Covers(r, y, x);
      Owned(h, l, r, y);
      NewToBooks(h, l, r, a) by { HandedNew(h, l, h', l', a, BucketFor(len)); }
      assert Covers(r', y, x);
    }
  }

  lemma ReleaseAgree(h: Heap, l: Layout, r: Books, h': Heap, l': Layout, a: int, size: int)
    requires Agree(h, l, r) && MayFree(r, a, size) && Inv(h', l', -1) && Released(h, l, h', l', a)
      && h'.taken == h.taken
    ensures Agree(h', l', Next(r, Release(a, size), Ok))
  {
    var r' := Next(r, Release(a, size), Ok);
    hide Inv, Obj, BucketFor, Size, Owns;
    forall x | x in r'.cells ensures Read(h'.mem, x) == r'.cells[x] && exists y :: y in r'.live && Covers(r', y, x) {
      var y :| y in r.live && Covers(r, y, x);
      assert y != a;
      assert Obj(h', l', y, BucketFor(r.live[y])) && Covers(r', y, x);
    }
  }

  lemma PutAgree(h: Heap, l: Layout, r: Books, a: int, off: int, v: int)
    requires Agree(h, l, r) && MayUse(r, a, off)
    ensures Agree(h.(mem := h.mem[a + off := v]), l, Next(r, Put(a, off, v), Ok))
  {
    hide Inv, Obj, BucketFor, Owns;
    var h', r', b := h.(mem := h.mem[a + off := v]), Next(r, Put(a, off, v), Ok), BucketFor(r.live[a]);
    assert Obj(h, l, a, b);
    StoreInObj(h, l, a, b, a + off, v);
    forall x, c ensures Obj(h', l, x, c) <==> Obj(h, l, x, c) { StoreObj(h, l, a + off, v, x, c); }
    forall p ensures Owns(h', l, p) <==> Owns(h, l, p) { StoreOwns(h, l, a + off, v, p); }
    forall x | x in r'.cells ensures Read(h'.mem, x) == r'.cells[x] && exists y :: y in r'.live && Covers(r', y, x) {
      if x == a + off { assert Covers(r', a, x); }
      else {
        var y :| y in r.live && Covers(r, y, x);
        assert Covers(r', y, x);
      }
    }
  }

  lemma StoreInObj(h: Heap, l: Layout, a: int, b: int, i: int, v: int)
    requires Inv(h, l, -1) && 0 <= b < 9 && Obj(h, l, a, b) && a <= i < a + Size(b)
    ensures Inv(h.(mem := h.mem[i := v]), l, -1)
  {
    var d, k :| Live(l, d, k) && d < |h.desc| && l.on[d] == b && At(h, l, d, k) == a;
    StoreOk(h, l, d, k, i, v);
  }

  lemma StoreObj(h: Heap, l: Layout, i: int, v: int, x: int, c: int)
    ensures Obj(h.(mem := h.mem[i := v]), l, x, c) <==> Obj(h, l, x, c)
  {}

  lemma StoreOwns(h: Heap, l: Layout, i: int, v: int, p: int)
    ensures Owns(h.(mem := h.mem[i := v]), l, p) <==> Owns(h, l, p)
  {}

  method Step(heap: Allocator, op: Op, r: Books) returns (out: Out)
    requires heap.Valid() && Agree(heap.St(), heap.l, r)
    modifies heap, heap.heads
    ensures Allowed(r, op, out)
    ensures !out.Panic? ==> heap.Valid() && Agree(heap.St(), heap.l, Next(r, op, out))
  {
    ghost var h, l := heap.St(), heap.l;
    hide Inv, Obj, Handed, Released, Agree, Room, CutPages, NoneFree, Exhausted, Apart, Took, OutOfMemory;
    match op {
      case Alloc(len) => out := StepAlloc(heap, len, r);
      case Release(a, size) =>
        if !MayFree(r, a, size) { return Refused; }
        Owned(h, l, r, a);
        var ok := heap.FreeS(a, size);
        ReleaseAgree(h, l, r, heap.St(), heap.l, a, size);
        out := Ok;
      case Put(a, off, v) =>
        if !MayUse(r, a, off) { return Refused; }
        PutAgree(h, l, r, a, off, v);
        AgreeInv(h.(mem := h.mem[a + off := v]), l, Next(r, op, Ok));
        heap.mem := heap.mem[a + off := v];
        out := Ok;
      case Get(a, off) =>
        if !MayUse(r, a, off) { return Refused; }
        AgreeRead(h, l, r, a + off);
        out := Val(Read(heap.mem, a + off));
    }
  }

  method StepAlloc(heap: Allocator, len: nat, r: Books) returns (out: Out)
    requires heap.Valid() && Agree(heap.St(), heap.l, r)
    modifies heap, heap.heads
    ensures Allowed(r, Alloc(len), out)
    ensures !out.Panic? ==> heap.Valid() && Agree(heap.St(), heap.l, Next(r, Alloc(len), out))
  {
    hide Inv, Obj, Handed, Agree, Room, CutPages, NoneFree, Exhausted, Apart, OutOfMemory, Next, Spent;
    ghost var h, l := heap.St(), heap.l;
    if len <= PAGE { Counts(h, l, r, BucketFor(len)); }
    var got := heap.Malloc(len);
    if !got.Obtained? { return Panic; }
    AllocApart(h, l, r, heap.St(), heap.l, len, got.a);
    AllocPage(h, l, r, heap.St(), heap.l, len, got.a);
    AllocAgree(h, l, r, heap.St(), heap.l, len, got.a);
    out := Got(got.a);
  }

  lemma Owned(h: Heap, l: Layout, r: Books, a: int)
    requires Agree(h, l, r) && a in r.live && r.live[a] <= PAGE
    ensures Obj(h, l, a, BucketFor(r.live[a]))
  {}

  lemma AgreeInv(h: Heap, l: Layout, r: Books)
    requires Agree(h, l, r)
    ensures Inv(h, l, -1)
  {}

  lemma AgreeRead(h: Heap, l: Layout, r: Books, x: int)
    requires Agree(h, l, r)
    ensures x in r.cells ==> Read(h.mem, x) == r.cells[x]
  {}

  // the books after a run
  function After(r: Books, ops: seq<Op>, outs: seq<Out>): Books
    requires |outs| <= |ops|
    decreases outs
  { if outs == [] then r else After(Next(r, ops[0], outs[0]), ops[1..], outs[1..]) }

  // Every run is one its users may rely on, no page is lost, and once everything is given back every page is free again
  // except those that hold descriptors.
  method Run(heap: Allocator, ops: seq<Op>, r: Books) returns (outs: seq<Out>)
    requires heap.Valid() && Agree(heap.St(), heap.l, r)
    modifies heap, heap.heads
    ensures |outs| <= |ops| && Trace(r, ops, outs)
    ensures Panic !in outs ==> heap.Valid() && Agree(heap.St(), heap.l, After(r, ops, outs))
    ensures Panic !in outs ==>
      heap.pages + heap.taken + CutPages(After(r, ops, outs).live) == r.all && |heap.pages| == Left(After(r, ops, outs))
    decreases ops
  {
    hide Inv, Obj, Agree, Owns, Allowed, Next, CutPages, Knows;
    outs := [];
    if ops == [] {
      BookParts(heap.St(), heap.l, r);
      PagesLeft(heap.St(), heap.l, r.live, r.all);
    } else {
      var out := Step(heap, ops[0], r);
      if out.Panic? { return [out]; }
      SameAll(r, ops[0], out);
      var rest := Run(heap, ops[1..], Next(r, ops[0], out));
      outs := [out] + rest;
    }
  }

  lemma SameAll(r: Books, op: Op, out: Out)
    ensures Next(r, op, out).all == r.all
  {}

  function Start(free: set<int>): Books { Books(map[], map[], free, 0) }

  // From the start. When nothing is in use any more, all pages but those of the descriptors are free again.
  method Boot(free: set<int>, ops: seq<Op>) returns (heap: Allocator, outs: seq<Out>)
    requires forall p :: p in free ==> p > 0 && p % PAGE == 0
    ensures |outs| <= |ops| && Trace(Start(free), ops, outs)
    ensures Panic !in outs ==> heap.Valid() && |heap.taken| == After(Start(free), ops, outs).descs
    ensures Panic !in outs ==> heap.pages + heap.taken + CutPages(After(Start(free), ops, outs).live) == free
    ensures Panic !in outs ==> |heap.pages| == Left(After(Start(free), ops, outs))
    ensures Panic !in outs && After(Start(free), ops, outs).live == map[] ==> heap.pages + heap.taken == free
  {
    heap := new Allocator(free);
    assert Agree(heap.St(), heap.l, Start(free)) by { hide Inv, Obj; }
    hide Inv, Obj, Owns, Allowed, Next, CutPages, Knows, Trace, After;
    outs := Run(heap, ops, Start(free));
    CutNone();
  }

  lemma CutNone()
    ensures CutPages(map[]) == {}
  {}
}
