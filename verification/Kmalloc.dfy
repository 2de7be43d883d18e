// malloc and free_s (lib/malloc.c).
module Kmalloc {
  import opened Bytes
  import opened BucketLists
  import opened Buckets
  import opened HeapState

  // a is an object of bucket b that has been handed out
  ghost predicate Obj(h: Heap, l: Layout, a: int, b: int) {
    exists d, k :: Live(l, d, k) && d < |h.desc| && l.on[d] == b && At(h, l, d, k) == a
  }

  // Objects do not overlap.
  lemma ObjApart(h: Heap, l: Layout, x: int, a: int, b: int, a': int, b': int)
    requires Inv(h, l, x) && 0 <= b < 9 && 0 <= b' < 9 && Obj(h, l, a, b) && Obj(h, l, a', b') && a != a'
    ensures a + Size(b) <= a' || a' + Size(b') <= a
  {
    var d, k :| Live(l, d, k) && d < |h.desc| && l.on[d] == b && At(h, l, d, k) == a;
    var d', k' :| Live(l, d', k') && d' < |h.desc| && l.on[d'] == b' && At(h, l, d', k') == a';
    hide Inv, Size, Count, Addr;
    if d == d' {
      SlotsApart(h.desc[d].page, b, k, k');
    } else {
      SlotRange(h, l, x, d, k);
      SlotRange(h, l, x, d', k');
      PageGap(h, l, x, d, d');
    }
  }

  lemma PageGap(h: Heap, l: Layout, x: int, d: int, d': int)
    requires Inv(h, l, x) && InBucket(l, d) && InBucket(l, d') && d != d'
    ensures h.desc[d].page + PAGE <= h.desc[d'].page || h.desc[d'].page + PAGE <= h.desc[d].page
  {}

  lemma SlotsApart(page: int, b: int, k: int, k': int)
    requires 0 <= b < 9 && k != k'
    ensures Addr(page, b, k) + Size(b) <= Addr(page, b, k') || Addr(page, b, k') + Size(b) <= Addr(page, b, k)
  {}

  lemma SlotRange(h: Heap, l: Layout, x: int, d: int, k: int)
    requires Inv(h, l, x) && Live(l, d, k)
    ensures var p := h.desc[d].page; p % PAGE == 0 && p <= At(h, l, d, k) && At(h, l, d, k) + Size(l.on[d]) <= p + PAGE
  {}

  predicate HasRoom(l: Layout, d: int, b: int) { InBucket(l, d) && d < |l.free| && l.on[d] == b && l.free[d] != [] }
  ghost predicate NoneFree(l: Layout, b: int) {
    |l.on| == |l.free| && forall e :: InBucket(l, e) && l.on[e] == b ==> l.free[e] == []
  }
  datatype Result = Obtained(a: int) | TooLarge | NoMemory

  method Pick<T(==)>(s: set<T>) returns (x: T)
    requires s != {}
    ensures x in s
  { x :| x in s; }

  class Allocator {
    // the chains of bucket_dir, then free_bucket_desc
    const heads: array<int>
    var desc: seq<Desc>
    var mem: map<int, int>
    var pages: set<int>
    ghost var taken: set<int>
    ghost var l: Layout

    ghost function St(): Heap reads this, heads { Heap(heads[..], desc, mem, pages, taken) }
    ghost predicate Valid() reads this, heads { heads.Length == 10 == |l.lists| && Inv(St(), l, -1) }

    constructor (free: set<int>)
      requires forall p :: p in free ==> p > 0 && p % PAGE == 0
      ensures Valid() && fresh(heads) && pages == free && mem == map[] && desc == [] && taken == {}
      ensures forall a, b :: !Obj(St(), l, a, b)
    {
      heads := new int[10](_ => -1);
      desc, mem, pages, taken := [], map[], free, {};
      l := Layout(seq(10, _ => []), [], []);
    }

    // The search through bucket_dir.
    method FindBucket(len: nat) returns (b: int)
      ensures b == BucketFor(len)
    {
      b := 0;
      while b < 9 && Size(b) < len
        invariant 0 <= b <= 9 && forall c :: 0 <= c < b ==> Size(c) < len
      {
        b := b + 1;
      }
      SameBucket(len, b);
    }

    // The search through one chain for a page with a free object.
    method FindRoom(b: int) returns (d: int)
      requires Valid() && 0 <= b < 9
      ensures -1 <= d < |desc|
      ensures d >= 0 ==> HasRoom(l, d, b)
      ensures d == -1 <==> NoneFree(l, b)
    {
      ghost var list, i := l.lists[b], 0;
      WalkStart(St(), l, b);
      hide *;
      d := heads[b];
      while d != -1 && desc[d].freeptr == 0
        invariant 0 <= i <= |list| && d == (if i < |list| then list[i] else -1) && -1 <= d < |desc|
        invariant NoRoom(St(), l, b, i)
        decreases |list| - i
      {
        WalkStep(St(), l, b, i);
        d, i := desc[d].next, i + 1;
      }
      if d == -1 { WalkEnd(St(), l, b); } else { WalkFound(St(), l, b, i); }
    }

    // get_free_page: any free page, or 0
    method GetFreePage() returns (p: int)
      requires 0 !in pages
      modifies this`pages
      ensures p == 0 <==> old(pages) == {}
      ensures p != 0 ==> p in old(pages)
      ensures pages == if p == 0 then old(pages) else old(pages) - {p}
    {
      if pages == {} { return 0; }
      p := Pick(pages);
      pages := pages - {p};
    }

    // the loop of init_bucket_desc: each descriptor of the page points to the next, the last to the old list
    method DescPage(n: nat, next: int) returns (more: seq<Desc>)
      ensures more == DescSeq(n, next)
    {
      more := [];
      for i := 0 to DESCS
        invariant |more| == i && forall j :: 0 <= j < i ==> more[j] == NewDesc(n + j, n + DESCS - 1, next)
      {
        more := more + [NewDesc(n + i, n + DESCS - 1, next)];
      }
    }

    // init_bucket_desc, for an empty free list
    method InitBucketDesc() returns (ok: bool)
      requires Valid() && heads[SPARE] == -1
      modifies this, heads
      ensures ok <==> old(pages) != {}
      ensures !ok ==> unchanged(this) && unchanged(heads)
      ensures ok ==> Valid() && heads[SPARE] != -1 && |pages| == |old(pages)| - 1 && |taken| == |old(taken)| + 1
      ensures ok ==>
        exists p :: p in old(pages) && St() == MoreDescs(old(St()), p) && l == MoreLayout(old(l), |old(desc)|)
    {
      ghost var h := St();
      PositivePages(h, l);
      assert h.pages !! h.taken;
      var p := GetFreePage();
      if p == 0 { return false; }
      AddDescs(p, h);
      ok := true;
    }

    method AddDescs(p: int, ghost h: Heap)
      requires heads.Length == 10 == |l.lists| && Inv(h, l, -1) && p in h.pages && St() == h.(pages := h.pages - {p})
      modifies this, heads
      ensures Valid() && heads[SPARE] != -1 && St() == MoreDescs(h, p) && l == MoreLayout(old(l), |old(desc)|)
    {
      hide Inv, NewDesc, MoreLayout, DescSeq, Live;
      var n := |desc|;
      MoreDescsOk(h, l, p);
      var more := DescPage(n, heads[SPARE]);
      desc := desc + more;
      heads[SPARE] := n;
      taken := taken + {p};
      l := MoreLayout(l, n);
      assert heads[..] == h.heads[SPARE := n];
      assert St() == MoreDescs(h, p);
    }

    // Cut a page into objects and thread the free list through them.
    method Thread(p: int, b: int) returns (m: map<int, int>)
      requires 0 <= b < 9 && p > 0 && p % PAGE == 0
      ensures SameOutside(mem, m, p) && Threaded(m, p, b, p, Iota(0, Count(b)))
    {
      var cp, i := p, 1;
      m := mem;
      ghost var n := Count(b);
      while i < Count(b)
        invariant 1 <= i <= n && cp == Addr(p, b, i - 1) && SameOutside(mem, m, p) && Strung(m, p, b, i - 1)
      {
        StringOn(mem, m, p, b, i - 1, cp + Size(b));
        m := m[cp := cp + Size(b)];
        cp, i := cp + Size(b), i + 1;
      }
      StringOff(mem, m, p, b);
      m := m[cp := 0];
    }

    // A new page for bucket b. Failure is a panic: there is no page, or only one and that is wanted for descriptors.
    method NewBucket(b: int) returns (d: int)
      requires Valid() && 0 <= b < 9
      modifies this, heads
      ensures d == -1 <==> Exhausted(old(St()))
      ensures d != -1 ==> 0 <= d < |desc| && HasRoom(l, d, b) && Grown(old(St()), old(l), St(), l, d)
      ensures d != -1 ==> Spent(old(St()), St())
    {
      ghost var h0, l0 := St(), l;
      hide Inv, MoreDescs, MoreLayout, Obj, Grown;
      GrownStart(h0, l0);
      if heads[SPARE] == -1 {
        var ok := InitBucketDesc();
        if !ok {
          NoPages(h0);
          return -1;
        }
        ghost var p :| p in h0.pages && St() == MoreDescs(h0, p) && l == MoreLayout(l0, |h0.desc|);
        GrownDescs(h0, l0, p);
      }
      d := AddPage(b, h0, l0);
    }

    method AddPage(b: int, ghost h0: Heap, ghost l0: Layout) returns (d: int)
      requires Valid() && 0 <= b < 9 && heads[SPARE] != -1 && Grown(h0, l0, St(), l, -1)
      modifies this, heads
      ensures d == -1 <==> old(pages) == {}
      ensures d != -1 ==> 0 <= d < |desc| && HasRoom(l, d, b) && Grown(h0, l0, St(), l, d)
      ensures d != -1 ==> |pages| == |old(pages)| - 1 && taken == old(taken)
    {
      ghost var h := St();
      PositivePages(h, l);
      AddSteps(h, l, b);
      hide *;
      d := heads[SPARE];
      var next := desc[d].next;
      var page := GetFreePage();
      if page == 0 { return -1; }
      var m := Thread(page, b);
      GrownBucket(h0, l0, h, l, b, page, m);
      mem := m;
      heads[SPARE] := next;
      desc := desc[d := Desc(page, heads[b], page, 0, Size(b))];
      heads[b] := d;
      l := AddLayout(l, b);
      assert St() == AddBucket(h, old(l).lists[SPARE], b, page, m);
    }

    // malloc. TooLarge and NoMemory are its two panics.
    method Malloc(len: nat) returns (r: Result)
      requires Valid()
      modifies this, heads
      ensures r.TooLarge? <==> len > PAGE
      ensures r.NoMemory? <==> len <= PAGE && Exhausted(old(St())) && NoneFree(old(l), BucketFor(len))
      ensures r.Obtained? ==> Valid() && Handed(old(St()), old(l), St(), l, r.a, BucketFor(len))
      ensures r.Obtained? ==>
        if NoneFree(old(l), BucketFor(len)) then Spent(old(St()), St()) else pages == old(pages) && taken == old(taken)
    {
      ghost var h0, l0 := St(), l;
      var b := FindBucket(len);
      if b == 9 { return TooLarge; }
      hide Inv, Obj, Grown, HasRoom, NoneFree, Exhausted, Handed, TakeObj, SamePages, Owns, Spent;
      var d := FindRoom(b);
      if d == -1 {
        d := NewBucket(b);
        if d == -1 { return NoMemory; }
      } else {
        GrownHere(h0, l0, d, b);
      }
      ghost var h := St();
      var a := TakeFirst(d, b, h0, l0);
      SpentAs(h0, h, St());
      r := Obtained(a);
    }

    // Take the first object off the free list of d's page.
    method TakeFirst(d: int, b: int, ghost h0: Heap, ghost l0: Layout) returns (a: int)
      requires heads.Length == 10 && 0 <= d < |desc| && HasRoom(l, d, b) && Grown(h0, l0, St(), l, d)
      modifies this`desc, this`l
      ensures Valid() && Handed(h0, l0, St(), l, a, b)
    {
      ghost var h := St();
      HandedBy(h0, l0, h, l, d, b);
      hide Inv, Obj, Grown, Handed;
      a := desc[d].freeptr;
      desc := desc[d := desc[d].(freeptr := Read(mem, a), refcnt := desc[d].refcnt + 1)];
      l := l.(free := l.free[d := l.free[d][1..]]);
      assert St() == TakeObj(h, d);
    }

    // free_s's search of one chain for the descriptor of a page.
    method FindOnChain(b: int, page: int) returns (d: int, prev: int, ghost i: int)
      requires Valid() && 0 <= b < 9
      ensures -1 <= d < |desc| && -1 <= prev < |desc|
      ensures d == -1 ==> forall e :: InBucket(l, e) && l.on[e] == b ==> desc[e].page != page
      ensures d != -1 ==> FoundAt(St(), l, page, b, d, prev, i)
    {
      ghost var h, list := St(), l.lists[b];
      PassStart(h, l, b, page);
      hide *;
      d, prev, i := heads[b], -1, 0;
      while d != -1 && desc[d].page != page
        invariant 0 <= i <= |list| && d == (if i < |list| then list[i] else -1) && -1 <= d < |desc|
        invariant prev == (if i > 0 then list[i - 1] else -1) && -1 <= prev < |desc|
        invariant PassedOver(h, l, b, page, i)
        decreases |list| - i
      {
        PassStep(h, l, b, page, i);
        d, prev, i := desc[d].next, d, i + 1;
      }
      if d == -1 { PassEnd(h, l, b, page); } else { PassFound(h, l, b, page, i, prev); }
    }

    // free_s's search of all chains of large enough buckets.
    method FindPage(page: int, size: int) returns (b: int, d: int, prev: int, ghost i: int)
      requires Valid()
      ensures 0 <= b <= 9 && -1 <= d < |desc| && -1 <= prev < |desc|
      ensures b < 9 ==> Size(b) >= size && FoundAt(St(), l, page, b, d, prev, i)
      ensures b == 9 ==> forall e :: InBucket(l, e) && Size(l.on[e]) >= size ==> 0 <= e < |desc| && desc[e].page != page
    {
      b, d, prev, i := 0, -1, -1, 0;
      OnRange(St(), l);
      hide Inv;
      while b < 9
        invariant 0 <= b <= 9
        invariant forall e :: InBucket(l, e) && l.on[e] < b && Size(l.on[e]) >= size ==>
          0 <= e < |desc| && desc[e].page != page
      {
        if Size(b) >= size {
          d, prev, i := FindOnChain(b, page);
          if d != -1 { return; }
        }
        b := b + 1;
      }
      d, prev := -1, -1;
    }

    // free_s of an object that was handed out; size is 0 or what the caller says it asked for. Failure is its panic.
    method FreeS(a: int, size: int) returns (ok: bool)
      requires Valid() && exists c :: Obj(St(), l, a, c)
      modifies this, heads
      ensures Valid() && (ok <==> exists c :: 0 <= c < 9 && Obj(old(St()), old(l), a, c) && size <= Size(c))
      ensures !ok ==> unchanged(this) && unchanged(heads)
      ensures ok ==> Released(old(St()), old(l), St(), l, a) && taken == old(taken)
    {
      ghost var h, l0 := St(), l;
      var page := PageOf(a);
      var b, d, prev;
      ghost var i;
      hide Inv, Obj, Released;
      b, d, prev, i := FindPage(page, size);
      if b == 9 {
        NotFound(h, l0, a, size);
        return false;
      }
      Owner(h, l0, a, b, d, prev, i);
      ghost var k :| Live(l, d, k) && At(h, l, d, k) == a;
      Put(d, k, a, h);
      ghost var h1, l1 := St(), l;
      ReleasedBy(h, l0, d, k, b, i, prev);
      hide *;
      if desc[d].refcnt == 0 {
        var next := desc[d].next;
        if prev != -1 { desc := desc[prev := desc[prev].(next := next)]; } else { heads[b] := next; }
        pages := pages + {desc[d].page};
        desc := desc[d := desc[d].(next := heads[SPARE])];
        heads[SPARE] := d;
        l := DropLayout(l, b, i);
        assert St() == DropBucket(h1, l1.lists[b], b, i);
      }
      ok := true;
    }

    method Put(d: int, ghost k: int, a: int, ghost h: Heap)
      requires heads.Length == 10 && St() == h && 0 <= d < |desc| && d < |l.free|
      modifies this`desc, this`mem, this`l
      ensures St() == PutObj(h, d, a) && l == old(l).(free := old(l).free[d := [k] + old(l).free[d]])
    {
      mem := mem[a := desc[d].freeptr];
      desc := desc[d := desc[d].(freeptr := a, refcnt := desc[d].refcnt - 1)];
      l := l.(free := l.free[d := [k] + l.free[d]]);
    }
  }

  lemma SameBucket(len: nat, b: int)
    requires 0 <= b <= 9 && (b < 9 ==> Size(b) >= len) && forall c :: 0 <= c < b ==> Size(c) < len
    ensures b == BucketFor(len)
  {}

  // The first i pages on the chain have no free object.
  ghost predicate NoRoom(h: Heap, l: Layout, b: int, i: int)
  {
    && 0 <= b < 9 && Inv(h, l, -1) && |l.lists| == 10 && i <= |l.lists[b]|
    && forall j :: 0 <= j < i ==> 0 <= l.lists[b][j] < |l.free| && l.free[l.lists[b][j]] == []
  }

  lemma ChainAt(h: Heap, l: Layout, x: int, b: int, i: int)
    requires Inv(h, l, x) && 0 <= b < 9 && 0 <= i < |l.lists[b]|
    ensures var d := l.lists[b][i];
      && 0 <= d < |h.desc| && InBucket(l, d) && l.on[d] == b
        && h.desc[d].next == (if i + 1 < |l.lists[b]| then l.lists[b][i + 1] else -1)
      && (h.desc[d].freeptr == 0 <==> l.free[d] == [])
    ensures i + 1 < |l.lists[b]| ==> 0 <= l.lists[b][i + 1] < |h.desc|
  {
    OnList(h, l, b, i);
    var d := l.lists[b][i];
    assert Linked(h.desc, h.heads[b], l.lists[b]);
    assert h.desc[d].next == After(l.lists[b], i);
    hide After;
    assert BucketOk(h, d, b, l.free[d]);
    if l.free[d] != [] { SlotPage(h, l, x, d, l.free[d][0]); }
  }

  lemma WalkStart(h: Heap, l: Layout, b: int)
    requires Inv(h, l, -1) && 0 <= b < 9
    ensures NoRoom(h, l, b, 0) && h.heads[b] == (if |l.lists[b]| > 0 then l.lists[b][0] else -1)
    ensures -1 <= h.heads[b] < |h.desc|
  {}

  lemma WalkStep(h: Heap, l: Layout, b: int, i: int)
    requires NoRoom(h, l, b, i) && 0 <= i < |l.lists[b]| && 0 <= l.lists[b][i] < |h.desc|
    requires h.desc[l.lists[b][i]].freeptr == 0
    ensures NoRoom(h, l, b, i + 1)
    ensures h.desc[l.lists[b][i]].next == (if i + 1 < |l.lists[b]| then l.lists[b][i + 1] else -1)
    ensures -1 <= h.desc[l.lists[b][i]].next < |h.desc|
  {
    ChainAt(h, l, -1, b, i);
    hide Lists, Filled, Pages, Separate;
  }

  lemma WalkFound(h: Heap, l: Layout, b: int, i: int)
    requires NoRoom(h, l, b, i) && 0 <= i < |l.lists[b]| && 0 <= l.lists[b][i] < |h.desc|
    requires h.desc[l.lists[b][i]].freeptr != 0
    ensures HasRoom(l, l.lists[b][i], b) && !NoneFree(l, b)
  { ChainAt(h, l, -1, b, i); }

  lemma WalkEnd(h: Heap, l: Layout, b: int)
    requires 0 <= b < |l.lists| && NoRoom(h, l, b, |l.lists[b]|)
    ensures NoneFree(l, b)
  {}

  lemma PositivePages(h: Heap, l: Layout)
    requires Inv(h, l, -1)
    ensures forall p :: p in h.pages ==> p > 0 && p % PAGE == 0
  {}

  // The first n objects of the page point to their neighbours.
  ghost predicate Strung(m: map<int, int>, p: int, b: int, n: int)
    requires 0 <= b < 9
  { n < Count(b) && forall j :: 0 <= j < n ==> Read(m, Addr(p, b, j)) == Addr(p, b, j + 1) }

  lemma StringOn(mem: map<int, int>, m: map<int, int>, p: int, b: int, n: int, v: int)
    requires 0 <= b < 9 && p % PAGE == 0 && 0 <= n < Count(b) - 1 && SameOutside(mem, m, p) && Strung(m, p, b, n)
    requires v == Addr(p, b, n) + Size(b)
    ensures var m' := m[Addr(p, b, n) := v];
      SameOutside(mem, m', p) && Strung(m', p, b, n + 1) && v == Addr(p, b, n + 1)
  {
    var m' := m[Addr(p, b, n) := v];
    AddrPage(p, b, n, Addr(p, b, n));
    forall j | 0 <= j < n ensures Addr(p, b, j) != Addr(p, b, n) { Apart(p, b, j, n, Addr(p, b, j)); }
    assert v == Addr(p, b, n + 1) by { assert (n + 1) * Size(b) == n * Size(b) + Size(b); }
    hide Addr;
  }

  lemma StringOff(mem: map<int, int>, m: map<int, int>, p: int, b: int)
    requires 0 <= b < 9 && p > 0 && p % PAGE == 0 && SameOutside(mem, m, p) && Strung(m, p, b, Count(b) - 1)
    ensures var m' := m[Addr(p, b, Count(b) - 1) := 0];
      SameOutside(mem, m', p) && Threaded(m', p, b, p, Iota(0, Count(b)))
  {
    var n := Count(b) - 1;
    var m' := m[Addr(p, b, n) := 0];
    AddrPage(p, b, n, Addr(p, b, n));
    forall j | 0 <= j < n ensures Addr(p, b, j) != Addr(p, b, n) { Apart(p, b, j, n, Addr(p, b, j)); }
    assert Addr(p, b, 0) == p;
    hide Addr;
  }

  ghost predicate Exhausted(h: Heap)
    requires |h.heads| == 10
  {
    h.pages == {} || (h.heads[SPARE] == -1 && |h.pages| == 1)
  }

  // One page has been cut up, and another one filled with descriptors if there was none left.
  ghost predicate Spent(h: Heap, h': Heap)
    requires |h.heads| == 10
  {
    var n := if h.heads[SPARE] == -1 then 1 else 0;
    |h'.pages| == |h.pages| - 1 - n && |h'.taken| == |h.taken| + n
  }

  lemma SpentAs(h: Heap, h1: Heap, h2: Heap)
    requires |h.heads| == 10 && h2.pages == h1.pages && h2.taken == h1.taken
    ensures Spent(h, h1) <==> Spent(h, h2)
  {}

  // (h, l) has the objects of (h0, l0), with what their owners keep in them; only x may have a page without live
  // objects.
  ghost predicate Grown(h0: Heap, l0: Layout, h: Heap, l: Layout, x: int) {
    && Inv(h, l, x) && SamePages(h0, l0, h, l) && (forall a, b :: Obj(h, l, a, b) <==> Obj(h0, l0, a, b))
    && (forall a, b, i :: 0 <= b < 9 && Obj(h0, l0, a, b) && a <= i < a + Size(b) ==> Read(h.mem, i) == Read(h0.mem, i))
  }

  // Buckets stay where they are, and so do their live objects.
  ghost predicate SameLive(h0: Heap, l0: Layout, h: Heap, l: Layout) {
    && |l0.on| == |h0.desc| && |l.on| == |h.desc|
    && (forall d, k :: Live(l, d, k) <==> Live(l0, d, k))
    && (forall d, k :: Live(l0, d, k) ==> d < |l.on| && l.on[d] == l0.on[d] && h.desc[d].page == h0.desc[d].page)
  }

  lemma SameObj(h0: Heap, l0: Layout, h: Heap, l: Layout, a: int, b: int)
    requires SameLive(h0, l0, h, l)
    ensures Obj(h, l, a, b) <==> Obj(h0, l0, a, b)
  {}

  lemma GrownStart(h: Heap, l: Layout)
    requires Inv(h, l, -1)
    ensures Grown(h, l, h, l, -1)
  {}

  lemma GrownDescs(h0: Heap, l0: Layout, p: int)
    requires Inv(h0, l0, -1) && p in h0.pages && h0.heads[SPARE] == -1
    ensures Grown(h0, l0, MoreDescs(h0, p), MoreLayout(l0, |h0.desc|), -1)
    ensures MoreDescs(h0, p).pages == {} <==> Exhausted(h0)
  {
    MoreDescsOk(h0, l0, p);
    MorePagesSame(h0, l0, p);
    var h, l := MoreDescs(h0, p), MoreLayout(l0, |h0.desc|);
    assert SameLive(h0, l0, h, l);
    assert h.pages == h0.pages - {p} && h0.pages == h.pages + {p};
    hide Inv, SameLive;
    forall a, b ensures Obj(h, l, a, b) <==> Obj(h0, l0, a, b) { SameObj(h0, l0, h, l, a, b); }
  }

  lemma NoPages(h: Heap)
    requires |h.heads| == 10 && h.pages == {}
    ensures Exhausted(h)
  {}

  lemma AddSteps(h: Heap, l: Layout, b: int)
    requires Inv(h, l, -1) && h.heads[SPARE] != -1 && 0 <= b < 9
    ensures l.lists[SPARE] != [] && h.heads[SPARE] == l.lists[SPARE][0] && 0 <= h.heads[SPARE] < |h.desc|
  {}

  lemma GrownBucket(h0: Heap, l0: Layout, h: Heap, l: Layout, b: int, page: int, m: map<int, int>)
    requires Grown(h0, l0, h, l, -1) && 0 <= b < 9 && |l.lists| == 10 && l.lists[SPARE] != [] && page in h.pages
    requires SameOutside(h.mem, m, page) && Threaded(m, page, b, page, Iota(0, Count(b)))
    ensures InRange(h.desc, l.lists[SPARE]) && 0 <= l.lists[SPARE][0] < |l.on| == |l.free|
    ensures var d := l.lists[SPARE][0];
      Grown(h0, l0, AddBucket(h, l.lists[SPARE], b, page, m), AddLayout(l, b), d) && HasRoom(AddLayout(l, b), d, b)
  {
    AddBucketOk(h, l, b, page, m);
    AddPages(h, l, b, page, m);
    var h', l' := AddBucket(h, l.lists[SPARE], b, page, m), AddLayout(l, b);
    AddSameLive(h, l, b, page, m);
    forall a, c, i | 0 <= c < 9 && Obj(h, l, a, c) && a <= i < a + Size(c) ensures Read(h'.mem, i) == Read(h.mem, i) {
      AddFrame(h, l, page, m, a, c, i);
    }
    hide Inv, AddBucket, SameLive, Threaded, SameOutside, Obj, Live, Owns;
    forall a, c ensures Obj(h', l', a, c) <==> Obj(h, l, a, c) { SameObj(h, l, h', l', a, c); }
  }

  lemma AddSameLive(h: Heap, l: Layout, b: int, page: int, m: map<int, int>)
    requires Inv(h, l, -1) && 0 <= b < 9 && l.lists[SPARE] != [] && InRange(h.desc, l.lists[SPARE])
    requires 0 <= l.lists[SPARE][0] < |l.on| && l.on[l.lists[SPARE][0]] == SPARE
    requires forall e, k :: Live(AddLayout(l, b), e, k) <==> Live(l, e, k)
    ensures SameLive(h, l, AddBucket(h, l.lists[SPARE], b, page, m), AddLayout(l, b))
  {}

  lemma AddFrame(h: Heap, l: Layout, page: int, m: map<int, int>, a: int, b: int, i: int)
    requires Inv(h, l, -1) && page in h.pages && SameOutside(h.mem, m, page) && 0 <= b < 9 && Obj(h, l, a, b)
    requires a <= i < a + Size(b)
    ensures Read(m, i) == Read(h.mem, i)
  {
    var d, k :| Live(l, d, k) && d < |h.desc| && l.on[d] == b && At(h, l, d, k) == a;
    assert BucketOk(h, d, b, l.free[d]);
    AddrPage(h.desc[d].page, b, k, i);
  }

  // a is a new object of bucket b: all others are as they were, and so is what their owners keep in them.
  ghost predicate Handed(h0: Heap, l0: Layout, h: Heap, l: Layout, a: int, b: int) {
    && a > 0 && 0 <= b < 9 && SamePages(h0, l0, h, l) && (forall c :: !Obj(h0, l0, a, c))
    && (forall x, c :: Obj(h, l, x, c) <==> Obj(h0, l0, x, c) || (x == a && c == b))
    && (forall x, c, i :: 0 <= c < 9 && Obj(h0, l0, x, c) && x <= i < x + Size(c) ==> Read(h.mem, i) == Read(h0.mem, i))
  }

  lemma GrownHere(h: Heap, l: Layout, d: int, b: int)
    requires Inv(h, l, -1) && HasRoom(l, d, b)
    ensures Grown(h, l, h, l, d) && 0 <= d < |h.desc|
  {}

  lemma HandedBy(h0: Heap, l0: Layout, h: Heap, l: Layout, d: int, b: int)
    requires Grown(h0, l0, h, l, d) && HasRoom(l, d, b) && 0 <= d < |h.desc|
    ensures var l' := l.(free := l.free[d := l.free[d][1..]]);
      Inv(TakeObj(h, d), l', -1) && |l'.lists| == 10 && Handed(h0, l0, TakeObj(h, d), l', h.desc[d].freeptr, b)
  {
    var h', l', k, a := TakeObj(h, d), l.(free := l.free[d := l.free[d][1..]]), l.free[d][0], h.desc[d].freeptr;
    TakeObjOk(h, l, d);
    TakePages(h, l, d, l.free[d][1..]);
    SlotPage(h, l, d, d, k);
    hide Owns;
    forall c ensures !Obj(h, l, a, c) { FreshObj(h, l, d, k, c); }
    hide Inv;
    forall x, c ensures Obj(h', l', x, c) <==> Obj(h, l, x, c) || (x == a && c == b) { MoreObj(h, l, d, x, c); }
  }

  // A free object is nobody's.
  lemma FreshObj(h: Heap, l: Layout, d: int, k: int, c: int)
    requires Inv(h, l, d) && InBucket(l, d) && 0 <= k < Count(l.on[d]) && !Live(l, d, k)
    ensures !Obj(h, l, At(h, l, d, k), c)
  {
    if Obj(h, l, At(h, l, d, k), c) {
      var e, j :| Live(l, e, j) && e < |h.desc| && l.on[e] == c && At(h, l, e, j) == At(h, l, d, k);
      SlotPage(h, l, d, d, k);
      SlotPage(h, l, d, e, j);
      assert e == d by { hide Lists, Filled, Pages; }
      Apart(h.desc[d].page, l.on[d], k, j, At(h, l, d, k));
    }
  }

  lemma MoreObj(h: Heap, l: Layout, d: int, x: int, c: int)
    requires |l.on| == |l.free| == |h.desc| && InBucket(l, d) && l.free[d] != []
    requires var l' := l.(free := l.free[d := l.free[d][1..]]);
      forall e, j :: Live(l', e, j) <==> Live(l, e, j) || (e == d && j == l.free[d][0])
    ensures var l' := l.(free := l.free[d := l.free[d][1..]]);
      Obj(TakeObj(h, d), l', x, c) <==> Obj(h, l, x, c) || (x == At(h, l, d, l.free[d][0]) && c == l.on[d])
  {}

  lemma OnRange(h: Heap, l: Layout)
    requires Inv(h, l, -1)
    ensures |l.on| == |h.desc|
  {}

  // d is the i-th descriptor on the chain of b, after prev, and has the page.
  ghost predicate FoundAt(h: Heap, l: Layout, page: int, b: int, d: int, prev: int, i: int) {
    && 0 <= b < 9 && |l.lists| == 10 && 0 <= i < |l.lists[b]| && l.lists[b][i] == d && 0 <= d < |h.desc|
      && h.desc[d].page == page
    && InBucket(l, d) && l.on[d] == b && prev == (if i > 0 then l.lists[b][i - 1] else -1)
  }

  ghost predicate PassedOver(h: Heap, l: Layout, b: int, page: int, i: int) {
    && 0 <= b < 9 && Inv(h, l, -1) && |l.lists| == 10 && 0 <= i <= |l.lists[b]|
    && forall j :: 0 <= j < i ==> 0 <= l.lists[b][j] < |h.desc| && h.desc[l.lists[b][j]].page != page
  }

  lemma PassStart(h: Heap, l: Layout, b: int, page: int)
    requires Inv(h, l, -1) && 0 <= b < 9
    ensures PassedOver(h, l, b, page, 0) && h.heads[b] == (if |l.lists[b]| > 0 then l.lists[b][0] else -1)
    ensures -1 <= h.heads[b] < |h.desc|
  {}

  lemma PassStep(h: Heap, l: Layout, b: int, page: int, i: int)
    requires PassedOver(h, l, b, page, i) && i < |l.lists[b]| && 0 <= l.lists[b][i] < |h.desc|
    requires h.desc[l.lists[b][i]].page != page
    ensures PassedOver(h, l, b, page, i + 1)
    ensures h.desc[l.lists[b][i]].next == (if i + 1 < |l.lists[b]| then l.lists[b][i + 1] else -1)
    ensures -1 <= h.desc[l.lists[b][i]].next < |h.desc|
  {
    ChainAt(h, l, -1, b, i);
    hide Lists, Filled, Pages, Separate;
  }

  lemma PassEnd(h: Heap, l: Layout, b: int, page: int)
    requires 0 <= b < |l.lists| && PassedOver(h, l, b, page, |l.lists[b]|)
    ensures forall e :: InBucket(l, e) && l.on[e] == b ==> e < |h.desc| && h.desc[e].page != page
  {}

  lemma PassFound(h: Heap, l: Layout, b: int, page: int, i: int, prev: int)
    requires PassedOver(h, l, b, page, i) && i < |l.lists[b]| && 0 <= l.lists[b][i] < |h.desc|
    requires h.desc[l.lists[b][i]].page == page
    requires prev == (if i > 0 then l.lists[b][i - 1] else -1)
    ensures FoundAt(h, l, page, b, l.lists[b][i], prev, i)
  { ChainAt(h, l, -1, b, i); }

  ghost predicate LastOnPage(h: Heap, l: Layout, a: int) {
    forall x, c :: Obj(h, l, x, c) && PageOf(x) == PageOf(a) ==> x == a
  }

  // a is no longer an object; the others and what their owners keep in them are as they were; and its page goes
  // back exactly if a was the last object on it.
  ghost predicate Released(h0: Heap, l0: Layout, h: Heap, l: Layout, a: int) {
    && SamePages(h0, l0, h, l) && (forall x, c :: Obj(h, l, x, c) <==> Obj(h0, l0, x, c) && x != a)
    && (forall x, c, i :: 0 <= c < 9 && Obj(h, l, x, c) && x <= i < x + Size(c) ==> Read(h.mem, i) == Read(h0.mem, i))
    && h.pages == h0.pages + (if LastOnPage(h0, l0, a) then {PageOf(a)} else {})
  }

  // The page of an object tells its descriptor.
  lemma PageTells(h: Heap, l: Layout, x: int, d: int, k: int, e: int)
    requires Inv(h, l, x) && Live(l, d, k) && InBucket(l, e) && h.desc[e].page == PageOf(At(h, l, d, k))
    ensures e == d
  {}

  lemma NotFound(h: Heap, l: Layout, a: int, size: int)
    requires Inv(h, l, -1)
    requires forall e :: InBucket(l, e) && Size(l.on[e]) >= size ==> 0 <= e < |h.desc| && h.desc[e].page != PageOf(a)
    ensures forall c :: 0 <= c < 9 && Obj(h, l, a, c) ==> size > Size(c)
  {}

  lemma Owner(h: Heap, l: Layout, a: int, b: int, d: int, prev: int, i: int)
    requires Inv(h, l, -1) && FoundAt(h, l, PageOf(a), b, d, prev, i) && exists c :: Obj(h, l, a, c)
    ensures exists k :: Live(l, d, k) && At(h, l, d, k) == a
    ensures Obj(h, l, a, b) && |l.free| == |h.desc|
  {
    var c :| Obj(h, l, a, c);
    var e, k :| Live(l, e, k) && e < |h.desc| && l.on[e] == c && At(h, l, e, k) == a;
    PageTells(h, l, -1, e, k, d);
    hide Inv;
    assert Live(l, d, k) && At(h, l, d, k) == a;
  }

  lemma ReleasedBy(h: Heap, l: Layout, d: int, k: int, b: int, i: int, prev: int)
    requires Inv(h, l, -1) && Live(l, d, k) && d < |h.desc| && FoundAt(h, l, PageOf(At(h, l, d, k)), b, d, prev, i)
    ensures var h1, l1 := PutObj(h, d, At(h, l, d, k)), l.(free := l.free[d := [k] + l.free[d]]);
      if h1.desc[d].refcnt == 0 then InRange(h1.desc, l1.lists[b]) && |h1.heads| == 10
         && Inv(DropBucket(h1, l1.lists[b], b, i), DropLayout(l1, b, i), -1)
         && Released(h, l, DropBucket(h1, l1.lists[b], b, i), DropLayout(l1, b, i), At(h, l, d, k))
      else Inv(h1, l1, -1) && Released(h, l, h1, l1, At(h, l, d, k))
  {
    var a, h1, l1 := At(h, l, d, k), PutObj(h, d, At(h, l, d, k)), l.(free := l.free[d := [k] + l.free[d]]);
    InvLists(h, l, -1);
    hide Inv, Obj, Owns, SamePages, LastOnPage, Released, Size, Count, Addr, Read, PageOf;
    PutObjOk(h, l, d, k);
    PutPages(h, l, d, a, [k] + l.free[d]);
    PutObjs(h, l, d, k);
    LastWhen(h, l, d, k);
    SlotPage(h, l, -1, d, k);
    hide Live;
    if h1.desc[d].refcnt == 0 {
      ReleasedDrop(h, l, h1, l1, d, b, i, a);
    } else {
      StillLive(h1, l1, d);
      ReleasedKeep(h, l, h1, l1, a);
    }
  }

  lemma ReleasedKeep(h: Heap, l: Layout, h1: Heap, l1: Layout, a: int)
    requires SamePages(h, l, h1, l1) && !LastOnPage(h, l, a) && h1.pages == h.pages
    requires forall x, c :: Obj(h1, l1, x, c) <==> Obj(h, l, x, c) && x != a
    requires forall x, c, j :: 0 <= c < 9 && Obj(h1, l1, x, c) && x <= j < x + Size(c) ==>
      Read(h1.mem, j) == Read(h.mem, j)
    ensures Released(h, l, h1, l1, a)
  {}

  lemma StillLive(h: Heap, l: Layout, d: int)
    requires Inv(h, l, d) && InBucket(l, d) && h.desc[d].refcnt != 0
    ensures Inv(h, l, -1)
  { NoneLive(h, l, d, d); }

  lemma InvLists(h: Heap, l: Layout, x: int)
    requires Inv(h, l, x)
    ensures Lists(h, l) && |l.on| == |h.desc| == |l.free|
  {}

  lemma ReleasedDrop(h: Heap, l: Layout, h1: Heap, l1: Layout, d: int, b: int, i: int, a: int)
    requires Inv(h1, l1, d) && 0 <= b < 9 && |l1.lists| == 10 && 0 <= i < |l1.lists[b]| && l1.lists[b][i] == d
    requires 0 <= d < |h1.desc| && h1.desc[d].refcnt == 0
    requires SamePages(h, l, h1, l1) && LastOnPage(h, l, a) && h1.pages == h.pages && h1.desc[d].page == PageOf(a)
    requires forall x, c :: Obj(h1, l1, x, c) <==> Obj(h, l, x, c) && x != a
    requires forall x, c, j :: 0 <= c < 9 && Obj(h1, l1, x, c) && x <= j < x + Size(c) ==>
      Read(h1.mem, j) == Read(h.mem, j)
    ensures InRange(h1.desc, l1.lists[b]) && |h1.heads| == 10 && 0 <= d < |l1.on|
    ensures Inv(DropBucket(h1, l1.lists[b], b, i), DropLayout(l1, b, i), -1)
    ensures Released(h, l, DropBucket(h1, l1.lists[b], b, i), DropLayout(l1, b, i), a)
  {
    InvLists(h1, l1, d);
    hide Inv, Obj, Live, Owns, LastOnPage, SameLive, SamePages, Released;
    DropBucketOk(h1, l1, b, i);
    DropPages(h1, l1, b, i);
    DropSameLive(h1, l1, b, i);
    var h2, l2 := DropBucket(h1, l1.lists[b], b, i), DropLayout(l1, b, i);
    hide DropLayout, MovedDesc, MovedHeads;
    ReleasedVia(h, l, h1, l1, h2, l2, a);
  }

  lemma ReleasedVia(h: Heap, l: Layout, h1: Heap, l1: Layout, h2: Heap, l2: Layout, a: int)
    requires SamePages(h, l, h1, l1) && SamePages(h1, l1, h2, l2) && SameLive(h1, l1, h2, l2)
    requires LastOnPage(h, l, a) && h2.pages == h.pages + {PageOf(a)} && h2.mem == h1.mem
    requires forall x, c :: Obj(h1, l1, x, c) <==> Obj(h, l, x, c) && x != a
    requires forall x, c, j :: 0 <= c < 9 && Obj(h1, l1, x, c) && x <= j < x + Size(c) ==>
      Read(h1.mem, j) == Read(h.mem, j)
    ensures Released(h, l, h2, l2, a)
  {}

  lemma DropSameLive(h: Heap, l: Layout, b: int, i: int)
    requires Lists(h, l) && 0 <= b < 9 && 0 <= i < |l.lists[b]| && InRange(h.desc, l.lists[b]) && |l.on| == |h.desc|
    requires h.desc[l.lists[b][i]].refcnt == 0 && Inv(h, l, l.lists[b][i])
    requires forall e, j :: Live(DropLayout(l, b, i), e, j) <==> Live(l, e, j)
    ensures SameLive(h, l, DropBucket(h, l.lists[b], b, i), DropLayout(l, b, i))
  {
    var h', l', d := DropBucket(h, l.lists[b], b, i), DropLayout(l, b, i), l.lists[b][i];
    OnList(h, l, b, i);
    NoneLive(h, l, d, d);
    hide Inv, Lists, MovedDesc, MovedHeads;
    forall e, k | Live(l, e, k) ensures e < |l'.on| && l'.on[e] == l.on[e] && h'.desc[e].page == h.desc[e].page {
      assert Live(l', e, k);
      MovedBody(h.desc, h.heads, l.lists[b], i, SPARE, e);
    }
  }

  // Putting an object back leaves the others.
  lemma PutObjs(h: Heap, l: Layout, d: int, k: int)
    requires Inv(h, l, -1) && Live(l, d, k) && d < |h.desc|
    ensures var a, h1, l1 := At(h, l, d, k), PutObj(h, d, At(h, l, d, k)), l.(free := l.free[d := [k] + l.free[d]]);
      && (forall x, c :: Obj(h1, l1, x, c) <==> Obj(h, l, x, c) && x != a)
      && (forall x, c, i :: 0 <= c < 9 && Obj(h1, l1, x, c) && x <= i < x + Size(c) ==>
        Read(h1.mem, i) == Read(h.mem, i))
  {
    var a, h1, l1 := At(h, l, d, k), PutObj(h, d, At(h, l, d, k)), l.(free := l.free[d := [k] + l.free[d]]);
    PutObjOk(h, l, d, k);
    assert Obj(h, l, a, l.on[d]);
    forall x, c ensures Obj(h1, l1, x, c) <==> Obj(h, l, x, c) && x != a { LessObj(h, l, d, k, x, c); }
    forall x, c, i | 0 <= c < 9 && Obj(h1, l1, x, c) && x <= i < x + Size(c) ensures Read(h1.mem, i) == Read(h.mem, i) {
      ObjApart(h, l, -1, x, c, a, l.on[d]);
    }
  }

  lemma LessObj(h: Heap, l: Layout, d: int, k: int, x: int, c: int)
    requires Inv(h, l, -1) && Live(l, d, k) && d < |h.desc|
    requires var l1 := l.(free := l.free[d := [k] + l.free[d]]); forall e, j :: Live(l1, e, j) <==>
      Live(l, e, j) && !(e == d && j == k)
    ensures var a, h1, l1 := At(h, l, d, k), PutObj(h, d, At(h, l, d, k)), l.(free := l.free[d := [k] + l.free[d]]);
      Obj(h1, l1, x, c) <==> Obj(h, l, x, c) && x != a
  {
    var a, h1, l1 := At(h, l, d, k), PutObj(h, d, At(h, l, d, k)), l.(free := l.free[d := [k] + l.free[d]]);
    if Obj(h1, l1, x, c) {
      var e, j :| Live(l1, e, j) && e < |h1.desc| && l1.on[e] == c && At(h1, l1, e, j) == x;
      assert Live(l, e, j) && At(h, l, e, j) == x;
      Injective(h, l, d, k, e, j);
    }
    if Obj(h, l, x, c) && x != a {
      var e, j :| Live(l, e, j) && e < |h.desc| && l.on[e] == c && At(h, l, e, j) == x;
      assert Live(l1, e, j) && At(h1, l1, e, j) == x;
    }
  }

  // Different objects have different addresses.
  lemma Injective(h: Heap, l: Layout, d: int, k: int, e: int, j: int)
    requires Inv(h, l, -1) && Live(l, d, k) && Live(l, e, j) && d < |h.desc| && e < |h.desc|
    ensures At(h, l, d, k) == At(h, l, e, j) <==> d == e && k == j
  {
    if At(h, l, d, k) == At(h, l, e, j) {
      SlotPage(h, l, -1, e, j);
      PageTells(h, l, -1, d, k, e);
      if k != j { Apart(h.desc[d].page, l.on[d], k, j, At(h, l, d, k)); }
    }
  }

  // refcnt reaches zero exactly with the last object of the page.
  lemma LastWhen(h: Heap, l: Layout, d: int, k: int)
    requires Inv(h, l, -1) && Live(l, d, k) && d < |h.desc|
    ensures LastOnPage(h, l, At(h, l, d, k)) <==> PutObj(h, d, At(h, l, d, k)).desc[d].refcnt == 0
  {
    var a, h1, l1 := At(h, l, d, k), PutObj(h, d, At(h, l, d, k)), l.(free := l.free[d := [k] + l.free[d]]);
    PutObjOk(h, l, d, k);
    NoneLive(h1, l1, d, d);
    SlotPage(h, l, -1, d, k);
    if LastOnPage(h, l, a) {
      forall j ensures !Live(l1, d, j) {
        if Live(l1, d, j) {
          assert Live(l, d, j);
          SlotPage(h, l, -1, d, j);
          assert Obj(h, l, At(h, l, d, j), l.on[d]);
          Injective(h, l, d, k, d, j);
        }
      }
    }
    if h1.desc[d].refcnt == 0 {
      forall x, c | Obj(h, l, x, c) && PageOf(x) == PageOf(a) ensures x == a {
        var e, j :| Live(l, e, j) && e < |h.desc| && l.on[e] == c && At(h, l, e, j) == x;
        PageTells(h, l, -1, e, j, d);
        assert !Live(l1, d, j);
      }
    }
  }

  lemma BucketHasObj(h: Heap, l: Layout, d: int)
    requires Inv(h, l, -1) && InBucket(l, d)
    ensures exists k :: Live(l, d, k) && Obj(h, l, At(h, l, d, k), l.on[d])
  {
    assert BucketOk(h, d, l.on[d], l.free[d]) && h.desc[d].refcnt > 0;
    NoneLive(h, l, -1, d);
    var k :| Live(l, d, k);
    assert Obj(h, l, At(h, l, d, k), l.on[d]);
  }

  // When everything has been given back, no page is left cut up: all are free again but those that hold descriptors.
  lemma NothingLeft(h: Heap, l: Layout)
    requires Inv(h, l, -1) && forall a, b :: !Obj(h, l, a, b)
    ensures forall d :: 0 <= d < |l.on| ==> l.on[d] == SPARE
    ensures forall p :: Owns(h, l, p) <==> p in h.pages || p in h.taken
  {
    forall d | 0 <= d < |l.on| ensures l.on[d] == SPARE { if InBucket(l, d) { BucketHasObj(h, l, d); } }
  }
}
