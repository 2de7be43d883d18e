// The allocator's whole state and what every operation keeps (lib/malloc.c).
module HeapState {
  import opened Sequences
  import opened Bytes
  import opened BucketLists
  import opened Buckets

  // heads: the nine chains of bucket_dir, then free_bucket_desc. mem: what the words of the allocator's pages hold.
  // pages: what get_free_page can still give. taken: the pages that hold descriptors.
  datatype Heap = Heap(heads: seq<int>, desc: seq<Desc>, mem: map<int, int>, pages: set<int>, taken: set<int>)
  // lists: the descriptors on each list; on: the list each is on; free: the free objects of its page, in order
  datatype Layout = Layout(lists: seq<seq<int>>, on: seq<int>, free: seq<seq<int>>)

  // The page of d is cut up for bucket b: refcnt counts the objects that are not free.
  ghost predicate BucketOk(h: Heap, d: int, b: int, list: seq<int>)
    requires 0 <= d < |h.desc| && 0 <= b < 9
  {
    var e := h.desc[d];
    && e.size == Size(b) && e.page > 0 && e.page % PAGE == 0 && e.page !in h.pages && e.page !in h.taken
    && Threaded(h.mem, e.page, b, e.freeptr, list) && e.refcnt == Count(b) - |list|
  }

  predicate InBucket(l: Layout, d: int) { 0 <= d < |l.on| && 0 <= l.on[d] < 9 }

  // x: a descriptor whose page may for the moment have no live object
  ghost predicate Inv(h: Heap, l: Layout, x: int) { Lists(h, l) && Pages(h) && Filled(h, l, x) && Separate(h, l) }
  ghost predicate Lists(h: Heap, l: Layout) {
    |h.heads| == 10 == |l.lists| && |l.free| == |h.desc| && Listed(h.desc, h.heads, l.lists, l.on)
  }

  ghost predicate Pages(h: Heap) {
    (forall p :: p in h.pages || p in h.taken ==> p > 0 && p % PAGE == 0) && h.pages !! h.taken
      && |h.desc| == DESCS * |h.taken|
  }

  ghost predicate Filled(h: Heap, l: Layout, x: int) {
    |l.on| == |l.free| == |h.desc| && forall d :: InBucket(l, d) ==>
      BucketOk(h, d, l.on[d], l.free[d]) && (d != x ==> h.desc[d].refcnt > 0)
  }

  ghost predicate Separate(h: Heap, l: Layout) {
    |l.on| == |h.desc| && forall d, e :: InBucket(l, d) && InBucket(l, e) && d != e ==> h.desc[d].page != h.desc[e].page
  }

  // the k-th object of d's page is in use
  predicate Live(l: Layout, d: int, k: int) {
    InBucket(l, d) && d < |l.free| && 0 <= k < Count(l.on[d]) && k !in l.free[d]
  }

  function At(h: Heap, l: Layout, d: int, k: int): int
    requires InBucket(l, d) && d < |h.desc|
  { Addr(h.desc[d].page, l.on[d], k) }

  // ---- memory outside a page's free objects may change
  lemma BucketElsewhere(h: Heap, h': Heap, d: int, b: int, list: seq<int>)
    requires 0 <= d < |h.desc| && |h'.desc| == |h.desc| && 0 <= b < 9 && BucketOk(h, d, b, list)
    requires h'.desc[d] == h.desc[d].(next := h'.desc[d].next) && h.desc[d].page !in h'.pages
    requires h.desc[d].page !in h'.taken
    requires forall i :: 0 <= i < |list| ==> var a := Addr(h.desc[d].page, b, list[i]);
      Read(h'.mem, a) == Read(h.mem, a)
    ensures BucketOk(h', d, b, list)
  {}

  ghost predicate SameOutside(mem: map<int, int>, mem': map<int, int>, page: int) {
    forall a :: PageOf(a) != page ==> Read(mem', a) == Read(mem, a)
  }

  lemma OtherPage(h: Heap, h': Heap, d: int, b: int, list: seq<int>, page: int)
    requires 0 <= d < |h.desc| && |h'.desc| == |h.desc| && 0 <= b < 9 && BucketOk(h, d, b, list)
    requires h.desc[d].page != page
    requires h'.desc[d] == h.desc[d].(next := h'.desc[d].next) && h.desc[d].page !in h'.pages
    requires h.desc[d].page !in h'.taken
    requires SameOutside(h.mem, h'.mem, page)
    ensures BucketOk(h', d, b, list)
  {
    forall i | 0 <= i < |list| ensures var a := Addr(h.desc[d].page, b, list[i]); Read(h'.mem, a) == Read(h.mem, a) {
      AddrPage(h.desc[d].page, b, list[i], Addr(h.desc[d].page, b, list[i]));
    }
    BucketElsewhere(h, h', d, b, list);
  }

  // ---- taking an object off a page's free list
  function TakeObj(h: Heap, d: int): Heap
    requires 0 <= d < |h.desc|
  { h.(desc := h.desc[d := h.desc[d].(freeptr := Read(h.mem, h.desc[d].freeptr), refcnt := h.desc[d].refcnt + 1)]) }

  // One page changes, its place in the lists does not.
  lemma OneBucket(h: Heap, l: Layout, h': Heap, l': Layout, d: int, x: int)
    requires Inv(h, l, d) && InBucket(l, d) && |l'.free| == |l.free| && l' == l.(free := l.free[d := l'.free[d]])
    requires |h'.desc| == |h.desc| && h' == h.(desc := h.desc[d := h'.desc[d]], mem := h'.mem)
    requires h'.desc[d].page == h.desc[d].page && h'.desc[d].next == h.desc[d].next
    requires SameOutside(h.mem, h'.mem, h.desc[d].page)
    requires BucketOk(h', d, l.on[d], l'.free[d]) && (h'.desc[d].refcnt > 0 || x == d)
    ensures Inv(h', l', x)
  {
    ListedKept(h.desc, h.heads, l.lists, l.on, h'.desc);
    hide Listed, SameOutside;
    forall e | InBucket(l', e) ensures BucketOk(h', e, l'.on[e], l'.free[e]) && (e != x ==> h'.desc[e].refcnt > 0) {
      if e != d { OtherPage(h, h', e, l.on[e], l.free[e], h.desc[d].page); }
    }
    hide BucketOk;
  }

  lemma TakeObjOk(h: Heap, l: Layout, d: int)
    requires Inv(h, l, d) && InBucket(l, d) && l.free[d] != []
    ensures Inv(TakeObj(h, d), l.(free := l.free[d := l.free[d][1..]]), -1)
    ensures h.desc[d].freeptr == At(h, l, d, l.free[d][0]) && 0 <= l.free[d][0] < Count(l.on[d])
    ensures forall e, k :: Live(l.(free := l.free[d := l.free[d][1..]]), e, k) <==>
      Live(l, e, k) || (e == d && k == l.free[d][0])
  {
    var h', l', b := TakeObj(h, d), l.(free := l.free[d := l.free[d][1..]]), l.on[d];
    PopBucket(h, d, b, l.free[d]);
    TakenLive(l, d);
    hide BucketOk, Listed;
    OneBucket(h, l, h', l', d, -1);
  }

  lemma PopBucket(h: Heap, d: int, b: int, list: seq<int>)
    requires 0 <= d < |h.desc| && 0 <= b < 9 && BucketOk(h, d, b, list) && list != []
    ensures BucketOk(TakeObj(h, d), d, b, list[1..]) && TakeObj(h, d).desc[d].refcnt > 0
    ensures h.desc[d].freeptr == Addr(h.desc[d].page, b, list[0]) && 0 <= list[0] < Count(b)
    ensures forall i, j :: 0 <= i < j < |list| ==> list[i] != list[j]
  {
    PopThreaded(h.mem, h.desc[d].page, b, h.desc[d].freeptr, list);
    NoMoreThan(list, Count(b));
    hide Size, Count, Addr;
  }

  // Distinct numbers below n are at most n, and if they are n then they are all of them.
  lemma {:induction false} NoMoreThan(list: seq<int>, n: nat)
    requires forall i :: 0 <= i < |list| ==> 0 <= list[i] < n
    requires forall i, j :: 0 <= i < j < |list| ==> list[i] != list[j]
    ensures |list| <= n && (|list| == n ==> forall k :: 0 <= k < n ==> k in list)
    decreases n
  {
    if list != [] {
      assert 0 <= list[0] < n;
      if n - 1 in list {
        var i :| 0 <= i < |list| && list[i] == n - 1;
        var w := Without(list, i);
        forall x ensures x in w <==> x in list && x != n - 1 { WithoutHas(list, i, x); }
        WithoutLast(list, i, n);
        hide Without;
        NoMoreThan(w, n - 1);
      } else {
        NoMoreThan(list, n - 1);
      }
    }
  }

  lemma WithoutLast(list: seq<int>, i: int, n: nat)
    requires 0 <= i < |list| && list[i] == n - 1 && forall j :: 0 <= j < |list| ==> 0 <= list[j] < n
    requires forall j, k :: 0 <= j < k < |list| ==> list[j] != list[k]
    ensures var w := Without(list, i); |w| == |list| - 1 && forall j :: 0 <= j < |w| ==> 0 <= w[j] < n - 1
    ensures var w := Without(list, i); forall j, k :: 0 <= j < k < |w| ==> w[j] != w[k]
  {
    var w := Without(list, i);
    forall j | 0 <= j < |w| ensures w[j] == list[if j < i then j else j + 1] {}
  }

  lemma TakenLive(l: Layout, d: int)
    requires InBucket(l, d) && d < |l.free| && l.free[d] != [] && 0 <= l.free[d][0] < Count(l.on[d])
    requires forall i, j :: 0 <= i < j < |l.free[d]| ==> l.free[d][i] != l.free[d][j]
    ensures forall e, k :: Live(l.(free := l.free[d := l.free[d][1..]]), e, k) <==>
      Live(l, e, k) || (e == d && k == l.free[d][0])
  {
    var f := l.free[d];
    assert f == [f[0]] + f[1..];
    assert f[0] !in f[1..];
    var l' := l.(free := l.free[d := f[1..]]);
    forall e, k ensures Live(l', e, k) <==> Live(l, e, k) || (e == d && k == f[0]) {
      assert k in f <==> k == f[0] || k in f[1..];
      if e != d { assert InBucket(l', e) <==> InBucket(l, e); }
    }
  }

  // ---- putting an object back on the free list
  function PutObj(h: Heap, d: int, a: int): Heap
    requires 0 <= d < |h.desc|
  { h.(mem := h.mem[a := h.desc[d].freeptr],
    desc := h.desc[d := h.desc[d].(freeptr := a, refcnt := h.desc[d].refcnt - 1)]) }

  lemma PutObjOk(h: Heap, l: Layout, d: int, k: int)
    requires Inv(h, l, -1) && Live(l, d, k)
    ensures Inv(PutObj(h, d, At(h, l, d, k)), l.(free := l.free[d := [k] + l.free[d]]), d)
    ensures forall e, j :: Live(l.(free := l.free[d := [k] + l.free[d]]), e, j) <==>
      Live(l, e, j) && !(e == d && j == k)
  {
    var a := At(h, l, d, k);
    var h', l' := PutObj(h, d, a), l.(free := l.free[d := [k] + l.free[d]]);
    PushBucket(h, d, l.on[d], l.free[d], k);
    SlotPage(h, l, -1, d, k);
    hide BucketOk, Listed;
    OneBucket(h, l, h', l', d, d);
  }

  lemma SlotPage(h: Heap, l: Layout, x: int, d: int, k: int)
    requires Inv(h, l, x) && InBucket(l, d) && 0 <= k < Count(l.on[d])
    ensures PageOf(At(h, l, d, k)) == h.desc[d].page && At(h, l, d, k) > 0
  {}

  lemma PushBucket(h: Heap, d: int, b: int, list: seq<int>, k: int)
    requires 0 <= d < |h.desc| && 0 <= b < 9 && BucketOk(h, d, b, list) && 0 <= k < Count(b) && k !in list
    ensures BucketOk(PutObj(h, d, Addr(h.desc[d].page, b, k)), d, b, [k] + list)
  {
    PushThreaded(h.mem, h.desc[d].page, b, h.desc[d].freeptr, list, k);
    hide Size, Count, Addr, Threaded;
  }

  // No object of the page is live exactly when refcnt is zero.
  lemma NoneLive(h: Heap, l: Layout, x: int, d: int)
    requires Inv(h, l, x) && InBucket(l, d)
    ensures h.desc[d].refcnt >= 0 && (h.desc[d].refcnt == 0 <==> forall k :: !Live(l, d, k))
  {
    assert BucketOk(h, d, l.on[d], l.free[d]);
    NoMoreThan(l.free[d], Count(l.on[d]));
    if forall k :: !Live(l, d, k) {
      forall k | 0 <= k < Count(l.on[d]) ensures k in l.free[d] { assert !Live(l, d, k); }
      AllIn(l.free[d], Count(l.on[d]));
    }
  }

  lemma {:induction false} AllIn(list: seq<int>, n: nat)
    requires forall i, j :: 0 <= i < j < |list| ==> list[i] != list[j]
    ensures (forall k :: 0 <= k < n ==> k in list) ==> |list| >= n
    decreases n
  {
    if n > 0 && forall k :: 0 <= k < n ==> k in list {
      assert n - 1 in list;
      var i :| 0 <= i < |list| && list[i] == n - 1;
      var w := Without(list, i);
      forall x | 0 <= x < n - 1 ensures x in w { WithoutHas(list, i, x); }
      AllIn(w, n - 1);
    }
  }

  // ---- a user writes inside one of its objects
  lemma StoreOk(h: Heap, l: Layout, d: int, k: int, a: int, v: int)
    requires Inv(h, l, -1) && Live(l, d, k) && Within(a, h.desc[d].page, l.on[d], k)
    ensures Inv(h.(mem := h.mem[a := v]), l, -1)
  {
    var h', b, p, list := h.(mem := h.mem[a := v]), l.on[d], h.desc[d].page, l.free[d];
    assert BucketOk(h, d, b, list);
    AddrPage(p, b, k, a);
    forall i | 0 <= i < |list| ensures Read(h'.mem, Addr(p, b, list[i])) == Read(h.mem, Addr(p, b, list[i])) {
      Apart(p, b, k, list[i], a);
    }
    BucketElsewhere(h, h', d, b, list);
    hide BucketOk, Listed;
    OneBucket(h, l, h', l, d, -1);
  }

  // ---- a free descriptor gets a page
  function Dress(e: Desc, page: int, b: int): Desc
    requires 0 <= b < 9
  {
    e.(page := page, freeptr := page, refcnt := 0, size := Size(b))
  }

  function AddBucket(h: Heap, list: seq<int>, b: int, page: int, mem: map<int, int>): Heap
    requires 0 <= b < 9 && |h.heads| == 10 && list != [] && InRange(h.desc, list)
  {
    var s := MovedDesc(h.desc, h.heads, list, 0, b);
    Heap(MovedHeads(h.desc, h.heads, list, SPARE, 0, b), s[list[0] := Dress(s[list[0]], page, b)], mem,
      h.pages - {page}, h.taken)
  }

  ghost function AddLayout(l: Layout, b: int): (m: Layout)
    requires 0 <= b < 9 && |l.lists| == 10 && l.lists[SPARE] != [] && 0 <= l.lists[SPARE][0] < |l.on| == |l.free|
    ensures |m.lists| == 10
  {
    var d := l.lists[SPARE][0];
    Layout(l.lists[SPARE := Without(l.lists[SPARE], 0)][b := [d] + l.lists[b]], l.on[d := b],
      l.free[d := Iota(0, Count(b))])
  }

  lemma MovedBody(desc: seq<Desc>, heads: seq<int>, list: seq<int>, k: int, to: int, e: int)
    requires 0 <= k < |list| && 0 <= to < |heads| && InRange(desc, list) && 0 <= e < |desc|
    ensures MovedDesc(desc, heads, list, k, to)[e] == desc[e].(next := MovedDesc(desc, heads, list, k, to)[e].next)
  {}

  lemma AddLists(h: Heap, l: Layout, b: int, page: int, mem: map<int, int>)
    requires Lists(h, l) && 0 <= b < 9 && l.lists[SPARE] != []
    ensures InRange(h.desc, l.lists[SPARE])
    ensures Lists(AddBucket(h, l.lists[SPARE], b, page, mem), AddLayout(l, b))
    ensures l.on[l.lists[SPARE][0]] == SPARE
  {
    MoveOk(h.desc, h.heads, l.lists, l.on, SPARE, 0, b);
    var d := l.lists[SPARE][0];
    assert d in l.lists[SPARE] && l.on[d] == SPARE;
    var h', l' := AddBucket(h, l.lists[SPARE], b, page, mem), AddLayout(l, b);
    var s := MovedDesc(h.desc, h.heads, l.lists[SPARE], 0, b);
    hide Listed, MovedDesc, MovedHeads;
    ListedKept(s, h'.heads, l'.lists, l'.on, h'.desc);
  }

  lemma AddFilled(h: Heap, l: Layout, b: int, page: int, mem: map<int, int>)
    requires Filled(h, l, -1) && |h.heads| == 10 && |l.lists| == 10 && 0 <= b < 9 && l.lists[SPARE] != []
    requires page in h.pages && page > 0 && page % PAGE == 0 && page !in h.taken
    requires InRange(h.desc, l.lists[SPARE]) && l.on[l.lists[SPARE][0]] == SPARE
    requires SameOutside(h.mem, mem, page) && Threaded(mem, page, b, page, Iota(0, Count(b)))
    ensures Filled(AddBucket(h, l.lists[SPARE], b, page, mem), AddLayout(l, b), l.lists[SPARE][0])
    ensures forall e :: InBucket(AddLayout(l, b), e) && e != l.lists[SPARE][0] ==>
      InBucket(l, e) && AddBucket(h, l.lists[SPARE], b, page, mem).desc[e].page == h.desc[e].page != page
  {
    var d, h', l' := l.lists[SPARE][0], AddBucket(h, l.lists[SPARE], b, page, mem), AddLayout(l, b);
    hide SameOutside, Threaded, MovedDesc, MovedHeads;
    forall e | InBucket(l', e) && e != d
      ensures BucketOk(h', e, l'.on[e], l'.free[e]) && InBucket(l, e) && h'.desc[e].refcnt > 0
      ensures h'.desc[e].page == h.desc[e].page != page
    {
      assert InBucket(l, e) && BucketOk(h, e, l.on[e], l.free[e]);
      MovedBody(h.desc, h.heads, l.lists[SPARE], 0, b, e);
      OtherPage(h, h', e, l.on[e], l.free[e], page);
    }
    assert BucketOk(h', d, b, l'.free[d]);
  }

  lemma AddBucketOk(h: Heap, l: Layout, b: int, page: int, mem: map<int, int>)
    requires Inv(h, l, -1) && 0 <= b < 9 && l.lists[SPARE] != [] && page in h.pages
    requires SameOutside(h.mem, mem, page) && Threaded(mem, page, b, page, Iota(0, Count(b)))
    ensures InRange(h.desc, l.lists[SPARE])
    ensures Inv(AddBucket(h, l.lists[SPARE], b, page, mem), AddLayout(l, b), l.lists[SPARE][0])
    ensures l.on[l.lists[SPARE][0]] == SPARE && forall e, k :: Live(AddLayout(l, b), e, k) <==> Live(l, e, k)
  {
    hide Listed, SameOutside, Threaded, BucketOk, MovedDesc, MovedHeads;
    AddLists(h, l, b, page, mem);
    AddFilled(h, l, b, page, mem);
    AddedLive(l, b);
    AddedSeparate(h, AddBucket(h, l.lists[SPARE], b, page, mem), l, AddLayout(l, b), l.lists[SPARE][0]);
  }

  lemma AddedSeparate(h: Heap, h': Heap, l: Layout, l': Layout, d: int)
    requires Separate(h, l) && |l'.on| == |h'.desc| == |h.desc| && 0 <= d < |h.desc|
    requires forall e :: InBucket(l', e) && e != d ==>
      InBucket(l, e) && h'.desc[e].page == h.desc[e].page != h'.desc[d].page
    ensures Separate(h', l')
  {}

  lemma AddedLive(l: Layout, b: int)
    requires 0 <= b < 9 && |l.lists| == 10 && l.lists[SPARE] != [] && 0 <= l.lists[SPARE][0] < |l.on| == |l.free|
    requires l.on[l.lists[SPARE][0]] == SPARE
    ensures forall e, k :: Live(AddLayout(l, b), e, k) <==> Live(l, e, k)
  {
    var f := Iota(0, Count(b));
    forall k | 0 <= k < Count(b) ensures k in f { assert f[k] == k; }
    hide Iota;
  }

  // ---- a page without live objects goes back
  function DropBucket(h: Heap, list: seq<int>, b: int, k: int): Heap
    requires 0 <= b < 9 && |h.heads| == 10 && 0 <= k < |list| && InRange(h.desc, list)
  {
    Heap(MovedHeads(h.desc, h.heads, list, b, k, SPARE), MovedDesc(h.desc, h.heads, list, k, SPARE), h.mem,
         h.pages + {h.desc[list[k]].page}, h.taken)
  }

  ghost function DropLayout(l: Layout, b: int, k: int): (m: Layout)
    requires 0 <= b < 9 && |l.lists| == 10 && 0 <= k < |l.lists[b]| && 0 <= l.lists[b][k] < |l.on|
    ensures |m.lists| == 10
  {
    var d := l.lists[b][k];
    l.(lists := l.lists[b := Without(l.lists[b], k)][SPARE := [d] + l.lists[SPARE]], on := l.on[d := SPARE])
  }

  lemma DropFilled(h: Heap, l: Layout, b: int, k: int)
    requires 0 <= b < |l.lists| == 10 && b < 9 && 0 <= k < |l.lists[b]| && |h.heads| == 10
    requires Filled(h, l, l.lists[b][k]) && Separate(h, l) && InRange(h.desc, l.lists[b]) && l.on[l.lists[b][k]] == b
    ensures Filled(DropBucket(h, l.lists[b], b, k), DropLayout(l, b, k), -1)
    ensures forall e :: InBucket(DropLayout(l, b, k), e) ==>
      InBucket(l, e) && DropBucket(h, l.lists[b], b, k).desc[e].page == h.desc[e].page
  {
    var d, h', l' := l.lists[b][k], DropBucket(h, l.lists[b], b, k), DropLayout(l, b, k);
    hide MovedDesc, MovedHeads;
    forall e | InBucket(l', e)
      ensures e != d && InBucket(l, e) && BucketOk(h', e, l'.on[e], l'.free[e]) && h'.desc[e].refcnt > 0
      && h'.desc[e].page == h.desc[e].page
    {
      assert BucketOk(h, e, l.on[e], l.free[e]);
      MovedBody(h.desc, h.heads, l.lists[b], k, SPARE, e);
      BucketElsewhere(h, h', e, l.on[e], l.free[e]);
    }
  }

  lemma DropBucketOk(h: Heap, l: Layout, b: int, k: int)
    requires 0 <= b < 9 && |l.lists| == 10 && 0 <= k < |l.lists[b]| && 0 <= l.lists[b][k] < |h.desc|
    requires Inv(h, l, l.lists[b][k]) && h.desc[l.lists[b][k]].refcnt == 0
    ensures InRange(h.desc, l.lists[b])
    ensures Inv(DropBucket(h, l.lists[b], b, k), DropLayout(l, b, k), -1)
    ensures forall e, j :: Live(DropLayout(l, b, k), e, j) <==> Live(l, e, j)
  {
    hide Listed, MovedDesc, MovedHeads;
    MoveOk(h.desc, h.heads, l.lists, l.on, b, k, SPARE);
    var d := l.lists[b][k];
    OnList(h, l, b, k);
    assert BucketOk(h, d, b, l.free[d]);
    hide BucketOk;
    NoneLive(h, l, d, d);
    DropFilled(h, l, b, k);
  }

  lemma OnList(h: Heap, l: Layout, b: int, k: int)
    requires Lists(h, l) && 0 <= b < |l.lists| && 0 <= k < |l.lists[b]|
    ensures 0 <= l.lists[b][k] < |l.on| && l.on[l.lists[b][k]] == b
  {}

  // ---- a page of new descriptors, linked in front of the free ones
  function NewDesc(d: int, last: int, next: int): Desc { Desc(0, if d == last then next else d + 1, 0, 0, 0) }

  function DescSeq(n: int, next: int): (s: seq<Desc>)
    ensures |s| == DESCS && forall i :: 0 <= i < DESCS ==> s[i] == NewDesc(n + i, n + DESCS - 1, next)
  { seq(DESCS, i => NewDesc(n + i, n + DESCS - 1, next)) }

  function MoreDescs(h: Heap, page: int): Heap
    requires |h.heads| == 10
  {
    var n := |h.desc|;
    Heap(h.heads[SPARE := n], h.desc + DescSeq(n, h.heads[SPARE]), h.mem, h.pages - {page}, h.taken + {page})
  }

  ghost function MoreLayout(l: Layout, n: int): (m: Layout)
    requires |l.lists| == 10 && n >= 0
    ensures |m.lists| == 10
  {
    Layout(l.lists[SPARE := Iota(n, n + DESCS) + l.lists[SPARE]], l.on + seq(DESCS, _ => SPARE),
      l.free + seq(DESCS, _ => []))
  }

  lemma MoreLinked(h: Heap, l: Layout, page: int, b: int)
    requires Lists(h, l) && 0 <= b < 10
    ensures Linked(MoreDescs(h, page).desc, MoreDescs(h, page).heads[b], MoreLayout(l, |h.desc|).lists[b])
  {
    var h', list, n := MoreDescs(h, page), l.lists[b], |h.desc|;
    assert Linked(h.desc, h.heads[b], list);
    if b != SPARE {
      LinkedGrown(h.desc, h.heads[b], list, h'.desc);
    } else {
      MoreSpare(h, l, page);
    }
  }

  lemma MoreSpare(h: Heap, l: Layout, page: int)
    requires Lists(h, l)
    ensures Linked(MoreDescs(h, page).desc, |h.desc|, Iota(|h.desc|, |h.desc| + DESCS) + l.lists[SPARE])
  {}

  lemma LinkedGrown(desc: seq<Desc>, head: int, list: seq<int>, desc': seq<Desc>)
    requires Linked(desc, head, list) && desc <= desc'
    ensures Linked(desc', head, list)
  {}

  lemma MoreDescsOk(h: Heap, l: Layout, page: int)
    requires Inv(h, l, -1) && page in h.pages
    ensures Inv(MoreDescs(h, page), MoreLayout(l, |h.desc|), -1)
    ensures forall e, k :: Live(MoreLayout(l, |h.desc|), e, k) <==> Live(l, e, k)
  {
    var h', l', n := MoreDescs(h, page), MoreLayout(l, |h.desc|), |h.desc|;
    hide Listed, NewDesc, Iota, DescSeq;
    MoreLists(h, l, page);
    MorePages(h, page);
    hide Pages;
    forall d | InBucket(l', d)
      ensures InBucket(l, d) && h'.desc[d] == h.desc[d] && BucketOk(h', d, l'.on[d], l'.free[d])
    {
      assert BucketOk(h, d, l.on[d], l.free[d]);
    }
    hide BucketOk;
  }

  lemma MorePages(h: Heap, page: int)
    requires Pages(h) && |h.heads| == 10 && page in h.pages
    ensures Pages(MoreDescs(h, page))
  {}

  lemma MoreLists(h: Heap, l: Layout, page: int)
    requires Lists(h, l)
    ensures Lists(MoreDescs(h, page), MoreLayout(l, |h.desc|))
  {
    var h', l', n := MoreDescs(h, page), MoreLayout(l, |h.desc|), |h.desc|;
    forall b | 0 <= b < 10 ensures Linked(h'.desc, h'.heads[b], l'.lists[b]) { MoreLinked(h, l, page, b); }
    forall b, d | 0 <= b < 10 && 0 <= d < |h'.desc| ensures d in l'.lists[b] <==> l'.on[d] == b {
      MoreHas(h, l, page, b, d);
    }
  }

  lemma MoreHas(h: Heap, l: Layout, page: int, b: int, d: int)
    requires Lists(h, l) && 0 <= b < 10 && 0 <= d < |h.desc| + DESCS
    ensures d in MoreLayout(l, |h.desc|).lists[b] <==> MoreLayout(l, |h.desc|).on[d] == b
  {
    var n := |h.desc|;
    assert Linked(h.desc, h.heads[b], l.lists[b]);
    hide After;
    if d < n { assert d in l.lists[b] <==> l.on[d] == b; } else { assert Iota(n, n + DESCS)[d - n] == d; }
  }

  // ---- pages: free, holding descriptors, or cut into objects
  ghost predicate Owns(h: Heap, l: Layout, p: int) {
    p in h.pages || p in h.taken || exists d :: InBucket(l, d) && d < |h.desc| && h.desc[d].page == p
  }
  // No page comes or goes.
  ghost predicate SamePages(h0: Heap, l0: Layout, h: Heap, l: Layout) { forall p :: Owns(h, l, p) <==> Owns(h0, l0, p) }

  lemma TakePages(h: Heap, l: Layout, d: int, f: seq<int>)
    requires 0 <= d < |h.desc| == |l.free|
    ensures SamePages(h, l, TakeObj(h, d), l.(free := l.free[d := f]))
  {
    var h', l' := TakeObj(h, d), l.(free := l.free[d := f]);
    forall p ensures Owns(h', l', p) <==> Owns(h, l, p) { SameBuckets(h, l, h', l', p); }
  }

  lemma PutPages(h: Heap, l: Layout, d: int, a: int, f: seq<int>)
    requires 0 <= d < |h.desc| == |l.free|
    ensures SamePages(h, l, PutObj(h, d, a), l.(free := l.free[d := f]))
  {
    var h', l' := PutObj(h, d, a), l.(free := l.free[d := f]);
    forall p ensures Owns(h', l', p) <==> Owns(h, l, p) { SameBuckets(h, l, h', l', p); }
  }

  lemma SameBuckets(h: Heap, l: Layout, h': Heap, l': Layout, p: int)
    requires |h'.desc| == |h.desc| && l'.on == l.on && h'.pages == h.pages && h'.taken == h.taken
    requires forall d :: 0 <= d < |h.desc| ==> h'.desc[d].page == h.desc[d].page
    ensures Owns(h', l', p) <==> Owns(h, l, p)
  {}

  // Descriptor d, not in a bucket, gets a free page p, and the other way round.
  lemma MovedPage(h: Heap, l: Layout, h': Heap, l': Layout, d: int, q: int)
    requires |l.on| == |h.desc| == |h'.desc| == |l'.on| && 0 <= d < |h.desc| && !InBucket(l, d) && InBucket(l', d)
    requires h'.desc[d].page in h.pages
    requires forall e :: 0 <= e < |l.on| && e != d ==> l'.on[e] == l.on[e] && h'.desc[e].page == h.desc[e].page
    requires h'.taken == h.taken && h'.pages == h.pages - {h'.desc[d].page}
    ensures Owns(h', l', q) <==> Owns(h, l, q)
  {
    if e :| InBucket(l, e) && e < |h.desc| && h.desc[e].page == q { assert InBucket(l', e) && h'.desc[e].page == q; }
    if e :| InBucket(l', e) && e < |h'.desc| && h'.desc[e].page == q {
      assert e != d ==> InBucket(l, e) && h.desc[e].page == q;
    }
    if q == h'.desc[d].page { assert InBucket(l', d) && h'.desc[d].page == q; }
  }

  lemma AddPages(h: Heap, l: Layout, b: int, page: int, mem: map<int, int>)
    requires Inv(h, l, -1) && 0 <= b < 9 && l.lists[SPARE] != [] && page in h.pages
    requires InRange(h.desc, l.lists[SPARE]) && l.on[l.lists[SPARE][0]] == SPARE
    ensures SamePages(h, l, AddBucket(h, l.lists[SPARE], b, page, mem), AddLayout(l, b))
  {
    var d, h', l' := l.lists[SPARE][0], AddBucket(h, l.lists[SPARE], b, page, mem), AddLayout(l, b);
    hide Lists, Filled, Pages, Separate, MovedDesc, MovedHeads;
    forall e | 0 <= e < |l.on| && e != d ensures l'.on[e] == l.on[e] && h'.desc[e].page == h.desc[e].page {
      MovedBody(h.desc, h.heads, l.lists[SPARE], 0, b, e);
    }
    forall q ensures Owns(h', l', q) <==> Owns(h, l, q) { MovedPage(h, l, h', l', d, q); }
  }

  lemma DropPages(h: Heap, l: Layout, b: int, k: int)
    requires 0 <= b < 9 && |l.lists| == 10 && 0 <= k < |l.lists[b]| && InRange(h.desc, l.lists[b])
    requires Inv(h, l, l.lists[b][k])
    ensures SamePages(h, l, DropBucket(h, l.lists[b], b, k), DropLayout(l, b, k))
  {
    OnList(h, l, b, k);
    var d, h', l' := l.lists[b][k], DropBucket(h, l.lists[b], b, k), DropLayout(l, b, k);
    assert BucketOk(h, d, b, l.free[d]);
    hide Lists, Filled, Pages, Separate, MovedDesc, MovedHeads;
    forall e | 0 <= e < |l.on| ensures h'.desc[e].page == h.desc[e].page {
      MovedBody(h.desc, h.heads, l.lists[b], k, SPARE, e);
    }
    assert h.pages == h'.pages - {h.desc[d].page};
    forall q ensures Owns(h, l, q) <==> Owns(h', l', q) { MovedPage(h', l', h, l, d, q); }
  }

  lemma MorePagesSame(h: Heap, l: Layout, page: int)
    requires Inv(h, l, -1) && page in h.pages
    ensures SamePages(h, l, MoreDescs(h, page), MoreLayout(l, |h.desc|))
  {
    var h', l', n := MoreDescs(h, page), MoreLayout(l, |h.desc|), |h.desc|;
    hide Listed, Filled, Separate, DescSeq, Iota;
    forall q ensures Owns(h', l', q) <==> Owns(h, l, q) {
      if d :| InBucket(l, d) && d < |h.desc| && h.desc[d].page == q { assert InBucket(l', d) && h'.desc[d].page == q; }
      if d :| InBucket(l', d) && d < |h'.desc| && h'.desc[d].page == q { assert InBucket(l, d) && h.desc[d].page == q; }
    }
  }
}
