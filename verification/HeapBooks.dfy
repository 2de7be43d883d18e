// What the users of the allocator can work out from the objects they hold: which pages are cut up, where there is still
// room, and how many pages are left (lib/malloc.c).
module HeapBooks {
  import opened Bytes
  import opened Counting
  import opened BucketLists
  import opened Buckets
  import opened HeapState
  import opened Kmalloc

  // live: the objects in use with the lengths asked for
  ghost predicate Knows(h: Heap, l: Layout, live: map<int, nat>) {
    && Inv(h, l, -1) && (forall a :: a in live ==> live[a] <= PAGE)
    && (forall a, b :: Obj(h, l, a, b) <==> a in live && b == BucketFor(live[a]))
  }

  function CutPages(live: map<int, nat>): set<int> { set a | a in live :: PageOf(a) }
  function LiveOn(live: map<int, nat>, p: int): set<int> { set a | a in live && PageOf(a) == p }
  // some page of the bucket has fewer objects in use than it has place for
  predicate Room(live: map<int, nat>, b: int)
    requires 0 <= b < 9
  { exists a :: a in live && BucketFor(live[a]) == b && |LiveOn(live, PageOf(a))| < Count(b) }

  lemma {:induction false} DistinctSize(list: seq<int>)
    requires forall i, j :: 0 <= i < j < |list| ==> list[i] != list[j]
    ensures |set x | x in list| == |list|
  {
    var s := set x | x in list;
    if list == [] {
      assert s == {};
    } else {
      DistinctSize(list[1..]);
      assert list == [list[0]] + list[1..];
      assert s == {list[0]} + set x | x in list[1..];
      assert list[0] !in list[1..];
    }
  }

  lemma SlotsLeft(list: seq<int>, n: nat)
    requires forall i :: 0 <= i < |list| ==> 0 <= list[i] < n
    requires forall i, j :: 0 <= i < j < |list| ==> list[i] != list[j]
    ensures |set k | 0 <= k < n && k !in list| == n - |list|
  {
    DistinctSize(list);
    var f := set x | x in list;
    assert (set k | 0 <= k < n && k !in list) == Range(n) - f;
    assert f <= Range(n);
    assert |Range(n)| == |Range(n) - f| + |f| by { assert Range(n) == (Range(n) - f) + f; }
  }

  lemma Slotted(h: Heap, l: Layout, d: int)
    requires Inv(h, l, -1) && InBucket(l, d)
    ensures d < |h.desc| && d < |l.free| && forall i :: 0 <= i < |l.free[d]| ==> 0 <= l.free[d][i] < Count(l.on[d])
    ensures forall i, j :: 0 <= i < j < |l.free[d]| ==> l.free[d][i] != l.free[d][j]
    ensures h.desc[d].page !in h.pages && h.desc[d].page !in h.taken
  { assert BucketOk(h, d, l.on[d], l.free[d]); }

  // Where the object at a is.
  lemma Placed(h: Heap, l: Layout, live: map<int, nat>, a: int) returns (d: int, k: int)
    requires Knows(h, l, live) && a in live
    ensures Live(l, d, k) && d < |h.desc| && l.on[d] == BucketFor(live[a]) && At(h, l, d, k) == a
      && PageOf(a) == h.desc[d].page
  {
    hide Inv, BucketFor;
    assert Obj(h, l, a, BucketFor(live[a]));
    d, k :| Live(l, d, k) && d < |h.desc| && l.on[d] == BucketFor(live[a]) && At(h, l, d, k) == a;
    SlotPage(h, l, -1, d, k);
  }

  lemma Held(h: Heap, l: Layout, live: map<int, nat>, d: int, k: int)
    requires Knows(h, l, live) && Live(l, d, k)
    ensures d < |h.desc| && At(h, l, d, k) in live && BucketFor(live[At(h, l, d, k)]) == l.on[d]
    ensures PageOf(At(h, l, d, k)) == h.desc[d].page
  {
    Slotted(h, l, d);
    hide Inv, BucketFor;
    assert Obj(h, l, At(h, l, d, k), l.on[d]);
    SlotPage(h, l, -1, d, k);
  }

  // refcnt is the number of objects in use on the page.
  lemma LiveOnIs(h: Heap, l: Layout, live: map<int, nat>, d: int)
    requires Knows(h, l, live) && InBucket(l, d)
    ensures d < |h.desc| && d < |l.free| && |LiveOn(live, h.desc[d].page)| == Count(l.on[d]) - |l.free[d]|
  {
    Slotted(h, l, d);
    hide Inv, BucketFor, Count, Size;
    var b, page := l.on[d], h.desc[d].page;
    var ks, f, t := set k | 0 <= k < Count(b) && k !in l.free[d], (k: int) => Addr(page, b, k), LiveOn(live, page);
    SlotsLeft(l.free[d], Count(b));
    forall k | k in ks ensures f(k) in t { Held(h, l, live, d, k); }
    forall k, j | k in ks && j in ks && f(k) == f(j) ensures k == j { Injective(h, l, d, k, d, j); }
    forall a | a in t ensures exists k :: k in ks && f(k) == a {
      var e, k := Placed(h, l, live, a);
      PageTells(h, l, -1, e, k, d);
      assert k in ks && f(k) == a;
    }
    ImageSize(ks, f, t);
  }

  lemma RoomIs(h: Heap, l: Layout, live: map<int, nat>, b: int)
    requires Knows(h, l, live) && 0 <= b < 9
    ensures Room(live, b) <==> !NoneFree(l, b)
  {
    SameLengths(h, l);
    hide Inv, BucketFor, Count, LiveOn;
    if a :| a in live && BucketFor(live[a]) == b && |LiveOn(live, PageOf(a))| < Count(b) {
      var d, k := Placed(h, l, live, a);
      LiveOnIs(h, l, live, d);
    }
    if d :| InBucket(l, d) && l.on[d] == b && l.free[d] != [] {
      LiveOnIs(h, l, live, d);
      BucketHasObj(h, l, d);
      var k :| Live(l, d, k);
      Held(h, l, live, d, k);
    }
  }

  lemma SameLengths(h: Heap, l: Layout)
    requires Inv(h, l, -1)
    ensures |l.on| == |l.free| == |h.desc|
  {}

  ghost function InBuckets(l: Layout): set<int> { set d | 0 <= d < |l.on| && InBucket(l, d) }

  ghost predicate IsCut(h: Heap, l: Layout, p: int) {
    exists d :: InBucket(l, d) && d < |h.desc| && h.desc[d].page == p
  }

  // Each page that is cut up has its descriptor.
  lemma CutIs(h: Heap, l: Layout, live: map<int, nat>)
    requires Knows(h, l, live)
    ensures |InBuckets(l)| == |CutPages(live)| && forall p :: p in CutPages(live) <==> IsCut(h, l, p)
  {
    SameLengths(h, l);
    PagesApart(h, l);
    hide Inv, BucketFor, Count, Live;
    var s, f, t := InBuckets(l), (d: int) => if 0 <= d < |h.desc| then h.desc[d].page else 0, CutPages(live);
    forall d | d in s ensures f(d) in t {
      BucketHasObj(h, l, d);
      var k :| Live(l, d, k);
      Held(h, l, live, d, k);
    }
    forall p | p in t ensures exists d :: d in s && f(d) == p {
      var a :| a in live && PageOf(a) == p;
      var d, k := Placed(h, l, live, a);
      assert d in s by { LiveIn(l, d, k); }
    }
    ImageSize(s, f, t);
    forall p ensures p in t <==> IsCut(h, l, p) {
      if IsCut(h, l, p) {
        var d :| InBucket(l, d) && d < |h.desc| && h.desc[d].page == p;
        assert d in s && f(d) == p;
      }
    }
  }

  lemma LiveIn(l: Layout, d: int, k: int)
    requires Live(l, d, k)
    ensures InBucket(l, d)
  {}

  lemma PagesApart(h: Heap, l: Layout)
    requires Inv(h, l, -1)
    ensures forall d, e :: InBucket(l, d) && InBucket(l, e) && d != e ==> h.desc[d].page != h.desc[e].page
  {}

  // Of the pages the allocator was given, those neither cut up nor filled with descriptors are left.
  lemma PagesLeft(h: Heap, l: Layout, live: map<int, nat>, all: set<int>)
    requires Knows(h, l, live) && forall p :: Owns(h, l, p) <==> p in all
    ensures all == h.pages + h.taken + CutPages(live) && |h.pages| == |all| - |h.taken| - |CutPages(live)|
  {
    hide Inv, CutPages, IsCut, BucketFor;
    CutIs(h, l, live);
    var cut := CutPages(live);
    TakenApart(h, l);
    forall p ensures p in all <==> p in h.pages || p in h.taken || p in cut { CutOwned(h, l, p); }
    forall p | p in cut ensures p !in h.pages + h.taken { assert IsCut(h, l, p); }
    assert all == h.pages + h.taken + cut && (h.pages + h.taken) !! cut;
  }

  lemma CutOwned(h: Heap, l: Layout, p: int)
    ensures Owns(h, l, p) <==> p in h.pages || p in h.taken || IsCut(h, l, p)
  {}

  lemma TakenApart(h: Heap, l: Layout)
    requires Inv(h, l, -1)
    ensures h.pages !! h.taken && forall p :: IsCut(h, l, p) ==> p !in h.pages && p !in h.taken
  {
    forall d | InBucket(l, d) ensures d < |h.desc| && h.desc[d].page !in h.pages && h.desc[d].page !in h.taken {
      Slotted(h, l, d);
    }
  }

  // There is no descriptor left exactly if as many pages are cut up as there are descriptors.
  lemma SpareIs(h: Heap, l: Layout, live: map<int, nat>)
    requires Knows(h, l, live)
    ensures |h.heads| == 10 && (h.heads[SPARE] == -1 <==> |CutPages(live)| == DESCS * |h.taken|)
  {
    hide Inv, CutPages, IsCut, BucketFor, Obj, InBuckets;
    CutIs(h, l, live);
    SpareList(h, l);
    AllBuckets(l);
  }

  lemma AllBuckets(l: Layout)
    ensures |InBuckets(l)| == |l.on| <==> forall d :: 0 <= d < |l.on| ==> InBucket(l, d)
  {
    var s, r := InBuckets(l), Range(|l.on|);
    if |s| == |l.on| {
      SubsetSize(s, r);
      forall d | 0 <= d < |l.on| ensures InBucket(l, d) { assert d in r; }
    }
    if forall d :: 0 <= d < |l.on| ==> InBucket(l, d) { assert s == r; }
  }

  lemma SpareList(h: Heap, l: Layout)
    requires Inv(h, l, -1)
    ensures |h.heads| == 10 && |l.on| == |h.desc| == DESCS * |h.taken|
    ensures h.heads[SPARE] == -1 <==> forall d :: 0 <= d < |h.desc| ==> InBucket(l, d)
  {
    var list := l.lists[SPARE];
    assert Linked(h.desc, h.heads[SPARE], list);
    if list != [] { assert list[0] in list && l.on[list[0]] == SPARE; }
    forall d | 0 <= d < |h.desc| && l.on[d] == SPARE ensures d in list {}
  }
}
