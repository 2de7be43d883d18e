// The pages of the kernel allocator (lib/malloc.c): each is cut into objects of one size, and the free ones are
// linked through their own first words.
module Buckets {
  import opened Bytes
  import opened BucketLists

  const DESCS := 256  // descriptors in a page
  const SPARE := 9    // the list of free descriptors, after the nine bucket chains

  // bucket_dir
  function Size(b: int): (n: int)
    requires 0 <= b < 9
    ensures 16 <= n <= PAGE && n % 4 == 0 && n * Count(b) == PAGE
  { [16, 32, 64, 128, 256, 512, 1024, 2048, 4096][b] }

  function Count(b: int): (n: int)
    requires 0 <= b < 9
    ensures 1 <= n <= 256
  { [256, 128, 64, 32, 16, 8, 4, 2, 1][b] }

  // the bucket for an object of len bytes, 9 if there is none
  function BucketFor(len: nat): (b: int)
    ensures 0 <= b <= 9 && (b < 9 ==> len <= Size(b)) && (b == 9 <==> len > PAGE)
    ensures forall c :: 0 <= c < b ==> Size(c) < len
  {
    if len <= 16 then 0 else if len <= 32 then 1 else if len <= 64 then 2 else if len <= 128 then 3 else if len <= 256
      then 4
    else if len <= 512 then 5 else if len <= 1024 then 6 else if len <= 2048 then 7 else if len <= 4096 then 8 else 9
  }

  function Addr(page: int, b: int, k: int): int requires 0 <= b < 9 { page + k * Size(b) }
  function PageOf(a: int): int { a / PAGE * PAGE }
  // an address inside the k-th object
  predicate Within(a: int, page: int, b: int, k: int)
    requires 0 <= b < 9
  {
    Addr(page, b, k) <= a < Addr(page, b, k) + Size(b)
  }

  lemma AddrPage(page: int, b: int, k: int, a: int)
    requires 0 <= b < 9 && page % PAGE == 0 && 0 <= k < Count(b) && Within(a, page, b, k)
    ensures PageOf(a) == page && page <= a < page + PAGE
  {
    var n := Size(b);
    assert k * n <= (Count(b) - 1) * n == PAGE - n;
  }

  lemma Apart(page: int, b: int, k: int, j: int, a: int)
    requires 0 <= b < 9 && k != j && Within(a, page, b, k)
    ensures !Within(a, page, b, j) && a != Addr(page, b, j)
  {
    var n := Size(b);
    if k < j { assert (j - k) * n >= n; } else { assert (k - j) * n >= n; }
  }

  function Read(mem: map<int, int>, a: int): int { if a in mem then mem[a] else 0 }

  function Ptr(page: int, b: int, list: seq<int>, i: int): int
    requires 0 <= b < 9 && 0 <= i
  { if i < |list| then Addr(page, b, list[i]) else 0 }

  // list names the free objects of a page in the order of its free list.
  ghost predicate Threaded(mem: map<int, int>, page: int, b: int, freeptr: int, list: seq<int>)
    requires 0 <= b < 9
  {
    && (forall i :: 0 <= i < |list| ==> 0 <= list[i] < Count(b))
    && (forall i, j :: 0 <= i < j < |list| ==> list[i] != list[j])
    && freeptr == Ptr(page, b, list, 0)
    && (forall i :: 0 <= i < |list| ==> Read(mem, Addr(page, b, list[i])) == Ptr(page, b, list, i + 1))
  }

  lemma PopThreaded(mem: map<int, int>, page: int, b: int, freeptr: int, list: seq<int>)
    requires 0 <= b < 9 && Threaded(mem, page, b, freeptr, list) && list != []
    ensures freeptr == Addr(page, b, list[0]) && Threaded(mem, page, b, Read(mem, freeptr), list[1..])
  {
    hide Addr;
    var l := list[1..];
    forall i | 0 <= i < |l| ensures Read(mem, Addr(page, b, l[i])) == Ptr(page, b, l, i + 1) {
      assert l[i] == list[i + 1] && Read(mem, Addr(page, b, list[i + 1])) == Ptr(page, b, list, i + 2);
    }
    assert Read(mem, Addr(page, b, list[0])) == Ptr(page, b, list, 1);
  }

  lemma PushThreaded(mem: map<int, int>, page: int, b: int, freeptr: int, list: seq<int>, k: int)
    requires 0 <= b < 9 && Threaded(mem, page, b, freeptr, list) && 0 <= k < Count(b) && k !in list
    ensures Threaded(mem[Addr(page, b, k) := freeptr], page, b, Addr(page, b, k), [k] + list)
  {
    var m, l := mem[Addr(page, b, k) := freeptr], [k] + list;
    forall i | 0 <= i < |list| ensures Addr(page, b, list[i]) != Addr(page, b, k) {
      Apart(page, b, list[i], k, Addr(page, b, list[i]));
    }
    hide Addr;
    forall i | 0 <= i < |l| ensures Read(m, Addr(page, b, l[i])) == Ptr(page, b, l, i + 1) {
      if i > 0 { assert l[i] == list[i - 1] && Read(mem, Addr(page, b, list[i - 1])) == Ptr(page, b, list, i); }
    }
  }

  function Iota(i: int, n: int): (s: seq<int>)
    requires 0 <= i <= n
    ensures |s| == n - i && forall j :: 0 <= j < |s| ==> s[j] == i + j
  { seq(n - i, j => i + j) }
}
