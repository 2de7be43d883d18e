// The order of a request queue: IN_ORDER (kernel/blk_drv/blk.h) and the place add_request finds (ll_rw_blk.c).
module Elevator {
  // cmd is READ = 0 or WRITE = 1
  datatype Key = Key(cmd: int, dev: int, sector: int)

  predicate InOrder(a: Key, b: Key) {
    a.cmd < b.cmd || (a.cmd == b.cmd && (a.dev < b.dev || (a.dev == b.dev && a.sector < b.sector)))
  }

  // IN_ORDER is a strict order, and total: requests for different sectors are in one order or the other.
  lemma Order()
    ensures forall a, b :: InOrder(a, b) ==> !InOrder(b, a) && a != b
    ensures forall a, b :: a != b ==> InOrder(a, b) || InOrder(b, a)
    ensures forall a, b, c :: InOrder(a, b) && InOrder(b, c) ==> InOrder(a, c)
  {}

  // add_request stops after l[i] if it stops there.
  predicate StopsAt(l: seq<Key>, r: Key, i: int)
    requires 0 <= i < |l| - 1
  { (InOrder(l[i], r) || !InOrder(l[i], l[i + 1])) && InOrder(r, l[i + 1]) }

  // The new request goes after l[k]: the first place where the search stops, or the end.
  ghost predicate Place(l: seq<Key>, r: Key, k: int) {
    0 <= k < |l| && (k < |l| - 1 ==> StopsAt(l, r, k)) && forall i :: 0 <= i < k ==> !StopsAt(l, r, i)
  }

  function Insert(l: seq<Key>, k: int, r: Key): seq<Key> requires 0 <= k < |l| { l[..k + 1] + [r] + l[k + 1..] }

  ghost predicate Ascending(l: seq<Key>) { forall i, j :: 0 <= i < j < |l| ==> InOrder(l[i], l[j]) }

  // The queue is the sweep that is under way and, if anything lies behind it, one more sweep.
  ghost predicate Sweeps(l: seq<Key>, a: seq<Key>, b: seq<Key>) {
    l == a + b && Ascending(a) && Ascending(b) && (a == [] ==> b == []) && (b != [] ==> InOrder(b[0], a[|a| - 1]))
  }

  // A sorted insertion, defined without reference to the search.
  function Sorted(l: seq<Key>, r: Key): seq<Key> {
    if l == [] || InOrder(r, l[0]) then [r] + l else [l[0]] + Sorted(l[1..], r)
  }

  lemma {:induction false} SortedAt(l: seq<Key>, r: Key, k: int)
    requires Ascending(l) && r !in l && 0 <= k <= |l|
    requires k > 0 ==> InOrder(l[k - 1], r)
    requires k < |l| ==> InOrder(r, l[k])
    ensures Sorted(l, r) == l[..k] + [r] + l[k..] && Ascending(Sorted(l, r))
  {
    AscendingWith(l, r, k);
    if k == 0 {
      assert l[..0] + [r] + l[0..] == [r] + l;
    } else {
      Order();
      hide InOrder;
      assert k == 1 || InOrder(l[0], l[k - 1]);
      SortedAt(l[1..], r, k - 1);
      assert l[..k] == [l[0]] + l[1..][..k - 1] && l[1..][k - 1..] == l[k..];
      assert Sorted(l, r) == [l[0]] + Sorted(l[1..], r);
    }
  }

  lemma AscendingWith(l: seq<Key>, r: Key, k: int)
    requires Ascending(l) && 0 <= k <= |l| && (k > 0 ==> InOrder(l[k - 1], r)) && (k < |l| ==> InOrder(r, l[k]))
    ensures Ascending(l[..k] + [r] + l[k..])
  {
    Order();
    hide InOrder;
    var m := l[..k] + [r] + l[k..];
    forall i, j | 0 <= i < j < |m| ensures InOrder(m[i], m[j]) {
      assert m[i] == if i < k then l[i] else if i == k then r else l[i - 1];
      assert m[j] == if j < k then l[j] else if j == k then r else l[j - 1];
      assert i < k ==> i == k - 1 || InOrder(l[i], l[k - 1]);
      assert j > k ==> j == k + 1 || InOrder(l[k], l[j - 1]);
    }
  }

  // Where the search stops: inside the sweep under way if the new request lies between two of its members, and
  // otherwise at the sorted place of the sweep behind it.
  lemma PlaceSweeps(l: seq<Key>, a: seq<Key>, b: seq<Key>, r: Key, k: int)
    requires Sweeps(l, a, b) && r !in l && Place(l, r, k)
    ensures if InOrder(a[0], r) && InOrder(r, a[|a| - 1]) then Insert(l, k, r) == Sorted(a, r) + b
            else Insert(l, k, r) == a + Sorted(b, r)
  {
    var n := |a|;
    assert forall i :: 0 <= i < n ==> l[i] == a[i];
    assert forall i :: 0 <= i < |b| ==> l[n + i] == b[i];
    assert forall i :: 0 <= i < |l| ==> l[i] != r;
    if InOrder(a[0], r) && InOrder(r, a[n - 1]) {
      InFirst(l, a, b, r, k);
    } else {
      InSecond(l, a, b, r, k);
    }
  }

  lemma InFirst(l: seq<Key>, a: seq<Key>, b: seq<Key>, r: Key, k: int)
    requires Sweeps(l, a, b) && r !in l && Place(l, r, k) && InOrder(a[0], r) && InOrder(r, a[|a| - 1])
    ensures Insert(l, k, r) == Sorted(a, r) + b
  {
    FirstPlace(l, a, b, r, k);
    SortedAt(a, r, k + 1);
    InsertLeft(a, b, r, k);
  }

  lemma InsertLeft(a: seq<Key>, b: seq<Key>, r: Key, k: int)
    requires 0 <= k < |a|
    ensures Insert(a + b, k, r) == a[..k + 1] + [r] + a[k + 1..] + b
  {
    assert (a + b)[..k + 1] == a[..k + 1];
    assert (a + b)[k + 1..] == a[k + 1..] + b;
  }

  lemma FirstPlace(l: seq<Key>, a: seq<Key>, b: seq<Key>, r: Key, k: int)
    requires Sweeps(l, a, b) && r !in l && Place(l, r, k) && InOrder(a[0], r) && InOrder(r, a[|a| - 1])
    ensures k + 1 < |a| && InOrder(a[k], r) && InOrder(r, a[k + 1]) && r !in a
  {
    Order();
    hide InOrder;
    var n := |a|;
    forall i | 0 <= i < n ensures l[i] == a[i] && a[i] != r { assert l[i] in l; }
    var i := 0;
    while i < k && i < n - 1
      invariant 0 <= i < n && i <= k && InOrder(a[i], r)
    {
      assert !StopsAt(l, r, i);
      assert InOrder(a[i + 1], r);
      i := i + 1;
    }
    assert i < n - 1 && i == k;
  }

  lemma InSecond(l: seq<Key>, a: seq<Key>, b: seq<Key>, r: Key, k: int)
    requires Sweeps(l, a, b) && r !in l && Place(l, r, k) && !(InOrder(a[0], r) && InOrder(r, a[|a| - 1]))
    ensures Insert(l, k, r) == a + Sorted(b, r)
  {
    NotFirst(l, a, b, r, k);
    BeyondAll(l, a, b, r, k);
    var n := |a|;
    SortedAt(b, r, k - (n - 1));
    hide InOrder;
    assert l[..k + 1] == a + b[..k + 1 - n] && l[k + 1..] == b[k + 1 - n..];
  }

  lemma NotFirst(l: seq<Key>, a: seq<Key>, b: seq<Key>, r: Key, k: int)
    requires Sweeps(l, a, b) && r !in l && Place(l, r, k) && !(InOrder(a[0], r) && InOrder(r, a[|a| - 1]))
    ensures k >= |a| - 1
  {
    Order();
    hide InOrder;
  }

  lemma BeyondAll(l: seq<Key>, a: seq<Key>, b: seq<Key>, r: Key, k: int)
    requires Sweeps(l, a, b) && r !in l && Place(l, r, k) && k >= |a| - 1 && a != []
    ensures var m := k - (|a| - 1);
      0 <= m <= |b| && (m > 0 ==> InOrder(b[m - 1], r)) && (m < |b| ==> InOrder(r, b[m])) && r !in b
  {
    Order();
    hide InOrder;
    var n := |a|;
    var m := k - (n - 1);
    forall i | 0 <= i < |b| ensures l[n + i] == b[i] && b[i] != r { assert l[n + i] in l; }
    assert l[n - 1] == a[n - 1];
    var i := 0;
    while i < m
      invariant 0 <= i <= m && (i > 0 ==> InOrder(b[i - 1], r))
    {
      assert !StopsAt(l, r, n - 1 + i);
      i := i + 1;
    }
  }

  // So there are again at most two sweeps.
  lemma InsertSweeps(l: seq<Key>, a: seq<Key>, b: seq<Key>, r: Key, k: int) returns (a': seq<Key>, b': seq<Key>)
    requires Sweeps(l, a, b) && r !in l && Place(l, r, k)
    ensures Sweeps(Insert(l, k, r), a', b')
  {
    PlaceSweeps(l, a, b, r, k);
    Order();
    if InOrder(a[0], r) && InOrder(r, a[|a| - 1]) {
      FirstPlace(l, a, b, r, k);
      SortedAt(a, r, k + 1);
      hide InOrder;
      a', b' := Sorted(a, r), b;
      assert a' == a[..k + 1] + [r] + a[k + 1..] && a'[|a'| - 1] == a[|a| - 1];
    } else {
      NotFirst(l, a, b, r, k);
      BeyondAll(l, a, b, r, k);
      SortedAt(b, r, k - (|a| - 1));
      SecondSweeps(l, a, b, r, k);
      if b == [] && InOrder(a[|a| - 1], r) {
        a', b' := a + [r], [];
        hide InOrder;
      } else {
        a', b' := a, Sorted(b, r);
      }
    }
  }

  lemma SecondSweeps(l: seq<Key>, a: seq<Key>, b: seq<Key>, r: Key, k: int)
    requires Sweeps(l, a, b) && r !in l && Place(l, r, k) && k >= |a| - 1 && a != []
    ensures b != [] && Sorted(b, r)[0] == r ==> InOrder(r, a[|a| - 1])
    ensures b == [] ==> Sorted(b, r) == [r]
    ensures b != [] ==> Sorted(b, r)[0] == r || Sorted(b, r)[0] == b[0]
    ensures a[|a| - 1] != r && Ascending(if InOrder(a[|a| - 1], r) then a + [r] else a)
  {
    Order();
    hide InOrder;
    assert l[|a| - 1] == a[|a| - 1] && l[|a| - 1] in l;
  }
}
