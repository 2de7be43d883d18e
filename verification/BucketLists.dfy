// The singly linked lists of bucket descriptors in lib/malloc.c: a chain for each bucket size and the list of free
// descriptors.
module BucketLists {
  import opened Sequences

  // next is an index of a descriptor, -1 at the end; freeptr is an address, 0 if the page has no free object
  datatype Desc = Desc(page: int, next: int, freeptr: int, refcnt: int, size: int)

  function After(list: seq<int>, i: int): int requires 0 <= i < |list| { if i + 1 < |list| then list[i + 1] else -1 }
  function First(list: seq<int>): int { if list == [] then -1 else list[0] }

  ghost predicate Linked(desc: seq<Desc>, head: int, list: seq<int>) {
    && (forall i :: 0 <= i < |list| ==> 0 <= list[i] < |desc| && desc[list[i]].next == After(list, i))
    && (forall i, j :: 0 <= i < j < |list| ==> list[i] != list[j])
    && head == First(list)
  }

  // Every descriptor is on the list where says, and on no other.
  ghost predicate Listed(desc: seq<Desc>, heads: seq<int>, lists: seq<seq<int>>, on: seq<int>) {
    && |heads| == |lists| && |on| == |desc|
    && (forall b :: 0 <= b < |lists| ==> Linked(desc, heads[b], lists[b]))
    && (forall b, d :: 0 <= b < |lists| && 0 <= d < |desc| ==> (d in lists[b] <==> on[d] == b))
    && (forall d :: 0 <= d < |desc| ==> 0 <= on[d] < |lists|)
  }

  // Only the links matter.
  lemma ListedKept(desc: seq<Desc>, heads: seq<int>, lists: seq<seq<int>>, on: seq<int>, desc': seq<Desc>)
    requires Listed(desc, heads, lists, on) && |desc'| == |desc|
    requires forall d :: 0 <= d < |desc| ==> desc'[d].next == desc[d].next
    ensures Listed(desc', heads, lists, on)
  {
    forall b | 0 <= b < |lists| ensures Linked(desc', heads[b], lists[b]) {
      hide After;
      assert Linked(desc, heads[b], lists[b]);
    }
  }

  // Take the k-th descriptor of a list out: through its predecessor, or through the head.
  function Unlink(desc: seq<Desc>, list: seq<int>, k: int): (s: seq<Desc>)
    requires 0 <= k < |list| && forall i :: 0 <= i < |list| ==> 0 <= list[i] < |desc|
    ensures |s| == |desc|
  { if k == 0 then desc else desc[list[k - 1] := desc[list[k - 1]].(next := desc[list[k]].next)] }

  lemma AfterWithout(list: seq<int>, k: int, i: int)
    requires 0 <= k < |list| && 0 <= i < |list| - 1
    ensures Without(list, k)[i] == list[if i < k then i else i + 1]
    ensures After(Without(list, k), i) == if i == k - 1 then After(list, k) else After(list, if i < k then i else i + 1)
  {}

  lemma FirstWithout(list: seq<int>, k: int)
    requires 0 <= k < |list|
    ensures |Without(list, k)| == |list| - 1
    ensures First(Without(list, k)) == if k == 0 then After(list, 0) else First(list)
  {}

  lemma WithoutHas(list: seq<int>, k: int, x: int)
    requires 0 <= k < |list| && forall i, j :: 0 <= i < j < |list| ==> list[i] != list[j]
    ensures x in Without(list, k) <==> x in list && x != list[k]
  {
    if x in list && x != list[k] {
      var i :| 0 <= i < |list| && list[i] == x;
      assert Without(list, k)[if i < k then i else i - 1] == x;
    }
  }

  lemma UnlinkOk(desc: seq<Desc>, head: int, list: seq<int>, k: int)
    requires Linked(desc, head, list) && 0 <= k < |list|
    ensures Linked(Unlink(desc, list, k), if k == 0 then desc[list[0]].next else head, Without(list, k))
  {
    hide After, Without, First;
    var s, l := Unlink(desc, list, k), Without(list, k);
    FirstWithout(list, k);
    assert desc[list[k]].next == After(list, k);
    forall i | 0 <= i < |l| ensures 0 <= l[i] < |s| && s[l[i]].next == After(l, i) { AfterWithout(list, k, i); }
    forall i, j | 0 <= i < j < |l| ensures l[i] != l[j] {
      AfterWithout(list, k, i);
      AfterWithout(list, k, j);
    }
  }

  // Put d in front.
  lemma PushOk(desc: seq<Desc>, head: int, list: seq<int>, d: int, x: Desc)
    requires Linked(desc, head, list) && 0 <= d < |desc| && d !in list && x.next == head
    ensures Linked(desc[d := x], d, [d] + list)
  {
    hide After;
    var l := [d] + list;
    forall i | 0 <= i < |l| ensures 0 <= l[i] < |desc| && desc[d := x][l[i]].next == After(l, i) {
      AfterPush(list, d, i);
      if i > 0 { assert l[i] == list[i - 1] && list[i - 1] in list; }
    }
  }

  lemma AfterPush(list: seq<int>, d: int, i: int)
    requires 0 <= i <= |list|
    ensures After([d] + list, i) == if i == 0 then First(list) else After(list, i - 1)
  {}

  // The descriptor at place k of one list moves to the front of another.
  function MovedDesc(desc: seq<Desc>, heads: seq<int>, list: seq<int>, k: int, to: int): (s: seq<Desc>)
    requires 0 <= k < |list| && 0 <= to < |heads| && forall i :: 0 <= i < |list| ==> 0 <= list[i] < |desc|
    ensures |s| == |desc|
  { var s := Unlink(desc, list, k); s[list[k] := s[list[k]].(next := heads[to])] }

  function MovedHeads(desc: seq<Desc>, heads: seq<int>, list: seq<int>, from: int, k: int, to: int): (s: seq<int>)
    requires 0 <= k < |list| && 0 <= from < |heads| && 0 <= to < |heads| && 0 <= list[k] < |desc|
    ensures |s| == |heads|
  { (if k == 0 then heads[from := desc[list[k]].next] else heads)[to := list[k]] }

  lemma LinkedElsewhere(desc: seq<Desc>, head: int, list: seq<int>, desc': seq<Desc>)
    requires Linked(desc, head, list) && |desc'| == |desc|
    requires forall d :: d in list ==> 0 <= d < |desc| && desc'[d].next == desc[d].next
    ensures Linked(desc', head, list)
  {
    hide After;
    forall i | 0 <= i < |list| ensures desc'[list[i]].next == After(list, i) { assert list[i] in list; }
  }

  ghost predicate InRange(desc: seq<Desc>, list: seq<int>) { forall i :: 0 <= i < |list| ==> 0 <= list[i] < |desc| }

  lemma MoveList(desc: seq<Desc>, heads: seq<int>, lists: seq<seq<int>>, on: seq<int>, from: int, k: int, to: int,
          b: int)
    requires Listed(desc, heads, lists, on) && 0 <= from < |heads| && 0 <= to < |heads| && from != to
    requires 0 <= k < |lists[from]| && 0 <= b < |heads|
    requires InRange(desc, lists[from])
    ensures Linked(MovedDesc(desc, heads, lists[from], k, to), MovedHeads(desc, heads, lists[from], from, k, to)[b],
                   if b == from then Without(lists[from], k) else if b == to then [lists[from][k]] + lists[to]
                     else lists[b])
  {
    hide After;
    assert Linked(desc, heads[from], lists[from]) && Linked(desc, heads[b], lists[b]);
    if b == from {
      MoveFrom(desc, heads, lists[from], from, k, to);
    } else {
      assert forall e :: 0 <= e < |desc| ==> (e in lists[from] <==> on[e] == from) && (e in lists[b] <==> on[e] == b);
      hide Linked, Listed;
      MoveInto(desc, heads, lists[from], lists[b], from, k, to, b);
    }
  }

  lemma MoveFrom(desc: seq<Desc>, heads: seq<int>, list: seq<int>, from: int, k: int, to: int)
    requires 0 <= from < |heads| && 0 <= to < |heads| && from != to && 0 <= k < |list| && InRange(desc, list)
    requires Linked(desc, heads[from], list)
    ensures Linked(MovedDesc(desc, heads, list, k, to), MovedHeads(desc, heads, list, from, k, to)[from],
      Without(list, k))
  {
    UnlinkOk(desc, heads[from], list, k);
    NotIn(desc, heads[from], list, k);
    hide Linked, Without, After;
    LinkedElsewhere(Unlink(desc, list, k), MovedHeads(desc, heads, list, from, k, to)[from], Without(list, k),
      MovedDesc(desc, heads, list, k, to));
  }

  lemma MoveInto(desc: seq<Desc>, heads: seq<int>, list: seq<int>, other: seq<int>, from: int, k: int, to: int, b: int)
    requires 0 <= from < |heads| && 0 <= to < |heads| && from != to && 0 <= k < |list| && InRange(desc, list)
    requires 0 <= b < |heads| && b != from && Linked(desc, heads[b], other)
    requires forall e :: 0 <= e < |desc| ==> !(e in list && e in other)
    ensures Linked(MovedDesc(desc, heads, list, k, to), MovedHeads(desc, heads, list, from, k, to)[b], if b == to
      then [list[k]] + other else other)
  {
    var d, s, s' := list[k], Unlink(desc, list, k), MovedDesc(desc, heads, list, k, to);
    forall e | e in other ensures 0 <= e < |desc| && s[e] == desc[e] && e != d {
      InList(desc, heads[b], other, e);
      assert d in list && (k > 0 ==> list[k - 1] in list);
    }
    hide Linked, After;
    LinkedElsewhere(desc, heads[b], other, s);
    if b == to { PushOk(s, heads[to], other, d, s[d].(next := heads[to])); }
    else { LinkedElsewhere(s, heads[b], other, s'); }
  }

  lemma InList(desc: seq<Desc>, head: int, list: seq<int>, e: int)
    requires Linked(desc, head, list) && e in list
    ensures 0 <= e < |desc|
  {}

  lemma NotIn(desc: seq<Desc>, head: int, list: seq<int>, k: int)
    requires Linked(desc, head, list) && 0 <= k < |list|
    ensures list[k] !in Without(list, k) && forall e :: e in Without(list, k) ==> 0 <= e < |desc|
  { hide After; }

  lemma MoveOk(desc: seq<Desc>, heads: seq<int>, lists: seq<seq<int>>, on: seq<int>, from: int, k: int, to: int)
    requires Listed(desc, heads, lists, on) && 0 <= from < |heads| && 0 <= to < |heads| && from != to
    requires 0 <= k < |lists[from]|
    ensures InRange(desc, lists[from])
    ensures Listed(MovedDesc(desc, heads, lists[from], k, to), MovedHeads(desc, heads, lists[from], from, k, to),
                   lists[from := Without(lists[from], k)][to := [lists[from][k]] + lists[to]], on[lists[from][k] := to])
  {
    var list, d := lists[from], lists[from][k];
    assert Linked(desc, heads[from], list);
    assert InRange(desc, list) && d in list by { hide After; }
    var lists', on' := lists[from := Without(list, k)][to := [d] + lists[to]], on[d := to];
    forall b | 0 <= b < |lists'|
      ensures Linked(MovedDesc(desc, heads, list, k, to), MovedHeads(desc, heads, list, from, k, to)[b], lists'[b])
    {
      MoveList(desc, heads, lists, on, from, k, to, b);
    }
    hide After;
    forall b, e | 0 <= b < |lists'| && 0 <= e < |desc| ensures e in lists'[b] <==> on'[e] == b {
      assert e in lists[b] <==> on[e] == b;
      if b == from { WithoutHas(list, k, e); }
    }
  }
}
