// The request table and its list (kernel/blk_drv/ll_rw_blk.c, end_request in kernel/blk_drv/blk.h).
module Requests {
  import opened Counting
  import opened Elevator

  const NR_REQUEST := 32
  const WRITE_LIMIT := 21  // (NR_REQUEST * 2) / 3

  // dev is -1 in a free slot; next is the index of the next request of the list, -1 at its end
  datatype Req = Req(dev: int, cmd: int, sector: int, next: int)
  datatype Buffer = Buffer(dev: int, block: int)

  function KeyOf(r: Req): Key { Key(r.cmd, r.dev, r.sector) }
  function BufferOf(k: Key): Buffer { Buffer(k.dev, k.sector / 2) }

  function Keys(slot: seq<Req>, list: seq<int>): (ks: seq<Key>)
    requires forall i :: 0 <= i < |list| ==> 0 <= list[i] < |slot|
    ensures |ks| == |list|
  { seq(|list|, i requires 0 <= i < |list| => KeyOf(slot[list[i]])) }

  function NextOf(list: seq<int>, i: int): int requires 0 <= i < |list| { if i + 1 < |list| then list[i + 1] else -1 }

  // list is the chain of slots from current, and the slots on it are those in use.
  ghost predicate Linked(slot: seq<Req>, current: int, list: seq<int>) {
    && (forall i :: 0 <= i < |list| ==> 0 <= list[i] < |slot| && slot[list[i]].next == NextOf(list, i))
    && (forall i, j :: 0 <= i < j < |list| ==> list[i] != list[j])
    && current == (if list == [] then -1 else list[0])
    && (forall x :: 0 <= x < |slot| ==> (slot[x].dev >= 0 <==> x in list))
  }

  // Queued buffers are locked and no buffer is queued twice.
  ghost predicate Exclusive(ks: seq<Key>, locked: set<Buffer>) {
    && (forall i :: 0 <= i < |ks| ==> BufferOf(ks[i]) in locked)
    && (forall i, j :: 0 <= i < j < |ks| ==> BufferOf(ks[i]) != BufferOf(ks[j]))
  }

  ghost predicate IsQueued(ks: seq<Key>, b: Buffer) { exists i :: 0 <= i < |ks| && BufferOf(ks[i]) == b }

  // Only reads use the last third of the table.
  ghost predicate SlotRule(slot: seq<Req>) {
    forall x :: 0 <= x < |slot| && slot[x].dev >= 0 ==> slot[x].cmd == 0 || (slot[x].cmd == 1 && x < WRITE_LIMIT)
  }

  ghost predicate TwoSweeps(l: seq<Key>) { exists a, b :: Sweeps(l, a, b) }

  ghost predicate Inv(slot: seq<Req>, current: int, list: seq<int>, locked: set<Buffer>) {
    && |slot| == NR_REQUEST && Linked(slot, current, list) && SlotRule(slot)
    && Exclusive(Keys(slot, list), locked) && TwoSweeps(Keys(slot, list))
  }

  // The sweep under way takes a request between two of its own; any other waits for the next sweep.
  ghost predicate Elevated(l: seq<Key>, r: Key, l': seq<Key>) {
    forall a, b :: Sweeps(l, a, b) ==> l' == Elevate(a, b, r)
  }

  ghost function Elevate(a: seq<Key>, b: seq<Key>, r: Key): seq<Key> {
    if a != [] && InOrder(a[0], r) && InOrder(r, a[|a| - 1]) then Sorted(a, r) + b else a + Sorted(b, r)
  }

  // Requests already in the list keep their order, and the one being served stays first.
  ghost predicate OrderKept(l: seq<Key>, r: Key, l': seq<Key>) {
    exists k :: 0 <= k <= |l| && l' == l[..k] + [r] + l[k..] && (l != [] ==> k > 0)
  }

  lemma AddSweeps(l: seq<Key>, r: Key, k: int)
    requires TwoSweeps(l) && r !in l && Place(l, r, k)
    ensures TwoSweeps(Insert(l, k, r)) && Elevated(l, r, Insert(l, k, r)) && OrderKept(l, r, Insert(l, k, r))
  {
    var a, b :| Sweeps(l, a, b);
    var a', b' := InsertSweeps(l, a, b, r, k);
    forall a, b | Sweeps(l, a, b) ensures Insert(l, k, r) == Elevate(a, b, r) { PlaceSweeps(l, a, b, r, k); }
    assert Insert(l, k, r) == l[..k + 1] + [r] + l[k + 1..];
  }

  lemma AddFirst(r: Key)
    ensures TwoSweeps([r]) && Elevated([], r, [r]) && OrderKept([], r, [r])
  {
    assert Sweeps([r], [r], []);
    var l: seq<Key> := [];
    assert [r] == l[..0] + [r] + l[0..];
  }

  lemma DropSweeps(l: seq<Key>)
    requires TwoSweeps(l) && l != []
    ensures TwoSweeps(l[1..])
  {
    var a, b :| Sweeps(l, a, b);
    if |a| > 1 {
      assert l[1..] == a[1..] + b;
      assert Sweeps(l[1..], a[1..], b);
    } else {
      assert l[1..] == b;
      assert Sweeps(l[1..], b, []);
    }
  }

  // ---- the links
  function Link(slot: seq<Req>, x: int, r: Req, after: int): (s: seq<Req>)
    requires 0 <= x < |slot| && 0 <= after < |slot|
    ensures |s| == |slot|
  { var s := slot[x := r.(next := slot[after].next)]; s[after := s[after].(next := x)] }

  // x comes after the k-th of the list
  function Splice(list: seq<int>, k: int, x: int): (l: seq<int>)
    requires 0 <= k < |list|
    ensures |l| == |list| + 1
  {
    list[..k + 1] + [x] + list[k + 1..]
  }

  lemma SpliceAt(list: seq<int>, k: int, x: int, i: int)
    requires 0 <= k < |list| && 0 <= i <= |list|
    ensures Splice(list, k, x)[i] == if i <= k then list[i] else if i == k + 1 then x else list[i - 1]
  {}

  lemma SpliceHas(list: seq<int>, k: int, x: int, y: int)
    requires 0 <= k < |list|
    ensures y in Splice(list, k, x) <==> y in list || y == x
  {}

  lemma NextSplice(list: seq<int>, k: int, x: int, i: int)
    requires 0 <= k < |list| && 0 <= i <= |list|
    ensures NextOf(Splice(list, k, x), i) == if i < k then NextOf(list, i) else if i == k then x
      else NextOf(list, i - 1)
  {}

  lemma LinkAt(slot: seq<Req>, x: int, r: Req, after: int, y: int)
    requires 0 <= x < |slot| && 0 <= after < |slot| && 0 <= y < |slot| && after != x
    ensures Link(slot, x, r, after)[y] ==
            if y == x then r.(next := slot[after].next) else if y == after then slot[after].(next := x) else slot[y]
  {}

  lemma LinkOk(slot: seq<Req>, current: int, list: seq<int>, x: int, r: Req, k: int)
    requires Linked(slot, current, list) && 0 <= x < |slot| && slot[x].dev < 0 && r.dev >= 0 && 0 <= k < |list|
    ensures Linked(Link(slot, x, r, list[k]), current, Splice(list, k, x))
  {
    hide Splice, Link, NextOf;
    var s, l := Link(slot, x, r, list[k]), Splice(list, k, x);
    forall i | 0 <= i < |l| ensures 0 <= l[i] < |s| && s[l[i]].next == NextOf(l, i) {
      SpliceAt(list, k, x, i);
      NextSplice(list, k, x, i);
      LinkAt(slot, x, r, list[k], l[i]);
    }
    forall i, j | 0 <= i < j < |l| ensures l[i] != l[j] {
      SpliceAt(list, k, x, i);
      SpliceAt(list, k, x, j);
    }
    forall y | 0 <= y < |s| ensures s[y].dev >= 0 <==> y in l {
      SpliceHas(list, k, x, y);
      LinkAt(slot, x, r, list[k], y);
    }
    SpliceAt(list, k, x, 0);
  }

  lemma LinkKeys(slot: seq<Req>, current: int, list: seq<int>, x: int, r: Req, k: int)
    requires Linked(slot, current, list) && 0 <= x < |slot| && slot[x].dev < 0 && r.dev >= 0 && 0 <= k < |list|
    ensures forall i :: 0 <= i < |Splice(list, k, x)| ==> 0 <= Splice(list, k, x)[i] < |Link(slot, x, r, list[k])|
    ensures Keys(Link(slot, x, r, list[k]), Splice(list, k, x)) == Insert(Keys(slot, list), k, KeyOf(r))
  {
    hide Splice, Link, NextOf;
    var s, l := Link(slot, x, r, list[k]), Splice(list, k, x);
    forall i | 0 <= i < |l| ensures 0 <= l[i] < |s| { SpliceAt(list, k, x, i); }
    var ks, ks' := Insert(Keys(slot, list), k, KeyOf(r)), Keys(s, l);
    forall i | 0 <= i < |l| ensures ks'[i] == ks[i] {
      SpliceAt(list, k, x, i);
      LinkAt(slot, x, r, list[k], l[i]);
    }
  }

  lemma InsertExclusive(ks: seq<Key>, locked: set<Buffer>, r: Key, k: int)
    requires Exclusive(ks, locked) && BufferOf(r) in locked && !IsQueued(ks, BufferOf(r)) && 0 <= k < |ks|
    ensures Exclusive(Insert(ks, k, r), locked) && r !in ks
  {}

  // add_request to a list that is not empty
  lemma AddInv(slot: seq<Req>, current: int, list: seq<int>, locked: set<Buffer>, x: int, r: Req, k: int)
    requires Inv(slot, current, list, locked) && 0 <= x < NR_REQUEST && slot[x].dev < 0 && r.dev >= 0
    requires (r.cmd == 0 || (r.cmd == 1 && x < WRITE_LIMIT))
    requires BufferOf(KeyOf(r)) in locked && !IsQueued(Keys(slot, list), BufferOf(KeyOf(r)))
    requires Place(Keys(slot, list), KeyOf(r), k)
    ensures Inv(Link(slot, x, r, list[k]), current, Splice(list, k, x), locked)
    ensures var ks, ks' := Keys(slot, list), Keys(Link(slot, x, r, list[k]), Splice(list, k, x));
      ks' == Insert(ks, k, KeyOf(r)) && Elevated(ks, KeyOf(r), ks') && OrderKept(ks, KeyOf(r), ks')
  {
    LinkOk(slot, current, list, x, r, k);
    LinkKeys(slot, current, list, x, r, k);
    InsertExclusive(Keys(slot, list), locked, KeyOf(r), k);
    AddSweeps(Keys(slot, list), KeyOf(r), k);
    forall y | 0 <= y < |slot|
      ensures Link(slot, x, r, list[k])[y].cmd == (if y == x then r.cmd else slot[y].cmd)
      && (y != x ==> Link(slot, x, r, list[k])[y].dev == slot[y].dev)
    {
      LinkAt(slot, x, r, list[k], y);
    }
    hide Link, Splice, Linked, Insert, TwoSweeps, Elevated, OrderKept, Exclusive;
  }

  lemma AddToEmpty(slot: seq<Req>, locked: set<Buffer>, x: int, r: Req)
    requires Inv(slot, -1, [], locked) && 0 <= x < NR_REQUEST && r.dev >= 0 && r.next == -1
    requires (r.cmd == 0 || (r.cmd == 1 && x < WRITE_LIMIT))
    requires BufferOf(KeyOf(r)) in locked
    ensures Inv(slot[x := r], x, [x], locked) && Keys(slot[x := r], [x]) == [KeyOf(r)]
  {
    AddFirst(KeyOf(r));
    assert Keys(slot[x := r], [x]) == [KeyOf(r)];
    OneLinked(slot, x, r);
    hide Linked, TwoSweeps, Keys, KeyOf, BufferOf;
  }

  lemma OneLinked(slot: seq<Req>, x: int, r: Req)
    requires Linked(slot, -1, []) && 0 <= x < |slot| && r.dev >= 0 && r.next == -1
    ensures Linked(slot[x := r], x, [x])
  {}

  // end_request: the first request leaves, and its buffer is unlocked.
  lemma EndInv(slot: seq<Req>, current: int, list: seq<int>, locked: set<Buffer>)
    requires Inv(slot, current, list, locked) && list != []
    ensures 0 <= current < |slot|
    ensures var s := slot[current := slot[current].(dev := -1)];
      Inv(s, slot[current].next, list[1..], locked - {BufferOf(KeyOf(slot[current]))})
        && Keys(s, list[1..]) == Keys(slot, list)[1..]
  {
    EndLinked(slot, current, list);
    EndKeys(slot, current, list);
    DropSweeps(Keys(slot, list));
    DropExclusive(Keys(slot, list), locked);
    hide Linked, TwoSweeps, Exclusive, BufferOf, Keys, KeyOf;
  }

  lemma EndKeys(slot: seq<Req>, current: int, list: seq<int>)
    requires list != [] && list[0] == current && 0 <= current < |slot|
    requires forall i :: 0 < i < |list| ==> list[i] != current && 0 <= list[i] < |slot|
    ensures Keys(slot[current := slot[current].(dev := -1)], list[1..]) == Keys(slot, list)[1..]
    ensures Keys(slot, list)[0] == KeyOf(slot[current])
  {}

  lemma DropExclusive(ks: seq<Key>, locked: set<Buffer>)
    requires Exclusive(ks, locked) && ks != []
    ensures Exclusive(ks[1..], locked - {BufferOf(ks[0])})
  {}

  lemma EndLinked(slot: seq<Req>, current: int, list: seq<int>)
    requires Linked(slot, current, list) && list != []
    ensures 0 <= current < |slot| && current == list[0]
    ensures Linked(slot[current := slot[current].(dev := -1)], slot[current].next, list[1..])
    ensures forall i :: 0 < i < |list| ==> list[i] != current && 0 <= list[i] < |slot|
  {
    hide NextOf;
    assert list[0] == current;
    var s, l := slot[current := slot[current].(dev := -1)], list[1..];
    forall i | 0 <= i < |l| ensures 0 <= l[i] < |s| && s[l[i]].next == NextOf(l, i) {
      assert l[i] == list[i + 1] && slot[list[i + 1]].next == NextOf(list, i + 1);
      NextTail(list, i);
    }
    NextTail0(list);
    forall x | 0 <= x < |s| ensures s[x].dev >= 0 <==> x in l { TailHas(list, x); }
  }

  lemma TailHas(list: seq<int>, x: int)
    requires list != [] && forall i, j :: 0 <= i < j < |list| ==> list[i] != list[j]
    ensures x in list[1..] <==> x in list && x != list[0]
  {}

  lemma NextTail(list: seq<int>, i: int)
    requires 0 <= i < |list| - 1
    ensures NextOf(list[1..], i) == NextOf(list, i + 1)
  {}

  lemma NextTail0(list: seq<int>)
    requires |list| > 0
    ensures NextOf(list, 0) == if list[1..] == [] then -1 else list[1..][0]
  {}

  datatype Out = Queued | Nothing | Sleeps

  // a free slot among those that the command may use
  ghost predicate HasSlot(slot: seq<Req>, cmd: int)
    requires |slot| == NR_REQUEST
  { exists x :: 0 <= x < (if cmd == 0 then NR_REQUEST else WRITE_LIMIT) && slot[x].dev < 0 }

  // Reads and writes wait for the lock and for a slot; read-ahead and write-ahead are given up instead.
  function Answer(rw: int, busy: bool, needed: bool, slot: bool): Out {
    if busy then if rw >= 2 then Nothing else Sleeps
    else if !needed then Nothing
    else if slot then Queued
    else if rw >= 2 then Nothing else Sleeps
  }

  class RequestQueue {
    const slot: array<Req>
    var current: int
    // b_lock of the buffer of each block
    var locked: set<Buffer>
    ghost var list: seq<int>

    ghost predicate Valid() reads this, slot { Inv(slot[..], current, list, locked) }

    // the requests in the order they will be served
    ghost function Queue(): seq<Key>
      requires Valid()
      reads this, slot
    { Keys(slot[..], list) }

    // blk_dev_init
    constructor ()
      ensures Valid() && fresh(slot) && Queue() == [] && locked == {}
    {
      slot := new Req[NR_REQUEST](_ => Req(-1, 0, 0, -1));
      current, locked, list := -1, {}, [];
      new;
      assert Sweeps([], [], []);
    }

    // The search for a free slot: from the top of the table, or from the write limit.
    method FindSlot(limit: int) returns (x: int)
      requires 0 <= limit <= slot.Length
      ensures -1 <= x < limit && (x >= 0 ==> slot[x].dev < 0) && forall y :: x < y < limit ==> slot[y].dev >= 0
    {
      x := limit - 1;
      while x >= 0 && slot[x].dev >= 0
        invariant -1 <= x < limit && forall y :: x < y < limit ==> slot[y].dev >= 0
      {
        x := x - 1;
      }
    }

    // The walk of add_request.
    method FindPlace(r: Key) returns (after: int, ghost k: int)
      requires Valid() && current != -1
      ensures 0 <= k < |list| && list[k] == after && 0 <= after < slot.Length && Place(Queue(), r, k)
    {
      ghost var s := slot[..];
      WalkStart(s, current, list, locked, r);
      after, k := current, 0;
      hide *;
      while true
        invariant 0 <= k < |list| && list[k] == after && 0 <= after < slot.Length && Walked(s, list, r, k)
        decreases |list| - k
      {
        WalkStep(s, list, r, k);
        var next := slot[after].next;
        if next == -1 { break; }
        var a, b := KeyOf(slot[after]), KeyOf(slot[next]);
        if (InOrder(a, r) || !InOrder(a, b)) && InOrder(r, b) { break; }
        after, k := next, k + 1;
      }
    }

    method AddRequest(x: int, r: Req)
      requires Valid() && 0 <= x < NR_REQUEST && slot[x].dev < 0 && r.dev >= 0 && r.next == -1
      requires (r.cmd == 0 || (r.cmd == 1 && x < WRITE_LIMIT))
      requires BufferOf(KeyOf(r)) in locked && !IsQueued(Queue(), BufferOf(KeyOf(r)))
      modifies this`current, this`list, slot
      ensures Valid() && Elevated(old(Queue()), KeyOf(r), Queue()) && OrderKept(old(Queue()), KeyOf(r), Queue())
    {
      ghost var s := slot[..];
      if current == -1 {
        AddToEmpty(s, locked, x, r);
        AddFirst(KeyOf(r));
        hide *;
        slot[x] := r;
        current, list := x, [x];
      } else {
        var after;
        ghost var k;
        after, k := FindPlace(KeyOf(r));
        AddInv(s, current, list, locked, x, r, k);
        hide *;
        slot[x] := r.(next := slot[after].next);
        slot[after] := slot[after].(next := x);
        list := Splice(list, k, x);
        assert slot[..] == Link(s, x, r, after);
      }
    }

    // make_request once the buffer is locked. No slot: sleep on wait_for_request, the lock held, and try again.
    method Enqueue(cmd: int, b: Buffer) returns (ok: bool)
      requires Valid() && (cmd == 0 || cmd == 1) && b.dev >= 0 && b.block >= 0 && b in locked && !IsQueued(Queue(), b)
      modifies this`current, this`list, slot
      ensures Valid()
      ensures ok <==> HasSlot(old(slot[..]), cmd)
      ensures !ok ==> Queue() == old(Queue())
      ensures ok ==>
        Elevated(old(Queue()), Key(cmd, b.dev, 2 * b.block), Queue())
          && OrderKept(old(Queue()), Key(cmd, b.dev, 2 * b.block), Queue())
    {
      var limit := if cmd == 0 then NR_REQUEST else WRITE_LIMIT;
      var x := FindSlot(limit);
      ghost var s := slot[..];
      if x == -1 { return false; }
      assert s[x].dev < 0;
      var r := Req(b.dev, cmd, 2 * b.block, -1);
      assert BufferOf(KeyOf(r)) == b;
      hide Inv, Elevated, OrderKept, IsQueued;
      AddRequest(x, r);
      ok := true;
    }

    // ll_rw_block's make_request: rw is READ, WRITE, READA or WRITEA. needed says that the buffer is dirty (for a
    // write) or not up to date (for a read). Sleeps is a sleep for the lock, or, with the buffer locked, for a slot.
    method MakeRequest(rw: int, b: Buffer, needed: bool) returns (out: Out)
      requires Valid() && 0 <= rw <= 3 && b.dev >= 0 && b.block >= 0
      modifies this, slot
      ensures Valid()
      ensures !out.Queued? ==> Queue() == old(Queue())
      ensures out.Queued? ==> b !in old(locked) && needed && locked == old(locked) + {b}
      ensures out.Queued? ==>
        Elevated(old(Queue()), Key(rw % 2, b.dev, 2 * b.block), Queue())
          && OrderKept(old(Queue()), Key(rw % 2, b.dev, 2 * b.block), Queue())
      ensures out == Answer(rw, b in old(locked), needed, HasSlot(old(slot[..]), rw % 2))
      ensures out.Nothing? ==> locked == old(locked)
      ensures out.Sleeps? ==>
        rw < 2 && locked == old(locked) + {b} && (b !in old(locked) ==> needed && !IsQueued(Queue(), b))
    {
      if rw >= 2 && b in locked { return Nothing; }
      if b in locked { return Sleeps; }
      NotQueued(Queue(), locked, b);
      MoreLocked(Queue(), locked, b);
      hide IsQueued, Elevated, OrderKept, Exclusive, Linked, TwoSweeps;
      ghost var before := locked;
      locked := locked + {b};
      if !needed {
        locked := locked - {b};
        assert locked == before;
        return Nothing;
      }
      var ok := Enqueue(rw % 2, b);
      if ok { return Queued; }
      if rw >= 2 {
        LessLocked(Queue(), locked, b);
        locked := locked - {b};
        assert locked == before;
        return Nothing;
      }
      return Sleeps;
    }

    // end_request
    method EndRequest() returns (k: Key)
      requires Valid() && current != -1
      modifies this, slot
      ensures Valid() && old(Queue()) == [k] + Queue() && locked == old(locked) - {BufferOf(k)}
      ensures BufferOf(k) in old(locked)
    {
      ghost var ks := Queue();
      EndInv(slot[..], current, list, locked);
      FirstKey(slot[..], current, list, locked);
      hide *;
      k := KeyOf(slot[current]);
      locked := locked - {BufferOf(k)};
      var next := slot[current].next;
      slot[current] := slot[current].(dev := -1);
      current, list := next, list[1..];
    }
  }

  // The first k steps of the walk found no place.
  ghost predicate Walked(slot: seq<Req>, list: seq<int>, r: Key, k: int) {
    && (forall i :: 0 <= i < |list| ==> 0 <= list[i] < |slot|) && 0 <= k < |list|
    && (forall i :: 0 <= i < |list| ==> slot[list[i]].next == NextOf(list, i))
    && (forall i :: 0 <= i < k ==> !StopsAt(Keys(slot, list), r, i))
  }

  lemma WalkStart(slot: seq<Req>, current: int, list: seq<int>, locked: set<Buffer>, r: Key)
    requires Inv(slot, current, list, locked) && current != -1
    ensures Walked(slot, list, r, 0) && list[0] == current && 0 <= current < |slot|
  {}

  lemma WalkStep(slot: seq<Req>, list: seq<int>, r: Key, k: int)
    requires Walked(slot, list, r, k)
    ensures 0 <= list[k] < |slot|
    ensures slot[list[k]].next == (if k + 1 < |list| then list[k + 1] else -1)
    ensures k + 1 < |list| ==> 0 <= list[k + 1] < |slot|
    ensures k + 1 == |list| ==> Place(Keys(slot, list), r, k)
    ensures k + 1 < |list| ==> var a, b := KeyOf(slot[list[k]]), KeyOf(slot[list[k + 1]]);
      if (InOrder(a, r) || !InOrder(a, b))
        && InOrder(r, b) then Place(Keys(slot, list), r, k) else Walked(slot, list, r, k + 1)
  {}

  lemma FirstKey(slot: seq<Req>, current: int, list: seq<int>, locked: set<Buffer>)
    requires Inv(slot, current, list, locked) && list != []
    ensures 0 <= current < |slot| && Keys(slot, list) == [KeyOf(slot[current])] + Keys(slot, list)[1..]
    ensures BufferOf(KeyOf(slot[current])) in locked
  {
    hide NextOf, TwoSweeps;
    var ks := Keys(slot, list);
    assert ks[0] == KeyOf(slot[current]) && ks == [ks[0]] + ks[1..];
  }

  lemma NotQueued(ks: seq<Key>, locked: set<Buffer>, b: Buffer)
    requires Exclusive(ks, locked) && b !in locked
    ensures !IsQueued(ks, b)
  {}

  lemma MoreLocked(ks: seq<Key>, locked: set<Buffer>, b: Buffer)
    requires Exclusive(ks, locked)
    ensures Exclusive(ks, locked + {b})
  {}

  lemma LessLocked(ks: seq<Key>, locked: set<Buffer>, b: Buffer)
    requires Exclusive(ks, locked) && !IsQueued(ks, b)
    ensures Exclusive(ks, locked - {b})
  {}
  ghost function Writes(slot: seq<Req>): set<int> { set x | 0 <= x < |slot| && slot[x].dev >= 0 && slot[x].cmd == 1 }

  // At least eleven of the slots are never taken by writes.
  lemma FewWrites(slot: seq<Req>, current: int, list: seq<int>, locked: set<Buffer>)
    requires Inv(slot, current, list, locked)
    ensures |Writes(slot)| <= WRITE_LIMIT
  {
    hide NextOf, TwoSweeps, Exclusive;
    var all := Range(WRITE_LIMIT);
    assert Writes(slot) <= all;
    assert all == Writes(slot) + (all - Writes(slot));
  }
}
