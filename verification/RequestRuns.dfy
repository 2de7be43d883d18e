// Every run of a request queue from blk_dev_init on: requests, tasks that wake and ask again, and requests that end.
module RequestRuns {
  import opened Sequences
  import opened Elevator
  import opened Requests

  // Retry is the turn of the i-th of the tasks that sleep for a slot, with the buffer locked.
  datatype Op = Make(rw: int, b: Buffer, needed: bool) | Retry(i: int) | End
  datatype Did = Asked(out: Out) | Ended(k: Key) | Idle
  // asleep: what the tasks that wait for a slot want
  datatype Line = Line(slot: seq<Req>, current: int, list: seq<int>, locked: set<Buffer>, asleep: seq<Key>)

  // what callers of ll_rw_block see to
  predicate Fit(op: Op) { op.Make? ==> 0 <= op.rw <= 3 && op.b.dev >= 0 && op.b.block >= 0 }
  function KeyFor(rw: int, b: Buffer): Key { Key(rw % 2, b.dev, 2 * b.block) }

  // A task asleep holds the lock of a buffer that is not queued, and no two hold the same.
  ghost predicate Sleepers(ks: seq<Key>, asleep: seq<Key>, locked: set<Buffer>) {
    && (forall i :: 0 <= i < |asleep| ==> Sleeper(ks, asleep[i], locked))
    && (forall i, j :: 0 <= i < j < |asleep| ==> BufferOf(asleep[i]) != BufferOf(asleep[j]))
  }

  ghost predicate Sleeper(ks: seq<Key>, k: Key, locked: set<Buffer>) {
    && 0 <= k.cmd <= 1 && k.dev >= 0 && k.sector >= 0 && k.sector % 2 == 0
    && BufferOf(k) in locked && !IsQueued(ks, BufferOf(k))
  }

  ghost predicate Good(l: Line) {
    Inv(l.slot, l.current, l.list, l.locked) && Sleepers(QueueOf(l), l.asleep, l.locked)
  }

  ghost function QueueOf(l: Line): seq<Key>
    requires Inv(l.slot, l.current, l.list, l.locked)
  { Keys(l.slot, l.list) }

  ghost predicate Joined(l: seq<Key>, k: Key, l': seq<Key>) { Elevated(l, k, l') && OrderKept(l, k, l') }

  // What a step does to the queue, the locks and the tasks asleep, and what it answers.
  ghost predicate Went(l: Line, op: Op, did: Did, l': Line)
    requires Good(l) && Good(l')
  {
    var q, q' := QueueOf(l), QueueOf(l');
    match op
    case Make(rw, b, needed) =>
      && did == Asked(Answer(rw, b in l.locked, needed, HasSlot(l.slot, rw % 2)))
      && l'.locked == (if did.out.Nothing? then l.locked else l.locked + {b})
      && l'.asleep == (if did.out.Sleeps? && b !in l.locked then l.asleep + [KeyFor(rw, b)] else l.asleep)
      && if did.out.Queued? then Joined(q, KeyFor(rw, b), q') else q' == q
    case Retry(i) =>
      && l'.locked == l.locked
      && if !(0 <= i < |l.asleep|) then did == Idle && l' == l
         else if HasSlot(l.slot, l.asleep[i].cmd) then
           did == Asked(Queued) && Joined(q, l.asleep[i], q') && l'.asleep == Without(l.asleep, i)
         else did == Asked(Sleeps) && q' == q && l'.asleep == l.asleep
    case End =>
      && l'.asleep == l.asleep
      && if q == [] then did == Idle && l' == l
         else did == Ended(q[0]) && q' == q[1..] && l'.locked == l.locked - {BufferOf(q[0])}
  }

  ghost function LineOf(rq: RequestQueue, asleep: seq<Key>): Line
    reads rq, rq.slot
  { Line(rq.slot[..], rq.current, rq.list, rq.locked, asleep) }

  lemma {:induction false} JoinedQueued(l: seq<Key>, k: Key, l': seq<Key>, b: Buffer)
    requires OrderKept(l, k, l') && b != BufferOf(k) && !IsQueued(l, b)
    ensures !IsQueued(l', b)
  {
    var j :| 0 <= j <= |l| && l' == l[..j] + [k] + l[j..] && (l != [] ==> j > 0);
    forall i | 0 <= i < |l'| ensures BufferOf(l'[i]) != b { if i > j { assert l'[i] == l[i - 1]; } }
  }

  lemma EndedQueued(l: seq<Key>, b: Buffer)
    requires l != [] && !IsQueued(l, b)
    ensures !IsQueued(l[1..], b)
  {
    forall i | 0 <= i < |l[1..]| ensures BufferOf(l[1..][i]) != b { assert l[1..][i] == l[i + 1]; }
  }

  lemma KeyBuffer(k: Key, b: Buffer)
    requires k.sector % 2 == 0 && k.sector == 2 * b.block && k.dev == b.dev
    ensures BufferOf(k) == b
  {}

  // the others stay asleep
  lemma SleepersJoined(q: seq<Key>, q': seq<Key>, k: Key, asleep: seq<Key>, locked: set<Buffer>, locked': set<Buffer>)
    requires Sleepers(q, asleep, locked) && locked <= locked' && OrderKept(q, k, q')
    requires forall i :: 0 <= i < |asleep| ==> BufferOf(asleep[i]) != BufferOf(k)
    ensures Sleepers(q', asleep, locked')
  {
    hide OrderKept, IsQueued;
    forall i | 0 <= i < |asleep| ensures Sleeper(q', asleep[i], locked') {
      JoinedQueued(q, k, q', BufferOf(asleep[i]));
    }
  }

  lemma SleepersEnded(q: seq<Key>, asleep: seq<Key>, locked: set<Buffer>)
    requires Sleepers(q, asleep, locked) && q != []
    ensures Sleepers(q[1..], asleep, locked - {BufferOf(q[0])})
  {
    hide IsQueued;
    forall i | 0 <= i < |asleep| ensures Sleeper(q[1..], asleep[i], locked - {BufferOf(q[0])}) {
      EndedQueued(q, BufferOf(asleep[i]));
      FirstQueued(q);
    }
  }

  lemma FirstQueued(q: seq<Key>)
    requires q != []
    ensures IsQueued(q, BufferOf(q[0]))
  {}

  lemma SleepersMore(q: seq<Key>, asleep: seq<Key>, locked: set<Buffer>, k: Key)
    requires Sleepers(q, asleep, locked) && BufferOf(k) !in locked && Sleeper(q, k, locked + {BufferOf(k)})
    ensures Sleepers(q, asleep + [k], locked + {BufferOf(k)})
  { hide IsQueued; }

  lemma SleepersWithout(q: seq<Key>, asleep: seq<Key>, locked: set<Buffer>, i: int)
    requires Sleepers(q, asleep, locked) && 0 <= i < |asleep|
    ensures Sleepers(q, Without(asleep, i), locked)
    ensures forall j :: 0 <= j < |asleep| - 1 ==> BufferOf(Without(asleep, i)[j]) != BufferOf(asleep[i])
  {
    hide Sleeper, BufferOf;
    var w := Without(asleep, i);
    forall j | 0 <= j < |w| ensures w[j] == asleep[if j < i then j else j + 1] {}
  }

  method StepMake(rq: RequestQueue, asleep: seq<Key>, rw: int, b: Buffer, needed: bool)
    returns (did: Did, asleep': seq<Key>)
    requires rq.Valid() && Good(LineOf(rq, asleep)) && Fit(Make(rw, b, needed))
    modifies rq, rq.slot
    ensures rq.Valid() && Good(LineOf(rq, asleep'))
    ensures Went(old(LineOf(rq, asleep)), Make(rw, b, needed), did, LineOf(rq, asleep'))
  {
    hide Inv, Keys, Sleepers, Elevated, OrderKept, IsQueued, HasSlot, Answer;
    ghost var q, was := rq.Queue(), rq.locked;
    var busy := b in rq.locked;
    var out := rq.MakeRequest(rw, b, needed);
    var k := KeyFor(rw, b);
    KeyBuffer(k, b);
    did, asleep' := Asked(out), asleep;
    if out.Queued? {
      NotAsleep(q, asleep, was, b);
      SleepersJoined(q, rq.Queue(), k, asleep, was, rq.locked);
    } else if out.Sleeps? && !busy {
      asleep' := asleep + [k];
      SleepersMore(q, asleep, was, k);
    } else {
      assert rq.locked == was;
    }
  }

  lemma NotAsleep(q: seq<Key>, asleep: seq<Key>, locked: set<Buffer>, b: Buffer)
    requires Sleepers(q, asleep, locked) && b !in locked
    ensures forall i :: 0 <= i < |asleep| ==> BufferOf(asleep[i]) != b
  {}

  method StepRetry(rq: RequestQueue, asleep: seq<Key>, i: int) returns (did: Did, asleep': seq<Key>)
    requires rq.Valid() && Good(LineOf(rq, asleep))
    modifies rq, rq.slot
    ensures rq.Valid() && Good(LineOf(rq, asleep'))
    ensures Went(old(LineOf(rq, asleep)), Retry(i), did, LineOf(rq, asleep'))
  {
    if !(0 <= i < |asleep|) { return Idle, asleep; }
    ghost var q := rq.Queue();
    var k := asleep[i];
    var b := Buffer(k.dev, k.sector / 2);
    IsSleeper(q, asleep, rq.locked, i);
    SleepersWithout(q, asleep, rq.locked, i);
    hide Inv, Keys, Sleepers, Elevated, OrderKept, IsQueued, HasSlot, Without;
    assert k == Key(k.cmd, b.dev, 2 * b.block);
    var ok := rq.Enqueue(k.cmd, b);
    if !ok { return Asked(Sleeps), asleep; }
    did, asleep' := Asked(Queued), asleep[..i] + asleep[i + 1..];
    assert asleep' == Without(asleep, i);
    SleepersJoined(q, rq.Queue(), k, asleep', rq.locked, rq.locked);
  }

  lemma IsSleeper(q: seq<Key>, asleep: seq<Key>, locked: set<Buffer>, i: int)
    requires Sleepers(q, asleep, locked) && 0 <= i < |asleep|
    ensures Sleeper(q, asleep[i], locked)
  {}

  lemma EmptyList(slot: seq<Req>, current: int, list: seq<int>, locked: set<Buffer>)
    requires Inv(slot, current, list, locked)
    ensures current == -1 <==> Keys(slot, list) == []
  { hide NextOf, TwoSweeps, Exclusive, SlotRule; }

  method StepEnd(rq: RequestQueue, asleep: seq<Key>) returns (did: Did)
    requires rq.Valid() && Good(LineOf(rq, asleep))
    modifies rq, rq.slot
    ensures rq.Valid() && Good(LineOf(rq, asleep)) && Went(old(LineOf(rq, asleep)), End, did, LineOf(rq, asleep))
  {
    hide Inv, Keys, Sleepers;
    ghost var q := rq.Queue();
    EmptyList(rq.slot[..], rq.current, rq.list, rq.locked);
    if rq.current == -1 { return Idle; }
    SleepersEnded(q, asleep, rq.locked);
    var k := rq.EndRequest();
    assert q[1..] == rq.Queue() && q[0] == k;
    did := Ended(k);
  }

  method Step(rq: RequestQueue, asleep: seq<Key>, op: Op) returns (did: Did, asleep': seq<Key>)
    requires rq.Valid() && Good(LineOf(rq, asleep)) && Fit(op)
    modifies rq, rq.slot
    ensures rq.Valid() && Good(LineOf(rq, asleep'))
    ensures Went(old(LineOf(rq, asleep)), op, did, LineOf(rq, asleep'))
  {
    hide Inv, Good, Went;
    match op
    case Make(rw, b, needed) => did, asleep' := StepMake(rq, asleep, rw, b, needed);
    case Retry(i) => did, asleep' := StepRetry(rq, asleep, i);
    case End =>
      did := StepEnd(rq, asleep);
      asleep' := asleep;
  }

  // ---- runs
  ghost predicate Traced(ops: seq<Op>, dids: seq<Did>, lines: seq<Line>) {
    && |dids| <= |ops| && |lines| == |dids| + 1
    && (forall i :: 0 <= i < |lines| ==> Good(lines[i]))
    && forall i :: 0 <= i < |dids| ==> Went(lines[i], ops[i], dids[i], lines[i + 1])
  }

  // what a step has put into the queue and what it has taken out
  function Ins(l: Line, op: Op, did: Did): seq<Key> {
    if did != Asked(Queued) then []
    else if op.Make? then [KeyFor(op.rw, op.b)]
    else if op.Retry? && 0 <= op.i < |l.asleep| then [l.asleep[op.i]] else []
  }

  function Outs(did: Did): seq<Key> { if did.Ended? then [did.k] else [] }

  ghost function AllIns(ops: seq<Op>, dids: seq<Did>, lines: seq<Line>, n: nat): seq<Key>
    requires n <= |dids| <= |ops| && |dids| < |lines|
  { if n == 0 then [] else AllIns(ops, dids, lines, n - 1) + Ins(lines[n - 1], ops[n - 1], dids[n - 1]) }

  function AllOuts(dids: seq<Did>, n: nat): seq<Key>
    requires n <= |dids|
  { if n == 0 then [] else AllOuts(dids, n - 1) + Outs(dids[n - 1]) }

  lemma WentKeeps(l: Line, op: Op, did: Did, l': Line)
    requires Good(l) && Good(l') && Went(l, op, did, l')
    ensures multiset(QueueOf(l)) + multiset(Ins(l, op, did)) == multiset(QueueOf(l')) + multiset(Outs(did))
  {
    hide Good, Inv, QueueOf, Elevated, Answer, OrderKept;
    GoodInv(l);
    GoodInv(l');
    var q, q' := QueueOf(l), QueueOf(l');
    if did == Asked(Queued) {
      var k := if op.Make? then KeyFor(op.rw, op.b) else l.asleep[op.i];
      KeptBag(q, k, q');
    } else if did.Ended? {
      assert q == [q[0]] + q[1..];
    }
  }

  lemma GoodInv(l: Line)
    requires Good(l)
    ensures Inv(l.slot, l.current, l.list, l.locked)
  { hide Inv; }

  lemma KeptBag(l: seq<Key>, k: Key, l': seq<Key>)
    requires OrderKept(l, k, l')
    ensures multiset(l') == multiset(l) + multiset([k])
  {
    var j :| 0 <= j <= |l| && l' == l[..j] + [k] + l[j..] && (l != [] ==> j > 0);
    assert l == l[..j] + l[j..];
  }

  lemma Bags(q: seq<Key>, q1: seq<Key>, q2: seq<Key>, a: seq<Key>, i: seq<Key>, b: seq<Key>, o: seq<Key>)
    requires multiset(q) + multiset(a) == multiset(q1) + multiset(b)
    requires multiset(q1) + multiset(i) == multiset(q2) + multiset(o)
    ensures multiset(q) + multiset(a + i) == multiset(q2) + multiset(b + o)
  {
    forall k: Key ensures (multiset(q) + multiset(a + i))[k] == (multiset(q2) + multiset(b + o))[k] {
      assert (multiset(q) + multiset(a))[k] == (multiset(q1) + multiset(b))[k];
      assert (multiset(q1) + multiset(i))[k] == (multiset(q2) + multiset(o))[k];
    }
  }

  // No request is lost and none is served twice: what was queued at first or since has ended or is queued now.
  lemma {:induction false} Conserved(ops: seq<Op>, dids: seq<Did>, lines: seq<Line>, n: nat)
    requires Traced(ops, dids, lines) && n <= |dids|
    ensures multiset(QueueOf(lines[0])) + multiset(AllIns(ops, dids, lines, n))
         == multiset(QueueOf(lines[n])) + multiset(AllOuts(dids, n))
  {
    hide Good, Inv, QueueOf, Went, Ins, Outs;
    GoodInv(lines[0]);
    GoodInv(lines[n]);
    if n > 0 {
      GoodInv(lines[n - 1]);
      Conserved(ops, dids, lines, n - 1);
      WentKeeps(lines[n - 1], ops[n - 1], dids[n - 1], lines[n]);
      var a, b := AllIns(ops, dids, lines, n - 1), AllOuts(dids, n - 1);
      var i, o := Ins(lines[n - 1], ops[n - 1], dids[n - 1]), Outs(dids[n - 1]);
      Bags(QueueOf(lines[0]), QueueOf(lines[n - 1]), QueueOf(lines[n]), a, i, b, o);
    }
  }

  lemma TracedMore(ops: seq<Op>, dids: seq<Did>, lines: seq<Line>, did: Did, l: Line)
    requires Traced(ops, dids, lines) && |dids| < |ops| && Good(l) && Went(lines[|dids|], ops[|dids|], did, l)
    ensures Traced(ops, dids + [did], lines + [l])
  {
    hide Good, Went;
    var ds, ls := dids + [did], lines + [l];
    forall i | 0 <= i < |ls| ensures Good(ls[i]) { if i < |lines| { assert ls[i] == lines[i]; } }
    forall i | 0 <= i < |ds| ensures Went(ls[i], ops[i], ds[i], ls[i + 1]) {
      if i < |dids| { assert ls[i + 1] == lines[i + 1] && ds[i] == dids[i]; }
    }
  }

  method Run(rq: RequestQueue, asleep: seq<Key>, ops: seq<Op>)
    returns (dids: seq<Did>, asleep': seq<Key>, ghost lines: seq<Line>)
    requires rq.Valid() && Good(LineOf(rq, asleep)) && forall i :: 0 <= i < |ops| ==> Fit(ops[i])
    modifies rq, rq.slot
    ensures rq.Valid() && |dids| == |ops| && Traced(ops, dids, lines)
    ensures lines[0] == old(LineOf(rq, asleep)) && lines[|ops|] == LineOf(rq, asleep')
  {
    hide Inv, Good, Went, LineOf, Traced;
    dids, asleep', lines := [], asleep, [LineOf(rq, asleep)];
    TracedNone(ops, lines[0]);
    while |dids| < |ops|
      invariant rq.Valid() && Good(LineOf(rq, asleep')) && |lines| == |dids| + 1 <= |ops| + 1
        && Traced(ops, dids, lines)
      invariant lines[0] == old(LineOf(rq, asleep)) && lines[|dids|] == LineOf(rq, asleep')
    {
      var did;
      did, asleep' := Step(rq, asleep', ops[|dids|]);
      TracedMore(ops, dids, lines, did, LineOf(rq, asleep'));
      dids, lines := dids + [did], lines + [LineOf(rq, asleep')];
    }
  }

  lemma TracedNone(ops: seq<Op>, l: Line)
    requires Good(l)
    ensures Traced(ops, [], [l])
  {}

  // In every run from the start, each list is two sweeps of locked buffers and no request is lost.
  method Boot(ops: seq<Op>) returns (dids: seq<Did>, ghost lines: seq<Line>)
    requires forall i :: 0 <= i < |ops| ==> Fit(ops[i])
    ensures |dids| == |ops| && Traced(ops, dids, lines)
    ensures QueueOf(lines[0]) == [] && lines[0].locked == {} && lines[0].asleep == []
    ensures forall n :: 0 <= n <= |ops| ==>
      multiset(AllIns(ops, dids, lines, n)) == multiset(QueueOf(lines[n])) + multiset(AllOuts(dids, n))
  {
    hide Inv, Went, AllIns, AllOuts;
    var rq := new RequestQueue();
    var asleep;
    dids, asleep, lines := Run(rq, [], ops);
    forall n | 0 <= n <= |ops|
      ensures multiset(AllIns(ops, dids, lines, n)) == multiset(QueueOf(lines[n])) + multiset(AllOuts(dids, n))
    {
      Conserved(ops, dids, lines, n);
    }
  }
}
