// Every run of the scheduler against a pure machine: who runs next, when schedule does not return, and how large a
// counter can get (kernel/sched.c, kernel/fork.c).
module SchedulerRuns {
  import opened Limits
  import opened Longs
  import opened Options
  import opened Scheduler

  datatype Op = Tick(cpl: bool, now: int) | Yield(now: int) | Reprioritise(increment: Long) | Spawn(nr: int)
              | Become(nr: int, state: int) | Arm(nr: int, alarm: int) | Post(nr: int, sig: int) | Release(nr: int)

  datatype Sched = Sched(task: seq<Slot>, current: int)
  // Hung: schedule never returns.
  datatype Next = Going(s: Sched) | Hung

  ghost predicate Good(s: Sched) {
    |s.task| == NR_TASKS && 0 <= s.current < NR_TASKS && s.task[s.current].Used? && s.task[0].Used? && Sane(s.task)
  }

  // the task of greatest counter that the search sees from slot i on, the last such; 0 if there is none
  function Best(s: seq<Slot>, i: nat): (k: int)
    requires 1 <= i
    ensures k == 0 || (i <= k && Eligible(s, k))
    decreases |s| - i
  {
    if i >= |s| then 0
    else
      var k := Best(s, i + 1);
      if Eligible(s, i) && (k == 0 || s[i].t.counter > s[k].t.counter) then i else k
  }

  lemma {:induction false} BestIs(s: seq<Slot>, i: nat)
    requires 1 <= i
    ensures Best(s, i) == 0 ==> forall j :: i <= j ==> !Eligible(s, j)
    ensures var k := Best(s, i); k != 0 ==> forall j :: i <= j && Eligible(s, j) ==>
      s[j].t.counter < s[k].t.counter || (s[j].t.counter == s[k].t.counter && j <= k)
    decreases |s| - i
  { if i < |s| { BestIs(s, i + 1); } }

  lemma ChoiceIs(s: seq<Slot>, c: int, next: int)
    requires Choice(s, c, next)
    ensures next == Best(s, 1)
  {
    BestIs(s, 1);
    if Best(s, 1) != 0 { assert Eligible(s, Best(s, 1)); }
  }

  ghost function Scheduled(s: Sched, now: int): Next requires Sane(s.task) {
    CheckSane(s.task, now);
    var t := AllChecked(s.task, now);
    if Stuck(t) then Hung else Going(Sched(Settled(t), Best(Settled(t), 1)))
  }

  function Ticked(t: Task, cpl: bool): Task {
    t.(counter := if !RunsOut(t) then Wrapped(t.counter - 1) else if cpl then t.priority else 0)
  }
  function Renice(t: Task, increment: Long): Task {
    if 0 <= t.priority - increment < 0x8000_0000 then t.(priority := t.priority - increment) else t
  }
  function Child(t: Task): Task { t.(state := RUNNING, counter := t.priority, signal := {}, alarm := 0) }
  function With(s: Sched, nr: int, x: Slot): Sched
    requires 0 <= nr < |s.task|
  { s.(task := s.task[nr := x]) }

  ghost function RefStep(s: Sched, op: Op): Next
    requires Good(s)
  {
    var t := s.task[s.current].t;
    match op
    case Tick(cpl, now) =>
      var s1 := With(s, s.current, Used(Ticked(t, cpl)));
      if cpl && RunsOut(t) then Scheduled(s1, now) else Going(s1)
    case Yield(now) => Scheduled(s, now)
    case Reprioritise(increment) => Going(With(s, s.current, Used(Renice(t, increment))))
    case Spawn(nr) => Going(if 1 <= nr < NR_TASKS && s.task[nr].Empty? then With(s, nr, Used(Child(t))) else s)
    case Become(nr, _) => Going(Changed(s, nr, op))
    case Arm(nr, _) => Going(Changed(s, nr, op))
    case Post(nr, _) => Going(Changed(s, nr, op))
    case Release(nr) => Going(if 1 <= nr < NR_TASKS && nr != s.current then With(s, nr, Empty) else s)
  }

  // what others may do to a task: change its state, set its alarm, send it a signal
  function Altered(t: Task, op: Op): Task {
    match op
    case Become(_, state) => t.(state := state)
    case Arm(_, alarm) => t.(alarm := alarm)
    case Post(_, sig) => t.(signal := t.signal + {sig})
    case _ => t
  }
  function Changed(s: Sched, nr: int, op: Op): Sched {
    if 0 <= nr < |s.task| && s.task[nr].Used? then With(s, nr, Used(Altered(s.task[nr].t, op))) else s
  }

  // What the history becomes when a step leads from s to s': a slot that fills starts anew.
  function Recorded(m: History, s: seq<Slot>, s': seq<Slot>): (m': History)
    requires |m| == |s| == |s'|
    ensures |m'| == |m|
  {
    seq(|m|, i requires 0 <= i < |m| =>
      if s'[i].Empty? then m[i] else if s[i].Empty? then s'[i].t.priority else Max(m[i], s'[i].t.priority))
  }

  // The table with which a step enters schedule, if it does.
  ghost function Entered(s: Sched, op: Op): Option<Sched>
    requires Good(s)
    ensures Entered(s, op).Some? ==> Good(Entered(s, op).value)
  {
    var t := s.task[s.current].t;
    match op
    case Tick(cpl, _) => if cpl && RunsOut(t) then Some(With(s, s.current, Used(Ticked(t, cpl)))) else None
    case Yield(_) => Some(s)
    case _ => None
  }

  // A step whose refill gives some task more than a long can hold.
  ghost predicate Wraps(s: Sched, op: Op) requires Good(s) {
    Entered(s, op).Some? &&
    var t := AllChecked(Entered(s, op).value.task, op.now);
    AllSpent(t) && Overflows(t)
  }

  // A step keeps the counters within twice the largest priority exactly if no counter wraps around.
  lemma StepBounded(s: Sched, m: History, op: Op)
    requires Good(s) && Bounded(s.task, m) && RefStep(s, op).Going?
    ensures var s' := RefStep(s, op).s;
      && Good(s') && |s'.task| == |m|
      && (Bounded(s'.task, Recorded(m, s.task, s'.task)) <==> !Wraps(s, op))
  {
    hide Scheduled, Recorded;
    if Entered(s, op).Some? {
      var e := Entered(s, op).value;
      EnteredBounded(s, m, op);
      hide Bounded, Entered, AllSpent, Overflows;
      ScheduledBounded(e, m, op.now);
      KeptRecord(m, s.task, e, op.now);
      EnteredStep(s, op);
    } else {
      OtherBounded(s, m, op);
    }
  }

  lemma EnteredStep(s: Sched, op: Op)
    requires Good(s) && Entered(s, op).Some?
    ensures RefStep(s, op) == Scheduled(Entered(s, op).value, op.now)
  { hide Scheduled; }

  lemma EnteredBounded(s: Sched, m: History, op: Op)
    requires Good(s) && Bounded(s.task, m) && Entered(s, op).Some?
    ensures var e := Entered(s, op).value;
      && Bounded(e.task, m) && |e.task| == |m| == |s.task|
      && forall i :: 0 <= i < |m| ==> (s.task[i].Empty? <==> e.task[i].Empty?)
  {}

  lemma OtherBounded(s: Sched, m: History, op: Op)
    requires Good(s) && Bounded(s.task, m) && Entered(s, op).None?
    ensures RefStep(s, op).Going?
    ensures var s' := RefStep(s, op).s; Good(s') && |s'.task| == |m| && Bounded(s'.task, Recorded(m, s.task, s'.task))
  { hide Scheduled; }

  lemma ScheduledBounded(s: Sched, m: History, now: int)
    requires Good(s) && Bounded(s.task, m) && Scheduled(s, now).Going?
    ensures var s', t := Scheduled(s, now).s, AllChecked(s.task, now);
      Good(s') && |s'.task| == |m| && (Bounded(s'.task, m) <==> !(AllSpent(t) && Overflows(t)))
  {
    hide Stuck, Best, Overflows;
    var t := AllChecked(s.task, now);
    SettledUsed(t);
    CheckBounded(s.task, m, now);
    RefillBounded(t, m);
    if AllSpent(t) { OneRefill(t, m); }
  }

  // Refills change nothing but counters.
  lemma {:induction false} SettledUsed(s: seq<Slot>)
    requires Sane(s) && !Stuck(s)
    ensures forall i :: 0 <= i < |s| ==> (Settled(s)[i].Empty? <==> s[i].Empty?)
    ensures forall i :: 0 <= i < |s| && s[i].Used? ==> Settled(s)[i].t.priority == s[i].t.priority
    decreases Lag(s)
  {
    hide Stuck, Lag;
    if AllSpent(s) {
      RefillHelps(s);
      SettledUsed(AllRefilled(s));
    }
  }

  // So schedule leaves the history as it is.
  lemma KeptRecord(m: History, s0: seq<Slot>, s: Sched, now: int)
    requires Good(s) && Bounded(s.task, m) && Scheduled(s, now).Going?
    requires |s0| == |m| && forall i :: 0 <= i < |m| ==> (s0[i].Empty? <==> s.task[i].Empty?)
    ensures var s' := Scheduled(s, now).s;
      |s'.task| == |m| && (Bounded(s'.task, Recorded(m, s0, s'.task)) <==> Bounded(s'.task, m))
  {
    hide Stuck, AllSpent, Best, Settled;
    SettledUsed(AllChecked(s.task, now));
    var s' := Scheduled(s, now).s;
    forall i | 0 <= i < |m| && s'.task[i].Used? ensures Recorded(m, s0, s'.task)[i] == m[i] {}
  }

  lemma ScheduledGood(s: Sched, now: int)
    requires Good(s) && Scheduled(s, now).Going?
    ensures Good(Scheduled(s, now).s)
  {
    hide Stuck, AllSpent, Settled;
    SettledUsed(AllChecked(s.task, now));
  }

  lemma StepGood(s: Sched, op: Op)
    requires Good(s) && RefStep(s, op).Going?
    ensures Good(RefStep(s, op).s)
  {
    hide Scheduled;
    match op
    case Tick(cpl, now) =>
      var s1 := With(s, s.current, Used(Ticked(s.task[s.current].t, cpl)));
      if cpl && RunsOut(s.task[s.current].t) { ScheduledGood(s1, now); }
    case Yield(now) => ScheduledGood(s, now);
    case _ =>
  }

  // The tables a run goes through, the first included; a run that hangs has fewer than one more than it has steps.
  ghost function Trace(s: Sched, ops: seq<Op>): (r: seq<Sched>)
    requires Good(s)
    ensures 1 <= |r| <= |ops| + 1 && r[0] == s && forall i :: 0 <= i < |r| ==> Good(r[i])
    decreases ops
  {
    if ops == [] then [s]
    else
      match RefStep(s, ops[0])
      case Hung => [s]
      case Going(s') => StepGood(s, ops[0]); [s] + Trace(s', ops[1..])
  }

  // A run hangs exactly at a step that enters schedule with a slice for none of the tasks it sees, and with priority 0
  // for every runnable task.
  lemma HungWhen(s: Sched, op: Op)
    requires Good(s)
    ensures RefStep(s, op).Hung? <==> Entered(s, op).Some? && Stuck(AllChecked(Entered(s, op).value.task, op.now))
  { hide Stuck; }

  // Where a step switches to the idle task while others can run: exactly where it enters schedule with counters below
  // zero for all of those. It then refills none of them.
  lemma PassedOver(s: Sched, op: Op)
    requires Good(s) && Entered(s, op).Some? && RefStep(s, op).Going?
    ensures var t, s' := AllChecked(Entered(s, op).value.task, op.now), RefStep(s, op).s;
      && (Promised(s'.task, s'.current) <==> !Starved(t))
      && (Starved(t) ==> s' == Sched(t, 0))
  {
    hide Stuck, Settled, AllChecked;
    var t := AllChecked(Entered(s, op).value.task, op.now);
    CheckSane(Entered(s, op).value.task, op.now);
    BestChoice(Settled(t));
    StarvedSettles(t);
  }

  lemma StarvedSettles(s: seq<Slot>)
    requires Sane(s) && !Stuck(s)
    ensures Starved(Settled(s)) <==> Starved(s)
    ensures Starved(s) ==> Settled(s) == s && Best(s, 1) == 0
  {
    if AllSpent(s) {
      var i :| Eligible(s, i);
      assert Candidate(s, i);
      var j :| Eligible(Settled(s), j);
      assert Candidate(Settled(s), j);
    }
  }

  lemma BestChoice(s: seq<Slot>)
    ensures Promised(s, Best(s, 1)) <==> !Starved(s)
  {
    BestIs(s, 1);
    var k := Best(s, 1);
    ChoicePromised(s, if k == 0 then -1 else s[k].t.counter, k);
  }

  // the history of a run: m at its start
  function HeldBy(m: History, r: seq<Sched>): (h: History)
    requires |m| == NR_TASKS && forall i :: 0 <= i < |r| ==> |r[i].task| == NR_TASKS
    ensures |h| == NR_TASKS
    decreases |r|
  { if |r| <= 1 then m else HeldBy(Recorded(m, r[0].task, r[1].task), r[1..]) }

  // slot i has been in use from the j-th table of the run to its last
  predicate Since(r: seq<Sched>, i: int, j: int) {
    0 <= j < |r| && forall k :: j <= k < |r| ==> 0 <= i < |r[k].task| && r[k].task[i].Used?
  }

  // So it is the largest priority that the task in a slot has held since it came there, or, for a task that was there
  // at the start, since then and what was recorded then.
  lemma {:induction false} HeldLargest(m: History, r: seq<Sched>, i: int)
    requires |m| == NR_TASKS && |r| > 0 && (forall k :: 0 <= k < |r| ==> |r[k].task| == NR_TASKS)
    requires 0 <= i < NR_TASKS && r[|r| - 1].task[i].Used?
    ensures forall j :: j >= 1 && Since(r, i, j) ==> r[j].task[i].t.priority <= HeldBy(m, r)[i]
    ensures Since(r, i, 0) ==> m[i] <= HeldBy(m, r)[i]
    ensures (Since(r, i, 0) && HeldBy(m, r)[i] == m[i])
      || exists j :: j >= 1 && Since(r, i, j) && HeldBy(m, r)[i] == r[j].task[i].t.priority
    decreases |r|
  {
    if |r| > 1 {
      var m1, r1 := Recorded(m, r[0].task, r[1].task), r[1..];
      HeldLargest(m1, r1, i);
      forall j | j >= 1 && j < |r| ensures Since(r, i, j) <==> Since(r1, i, j - 1) {
        if Since(r1, i, j - 1) { forall k | j <= k < |r| ensures r[k].task[i].Used? { assert r[k] == r1[k - 1]; } }
        if Since(r, i, j) { forall k | j - 1 <= k < |r1| ensures r1[k].task[i].Used? { assert r1[k] == r[k + 1]; } }
      }
      assert Since(r, i, 0) <==> Since(r, i, 1) && r[0].task[i].Used?;
      if Since(r1, i, 0) && HeldBy(m, r)[i] == m1[i] {
        assert Since(r, i, 1);
      } else {
        var j :| j >= 1 && Since(r1, i, j) && HeldBy(m1, r1)[i] == r1[j].task[i].t.priority;
        assert Since(r, i, j + 1);
      }
    }
  }

  predicate Sized(r: seq<Sched>, m: History) { |m| == NR_TASKS && forall k :: 0 <= k < |r| ==> |r[k].task| == NR_TASKS }

  // In the first tables of a run, every counter is at least 0 and less than twice the largest priority of its task;
  ghost predicate BoundedTo(r: seq<Sched>, m: History, i: int)
    requires Sized(r, m) && 0 <= i < |r|
  { forall j :: 0 <= j <= i ==> Bounded(r[j].task, HeldBy(m, r[..j + 1])) }

  // in its first steps, no counter wraps around.
  ghost predicate Smooth(r: seq<Sched>, ops: seq<Op>, i: int)
    requires 0 <= i < |r| <= |ops| + 1 && forall k :: 0 <= k < |r| ==> Good(r[k])
  { forall j :: 0 <= j < i ==> !Wraps(r[j], ops[j]) }

  lemma BoundedNext(r: seq<Sched>, m: History, i: int)
    requires Sized(r, m) && 0 < i < |r|
    ensures BoundedTo(r, m, i) <==> Bounded(r[0].task, m) && BoundedTo(r[1..], Recorded(m, r[0].task, r[1].task), i - 1)
  {
    hide Bounded, Recorded;
    var m1, r1 := Recorded(m, r[0].task, r[1].task), r[1..];
    assert HeldBy(m, r[..1]) == m;
    forall j | 0 < j <= i ensures r[j] == r1[j - 1] && HeldBy(m, r[..j + 1]) == HeldBy(m1, r1[..j]) {
      assert r[..j + 1][1..] == r1[..j];
    }
    if BoundedTo(r, m, i) {
      forall j | 0 <= j <= i - 1 ensures Bounded(r1[j].task, HeldBy(m1, r1[..j + 1])) {
        assert Bounded(r[j + 1].task, HeldBy(m, r[..j + 2]));
      }
    }
    if Bounded(r[0].task, m) && BoundedTo(r1, m1, i - 1) {
      forall j | 0 <= j <= i ensures Bounded(r[j].task, HeldBy(m, r[..j + 1])) {
        if j > 0 { assert Bounded(r1[j - 1].task, HeldBy(m1, r1[..j])); }
      }
    }
  }

  lemma SmoothNext(r: seq<Sched>, ops: seq<Op>, i: int)
    requires 0 < i < |r| <= |ops| + 1 && forall k :: 0 <= k < |r| ==> Good(r[k])
    ensures Smooth(r, ops, i) <==> !Wraps(r[0], ops[0]) && Smooth(r[1..], ops[1..], i - 1)
  {
    hide Wraps, Good;
    var r1, o1 := r[1..], ops[1..];
    forall j | 0 < j < i ensures r[j] == r1[j - 1] && ops[j] == o1[j - 1] {}
    if !Wraps(r[0], ops[0]) && Smooth(r1, o1, i - 1) {
      forall j | 0 <= j < i ensures !Wraps(r[j], ops[j]) { if j > 0 { assert !Wraps(r1[j - 1], o1[j - 1]); } }
    }
    if Smooth(r, ops, i) {
      forall j | 0 <= j < i - 1 ensures !Wraps(r1[j], o1[j]) { assert !Wraps(r[j + 1], ops[j + 1]); }
    }
  }

  // The one holds exactly as long as the other.
  lemma {:induction false} RunBounded(s: Sched, m: History, ops: seq<Op>, i: int)
    requires Good(s) && Bounded(s.task, m) && 0 <= i < |Trace(s, ops)|
    ensures Sized(Trace(s, ops), m) && (BoundedTo(Trace(s, ops), m, i) <==> Smooth(Trace(s, ops), ops, i))
    decreases ops
  {
    hide Bounded, RefStep, Recorded, Wraps, HeldBy, BoundedTo, Smooth;
    BoundedLong(s.task, m);
    var r := Trace(s, ops);
    if i == 0 {
      BoundedFirst(r, m, ops);
    } else {
      StepBounded(s, m, ops[0]);
      var s1 := RefStep(s, ops[0]).s;
      var m1 := Recorded(m, s.task, s1.task);
      assert r[1..] == Trace(s1, ops[1..]);
      BoundedNext(r, m, i);
      SmoothNext(r, ops, i);
      if Bounded(s1.task, m1) { RunBounded(s1, m1, ops[1..], i - 1); } else { NotBounded(r[1..], m1, i - 1); }
    }
  }

  lemma BoundedFirst(r: seq<Sched>, m: History, ops: seq<Op>)
    requires 0 < |r| <= |ops| + 1 && (forall k :: 0 <= k < |r| ==> Good(r[k])) && Sized(r, m) && Bounded(r[0].task, m)
    ensures BoundedTo(r, m, 0) && Smooth(r, ops, 0)
  { assert r[..1] == [r[0]]; }

  lemma NotBounded(r: seq<Sched>, m: History, i: int)
    requires Sized(r, m) && 0 <= i < |r| && !Bounded(r[0].task, m)
    ensures !BoundedTo(r, m, i)
  {
    assert HeldBy(m, r[..1]) == m;
    assert r[0].task == r[..1][0].task;
  }

  predicate Modest(s: seq<Slot>) { forall i :: 0 <= i < |s| && s[i].Used? ==> s[i].t.priority <= 0x4000_0000 }
  predicate ModestPast(m: History) { forall i :: 0 <= i < |m| ==> m[i] <= 0x4000_0000 }

  // No counter wraps around in a run in which no priority is ever above 2^30.
  lemma {:induction false} ModestRun(s: Sched, m: History, ops: seq<Op>, i: int)
    requires Good(s) && Bounded(s.task, m) && ModestPast(m) && 0 <= i < |Trace(s, ops)|
    requires forall k :: 0 <= k <= i ==> Modest(Trace(s, ops)[k].task)
    ensures Smooth(Trace(s, ops), ops, i)
    decreases ops
  {
    hide Bounded, RefStep, Recorded, Wraps, Smooth, Modest, ModestPast;
    BoundedLong(s.task, m);
    var r := Trace(s, ops);
    if i == 0 {
      BoundedFirst(r, m, ops);
    } else {
      StepBounded(s, m, ops[0]);
      ModestStep(s, m, ops[0]);
      var s1 := RefStep(s, ops[0]).s;
      assert r[1..] == Trace(s1, ops[1..]) && r[1] == s1;
      forall k | 0 <= k <= i - 1 ensures Modest(Trace(s1, ops[1..])[k].task) { assert r[k + 1] == r[1..][k]; }
      ModestRun(s1, Recorded(m, s.task, s1.task), ops[1..], i - 1);
      SmoothNext(r, ops, i);
    }
  }

  lemma ModestStep(s: Sched, m: History, op: Op)
    requires Good(s) && Bounded(s.task, m) && ModestPast(m)
    ensures !Wraps(s, op)
    ensures RefStep(s, op).Going? && Modest(RefStep(s, op).s.task) && |RefStep(s, op).s.task| == |m| ==>
      ModestPast(Recorded(m, s.task, RefStep(s, op).s.task))
  {
    hide RefStep, AllSpent, Overflows;
    if Entered(s, op).Some? {
      var e := Entered(s, op).value;
      assert Bounded(e.task, m);
      CheckBounded(e.task, m, op.now);
      ModestFits(AllChecked(e.task, op.now), m);
    }
  }

  // ---- the kernel's own table
  ghost function St(table: Table): Sched reads table, table.task { Sched(table.task[..], table.current) }

  method Switch(table: Table, now: int) returns (hung: bool)
    requires table.Valid() && table.task[0].Used?
    modifies table`current, table.task
    ensures hung <==> Scheduled(old(St(table)), now).Hung?
    ensures !hung ==> table.Valid() && table.task[0].Used? && St(table) == Scheduled(old(St(table)), now).s
  {
    hide Stuck, AllSpent, Choice;
    var next;
    next, hung := table.Schedule(now);
    if !hung {
      ghost var c :| c != 0 && Choice(table.task[..], c, next);
      ChoiceIs(table.task[..], c, next);
      table.current := next;
    }
  }

  method Alter(table: Table, nr: int, op: Op)
    requires table.Valid() && table.task[0].Used? && (op.Become? || op.Arm? || op.Post?)
    modifies table.task
    ensures table.Valid() && table.task[0].Used? && St(table) == Changed(old(St(table)), nr, op)
  {
    if 0 <= nr < NR_TASKS && table.task[nr].Used? { table.task[nr] := Used(Altered(table.task[nr].t, op)); }
  }

  method DropTask(table: Table, nr: int)
    requires table.Valid() && table.task[0].Used? && 1 <= nr < NR_TASKS && nr != table.current
    modifies table.task
    ensures table.Valid() && table.task[0].Used? && St(table) == With(old(St(table)), nr, Empty)
  { table.task[nr] := Empty; }

  lemma BoundedLong(s: seq<Slot>, m: History)
    requires Bounded(s, m)
    ensures |m| == |s|
  {}

  method Step(table: Table, op: Op) returns (hung: bool)
    requires table.Valid() && table.task[0].Used?
    modifies table, table.task
    ensures hung <==> RefStep(old(St(table)), op).Hung?
    ensures !hung ==> table.Valid() && table.task[0].Used? && St(table) == RefStep(old(St(table)), op).s
  {
    hide Stuck, AllSpent, Scheduled;
    hung := false;
    match op {
      case Tick(cpl, now) =>
        var again := table.DoTimer(cpl);
        assert St(table) == With(old(St(table)), table.current, Used(Ticked(old(table.task[table.current]).t, cpl)));
        if again { hung := Switch(table, now); }
      case Yield(now) => hung := Switch(table, now);
      case Reprioritise(increment) => table.Nice(increment);
      case Spawn(nr) => if 1 <= nr < NR_TASKS && table.task[nr].Empty? { table.Fork(nr); }
      case Become(nr, _) => Alter(table, nr, op);
      case Arm(nr, _) => Alter(table, nr, op);
      case Post(nr, _) => Alter(table, nr, op);
      case Release(nr) => if 1 <= nr < NR_TASKS && nr != table.current { DropTask(table, nr); }
    }
  }

  // The kernel's table goes through the tables of the pure machine, and hangs exactly where that one does.
  method Run(table: Table, ops: seq<Op>) returns (hung: bool)
    requires table.Valid() && table.task[0].Used?
    modifies table, table.task
    ensures old(Good(St(table))) && (hung <==> |Trace(old(St(table)), ops)| <= |ops|)
    ensures !hung ==> table.Valid() && table.task[0].Used? && St(table) == Trace(old(St(table)), ops)[|ops|]
    decreases ops
  {
    hide RefStep;
    ghost var s := St(table);
    if ops == [] { return false; }
    hung := Step(table, ops[0]);
    if hung { return; }
    assert Trace(s, ops)[1..] == Trace(St(table), ops[1..]);
    hung := Run(table, ops[1..]);
  }

  // From the idle task alone.
  function Alone(idle: Task): Sched { Sched(seq(NR_TASKS, i => if i == 0 then Used(idle) else Empty), 0) }

  // In each of them every counter is less than twice the largest priority that its task has held, exactly as long as
  // no counter wraps around.
  method Boot(idle: Task, ops: seq<Op>) returns (table: Table, hung: bool)
    requires 0 <= idle.priority && 0 <= idle.counter <= Cap(idle.priority)
    ensures Good(Alone(idle)) && (hung <==> |Trace(Alone(idle), ops)| <= |ops|)
    ensures !hung ==> table.Valid() && St(table) == Trace(Alone(idle), ops)[|ops|]
    ensures var r, m := Trace(Alone(idle), ops), seq(NR_TASKS, _ => idle.priority);
      Sized(r, m) && forall i :: 0 <= i < |r| ==> (BoundedTo(r, m, i) <==> Smooth(r, ops, i))
  {
    table := new Table(idle);
    assert St(table) == Alone(idle);
    ghost var m := seq(NR_TASKS, _ => idle.priority);
    forall i | 0 <= i < |Trace(Alone(idle), ops)|
      ensures Sized(Trace(Alone(idle), ops), m)
      ensures BoundedTo(Trace(Alone(idle), ops), m, i) <==> Smooth(Trace(Alone(idle), ops), ops, i)
    {
      RunBounded(Alone(idle), m, ops, i);
    }
    hung := Run(table, ops);
  }

  // ---- two runs that go wrong
  function Few(idle: Task, a: Slot, b: Slot, current: int): Sched {
    Sched(seq(NR_TASKS, i => if i == 0 then Used(idle) else if i == 1 then a else if i == 2 then b else Empty), current)
  }

  // A table whose steps lead from each to the next is the trace of those steps.
  lemma {:induction false} Follows(ops: seq<Op>, r: seq<Sched>)
    requires |r| == |ops| + 1 && forall i :: 0 <= i < |r| ==> Good(r[i])
    requires forall i :: 0 <= i < |ops| ==> RefStep(r[i], ops[i]) == Going(r[i + 1])
    ensures Trace(r[0], ops) == r
    decreases ops
  {
    hide RefStep, Good;
    if ops == [] { assert r == [r[0]]; } else {
      var r1, o1 := r[1..], ops[1..];
      forall i | 0 <= i < |o1| ensures RefStep(r1[i], o1[i]) == Going(r1[i + 1]) {
        assert r1[i] == r[i + 1] && o1[i] == ops[i + 1];
      }
      Follows(o1, r1);
      assert RefStep(r[0], ops[0]) == Going(r[1]);
    }
  }

  // Nobody has an alarm or a signal.
  predicate Quiet(s: Slot) { s.Used? ==> s.t.alarm == 0 && s.t.signal == {} }

  lemma FewCandidates(idle: Task, a: Slot, b: Slot, c: int)
    requires Quiet(a) && Quiet(b)
    ensures AllChecked(Few(idle, a, b, c).task, 0) == Few(idle, a, b, c).task
    ensures forall i :: Candidate(Few(idle, a, b, c).task, i) <==> (i == 1 && Runnable(a)) || (i == 2 && Runnable(b))
  {
    assert AllChecked(Few(idle, a, b, c).task, 0) == Few(idle, a, b, c).task;
  }

  // schedule with one task that can run: it gets the processor if it has a slice,
  lemma OneRuns(idle: Task, a: Slot, b: Slot, c: int, k: int)
    requires Quiet(a) && Quiet(b) && Sane(Few(idle, a, b, c).task) && 1 <= k <= 2
    requires if k == 1 then Runnable(a) && a.t.counter > 0 && !Runnable(b)
             else Runnable(b) && b.t.counter > 0 && !Runnable(a)
    ensures Scheduled(Few(idle, a, b, c), 0) == Going(Few(idle, a, b, k))
  {
    var s := Few(idle, a, b, c).task;
    FewCandidates(idle, a, b, c);
    BestIs(s, 1);
    assert Eligible(s, k);
  }

  // and not if its counter is below zero.
  lemma OneStarves(idle: Task, a: Slot, b: Slot, c: int)
    requires Quiet(a) && Quiet(b) && Sane(Few(idle, a, b, c).task)
    requires Runnable(a) && a.t.counter < 0 && !Runnable(b)
    ensures Scheduled(Few(idle, a, b, c), 0) == Going(Few(idle, a, b, 0))
  {
    var s := Few(idle, a, b, c).task;
    FewCandidates(idle, a, b, c);
    BestIs(s, 1);
  }

  // The only runnable task gives up its priority and then uses up its slice: schedule does not return.
  lemma StuckRun(idle: Task)
    requires idle == Task(RUNNING, 1, 1, {}, {}, 0)
    ensures Good(Alone(idle)) && Trace(Alone(idle), [Spawn(1), Yield(0), Reprioritise(1), Tick(true, 0)]) ==
      [Alone(idle), Few(idle, Used(idle), Empty, 0), Few(idle, Used(idle), Empty, 1),
       Few(idle, Used(idle.(priority := 0)), Empty, 1)]
  {
    var none := idle.(priority := 0);
    var r := [Alone(idle), Few(idle, Used(idle), Empty, 0), Few(idle, Used(idle), Empty, 1),
      Few(idle, Used(none), Empty, 1)];
    StuckSteps(idle, none);
    hide RefStep, Few, Alone;
    var o1, o2, o3, o4 := Spawn(1), Yield(0), Reprioritise(1), Tick(true, 0);
    assert [o1, o2, o3, o4][1..] == [o2, o3, o4] && [o2, o3, o4][1..] == [o3, o4] && [o3, o4][1..] == [o4];
    assert Trace(r[3], [o4]) == [r[3]];
    assert Trace(r[2], [o3, o4]) == [r[2]] + Trace(r[3], [o4]);
    assert Trace(r[1], [o2, o3, o4]) == [r[1]] + Trace(r[2], [o3, o4]);
  }

  lemma StuckSteps(idle: Task, none: Task)
    requires idle == Task(RUNNING, 1, 1, {}, {}, 0) && none == idle.(priority := 0)
    ensures Good(Alone(idle)) && Good(Few(idle, Used(idle), Empty, 0)) && Good(Few(idle, Used(idle), Empty, 1))
      && Good(Few(idle, Used(none), Empty, 1))
    ensures RefStep(Alone(idle), Spawn(1)) == Going(Few(idle, Used(idle), Empty, 0))
    ensures RefStep(Few(idle, Used(idle), Empty, 0), Yield(0)) == Going(Few(idle, Used(idle), Empty, 1))
    ensures RefStep(Few(idle, Used(idle), Empty, 1), Reprioritise(1)) == Going(Few(idle, Used(none), Empty, 1))
    ensures RefStep(Few(idle, Used(none), Empty, 1), Tick(true, 0)) == Hung
  {
    hide Scheduled;
    OneRuns(idle, Used(idle), Empty, 0, 1);
    Hangs(idle, none.(counter := 0));
    assert Child(idle) == idle;
    assert With(Few(idle, Used(none), Empty, 1), 1, Used(none.(counter := 0)))
      == Few(idle, Used(none.(counter := 0)), Empty, 1);
  }

  lemma Hangs(idle: Task, t: Task)
    requires idle == Task(RUNNING, 1, 1, {}, {}, 0) && t == idle.(priority := 0, counter := 0)
    ensures Scheduled(Few(idle, Used(t), Empty, 1), 0) == Hung
  {
    FewCandidates(idle, Used(t), Empty, 1);
    assert Eligible(Few(idle, Used(t), Empty, 1).task, 1);
  }

  // From the kernel's own idle task. Task 1 takes the largest priority there is and sleeps; task 2 uses up its slice,
  // so that the counter of task 1 wraps around; then task 2 sleeps, task 1 is woken, and schedule turns to the idle
  // task.
  function WrapOps(): seq<Op> {
    [Spawn(1), Yield(0), Reprioritise(14), Spawn(2), Reprioritise(-0x7fff_fffe), Become(1, INTERRUPTIBLE), Yield(0),
     Tick(false, 0), Yield(0), Become(2, INTERRUPTIBLE), Become(1, RUNNING), Yield(0)]
  }

  // The tables of that run, from these tasks.
  function WrapTables(idle: Task, a: Task, b: Task): seq<Sched> {
    var greedy := a.(priority := 0x7fff_ffff);
    var asleep := greedy.(state := INTERRUPTIBLE);
    var wrapped := asleep.(counter := 6 - 0x8000_0000);
    [Alone(idle), Few(idle, Used(a), Empty, 0), Few(idle, Used(a), Empty, 1),
     Few(idle, Used(a.(priority := 1)), Empty, 1), Few(idle, Used(a.(priority := 1)), Used(b), 1),
     Few(idle, Used(greedy), Used(b), 1), Few(idle, Used(asleep), Used(b), 1),
     Few(idle, Used(asleep), Used(b), 2),
     Few(idle, Used(asleep), Used(b.(counter := 0)), 2), Few(idle, Used(wrapped), Used(b), 2),
     Few(idle, Used(wrapped), Used(b.(state := INTERRUPTIBLE)), 2),
     Few(idle, Used(wrapped.(state := RUNNING)), Used(b.(state := INTERRUPTIBLE)), 2),
     Few(idle, Used(wrapped.(state := RUNNING)), Used(b.(state := INTERRUPTIBLE)), 0)]
  }

  lemma WrapRun(idle: Task)
    requires idle == Task(RUNNING, 15, 15, {}, {}, 0)
    ensures Good(Alone(idle)) && |Trace(Alone(idle), WrapOps())| == 13
    ensures var r := Trace(Alone(idle), WrapOps());
      Wraps(r[8], WrapOps()[8]) && r[12].current == 0 && Candidate(r[12].task, 1) && !Promised(r[12].task, 0)
  {
    var b := idle.(counter := 1, priority := 1);
    var r := WrapTables(idle, idle, b);
    WrapFirst(idle, idle, b);
    WrapLast(idle, idle, b);
    hide RefStep, Wraps;
    Follows(WrapOps(), r);
    assert Candidate(r[12].task, 1);
  }

  lemma WrapFirst(idle: Task, a: Task, b: Task)
    requires idle == a == Task(RUNNING, 15, 15, {}, {}, 0) && b == a.(counter := 1, priority := 1)
    ensures var r := WrapTables(idle, a, b);
      && (forall i :: 0 <= i < 8 ==> Good(r[i]))
      && forall i :: 0 <= i < 7 ==> RefStep(r[i], WrapOps()[i]) == Going(r[i + 1])
  {
    hide Scheduled;
    OneRuns(idle, Used(a), Empty, 0, 1);
    OneRuns(idle, Used(a.(priority := 0x7fff_ffff, state := INTERRUPTIBLE)), Used(b), 1, 2);
  }

  lemma WrapLast(idle: Task, a: Task, b: Task)
    requires idle == a == Task(RUNNING, 15, 15, {}, {}, 0) && b == a.(counter := 1, priority := 1)
    ensures var r := WrapTables(idle, a, b);
      && (forall i :: 8 <= i < 13 ==> Good(r[i])) && Good(r[7])
      && (forall i :: 7 <= i < 12 ==> RefStep(r[i], WrapOps()[i]) == Going(r[i + 1]))
      && Wraps(r[8], WrapOps()[8])
  {
    hide Scheduled, Wraps, Wrapped;
    var asleep := a.(priority := 0x7fff_ffff, state := INTERRUPTIBLE);
    var wrapped := asleep.(counter := 6 - 0x8000_0000);
    RefillWraps(idle, asleep, b);
    OneStarves(idle, Used(wrapped.(state := RUNNING)), Used(b.(state := INTERRUPTIBLE)), 2);
  }

  lemma RefillWraps(idle: Task, asleep: Task, b: Task)
    requires idle == Task(RUNNING, 15, 15, {}, {}, 0) && b == idle.(counter := 1, priority := 1)
    requires asleep == idle.(priority := 0x7fff_ffff, state := INTERRUPTIBLE)
    ensures var s := Few(idle, Used(asleep), Used(b.(counter := 0)), 2);
      && Good(s) && Wraps(s, Yield(0))
      && Scheduled(s, 0) == Going(Few(idle, Used(asleep.(counter := 6 - 0x8000_0000)), Used(b), 2))
  {
    var s := Few(idle, Used(asleep), Used(b.(counter := 0)), 2);
    var s' := Few(idle, Used(asleep.(counter := 6 - 0x8000_0000)), Used(b), 2);
    FewCandidates(idle, Used(asleep), Used(b.(counter := 0)), 2);
    assert Eligible(s.task, 2);
    assert Overflows(s.task) by { assert s.task[1].t.counter / 2 + s.task[1].t.priority >= 0x8000_0000; }
    assert AllRefilled(s.task) == s'.task;
    hide Overflows, AllRefilled, AllChecked, Wrapped;
    FewCandidates(idle, Used(asleep.(counter := 6 - 0x8000_0000)), Used(b), 2);
    assert Eligible(s'.task, 2);
    assert Settled(s.task) == s'.task by { assert Settled(s'.task) == s'.task; }
    BestIs(s'.task, 1);
  }
}
