// schedule, do_timer and sys_nice (kernel/sched.c), and what fork does to counter and priority (kernel/fork.c).
module Scheduler {
  import opened Limits
  import opened Longs

  const RUNNING := 0
  const INTERRUPTIBLE := 1
  const SIGKILL := 9
  const SIGALRM := 14
  const SIGSTOP := 19

  datatype Task = Task(state: int, counter: Long, priority: Long, signal: set<int>, blocked: set<int>, alarm: int)
  datatype Slot = Empty | Used(t: Task)

  predicate Runnable(s: Slot) { s.Used? && s.t.state == RUNNING }

  // The first loop of schedule: expired alarms, and interruptible tasks with a signal they do not block.
  function Alarmed(t: Task, jiffies: int): Task {
    if t.alarm != 0 && t.alarm < jiffies then t.(signal := t.signal + {SIGALRM}, alarm := 0) else t
  }

  function Roused(t: Task): Task {
    if t.signal - (t.blocked - {SIGKILL, SIGSTOP}) != {} && t.state == INTERRUPTIBLE then t.(state := RUNNING) else t
  }

  function Checked(s: Slot, jiffies: int): Slot {
    match s case Empty => Empty case Used(t) => Used(Roused(Alarmed(t, jiffies)))
  }
  function Refilled(s: Slot): Slot {
    match s case Empty => Empty case Used(t) => Used(t.(counter := Wrapped(t.counter / 2 + t.priority)))
  }
  // Both loops leave slot 0, the idle task, alone.
  function AllChecked(s: seq<Slot>, jiffies: int): seq<Slot> {
    seq(|s|, i requires 0 <= i < |s| => if i == 0 then s[0] else Checked(s[i], jiffies))
  }
  function AllRefilled(s: seq<Slot>): seq<Slot> {
    seq(|s|, i requires 0 <= i < |s| => if i == 0 then s[0] else Refilled(s[i]))
  }

  predicate Candidate(s: seq<Slot>, i: int) { 1 <= i < |s| && Runnable(s[i]) }

  // The search starts from -1: it does not see a task whose counter has wrapped around.
  predicate Eligible(s: seq<Slot>, i: int) { Candidate(s, i) && s[i].t.counter >= 0 }

  // next is a task that the search sees, of greatest counter, the last such in the table; else the idle task.
  ghost predicate Choice(s: seq<Slot>, c: int, next: int) {
    if forall i :: !Eligible(s, i) then c == -1 && next == 0
    else Eligible(s, next) && s[next].t.counter == c && forall i :: Eligible(s, i) ==>
      s[i].t.counter < c || (s[i].t.counter == c && i <= next)
  }

  // What it should be: a runnable task of greatest counter; the idle task only if none is runnable.
  ghost predicate Promised(s: seq<Slot>, next: int) {
    if forall i :: !Candidate(s, i) then next == 0
    else Candidate(s, next) && forall i :: Candidate(s, i) ==> s[i].t.counter <= s[next].t.counter
  }

  // There are runnable tasks, and the search sees none of them.
  ghost predicate Starved(s: seq<Slot>) {
    (exists i :: Candidate(s, i)) && forall i :: Candidate(s, i) ==> s[i].t.counter < 0
  }

  lemma ChoicePromised(s: seq<Slot>, c: int, next: int)
    requires Choice(s, c, next)
    ensures Promised(s, next) <==> !Starved(s)
  {
    if next != 0 { assert Candidate(s, next); }
    if !Starved(s) && exists i :: Candidate(s, i) {
      var i :| Candidate(s, i) && s[i].t.counter >= 0;
      assert Eligible(s, i);
    }
  }

  // Every task that it sees has used up its slice.
  ghost predicate AllSpent(s: seq<Slot>) {
    (exists i :: Eligible(s, i)) && forall i :: Candidate(s, i) ==> s[i].t.counter <= 0
  }
  // ... and none will ever get another.
  ghost predicate Stuck(s: seq<Slot>) { AllSpent(s) && forall i :: Candidate(s, i) ==> s[i].t.priority == 0 }

  // sys_nice never takes a priority below zero.
  ghost predicate Sane(s: seq<Slot>) { forall i :: 0 <= i < |s| && s[i].Used? ==> s[i].t.priority >= 0 }

  lemma CheckSane(s: seq<Slot>, jiffies: int)
    requires Sane(s)
    ensures Sane(AllChecked(s, jiffies))
  {}

  // the highest priority each task has held
  type History = seq<int>
  function Max(a: int, b: int): int { if a < b then b else a }
  function Cap(m: int): int { if m <= 0 then 0 else 2 * m - 1 }

  ghost predicate Bounded(s: seq<Slot>, m: History) {
    |m| == |s| && forall i :: 0 <= i < |s| && s[i].Used? ==>
      0 <= s[i].t.priority <= m[i] && 0 <= s[i].t.counter <= Cap(m[i])
  }

  // Some task gets more than a long can hold.
  ghost predicate Overflows(s: seq<Slot>) {
    exists i :: 1 <= i < |s| && s[i].Used? && s[i].t.counter / 2 + s[i].t.priority >= 0x8000_0000
  }

  // A refill keeps the bound exactly if no counter wraps around,
  lemma RefillBounded(s: seq<Slot>, m: History)
    requires Bounded(s, m)
    ensures Bounded(AllRefilled(s), m) <==> !Overflows(s)
  {
    if Overflows(s) {
      var i :| 1 <= i < |s| && s[i].Used? && s[i].t.counter / 2 + s[i].t.priority >= 0x8000_0000;
      assert AllRefilled(s)[i].t.counter < 0;
    } else {
      forall i | 0 <= i < |s| && s[i].Used?
        ensures 0 <= AllRefilled(s)[i].t.priority <= m[i] && 0 <= AllRefilled(s)[i].t.counter <= Cap(m[i])
      {}
    }
  }

  // and none does while no task has held a priority above 2^30.
  lemma ModestFits(s: seq<Slot>, m: History)
    requires Bounded(s, m) && forall i :: 0 <= i < |m| ==> m[i] <= 0x4000_0000
    ensures !Overflows(s)
  {}

  lemma CheckBounded(s: seq<Slot>, m: History, jiffies: int)
    requires Bounded(s, m)
    ensures Bounded(AllChecked(s, jiffies), m)
  {}

  lemma ChoiceZero(s: seq<Slot>, c: int, next: int)
    requires Choice(s, c, next)
    ensures c == 0 <==> AllSpent(s)
  {
    if c == 0 { assert Eligible(s, next); }
    if AllSpent(s) { var i :| Eligible(s, i); }
  }

  lemma RefillCandidates(s: seq<Slot>)
    ensures forall i :: Candidate(AllRefilled(s), i) <==> Candidate(s, i)
    ensures forall i :: Candidate(s, i) ==>
      && AllRefilled(s)[i].t.priority == s[i].t.priority
      && AllRefilled(s)[i].t.counter == Wrapped(s[i].t.counter / 2 + s[i].t.priority)
  {}

  // The first runnable task that a refill can help; 0 if there is none.
  function Willing(s: seq<Slot>, i: nat): (k: int)
    requires 1 <= i
    ensures k == 0 || (i <= k && Candidate(s, k) && s[k].t.priority > 0)
    ensures k == 0 ==> forall j :: i <= j && Candidate(s, j) ==> s[j].t.priority <= 0
    decreases |s| - i
  { if i >= |s| then 0 else if Candidate(s, i) && s[i].t.priority > 0 then i else Willing(s, i + 1) }

  lemma {:induction false} WillingKept(s: seq<Slot>, i: nat)
    requires 1 <= i
    ensures Willing(AllRefilled(s), i) == Willing(s, i)
    decreases |s| - i
  {
    RefillCandidates(s);
    if i < |s| { WillingKept(s, i + 1); }
  }

  lemma WillingStuck(s: seq<Slot>)
    requires Sane(s) && AllSpent(s)
    ensures Stuck(s) <==> Willing(s, 1) == 0
  {}

  // how far that task is from a slice
  function Lag(s: seq<Slot>): nat {
    var k := Willing(s, 1);
    if k == 0 || s[k].t.counter > 0 then 0 else 1 - s[k].t.counter
  }

  // Every refill brings it nearer, and somebody the search sees stays in sight.
  lemma RefillHelps(s: seq<Slot>)
    requires Sane(s) && AllSpent(s)
    ensures Sane(AllRefilled(s)) && (exists i :: Eligible(AllRefilled(s), i))
    ensures Stuck(AllRefilled(s)) <==> Stuck(s)
    ensures !Stuck(s) ==> Lag(AllRefilled(s)) < Lag(s)
  {
    RefillCandidates(s);
    WillingKept(s, 1);
    assert Sane(AllRefilled(s));
    hide AllRefilled, Willing;
    var i :| Eligible(s, i);
    assert Eligible(AllRefilled(s), i);
    if Stuck(s) {
      forall j | Candidate(s, j) ensures AllRefilled(s)[j].t.counter <= 0 {}
    } else {
      WillingStuck(s);
    }
  }

  // What the loop of schedule leaves: refills until somebody has a slice.
  ghost function Settled(s: seq<Slot>): (s': seq<Slot>)
    requires Sane(s) && !Stuck(s)
    ensures |s'| == |s| && Sane(s') && !AllSpent(s') && (|s| > 0 ==> s'[0] == s[0])
    ensures AllSpent(s) ==> exists i :: Eligible(s', i)
    decreases Lag(s)
  { if AllSpent(s) then RefillHelps(s); Settled(AllRefilled(s)) else s }

  // One refill is enough if no counter is below zero.
  lemma OneRefill(s: seq<Slot>, m: History)
    requires Bounded(s, m) && Sane(s) && AllSpent(s) && !Stuck(s)
    ensures Settled(s) == AllRefilled(s)
  {
    RefillCandidates(s);
    RefillHelps(s);
    var i :| Candidate(s, i) && s[i].t.priority != 0;
    assert AllRefilled(s)[i].t.counter == s[i].t.priority;
  }

  function Refills(s: seq<Slot>, n: nat): seq<Slot> decreases n { if n == 0 then s else Refills(AllRefilled(s), n - 1) }

  // And then it never ends: no number of rounds gives any of them a slice.
  lemma {:induction false} NeverEnds(s: seq<Slot>, n: nat)
    requires Sane(s) && Stuck(s)
    ensures Stuck(Refills(s, n))
    decreases n
  {
    if n > 0 {
      RefillHelps(s);
      NeverEnds(AllRefilled(s), n - 1);
    }
  }

  // One tick less leaves nothing of the slice.
  predicate RunsOut(t: Task) { -0x8000_0000 < t.counter <= 1 }

  class Table {
    const task: array<Slot>
    var current: int

    ghost predicate Valid()
      reads this, task
    {
      task.Length == NR_TASKS && 0 <= current < NR_TASKS && task[current].Used? && Sane(task[..])
    }

    // sched_init: the idle task alone
    constructor (idle: Task)
      requires 0 <= idle.priority
      ensures Valid() && fresh(task) && current == 0 && task[0] == Used(idle)
      ensures forall i :: 1 <= i < NR_TASKS ==> task[i].Empty?
    {
      task := new Slot[NR_TASKS](i => if i == 0 then Used(idle) else Empty);
      current := 0;
    }

    method Check(jiffies: int)
      requires task.Length == NR_TASKS
      modifies task
      ensures task[..] == AllChecked(old(task[..]), jiffies)
    {
      var i := NR_TASKS - 1;
      while i > 0
        invariant 0 <= i < NR_TASKS
        invariant forall j :: 0 <= j < NR_TASKS ==>
          task[j] == if j > i then Checked(old(task[..])[j], jiffies) else old(task[..])[j]
      {
        if task[i].Used? {
          var t := task[i].t;
          if t.alarm != 0 && t.alarm < jiffies { t := t.(signal := t.signal + {SIGALRM}, alarm := 0); }
          if t.signal - (t.blocked - {SIGKILL, SIGSTOP}) != {}
            && t.state == INTERRUPTIBLE { t := t.(state := RUNNING); }
          task[i] := Used(t);
        }
        i := i - 1;
      }
    }

    method Pick() returns (c: int, next: int)
      requires task.Length == NR_TASKS
      ensures Choice(task[..], c, next)
    {
      c, next := -1, 0;
      var i := NR_TASKS - 1;
      ghost var s := task[..];
      while i > 0
        invariant 0 <= i < NR_TASKS
        invariant if next == 0 then c == -1 && forall j :: i < j ==> !Eligible(s, j)
                  else i < next < NR_TASKS && Eligible(s, next) && s[next].t.counter == c &&
                       forall j :: i < j && Eligible(s, j) ==> s[j].t.counter < c || (s[j].t.counter == c && j <= next)
      {
        if Runnable(task[i]) && task[i].t.counter > c { c, next := task[i].t.counter, i; }
        i := i - 1;
      }
    }

    method Refill()
      requires task.Length == NR_TASKS
      modifies task
      ensures task[..] == AllRefilled(old(task[..]))
    {
      var i := NR_TASKS - 1;
      while i > 0
        invariant 0 <= i < NR_TASKS
        invariant forall j :: 0 <= j < NR_TASKS ==>
          task[j] == if j > i then Refilled(old(task[..])[j]) else old(task[..])[j]
      {
        if task[i].Used? { task[i] := Used(task[i].t.(counter := Wrapped(task[i].t.counter / 2 + task[i].t.priority)));
          }
        i := i - 1;
      }
    }

    // schedule. hung stands for the loop that does not end (NeverEnds).
    method Schedule(jiffies: int) returns (next: int, hung: bool)
      requires Valid()
      modifies task
      ensures Sane(AllChecked(old(task[..]), jiffies)) && Sane(task[..]) && task[0] == old(task[0])
      ensures hung <==> Stuck(AllChecked(old(task[..]), jiffies))
      ensures !hung ==>
        && task[..] == Settled(AllChecked(old(task[..]), jiffies))
        && (exists c :: c != 0 && Choice(task[..], c, next))
        && (Promised(task[..], next) <==> !Starved(AllChecked(old(task[..]), jiffies)))
      ensures !hung ==> 0 <= next < NR_TASKS && (next != 0 ==> task[next].Used?)
    {
      hide Wrapped, Lag;
      CheckSane(task[..], jiffies);
      Check(jiffies);
      var c;
      ghost var s := task[..];
      c, next := Pick();
      ChoiceZero(s, c, next);
      while c == 0
        invariant Sane(task[..]) && task[0] == s[0] && Choice(task[..], c, next) && (c == 0 <==> AllSpent(task[..]))
        invariant (Stuck(task[..]) <==> Stuck(s)) && (!Stuck(s) ==> Settled(task[..]) == Settled(s))
        invariant AllSpent(s) || task[..] == s
        decreases Lag(task[..])
      {
        var k := Willing(task[..], 1);
        WillingStuck(task[..]);
        if k == 0 { return 0, true; }
        RefillHelps(task[..]);
        Refill();
        c, next := Pick();
        ChoiceZero(task[..], c, next);
      }
      ChoicePromised(task[..], c, next);
      return next, false;
    }

    // do_timer's use of the slice: the tick of a user task that has run out gives it a new one and calls schedule.
    method DoTimer(cpl: bool) returns (again: bool)
      requires Valid()
      modifies task
      ensures Valid() && (again <==> cpl && RunsOut(old(task[current]).t))
      ensures forall i :: 0 <= i < NR_TASKS && i != current ==> task[i] == old(task[i])
      ensures var t := old(task[current]).t;
        task[current] == Used(t.(counter :=
          if !RunsOut(t) then Wrapped(t.counter - 1) else if cpl then t.priority else 0))
    {
      var t := task[current].t;
      t := t.(counter := Wrapped(t.counter - 1));
      if t.counter > 0 {
        task[current] := Used(t);
        return false;
      }
      t := t.(counter := 0);
      if cpl { t := t.(counter := t.priority); }
      task[current] := Used(t);
      return cpl;
    }

    // sys_nice
    method Nice(increment: Long)
      requires Valid()
      modifies task
      ensures Valid() && (forall i :: 0 <= i < NR_TASKS && i != current ==> task[i] == old(task[i]))
      ensures var t := old(task[current]).t;
        task[current] == Used(
          if 0 <= t.priority - increment < 0x8000_0000 then t.(priority := t.priority - increment) else t)
    {
      var t := task[current].t;
      if Wrapped(t.priority - increment) >= 0 {
        task[current] := Used(t.(priority := Wrapped(t.priority - increment))); }
    }

    // The child starts with the parent's priority for a counter.
    method Fork(nr: int)
      requires Valid() && 1 <= nr < NR_TASKS && task[nr].Empty?
      modifies task
      ensures Valid() && (forall i :: 0 <= i < NR_TASKS && i != nr ==> task[i] == old(task[i]))
      ensures var t := old(task[current]).t;
        task[nr] == Used(t.(state := RUNNING, counter := t.priority, signal := {}, alarm := 0))
    {
      var t := task[current].t;
      task[nr] := Used(t.(state := RUNNING, counter := t.priority, signal := {}, alarm := 0));
    }
  }
}
