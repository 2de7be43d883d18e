// sleep_on and wake_up (kernel/sched.c): a wait queue is one pointer, and the rest of the queue hangs in the local
// variable tmp of each sleeper's own call of sleep_on.
module WaitQueues {
  // -1 is NULL. inside: between the call of schedule in sleep_on and the return from it. awake: state is TASK_RUNNING.
  datatype Task = Task(inside: bool, awake: bool, tmp: int)
  // since records at which step a task went to sleep; no step of the kernel looks at it.
  datatype Sys = Sys(head: seq<int>, task: seq<Task>, since: seq<int>, now: int)

  // Sleep is sleep_on up to schedule(), Resume what follows it, Wake is wake_up.
  datatype Op = Sleep(t: int, q: int) | Wake(q: int) | Resume(t: int)

  predicate Asleep(s: Sys, t: int) { 0 <= t < |s.task| && !s.task[t].awake }
  // in sleep_on and made runnable, but not yet back from schedule()
  predicate Woken(s: Sys, t: int) { 0 <= t < |s.task| && s.task[t].inside && s.task[t].awake }

  // A task calls sleep_on when it runs, and goes on from schedule() when it was made runnable.
  predicate Enabled(s: Sys, op: Op) {
    |s.since| == |s.task| &&
    match op
    case Sleep(t, q) => 0 <= t < |s.task| && 0 <= q < |s.head| && !s.task[t].inside && s.task[t].awake
    case Wake(q) => 0 <= q < |s.head|
    case Resume(t) => Woken(s, t)
  }

  function SetAwake(s: Sys, t: int): Sys {
    if 0 <= t < |s.task| then s.(task := s.task[t := s.task[t].(awake := true)]) else s
  }

  function Step(s: Sys, op: Op): Sys
    requires Enabled(s, op)
  {
    match op
    case Sleep(t, q) => Sys(s.head[q := t], s.task[t := Task(true, false, s.head[q])], s.since[t := s.now], s.now + 1)
    case Wake(q) => SetAwake(s, s.head[q]).(head := s.head[q := -1])
    case Resume(t) => SetAwake(s.(task := s.task[t := s.task[t].(inside := false)]), s.task[t].tmp)
  }

  // t is held by u: u's tmp names it.
  predicate Holds(s: Sys, u: int, t: int) { 0 <= u < |s.task| && s.task[u].inside && s.task[u].tmp == t }
  predicate Heads(s: Sys, q: int, t: int) { 0 <= q < |s.head| && s.head[q] == t }

  // Queue heads and saved pointers name sleeping tasks, never the same one twice, and every sleeping task is named.
  ghost predicate Inv(s: Sys) {
    && |s.since| == |s.task|
    && (forall t :: 0 <= t < |s.task| ==> s.since[t] < s.now && (s.task[t].inside || s.task[t].awake))
    && (forall q :: 0 <= q < |s.head| && s.head[q] != -1 ==> Asleep(s, s.head[q]))
    && (forall u :: 0 <= u < |s.task| && s.task[u].inside && s.task[u].tmp != -1 ==>
      Asleep(s, s.task[u].tmp) && s.since[s.task[u].tmp] < s.since[u])
    && (forall p, q, t :: Heads(s, p, t) && Heads(s, q, t) && t != -1 ==> p == q)
    && (forall u, v, t :: Holds(s, u, t) && Holds(s, v, t) && t != -1 ==> u == v)
    && (forall q, u, t :: Heads(s, q, t) && Holds(s, u, t) ==> t == -1)
    && (forall t :: Asleep(s, t) ==> (exists q :: Heads(s, q, t)) || (exists u :: Holds(s, u, t)))
  }

  function Initial(queues: nat, tasks: nat): Sys {
    Sys(seq(queues, _ => -1), seq(tasks, _ => Task(false, true, -1)), seq(tasks, _ => 0), 1)
  }

  lemma InitialInv(queues: nat, tasks: nat)
    ensures Inv(Initial(queues, tasks))
  {}

  lemma SleepInv(s: Sys, t: int, q: int)
    requires Inv(s) && Enabled(s, Sleep(t, q))
    ensures Inv(Step(s, Sleep(t, q)))
  {
    var s' := Step(s, Sleep(t, q));
    forall x | Asleep(s', x) ensures (exists p :: Heads(s', p, x)) || (exists u :: Holds(s', u, x)) {
      if x == t { assert Heads(s', q, t); }
      else {
        assert Asleep(s, x);
        if p :| Heads(s, p, x) {
          if p == q { assert Holds(s', t, x); } else { assert Heads(s', p, x); }
        } else {
          var u :| Holds(s, u, x);
          assert Holds(s', u, x);
        }
      }
    }
    assert forall u, x :: u != t && Holds(s', u, x) ==> Holds(s, u, x);
    assert forall p, x :: p != q && Heads(s', p, x) ==> Heads(s, p, x);
    assert Heads(s, q, s.head[q]);
  }

  // w is made runnable and the only pointer to it is gone.
  ghost predicate Released(s: Sys, s': Sys, w: int) {
    && |s'.task| == |s.task| && |s'.head| == |s.head| && s'.since == s.since && s'.now == s.now
    && (forall t :: 0 <= t < |s.task| ==> s'.task[t].tmp == s.task[t].tmp && (s'.task[t].inside || s'.task[t].awake))
    && (forall t :: Asleep(s', t) <==> Asleep(s, t) && t != w)
    && (forall q, t :: Heads(s', q, t) && t != -1 <==> Heads(s, q, t) && t != -1 && t != w)
    && (forall u, t :: Holds(s', u, t) && t != -1 <==> Holds(s, u, t) && t != -1 && t != w)
  }

  lemma ReleasedInv(s: Sys, s': Sys, w: int)
    requires Inv(s) && Released(s, s', w)
    ensures Inv(s')
  {
    forall x | Asleep(s', x) ensures (exists p :: Heads(s', p, x)) || (exists u :: Holds(s', u, x)) {
      if p :| Heads(s, p, x) { assert Heads(s', p, x); }
      else {
        var u :| Holds(s, u, x);
        assert Holds(s', u, x);
      }
    }
    forall q | 0 <= q < |s'.head| && s'.head[q] != -1 ensures Asleep(s', s'.head[q]) {
      assert Heads(s', q, s'.head[q]);
      assert Heads(s, q, s'.head[q]);
    }
    forall u | 0 <= u < |s'.task| && s'.task[u].inside && s'.task[u].tmp != -1
      ensures Asleep(s', s'.task[u].tmp) && s'.since[s'.task[u].tmp] < s'.since[u]
    {
      assert Holds(s', u, s'.task[u].tmp);
      assert Holds(s, u, s'.task[u].tmp);
    }
  }

  lemma WakeReleases(s: Sys, q: int)
    requires Inv(s) && Enabled(s, Wake(q))
    ensures Released(s, Step(s, Wake(q)), s.head[q])
  {
    var s', w := Step(s, Wake(q)), s.head[q];
    assert Heads(s, q, w);
    forall p, t | t != -1 ensures Heads(s', p, t) <==> Heads(s, p, t) && p != q {}
    forall p, t | Heads(s, p, t) && t != -1 ensures t == w <==> p == q {}
    forall u, t ensures Holds(s', u, t) <==> Holds(s, u, t) {}
    forall u, t | Holds(s, u, t) && t != -1 ensures t != w { assert Heads(s, q, w); }
  }

  lemma ResumeReleases(s: Sys, t: int)
    requires Inv(s) && Enabled(s, Resume(t))
    ensures Released(s, Step(s, Resume(t)), s.task[t].tmp)
  {
    var s', w := Step(s, Resume(t)), s.task[t].tmp;
    assert Holds(s, t, w);
    forall u, x ensures Holds(s', u, x) <==> Holds(s, u, x) && u != t {}
    forall u, x | Holds(s, u, x) && x != -1 ensures x == w <==> u == t {}
    forall p, x ensures Heads(s', p, x) <==> Heads(s, p, x) {}
  }

  lemma StepInv(s: Sys, op: Op)
    requires Inv(s) && Enabled(s, op)
    ensures Inv(Step(s, op))
  {
    match op
    case Sleep(t, q) => SleepInv(s, t, q);
    case Wake(q) =>
      WakeReleases(s, q);
      hide *;
      ReleasedInv(s, Step(s, op), s.head[q]);
    case Resume(t) =>
      ResumeReleases(s, t);
      hide *;
      ReleasedInv(s, Step(s, op), s.task[t].tmp);
  }

  // ---- every run
  ghost predicate Possible(s: Sys, ops: seq<Op>)
    decreases ops
  { ops == [] || (Enabled(s, ops[0]) && Possible(Step(s, ops[0]), ops[1..])) }

  ghost function Run(s: Sys, ops: seq<Op>): Sys
    requires Possible(s, ops)
    decreases ops
  { if ops == [] then s else Run(Step(s, ops[0]), ops[1..]) }

  lemma {:induction false} RunInv(s: Sys, ops: seq<Op>)
    requires Inv(s) && Possible(s, ops)
    ensures Inv(Run(s, ops))
    decreases ops
  {
    if ops != [] {
      StepInv(s, ops[0]);
      RunInv(Step(s, ops[0]), ops[1..]);
    }
  }

  // The task whose state a step sets to TASK_RUNNING, or -1.
  function Target(s: Sys, op: Op): int
    requires Enabled(s, op)
  {
    match op
    case Sleep(_, _) => -1
    case Wake(q) => s.head[q]
    case Resume(t) => s.task[t].tmp
  }

  // Only sleeping tasks are woken: no step touches the state of a task that has left its sleep_on.
  lemma TargetAsleep(s: Sys, op: Op)
    requires Inv(s) && Enabled(s, op) && Target(s, op) != -1
    ensures Asleep(s, Target(s, op)) && Woken(Step(s, op), Target(s, op))
  {}
  function B(b: bool): int { if b then 1 else 0 }

  ghost function Sleeps(s: Sys, ops: seq<Op>, t: int): int
    requires Possible(s, ops)
    decreases ops
  { if ops == [] then 0 else B(ops[0].Sleep? && ops[0].t == t) + Sleeps(Step(s, ops[0]), ops[1..], t) }

  ghost function Wakes(s: Sys, ops: seq<Op>, t: int): int
    requires Possible(s, ops)
    decreases ops
  { if ops == [] then 0 else B(Target(s, ops[0]) == t) + Wakes(Step(s, ops[0]), ops[1..], t) }

  ghost function Resumes(s: Sys, ops: seq<Op>, t: int): int
    requires Possible(s, ops)
    decreases ops
  { if ops == [] then 0 else B(ops[0].Resume? && ops[0].t == t) + Resumes(Step(s, ops[0]), ops[1..], t) }

  lemma StepWakes(s: Sys, op: Op, t: int)
    requires Inv(s) && Enabled(s, op) && 0 <= t < |s.task|
    ensures |Step(s, op).task| == |s.task|
    ensures B(Asleep(Step(s, op), t)) == B(Asleep(s, t)) + B(op.Sleep? && op.t == t) - B(Target(s, op) == t)
    ensures B(Step(s, op).task[t].inside) == B(s.task[t].inside)
      + B(op.Sleep? && op.t == t) - B(op.Resume? && op.t == t)
  {}

  // A task is woken once for each time it goes to sleep, except for a sleep that still lasts.
  lemma {:induction false} OnceEach(s: Sys, ops: seq<Op>, t: int)
    requires Inv(s) && Possible(s, ops) && 0 <= t < |s.task|
    ensures |Run(s, ops).task| == |s.task|
    ensures Wakes(s, ops, t) + B(Asleep(Run(s, ops), t)) == Sleeps(s, ops, t) + B(Asleep(s, t))
    ensures Resumes(s, ops, t) + B(Run(s, ops).task[t].inside) == Sleeps(s, ops, t) + B(s.task[t].inside)
    decreases ops
  {
    if ops != [] {
      StepInv(s, ops[0]);
      StepWakes(s, ops[0], t);
      hide Inv, Step;
      OnceEach(Step(s, ops[0]), ops[1..], t);
    }
  }

  // ---- chains
  datatype Root = Queue(q: int) | Behind(u: int)
  ghost predicate IsRoot(s: Sys, r: Root, t: int) {
    match r case Queue(q) => Heads(s, q, t) case Behind(u) => Holds(s, u, t)
  }

  // What points to a sleeping task.
  ghost function Above(s: Sys, t: int): (r: Root)
    requires Inv(s) && Asleep(s, t)
    ensures IsRoot(s, r, t)
  {
    if q :| Heads(s, q, t) then Queue(q) else
      var u :| Holds(s, u, t); Behind(u)
  }

  lemma AboveIs(s: Sys, t: int, r: Root)
    requires Inv(s) && Asleep(s, t) && IsRoot(s, r, t)
    ensures Above(s, t) == r
  {}
  ghost predicate Chained(s: Sys, t: int) { Inv(s) && Asleep(s, t) }

  // Where the chain that t is on begins: at a queue, or at a task that was woken and has not resumed.
  ghost function RootOf(s: Sys, t: int): (r: Root)
    requires Chained(s, t)
    ensures r.Behind? ==> Woken(s, r.u)
    decreases s.now - s.since[t]
  {
    var r := Above(s, t);
    if r.Queue? || s.task[r.u].awake then r else
      assert Holds(s, r.u, t);
      RootOf(s, r.u)
  }

  // How many tasks come before t on its chain.
  ghost function Before(s: Sys, t: int): (n: nat)
    requires Chained(s, t)
    ensures RootOf(s, t).Behind? ==> n > 0
    decreases s.now - s.since[t]
  {
    var r := Above(s, t);
    if r.Queue? then 0 else if s.task[r.u].awake then 1 else
      assert Holds(s, r.u, t);
      1 + Before(s, r.u)
  }

  lemma {:induction false} SleepChain(s: Sys, t: int, q: int, x: int)
    requires Chained(s, x) && Enabled(s, Sleep(t, q)) && Chained(Step(s, Sleep(t, q)), x)
    ensures RootOf(Step(s, Sleep(t, q)), x) == RootOf(s, x)
    ensures Before(Step(s, Sleep(t, q)), x) == Before(s, x) + B(RootOf(s, x) == Queue(q))
    decreases s.now - s.since[x]
  {
    var s', r := Step(s, Sleep(t, q)), Above(s, x);
    match r
    case Queue(p) =>
      if p == q {
        AboveIs(s', x, Behind(t));
        AboveIs(s', t, Queue(q));
      } else { AboveIs(s', x, r); }
    case Behind(u) =>
      AboveIs(s', x, r);
      if !s.task[u].awake { SleepChain(s, t, q, u); }
  }

  // w, which r0 pointed to, is released: what hung below it now begins at w itself.
  lemma {:induction false} ReleasedChain(s: Sys, s': Sys, w: int, r0: Root, x: int)
    requires Chained(s, x) && Released(s, s', w) && x != w && Chained(s', x)
    requires w != -1 ==> Chained(s, w) && Above(s, w) == r0 && (r0.Behind? ==> s.task[r0.u].awake)
    ensures if w != -1 && RootOf(s, x) == r0
      then RootOf(s', x) == Behind(w) && Before(s', x) == Before(s, x) - B(r0.Behind?)
            else RootOf(s', x) == RootOf(s, x) && Before(s', x) == Before(s, x)
    decreases s.now - s.since[x]
  {
    var r := Above(s, x);
    AboveIs(s', x, r);
    hide Released, Above;
    if r.Behind? {
      var u := r.u;
      assert IsRoot(s, r, x) && Holds(s, u, x);
      ReleasedAwake(s, s', w, u, x);
      if u != w && !s.task[u].awake { ReleasedChain(s, s', w, r0, u); }
    }
  }

  lemma ReleasedAwake(s: Sys, s': Sys, w: int, u: int, x: int)
    requires Released(s, s', w) && Holds(s, u, x) && x != -1 && x != w
    ensures Holds(s', u, x) && s'.task[u].awake == (s.task[u].awake || u == w)
  { assert Asleep(s', u) <==> Asleep(s, u) && u != w; }

  // What one step does to the chain of a task that sleeps through it.
  ghost predicate Moved(s: Sys, op: Op, x: int)
    requires Chained(s, x) && Enabled(s, op) && Chained(Step(s, op), x)
  {
    var s', r := Step(s, op), RootOf(s, x);
    if r.Queue? && op == Wake(r.q) then RootOf(s', x) == Behind(s.head[op.q]) && Before(s', x) == Before(s, x)
    else if r.Behind? && op == Resume(r.u)
      then RootOf(s', x) == Behind(s.task[r.u].tmp) && Before(s', x) == Before(s, x) - 1
    else RootOf(s', x) == r && Before(s', x) == Before(s, x) + B(r.Queue? && op.Sleep? && op.q == r.q)
  }

  lemma StepMoves(s: Sys, op: Op, x: int)
    requires Chained(s, x) && Enabled(s, op) && Chained(Step(s, op), x)
    ensures Moved(s, op, x)
  {
    match op
    case Sleep(t, q) => SleepChain(s, t, q, x);
    case Wake(q) =>
      var w := s.head[q];
      WakeReleases(s, q);
      if w != -1 { AboveIs(s, w, Queue(q)); }
      EmptyRoot(s, x);
      ReleasedChain(s, Step(s, op), w, Queue(q), x);
    case Resume(t) =>
      var w := s.task[t].tmp;
      ResumeReleases(s, t);
      if w != -1 { AboveIs(s, w, Behind(t)); }
      EmptyRoot(s, x);
      ReleasedChain(s, Step(s, op), w, Behind(t), x);
  }

  // The root of a chain does point to something.
  lemma {:induction false} EmptyRoot(s: Sys, x: int)
    requires Chained(s, x)
    ensures match RootOf(s, x)
            case Queue(q) => 0 <= q < |s.head| && s.head[q] != -1
            case Behind(u) => s.task[u].tmp != -1
    decreases s.now - s.since[x]
  {
    var r := Above(s, x);
    assert IsRoot(s, r, x);
    if r.Behind? && !s.task[r.u].awake { EmptyRoot(s, r.u); }
  }

  ghost predicate Throughout(s: Sys, ops: seq<Op>, t: int)
    requires Possible(s, ops)
    decreases ops
  { Asleep(s, t) && (ops != [] ==> Throughout(Step(s, ops[0]), ops[1..], t)) }

  // How often in the run the task resumes that t's chain begins at.
  ghost function RootResumes(s: Sys, ops: seq<Op>, t: int): nat
    requires Possible(s, ops) && Inv(s) && Throughout(s, ops, t)
    decreases ops
  {
    if ops == [] then 0 else
      StepInv(s, ops[0]);
      var r := RootOf(s, t);
      B(r.Behind? && ops[0] == Resume(r.u)) + RootResumes(Step(s, ops[0]), ops[1..], t)
  }

  // Once its chain begins at a task that can run, a sleeper's chain keeps doing so, and each time that task resumes
  // there is one fewer before the sleeper: it cannot sleep through as many of these as there were tasks before it.
  lemma {:induction false} ChainAdvances(s: Sys, ops: seq<Op>, t: int)
    requires Inv(s) && Possible(s, ops) && Throughout(s, ops, t) && RootOf(s, t).Behind?
    ensures Chained(Run(s, ops), t) && RootOf(Run(s, ops), t).Behind?
    ensures Before(s, t) == Before(Run(s, ops), t) + RootResumes(s, ops, t) > RootResumes(s, ops, t)
    decreases ops
  {
    RunInv(s, ops);
    if ops != [] {
      StepInv(s, ops[0]);
      StepMoves(s, ops[0], t);
      hide Inv, Step, RootOf, Before, Asleep;
      ChainAdvances(Step(s, ops[0]), ops[1..], t);
    }
  }

  // No wakeup is lost: a task that sleeps on a queue stays on the chain of that queue, whatever else happens, until
  // wake_up is called on it, and from then on its chain begins at a task that can run.
  lemma {:induction false} NoLostWakeup(s: Sys, ops: seq<Op>, t: int)
    requires Inv(s) && Possible(s, ops) && Throughout(s, ops, t) && RootOf(s, t).Queue?
    ensures Chained(Run(s, ops), t)
    ensures Wake(RootOf(s, t).q) !in ops ==> RootOf(Run(s, ops), t) == RootOf(s, t)
    ensures Wake(RootOf(s, t).q) in ops ==> RootOf(Run(s, ops), t).Behind?
    decreases ops
  {
    RunInv(s, ops);
    if ops != [] {
      var s' := Step(s, ops[0]);
      StepInv(s, ops[0]);
      StepMoves(s, ops[0], t);
      hide Inv, Step, RootOf, Before, Asleep;
      if RootOf(s', t).Behind? { ChainAdvances(s', ops[1..], t); } else { NoLostWakeup(s', ops[1..], t); }
      assert ops == [ops[0]] + ops[1..];
    }
  }

  // The steps that bring a woken chain to t: each task before it resumes once, in the order of the chain.
  ghost function Drain(s: Sys, t: int): (ops: seq<Op>)
    requires Chained(s, t) && RootOf(s, t).Behind?
    ensures Possible(s, ops) && |ops| == Before(s, t) && Woken(Run(s, ops), t)
    decreases Before(s, t)
  {
    var op := Resume(RootOf(s, t).u);
    var s' := Step(s, op);
    StepInv(s, op);
    if Asleep(s', t) then
      StepMoves(s, op, t);
      [op] + Drain(s', t)
    else
      LastResume(s, t);
      [op]
  }

  lemma LastResume(s: Sys, t: int)
    requires Chained(s, t) && RootOf(s, t).Behind? && !Asleep(Step(s, Resume(RootOf(s, t).u)), t)
    ensures Before(s, t) == 1 && Woken(Step(s, Resume(RootOf(s, t).u)), t)
  {
    var u := RootOf(s, t).u;
    EmptyRoot(s, t);
    assert Target(s, Resume(u)) == t;
    AboveIs(s, t, Behind(u));
  }

  // The kernel's own variables: the queue heads, the task states, and what each task in sleep_on has saved.
  class Queues {
    const head: array<int>
    const task: array<Task>
    ghost var since: seq<int>
    ghost var now: int

    ghost predicate Apart() reads this { head as object != task && |since| == task.Length }
    ghost function St(): Sys reads this, head, task { Sys(head[..], task[..], since, now) }

    constructor (queues: nat, tasks: nat)
      ensures Apart() && fresh(head) && fresh(task) && St() == Initial(queues, tasks)
    {
      head := new int[queues](_ => -1);
      task := new Task[tasks](_ => Task(false, true, -1));
      since, now := seq(tasks, _ => 0), 1;
      new;
      assert head[..] == Initial(queues, tasks).head && task[..] == Initial(queues, tasks).task;
    }

    // sleep_on up to the call of schedule
    method SleepOn(t: int, q: int)
      requires Apart() && Enabled(St(), Sleep(t, q))
      modifies this`since, this`now, head, task
      ensures Apart() && St() == Step(old(St()), Sleep(t, q))
    {
      var tmp := head[q];
      head[q] := t;
      task[t] := Task(true, false, tmp);
      since, now := since[t := now], now + 1;
    }

    // sleep_on after schedule has returned
    method Continue(t: int)
      requires Apart() && Inv(St()) && Enabled(St(), Resume(t))
      modifies task
      ensures Apart() && St() == Step(old(St()), Resume(t))
    {
      var tmp := task[t].tmp;
      assert Asleep(St(), tmp) || tmp == -1;
      task[t] := task[t].(inside := false);
      if tmp != -1 { task[tmp] := task[tmp].(awake := true); }
    }

    method WakeUp(q: int)
      requires Apart() && Inv(St()) && Enabled(St(), Wake(q))
      modifies head, task
      ensures Apart() && St() == Step(old(St()), Wake(q))
    {
      var t := head[q];
      assert Asleep(St(), t) || t == -1;
      if t != -1 {
        task[t] := task[t].(awake := true);
        head[q] := -1;
      }
    }
  }
}
