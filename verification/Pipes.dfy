// Pipes (fs/pipe.c, the PIPE_ macros of include/linux/fs.h): a page used as a ring by tasks that switch only in
// sleep_on.
module Pipes {
  import opened Bytes
  import opened RingQueues

  datatype Status = Finished | Blocked | Broken

  class Pipe {
    // the page, PIPE_HEAD and PIPE_TAIL
    const ring: Queue
    // i_count of the pipe's inode: 2 while both ends are open
    var users: int

    ghost predicate Valid() reads this, ring { ring as object != this && ring.Valid() && ring.buf.Length == PAGE }

    ghost function Contents(): (s: seq<Byte>)
      requires Valid()
      reads this, ring, ring.buf
      ensures |s| < PAGE
    { ring.Contents() }

    constructor ()
      ensures Valid() && fresh(ring) && fresh(ring.buf) && Contents() == [] && users == 2
    {
      ring := new Queue(PAGE);
      users := 2;
    }

    // read_pipe from one sleep to the next: it takes what there is, up to count bytes.
    method Read(count: int) returns (data: seq<Byte>, status: Status)
      requires Valid()
      modifies ring
      ensures Valid() && old(Contents()) == data + Contents()
      ensures status.Finished? ==> |data| == Wanted(count)
      ensures !status.Finished? ==> |data| < count && Contents() == [] && status == Ending(users)
    {
      var left := count;
      data := [];
      while left > 0
        invariant Valid() && old(Contents()) == data + Contents() && |data| == Wanted(count) - Wanted(left)
        invariant left <= count
      {
        var size := ring.Chars();
        if size == 0 { return data, Ending(users); }
        var got := Grab(left);
        left := left - |got|;
        data := data + got;
      }
      return data, Finished;
    }

    method Grab(left: int) returns (got: seq<Byte>)
      requires Valid() && left > 0 && ring.Chars() > 0
      modifies ring
      ensures Valid() && 0 < |got| <= left && old(Contents()) == got + Contents()
    {
      var chars := PAGE - ring.tail;
      if chars > left { chars := left; }
      if chars > ring.Chars() { chars := ring.Chars(); }
      got := ring.Take(chars);
    }

    // write_pipe from one sleep to the next: it puts what fits. Broken is the error of a pipe nobody reads.
    method Write(buf: seq<Byte>) returns (n: int, status: Status)
      requires Valid()
      modifies ring, ring.buf
      ensures Valid() && 0 <= n <= |buf| && Contents() == old(Contents()) + buf[..n]
      ensures status.Finished? <==> n == |buf|
      ensures !status.Finished? ==> |Contents()| == PAGE - 1 && status == Ending(users)
    {
      n := 0;
      ghost var before := Contents();
      while n < |buf|
        invariant Valid() && 0 <= n <= |buf| && Contents() == before + buf[..n]
      {
        if PAGE - 1 - ring.Chars() == 0 { return n, Ending(users); }
        var chars := Stuff(buf[n..]);
        assert buf[..n + chars] == buf[..n] + buf[n..][..chars];
        n := n + chars;
      }
      return n, Finished;
    }

    method Stuff(rest: seq<Byte>) returns (chars: int)
      requires Valid() && |rest| > 0 && ring.Chars() < PAGE - 1
      modifies ring, ring.buf
      ensures Valid() && 0 < chars <= |rest| && Contents() == old(Contents()) + rest[..chars]
    {
      chars := PAGE - ring.head;
      if chars > |rest| { chars := |rest|; }
      if chars > PAGE - 1 - ring.Chars() { chars := PAGE - 1 - ring.Chars(); }
      ring.Put(rest[..chars]);
    }
  }

  function Wanted(count: int): nat { if count > 0 then count else 0 }

  // ---- every interleaving
  // A turn of a reader or a writer runs until it sleeps or returns. A task that slept comes back with what is left of
  // its call.
  datatype Op = ReadUpTo(count: int) | WriteAll(buf: seq<Byte>) | Close
  datatype Out = Data(data: seq<Byte>, end: Status) | Count(n: int, how: Status) | Closed
  datatype Fifo = Fifo(queue: seq<Byte>, users: int)

  function Ending(users: int): Status { if users == 2 then Blocked else Broken }

  // A queue of at most 4095 bytes.
  function RefStep(f: Fifo, op: Op): (Fifo, Out)
    requires |f.queue| < PAGE
  {
    match op
    case ReadUpTo(count) =>
      if Wanted(count) <= |f.queue| then (f.(queue := f.queue[Wanted(count)..]),
        Data(f.queue[..Wanted(count)], Finished))
      else (f.(queue := []), Data(f.queue, Ending(f.users)))
    case WriteAll(buf) =>
      var room := PAGE - 1 - |f.queue|;
      if |buf| <= room then (f.(queue := f.queue + buf), Count(|buf|, Finished))
      else (f.(queue := f.queue + buf[..room]), Count(room, Ending(f.users)))
    case Close => (f.(users := f.users - 1), Closed)
  }

  function RefRun(f: Fifo, ops: seq<Op>): (r: (Fifo, seq<Out>))
    requires |f.queue| < PAGE
    ensures |r.0.queue| < PAGE && |r.1| == |ops|
    decreases ops
  {
    if ops == [] then (f, []) else
      var s := RefStep(f, ops[0]);
      var t := RefRun(s.0, ops[1..]);
      (t.0, [s.1] + t.1)
  }

  method Step(pipe: Pipe, op: Op) returns (out: Out)
    requires pipe.Valid()
    modifies pipe, pipe.ring, pipe.ring.buf
    ensures pipe.Valid()
    ensures (Fifo(pipe.Contents(), pipe.users), out) == RefStep(Fifo(old(pipe.Contents()), old(pipe.users)), op)
  {
    ghost var s := pipe.Contents();
    match op {
      case ReadUpTo(count) =>
        var data, status := pipe.Read(count);
        assert status.Finished? ==> data == s[..Wanted(count)] && pipe.Contents() == s[Wanted(count)..];
        assert !status.Finished? ==> data == s;
        out := Data(data, status);
      case WriteAll(buf) =>
        var n, status := pipe.Write(buf);
        assert status.Finished? ==> buf[..n] == buf;
        out := Count(n, status);
      case Close =>
        pipe.users := pipe.users - 1;
        out := Closed;
    }
  }

  // Whatever the order of the turns, the pipe is a queue.
  method Run(pipe: Pipe, ops: seq<Op>) returns (outs: seq<Out>)
    requires pipe.Valid()
    modifies pipe, pipe.ring, pipe.ring.buf
    ensures pipe.Valid()
    ensures (Fifo(pipe.Contents(), pipe.users), outs) == RefRun(Fifo(old(pipe.Contents()), old(pipe.users)), ops)
    decreases ops
  {
    if ops == [] { return []; }
    var out := Step(pipe, ops[0]);
    outs := Run(pipe, ops[1..]);
    outs := [out] + outs;
  }

  method Boot(ops: seq<Op>) returns (outs: seq<Out>)
    ensures outs == RefRun(Fifo([], 2), ops).1
  {
    var pipe := new Pipe();
    outs := Run(pipe, ops);
  }

  // the bytes a turn put into the pipe, and the bytes it got out of it
  function PutBy(op: Op, out: Out): seq<Byte> {
    if op.WriteAll? && out.Count? && 0 <= out.n <= |op.buf| then op.buf[..out.n] else []
  }
  function GotBy(out: Out): seq<Byte> { if out.Data? then out.data else [] }

  function Accepted(ops: seq<Op>, outs: seq<Out>): seq<Byte>
    requires |outs| == |ops|
    decreases ops
  { if ops == [] then [] else PutBy(ops[0], outs[0]) + Accepted(ops[1..], outs[1..]) }
  function Delivered(outs: seq<Out>): seq<Byte> { if outs == [] then [] else GotBy(outs[0]) + Delivered(outs[1..]) }

  lemma StepInOrder(f: Fifo, op: Op)
    requires |f.queue| < PAGE
    ensures f.queue + PutBy(op, RefStep(f, op).1) == GotBy(RefStep(f, op).1) + RefStep(f, op).0.queue
  {}

  lemma Assoc(a: seq<Byte>, b: seq<Byte>, c: seq<Byte>)
    ensures a + (b + c) == (a + b) + c
  {}

  // Nothing is lost, doubled or reordered: what was accepted is what was delivered, then what the page still holds.
  lemma {:induction false} InOrder(f: Fifo, ops: seq<Op>)
    requires |f.queue| < PAGE
    ensures f.queue + Accepted(ops, RefRun(f, ops).1) == Delivered(RefRun(f, ops).1) + RefRun(f, ops).0.queue
    decreases ops
  {
    if ops != [] {
      var s := RefStep(f, ops[0]);
      var t := RefRun(s.0, ops[1..]);
      StepInOrder(f, ops[0]);
      InOrder(s.0, ops[1..]);
      assert RefRun(f, ops) == (t.0, [s.1] + t.1);
      hide RefStep, PutBy, GotBy, RefRun;
      var put, got, rest := PutBy(ops[0], s.1), GotBy(s.1), Accepted(ops[1..], t.1);
      assert ([s.1] + t.1)[1..] == t.1;
      assert Accepted(ops, [s.1] + t.1) == put + rest && Delivered([s.1] + t.1) == got + Delivered(t.1);
      hide Accepted, Delivered;
      Assoc(f.queue, put, rest);
      Assoc(got, s.0.queue, rest);
      Assoc(got, Delivered(t.1), t.0.queue);
    }
  }
}
