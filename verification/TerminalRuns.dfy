// Every run of a terminal in canonical mode against sequences of bytes, and what becomes of readers that wait
// (kernel/chr_drv/tty_io.c).
module TerminalRuns {
  import opened Bytes
  import opened Options
  import opened LineDiscipline
  import opened Terminals

  // ReadUpTo is a new call of tty_read. Again is a turn of a reader that waits, with what the console has for it.
  datatype Op = Input(bytes: seq<Byte>) | ReadUpTo(nr: nat) | Again(nr: nat, bytes: seq<Byte>)
  datatype Out = Data(bytes: seq<Byte>) | Wait | Done
  datatype Ref = Ref(tty: Tty, raw: seq<Byte>)

  function RefStep(s: Settings, r: Ref, op: Op): (Ref, Out) {
    match op
    case Input(bytes) =>
      var a := Arrive(s, r.tty, r.raw, bytes);
      (Ref(a.0, a.1), Done)
    case ReadUpTo(nr) =>
      if nr > 0 && Waits(r.tty) then (r, Wait)
      else
        var d := Deliver(s, r.tty, nr);
        (r.(tty := d.0), Data(d.1))
    case Again(nr, bytes) =>
      var a := Arrive(s, r.tty, r.raw, bytes);
      if nr == 0 || !HasLine(a.0) then (Ref(a.0, a.1), Wait)
      else
        var d := Deliver(s, a.0, nr);
        (Ref(d.0, a.1), Data(d.1))
  }

  function RefRun(s: Settings, r: Ref, ops: seq<Op>): (res: (Ref, seq<Out>))
    ensures |res.1| == |ops|
    decreases ops
  {
    if ops == [] then (r, []) else
      var a := RefStep(s, r, ops[0]);
      var b := RefRun(s, a.0, ops[1..]);
      (b.0, [a.1] + b.1)
  }

  method Step(tty: Terminal, op: Op) returns (out: Out)
    requires tty.Valid() && (tty.settings.canon || op.Input?)
    modifies tty, tty.raw, tty.raw.buf, tty.echo, tty.echo.buf, tty.cooked, tty.cooked.buf
    ensures tty.Valid()
    ensures (Ref(tty.St(), tty.raw.Contents()), out)
      == RefStep(tty.settings, Ref(old(tty.St()), old(tty.raw.Contents())), op)
  {
    match op {
      case Input(bytes) =>
        tty.Poll(bytes);
        out := Done;
      case ReadUpTo(nr) =>
        var data, waits := tty.Read(nr);
        out := if waits then Wait else Data(data);
      case Again(nr, bytes) =>
        if nr == 0 {
          tty.Poll(bytes);
          return Wait;
        }
        var data, waits := tty.Turn(nr, bytes);
        out := if waits then Wait else Data(data);
    }
  }

  // The rings never overflow and never show: input, rubbing out and reading are those of the sequences.
  method Run(tty: Terminal, ops: seq<Op>) returns (outs: seq<Out>)
    requires tty.Valid() && (tty.settings.canon || forall i :: 0 <= i < |ops| ==> ops[i].Input?)
    modifies tty, tty.raw, tty.raw.buf, tty.echo, tty.echo.buf, tty.cooked, tty.cooked.buf
    ensures tty.Valid()
    ensures (Ref(tty.St(), tty.raw.Contents()), outs)
      == RefRun(tty.settings, Ref(old(tty.St()), old(tty.raw.Contents())), ops)
    decreases ops
  {
    if ops == [] { return []; }
    hide RefStep;
    var out := Step(tty, ops[0]);
    outs := Run(tty, ops[1..]);
    outs := [out] + outs;
  }

  method Boot(s: Settings, ops: seq<Op>) returns (outs: seq<Out>, echoed: seq<Byte>)
    requires s.canon || forall i :: 0 <= i < |ops| ==> ops[i].Input?
    ensures outs == RefRun(s, Ref(Tty([], 0, false, [], []), []), ops).1
    ensures echoed == RefRun(s, Ref(Tty([], 0, false, [], []), []), ops).0.tty.out
  {
    var tty := new Terminal(s);
    outs := Run(tty, ops);
    echoed := tty.out;
  }

  // In every run the data field counts the complete lines in the queue, if the end-of-file character is below 128.
  lemma {:induction false} LinesCounted(s: Settings, r: Ref, ops: seq<Op>)
    requires s.eof < 128 && r.tty.lines == Ready(s, r.tty.cooked) && |r.tty.cooked| <= ROOM
    ensures RefRun(s, r, ops).0.tty.lines == Ready(s, RefRun(s, r, ops).0.tty.cooked)
    ensures |RefRun(s, r, ops).0.tty.cooked| <= ROOM
    decreases ops
  {
    if ops != [] {
      StepCounted(s, r, ops[0]);
      hide RefStep;
      LinesCounted(s, RefStep(s, r, ops[0]).0, ops[1..]);
    }
  }

  lemma StepCounted(s: Settings, r: Ref, op: Op)
    requires s.eof < 128 && r.tty.lines == Ready(s, r.tty.cooked) && |r.tty.cooked| <= ROOM
    ensures RefStep(s, r, op).0.tty.lines == Ready(s, RefStep(s, r, op).0.tty.cooked)
    ensures |RefStep(s, r, op).0.tty.cooked| <= ROOM
  {
    match op
    case Input(bytes) => CookReady(s, r.tty, r.raw + Admit(|r.raw|, bytes));
    case ReadUpTo(nr) =>
      ReadyAtMost(s, r.tty.cooked);
      DeliverReady(s, r.tty, nr);
      DeliverShorter(s, r.tty, nr);
    case Again(nr, bytes) =>
      CookReady(s, r.tty, r.raw + Admit(|r.raw|, bytes));
      var t := Arrive(s, r.tty, r.raw, bytes).0;
      ReadyAtMost(s, t.cooked);
      DeliverReady(s, t, nr);
      DeliverShorter(s, t, nr);
  }

  lemma {:induction false} DeliverShorter(s: Settings, t: Tty, nr: nat)
    ensures |Deliver(s, t, nr).0.cooked| <= |t.cooked|
    decreases |t.cooked|
  { if nr > 0 && t.cooked != [] { DeliverShorter(s, PopOne(s, t), nr - 1); } }

  // ---- readers that wait
  // Typing stops at a full queue, whatever is typed.
  lemma {:induction false} CookConcat(s: Settings, t: Tty, raw: seq<Byte>, more: seq<Byte>)
    ensures var c := Cook(s, t, raw);
      Cook(s, t, raw + more) == if |c.0.cooked| >= ROOM then (c.0, c.1 + more) else Cook(s, c.0, more)
    decreases raw
  {
    hide Type;
    if raw == [] {
      assert raw + more == more;
    } else if |t.cooked| < ROOM {
      assert (raw + more)[1..] == raw[1..] + more;
      CookConcat(s, Type(s, t, raw[0]), raw[1..], more);
    }
  }

  lemma {:induction false} CookEats(s: Settings, t: Tty, raw: seq<Byte>)
    ensures |Cook(s, t, raw).0.cooked| < ROOM ==> Cook(s, t, raw).1 == []
    decreases raw
  { hide Type; if raw != [] && |t.cooked| < ROOM { CookEats(s, Type(s, t, raw[0]), raw[1..]); } }

  // e ends a line when it is typed.
  predicate EndsLine(s: Settings, e: Byte) {
    match Translate(s, e)
    case None => false
    case Some(c) =>
      && Ends(s, c)
      && !(s.canon && (Is(c, s.kill) || Is(c, s.erase) || c == BS || Is(c, s.stop) || Is(c, s.start)))
      && !(s.isig && (Is(c, s.intr) || Is(c, s.quit)))
  }

  predicate CanEnd(s: Settings) { exists e :: 0 <= e < 256 && EndsLine(s, e) }

  // Once what has been typed is in the queue, no line in it is complete, and none can be completed: the queue is full,
  // or no character ends a line.
  predicate Choked(s: Settings, r: Ref) {
    var t := Cook(s, r.tty, r.raw).0;
    t.lines == 0 && (|t.cooked| >= ROOM || !CanEnd(s))
  }

  // what happens while nobody calls tty_read
  predicate Waiting(op: Op) { op.Input? || op.Again? }

  lemma ChokedStep(s: Settings, r: Ref, op: Op)
    requires Choked(s, r) && Waiting(op)
    ensures Choked(s, RefStep(s, r, op).0) && (op.Again? ==> RefStep(s, r, op).1 == Wait)
    ensures var t, r' := Cook(s, r.tty, r.raw).0, RefStep(s, r, op).0;
      |t.cooked| >= ROOM ==> Cook(s, r'.tty, r'.raw).0 == t
  {
    hide Type, CanEnd;
    var more := Admit(|r.raw|, op.bytes);
    var a, b := Cook(s, r.tty, r.raw), Cook(s, r.tty, r.raw + more);
    CookConcat(s, r.tty, r.raw, more);
    if |a.0.cooked| >= ROOM {
      assert Cook(s, a.0, a.1 + more) == (a.0, a.1 + more);
    } else {
      NoEnd(s, a.0, more);
      NoEnd(s, b.0, b.1);
    }
  }

  lemma {:induction false} NoEnd(s: Settings, t: Tty, raw: seq<Byte>)
    requires !CanEnd(s)
    ensures Cook(s, t, raw).0.lines == t.lines
    decreases raw
  {
    hide Type, CanEnd;
    if raw != [] && |t.cooked| < ROOM {
      NoEndType(s, t, raw[0]);
      NoEnd(s, Type(s, t, raw[0]), raw[1..]);
    }
  }

  lemma NoEndType(s: Settings, t: Tty, raw: Byte)
    requires !CanEnd(s)
    ensures Type(s, t, raw).lines == t.lines
  {
    assert !EndsLine(s, raw);
    KillIs(s, t);
  }

  // Then no reader that waits ever gets anything, whatever is typed, until somebody calls tty_read anew. If the queue
  // is full, nothing that is typed is even looked at: the interrupt character does not end the wait by a signal either.
  lemma {:induction false} NeverReturns(s: Settings, r: Ref, ops: seq<Op>)
    requires s.canon && Choked(s, r) && forall i :: 0 <= i < |ops| ==> Waiting(ops[i])
    ensures forall i :: 0 <= i < |ops| && ops[i].Again? ==> RefRun(s, r, ops).1[i] == Wait
    ensures Choked(s, RefRun(s, r, ops).0)
    ensures var t, r' := Cook(s, r.tty, r.raw).0, RefRun(s, r, ops).0;
      |t.cooked| >= ROOM ==> Cook(s, r'.tty, r'.raw).0 == t
    decreases ops
  {
    hide RefStep, Choked, Cook;
    if ops != [] {
      ChokedStep(s, r, ops[0]);
      NeverReturns(s, RefStep(s, r, ops[0]).0, ops[1..]);
      var rest := RefRun(s, RefStep(s, r, ops[0]).0, ops[1..]).1;
      forall i | 0 < i < |ops| ensures RefRun(s, r, ops).1[i] == rest[i - 1] && ops[i] == ops[1..][i - 1] {}
    }
  }

  // A run without new calls in which the reader, which waits for up to nr bytes, returns.
  predicate Returns(s: Settings, r: Ref, nr: nat, ops: seq<Op>) {
    && (forall i :: 0 <= i < |ops| ==> Waiting(ops[i]) && (ops[i].Again? ==> ops[i].nr == nr))
    && exists i :: 0 <= i < |ops| && RefRun(s, r, ops).1[i].Data?
  }

  // Otherwise two turns are enough: a reader that waits can still get something if and only if the terminal is not
  // choked.
  lemma CanReturn(s: Settings, r: Ref, nr: nat)
    requires s.canon && nr > 0 && r.tty.lines == Ready(s, r.tty.cooked) && |r.tty.cooked| <= ROOM
    ensures !Choked(s, r) <==> exists ops :: Returns(s, r, nr, ops)
  {
    hide RefRun, RefStep, Choked, Ready;
    if Choked(s, r) {
      forall ops: seq<Op> ensures !Returns(s, r, nr, ops) {
        if forall i :: 0 <= i < |ops| ==> Waiting(ops[i]) && (ops[i].Again? ==> ops[i].nr == nr) {
          NeverReturns(s, r, ops);
          InputDone(s, r, ops);
        }
      }
    } else {
      var e := EndOr(s);
      EndReturns(s, r, nr, e);
      assert Returns(s, r, nr, [Again(nr, []), Again(nr, [e])]);
    }
  }

  lemma {:induction false} InputDone(s: Settings, r: Ref, ops: seq<Op>)
    ensures forall i :: 0 <= i < |ops| && ops[i].Input? ==> RefRun(s, r, ops).1[i] == Done
    decreases ops
  {
    if ops != [] {
      var rest := RefRun(s, RefStep(s, r, ops[0]).0, ops[1..]).1;
      InputDone(s, RefStep(s, r, ops[0]).0, ops[1..]);
      forall i | 0 < i < |ops| ensures RefRun(s, r, ops).1[i] == rest[i - 1] && ops[i] == ops[1..][i - 1] {}
    }
  }

  // a byte that ends a line, if there is one
  ghost function EndOr(s: Settings): (e: Byte)
    ensures CanEnd(s) ==> EndsLine(s, e)
  { if CanEnd(s) then var e :| 0 <= e < 256 && EndsLine(s, e); e else NL }

  lemma EndReturns(s: Settings, r: Ref, nr: nat, e: Byte)
    requires nr > 0 && !Choked(s, r) && r.tty.lines == Ready(s, r.tty.cooked) && |r.tty.cooked| <= ROOM
    requires CanEnd(s) ==> EndsLine(s, e)
    ensures Returns(s, r, nr, [Again(nr, []), Again(nr, [e])])
  {
    hide Deliver, Type, Cook, EndsLine, CanEnd;
    var ops := [Again(nr, []), Again(nr, [e])];
    var one := RefStep(s, r, ops[0]);
    var two := RefStep(s, one.0, ops[1]);
    assert ops[1..] == [Again(nr, [e])] && ops[1..][1..] == [];
    assert RefRun(s, r, ops).1 == [one.1, two.1];
    assert RefRun(s, r, ops).1[0] == one.1 && RefRun(s, r, ops).1[1] == two.1;
    assert r.raw + Admit(|r.raw|, []) == r.raw;
    var a := Cook(s, r.tty, r.raw);
    CookReady(s, r.tty, r.raw);
    if !HasLine(a.0) {
      CookEats(s, r.tty, r.raw);
      assert a.1 + Admit(|a.1|, [e]) == [e];
      EndCooks(s, a.0, e);
      assert two.1.Data?;
    } else {
      ReadyAtMost(s, a.0.cooked);
      assert one.1.Data?;
    }
  }

  lemma EndCooks(s: Settings, t: Tty, e: Byte)
    requires |t.cooked| < ROOM && t.lines == 0 && EndsLine(s, e)
    ensures HasLine(Cook(s, t, [e]).0)
  { assert [e][1..] == []; }

  // ---- at the console's first settings
  const CONSOLE := Settings(true, false, false, true, true, true, true, true, 3, 28, 127, 21, 4, 17, 19)
  const QUIET := Ref(Tty([], 0, false, [], []), [])
  const LETTER: Byte := 97

  function Letters(n: nat): (q: seq<Byte>) ensures |q| == n { seq(n, _ => LETTER) }

  lemma {:induction false} CookLetters(t: Tty, n: nat)
    requires |t.cooked| + n <= ROOM
    ensures Cook(CONSOLE, t, Letters(n)).0.lines == t.lines
    ensures |Cook(CONSOLE, t, Letters(n)).0.cooked| == |t.cooked| + n
    decreases n
  {
    if n > 0 {
      assert Letters(n)[0] == LETTER && Letters(n)[1..] == Letters(n - 1);
      CookLetters(Type(CONSOLE, t, LETTER), n - 1);
    }
  }

  // A reader finds nothing and waits; 1023 letters are typed; it never returns, and neither a new line nor ^C nor ^U
  // helps.
  lemma LongLineHangs(nr: nat, ops: seq<Op>)
    requires nr > 0 && forall i :: 0 <= i < |ops| ==> Waiting(ops[i])
    ensures var wait := RefStep(CONSOLE, QUIET, ReadUpTo(nr));
      var full := RefStep(CONSOLE, wait.0, Input(Letters(ROOM))).0;
      wait.1 == Wait && forall i :: 0 <= i < |ops| && ops[i].Again? ==> RefRun(CONSOLE, full, ops).1[i] == Wait
  {
    hide Type, CanEnd, Cook;
    var full := RefStep(CONSOLE, QUIET, Input(Letters(ROOM))).0;
    assert [] + Admit(0, Letters(ROOM)) == Letters(ROOM);
    CookLetters(QUIET.tty, ROOM);
    FullCooks(CONSOLE, full);
    NeverReturns(CONSOLE, full, ops);
  }

  lemma FullCooks(s: Settings, r: Ref)
    requires |r.tty.cooked| >= ROOM && r.tty.lines == 0
    ensures Choked(s, r)
  {}

  // With an end-of-file character of 200, typing it and a new line and reading once leaves a complete line that is not
  // counted: the next reader waits.
  lemma HighEof()
    ensures var s := CONSOLE.(eof := 200);
      var r := RefRun(s, QUIET, [Input([200, NL]), ReadUpTo(5), ReadUpTo(5)]);
      r.0.tty.lines == 0 && Ready(s, r.0.tty.cooked) == 1 && r.1 == [Done, Data([]), Wait]
  {
    hide RefRun, Cook, Deliver, Ready, Type;
    var s := CONSOLE.(eof := 200);
    var t := QUIET.tty;
    var a := Store(s, Store(s, t, 200), NL);
    assert Cook(s, t, [200, NL]) == (a, []) by { TypeTwo(s, t); }
    assert [] + Admit(0, [200, NL]) == [200, NL];
    var one := RefStep(s, QUIET, Input([200, NL]));
    assert one == (Ref(a, []), Done);
    assert a.cooked == [200, NL] && a.cooked[1..] == [NL] && a.lines == 1;
    var two := RefStep(s, one.0, ReadUpTo(5));
    assert Deliver(s, a, 5) == (PopOne(s, a), []) by { DeliverEof(s, a, 5); }
    assert two.0.tty.lines == 0 && two.0.tty.cooked == [NL] && two.1 == Data([]);
    var three := RefStep(s, two.0, ReadUpTo(5));
    assert three == (two.0, Wait);
    RunThree(s, QUIET, Input([200, NL]), ReadUpTo(5), ReadUpTo(5));
    assert Ready(s, [NL]) == 1 by { OneReady(s); }
  }

  lemma TypeTwo(s: Settings, t: Tty)
    requires s == CONSOLE.(eof := 200) && |t.cooked| + 2 <= ROOM
    ensures Cook(s, t, [200, NL]) == (Store(s, Store(s, t, 200), NL), [])
  {
    var raw: seq<Byte> := [200, NL];
    var a := Store(s, t, 200);
    assert raw[1..] == [NL] && raw[1..][1..] == [];
    assert Cook(s, Store(s, a, NL), []) == (Store(s, a, NL), []);
    assert Cook(s, a, raw[1..]) == (Store(s, a, NL), []);
  }

  lemma DeliverEof(s: Settings, t: Tty, nr: nat)
    requires nr > 0 && t.cooked != [] && t.cooked[0] == s.eof
    ensures Deliver(s, t, nr) == (PopOne(s, t), [])
  {}

  lemma OneReady(s: Settings)
    ensures Ready(s, [NL]) == 1
  { assert [NL][..0] == []; }

  lemma RunThree(s: Settings, r: Ref, a: Op, b: Op, c: Op)
    ensures var one := RefStep(s, r, a); var two := RefStep(s, one.0, b); var three := RefStep(s, two.0, c);
      RefRun(s, r, [a, b, c]) == (three.0, [one.1, two.1, three.1])
  {
    hide RefStep;
    assert [a, b, c][1..] == [b, c] && [b, c][1..] == [c] && [c][1..] == [];
    var one := RefStep(s, r, a);
    var two := RefStep(s, one.0, b);
    var three := RefStep(s, two.0, c);
    assert RefRun(s, three.0, []) == (three.0, []);
    assert [three.1] + [] == [three.1] && [two.1] + [three.1] == [two.1, three.1];
    assert [one.1] + [two.1, three.1] == [one.1, two.1, three.1];
    assert RefRun(s, two.0, [c]) == (three.0, [three.1]);
    assert RefRun(s, one.0, [b, c]) == (three.0, [two.1, three.1]);
  }
}
