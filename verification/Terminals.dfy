// A terminal with its three rings (kernel/chr_drv/tty_io.c; con_write and con_poll in kernel/chr_drv/console.c).
module Terminals {
  import opened Bytes
  import opened RingQueues
  import opened LineDiscipline

  class Terminal {
    const settings: Settings
    const raw: Queue        // read_q
    const echo: Queue       // write_q
    const cooked: Queue     // secondary
    var lines: int          // secondary.data
    var stopped: bool
    // what the UART has been given, and the signals sent to the foreground process group
    var out: seq<Byte>
    var signals: seq<Signal>

    ghost predicate Apart() reads this {
      && raw != echo && raw != cooked && echo != cooked && raw.buf != echo.buf && raw.buf != cooked.buf
        && echo.buf != cooked.buf
      && this as object !in {raw, echo, cooked, raw.buf, echo.buf, cooked.buf}
      && {raw as object, echo, cooked} !! {raw.buf as object, echo.buf, cooked.buf}
    }

    // con_write empties the write queue whenever something has been put into it.
    ghost predicate Valid() reads this, raw, echo, cooked {
      && Apart() && raw.Valid() && echo.Valid() && cooked.Valid()
        && raw.buf.Length == echo.buf.Length == cooked.buf.Length == ROOM + 1
      && echo.Chars() == 0
    }

    ghost function St(): Tty
      requires Valid()
      reads this, raw, echo, cooked, cooked.buf
    { Tty(cooked.Contents(), lines, stopped, out, signals) }

    constructor (s: Settings)
      ensures Valid() && fresh({raw, echo, cooked}) && fresh({raw.buf, echo.buf, cooked.buf}) && settings == s
      ensures St() == Tty([], 0, false, [], []) && raw.Contents() == []
    {
      settings := s;
      raw := new Queue(ROOM + 1);
      echo := new Queue(ROOM + 1);
      cooked := new Queue(ROOM + 1);
      lines, stopped, out, signals := 0, false, [], [];
    }

    // PUTCH into the write queue, then con_write, which sends what is in it. No echo is longer than six bytes.
    method Show(bytes: seq<Byte>)
      requires Valid() && |bytes| <= 6
      modifies this`out, echo, echo.buf
      ensures Valid() && St() == old(St()).(out := old(out) + bytes) && raw.Contents() == old(raw.Contents())
    {
      ghost var before := out;
      assert echo.Contents() == [];
      for i := 0 to |bytes|
        invariant Apart() && raw.Valid() && echo.Valid() && cooked.Valid() && echo.Contents() == bytes[..i]
        invariant out == before
        invariant raw.buf.Length == echo.buf.Length == cooked.buf.Length == ROOM + 1
      {
        echo.PutCh(bytes[i]);
      }
      assert bytes[..|bytes|] == bytes;
      while echo.Chars() > 0
        invariant Apart() && raw.Valid() && echo.Valid() && cooked.Valid() && out + echo.Contents() == before + bytes
        invariant raw.buf.Length == echo.buf.Length == cooked.buf.Length == ROOM + 1
        decreases echo.Chars()
      {
        var c := echo.GetCh();
        out := out + [c];
      }
      assert echo.Contents() == [];
    }

    // whether the cooked queue ends inside a line
    method IsOpen() returns (b: bool, c: Byte)
      requires Valid()
      ensures b <==> Open(settings, cooked.Contents())
      ensures b ==> cooked.Contents() != [] && c == cooked.Contents()[|cooked.Contents()| - 1]
    {
      c := 0;
      if cooked.Chars() == 0 { return false, c; }
      c := cooked.Last();
      b := !(c == NL || Is(c, settings.eof));
    }

    method Kill()
      requires Valid()
      modifies this`out, echo, echo.buf, cooked
      ensures Valid() && St() == KillLine(settings, old(St())) && raw.Contents() == old(raw.Contents())
    {
      ghost var t := St();
      var more, c := IsOpen();
      while more
        invariant Valid() && raw.Contents() == old(raw.Contents()) && KillLine(settings, St()) == KillLine(settings, t)
        invariant more <==> Open(settings, cooked.Contents())
        invariant more ==> c == cooked.Contents()[|cooked.Contents()| - 1]
        decreases cooked.Chars()
      {
        KillOne(c);
        more, c := IsOpen();
      }
    }

    method KillOne(c: Byte)
      requires Valid() && cooked.Chars() > 0 && c == cooked.Contents()[|cooked.Contents()| - 1]
      modifies this`out, echo, echo.buf, cooked
      ensures Valid() && raw.Contents() == old(raw.Contents()) && cooked.Chars() < old(cooked.Chars())
      ensures var q := old(cooked.Contents());
        St() == old(St()).(cooked := q[..|q| - 1], out := old(out) + KillEcho(settings, c))
    {
      if settings.echo { Show(KillEcho(settings, c)); }
      assert !settings.echo ==> out == old(out) + [];
      cooked.DropLast();
    }

    method Erase()
      requires Valid()
      modifies this`out, echo, echo.buf, cooked
      ensures Valid() && St() == EraseOne(settings, old(St())) && raw.Contents() == old(raw.Contents())
    {
      var some, c := IsOpen();
      if !some { return; }
      if settings.echo { Show(RubOut(settings, c)); }
      cooked.DropLast();
    }

    method Keep(c: Byte)
      requires Valid() && cooked.Left() > 0
      modifies this`out, this`lines, echo, echo.buf, cooked, cooked.buf
      ensures Valid() && St() == Store(settings, old(St()), c) && raw.Contents() == old(raw.Contents())
    {
      if c == NL || Is(c, settings.eof) { lines := lines + 1; }
      if settings.echo { Show(EchoOf(settings, c)); }
      cooked.PutCh(c);
    }

    // the body of copy_to_cooked's loop
    method TypeOne(b: Byte)
      requires Valid() && cooked.Left() > 0
      modifies this, echo, echo.buf, cooked, cooked.buf
      ensures Valid() && St() == Type(settings, old(St()), b) && raw.Contents() == old(raw.Contents())
    {
      var c := b;
      if c == CR {
        if settings.crnl { c := NL; } else if settings.nocr { return; }
      } else if c == NL && settings.nlcr { c := CR; }
      if settings.canon {
        if Is(c, settings.kill) {
          Kill();
          return;
        }
        if Is(c, settings.erase) || c == BS {
          Erase();
          return;
        }
        if Is(c, settings.stop) {
          stopped := true;
          return;
        }
        if Is(c, settings.start) {
          stopped := false;
          return;
        }
      }
      if settings.isig {
        if Is(c, settings.intr) {
          signals := signals + [Interrupt];
          return;
        }
        if Is(c, settings.quit) {
          signals := signals + [Quit];
          return;
        }
      }
      Keep(c);
    }

    method CopyToCooked()
      requires Valid()
      modifies this, raw, echo, echo.buf, cooked, cooked.buf
      ensures Valid() && (St(), raw.Contents()) == Cook(settings, old(St()), old(raw.Contents()))
    {
      ghost var t, r := St(), raw.Contents();
      while raw.Chars() > 0 && cooked.Left() > 0
        invariant Valid() && Cook(settings, St(), raw.Contents()) == Cook(settings, t, r)
        decreases raw.Chars()
      {
        ghost var t1, r1 := St(), raw.Contents();
        var c := raw.GetCh();
        assert r1[0] == c && r1[1..] == raw.Contents();
        TypeOne(c);
      }
    }

    // con_poll: characters that find the read queue full are lost.
    method Poll(input: seq<Byte>)
      requires Valid()
      modifies this, raw, raw.buf, echo, echo.buf, cooked, cooked.buf
      ensures Valid() && (St(), raw.Contents()) == Arrive(settings, old(St()), old(raw.Contents()), input)
    {
      ghost var t, r := St(), raw.Contents();
      for i := 0 to |input|
        invariant Valid() && St() == t && raw.Contents() == r + Admit(|r|, input[..i])
      {
        AdmitOne(|r|, input, i);
        if raw.Left() > 0 { raw.PutCh(input[i]); }
      }
      assert input[..|input|] == input;
      if raw.Chars() > 0 { CopyToCooked(); }
    }

    // tty_read in canonical mode, up to the point where it would wait; no signals.
    method Read(nr: nat) returns (data: seq<Byte>, waits: bool)
      requires Valid() && settings.canon
      modifies this`lines, cooked
      ensures Valid() && raw.Contents() == old(raw.Contents())
      ensures waits <==> nr > 0 && Waits(old(St()))
      ensures waits ==> St() == old(St()) && data == []
      ensures !waits ==> (St(), data) == Deliver(settings, old(St()), nr)
    {
      data := [];
      if nr == 0 { return [], false; }
      if cooked.Chars() == 0 || (lines == 0 && cooked.Left() > 20) { return [], true; }
      ghost var t := St();
      var left := nr;
      assert [] + Deliver(settings, t, nr).1 == Deliver(settings, t, nr).1;
      while left > 0 && cooked.Chars() > 0
        invariant Valid() && raw.Contents() == old(raw.Contents()) && 0 <= left
        invariant Deliver(settings, t, nr) == (Deliver(settings, St(), left).0, data + Deliver(settings, St(), left).1)
        decreases cooked.Chars()
      {
        ghost var q := cooked.Contents();
        var c := cooked.GetCh();
        assert q[0] == c && q[1..] == cooked.Contents();
        if c == settings.eof || c == NL { lines := Less(lines); }
        if c == settings.eof {
          assert data + [] == data;
          return data, false;
        }
        ghost var d := data;
        data := data + [c];
        left := left - 1;
        assert d + ([c] + Deliver(settings, St(), left).1) == data + Deliver(settings, St(), left).1;
      }
      assert data + [] == data;
      return data, false;
    }

    // A turn of a reader that already waits: it polls the console and goes on waiting unless there is a complete line.
    method Turn(nr: nat, input: seq<Byte>) returns (data: seq<Byte>, waits: bool)
      requires Valid() && settings.canon && nr > 0
      modifies this, raw, raw.buf, echo, echo.buf, cooked, cooked.buf
      ensures Valid()
      ensures var a := Arrive(settings, old(St()), old(raw.Contents()), input);
        && raw.Contents() == a.1 && (waits <==> !HasLine(a.0))
        && if waits then St() == a.0 && data == [] else (St(), data) == Deliver(settings, a.0, nr)
    {
      Poll(input);
      if cooked.Chars() == 0 || lines == 0 { return [], true; }
      data, waits := Read(nr);
    }
  }

  // Of the characters that come in, those that fit into a read queue with n in it.
  function Admit(n: int, input: seq<Byte>): (r: seq<Byte>)
    ensures n <= ROOM ==> n + |r| <= ROOM
  { if n + |input| <= ROOM then input else if n >= ROOM then [] else input[..ROOM - n] }

  lemma AdmitOne(n: int, input: seq<Byte>, i: int)
    requires 0 <= n <= ROOM && 0 <= i < |input|
    ensures Admit(n, input[..i + 1]) == if n + |Admit(n, input[..i])| < ROOM then Admit(n, input[..i]) + [input[i]]
      else Admit(n, input[..i])
  { assert input[..i + 1] == input[..i] + [input[i]]; }
  function Arrive(s: Settings, t: Tty, raw: seq<Byte>, input: seq<Byte>): (Tty, seq<Byte>) {
    Cook(s, t, raw + Admit(|raw|, input))
  }
}
