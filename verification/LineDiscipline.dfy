// What a terminal does to its input (copy_to_cooked and tty_read in kernel/chr_drv/tty_io.c), on sequences of bytes.
module LineDiscipline {
  import opened Bytes
  import opened Options
  import opened RingQueues

  const NL := 10
  const CR := 13
  const BS := 8
  const DEL := 127
  const ROOM := 1023  // TTY_BUF_SIZE - 1

  // the flags and control characters of struct termios that matter here
  datatype Settings = Settings(crnl: bool, nocr: bool, nlcr: bool, canon: bool, isig: bool, echo: bool, echoe: bool,
    echoctl: bool,
                               intr: Byte, quit: Byte, erase: Byte, kill: Byte, eof: Byte, start: Byte, stop: Byte)
  datatype Signal = Interrupt | Quit
  // cooked: the secondary queue; lines: its data field, an unsigned long; out: what has been echoed
  datatype Tty = Tty(cooked: seq<Byte>, lines: int, stopped: bool, out: seq<Byte>, signals: seq<Signal>)

  // copy_to_cooked keeps its character in a signed char: bytes from 128 on are negative there.
  predicate Is(c: Byte, k: Byte) { c < 128 && c == k }
  predicate Low(c: Byte) { c < 32 || c >= 128 }
  predicate Ends(s: Settings, c: Byte) { c == NL || Is(c, s.eof) }

  function Translate(s: Settings, c: Byte): Option<Byte> {
    if c == CR then if s.crnl then Some(NL) else if s.nocr then None else Some(c)
    else if c == NL && s.nlcr then Some(CR) else Some(c)
  }

  function EchoOf(s: Settings, c: Byte): seq<Byte> {
    if !s.echo then []
    else if c == NL then [NL, CR]
    else if Low(c) then if s.echoctl then [94, ((c as int) + 64) % 256] else []
    else [c]
  }

  function RubOut(s: Settings, c: Byte): seq<Byte> {
    if !s.echo then []
    else if s.echoe then if Low(c) then [BS, 32, BS, BS, 32, BS] else [BS, 32, BS]
    else if Low(c) then [DEL, DEL] else [DEL]
  }

  function KillEcho(s: Settings, c: Byte): seq<Byte> { if !s.echo then [] else if Low(c) then [DEL, DEL] else [DEL] }

  // There is something to rub out: the queue does not end at the end of a line.
  predicate Open(s: Settings, q: seq<Byte>) { q != [] && !Ends(s, q[|q| - 1]) }

  function KillLine(s: Settings, t: Tty): Tty
    decreases |t.cooked|
  {
    var q := t.cooked;
    if Open(s, q) then KillLine(s, t.(cooked := q[..|q| - 1], out := t.out + KillEcho(s, q[|q| - 1]))) else t
  }

  function EraseOne(s: Settings, t: Tty): Tty {
    var q := t.cooked;
    if Open(s, q) then t.(cooked := q[..|q| - 1], out := t.out + RubOut(s, q[|q| - 1])) else t
  }

  function Store(s: Settings, t: Tty, c: Byte): Tty {
    t.(cooked := t.cooked + [c], lines := if Ends(s, c) then t.lines + 1 else t.lines, out := t.out + EchoOf(s, c))
  }

  // One character of input.
  function Type(s: Settings, t: Tty, raw: Byte): Tty {
    match Translate(s, raw)
    case None => t
    case Some(c) =>
      if s.canon && Is(c, s.kill) then KillLine(s, t)
      else if s.canon && (Is(c, s.erase) || c == BS) then EraseOne(s, t)
      else if s.canon && Is(c, s.stop) then t.(stopped := true)
      else if s.canon && Is(c, s.start) then t.(stopped := false)
      else if s.isig && Is(c, s.intr) then t.(signals := t.signals + [Interrupt])
      else if s.isig && Is(c, s.quit) then t.(signals := t.signals + [Quit])
      else Store(s, t, c)
  }

  // As many characters as there is room for.
  function Cook(s: Settings, t: Tty, raw: seq<Byte>): (r: (Tty, seq<Byte>))
    ensures |t.cooked| <= ROOM ==> |r.0.cooked| <= ROOM
    decreases raw
  {
    if raw == [] || |t.cooked| >= ROOM then (t, raw)
    else TypeGrows(s, t, raw[0]); Cook(s, Type(s, t, raw[0]), raw[1..])
  }

  lemma {:induction false} KillShrinks(s: Settings, t: Tty)
    ensures |KillLine(s, t).cooked| <= |t.cooked|
    decreases |t.cooked|
  {
    var q := t.cooked;
    if Open(s, q) { KillShrinks(s, t.(cooked := q[..|q| - 1], out := t.out + KillEcho(s, q[|q| - 1]))); }
  }

  lemma TypeGrows(s: Settings, t: Tty, raw: Byte)
    ensures |Type(s, t, raw).cooked| <= |t.cooked| + 1
  { KillShrinks(s, t); }

  // ---- what rubbing out does
  // the queue up to the end of its last complete line
  function Lines(s: Settings, q: seq<Byte>): seq<Byte> { if Open(s, q) then Lines(s, q[..|q| - 1]) else q }

  // The kill character removes the unfinished line and nothing else,
  lemma {:induction false} KillIs(s: Settings, t: Tty)
    ensures KillLine(s, t).cooked == Lines(s, t.cooked) && KillLine(s, t).lines == t.lines
    ensures KillLine(s, t).stopped == t.stopped && KillLine(s, t).signals == t.signals
    decreases |t.cooked|
  {
    var q := t.cooked;
    if Open(s, q) { KillIs(s, t.(cooked := q[..|q| - 1], out := t.out + KillEcho(s, q[|q| - 1]))); }
  }

  // and the erase character at most its last byte: complete lines are never touched.
  lemma EraseIs(s: Settings, t: Tty)
    ensures Lines(s, EraseOne(s, t).cooked) == Lines(s, t.cooked)
    ensures EraseOne(s, t).cooked == if t.cooked == Lines(s, t.cooked) then t.cooked else t.cooked[..|t.cooked| - 1]
  { LinesShorter(s, t.cooked); }

  lemma {:induction false} LinesShorter(s: Settings, q: seq<Byte>)
    ensures Lines(s, q) <= q && (Lines(s, q) == q <==> !Open(s, q)) && !Open(s, Lines(s, q))
    decreases |q|
  { if Open(s, q) { LinesShorter(s, q[..|q| - 1]); } }

  // ---- how many lines are ready
  function Ready(s: Settings, q: seq<Byte>): nat {
    if q == [] then 0 else Ready(s, q[..|q| - 1]) + if Ends(s, q[|q| - 1]) then 1 else 0
  }

  lemma {:induction false} ReadyLines(s: Settings, q: seq<Byte>)
    ensures Ready(s, Lines(s, q)) == Ready(s, q)
    decreases |q|
  { if Open(s, q) { ReadyLines(s, q[..|q| - 1]); } }

  lemma ReadyPush(s: Settings, q: seq<Byte>, c: Byte)
    ensures Ready(s, q + [c]) == Ready(s, q) + if Ends(s, c) then 1 else 0
  { assert (q + [c])[..|q|] == q; }

  lemma {:induction false} ReadyPop(s: Settings, q: seq<Byte>)
    requires q != []
    ensures Ready(s, q) == Ready(s, q[1..]) + if Ends(s, q[0]) then 1 else 0
    decreases |q|
  {
    if |q| > 1 {
      var f := q[..|q| - 1];
      ReadyPop(s, f);
      assert f[1..] == q[1..][..|q[1..]| - 1];
    } else { assert q[1..] == [] && q[..0] == []; }
  }

  // Typing keeps the count of complete lines right.
  lemma TypeReady(s: Settings, t: Tty, raw: Byte)
    requires t.lines == Ready(s, t.cooked)
    ensures Type(s, t, raw).lines == Ready(s, Type(s, t, raw).cooked)
  {
    hide KillLine, EraseOne, Ready, Store;
    KillReady(s, t);
    EraseReady(s, t);
    match Translate(s, raw) case None => case Some(c) => StoreReady(s, t, c);
  }

  lemma KillReady(s: Settings, t: Tty)
    requires t.lines == Ready(s, t.cooked)
    ensures KillLine(s, t).lines == Ready(s, KillLine(s, t).cooked)
  {
    KillIs(s, t);
    ReadyLines(s, t.cooked);
  }

  lemma EraseReady(s: Settings, t: Tty)
    requires t.lines == Ready(s, t.cooked)
    ensures EraseOne(s, t).lines == Ready(s, EraseOne(s, t).cooked)
  {}

  lemma StoreReady(s: Settings, t: Tty, c: Byte)
    requires t.lines == Ready(s, t.cooked)
    ensures Store(s, t, c).lines == Ready(s, Store(s, t, c).cooked)
  { ReadyPush(s, t.cooked, c); }

  lemma {:induction false} CookReady(s: Settings, t: Tty, raw: seq<Byte>)
    requires t.lines == Ready(s, t.cooked)
    ensures Cook(s, t, raw).0.lines == Ready(s, Cook(s, t, raw).0.cooked)
    decreases raw
  {
    if raw != [] && |t.cooked| < ROOM {
      TypeReady(s, t, raw[0]);
      CookReady(s, Type(s, t, raw[0]), raw[1..]);
    }
  }

  // ---- reading a line
  // tty_read has its character in an unsigned char, so that here an end-of-file character from 128 on is one.
  predicate EndsRead(s: Settings, c: Byte) { c == NL || c == s.eof }
  function Less(n: int): int { (n - 1) % WORD }

  function PopOne(s: Settings, t: Tty): Tty
    requires t.cooked != []
  { t.(cooked := t.cooked[1..], lines := if EndsRead(s, t.cooked[0]) then Less(t.lines) else t.lines) }

  // The count stays right exactly if the byte is no end of file with its top bit set.
  lemma PopReady(s: Settings, t: Tty)
    requires t.cooked != [] && t.lines == Ready(s, t.cooked) < WORD
    ensures PopOne(s, t).lines == Ready(s, PopOne(s, t).cooked) <==> !(t.cooked[0] == s.eof >= 128)
  { ReadyPop(s, t.cooked); }

  // From the first byte on: up to nr bytes, or to an end of file, which is taken and not delivered.
  function Deliver(s: Settings, t: Tty, nr: nat): (r: (Tty, seq<Byte>))
    decreases |t.cooked|
  {
    if nr == 0 || t.cooked == [] then (t, [])
    else
      var c, t1 := t.cooked[0], PopOne(s, t);
      if c == s.eof then (t1, []) else var rest := Deliver(s, t1, nr - 1); (rest.0, [c] + rest.1)
  }

  // a reader in canonical mode begins to wait unless there is a complete line or the queue is nearly full,
  predicate Waits(t: Tty) { t.cooked == [] || (t.lines == 0 && ROOM - |t.cooked| > 20) }

  // and once it waits, for a complete line only
  predicate HasLine(t: Tty) { t.cooked != [] && t.lines != 0 }

  lemma {:induction false} DeliverReady(s: Settings, t: Tty, nr: nat)
    requires s.eof < 128 && t.lines == Ready(s, t.cooked) < WORD
    ensures Deliver(s, t, nr).0.lines == Ready(s, Deliver(s, t, nr).0.cooked)
    decreases |t.cooked|
  {
    if nr > 0 && t.cooked != [] {
      ReadyPop(s, t.cooked);
      PopReady(s, t);
      DeliverReady(s, PopOne(s, t), nr - 1);
    }
  }

  lemma {:induction false} ReadyAtMost(s: Settings, q: seq<Byte>)
    ensures Ready(s, q) <= |q|
    decreases |q|
  { if q != [] { ReadyAtMost(s, q[..|q| - 1]); } }
}
