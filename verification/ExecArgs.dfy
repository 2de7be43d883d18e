// The argument pages of a new program: copy_strings and create_tables (fs/exec.c).
module ExecArgs {
  import opened Bytes

  const PAGES := 32                        // MAX_ARG_PAGES
  const AREA := PAGES * PAGE
  const STACK_BASE := 0x7fe00000 - AREA    // where the area is in the new address space

  ghost predicate AllProper(ss: seq<seq<Byte>>) { forall i :: 0 <= i < |ss| ==> Proper(ss[i]) }
  // the strings one after the other, each with its zero byte
  function Flat(ss: seq<seq<Byte>>): seq<Byte> { if ss == [] then [] else ss[0] + [0] + Flat(ss[1..]) }

  lemma {:induction false} FlatAt(ss: seq<seq<Byte>>, k: int)
    requires 0 <= k < |ss|
    ensures Flat(ss[..k + 1]) == Flat(ss[..k]) + (ss[k] + [0])
  {
    if k == 0 {
      assert ss[..1] == [ss[0]] && ss[..0] == [];
      assert Flat([ss[0]]) == ss[0] + [0] + Flat([ss[0]][1..]);
    } else {
      FlatAt(ss[1..], k - 1);
      assert ss[1..][..k] == ss[..k + 1][1..] && ss[1..][..k - 1] == ss[..k][1..];
    }
  }

  function PageOf(i: int): int { i / PAGE }
  const TOP := AREA - 4                    // where do_execve starts to copy, downwards

  // the lowest page in use once the bytes from q up to TOP are
  function Low(q: int): int { if q < TOP then PageOf(q) else PAGES }

  // the variables offset and pag after the byte at p has been written, or, with offset 0, before any has
  ghost predicate Cursor(p: int, offset: int, pag: int) {
    0 <= offset < PAGE && (offset > 0 ==> p < TOP && offset == p % PAGE && pag == p / PAGE)
  }

  // a byte put, no page to be had for it, or an index of page[] that is no index
  datatype Put = Done | NoPage | Overrun
  datatype Copy = At(p: int) | PastEnd

  // What becomes of n bytes that are to stand just below p. The index of page[] stays in bounds if and only if they
  // fit.
  function Putting(p: int, n: int, total: int): Put {
    if n <= p then if PAGES - Low(p - n) <= total then Done else NoPage
    else if PAGES <= total then Overrun else NoPage
  }

  function Copying(p: int, n: int, total: int): Copy {
    if p == 0 then At(0)
    else match Putting(p, n, total) case Done => At(p - n) case NoPage => At(0) case Overrun => PastEnd
  }

  class ArgPages {
    const area: array<Byte>
    const mapped: array<bool>
    // what get_free_page can still give
    var free: nat

    ghost predicate Valid() reads this { area.Length == AREA && mapped.Length == PAGES && area as object != mapped }

    // Of the pages that were free at first, those from the one with byte q on are in use, and no others.
    ghost predicate Uses(q: int, total: int)
      requires Valid()
      reads this, mapped
    { 0 <= q <= TOP && free + PAGES - Low(q) == total && forall g :: 0 <= g < PAGES ==> mapped[g] == (Low(q) <= g) }

    constructor (pages: nat, rest: seq<Byte>)
      requires |rest| == AREA
      ensures Valid() && fresh(area) && fresh(mapped) && area[..] == rest && Uses(TOP, pages)
    {
      area := new Byte[AREA](i requires 0 <= i < |rest| => rest[i]);
      mapped := new bool[PAGES](_ => false);
      free := pages;
      new;
      assert area[..] == rest;
    }

    // One byte below q, at a word that wraps around. Overrun is an index past the end of page[], and what follows is
    // not modelled.
    method PutByte(q: int, offset: int, pag: int, c: Byte, ghost total: int) returns (o: Put, offset': int, pag': int)
      requires Valid() && Uses(q, total) && Cursor(q, offset, pag)
      modifies this`free, area, mapped
      ensures Valid() && o == Putting(q, 1, total)
      ensures o.Done? ==> area[..] == old(area[..])[q - 1 := c] && Uses(q - 1, total) && Cursor(q - 1, offset', pag')
    {
      var p := (q - 1) % WORD;
      offset', pag' := offset - 1, pag;
      if offset' < 0 {
        offset', pag' := p % PAGE, p / PAGE;
        if pag' >= PAGES { return Overrun, offset', pag'; }
        if !mapped[pag'] {
          if free == 0 { return NoPage, offset', pag'; }
          free := free - 1;
          mapped[pag'] := true;
        }
      }
      area[pag' * PAGE + offset'] := c;
      o := Done;
    }

    // The inner loop of copy_strings: s and its zero byte, ending just below p.
    method CopyOne(s: seq<Byte>, p: int, offset: int, pag: int, ghost total: int)
      returns (o: Put, offset': int, pag': int)
      requires Valid() && Uses(p, total) && Cursor(p, offset, pag)
      modifies this`free, area, mapped
      ensures Valid() && o == Putting(p, |s| + 1, total)
      ensures o.Done? ==>
        && Uses(p - |s| - 1, total) && Cursor(p - |s| - 1, offset', pag')
        && Overwritten(old(area[..]), area[..], p - |s| - 1, s + [0])
    {
      hide Low, Cursor, Uses;
      var text, len, base := s + [0], |s| + 1, p - |s| - 1;
      ghost var was := area[..];
      UsesAtMost(p, total);
      offset', pag', o := offset, pag, Done;
      while len > 0
        invariant Valid() && 0 <= len <= |text| && Uses(base + len, total) && Cursor(base + len, offset', pag')
        invariant Overwritten(was, area[..], base + len, text[len..]) && o == Done && 0 <= base + len
      {
        UsesAtMost(base + len, total);
        len := len - 1;
        o, offset', pag' := PutByte(base + len + 1, offset', pag', text[len], total);
        if !o.Done? {
          LowDown(base, base + len);
          NonNegative(if base + len < 0 then 0 else base + len);
          return;
        }
        UsesAtMost(base + len, total);
      }
      UsesAtMost(base, total);
    }

    // copy_strings. It has no test for strings that do not fit below p: p - len < 0 compares a word that is never
    // negative.
    // At 0 stands for failure, and is also the answer if they fill all of it.
    method CopyStrings(argv: seq<seq<Byte>>, p: int, ghost total: int) returns (r: Copy)
      requires Valid() && (p != 0 ==> Uses(p, total))
      modifies this`free, area, mapped
      ensures Valid() && r == Copying(p, |Flat(argv)|, total)
      ensures r.At? && r.p != 0 ==> Uses(r.p, total) && Overwritten(old(area[..]), area[..], r.p, Flat(argv))
    {
      hide Flat, Laid, Overwritten, Uses, Cursor, Low;
      if p == 0 { return At(0); }
      ghost var was, whole := area[..], Flat(argv);
      var q, k, offset, pag := p, |argv|, 0, -1;
      assert argv[..|argv|] == argv;
      UsesAtMost(p, total);
      CursorStart(p);
      LaidNone(was, whole, p);
      assert Laid(was, area[..], whole, p, |whole|);
      while k > 0
        invariant Valid() && 0 <= k <= |argv| && Uses(q, total) && Cursor(q, offset, pag) && PAGES - Low(q) <= total
        invariant |Flat(argv[..k])| <= |whole| && 0 <= q == p - |whole| + |Flat(argv[..k])|
        invariant Laid(was, area[..], whole, p, |Flat(argv[..k])|)
      {
        k := k - 1;
        FlatAt(argv, k);
        FlatPrefix(argv, k + 1);
        ghost var now := area[..];
        var o;
        o, offset, pag := CopyOne(argv[k], q, offset, pag, total);
        if !o.Done? {
          if |argv[k]| + 1 <= q { NonNegative(q - |argv[k]| - 1); }
          if |whole| <= p { LowDown(p - |whole|, q - |argv[k]| - 1); }
          return if o.Overrun? then PastEnd else At(0);
        }
        UsesAtMost(q - |argv[k]| - 1, total);
        Spliced(was, whole, argv[k] + [0], area[..], now, p, |Flat(argv[..k])|);
        q := q - |argv[k]| - 1;
      }
      NothingFlat(argv);
      LaidAll(was, area[..], whole, p);
      return At(q);
    }

    lemma UsesAtMost(q: int, total: int)
      requires Valid() && Uses(q, total)
      ensures 0 <= q <= TOP && PAGES - Low(q) <= total
    {}

    // put_fs_long; no page, no write, and the process ends
    method PutLong(i: int, v: int) returns (ok: bool)
      requires Valid() && i < AREA && i % 4 == 0 && 0 <= v < WORD
      modifies area
      ensures Valid() && ok == HasPage(mapped[..], i)
      ensures area[..] == if ok then WithWord(old(area[..]), i, v) else old(area[..])
    {
      if i < 0 || !mapped[i / PAGE] { return false; }
      area[i] := v % 256;
      area[i + 1] := v / 256 % 256;
      area[i + 2] := v / 65536 % 256;
      area[i + 3] := v / 16777216;
      ok := true;
    }

    // past the zero byte that ends the string at q
    method Skip(q: int, ghost s: seq<Byte>) returns (r: int)
      requires Valid() && Proper(s) && 0 <= q && q + |s| < AREA && area[q..q + |s| + 1] == s + [0]
      ensures r == q + |s| + 1
    {
      r := q;
      ghost var text := s + [0];
      while area[r] != 0
        invariant q <= r <= q + |s|
        decreases q + |s| - r
      {
        assert area[r] == area[q..q + |s| + 1][r - q] == text[r - q];
        r := r + 1;
        assert area[r] == area[q..q + |s| + 1][r - q];
      }
      assert area[r] == area[q..q + |s| + 1][r - q] == text[r - q];
      r := r + 1;
    }

    // One of the two loops of create_tables: pointers to n strings from q on, and a zero.
    method PutTable(q: int, n: nat, t: int, ghost ss: seq<seq<Byte>>, ghost j0: nat, ghost base: int)
      returns (ok: bool, q': int)
      requires Valid() && AllProper(ss) && Holds(area[..], base, ss) && j0 + n <= |ss| && q == base + |Flat(ss[..j0])|
      requires 0 <= t && t % 4 == 0 && t + 4 * (n + 1) <= base
      modifies area
      ensures Valid() && SameOutside(old(area[..]), area[..], t, t + 4 * (n + 1))
      ensures ok <==> WordsCovered(mapped[..], t, n + 1)
      ensures ok ==>
        Pointers(area[..], t, base, ss, j0, n) && WordAt(area[..], t, n) == 0 && q' == base + |Flat(ss[..j0 + n])|
    {
      ghost var was := area[..];
      q' := q;
      TableStart(was, mapped[..], t, base, ss, j0);
      hide Flat, Word, Holds, Pointers, SameOutside, WordsCovered, Filling;
      for j := 0 to n
        invariant Valid() && q' == base + |Flat(ss[..j0 + j])| && Filling(was, area[..], mapped[..], t, base, ss, j0, j)
      {
        ok, q' := PutOne(q', t, j, was, ss, j0, base);
        if !ok {
          FillingOutside(was, area[..], mapped[..], t, base, ss, j0, j, n);
          return;
        }
      }
      ghost var now := area[..];
      ok := PutLong(t + 4 * n, 0);
      TableEnd(was, now, area[..], mapped[..], t, base, ss, j0, n, ok);
    }

    method PutOne(q: int, t: int, j: nat, ghost was: seq<Byte>, ghost ss: seq<seq<Byte>>, ghost j0: nat,
            ghost base: int)
      returns (ok: bool, q': int)
      requires Valid() && AllProper(ss) && j0 + j < |ss| && q == base + |Flat(ss[..j0 + j])|
      requires 0 <= t && t % 4 == 0 && t + 4 * (j + 1) <= base && Filling(was, area[..], mapped[..], t, base, ss, j0, j)
      modifies area
      ensures Valid() && ok == HasPage(mapped[..], t + 4 * j)
      ensures !ok ==> area[..] == old(area[..])
      ensures ok ==> q' == base + |Flat(ss[..j0 + j + 1])| && Filling(was, area[..], mapped[..], t, base, ss, j0, j + 1)
    {
      hide Flat, WithWord, Word, Pointers, SameOutside, WordsCovered, Filling;
      ghost var now := area[..];
      FillingHolds(was, now, mapped[..], t, base, ss, j0, j);
      HoldsOne(now, base, ss, j0 + j);
      ok := PutLong(t + 4 * j, STACK_BASE + q);
      q' := q;
      if !ok { return; }
      FillMore(was, now, area[..], mapped[..], t, base, ss, j0, j);
      FillingHolds(was, area[..], mapped[..], t, base, ss, j0, j + 1);
      HoldsOne(area[..], base, ss, j0 + j);
      q' := Skip(q, ss[j0 + j]);
    }

    // The three words under the tables: argc and where the two tables are.
    method PutHeader(argv: int, envp: int, argc: int) returns (ok: bool)
      requires Valid() && argv % 4 == 0 && -STACK_BASE <= argv <= envp < AREA && 0 <= argc <= AREA
      modifies area
      ensures Valid() && (ok <==> WordsCovered(mapped[..], argv - 12, 3))
      ensures ok ==>
        SameOutside(old(area[..]), area[..], argv - 12, argv) && Header(area[..], argv - 12, argv, envp, argc)
    {
      hide Word, WithWord, HasPage, WordsCovered, SameOutside;
      ghost var was := area[..];
      ok := PutLong(argv - 4, STACK_BASE + envp);
      if !ok {
        WordMissing(mapped[..], argv - 12, 3, 2);
        return;
      }
      ghost var a := area[..];
      ok := PutLong(argv - 8, STACK_BASE + argv);
      if !ok {
        WordMissing(mapped[..], argv - 12, 3, 1);
        return;
      }
      ghost var b := area[..];
      ok := PutLong(argv - 12, argc);
      if !ok {
        WordMissing(mapped[..], argv - 12, 3, 0);
        return;
      }
      ThreeCovered(mapped[..], argv - 12);
      ThreeWords(was, a, b, area[..], argv - 12, argc, STACK_BASE + argv, STACK_BASE + envp);
    }

    // create_tables, for strings ss that stand at p, the first argc of them arguments
    method CreateTables(p: int, argc: nat, envc: nat, ghost ss: seq<seq<Byte>>, ghost total: int)
      returns (ok: bool, sp: int)
      requires Valid() && Uses(p, total) && AllProper(ss) && |ss| == argc + envc && Holds(area[..], p, ss)
      modifies area
      ensures Valid() && (ok <==> OnePage(p, argc, envc))
      ensures ok ==>
        sp == StackFor(p, argc, envc) && 0 <= sp && Tables(area[..], sp, p, ss, argc)
          && SameOutside(old(area[..]), area[..], sp, p)
    {
      hide Flat, Word, Holds, Pointers, SameOutside, WordsCovered, Header, Tables, OnePage;
      NotMany(area[..], p, ss);
      TablesCovered(mapped[..], p, argc, envc);
      var top := p / 4 * 4;
      assert top <= p && top % 4 == 0;
      var envp := top - 4 * (envc + 1);
      var argv := envp - 4 * (argc + 1);
      sp := argv - 12;
      ghost var was := area[..];
      ok := PutHeader(argv, envp, argc);
      CoveredParts(mapped[..], sp, 3, argc + envc + 2);
      CoveredParts(mapped[..], argv, argc + 1, envc + 1);
      if !ok { return; }
      CoveredAbove(mapped[..], sp, 3);
      ghost var a := area[..];
      HoldsKept(was, a, p, ss, sp, argv);
      NothingFlat(ss);
      var q;
      ok, q := PutTable(p, argc, argv, ss, 0, p);
      if !ok { return; }
      ghost var b := area[..];
      HoldsKept(a, b, p, ss, argv, envp);
      ok, q := PutTable(q, envc, envp, ss, argc, p);
      if ok { TablesDone(was, a, b, area[..], sp, argv, envp, top, p, ss, argc); }
    }

    // What do_execve does with argv and envp, from p = TOP on, up to the stack pointer of the new program.
    method SetUp(argv: seq<seq<Byte>>, envp: seq<seq<Byte>>, ghost total: int) returns (r: Start)
      requires Valid() && Uses(TOP, total) && AllProper(argv) && AllProper(envp)
      modifies this`free, area, mapped
      ensures Valid() && r == Outcome(|Flat(argv)|, |Flat(envp)|, |argv|, |envp|, total)
      ensures r.Started? ==> Gives(area[..], r.sp - STACK_BASE, argv, envp)
    {
      hide Flat, Holds, Tables, Gives, Overwritten, OnePage;
      ghost var a := area[..];
      ghost var least := TOP - |Flat(argv)| - |Flat(envp)|;
      LowDown(least, TOP - |Flat(envp)|);
      if |Flat(envp)| <= TOP { NonNegative(TOP - |Flat(envp)|); }
      var e := CopyStrings(envp, TOP, total);
      if e.PastEnd? { return Overran; }
      ghost var q, b := e.p, area[..];
      var f := CopyStrings(argv, e.p, total);
      if f.PastEnd? { return Overran; }
      var p := f.p;
      if p == 0 { return NoMemory; }
      ghost var ss := argv + envp;
      HoldsBoth(a, b, area[..], p, q, argv, envp);
      var ok, sp := CreateTables(p, |argv|, |envp|, ss, total);
      if !ok { return Killed; }
      TablesGive(area[..], sp, p, argv, envp);
      r := Started(STACK_BASE + sp);
    }
  }

  // From the n-th byte on, whole has been put where it ends at p.
  ghost predicate Laid(was: seq<Byte>, now: seq<Byte>, whole: seq<Byte>, p: int, n: int) {
    0 <= n <= |whole| && |whole| <= p + n && p <= |was| && Overwritten(was, now, p - |whole| + n, whole[n..])
  }

  lemma LaidNone(was: seq<Byte>, whole: seq<Byte>, p: int)
    requires 0 <= p <= |was|
    ensures Laid(was, was, whole, p, |whole|)
  {}

  lemma LaidAll(was: seq<Byte>, now: seq<Byte>, whole: seq<Byte>, p: int)
    requires Laid(was, now, whole, p, 0)
    ensures Overwritten(was, now, p - |whole|, whole)
  {}

  lemma CursorStart(p: int)
    ensures Cursor(p, 0, -1)
  {}

  lemma NonNegative(q: int)
    requires 0 <= q
    ensures 0 <= Low(q) && Low(0) == 0
  {}

  lemma LowDown(q: int, p: int)
    requires q <= p
    ensures Low(q) <= Low(p)
  {}

  lemma NothingFlat(ss: seq<seq<Byte>>)
    ensures Flat(ss[..0]) == []
  {}

  lemma {:induction false} FlatPrefix(ss: seq<seq<Byte>>, k: int)
    requires 0 <= k <= |ss|
    ensures Flat(ss[..k]) <= Flat(ss)
    decreases |ss| - k
  {
    if k == |ss| { assert ss[..k] == ss; }
    else {
      FlatAt(ss, k);
      FlatPrefix(ss, k + 1);
    }
  }

  // One more string in front of those already there.
  lemma Spliced(was: seq<Byte>, whole: seq<Byte>, text: seq<Byte>, area: seq<Byte>, now: seq<Byte>, p: int, n: int)
    requires 0 <= n && n + |text| <= |whole| && whole[n..n + |text|] == text && Laid(was, now, whole, p, n + |text|)
    requires Overwritten(now, area, p - |whole| + n, text)
    ensures Laid(was, area, whole, p, n)
  {}

  // ---- words
  function Word(a: seq<Byte>, i: int): int
    requires 0 <= i && i + 4 <= |a|
  { (a[i] as int) + 256 * (a[i + 1] as int) + 65536 * (a[i + 2] as int) + 16777216 * (a[i + 3] as int) }

  function WithWord(a: seq<Byte>, i: int, v: int): (b: seq<Byte>)
    requires 0 <= i && i + 4 <= |a| && 0 <= v < WORD
    ensures |b| == |a|
  { a[i := v % 256][i + 1 := v / 256 % 256][i + 2 := v / 65536 % 256][i + 3 := v / 16777216] }

  lemma Digits(v: int)
    requires 0 <= v < WORD
    ensures v % 256 + 256 * (v / 256 % 256) + 65536 * (v / 65536 % 256) + 16777216 * (v / 16777216) == v
    ensures 0 <= v / 16777216 < 256
  {
    var a := v / 256;
    var b := a / 256;
    assert v / 65536 == b && v / 16777216 == b / 256;
  }

  lemma WordThere(a: seq<Byte>, i: int, v: int)
    requires 0 <= i && i + 4 <= |a| && 0 <= v < WORD
    ensures Word(WithWord(a, i, v), i) == v
  {
    Digits(v);
    var b := WithWord(a, i, v);
    assert b[i] == v % 256 && b[i + 1] == v / 256 % 256 && b[i + 2] == v / 65536 % 256 && b[i + 3] == v / 16777216;
    hide WithWord;
  }

  lemma WordOf(a: seq<Byte>, i: int, v: int, j: int)
    requires 0 <= i && i + 4 <= |a| && 0 <= v < WORD && 0 <= j && j + 4 <= |a| && i % 4 == 0 && j % 4 == 0
    ensures Word(WithWord(a, i, v), j) == if i == j then v else Word(a, j)
  {
    if i == j { WordThere(a, i, v); }
    else {
      var b := WithWord(a, i, v);
      assert j + 4 <= i || i + 4 <= j;
      assert b[j] == a[j] && b[j + 1] == a[j + 1] && b[j + 2] == a[j + 2] && b[j + 3] == a[j + 3];
      hide WithWord;
    }
  }

  // ---- the tables
  // the strings stand at base, one after the other
  ghost predicate Holds(a: seq<Byte>, base: int, ss: seq<seq<Byte>>) {
    0 <= base && base + |Flat(ss)| <= |a| <= AREA && a[base..base + |Flat(ss)|] == Flat(ss)
  }

  // n pointers from t on, to the strings from the j0-th on
  ghost predicate Pointers(a: seq<Byte>, t: int, base: int, ss: seq<seq<Byte>>, j0: int, n: int) {
    && 0 <= t && 0 <= n && t + 4 * n <= |a| && 0 <= j0 && j0 + n <= |ss|
    && forall j :: 0 <= j < n ==> WordAt(a, t, j) == STACK_BASE + base + |Flat(ss[..j0 + j])|
  }

  function WordAt(a: seq<Byte>, t: int, j: int): int
    requires 0 <= t && 0 <= j && t + 4 * j + 4 <= |a|
  { Word(a, t + 4 * j) }
  predicate HasPage(mapped: seq<bool>, i: int) { 0 <= PageOf(i) < |mapped| && mapped[PageOf(i)] }
  ghost predicate WordsCovered(mapped: seq<bool>, t: int, n: int) {
    forall j :: 0 <= j < n ==> HasPage(mapped, t + 4 * j)
  }
  ghost predicate SameOutside(a: seq<Byte>, b: seq<Byte>, lo: int, hi: int) {
    |b| == |a| && forall i :: 0 <= i < |a| && !(lo <= i < hi) ==> b[i] == a[i]
  }

  lemma HoldsKept(a: seq<Byte>, b: seq<Byte>, base: int, ss: seq<seq<Byte>>, lo: int, hi: int)
    requires Holds(a, base, ss) && SameOutside(a, b, lo, hi) && hi <= base
    ensures Holds(b, base, ss)
  {}

  // the j-th string is where its pointer says
  lemma HoldsOne(a: seq<Byte>, base: int, ss: seq<seq<Byte>>, j: int)
    requires Holds(a, base, ss) && 0 <= j < |ss|
    ensures var q := base + |Flat(ss[..j])|;
      0 <= base && q + |ss[j]| < |a| && a[q..q + |ss[j]| + 1] == ss[j] + [0]
      && |Flat(ss[..j + 1])| == |Flat(ss[..j])| + |ss[j]| + 1
  {
    FlatAt(ss, j);
    FlatPrefix(ss, j + 1);
    var n, whole := |Flat(ss[..j])|, Flat(ss);
    hide Flat;
    assert whole[n..n + |ss[j]| + 1] == ss[j] + [0];
    Within(a, base, |whole|, n, |ss[j]| + 1);
  }

  lemma Within(a: seq<Byte>, base: int, m: int, n: int, k: int)
    requires 0 <= base && base + m <= |a| && 0 <= n && 0 <= k && n + k <= m
    ensures a[base..base + m][n..n + k] == a[base + n..base + n + k]
  {
    var left, right := a[base..base + m][n..n + k], a[base + n..base + n + k];
    forall i | 0 <= i < k ensures left[i] == right[i] { assert a[base..base + m][n + i] == a[base + n + i]; }
  }

  lemma PointersKept(a: seq<Byte>, b: seq<Byte>, t: int, base: int, ss: seq<seq<Byte>>, j0: int, n: int, i: int, v: int)
    requires Pointers(a, t, base, ss, j0, n) && t + 4 * n <= i && i + 4 <= |a| && i % 4 == 0 && t % 4 == 0
    requires 0 <= v < WORD && b == WithWord(a, i, v)
    ensures Pointers(b, t, base, ss, j0, n)
  {
    hide Flat, Word, WithWord;
    forall j | 0 <= j < n ensures WordAt(b, t, j) == WordAt(a, t, j) { WordOf(a, i, v, t + 4 * j); }
  }

  lemma PointersMore(a: seq<Byte>, b: seq<Byte>, t: int, base: int, ss: seq<seq<Byte>>, j0: int, n: int)
    requires Pointers(a, t, base, ss, j0, n) && t + 4 * n + 4 <= |a| && t % 4 == 0 && j0 + n < |ss|
    requires var v := STACK_BASE + base + |Flat(ss[..j0 + n])|; 0 <= v < WORD && b == WithWord(a, t + 4 * n, v)
    ensures Pointers(b, t, base, ss, j0, n + 1)
  {
    hide Flat, Word, WithWord;
    var v := STACK_BASE + base + |Flat(ss[..j0 + n])|;
    forall j | 0 <= j < n + 1 ensures WordAt(b, t, j) == if j == n then v else WordAt(a, t, j) {
      WordOf(a, t + 4 * n, v, t + 4 * j);
    }
  }

  lemma OutsideMore(was: seq<Byte>, a: seq<Byte>, b: seq<Byte>, t: int, i: int, v: int)
    requires SameOutside(was, a, t, i) && t <= i && 0 <= i && i + 4 <= |a| && 0 <= v < WORD && b == WithWord(a, i, v)
    ensures SameOutside(was, b, t, i + 4) && SameOutside(a, b, i, i + 4)
  {}

  // The first j pointers of a table at t are there, and nothing else has changed.
  ghost predicate Filling(was: seq<Byte>, a: seq<Byte>, mapped: seq<bool>, t: int, base: int, ss: seq<seq<Byte>>,
          j0: int, j: int) {
    && Holds(a, base, ss) && SameOutside(was, a, t, t + 4 * j) && Pointers(a, t, base, ss, j0, j)
      && WordsCovered(mapped, t, j)
    && |mapped| == PAGES && |a| == AREA
  }

  lemma TableStart(a: seq<Byte>, mapped: seq<bool>, t: int, base: int, ss: seq<seq<Byte>>, j0: int)
    requires Holds(a, base, ss) && 0 <= t <= base && 0 <= j0 <= |ss| && |mapped| == PAGES && |a| == AREA
    ensures Filling(a, a, mapped, t, base, ss, j0, 0)
  {}

  lemma FillingHolds(was: seq<Byte>, a: seq<Byte>, mapped: seq<bool>, t: int, base: int, ss: seq<seq<Byte>>, j0: int,
          j: int)
    requires Filling(was, a, mapped, t, base, ss, j0, j)
    ensures Holds(a, base, ss)
  {}

  lemma FillingOutside(was: seq<Byte>, a: seq<Byte>, mapped: seq<bool>, t: int, base: int, ss: seq<seq<Byte>>,
          j0: int, j: int, n: int)
    requires Filling(was, a, mapped, t, base, ss, j0, j) && 0 <= j < n && !HasPage(mapped, t + 4 * j)
    ensures SameOutside(was, a, t, t + 4 * (n + 1)) && !WordsCovered(mapped, t, n + 1)
  {}

  lemma FillMore(was: seq<Byte>, a: seq<Byte>, b: seq<Byte>, mapped: seq<bool>, t: int, base: int,
          ss: seq<seq<Byte>>, j0: int, j: int)
    requires Filling(was, a, mapped, t, base, ss, j0, j) && 0 <= t && t % 4 == 0 && 0 <= j && t + 4 * (j + 1) <= base
    requires j0 + j < |ss|
    requires HasPage(mapped, t + 4 * j)
    requires var v := STACK_BASE + base + |Flat(ss[..j0 + j])|; 0 <= v < WORD && b == WithWord(a, t + 4 * j, v)
    ensures Filling(was, b, mapped, t, base, ss, j0, j + 1)
  {
    hide Flat, Word, WithWord;
    PointersMore(a, b, t, base, ss, j0, j);
    OutsideMore(was, a, b, t, t + 4 * j, STACK_BASE + base + |Flat(ss[..j0 + j])|);
    HoldsKept(a, b, base, ss, t + 4 * j, t + 4 * j + 4);
  }

  lemma TableEnd(was: seq<Byte>, a: seq<Byte>, b: seq<Byte>, mapped: seq<bool>, t: int, base: int,
          ss: seq<seq<Byte>>, j0: int, n: int, ok: bool)
    requires Filling(was, a, mapped, t, base, ss, j0, n) && 0 <= t && t % 4 == 0 && 0 <= n && t + 4 * (n + 1) <= base
    requires ok == HasPage(mapped, t + 4 * n) && b == if ok then WithWord(a, t + 4 * n, 0) else a
    ensures SameOutside(was, b, t, t + 4 * (n + 1)) && (ok <==> WordsCovered(mapped, t, n + 1))
    ensures ok ==> Pointers(b, t, base, ss, j0, n) && Word(b, t + 4 * n) == 0
  {
    hide Flat, Word, WithWord;
    if ok {
      PointersKept(a, b, t, base, ss, j0, n, t + 4 * n, 0);
      OutsideMore(was, a, b, t, t + 4 * n, 0);
      WordOf(a, t + 4 * n, 0, t + 4 * n);
    }
  }

  // ---- the finished tables
  // where create_tables puts the stack pointer
  function StackFor(p: int, argc: int, envc: int): int { p / 4 * 4 - 4 * (argc + envc + 5) }
  // the tables are in the same page as the lowest string
  predicate OnePage(p: int, argc: int, envc: int) { p < TOP && PageOf(StackFor(p, argc, envc)) == PageOf(p) }

  ghost predicate Header(a: seq<Byte>, sp: int, argv: int, envp: int, argc: int) {
    0 <= sp && sp + 12 <= |a| && WordAt(a, sp, 0) == argc && WordAt(a, sp, 1) == STACK_BASE + argv
      && WordAt(a, sp, 2) == STACK_BASE + envp
  }

  // At sp are argc, the addresses of the two tables, and the tables, each with a zero at the end.
  ghost predicate Tables(a: seq<Byte>, sp: int, p: int, ss: seq<seq<Byte>>, argc: int) {
    var argv := sp + 12;
    var envp := argv + 4 * (argc + 1);
    0 <= argc <= |ss| && Header(a, sp, argv, envp, argc) && Holds(a, p, ss) && envp + 4 * (|ss| - argc + 1) <= |a|
    && Pointers(a, argv, p, ss, 0, argc) && WordAt(a, argv, argc) == 0
    && Pointers(a, envp, p, ss, argc, |ss| - argc) && WordAt(a, envp, |ss| - argc) == 0
  }

  lemma {:induction false} FlatLong(ss: seq<seq<Byte>>)
    ensures |ss| <= |Flat(ss)|
  { if ss != [] { FlatLong(ss[1..]); } }

  lemma WordMissing(mapped: seq<bool>, t: int, n: int, j: int)
    requires 0 <= j < n && !HasPage(mapped, t + 4 * j)
    ensures !WordsCovered(mapped, t, n)
  {}

  lemma CoveredParts(mapped: seq<bool>, t: int, m: int, n: int)
    requires 0 <= m && 0 <= n
    ensures WordsCovered(mapped, t, m + n) <==> WordsCovered(mapped, t, m) && WordsCovered(mapped, t + 4 * m, n)
  {
    if WordsCovered(mapped, t, m + n) {
      forall j | 0 <= j < n ensures HasPage(mapped, t + 4 * m + 4 * j) { assert HasPage(mapped, t + 4 * (m + j)); }
    } else if WordsCovered(mapped, t + 4 * m, n) {
      var j :| 0 <= j < m + n && !HasPage(mapped, t + 4 * j);
      assert j >= m ==> HasPage(mapped, t + 4 * m + 4 * (j - m));
    }
  }

  lemma CoveredAbove(mapped: seq<bool>, t: int, n: int)
    requires 0 < n && WordsCovered(mapped, t, n)
    ensures 0 <= t
  { assert HasPage(mapped, t + 4 * 0); }

  lemma TablesCovered(mapped: seq<bool>, p: int, argc: int, envc: int)
    requires 0 <= p <= TOP && |mapped| == PAGES && 0 <= argc && 0 <= envc
    requires forall g :: 0 <= g < PAGES ==> mapped[g] == (Low(p) <= g)
    ensures WordsCovered(mapped, StackFor(p, argc, envc), argc + envc + 5) <==> OnePage(p, argc, envc)
  {
    var sp, n := StackFor(p, argc, envc), argc + envc + 5;
    if OnePage(p, argc, envc) {
      forall j | 0 <= j < n ensures HasPage(mapped, sp + 4 * j) {
        assert PageOf(sp) <= PageOf(sp + 4 * j) <= PageOf(p);
      }
    } else {
      assert WordsCovered(mapped, sp, n) ==> HasPage(mapped, sp + 4 * 0);
    }
  }

  lemma ThreeWords(was: seq<Byte>, a: seq<Byte>, b: seq<Byte>, c: seq<Byte>, t: int, x: int, y: int, z: int)
    requires 0 <= t && t % 4 == 0 && t + 12 <= |was| && 0 <= x < WORD && 0 <= y < WORD && 0 <= z < WORD
    requires a == WithWord(was, t + 8, z) && b == WithWord(a, t + 4, y) && c == WithWord(b, t, x)
    ensures SameOutside(was, c, t, t + 12) && WordAt(c, t, 0) == x && WordAt(c, t, 1) == y && WordAt(c, t, 2) == z
  {
    WordOf(b, t, x, t);
    WordOf(b, t, x, t + 4);
    WordOf(b, t, x, t + 8);
    WordOf(a, t + 4, y, t + 4);
    WordOf(a, t + 4, y, t + 8);
    WordOf(was, t + 8, z, t + 8);
    hide Word;
  }

  lemma WordKept(a: seq<Byte>, b: seq<Byte>, lo: int, hi: int, t: int, j: int)
    requires SameOutside(a, b, lo, hi) && 0 <= t && 0 <= j && t + 4 * j + 4 <= |a| && (t + 4 * j + 4 <= lo || hi <= t)
    ensures WordAt(b, t, j) == WordAt(a, t, j)
  {}

  lemma NotMany(a: seq<Byte>, p: int, ss: seq<seq<Byte>>)
    requires Holds(a, p, ss)
    ensures |ss| <= AREA
  { FlatLong(ss); }

  lemma ThreeCovered(mapped: seq<bool>, t: int)
    requires HasPage(mapped, t) && HasPage(mapped, t + 4) && HasPage(mapped, t + 8)
    ensures WordsCovered(mapped, t, 3) && 0 <= t
  {}

  lemma PointersBefore(a: seq<Byte>, b: seq<Byte>, lo: int, hi: int, t: int, base: int, ss: seq<seq<Byte>>, j0: int,
          n: int)
    requires Pointers(a, t, base, ss, j0, n) && SameOutside(a, b, lo, hi) && t + 4 * n <= lo
    ensures Pointers(b, t, base, ss, j0, n)
  {
    hide Flat, Word;
    forall j | 0 <= j < n ensures WordAt(b, t, j) == WordAt(a, t, j) { WordKept(a, b, lo, hi, t, j); }
  }

  lemma HeaderBefore(a: seq<Byte>, b: seq<Byte>, lo: int, hi: int, sp: int, argv: int, envp: int, argc: int)
    requires Header(a, sp, argv, envp, argc) && SameOutside(a, b, lo, hi) && sp + 12 <= lo
    ensures Header(b, sp, argv, envp, argc)
  {}

  lemma OutsideThrough(a: seq<Byte>, b: seq<Byte>, c: seq<Byte>, lo: int, mid: int, hi: int)
    requires SameOutside(a, b, lo, mid) && SameOutside(b, c, mid, hi) && lo <= mid <= hi
    ensures SameOutside(a, c, lo, hi)
  {}

  lemma TablesDone(was: seq<Byte>, a: seq<Byte>, b: seq<Byte>, c: seq<Byte>, sp: int, argv: int, envp: int, top: int,
          p: int, ss: seq<seq<Byte>>, argc: int)
    requires |b| == |c| == AREA && 0 <= argc <= |ss| && 0 <= sp && argv == sp + 12 && envp == argv + 4 * (argc + 1)
    requires top == envp + 4 * (|ss| - argc + 1)
    requires top <= p <= AREA && SameOutside(was, a, sp, argv) && SameOutside(a, b, argv, envp)
    requires SameOutside(b, c, envp, top)
    requires Header(a, sp, argv, envp, argc) && Holds(b, p, ss)
    requires Pointers(b, argv, p, ss, 0, argc) && WordAt(b, argv, argc) == 0
    requires Pointers(c, envp, p, ss, argc, |ss| - argc) && WordAt(c, envp, |ss| - argc) == 0
    ensures Tables(c, sp, p, ss, argc) && SameOutside(was, c, sp, p)
  {
    hide Flat, Word, WordAt, Holds, Pointers, Header, SameOutside;
    HoldsKept(b, c, p, ss, envp, top);
    HeaderBefore(a, b, argv, envp, sp, argv, envp, argc);
    HeaderBefore(b, c, envp, top, sp, argv, envp, argc);
    PointersBefore(b, c, envp, top, argv, p, ss, 0, argc);
    WordKept(b, c, envp, top, argv, argc);
    OutsideThrough(was, a, b, sp, argv, envp);
    OutsideThrough(was, b, c, sp, envp, top);
    OutsideMoreRoom(was, c, sp, top, p);
  }

  lemma OutsideMoreRoom(a: seq<Byte>, b: seq<Byte>, lo: int, hi: int, hi': int)
    requires SameOutside(a, b, lo, hi) && hi <= hi'
    ensures SameOutside(a, b, lo, hi')
  {}

  // ---- what the new program finds
  datatype Start = NoMemory | Overran | Killed | Started(sp: int)

  // What becomes of an exec with that many bytes of arguments and environment, given that many free pages: the pages
  // are counted from the top, and the tables must be in the lowest of them. Strings that do not fit run over the end of
  // page[] if all its pages could be had, unless the environment fills it exactly.
  function Outcome(args: int, envs: int, argc: int, envc: int, free: int): Start {
    var p := TOP - args - envs;
    if p < 0 && envs != TOP && free >= PAGES then Overran
    else if p <= 0 || free < PAGES - Low(p) then NoMemory
    else if OnePage(p, argc, envc) then Started(STACK_BASE + StackFor(p, argc, envc))
    else Killed
  }

  ghost predicate StringAt(a: seq<Byte>, address: int, s: seq<Byte>) {
    var i := address - STACK_BASE;
    0 <= i && i + |s| < |a| && a[i..i + |s| + 1] == s + [0]
  }

  // a table of pointers to these strings, with a zero at its end
  ghost predicate PointsTo(a: seq<Byte>, t: int, ss: seq<seq<Byte>>) {
    0 <= t && t + 4 * (|ss| + 1) <= |a| && WordAt(a, t, |ss|) == 0 && forall j :: 0 <= j < |ss| ==>
      StringAt(a, WordAt(a, t, j), ss[j])
  }

  // Following the words at sp as a program does, one gets argc, argv and envp.
  ghost predicate Gives(a: seq<Byte>, sp: int, argv: seq<seq<Byte>>, envp: seq<seq<Byte>>) {
    && 0 <= sp && sp + 12 <= |a| && WordAt(a, sp, 0) == |argv|
    && PointsTo(a, WordAt(a, sp, 1) - STACK_BASE, argv) && PointsTo(a, WordAt(a, sp, 2) - STACK_BASE, envp)
  }

  lemma {:induction false} FlatBoth(ss: seq<seq<Byte>>, tt: seq<seq<Byte>>)
    ensures Flat(ss + tt) == Flat(ss) + Flat(tt)
  {
    if ss == [] { assert ss + tt == tt; }
    else {
      FlatBoth(ss[1..], tt);
      assert (ss + tt)[1..] == ss[1..] + tt;
    }
  }

  lemma HoldsBoth(a: seq<Byte>, b: seq<Byte>, c: seq<Byte>, p: int, q: int, argv: seq<seq<Byte>>, envp: seq<seq<Byte>>)
    requires |a| == |b| == |c| == AREA && 0 <= p && p + |Flat(argv)| == q && q + |Flat(envp)| <= AREA
    requires Overwritten(a, b, q, Flat(envp)) && Overwritten(b, c, p, Flat(argv))
    ensures Holds(c, p, argv + envp)
  {
    FlatBoth(argv, envp);
    hide Flat;
    var whole := Flat(argv) + Flat(envp);
    forall i | 0 <= i < |whole| ensures c[p..p + |whole|][i] == whole[i] { assert c[p + i] == whole[i]; }
  }

  lemma PointersPoint(a: seq<Byte>, t: int, base: int, ss: seq<seq<Byte>>, j0: int, tt: seq<seq<Byte>>)
    requires Holds(a, base, ss) && 0 <= j0 && j0 + |tt| <= |ss| && ss[j0..j0 + |tt|] == tt
    requires Pointers(a, t, base, ss, j0, |tt|)
    requires t + 4 * (|tt| + 1) <= |a| && WordAt(a, t, |tt|) == 0
    ensures PointsTo(a, t, tt)
  {
    hide Flat, Word, Holds;
    forall j | 0 <= j < |tt| ensures StringAt(a, WordAt(a, t, j), tt[j]) {
      assert tt[j] == ss[j0 + j];
      HoldsOne(a, base, ss, j0 + j);
    }
  }

  lemma TablesGive(a: seq<Byte>, sp: int, p: int, argv: seq<seq<Byte>>, envp: seq<seq<Byte>>)
    requires Tables(a, sp, p, argv + envp, |argv|)
    ensures Gives(a, sp, argv, envp)
  {
    hide Flat, Word, Holds;
    var ss := argv + envp;
    assert ss[0..|argv|] == argv && ss[|argv|..|argv| + |envp|] == envp;
    PointersPoint(a, sp + 12, p, ss, 0, argv);
    PointersPoint(a, sp + 12 + 4 * (|argv| + 1), p, ss, |argv|, envp);
  }

  // In numbers: the tables must not take more of the lowest page than there is below the strings.
  lemma OnePageIs(p: int, argc: int, envc: int)
    requires 0 <= p < TOP && 0 <= argc && 0 <= envc
    ensures OnePage(p, argc, envc) <==> 4 * (argc + envc + 5) <= p % PAGE
  {}

  // So no program starts with more than 1018 strings, and none without any.
  lemma StartedIs(args: int, envs: int, argc: int, envc: int, free: int)
    requires 0 <= args && 0 <= envs && 0 <= argc && 0 <= envc && Outcome(args, envs, argc, envc, free).Started?
    ensures 0 < args + envs < TOP && argc + envc <= 1018 && free >= 1
  {}

  // One argument of 4091 characters, and memory enough.
  lemma LongArgument(s: seq<Byte>)
    requires |s| == 4091
    ensures Outcome(|Flat([s])|, |Flat([])|, 1, 0, PAGES) == Killed
  {}

  // One argument of 131068 characters, and memory enough: page[] is written past its end.
  lemma TooLongArgument(s: seq<Byte>)
    requires |s| == TOP
    ensures Outcome(|Flat([s])|, |Flat([])|, 1, 0, PAGES) == Overran
  {}
}
