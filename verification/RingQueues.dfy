// Rings of bytes with a head and a tail, one place always free: the pipe page (include/linux/fs.h) and the queues of a
// terminal (include/linux/tty.h). The sizes are powers of two there, so that the masks keep indices in range.
module RingQueues {
  import opened Bytes

  // an index that has gone at most once past the end
  function Wrap(x: int, n: int): int { if x >= n then x - n else x }
  function Size(n: int, head: int, tail: int): int { if head >= tail then head - tail else head - tail + n }

  // The bytes from tail up to head, in the order they were put.
  function Items(buf: seq<Byte>, tail: int, size: int): (s: seq<Byte>)
    requires 0 <= tail < |buf| && 0 <= size <= |buf|
    ensures |s| == size
  { seq(size, i requires 0 <= i < size => buf[Wrap(tail + i, |buf|)]) }

  lemma ItemsAre(buf: seq<Byte>, tail: int, size: int)
    requires 0 <= tail < |buf| && 0 <= size <= |buf|
    ensures forall i :: 0 <= i < size ==> Items(buf, tail, size)[i] == buf[Wrap(tail + i, |buf|)]
  {}

  lemma ItemsTail(buf: seq<Byte>, tail: int, size: int, n: int)
    requires 0 <= tail < |buf| && 0 <= n <= size < |buf|
    ensures Items(buf, Wrap(tail + n, |buf|), size - n) == Items(buf, tail, size)[n..]
  {
    ItemsAre(buf, tail, size);
    ItemsAre(buf, Wrap(tail + n, |buf|), size - n);
    var s := Items(buf, tail, size);
    forall i | 0 <= i < size - n ensures Items(buf, Wrap(tail + n, |buf|), size - n)[i] == s[n..][i] {
      assert s[n..][i] == s[n + i];
    }
  }

  // A run of bytes that does not pass the end.
  lemma ItemsRun(buf: seq<Byte>, tail: int, size: int, n: int)
    requires 0 <= tail < |buf| && 0 <= n <= size < |buf| && tail + n <= |buf|
    ensures buf[tail..tail + n] == Items(buf, tail, size)[..n]
  { ItemsAre(buf, tail, size); }

  // Bytes stored at the head, within the end, are appended.
  lemma ItemsAppend(buf: seq<Byte>, buf': seq<Byte>, tail: int, size: int, data: seq<Byte>)
    requires |buf'| == |buf| && 0 <= tail < |buf| && 0 <= size && size + |data| < |buf|
    requires Overwritten(buf, buf', Wrap(tail + size, |buf|), data)
    ensures Items(buf', tail, size + |data|) == Items(buf, tail, size) + data
  {
    ItemsAre(buf, tail, size);
    ItemsAre(buf', tail, size + |data|);
    var s := Items(buf, tail, size) + data;
    forall i | 0 <= i < size + |data| ensures Items(buf', tail, size + |data|)[i] == s[i] {}
  }

  lemma ItemsFront(buf: seq<Byte>, tail: int, size: int)
    requires 0 <= tail < |buf| && 0 < size < |buf|
    ensures Items(buf, tail, size - 1) == Items(buf, tail, size)[..size - 1]
    ensures Items(buf, tail, size)[size - 1] == buf[Wrap(tail + size - 1, |buf|)]
  {
    ItemsAre(buf, tail, size);
    ItemsAre(buf, tail, size - 1);
  }

  class Queue {
    const buf: array<Byte>
    var head: int
    var tail: int

    ghost predicate Valid() reads this { buf.Length >= 2 && 0 <= head < buf.Length && 0 <= tail < buf.Length }

    function Chars(): (n: int)
      requires Valid()
      reads this
      ensures 0 <= n < buf.Length && Wrap(tail + n, buf.Length) == head
    { Size(buf.Length, head, tail) }

    function Left(): (n: int)
      requires Valid()
      reads this
      ensures 0 <= n == buf.Length - 1 - Chars()
    { if tail > head then tail - head - 1 else tail - head - 1 + buf.Length }

    ghost function Contents(): (s: seq<Byte>)
      requires Valid()
      reads this, buf
      ensures |s| == Chars()
    { Items(buf[..], tail, Chars()) }

    constructor (n: int)
      requires n >= 2
      ensures Valid() && fresh(buf) && buf.Length == n && Contents() == []
    {
      buf := new Byte[n](_ => 0);
      head, tail := 0, 0;
    }

    // PUTCH on a queue that is not full
    method PutCh(c: Byte)
      requires Valid() && Left() > 0
      modifies this`head, buf
      ensures Valid() && Contents() == old(Contents()) + [c]
    { Put([c]); }

    // GETCH on a queue that is not empty
    method GetCh() returns (c: Byte)
      requires Valid() && Chars() > 0
      modifies this`tail
      ensures Valid() && old(Contents()) == [c] + Contents()
    {
      var data := Take(1);
      c := data[0];
    }

    // LAST
    method Last() returns (c: Byte)
      requires Valid() && Chars() > 0
      ensures c == Contents()[|Contents()| - 1]
    {
      ItemsFront(buf[..], tail, Chars());
      c := buf[if head == 0 then buf.Length - 1 else head - 1];
    }

    // DEC(head)
    method DropLast()
      requires Valid() && Chars() > 0
      modifies this`head
      ensures Valid() && Contents() == old(Contents())[..|old(Contents())| - 1]
    {
      ItemsFront(buf[..], tail, Chars());
      head := if head == 0 then buf.Length - 1 else head - 1;
    }

    // A stretch of bytes up to the end of the ring.
    method Take(n: int) returns (data: seq<Byte>)
      requires Valid() && 0 < n <= buf.Length - tail && n <= Chars()
      modifies this`tail
      ensures Valid() && |data| == n && old(Contents()) == data + Contents()
    {
      ghost var size, s := Chars(), Contents();
      ItemsRun(buf[..], tail, size, n);
      ItemsTail(buf[..], tail, size, n);
      hide Items;
      data := buf[tail..tail + n];
      tail := Wrap(tail + n, buf.Length);
      assert s == s[..n] + s[n..];
    }

    method Put(data: seq<Byte>)
      requires Valid() && 0 < |data| <= buf.Length - head && |data| <= Left()
      modifies this`head, buf
      ensures Valid() && Contents() == old(Contents()) + data
    {
      hide Items;
      var at, i := head, 0;
      ghost var size, was := Chars(), buf[..];
      head := Wrap(head + |data|, buf.Length);
      ghost var now := head;
      while i < |data|
        invariant 0 <= i <= |data| && head == now && Overwritten(was, buf[..], at, data[..i])
      {
        buf[at + i] := data[i];
        i := i + 1;
      }
      assert data[..|data|] == data;
      ItemsAppend(was, buf[..], tail, size, data);
    }
  }
}
