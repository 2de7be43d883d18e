// Directories as the kernel searches and fills them (match, find_entry and add_entry in fs/namei.c), and as finite
// maps.
module Directories {
  import opened Bytes

  const NAME_LEN := 14
  const ENTRY := 16         // sizeof (struct dir_entry)
  const PER_BLOCK := 64     // DIR_ENTRIES_PER_BLOCK
  const DOT := 46

  type Field = s: seq<Byte> | |s| == NAME_LEN ghost witness seq(NAME_LEN, _ => 0)
  // inode 0 is a free entry
  datatype Entry = Entry(inode: int, name: Field)
  function ZeroEntry(): Entry { Entry(0, seq(NAME_LEN, _ => 0)) }

  function Cut(n: seq<Byte>): (m: seq<Byte>)
    ensures |m| <= NAME_LEN && (Proper(n) ==> Proper(m)) && (|m| == 0 <==> |n| == 0)
  { if |n| > NAME_LEN then n[..NAME_LEN] else n }

  function Padded(n: seq<Byte>): Field
    requires |n| <= NAME_LEN
  { seq(NAME_LEN, i => if 0 <= i < |n| then n[i] else 0) }

  // The name in an entry: the bytes before the first zero byte.
  function NameIn(f: seq<Byte>): (n: seq<Byte>)
    ensures |n| <= |f| && n == f[..|n|] && Proper(n) && (|n| < |f| ==> f[|n|] == 0)
  { if |f| == 0 || f[0] == 0 then [] else [f[0]] + NameIn(f[1..]) }

  lemma NameIs(f: seq<Byte>, n: seq<Byte>)
    requires |n| <= |f| && Proper(n)
    ensures NameIn(f) == n <==> n == f[..|n|] && (|n| < |f| ==> f[|n|] == 0)
  {
    var m := NameIn(f);
    assert forall i :: 0 <= i < |m| ==> m[i] == f[i];
    assert n == f[..|n|] ==> forall i :: 0 <= i < |n| ==> n[i] == f[i];
  }

  lemma NameOfPadded(n: seq<Byte>)
    requires |n| <= NAME_LEN && Proper(n)
    ensures NameIn(Padded(n)) == n
  {
    assert Padded(n)[..|n|] == n;
    NameIs(Padded(n), n);
  }

  // The live entries of a directory, as a map from names to inode numbers.
  predicate Live(es: seq<Entry>, i: int) { 0 <= i < |es| && es[i].inode != 0 }
  predicate Names(es: seq<Entry>, i: int, n: seq<Byte>) { Live(es, i) && NameIn(es[i].name) == n }
  ghost predicate NoDuplicates(es: seq<Entry>) { forall i, j, n :: Names(es, i, n) && Names(es, j, n) ==> i == j }

  ghost function Table(es: seq<Entry>): map<seq<Byte>, int> {
    map i | 0 <= i < |es| && Live(es, i) :: NameIn(es[i].name) := es[LastOf(es, NameIn(es[i].name), |es|)].inode
  }

  // the highest index below n that names the name, 0 if there is none
  ghost function LastOf(es: seq<Entry>, name: seq<Byte>, n: nat): (k: int)
    requires n <= |es| && |es| > 0
    ensures 0 <= k < |es| && ((exists i :: 0 <= i < n && Names(es, i, name)) ==> k < n && Names(es, k, name))
  { if n == 0 then 0 else if Names(es, n - 1, name) then n - 1 else LastOf(es, name, n - 1) }

  lemma TableHas(es: seq<Entry>, i: int, n: seq<Byte>)
    requires NoDuplicates(es) && Names(es, i, n)
    ensures n in Table(es) && Table(es)[n] == es[i].inode
  {
    var k := LastOf(es, n, |es|);
    assert Names(es, k, n);
  }

  lemma TableOnly(es: seq<Entry>, n: seq<Byte>)
    requires n in Table(es)
    ensures exists i :: Names(es, i, n)
  { var i :| 0 <= i < |es| && Live(es, i) && NameIn(es[i].name) == n; assert Names(es, i, n); }

  // A map with the same names and numbers is the same map.
  lemma TableIs(es: seq<Entry>, t: map<seq<Byte>, int>)
    requires NoDuplicates(es)
    requires forall i, n :: Names(es, i, n) ==> n in t && t[n] == es[i].inode
    requires forall n :: n in t ==> exists i :: Names(es, i, n)
    ensures Table(es) == t
  {
    forall n | n in Table(es) ensures n in t && t[n] == Table(es)[n] {
      TableOnly(es, n);
      var i :| Names(es, i, n);
      TableHas(es, i, n);
    }
    forall n | n in t ensures n in Table(es) {
      var i :| Names(es, i, n);
      TableHas(es, i, n);
    }
  }

  // ---- insertion: into the first free entry, or at the end
  function FirstFree(es: seq<Entry>, i: nat): (k: int)
    requires i <= |es|
    ensures i <= k <= |es| && (k < |es| ==> es[k].inode == 0) && forall j :: i <= j < k ==> es[j].inode != 0
    decreases |es| - i
  { if i == |es| || es[i].inode == 0 then i else FirstFree(es, i + 1) }

  function Enter(es: seq<Entry>, name: seq<Byte>, ino: int): seq<Entry> {
    var k, e := FirstFree(es, 0), Entry(ino, Padded(Cut(name)));
    if k < |es| then es[k := e] else es + [e]
  }

  function Erase(es: seq<Entry>, k: int): seq<Entry> requires 0 <= k < |es| { es[k := es[k].(inode := 0)] }

  lemma EnterNames(es: seq<Entry>, name: seq<Byte>, ino: int, i: int, n: seq<Byte>)
    requires Proper(name) && ino != 0
    ensures Names(Enter(es, name, ino), i, n) <==> Names(es, i, n) || (i == FirstFree(es, 0) && n == Cut(name))
    ensures Names(es, i, n) ==> 0 <= i < |es| && i != FirstFree(es, 0)
  { NameOfPadded(Cut(name)); }

  // add_entry with the store of the inode number is insertion into the map,
  lemma EnterTable(es: seq<Entry>, name: seq<Byte>, ino: int)
    requires NoDuplicates(es) && Proper(name) && ino != 0 && Cut(name) !in Table(es)
    ensures NoDuplicates(Enter(es, name, ino)) && Table(Enter(es, name, ino)) == Table(es)[Cut(name) := ino]
  {
    hide Table, Names;
    var es', k, m := Enter(es, name, ino), FirstFree(es, 0), Cut(name);
    forall i, n ensures (Names(es', i, n) <==> Names(es, i, n) || (i == k && n == m))
      && (Names(es, i, n) ==> 0 <= i < |es| && i != k)
    {
      EnterNames(es, name, ino, i, n);
    }
    forall i ensures !Names(es, i, m) { if Names(es, i, m) { TableHas(es, i, m); } }
    var t := Table(es)[m := ino];
    EnterAt(es, name, ino);
    hide Enter;
    forall i, n | Names(es', i, n) ensures n in t && t[n] == es'[i].inode {
      if n != m { TableHas(es, i, n); }
    }
    forall n | n in t ensures exists i :: Names(es', i, n) {
      if n == m { assert Names(es', k, m); }
      else {
        TableOnly(es, n);
        var i :| Names(es, i, n);
        assert Names(es', i, n);
      }
    }
    TableIs(es', t);
  }

  lemma EnterAt(es: seq<Entry>, name: seq<Byte>, ino: int)
    ensures var es', k := Enter(es, name, ino), FirstFree(es, 0);
      && |es'| >= |es| && 0 <= k < |es'| && es'[k] == Entry(ino, Padded(Cut(name)))
        && (forall i :: 0 <= i < |es| && i != k ==> es'[i] == es[i])
      && |es'| == (if k < |es| then |es| else |es| + 1)
  {}

  // and the store of zero is deletion.
  lemma EraseTable(es: seq<Entry>, k: int, m: seq<Byte>)
    requires NoDuplicates(es) && Names(es, k, m)
    ensures NoDuplicates(Erase(es, k)) && Table(Erase(es, k)) == Table(es) - {m}
  {
    var es', t := Erase(es, k), Table(es) - {m};
    forall i, n ensures Names(es', i, n) <==> Names(es, i, n) && i != k {}
    hide Table, Names;
    forall i, n | Names(es', i, n) ensures n in t && t[n] == es'[i].inode {
      TableHas(es, i, n);
      EraseAt(es, k, i, n);
    }
    forall n | n in t ensures exists i :: Names(es', i, n) {
      TableOnly(es, n);
      var i :| Names(es, i, n);
      assert Names(es', i, n);
    }
    TableIs(es', t);
  }

  lemma EraseAt(es: seq<Entry>, k: int, i: int, n: seq<Byte>)
    requires 0 <= k < |es| && Names(Erase(es, k), i, n)
    ensures 0 <= i < |es| && Erase(es, k)[i].inode == es[i].inode
  {}

  // ---- the search and the insertion as the kernel does them
  // The entries below i_size, in the blocks of the directory; the rest of the last block is left over.
  class Directory {
    var size: int
    var data: seq<Entry>

    ghost predicate Valid()
      reads this
    {
      size % ENTRY == 0 && 0 <= size <= ENTRY * |data| && |data| % PER_BLOCK == 0 && |data| >= PER_BLOCK
    }

    ghost function Entries(): seq<Entry>
      requires Valid()
      reads this
    { data[..size / ENTRY] }

    // match, for a name of at most 14 bytes
    method Match(name: seq<Byte>, e: Entry) returns (same: bool)
      requires Proper(name) && |name| <= NAME_LEN
      ensures same <==> e.inode != 0 && NameIn(e.name) == name
    {
      NameIs(e.name, name);
      if e.inode == 0 { return false; }
      if |name| < NAME_LEN && e.name[|name|] != 0 { return false; }
      for i := 0 to |name|
        invariant forall j :: 0 <= j < i ==> name[j] == e.name[j]
      {
        if name[i] != e.name[i] {
          assert name[i] != e.name[..|name|][i];
          return false;
        }
      }
      assert name == e.name[..|name|];
      return true;
    }

    // find_entry; top says that this is the root of the process, where ".." is ".". -1: no such entry.
    method FindEntry(name: seq<Byte>, top: bool) returns (k: int)
      requires Valid() && Proper(name)
      ensures k == -1 ==> |name| == 0 || forall i :: !Names(Entries(), i, Wanted(name, top))
      ensures k != -1 ==>
        Names(Entries(), k, Wanted(name, top)) && forall i :: i < k ==> !Names(Entries(), i, Wanted(name, top))
    {
      hide NameIn, Proper;
      var n := Cut(name);
      if |n| == 0 { return -1; }
      if n == [DOT, DOT] && top { n := n[..1]; }
      assert n == Wanted(name, top) && Proper(n) by { WantedProper(name, top); }
      k := 0;
      while k < size / ENTRY
        invariant 0 <= k <= size / ENTRY && forall i :: i < k ==> !Names(Entries(), i, n)
      {
        var same := Match(n, data[k]);
        if same { return; }
        k := k + 1;
      }
      return -1;
    }

    // add_entry; room says that create_block would find a block. -1: there is none, and every entry of every block is
    // taken. The inode number is left at 0.
    method AddEntry(name: seq<Byte>, room: bool) returns (k: int)
      requires Valid() && Proper(name)
      modifies this
      ensures Valid()
      ensures k == -1 <==> |name| == 0 || (!room && FirstFree(old(Entries()), 0) == |old(data)|)
      ensures k == -1 ==> Entries() == old(Entries())
      ensures k != -1 ==> k == FirstFree(old(Entries()), 0) && Entries() == Enter(old(Entries()), name, 0)
    {
      var n := Cut(name);
      if |n| == 0 { return -1; }
      k := 0;
      ghost var es := Entries();
      while true
        invariant Valid() && 0 <= k <= size / ENTRY && Entries() == es && data == old(data) && FirstFree(es, 0) >= k
        decreases size / ENTRY - k
      {
        if k == |data| {
          if !room { return -1; }
          data := data + seq(PER_BLOCK, _ => ZeroEntry());
        }
        if k * ENTRY >= size {
          data := data[k := data[k].(inode := 0)];
          size := (k + 1) * ENTRY;
          data := data[k := Entry(0, Padded(n))];
          assert Entries() == es + [Entry(0, Padded(n))];
          return;
        }
        if data[k].inode == 0 {
          data := data[k := Entry(0, Padded(n))];
          assert Entries() == es[k := Entry(0, Padded(n))];
          return;
        }
        k := k + 1;
      }
    }

    // What the callers do next: put the inode number, or zero, into the entry.
    method SetInode(k: int, ino: int)
      requires Valid() && 0 <= k < size / ENTRY
      modifies this
      ensures Valid() && Entries() == old(Entries())[k := old(Entries())[k].(inode := ino)]
    { data := data[k := data[k].(inode := ino)]; }
  }

  lemma WantedProper(name: seq<Byte>, top: bool)
    requires Proper(name)
    ensures Proper(Wanted(name, top)) && |Wanted(name, top)| <= NAME_LEN
  {}
  function Wanted(name: seq<Byte>, top: bool): seq<Byte> { if Cut(name) == [DOT, DOT] && top then [DOT] else Cut(name) }
}
