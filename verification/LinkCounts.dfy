// The directory tree and its link counts under create, link, unlink, mkdir and rmdir (fs/namei.c).
module LinkCounts {
  import opened Bytes
  import opened Directories

  // dirs: the entries of each directory; nlinks: i_nlinks, an unsigned char, of every allocated inode
  datatype Tree = Tree(dirs: map<int, seq<Entry>>, nlinks: map<int, int>, root: int)
  datatype Ref = Ref(d: int, i: int)

  const DOTS: seq<Byte> := [DOT, DOT]
  const SELF: seq<Byte> := [DOT]

  // the entries of a directory
  function In(t: Tree, d: int): seq<Entry> { if d in t.dirs then t.dirs[d] else [] }
  predicate RefersTo(t: Tree, r: Ref, n: int) {
    r.d in t.dirs && 0 <= r.i < |t.dirs[r.d]| && t.dirs[r.d][r.i].inode == n
  }
  // the entries that name inode n
  ghost function Refs(t: Tree, n: int): set<Ref> {
    set d, i | d in t.dirs && 0 <= i < |t.dirs[d]| && t.dirs[d][i].inode == n :: Ref(d, i)
  }

  lemma RefsAre(t: Tree, r: Ref, n: int)
    ensures r in Refs(t, n) <==> RefersTo(t, r, n)
  {}

  ghost predicate Sound(t: Tree) {
    t.root in t.dirs && 0 !in t.nlinks && t.dirs.Keys <= t.nlinks.Keys && Unique(t) && Dotted(t) && Allocated(t)
  }
  ghost predicate Unique(t: Tree) { forall d :: d in t.dirs ==> NoDuplicates(t.dirs[d]) }
  ghost predicate Dotted(t: Tree) { forall d :: d in t.dirs ==> HasDots(t, d) }
  ghost predicate Allocated(t: Tree) { forall r, n :: RefersTo(t, r, n) && n != 0 ==> n in t.nlinks }

  // "." and "..", which names a directory
  ghost predicate HasDots(t: Tree, d: int)
    requires d in t.dirs
  {
    var es := t.dirs[d];
    |es| >= 2 && es[0].inode == d && NameIn(es[0].name) == SELF && NameIn(es[1].name) == DOTS && es[1].inode in t.dirs
  }

  function Parent(t: Tree, d: int): int { if d in t.dirs && |t.dirs[d]| >= 2 then t.dirs[d][1].inode else 0 }
  // r is an entry, not "." or "..", for directory c
  predicate Branch(t: Tree, r: Ref, c: int) { RefersTo(t, r, c) && r.i >= 2 && c in t.dirs }

  // Following ".." from c leads to the root in k steps.
  predicate Climbs(t: Tree, c: int, k: nat)
    decreases k
  {
    if k == 0 then c == t.root else c in t.dirs && Climbs(t, Parent(t, c), k - 1)
  }
  ghost predicate Rooted(t: Tree, c: int) { exists k: nat :: Climbs(t, c, k) }

  // Every directory but the root has one entry, that is in its parent, and parents lead to the root.
  ghost predicate Treelike(t: Tree) {
    && Parent(t, t.root) == t.root
    && (forall r, c :: Branch(t, r, c) ==> r.d == Parent(t, c) && c != t.root)
    && (forall r, q, c :: Branch(t, r, c) && Branch(t, q, c) ==> r == q)
    && (forall c :: c in t.dirs && c != t.root ==> exists r :: Branch(t, r, c))
    && (forall c :: c in t.dirs ==> Rooted(t, c))
  }

  // A climb goes the same way in a tree in which the parents on it are the same.
  lemma {:induction false} ClimbsToo(t: Tree, t': Tree, c: int, k: nat)
    requires Climbs(t, c, k) && t'.root == t.root && (c == t.root || c in t'.dirs)
    requires forall e :: e in t.dirs && e in t'.dirs ==>
      Parent(t', e) == Parent(t, e) && (Parent(t, e) in t.dirs ==> Parent(t, e) in t'.dirs)
    requires t.root in t.dirs && t.root in t'.dirs
    ensures Climbs(t', c, k)
    decreases k
  {
    if k > 0 {
      var p := Parent(t, c);
      assert p == t.root || p in t.dirs;
      ClimbsToo(t, t', p, k - 1);
    }
  }

  lemma RootedToo(t: Tree, t': Tree, c: int)
    requires Rooted(t, c) && t'.root == t.root && (c == t.root || c in t'.dirs)
    requires forall e :: e in t.dirs && e in t'.dirs ==>
      Parent(t', e) == Parent(t, e) && (Parent(t, e) in t.dirs ==> Parent(t, e) in t'.dirs)
    requires t.root in t.dirs && t.root in t'.dirs
    ensures Rooted(t', c)
  {
    hide Climbs, Parent;
    var k: nat :| Climbs(t, c, k);
    ClimbsToo(t, t', c, k);
  }

  ghost predicate Counted(t: Tree) { forall n :: n in t.nlinks ==> t.nlinks[n] == |Refs(t, n)| < 256 }
  ghost predicate Inv(t: Tree) { Sound(t) && Treelike(t) && Counted(t) }

  // ---- one entry changes
  function InodeAt(es: seq<Entry>, k: int): int { if 0 <= k < |es| then es[k].inode else 0 }

  ghost predicate OneEntry(t: Tree, t': Tree, d: int, k: int) {
    && d in t.dirs && t'.dirs.Keys == t.dirs.Keys && 0 <= k < |t'.dirs[d]|
      && |t.dirs[d]| <= |t'.dirs[d]| <= |t.dirs[d]| + 1 && k <= |t.dirs[d]|
    && (|t'.dirs[d]| > |t.dirs[d]| ==> k == |t.dirs[d]|)
    && (forall e :: e in t.dirs && e != d ==> t'.dirs[e] == t.dirs[e])
    && (forall i :: 0 <= i < |t.dirs[d]| && i != k ==> t'.dirs[d][i] == t.dirs[d][i])
  }

  lemma OneRef(t: Tree, t': Tree, d: int, k: int, r: Ref, n: int)
    requires OneEntry(t, t', d, k)
    ensures RefersTo(t', r, n) <==> if r == Ref(d, k) then t'.dirs[d][k].inode == n else RefersTo(t, r, n)
  {}

  lemma OneRefs(t: Tree, t': Tree, d: int, k: int, n: int)
    requires OneEntry(t, t', d, k) && n != 0
    ensures |Refs(t', n)| == |Refs(t, n)| - (if InodeAt(t.dirs[d], k) == n then 1 else 0)
      + (if t'.dirs[d][k].inode == n then 1 else 0)
  {
    hide Refs;
    var r := Ref(d, k);
    var base := Refs(t, n) - {r};
    forall x ensures x in Refs(t', n) <==> x in base || (x == r && t'.dirs[d][k].inode == n) {
      OneRef(t, t', d, k, x, n);
      RefsAre(t, x, n);
      RefsAre(t', x, n);
    }
    RefsAre(t, r, n);
    var was, now := InodeAt(t.dirs[d], k) == n, t'.dirs[d][k].inode == n;
    assert r in Refs(t, n) <==> was;
    hide OneEntry, RefersTo;
    assert Refs(t, n) == if was then base + {r} else base;
    assert Refs(t', n) == if now then base + {r} else base;
  }

  lemma OneDots(t: Tree, t': Tree, d: int, k: int, e: int)
    requires OneEntry(t, t', d, k) && k >= 2 && e in t.dirs && HasDots(t, e)
    ensures HasDots(t', e) && Parent(t', e) == Parent(t, e)
  {}

  // An entry that did not name a directory and does not now: the tree is as it was.
  lemma FileEntry(t: Tree, t': Tree, d: int, k: int)
    requires Sound(t) && Treelike(t) && OneEntry(t, t', d, k) && t'.root == t.root && k >= 2
    requires InodeAt(t.dirs[d], k) !in t.dirs && t'.dirs[d][k].inode !in t.dirs && NoDuplicates(t'.dirs[d])
    requires t.nlinks.Keys <= t'.nlinks.Keys && 0 !in t'.nlinks
    requires (t'.dirs[d][k].inode == 0 || t'.dirs[d][k].inode in t'.nlinks)
    ensures Sound(t') && Treelike(t')
  {
    FileSound(t, t', d, k);
    FileTree(t, t', d, k);
  }

  lemma FileSound(t: Tree, t': Tree, d: int, k: int)
    requires Sound(t) && OneEntry(t, t', d, k) && t'.root == t.root && k >= 2 && NoDuplicates(t'.dirs[d])
    requires t.nlinks.Keys <= t'.nlinks.Keys && 0 !in t'.nlinks
    requires (t'.dirs[d][k].inode == 0 || t'.dirs[d][k].inode in t'.nlinks)
    ensures Sound(t')
  {
    hide NoDuplicates, HasDots, RefersTo;
    forall e | e in t'.dirs ensures HasDots(t', e) { OneDots(t, t', d, k, e); }
    forall r, n | RefersTo(t', r, n) && n != 0 ensures n in t'.nlinks { OneRef(t, t', d, k, r, n); }
  }

  lemma FileTree(t: Tree, t': Tree, d: int, k: int)
    requires Sound(t) && Treelike(t) && OneEntry(t, t', d, k) && t'.root == t.root && k >= 2
    requires InodeAt(t.dirs[d], k) !in t.dirs && t'.dirs[d][k].inode !in t.dirs
    ensures Treelike(t')
  {
    hide Unique, Allocated, HasDots, Treelike, Parent;
    forall e | e in t'.dirs ensures Parent(t', e) == Parent(t, e) { OneDots(t, t', d, k, e); }
    hide Dotted;
    forall r, c ensures Branch(t', r, c) <==> Branch(t, r, c) { OneRef(t, t', d, k, r, c); }
    SameTree(t, t');
  }

  lemma SameTree(t: Tree, t': Tree)
    requires Treelike(t) && t'.root == t.root && t.root in t.dirs && t'.dirs.Keys == t.dirs.Keys
    requires forall e :: e in t.dirs ==> Parent(t', e) == Parent(t, e)
    requires forall r, c :: Branch(t', r, c) <==> Branch(t, r, c)
    ensures Treelike(t')
  {
    forall r, c | Branch(t, r, c) ensures c in t.dirs {}
    hide Parent, Branch, Rooted;
    forall c | c in t'.dirs && c != t'.root ensures exists r :: Branch(t', r, c) {
      var r :| Branch(t, r, c);
      assert Branch(t', r, c);
    }
    forall c | c in t'.dirs ensures Rooted(t', c) { RootedToo(t, t', c); }
  }

  function WithDir(t: Tree, d: int, es: seq<Entry>): Tree { t.(dirs := t.dirs[d := es]) }

  lemma EnterOne(t: Tree, d: int, name: seq<Byte>, ino: int)
    requires d in t.dirs && |t.dirs[d]| >= 2 && t.dirs[d][0].inode != 0 && t.dirs[d][1].inode != 0
    ensures var k, es' := FirstFree(t.dirs[d], 0), Enter(t.dirs[d], name, ino);
      OneEntry(t, WithDir(t, d, es'), d, k) && k >= 2 && InodeAt(t.dirs[d], k) == 0 && k < |es'| && es'[k].inode == ino
  {}

  lemma TwoDots(t: Tree, d: int)
    requires Sound(t) && d in t.dirs
    ensures |t.dirs[d]| >= 2 && t.dirs[d][0].inode == d && t.dirs[d][0].inode != 0 && t.dirs[d][1].inode in t.dirs
    ensures t.dirs[d][1].inode != 0
  {
    hide Unique, Allocated, NameIn;
    assert HasDots(t, d);
  }

  lemma EraseOne(t: Tree, d: int, k: int)
    requires d in t.dirs && 0 <= k < |t.dirs[d]|
    ensures OneEntry(t, WithDir(t, d, Erase(t.dirs[d], k)), d, k) && Erase(t.dirs[d], k)[k].inode == 0
  {}

  // A number that is not allocated is named nowhere.
  lemma Unnamed(t: Tree, n: int)
    requires Sound(t) && n !in t.nlinks && n != 0
    ensures Refs(t, n) == {}
  {
    hide Unique, Dotted, Refs;
    forall r ensures r !in Refs(t, n) { RefsAre(t, r, n); }
  }

  lemma Unused(t: Tree, n: int)
    requires Sound(t) && n !in t.nlinks
    ensures n !in t.dirs && 0 !in t.dirs && 0 !in t.nlinks
  {}

  predicate MayEnter(t: Tree, d: int, name: seq<Byte>) {
    d in t.dirs && Proper(name) && |name| > 0 && forall i :: 0 <= i < |t.dirs[d]| ==> !Names(t.dirs[d], i, Cut(name))
  }

  lemma NotInTable(es: seq<Entry>, n: seq<Byte>)
    requires forall i :: 0 <= i < |es| ==> !Names(es, i, n)
    ensures n !in Table(es)
  { if n in Table(es) { TableOnly(es, n); } }

  lemma SameEntries(t: Tree, t1: Tree, t': Tree, d: int, k: int)
    requires OneEntry(t, t1, d, k) && t'.dirs == t1.dirs
    ensures OneEntry(t, t', d, k)
  {}

  // A file gets an entry.
  lemma AddFile(t: Tree, t': Tree, d: int, name: seq<Byte>, ino: int)
    requires Sound(t) && Treelike(t) && d in t.dirs && MayEnter(t, d, name) && ino != 0 && ino !in t.dirs
    requires t'.dirs == t.dirs[d := Enter(t.dirs[d], name, ino)] && t'.root == t.root
    requires t.nlinks.Keys <= t'.nlinks.Keys && 0 !in t'.nlinks && ino in t'.nlinks
    ensures Sound(t') && Treelike(t') && Table(t'.dirs[d]) == Table(t.dirs[d])[Cut(name) := ino]
    ensures forall n :: n != 0 ==> |Refs(t', n)| == |Refs(t, n)| + if n == ino then 1 else 0
  {
    hide Enter, Table, NoDuplicates, Sound, Treelike, Refs, MayEnter, Cut, FirstFree, OneEntry;
    var k := FirstFree(t.dirs[d], 0);
    TwoDots(t, d);
    EnterUnique(t, d, name, ino);
    EnterOne(t, d, name, ino);
    NoZero(t);
    SameEntries(t, WithDir(t, d, Enter(t.dirs[d], name, ino)), t', d, k);
    FileEntry(t, t', d, k);
    forall n | n != 0 ensures |Refs(t', n)| == |Refs(t, n)| + if n == ino then 1 else 0 { OneRefs(t, t', d, k, n); }
  }

  lemma NoZero(t: Tree)
    requires Sound(t)
    ensures 0 !in t.dirs && 0 !in t.nlinks
  {}

  lemma EnterUnique(t: Tree, d: int, name: seq<Byte>, ino: int)
    requires Sound(t) && d in t.dirs && MayEnter(t, d, name) && ino != 0
    ensures NoDuplicates(Enter(t.dirs[d], name, ino))
    ensures Table(Enter(t.dirs[d], name, ino)) == Table(t.dirs[d])[Cut(name) := ino]
  {
    assert NoDuplicates(t.dirs[d]) by { hide Dotted, Allocated; }
    hide Sound, Enter, Table, NoDuplicates, Names, Cut;
    NotInTable(t.dirs[d], Cut(name));
    EnterTable(t.dirs[d], name, ino);
  }

  // ---- open with O_CREAT, and mknod: a new inode with one link
  function Create(t: Tree, d: int, name: seq<Byte>, ino: int): Tree
    requires d in t.dirs
  { WithDir(t, d, Enter(t.dirs[d], name, ino)).(nlinks := t.nlinks[ino := 1]) }

  lemma CreateInv(t: Tree, d: int, name: seq<Byte>, ino: int)
    requires Inv(t) && d in t.dirs && MayEnter(t, d, name) && ino != 0 && ino !in t.nlinks
    ensures Inv(Create(t, d, name, ino)) && Table(In(Create(t, d, name, ino), d)) == Table(In(t, d))[Cut(name) := ino]
  {
    hide Enter, Table, Sound, Treelike, Refs, MayEnter;
    Unnamed(t, ino);
    Unused(t, ino);
    AddFile(t, Create(t, d, name, ino), d, name, ino);
  }

  // ---- link: one more entry, one more link, in an unsigned char
  function Link(t: Tree, n: int, d: int, name: seq<Byte>): Tree
    requires d in t.dirs && n in t.nlinks
  { WithDir(t, d, Enter(t.dirs[d], name, n)).(nlinks := t.nlinks[n := (t.nlinks[n] + 1) % 256]) }

  // The count is right afterwards exactly if there were fewer than 255 links.
  lemma LinkInv(t: Tree, n: int, d: int, name: seq<Byte>)
    requires Inv(t) && d in t.dirs && MayEnter(t, d, name) && n in t.nlinks && n !in t.dirs
    ensures Sound(Link(t, n, d, name)) && Treelike(Link(t, n, d, name))
    ensures Table(In(Link(t, n, d, name), d)) == Table(In(t, d))[Cut(name) := n]
    ensures Inv(Link(t, n, d, name)) <==> t.nlinks[n] < 255
  {
    hide Enter, Table, Sound, Treelike, Refs, MayEnter, Cut;
    NoZero(t);
    var t' := Link(t, n, d, name);
    AddFile(t, t', d, name, n);
    assert t'.nlinks[n] == |Refs(t', n)| <==> t.nlinks[n] < 255;
  }

  // ---- unlink of something that is not a directory
  function Unlink(t: Tree, d: int, k: int): Tree
    requires d in t.dirs && 0 <= k < |t.dirs[d]| && t.dirs[d][k].inode in t.nlinks
  {
    var n := t.dirs[d][k].inode;
    WithDir(t, d, Erase(t.dirs[d], k)).(nlinks := t.nlinks[n := (if t.nlinks[n] == 0 then 1 else t.nlinks[n]) - 1])
  }

  lemma UnlinkInv(t: Tree, d: int, k: int, name: seq<Byte>)
    requires Inv(t) && d in t.dirs && Names(t.dirs[d], k, name) && t.dirs[d][k].inode !in t.dirs
    ensures t.dirs[d][k].inode in t.nlinks && t.nlinks[t.dirs[d][k].inode] > 0
    ensures Inv(Unlink(t, d, k)) && Table(In(Unlink(t, d, k), d)) == Table(In(t, d)) - {name}
  {
    hide Table, NoDuplicates, Sound, Treelike, Refs, OneEntry, Erase, NameIn;
    TwoDots(t, d);
    NamedAllocated(t, d, k);
    EraseUnique(t, d, k, name);
    EraseOne(t, d, k);
    NoZero(t);
    var t' := Unlink(t, d, k);
    SameEntries(t, WithDir(t, d, Erase(t.dirs[d], k)), t', d, k);
    FileEntry(t, t', d, k);
    forall x | x in t'.nlinks ensures t'.nlinks[x] == |Refs(t', x)| < 256 { OneRefs(t, t', d, k, x); }
  }

  lemma EraseUnique(t: Tree, d: int, k: int, name: seq<Byte>)
    requires Sound(t) && d in t.dirs && Names(t.dirs[d], k, name)
    ensures NoDuplicates(Erase(t.dirs[d], k)) && Table(Erase(t.dirs[d], k)) == Table(t.dirs[d]) - {name}
  {
    assert NoDuplicates(t.dirs[d]) by { hide Dotted, Allocated; }
    hide Sound, Table, NoDuplicates, Names;
    EraseTable(t.dirs[d], k, name);
  }

  lemma NamedIn(t: Tree, r: Ref, n: int)
    requires Sound(t) && RefersTo(t, r, n) && n != 0
    ensures n in t.nlinks
  {}

  // A live entry names an allocated inode, which so has a link.
  lemma NamedAllocated(t: Tree, d: int, k: int)
    requires Sound(t) && Counted(t) && d in t.dirs && Live(t.dirs[d], k)
    ensures t.dirs[d][k].inode in t.nlinks && t.nlinks[t.dirs[d][k].inode] > 0
  {
    hide Refs, Sound;
    var n := t.dirs[d][k].inode;
    NamedIn(t, Ref(d, k), n);
    RefsAre(t, Ref(d, k), n);
  }

  // ---- mkdir: a new inode with "." and "..", an entry for it, and one more link to the parent
  function NewDir(ino: int, d: int): seq<Entry> { [Entry(ino, Padded(SELF)), Entry(d, Padded(DOTS))] }
  function WithNew(t: Tree, ino: int, d: int): Tree {
    t.(dirs := t.dirs[ino := NewDir(ino, d)], nlinks := t.nlinks[ino := 2])
  }

  function Mkdir(t: Tree, d: int, name: seq<Byte>, ino: int): Tree
    requires d in t.dirs && d in t.nlinks
  {
    Tree(t.dirs[ino := NewDir(ino, d)][d := Enter(t.dirs[d], name, ino)],
      t.nlinks[ino := 2][d := (t.nlinks[d] + 1) % 256], t.root)
  }

  lemma NewDirOk(ino: int, d: int)
    requires ino != 0 && d != 0
    ensures var es := NewDir(ino, d);
      |es| == 2 && es[0].inode == ino && es[1].inode == d && NameIn(es[0].name) == SELF && NameIn(es[1].name) == DOTS
        && NoDuplicates(es)
  {
    NameOfPadded(SELF);
    NameOfPadded(DOTS);
    assert SELF != DOTS;
  }

  lemma NewRef(t: Tree, ino: int, d: int, r: Ref, n: int)
    requires ino !in t.dirs && n != 0
    ensures RefersTo(WithNew(t, ino, d), r, n) <==>
      RefersTo(t, r, n) || (r == Ref(ino, 0) && n == ino) || (r == Ref(ino, 1) && n == d)
    ensures RefersTo(t, r, n) ==> r.d != ino
  {}

  lemma NewRefs(t: Tree, ino: int, d: int, n: int)
    requires ino !in t.dirs && n != 0 && ino != d
    ensures |Refs(WithNew(t, ino, d), n)| == |Refs(t, n)| + (if n == ino || n == d then 1 else 0)
  {
    hide Refs, RefersTo, WithNew;
    var t1 := WithNew(t, ino, d);
    var x := if n == ino then Ref(ino, 0) else Ref(ino, 1);
    forall r ensures r in Refs(t1, n) <==> r in Refs(t, n) || (r == x && (n == ino || n == d)) {
      NewRef(t, ino, d, r, n);
      RefsAre(t, r, n);
      RefsAre(t1, r, n);
    }
    NewRef(t, ino, d, x, n);
    RefsAre(t, x, n);
    assert Refs(t1, n) == if n == ino || n == d then Refs(t, n) + {x} else Refs(t, n);
  }

  lemma NewSound(t: Tree, ino: int, d: int)
    requires Sound(t) && ino != 0 && ino !in t.nlinks && d in t.dirs
    ensures Sound(WithNew(t, ino, d)) && ino !in t.dirs && d != 0 && ino != d
  {
    hide Unique, Dotted, Allocated, WithNew;
    Unused(t, ino);
    NewUnique(t, ino, d);
    NewDotted(t, ino, d);
    NewAllocated(t, ino, d);
    NewKeys(t, ino, d);
  }

  lemma NewKeys(t: Tree, ino: int, d: int)
    ensures WithNew(t, ino, d).dirs.Keys == t.dirs.Keys + {ino}
    ensures WithNew(t, ino, d).nlinks.Keys == t.nlinks.Keys + {ino} && WithNew(t, ino, d).root == t.root
  {}

  lemma NewUnique(t: Tree, ino: int, d: int)
    requires Unique(t) && ino !in t.dirs && ino != 0 && d != 0
    ensures Unique(WithNew(t, ino, d))
  {
    hide NoDuplicates, NewDir;
    NewDirOk(ino, d);
  }

  lemma NewDotted(t: Tree, ino: int, d: int)
    requires Dotted(t) && ino !in t.dirs && ino != 0 && d in t.dirs && d != 0
    ensures Dotted(WithNew(t, ino, d))
  {
    hide NameIn, NewDir;
    NewDirOk(ino, d);
    var t1 := WithNew(t, ino, d);
    forall e | e in t1.dirs ensures HasDots(t1, e) { if e != ino { assert HasDots(t, e); } }
  }

  lemma NewAllocated(t: Tree, ino: int, d: int)
    requires Allocated(t) && ino !in t.dirs && d in t.nlinks
    ensures Allocated(WithNew(t, ino, d))
  {
    hide RefersTo;
    forall r, n | RefersTo(WithNew(t, ino, d), r, n) && n != 0 ensures n in WithNew(t, ino, d).nlinks {
      NewRef(t, ino, d, r, n);
    }
  }

  // The count of the parent is right afterwards exactly if it had fewer than 255 links.
  lemma MkdirInv(t: Tree, d: int, name: seq<Byte>, ino: int)
    requires Inv(t) && d in t.dirs && MayEnter(t, d, name) && ino != 0 && ino !in t.nlinks
    ensures d in t.nlinks && Sound(Mkdir(t, d, name, ino)) && Treelike(Mkdir(t, d, name, ino))
    ensures Table(In(Mkdir(t, d, name, ino), d)) == Table(In(t, d))[Cut(name) := ino]
    ensures Inv(Mkdir(t, d, name, ino)) <==> t.nlinks[d] < 255
  {
    hide Sound, Treelike, Refs, Enter, MayEnter, Table, NewDir, Cut;
    InDirs(t, d);
    var t1, t', k := WithNew(t, ino, d), Mkdir(t, d, name, ino), FirstFree(t.dirs[d], 0);
    MkdirSteps(t, d, name, ino);
    MkdirTree(t, d, name, ino);
    Unnamed(t, ino);
    forall n | n != 0 ensures |Refs(t', n)| == |Refs(t, n)| + (if n == d then 1 else if n == ino then 2 else 0) {
      NewRefs(t, ino, d, n);
      OneRefs(t1, t', d, k, n);
    }
    NoZero(t');
    assert t'.nlinks[d] == |Refs(t', d)| <==> t.nlinks[d] < 255;
  }

  lemma InDirs(t: Tree, d: int)
    requires Sound(t) && d in t.dirs
    ensures d in t.nlinks && d != 0
  {}

  ghost predicate Stepped(t1: Tree, t': Tree, d: int, k: int, ino: int) {
    && d in t1.dirs && d in t'.dirs && k >= 2 && InodeAt(t1.dirs[d], k) == 0 && InodeAt(t'.dirs[d], k) == ino
    && OneEntry(t1, t', d, k) && Sound(t1) && Sound(t')
  }

  lemma MkdirSteps(t: Tree, d: int, name: seq<Byte>, ino: int)
    requires Sound(t) && d in t.dirs && d in t.nlinks && MayEnter(t, d, name) && ino != 0 && ino !in t.nlinks
    ensures Stepped(WithNew(t, ino, d), Mkdir(t, d, name, ino), d, FirstFree(t.dirs[d], 0), ino)
    ensures ino !in t.dirs && ino != d && Table(Enter(t.dirs[d], name, ino)) == Table(t.dirs[d])[Cut(name) := ino]
  {
    hide Sound, Enter, MayEnter, Table, NewDir, Cut, NoDuplicates, OneEntry, FirstFree;
    var t1, t', k := WithNew(t, ino, d), Mkdir(t, d, name, ino), FirstFree(t.dirs[d], 0);
    NewSound(t, ino, d);
    TwoDots(t, d);
    EnterUnique(t, d, name, ino);
    EnterOne(t1, d, name, ino);
    SameEntries(t1, WithDir(t1, d, Enter(t.dirs[d], name, ino)), t', d, k);
    NoZero(t1);
    NewKeys(t, ino, d);
    FileSound(t1, t', d, k);
  }

  lemma MkdirTree(t: Tree, d: int, name: seq<Byte>, ino: int)
    requires Sound(t) && Treelike(t) && d in t.dirs && d in t.nlinks && MayEnter(t, d, name) && ino != 0
    requires ino !in t.nlinks
    ensures Treelike(Mkdir(t, d, name, ino))
  {
    hide Sound, Treelike, Enter, MayEnter, Table, NewDir, Cut, OneEntry, RefersTo;
    var t1, t', k := WithNew(t, ino, d), Mkdir(t, d, name, ino), FirstFree(t.dirs[d], 0);
    MkdirSteps(t, d, name, ino);
    NoZero(t);
    NoZero(t');
    RootIn(t);
    forall r, c ensures Branch(t', r, c) <==> Branch(t, r, c) || (r == Ref(d, k) && c == ino) {
      OneRef(t1, t', d, k, r, c);
      if c != 0 {
        NewRef(t, ino, d, r, c);
        NotNamed(t, r, ino);
        FreeRef(t1, d, k, c);
      }
    }
    forall e | e in t'.dirs ensures Parent(t', e) == if e == ino then d else Parent(t, e) {
      MkdirParent(t, d, name, ino, e);
    }
    hide Mkdir, WithNew, Parent, Branch;
    GrownTree(t, t', d, k, ino);
  }

  lemma FreeRef(t: Tree, d: int, k: int, c: int)
    requires d in t.dirs && InodeAt(t.dirs[d], k) == 0 && c != 0
    ensures !RefersTo(t, Ref(d, k), c)
  {}

  lemma RootIn(t: Tree)
    requires Sound(t)
    ensures t.root in t.dirs
  {}

  lemma NotNamed(t: Tree, r: Ref, n: int)
    requires Sound(t) && n !in t.nlinks && n != 0
    ensures !RefersTo(t, r, n)
  {}

  lemma MkdirParent(t: Tree, d: int, name: seq<Byte>, ino: int, e: int)
    requires Sound(t) && d in t.dirs && d in t.nlinks && MayEnter(t, d, name) && ino != 0 && ino !in t.nlinks
    requires e in Mkdir(t, d, name, ino).dirs
    ensures Parent(Mkdir(t, d, name, ino), e) == if e == ino then d else Parent(t, e)
  {
    hide Sound, Enter, MayEnter, Table, Cut, HasDots;
    var t1, t', k := WithNew(t, ino, d), Mkdir(t, d, name, ino), FirstFree(t.dirs[d], 0);
    MkdirSteps(t, d, name, ino);
    DotsOf(t1, e);
    OneDots(t1, t', d, k, e);
  }

  lemma DotsOf(t: Tree, e: int)
    requires Sound(t) && e in t.dirs
    ensures HasDots(t, e)
  {}

  lemma GrownTree(t: Tree, t': Tree, d: int, k: int, ino: int)
    requires Treelike(t) && t'.root == t.root && t.root in t.dirs && ino !in t.dirs
    requires t'.dirs.Keys == t.dirs.Keys + {ino} && d in t.dirs
    requires forall e :: e in t'.dirs ==> Parent(t', e) == if e == ino then d else Parent(t, e)
    requires forall r, c :: Branch(t', r, c) <==> Branch(t, r, c) || (r == Ref(d, k) && c == ino)
    ensures Treelike(t')
  {
    forall r, c | Branch(t, r, c) ensures c in t.dirs {}
    hide Parent, Branch;
    forall c | c in t'.dirs && c != t'.root ensures exists r :: Branch(t', r, c) {
      if c == ino { assert Branch(t', Ref(d, k), ino); }
      else {
        var r :| Branch(t, r, c);
        assert Branch(t', r, c);
      }
    }
    forall c | c in t'.dirs ensures Rooted(t', c) {
      if c == ino {
        RootedToo(t, t', d);
        var j: nat :| Climbs(t', d, j);
        assert Climbs(t', ino, j + 1);
      } else {
        RootedToo(t, t', c);
      }
    }
  }

  // ---- rmdir: of a directory with nothing but "." and "..", which is then freed
  predicate EmptyDir(es: seq<Entry>, n: int) {
    && |es| >= 2 && es[0].inode == n && es[1].inode != 0 && NameIn(es[0].name) == SELF && NameIn(es[1].name) == DOTS
    && forall i :: 2 <= i < |es| ==> es[i].inode == 0
  }

  function Rmdir(t: Tree, d: int, k: int): Tree
    requires d in t.dirs && d in t.nlinks && 0 <= k < |t.dirs[d]|
  {
    var n := t.dirs[d][k].inode;
    Tree(t.dirs[d := Erase(t.dirs[d], k)] - {n}, t.nlinks[d := (t.nlinks[d] + 255) % 256] - {n}, t.root)
  }

  ghost predicate MayRemove(t: Tree, d: int, k: int, n: int) {
    d in t.dirs && 0 <= k < |t.dirs[d]| && t.dirs[d][k].inode == n && n in t.dirs && n != d && EmptyDir(t.dirs[n], n)
  }

  // An empty directory is a leaf: nothing but its own entry and its "." names it.
  lemma NoBranchIn(t: Tree, n: int, r: Ref, c: int)
    requires n in t.dirs && EmptyDir(t.dirs[n], n) && r.d == n && c in t.dirs && 0 !in t.dirs
    ensures !Branch(t, r, c)
  {}

  lemma IsLeaf(t: Tree, d: int, k: int, n: int)
    requires Sound(t) && Treelike(t) && MayRemove(t, d, k, n)
    ensures k >= 2 && n != t.root && Parent(t, n) == d && Branch(t, Ref(d, k), n)
  {
    hide Sound, EmptyDir, Treelike;
    TwoDots(t, d);
    NoZero(t);
    if k == 1 { NotParent(t, d, n); }
    BranchFacts(t, Ref(d, k), n);
  }

  lemma NotParent(t: Tree, d: int, n: int)
    requires Sound(t) && Treelike(t) && d in t.dirs && n in t.dirs && n != d && EmptyDir(t.dirs[n], n)
    ensures Parent(t, d) != n
  {
    NoZero(t);
    hide Sound, EmptyDir, Parent, Branch;
    if d != t.root {
      var r :| Branch(t, r, d);
      if Parent(t, d) == n { NoBranchIn(t, n, r, d); }
    }
  }

  lemma BranchFacts(t: Tree, r: Ref, c: int)
    requires Treelike(t) && Branch(t, r, c)
    ensures r.d == Parent(t, c) && c != t.root
  {}

  lemma OneBranch(t: Tree, r: Ref, q: Ref, c: int)
    requires Treelike(t) && Branch(t, r, c) && Branch(t, q, c)
    ensures r == q
  {}

  lemma LeafRef(t: Tree, d: int, k: int, n: int, r: Ref)
    requires Sound(t) && Treelike(t) && MayRemove(t, d, k, n)
    ensures RefersTo(t, r, n) <==> r == Ref(d, k) || r == Ref(n, 0)
  {
    hide Sound, EmptyDir, Treelike;
    IsLeaf(t, d, k, n);
    TwoDots(t, n);
    if RefersTo(t, r, n) {
      TwoDots(t, r.d);
      if r.i == 1 { if r.d != n { NotParent(t, r.d, n); } }
      else if r.i >= 2 { OneBranch(t, r, Ref(d, k), n); }
    }
  }

  lemma RmdirRef(t: Tree, d: int, k: int, n: int, r: Ref, x: int)
    requires MayRemove(t, d, k, n) && d in t.nlinks && x != 0
    ensures RefersTo(Rmdir(t, d, k), r, x) <==> RefersTo(t, r, x) && r.d != n && r != Ref(d, k)
    ensures r.d == n && RefersTo(t, r, x) ==> (r.i == 0 && x == n) || (r.i == 1 && x == Parent(t, n))
  {}

  lemma RmdirRefs(t: Tree, d: int, k: int, n: int, x: int)
    requires Sound(t) && Treelike(t) && MayRemove(t, d, k, n) && d in t.nlinks && x != 0 && x != n
    ensures |Refs(Rmdir(t, d, k), x)| == |Refs(t, x)| - if x == d then 1 else 0
  {
    hide Refs, Sound, Treelike, Rmdir, EmptyDir;
    IsLeaf(t, d, k, n);
    var t', q := Rmdir(t, d, k), Ref(n, 1);
    TwoDots(t, n);
    assert RefersTo(t, q, d);
    forall r ensures r in Refs(t', x) <==> r in Refs(t, x) && !(r == q && x == d) {
      RmdirRef(t, d, k, n, r, x);
      RefsAre(t, r, x);
      RefsAre(t', r, x);
    }
    RefsAre(t, q, d);
    hide RefersTo;
    if x == d { assert Refs(t, x) == Refs(t', x) + {q}; } else { assert Refs(t, x) == Refs(t', x); }
  }

  lemma LeafRefs(t: Tree, d: int, k: int, n: int)
    requires Sound(t) && Treelike(t) && MayRemove(t, d, k, n)
    ensures |Refs(t, n)| == 2
  {
    hide Refs, Sound, Treelike, EmptyDir, RefersTo;
    forall r ensures r in Refs(t, n) <==> r in {Ref(d, k), Ref(n, 0)} {
      RefsAre(t, r, n);
      LeafRef(t, d, k, n, r);
    }
    assert Refs(t, n) == {Ref(d, k), Ref(n, 0)};
  }

  lemma RmdirKeys(t: Tree, d: int, k: int, n: int)
    requires MayRemove(t, d, k, n) && d in t.nlinks
    ensures var t' := Rmdir(t, d, k);
      && t'.dirs.Keys == t.dirs.Keys - {n} && t'.nlinks.Keys == t.nlinks.Keys - {n} && t'.root == t.root
        && t'.dirs[d] == Erase(t.dirs[d], k)
      && forall e :: e in t'.dirs && e != d ==> t'.dirs[e] == t.dirs[e]
  {}

  lemma RmdirSound(t: Tree, d: int, k: int, n: int, name: seq<Byte>)
    requires Sound(t) && Treelike(t) && MayRemove(t, d, k, n) && d in t.nlinks && Names(t.dirs[d], k, name)
    ensures Sound(Rmdir(t, d, k)) && Table(In(Rmdir(t, d, k), d)) == Table(In(t, d)) - {name}
  {
    hide EmptyDir, Treelike, NoDuplicates, Table, Rmdir, Names, Sound, HasDots, RefersTo, Erase;
    var t' := Rmdir(t, d, k);
    IsLeaf(t, d, k, n);
    RmdirKeys(t, d, k, n);
    EraseUnique(t, d, k, name);
    RmdirDots(t, d, k, n);
    forall r, x | RefersTo(t', r, x) && x != 0 ensures x in t'.nlinks {
      RmdirRef(t, d, k, n, r, x);
      NamedIn(t, r, x);
      LeafRef(t, d, k, n, r);
    }
    RmdirUnique(t, t', d, n);
    SoundParts(t, t', n);
  }

  lemma SoundParts(t: Tree, t': Tree, n: int)
    requires Sound(t) && t'.root == t.root && n != t.root && t'.dirs.Keys == t.dirs.Keys - {n}
    requires t'.nlinks.Keys == t.nlinks.Keys - {n}
    requires Unique(t') && Dotted(t') && Allocated(t')
    ensures Sound(t')
  { hide Unique, Dotted, Allocated; }

  lemma RmdirUnique(t: Tree, t': Tree, d: int, n: int)
    requires Sound(t) && t'.dirs.Keys == t.dirs.Keys - {n} && d in t'.dirs && NoDuplicates(t'.dirs[d])
    requires forall e :: e in t'.dirs && e != d ==> t'.dirs[e] == t.dirs[e]
    ensures Unique(t')
  { hide NoDuplicates, Dotted, Allocated; }

  lemma RmdirDots(t: Tree, d: int, k: int, n: int)
    requires Sound(t) && Treelike(t) && MayRemove(t, d, k, n) && d in t.nlinks
    ensures Dotted(Rmdir(t, d, k))
    ensures forall e :: e in Rmdir(t, d, k).dirs ==> Parent(Rmdir(t, d, k), e) == Parent(t, e) != n
  {
    hide EmptyDir, Treelike, Rmdir, Sound, NameIn;
    var t' := Rmdir(t, d, k);
    IsLeaf(t, d, k, n);
    RmdirKeys(t, d, k, n);
    forall e | e in t'.dirs ensures HasDots(t', e) && Parent(t', e) == Parent(t, e) != n {
      DotsOf(t, e);
      NotParent(t, e, n);
    }
  }

  lemma RmdirTree(t: Tree, d: int, k: int, n: int)
    requires Sound(t) && Treelike(t) && MayRemove(t, d, k, n) && d in t.nlinks
    ensures Treelike(Rmdir(t, d, k))
  {
    hide EmptyDir, Treelike, Rmdir, Sound, RefersTo, Dotted, Parent;
    var t' := Rmdir(t, d, k);
    IsLeaf(t, d, k, n);
    RmdirKeys(t, d, k, n);
    RmdirDots(t, d, k, n);
    NoZero(t);
    RootIn(t);
    forall r, c ensures Branch(t', r, c) <==> Branch(t, r, c) && c != n {
      if c != 0 {
        RmdirRef(t, d, k, n, r, c);
        if c in t.dirs && r.d == n { NoBranchIn(t, n, r, c); }
        if r == Ref(d, k) { RefIs(t, r, c, n); }
      }
    }
    hide Branch;
    ShrunkTree(t, t', n);
  }

  lemma RefIs(t: Tree, r: Ref, c: int, n: int)
    requires RefersTo(t, r, n)
    ensures RefersTo(t, r, c) <==> c == n
  {}

  lemma ShrunkTree(t: Tree, t': Tree, n: int)
    requires Treelike(t) && t'.root == t.root && t.root in t.dirs && n != t.root && t'.dirs.Keys == t.dirs.Keys - {n}
    requires forall e :: e in t'.dirs ==> Parent(t', e) == Parent(t, e) != n
    requires forall r, c :: Branch(t', r, c) <==> Branch(t, r, c) && c != n
    ensures Treelike(t')
  {
    forall r, c | Branch(t, r, c) ensures c in t.dirs {}
    hide Parent, Branch;
    forall c | c in t'.dirs && c != t'.root ensures exists r :: Branch(t', r, c) {
      var r :| Branch(t, r, c);
      assert Branch(t', r, c);
    }
    forall c | c in t'.dirs ensures Rooted(t', c) { RootedToo(t, t', c); }
  }

  // The directory had exactly two links, its parent loses one, and nothing names it any more.
  lemma RmdirInv(t: Tree, d: int, k: int, n: int, name: seq<Byte>)
    requires Inv(t) && MayRemove(t, d, k, n) && Names(t.dirs[d], k, name)
    ensures d in t.nlinks && n in t.nlinks && t.nlinks[n] == 2 && t.nlinks[d] > 0
    ensures Inv(Rmdir(t, d, k)) && Table(In(Rmdir(t, d, k), d)) == Table(In(t, d)) - {name}
  {
    hide Sound, Treelike, Refs, EmptyDir, Table, Rmdir, Names;
    InDirs(t, d);
    InDirs(t, n);
    LeafRefs(t, d, k, n);
    RmdirSound(t, d, k, n, name);
    RmdirTree(t, d, k, n);
    RmdirCounts(t, d, k, n);
  }

  lemma RmdirCounts(t: Tree, d: int, k: int, n: int)
    requires Inv(t) && MayRemove(t, d, k, n) && d in t.nlinks && d != 0
    ensures t.nlinks[d] > 0 && Counted(Rmdir(t, d, k))
  {
    hide Sound, Treelike, Refs, EmptyDir;
    NoZero(t);
    var t' := Rmdir(t, d, k);
    RmdirRefs(t, d, k, n, d);
    forall x | x in t'.nlinks ensures t'.nlinks[x] == |Refs(t', x)| < 256 { RmdirRefs(t, d, k, n, x); }
  }
}
