// Every run of the system calls that change directories keeps the tree and its link counts (fs/namei.c).
module TreeRuns {
  import opened Bytes
  import opened Directories
  import opened LinkCounts

  // the first entry from i on with the name, -1 if there is none
  function Find(es: seq<Entry>, n: seq<Byte>, i: nat): (k: int)
    requires i <= |es|
    ensures k == -1 || (i <= k < |es| && Names(es, k, n))
    ensures k == -1 ==> forall j :: i <= j < |es| ==> !Names(es, j, n)
    decreases |es| - i
  { if i == |es| then -1 else if Names(es, i, n) then i else Find(es, n, i + 1) }

  function Lookup(t: Tree, d: int, name: seq<Byte>): (k: int)
    ensures k == -1 || (d in t.dirs && 0 <= k < |t.dirs[d]| && Names(t.dirs[d], k, Wanted(name, d == t.root)))
  { if d in t.dirs && |name| > 0 then Find(t.dirs[d], Wanted(name, d == t.root), 0) else -1 }

  // ino: the number new_inode gives. busy: other users of the directory. A call that cannot be made, or fails, changes
  // nothing.
  datatype Op = Creat(d: int, name: seq<Byte>, ino: int) | Hard(n: int, d: int, name: seq<Byte>) | Remove(d: int,
    name: seq<Byte>)
              | MakeDir(d: int, name: seq<Byte>, ino: int) | RemoveDir(d: int, name: seq<Byte>,
                busy: bool) | Reap(n: int)

  predicate Fresh(t: Tree, ino: int) { ino != 0 && ino !in t.nlinks }
  predicate CanEnter(t: Tree, d: int, name: seq<Byte>) {
    d in t.dirs && Proper(name) && |name| > 0 && Lookup(t, d, name) == -1
  }

  function Target(t: Tree, d: int, name: seq<Byte>): int {
    var k := Lookup(t, d, name);
    if k == -1 then 0 else t.dirs[d][k].inode
  }

  predicate Admitted(t: Tree, op: Op) {
    match op
    case Creat(d, name, ino) => CanEnter(t, d, name) && Fresh(t, ino)
    case Hard(n, d, name) => CanEnter(t, d, name) && n in t.nlinks && n !in t.dirs && t.nlinks[n] > 0
    case Remove(d, name) => Lookup(t, d, name) != -1 && Target(t, d, name) in t.nlinks && Target(t, d, name) !in t.dirs
    case MakeDir(d, name, ino) => CanEnter(t, d, name) && Fresh(t, ino) && d in t.nlinks
    case RemoveDir(d, name, busy) =>
      var n := Target(t, d, name);
      !busy && Lookup(t, d, name) != -1 && n in t.dirs && n != d && EmptyDir(t.dirs[n], n) && d in t.nlinks
    case Reap(n) => n in t.nlinks && n !in t.dirs && t.nlinks[n] == 0
  }

  function Step(t: Tree, op: Op): Tree {
    if !Admitted(t, op) then t
    else match op
      case Creat(d, name, ino) => Create(t, d, name, ino)
      case Hard(n, d, name) => Link(t, n, d, name)
      case Remove(d, name) => Unlink(t, d, Lookup(t, d, name))
      case MakeDir(d, name, ino) => Mkdir(t, d, name, ino)
      case RemoveDir(d, name, _) => Rmdir(t, d, Lookup(t, d, name))
      case Reap(n) => t.(nlinks := t.nlinks - {n})
  }

  // The call that would make the 256th link.
  predicate Overfull(t: Tree, op: Op) {
    Admitted(t, op) && ((op.Hard? && t.nlinks[op.n] == 255) || (op.MakeDir? && t.nlinks[op.d] == 255))
  }

  // A name that is not "..", or not at the root, is looked for as it is, so that nothing with that name is there.
  lemma EnterAllowed(t: Tree, d: int, name: seq<Byte>)
    requires Sound(t) && CanEnter(t, d, name)
    ensures MayEnter(t, d, name)
  {
    hide NameIn;
    DotsOf(t, d);
    TwoDots(t, d);
    assert Names(t.dirs[d], 0, SELF);
  }

  lemma StepInv(t: Tree, op: Op)
    requires Inv(t)
    ensures Inv(Step(t, op)) <==> !Overfull(t, op)
  {
    hide Sound, Treelike, Refs, Table;
    if Admitted(t, op) {
      match op
      case Creat(d, name, ino) =>
        EnterAllowed(t, d, name);
        CreateInv(t, d, name, ino);
      case Hard(n, d, name) =>
        EnterAllowed(t, d, name);
        LinkInv(t, n, d, name);
      case Remove(d, name) =>
        UnlinkInv(t, d, Lookup(t, d, name), Wanted(name, d == t.root));
      case MakeDir(d, name, ino) =>
        EnterAllowed(t, d, name);
        MkdirInv(t, d, name, ino);
      case RemoveDir(d, name, _) =>
        RmdirInv(t, d, Lookup(t, d, name), Target(t, d, name), Wanted(name, d == t.root));
      case Reap(n) => ReapInv(t, n);
    }
  }

  lemma ReapInv(t: Tree, n: int)
    requires Inv(t) && n in t.nlinks && n !in t.dirs && t.nlinks[n] == 0
    ensures Inv(t.(nlinks := t.nlinks - {n}))
  {
    hide NoDuplicates, NameIn, Refs, RefersTo, Treelike, HasDots, Allocated;
    var t' := t.(nlinks := t.nlinks - {n});
    forall x ensures Refs(t', x) == Refs(t, x) { SameRefs(t, t', x); }
    ReapAllocated(t, n);
    SameBranches(t, t');
    forall d | d in t'.dirs ensures HasDots(t', d) { SameDots(t, t', d); }
  }

  lemma ReapAllocated(t: Tree, n: int)
    requires Inv(t) && n in t.nlinks && t.nlinks[n] == 0
    ensures Allocated(t.(nlinks := t.nlinks - {n}))
  {
    hide NoDuplicates, NameIn, Refs, Treelike, HasDots;
    var t' := t.(nlinks := t.nlinks - {n});
    forall r, x | RefersTo(t', r, x) && x != 0 ensures x in t'.nlinks {
      assert RefersTo(t, r, x);
      NamedIn(t, r, x);
      RefsAre(t, r, x);
    }
  }

  lemma SameBranches(t: Tree, t': Tree)
    requires Treelike(t) && t'.dirs == t.dirs && t'.root == t.root && t.root in t.dirs
    ensures Treelike(t')
  {
    hide NameIn, Treelike;
    forall r, c ensures Branch(t', r, c) <==> Branch(t, r, c) {}
    SameTree(t, t');
  }

  lemma SameDots(t: Tree, t': Tree, d: int)
    requires t'.dirs == t.dirs && t'.root == t.root && d in t.dirs && HasDots(t, d)
    ensures HasDots(t', d)
  {}

  lemma SameRefs(t: Tree, t': Tree, x: int)
    requires t'.dirs == t.dirs
    ensures Refs(t', x) == Refs(t, x)
  {}

  function Run(t: Tree, ops: seq<Op>): Tree decreases ops { if ops == [] then t else Run(Step(t, ops[0]), ops[1..]) }
  predicate Fits(t: Tree, ops: seq<Op>)
    decreases ops
  {
    ops == [] || (!Overfull(t, ops[0]) && Fits(Step(t, ops[0]), ops[1..]))
  }

  // Over any run that makes no 256th link, directories have no name twice, they form a tree, and every inode's link
  // count is the number of its entries.
  lemma {:induction false} RunInv(t: Tree, ops: seq<Op>)
    requires Inv(t) && Fits(t, ops)
    ensures Inv(Run(t, ops))
    decreases ops
  {
    hide Inv, Step, Overfull;
    if ops != [] {
      StepInv(t, ops[0]);
      RunInv(Step(t, ops[0]), ops[1..]);
    }
  }

  function Bare(root: int): Tree { Tree(map[root := NewDir(root, root)], map[root := 2], root) }

  lemma BareInv(root: int)
    requires root != 0
    ensures Inv(Bare(root))
  {
    hide Sound, Treelike, Refs;
    BareSound(root);
    BareTree(root);
    BareRefs(root);
  }

  lemma BareSound(root: int)
    requires root != 0
    ensures Sound(Bare(root))
  {
    hide NewDir, NoDuplicates, NameIn;
    NewDirOk(root, root);
  }

  lemma BareTree(root: int)
    requires root != 0
    ensures Treelike(Bare(root))
  { assert Climbs(Bare(root), root, 0); }

  lemma BareRefs(root: int)
    requires root != 0
    ensures |Refs(Bare(root), root)| == 2
  {
    hide Refs;
    forall r ensures r in Refs(Bare(root), root) <==> r in {Ref(root, 0), Ref(root, 1)} {
      RefsAre(Bare(root), r, root);
    }
    assert Refs(Bare(root), root) == {Ref(root, 0), Ref(root, 1)};
  }

  // ---- a run that reaches the limit: file 2 under 255 names in the root, and then one more
  function Nth(k: nat): seq<Byte> requires k < 255 { [65, k + 1] }
  function Links(k: nat): seq<Op>
    requires k <= 255
  { if k == 0 then [] else Links(k - 1) + [if k == 1 then Creat(1, Nth(0), 2) else Hard(2, 1, Nth(k - 1))] }

  function Linked(k: nat): Tree requires k <= 255 { Run(Bare(1), Links(k)) }

  lemma {:induction false} RunMore(t: Tree, ops: seq<Op>, op: Op)
    ensures Run(t, ops + [op]) == Step(Run(t, ops), op)
    decreases ops
  {
    hide Step;
    if ops == [] {
      assert ops + [op] == [op] && [op][1..] == [];
    } else {
      assert (ops + [op])[1..] == ops[1..] + [op];
      RunMore(Step(t, ops[0]), ops[1..], op);
    }
  }

  // the root holds ".", ".." and the first k names, all of them for file 2
  ghost predicate HasLinks(t: Tree, k: nat)
    requires k <= 255
  {
    && t.root == 1 && t.dirs.Keys == {1} && |t.dirs[1]| == k + 2
    && t.nlinks.Keys == (if k == 0 then {1} else {1, 2}) && (k > 0 ==> t.nlinks[2] == k)
    && t.dirs[1][0] == Entry(1, Padded(SELF)) && t.dirs[1][1] == Entry(1, Padded(DOTS))
    && forall i :: 0 <= i < k ==> t.dirs[1][i + 2] == Entry(2, Padded(Nth(i)))
  }

  lemma NthNew(t: Tree, k: nat, i: int)
    requires k < 255 && HasLinks(t, k) && 0 <= i < k + 2
    ensures !Names(t.dirs[1], i, Nth(k)) && t.dirs[1][i].inode != 0
  {
    hide NameIn;
    var n := if i == 0 then SELF else if i == 1 then DOTS else Nth(i - 2);
    NameOfPadded(n);
  }

  lemma LinkOnce(t: Tree, k: nat)
    requires k < 255 && HasLinks(t, k)
    ensures var op := if k == 0 then Creat(1, Nth(0), 2) else Hard(2, 1, Nth(k));
      Admitted(t, op) && HasLinks(Step(t, op), k + 1)
  {
    hide Names, Padded;
    forall i | 0 <= i < k + 2 ensures !Names(t.dirs[1], i, Nth(k)) && t.dirs[1][i].inode != 0 { NthNew(t, k, i); }
    assert Wanted(Nth(k), true) == Nth(k) == Cut(Nth(k));
    assert Lookup(t, 1, Nth(k)) == -1;
    assert FirstFree(t.dirs[1], 0) == k + 2;
    assert Enter(t.dirs[1], Nth(k), 2) == t.dirs[1] + [Entry(2, Padded(Nth(k)))];
  }

  lemma {:induction false} LinkedHas(k: nat)
    requires k <= 255
    ensures HasLinks(Linked(k), k) && Inv(Linked(k))
  {
    hide HasLinks, Step, Inv;
    if k == 0 {
      assert Linked(0) == Bare(1);
      BareLinks();
      BareInv(1);
    } else {
      LinkedHas(k - 1);
      var op := if k == 1 then Creat(1, Nth(0), 2) else Hard(2, 1, Nth(k - 1));
      LinkOnce(Linked(k - 1), k - 1);
      NotOverfull(Linked(k - 1), k - 1, op);
      StepInv(Linked(k - 1), op);
      RunMore(Bare(1), Links(k - 1), op);
    }
  }

  lemma NotOverfull(t: Tree, k: nat, op: Op)
    requires k < 255 && HasLinks(t, k) && op == if k == 0 then Creat(1, Nth(0), 2) else Hard(2, 1, Nth(k))
    ensures !Overfull(t, op)
  {}

  lemma BareLinks()
    ensures HasLinks(Bare(1), 0)
  {}

  // 255 links are counted right; the next link is made, and the count says 0.
  lemma TooManyLinks()
    ensures var t, op := Linked(255), Hard(2, 1, [66]);
      && Inv(t) && t.nlinks.Keys == {1, 2} && t.nlinks[2] == 255 && Admitted(t, op)
      && 2 in Step(t, op).nlinks && Step(t, op).nlinks[2] == 0 && !Inv(Step(t, op))
  {
    hide Inv, Linked, Links, Run, HasLinks, Step, Admitted;
    LinkedHas(255);
    OneTooMany(Linked(255), 255);
  }

  lemma OneTooMany(t: Tree, k: nat)
    requires k == 255 && HasLinks(t, k) && Inv(t)
    ensures var op := Hard(2, 1, [66]);
      && t.nlinks.Keys == {1, 2} && t.nlinks[2] == 255 && Admitted(t, op)
      && 2 in Step(t, op).nlinks && Step(t, op).nlinks[2] == 0 && !Inv(Step(t, op))
  {
    hide Inv, Find, Enter;
    LastNew(t, k);
    StepInv(t, Hard(2, 1, [66]));
  }

  lemma LastNew(t: Tree, k: nat)
    requires k == 255 && HasLinks(t, k)
    ensures Lookup(t, 1, [66]) == -1
  {
    hide Names, Padded;
    forall i | 0 <= i < k + 2 ensures !Names(t.dirs[1], i, [66]) {
      var n := if i == 0 then SELF else if i == 1 then DOTS else Nth(i - 2);
      NotNamedSo(t.dirs[1], i, n);
    }
    assert Wanted([66], true) == [66];
  }

  lemma NotNamedSo(es: seq<Entry>, i: int, n: seq<Byte>)
    requires 0 <= i < |es| && |n| <= NAME_LEN && es[i].name == Padded(n) && Proper(n) && n != [66]
    ensures !Names(es, i, [66])
  {
    hide NameIn;
    NameOfPadded(n);
  }
}
