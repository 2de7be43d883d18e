// Minix v1 block trees: where every zone number is stored, and when the zone map agrees with them.
module Zones {
  import opened Bytes

  // tree: a regular file or directory, whose i_zone holds block numbers (a device inode's holds a device number)
  datatype Inode = Inode(tree: bool, size: int, zone: seq<int>)
  datatype Disk = Disk(bits: seq<bool>, block: seq<Block>, inode: seq<Inode>, first: int, nzones: int, held: set<int>)

  // A place that can hold a zone number: i_zone[i], or entry k of an indirect block.
  datatype Pos =
    | Zone(n: int, i: int)
    | Ind(n: int, k: int)
    | Dind(n: int, k: int)
    | Leaf(n: int, k: int, l: int)

  function Entry(b: Block, k: int): int requires 0 <= k < 512 { (b[2 * k] as int) + 256 * (b[2 * k + 1] as int) }

  function SetEntry(b: Block, k: int, v: int): (c: Block) requires 0 <= k < 512 && 0 <= v < 65536 {
    b[2 * k := v % 256][2 * k + 1 := v / 256]
  }

  function ZeroBlock(): Block { seq(1024, _ => 0) }

  lemma EntryOfSet(b: Block, k: int, v: int, m: int)
    requires 0 <= k < 512 && 0 <= v < 65536 && 0 <= m < 512
    ensures Entry(SetEntry(b, k, v), m) == if m == k then v else Entry(b, m)
  {}

  predicate IsPos(s: Disk, p: Pos) {
    match p
    case Zone(n, i) => 0 <= n < |s.inode| && 0 <= i < 9
    case Ind(n, k) => 0 <= n < |s.inode| && 0 <= k < 512
    case Dind(n, k) => 0 <= n < |s.inode| && 0 <= k < 512
    case Leaf(n, k, l) => 0 <= n < |s.inode| && 0 <= k < 512 && 0 <= l < 512
  }

  predicate InBlocks(s: Disk, b: int) { 0 < b < |s.block| }

  function At(s: Disk, p: Pos): int
    requires IsPos(s, p) && Shape(s)
    decreases if p.Zone? then 0 else if p.Leaf? then 2 else 1
  {
    match p
    case Zone(n, i) => if s.inode[n].tree then s.inode[n].zone[i] else 0
    case Ind(n, k) => Child(s, At(s, Zone(n, 7)), k)
    case Dind(n, k) => Child(s, At(s, Zone(n, 8)), k)
    case Leaf(n, k, l) => Child(s, At(s, Dind(n, k)), l)
  }

  function Child(s: Disk, b: int, k: int): int requires 0 <= k < 512 {
    if InBlocks(s, b) then Entry(s.block[b], k) else 0
  }

  ghost predicate Shape(s: Disk) {
    && 0 < s.first <= s.nzones <= |s.block| && s.nzones <= 65536
    && |s.bits| > 0 && s.bits[0]
    && forall n :: 0 <= n < |s.inode| ==> |s.inode[n].zone| == 9
  }

  predicate InData(s: Disk, b: int) { s.first <= b < s.nzones }
  predicate Bit(s: Disk, b: int) { 0 <= b - s.first + 1 < |s.bits| && s.bits[b - s.first + 1] }

  ghost function Live(s: Disk, dead: set<Pos>, p: Pos): int requires Shape(s) {
    if IsPos(s, p) && p !in dead then At(s, p) else 0
  }

  ghost predicate Named(s: Disk, dead: set<Pos>, b: int) requires Shape(s) { exists p :: Live(s, dead, p) == b }

  ghost predicate InRange(s: Disk, dead: set<Pos>) requires Shape(s) {
    forall p {:trigger Live(s, dead, p)} ::
      Live(s, dead, p) == 0 || (InData(s, Live(s, dead, p)) && Live(s, dead, p) !in s.held)
  }

  ghost predicate Distinct(s: Disk, dead: set<Pos>) requires Shape(s) {
    forall p, q :: p != q && Live(s, dead, p) == Live(s, dead, q) ==> Live(s, dead, p) == 0
  }

  ghost predicate Mapped(s: Disk, dead: set<Pos>) requires Shape(s) {
    forall b :: InData(s, b) ==> (Bit(s, b) <==> b in s.held || Named(s, dead, b))
  }

  ghost predicate Inv(s: Disk, dead: set<Pos>) {
    && Shape(s) && InRange(s, dead) && Distinct(s, dead) && Mapped(s, dead)
    && forall b :: b in s.held ==> InData(s, b)
  }
}
