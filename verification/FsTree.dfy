/** Prototype trees, and where mkfs puts them: inodes numbered in the order of the prototype, and
    the zones of every subtree in one stretch. */
module FsTree {
  import opened FsDisk

  /** A prototype: what the lines of a prototype file describe. */
  datatype Node =
    | DirNode(perms: nat, kids: seq<Kid>)
    | FileNode(perms: nat, content: seq<bv8>)
    | DeviceNode(block: bool, perms: nat, rdev: nat, size: nat)
  datatype Kid = Kid(name: string, node: Node)

  /** The inode table by inode number, and all blocks by number. */
  datatype Disk = Disk(tab: seq<Inode>, zone: seq<Block>)

  // ---------- How many inodes and zones a tree takes ----------

  function Inodes(t: Node): (r: nat)
    ensures r >= 1
    decreases t, 1, 0
  {
    if t.DirNode? then 1 + InodesUpTo(t, |t.kids|) else 1
  }

  /** The inodes of the first k entries' subtrees. */
  function InodesUpTo(t: Node, k: nat): nat
    requires t.DirNode? && k <= |t.kids|
    decreases t, 0, k
  {
    if k == 0 then 0 else InodesUpTo(t, k - 1) + Inodes(t.kids[k - 1].node)
  }

  function Blocks(size: nat): nat { (size + BLOCK_SIZE - 1) / BLOCK_SIZE }

  /** m data blocks, and an indirect one behind the eighth. */
  function FileZones(m: nat): nat { if m > NR_DZONE_NUM then m + 1 else m }

  /** The zones of a tree; an upper bound of the zones of the first k entries' subtrees and of the
      directory's own blocks that hold them. */
  function Zones(t: Node): nat
    decreases t, 1, 0
  {
    match t
    case DirNode(_, kids) => ZonesUpTo(t, |kids|)
    case FileNode(_, content) => FileZones(Blocks(|content|))
    case DeviceNode(_, _, _, _) => 0
  }

  function ZonesUpTo(t: Node, k: nat): (r: nat)
    requires t.DirNode? && k <= |t.kids|
    ensures r >= 1
    decreases t, 0, k
  {
    if k == 0 then 1 else ZonesUpTo(t, k - 1) + Fresh(k - 1) + Zones(t.kids[k - 1].node)
  }

  /** 1 if the entry for child k opens a new directory block. */
  function Fresh(k: nat): nat { if (k + 2) % NR_DIR_ENTRIES == 0 then 1 else 0 }

  /** Directory blocks once k children are entered. */
  function DirBlocks(k: nat): nat { (k + 2 + NR_DIR_ENTRIES - 1) / NR_DIR_ENTRIES }

  /** Children that are directories, among the first k. */
  function Subdirs(t: Node, k: nat): (r: nat)
    requires t.DirNode? && k <= |t.kids|
    ensures r <= k
  {
    if k == 0 then 0 else Subdirs(t, k - 1) + if t.kids[k - 1].node.DirNode? then 1 else 0
  }

  // ---------- Positions inside a directory's subtree ----------

  /** Child k's inode number, counted from the directory's. */
  function KidInode(t: Node, k: nat): nat
    requires t.DirNode? && k < |t.kids|
  {
    1 + InodesUpTo(t, k)
  }

  /** Child k's first zone, counted from the directory's. */
  function KidZone(t: Node, k: nat): nat
    requires t.DirNode? && k < |t.kids|
  {
    ZonesUpTo(t, k) + Fresh(k)
  }

  /** The directory's j-th block, counted from its first: allocated for child 64j-2. */
  function DirZone(t: Node, j: nat): nat
    requires t.DirNode? && (j > 0 ==> NR_DIR_ENTRIES * j - 2 <= |t.kids|)
  {
    if j == 0 then 0 else ZonesUpTo(t, NR_DIR_ENTRIES * j - 2)
  }

  lemma {:induction false} UpToMonotone(t: Node, i: nat, k: nat)
    requires t.DirNode? && i <= k <= |t.kids|
    ensures ZonesUpTo(t, i) <= ZonesUpTo(t, k)
    ensures InodesUpTo(t, i) <= InodesUpTo(t, k)
    decreases k
  {
    if i < k { UpToMonotone(t, i, k - 1); }
  }

  /** A child's inodes and zones end before the next child's begin. */
  lemma KidsInOrder(t: Node, i: nat, k: nat)
    requires t.DirNode? && i < k <= |t.kids|
    ensures KidInode(t, i) + Inodes(t.kids[i].node) <= 1 + InodesUpTo(t, k)
    ensures KidZone(t, i) + Zones(t.kids[i].node) <= ZonesUpTo(t, k)
  {
    UpToMonotone(t, i + 1, k);
  }

  /** A directory's own block lies outside its children's stretches. */
  lemma OwnBlock(t: Node, j: nat, i: nat)
    requires t.DirNode? && i < |t.kids| && (j > 0 ==> NR_DIR_ENTRIES * j - 2 <= |t.kids|)
    ensures DirZone(t, j) < KidZone(t, i) || DirZone(t, j) >= KidZone(t, i) + Zones(t.kids[i].node)
  {
    if j > 0 {
      var k := NR_DIR_ENTRIES * j - 2;
      if i < k {
        KidsInOrder(t, i, k);
      } else {
        UpToMonotone(t, k, i);
        if i == k { assert (k + 2) % NR_DIR_ENTRIES == 0; } else { KidsInOrder(t, k, i); assert (k + 2) % NR_DIR_ENTRIES == 0; }
      }
    }
  }

  // ---------- What the disk holds for a tree ----------

  function Pad(name: string): Name {
    seq(NAME_MAX, i => if 0 <= i < |name| then name[i] else '\0')
  }

  const DOT: string := "."
  const DOTDOT: string := ".."

  /** Entry e of a directory (inode n below `parent`) with k children. */
  function DirEntry(t: Node, k: nat, n: nat, parent: nat, e: nat): Entry
    requires t.DirNode? && k <= |t.kids|
  {
    if e == 0 then Entry(n, Pad(DOT))
    else if e == 1 then Entry(parent, Pad(DOTDOT))
    else if e < k + 2 then Entry(n + KidInode(t, e - 2), Pad(t.kids[e - 2].name))
    else Entry(0, NO_NAME)
  }

  function DirBlock(t: Node, k: nat, n: nat, parent: nat, j: nat): (r: seq<Entry>)
    requires t.DirNode? && k <= |t.kids|
    ensures |r| == NR_DIR_ENTRIES
  {
    seq(NR_DIR_ENTRIES, i requires i >= 0 => DirEntry(t, k, n, parent, NR_DIR_ENTRIES * j + i))
  }

  /** The zone numbers in the inode of a directory with k children. */
  function DirZones(t: Node, k: nat, z: nat): ZoneList
    requires t.DirNode? && k <= |t.kids|
  {
    seq(NR_ZONE_NUMS, j requires j >= 0 => if j < NR_DZONE_NUM && j < DirBlocks(k) then z + DirZone(t, j) else 0)
  }

  ghost predicate EntriesAt(d: Disk, t: Node, k: nat, n: nat, parent: nat, z: nat)
    requires t.DirNode? && k <= |t.kids|
  {
    forall j :: 0 <= j < DirBlocks(k) ==> BlockHolds(d, t, k, n, parent, z, j)
  }

  ghost predicate BlockHolds(d: Disk, t: Node, k: nat, n: nat, parent: nat, z: nat, j: nat)
    requires t.DirNode? && k <= |t.kids| && j < DirBlocks(k)
  {
    z + DirZone(t, j) < |d.zone| && AsDir(d.zone[z + DirZone(t, j)]) == DirBlock(t, k, n, parent, j)
  }

  /** A directory with its first k children entered: inode and directory blocks. */
  ghost predicate DirAt(d: Disk, t: Node, k: nat, n: nat, parent: nat, z: nat, nlinks: nat)
    requires t.DirNode? && k <= |t.kids|
  {
    && n < |d.tab| && DirBlocks(k) <= NR_DZONE_NUM
    && d.tab[n] == Inode(Directory, t.perms, nlinks, 16 * (k + 2), DirZones(t, k, z))
    && EntriesAt(d, t, k, n, parent, z)
  }

  /** The offset of a file's j-th block: the indirect block sits behind the eighth. */
  function BlockPos(j: nat): nat { if j <= NR_DZONE_NUM then j else j + 1 }

  function FileDirect(m: nat, z: nat): ZoneList {
    seq(NR_ZONE_NUMS, i requires i >= 0 =>
      if i < NR_DZONE_NUM && i < m then z + i
      else if i == NR_DZONE_NUM && m > NR_DZONE_NUM then z + NR_DZONE_NUM + 1
      else 0)
  }

  function IndirectEntry(m: nat, z: nat, i: nat): nat {
    if NR_DZONE_NUM + i < m then z + BlockPos(NR_DZONE_NUM + i) else 0
  }

  function FileIndirect(m: nat, z: nat): (r: seq<nat>)
    ensures |r| == NR_INDIRECTS
  {
    seq(NR_INDIRECTS, i requires i >= 0 => IndirectEntry(m, z, i))
  }

  /** The j-th block of a file, filled up with zeros. */
  function Chunk(content: seq<bv8>, j: nat): seq<bv8> {
    seq(BLOCK_SIZE, i requires i >= 0 => if BLOCK_SIZE * j + i < |content| then content[BLOCK_SIZE * j + i] else 0)
  }

  /** The first m blocks of a file, from zone z on. */
  ghost predicate BlocksAt(d: Disk, content: seq<bv8>, m: nat, z: nat) {
    && z + FileZones(m) <= |d.zone|
    && (m > NR_DZONE_NUM ==> AsIndirect(d.zone[z + NR_DZONE_NUM + 1]) == FileIndirect(m, z))
    && Chunks(d, content, m, z)
  }

  ghost predicate Chunks(d: Disk, content: seq<bv8>, m: nat, z: nat) {
    forall j :: 0 <= j < m ==> ChunkAt(d, content, j, z)
  }

  ghost predicate ChunkAt(d: Disk, content: seq<bv8>, j: nat, z: nat) {
    z + BlockPos(j) < |d.zone| && AsData(d.zone[z + BlockPos(j)]) == Chunk(content, j)
  }

  ghost predicate FileAt(d: Disk, content: seq<bv8>, perms: nat, m: nat, size: nat, n: nat, z: nat) {
    && n < |d.tab| && m <= NR_DZONE_NUM + NR_INDIRECTS
    && d.tab[n] == Inode(Regular, perms, 1, size, FileDirect(m, z))
    && BlocksAt(d, content, m, z)
  }

  /** The tree t stands on the disk: root in inode n, entered in `parent`, zones from z on. */
  ghost predicate NodeAt(d: Disk, t: Node, n: nat, parent: nat, z: nat)
    decreases t, 1, 0
  {
    match t
    case DirNode(perms, kids) =>
      DirAt(d, t, |kids|, n, parent, z, (2 + Subdirs(t, |kids|)) % 256) && KidsAt(d, t, |kids|, n, z)
    case FileNode(perms, content) =>
      FileAt(d, content, perms, Blocks(|content|), |content|, n, z)
    case DeviceNode(block, perms, rdev, size) =>
      n < |d.tab| &&
      d.tab[n] == Inode(if block then BlockSpecial else CharSpecial, perms, 1, size, NO_ZONES[0 := rdev % 65536])
  }

  ghost predicate KidsAt(d: Disk, t: Node, k: nat, n: nat, z: nat)
    requires t.DirNode? && k <= |t.kids|
    decreases t, 0, k
  {
    k == 0 ||
    (KidsAt(d, t, k - 1, n, z) &&
     NodeAt(d, t.kids[k - 1].node, n + KidInode(t, k - 1), n, z + KidZone(t, k - 1)))
  }

  // ---------- A tree depends on its own inodes and zones only ----------

  /** Equal in the inodes n..n2 and the zones z..z2. */
  ghost predicate Same(d: Disk, d': Disk, n: nat, n2: nat, z: nat, z2: nat) {
    && |d.tab| == |d'.tab| && |d.zone| == |d'.zone|
    && (forall i :: n <= i < n2 && i < |d.tab| ==> d.tab[i] == d'.tab[i])
    && (forall i :: z <= i < z2 && i < |d.zone| ==> d.zone[i] == d'.zone[i])
  }

  lemma SameAsItself(d: Disk, n: nat, n2: nat, z: nat, z2: nat)
    ensures Same(d, d, n, n2, z, z2)
  {
  }

  lemma SameThrough(a: Disk, b: Disk, c: Disk, n: nat, n2: nat, z: nat, z2: nat)
    requires Same(a, b, n, n2, z, z2) && Same(b, c, n, n2, z, z2)
    ensures Same(a, c, n, n2, z, z2)
  {
  }

  lemma EntriesStay(d: Disk, d': Disk, t: Node, k: nat, n: nat, parent: nat, z: nat)
    requires t.DirNode? && k <= |t.kids| && EntriesAt(d, t, k, n, parent, z)
    requires |d'.zone| == |d.zone|
    requires forall j :: 0 <= j < DirBlocks(k) ==> OwnSame(d, d', t, k, z, j)
    ensures EntriesAt(d', t, k, n, parent, z)
  {
    forall j | 0 <= j < DirBlocks(k) ensures BlockHolds(d', t, k, n, parent, z, j) {
      assert OwnSame(d, d', t, k, z, j);
      assert BlockHolds(d, t, k, n, parent, z, j);
    }
  }

  /** The directory's j-th block is the same on both disks. */
  ghost predicate OwnSame(d: Disk, d': Disk, t: Node, k: nat, z: nat, j: nat)
    requires t.DirNode? && k <= |t.kids| && j < DirBlocks(k)
  {
    z + DirZone(t, j) < |d.zone| && z + DirZone(t, j) < |d'.zone| ==> d.zone[z + DirZone(t, j)] == d'.zone[z + DirZone(t, j)]
  }

  lemma DirZoneBelow(t: Node, k: nat, j: nat)
    requires t.DirNode? && k <= |t.kids| && j < DirBlocks(k)
    ensures DirZone(t, j) < ZonesUpTo(t, k)
  {
    if j > 0 {
      var i := NR_DIR_ENTRIES * j - 2;
      assert (i + 2) % NR_DIR_ENTRIES == 0;
      UpToMonotone(t, i + 1, k);
    }
  }

  lemma EntriesKept(d: Disk, d': Disk, t: Node, k: nat, n: nat, parent: nat, z: nat)
    requires t.DirNode? && k <= |t.kids| && EntriesAt(d, t, k, n, parent, z)
    requires Same(d, d', n, n, z, z + ZonesUpTo(t, k))
    ensures EntriesAt(d', t, k, n, parent, z)
  {
    forall j | 0 <= j < DirBlocks(k) ensures OwnSame(d, d', t, k, z, j) { DirZoneBelow(t, k, j); }
    EntriesStay(d, d', t, k, n, parent, z);
  }

  lemma BlocksKept(d: Disk, d': Disk, content: seq<bv8>, m: nat, z: nat)
    requires BlocksAt(d, content, m, z) && Same(d, d', 0, 0, z, z + FileZones(m))
    ensures BlocksAt(d', content, m, z)
  {
    forall j | 0 <= j < m ensures ChunkAt(d', content, j, z) {
      assert ChunkAt(d, content, j, z);
      assert BlockPos(j) < FileZones(m);
    }
  }

  lemma {:induction false} NodeKept(d: Disk, d': Disk, t: Node, n: nat, parent: nat, z: nat)
    requires NodeAt(d, t, n, parent, z) && Same(d, d', n, n + Inodes(t), z, z + Zones(t))
    ensures NodeAt(d', t, n, parent, z)
    decreases t, 1, 0
  {
    match t
    case DirNode(_, kids) =>
      EntriesKept(d, d', t, |kids|, n, parent, z);
      KidsKept(d, d', t, |kids|, n, z);
    case FileNode(_, content) =>
      BlocksKept(d, d', content, Blocks(|content|), z);
    case DeviceNode(_, _, _, _) =>
  }

  lemma {:induction false} KidsKept(d: Disk, d': Disk, t: Node, k: nat, n: nat, z: nat)
    requires t.DirNode? && k <= |t.kids| && KidsAt(d, t, k, n, z)
    requires Same(d, d', n + 1, n + 1 + InodesUpTo(t, k), z + 1, z + ZonesUpTo(t, k))
    ensures KidsAt(d', t, k, n, z)
    decreases t, 0, k
  {
    if k > 0 {
      KidsKept(d, d', t, k - 1, n, z);
      NodeKept(d, d', t.kids[k - 1].node, n + KidInode(t, k - 1), n, z + KidZone(t, k - 1));
    }
  }

  /** Writing the directory's own inode and one of its own blocks leaves its children alone. */
  lemma {:induction false} KidsKeptByOwn(d: Disk, d': Disk, t: Node, k: nat, n: nat, z: nat, j: nat)
    requires t.DirNode? && k <= |t.kids| && KidsAt(d, t, k, n, z)
    requires j > 0 ==> NR_DIR_ENTRIES * j - 2 <= |t.kids|
    requires Same(d, d', n + 1, |d.tab|, 0, z + DirZone(t, j)) && Same(d, d', n + 1, |d.tab|, z + DirZone(t, j) + 1, |d.zone|)
    ensures KidsAt(d', t, k, n, z)
    decreases k
  {
    if k > 0 {
      KidsKeptByOwn(d, d', t, k - 1, n, z, j);
      OwnBlock(t, j, k - 1);
      NodeKept(d, d', t.kids[k - 1].node, n + KidInode(t, k - 1), n, z + KidZone(t, k - 1));
    }
  }

  lemma {:induction false} KidAt(d: Disk, t: Node, k: nat, n: nat, z: nat, i: nat)
    requires t.DirNode? && i < k <= |t.kids| && KidsAt(d, t, k, n, z)
    ensures NodeAt(d, t.kids[i].node, n + KidInode(t, i), n, z + KidZone(t, i))
    decreases k
  {
    if i < k - 1 { KidAt(d, t, k - 1, n, z, i); }
  }

  // ---------- The disk as it is stored in the blocks of an image ----------

  function InodeBlock(n: nat): nat
    requires n >= 1
  {
    (n - 1) / INODES_PER_BLOCK + INODE_OFFSET
  }

  /** s_firstdatazone */
  function First(inodes: nat): nat { INODE_OFFSET + (inodes + INODES_PER_BLOCK - 1) / INODES_PER_BLOCK }

  function InodeAt(image: seq<Block>, n: nat): Inode
    requires n >= 1 && InodeBlock(n) < |image|
  {
    AsInodes(image[InodeBlock(n)])[(n - 1) % INODES_PER_BLOCK]
  }

  function SetInode(image: seq<Block>, n: nat, inode: Inode): seq<Block>
    requires n >= 1 && InodeBlock(n) < |image|
  {
    image[InodeBlock(n) := InodeTable(AsInodes(image[InodeBlock(n)])[(n - 1) % INODES_PER_BLOCK := inode])]
  }

  ghost function View(image: seq<Block>, inodes: nat): (d: Disk)
    requires First(inodes) <= |image|
    ensures |d.tab| == inodes + 1 && |d.zone| == |image|
  {
    Disk(seq(inodes + 1, i requires 0 <= i <= inodes => if i == 0 then NO_INODE else InodeAt(image, i)),
         seq(|image|, b requires 0 <= b < |image| => if b < First(inodes) then Zero else image[b]))
  }

  lemma InodeInTable(n: nat, inodes: nat)
    requires 1 <= n <= inodes
    ensures INODE_OFFSET <= InodeBlock(n) < First(inodes)
  {
  }

  lemma OtherInode(n: nat, m: nat)
    requires n >= 1 && m >= 1 && n != m && InodeBlock(n) == InodeBlock(m)
    ensures (n - 1) % INODES_PER_BLOCK != (m - 1) % INODES_PER_BLOCK
  {
  }

  lemma ViewAt(image: seq<Block>, inodes: nat, n: nat)
    requires First(inodes) <= |image| && 1 <= n <= inodes
    ensures InodeBlock(n) < First(inodes) && View(image, inodes).tab[n] == InodeAt(image, n)
  {
  }

  lemma InodeIsSet(image: seq<Block>, inodes: nat, n: nat, x: Inode)
    requires First(inodes) <= |image| && 1 <= n <= inodes
    ensures InodeBlock(n) < First(inodes)
    ensures View(SetInode(image, n, x), inodes) == View(image, inodes).(tab := View(image, inodes).tab[n := x])
  {
    InodeInTable(n, inodes);
    var after := SetInode(image, n, x);
    forall m | 1 <= m <= inodes
      ensures InodeAt(after, m) == if m == n then x else InodeAt(image, m)
    {
      if m != n && InodeBlock(m) == InodeBlock(n) { OtherInode(n, m); }
    }
    assert View(after, inodes).tab == View(image, inodes).tab[n := x];
    assert View(after, inodes).zone == View(image, inodes).zone;
  }

  lemma ZoneIsSet(image: seq<Block>, inodes: nat, b: nat, x: Block)
    requires First(inodes) <= b < |image|
    ensures View(image[b := x], inodes) == View(image, inodes).(zone := View(image, inodes).zone[b := x])
  {
    forall m | 1 <= m <= inodes ensures InodeAt(image[b := x], m) == InodeAt(image, m) { InodeInTable(m, inodes); }
    assert View(image[b := x], inodes).tab == View(image, inodes).tab;
    assert View(image[b := x], inodes).zone == View(image, inodes).zone[b := x];
  }

  lemma MapIsSet(image: seq<Block>, inodes: nat, b: nat, x: Block)
    requires First(inodes) <= |image| && b < INODE_OFFSET
    ensures View(image[b := x], inodes) == View(image, inodes)
  {
    forall m | 1 <= m <= inodes ensures InodeAt(image[b := x], m) == InodeAt(image, m) { InodeInTable(m, inodes); }
    assert View(image[b := x], inodes).tab == View(image, inodes).tab;
    assert View(image[b := x], inodes).zone == View(image, inodes).zone;
  }
}
