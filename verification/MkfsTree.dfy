/** How a directory grows on the disk, entry by entry, and when a tree fits. */
module MkfsTree {
  import opened FsDisk
  import opened FsTree
  import opened MkfsDisk

  // ---------- What fits ----------

  /** Directories that fit into their direct zones, and files that need no double indirect block. */
  predicate Shape(t: Node)
    decreases t, 1, 0
  {
    match t
    case DirNode(_, kids) => ShapeUpTo(t, |kids|)
    case FileNode(_, content) => Blocks(|content|) <= NR_DZONE_NUM + NR_INDIRECTS
    case DeviceNode(_, _, _, _) => true
  }

  predicate ShapeUpTo(t: Node, k: nat)
    requires t.DirNode? && k <= |t.kids|
    decreases t, 0, k
  {
    k == 0 || (DirBlocks(k) <= NR_DZONE_NUM && ShapeUpTo(t, k - 1) && Shape(t.kids[k - 1].node))
  }

  /** The tree fits with its root in inode n and its zones from z on. The last inode is never used. */
  predicate Fits(t: Node, n: nat, z: nat, inodes: nat, blocks: nat) {
    Shape(t) && n + Inodes(t) <= inodes && z + Zones(t) <= blocks
  }

  predicate FitsUpTo(t: Node, k: nat, n: nat, z: nat, inodes: nat, blocks: nat)
    requires t.DirNode? && k <= |t.kids|
  {
    ShapeUpTo(t, k) && n + 1 + InodesUpTo(t, k) <= inodes && z + ZonesUpTo(t, k) <= blocks
  }

  lemma FitsNext(t: Node, k: nat, n: nat, z: nat, inodes: nat, blocks: nat)
    requires t.DirNode? && k < |t.kids|
    ensures FitsUpTo(t, k + 1, n, z, inodes, blocks) <==>
      FitsUpTo(t, k, n, z, inodes, blocks) && DirBlocks(k + 1) <= NR_DZONE_NUM &&
      Fits(t.kids[k].node, n + KidInode(t, k), z + KidZone(t, k), inodes, blocks)
  {
  }

  lemma {:induction false} FitsBefore(t: Node, k: nat, i: nat, n: nat, z: nat, inodes: nat, blocks: nat)
    requires t.DirNode? && i <= k <= |t.kids| && FitsUpTo(t, k, n, z, inodes, blocks)
    ensures FitsUpTo(t, i, n, z, inodes, blocks)
    decreases k
  {
    if i < k { FitsBefore(t, k - 1, i, n, z, inodes, blocks); }
  }

  // ---------- An empty directory ----------

  lemma EmptyDirectory(d: Disk, t: Node, n: nat, parent: nat, z: nat, nlinks: nat)
    requires t.DirNode? && n < |d.tab| && z < |d.zone|
    requires d.tab[n] == Inode(Directory, t.perms, nlinks, 32, NO_ZONES[0 := z])
    requires d.zone[z] == Dir(DirBlock(t, 0, n, parent, 0))
    ensures DirAt(d, t, 0, n, parent, z, nlinks)
  {
    assert DirZones(t, 0, z) == NO_ZONES[0 := z];
    assert BlockHolds(d, t, 0, n, parent, z, 0);
  }

  lemma DirBlockAt(t: Node, k: nat, n: nat, parent: nat, j: nat, i: nat)
    requires t.DirNode? && k <= |t.kids| && i < NR_DIR_ENTRIES
    ensures DirBlock(t, k, n, parent, j)[i] == DirEntry(t, k, n, parent, NR_DIR_ENTRIES * j + i)
  {
  }

  /** "." and ".." in a cleared block. */
  lemma DotsEntered(t: Node, n: nat, parent: nat)
    requires t.DirNode? && n >= 1 && parent >= 1
    ensures FreeSlot(AsDir(Zero), 0) == 0
    ensures var one := Into(AsDir(Zero), Entry(n, Pad(DOT)));
      && AsDir(Dir(one)) == one && FreeSlot(one, 0) == 1
      && Into(one, Entry(parent, Pad(DOTDOT))) == DirBlock(t, 0, n, parent, 0)
  {
    hide Pad, DirBlock;
    var one := Into(AsDir(Zero), Entry(n, Pad(DOT)));
    assert one[0].inum == n && one[1].inum == 0;
    assert FreeSlot(one, 0) == 1;
    var two := Into(one, Entry(parent, Pad(DOTDOT)));
    forall i | 0 <= i < NR_DIR_ENTRIES ensures two[i] == DirBlock(t, 0, n, parent, 0)[i] { DirBlockAt(t, 0, n, parent, 0, i); }
    assert two == DirBlock(t, 0, n, parent, 0);
  }

  /** add_zone() to an inode without zones. */
  lemma FirstZone(d: Disk, n: nat, z: nat, bytes: nat, next: nat)
    requires n < |d.tab| && d.tab[n].zone == NO_ZONES
    ensures IndirectIn(d, n, 0, |d.zone|) && Addable(d, n, next) && !NeedsIndirect(d.tab[n])
    ensures var p := d.tab[n];
      Added(d, n, z, bytes, next) == Disk(d.tab[n := p.(size := p.size + bytes, zone := NO_ZONES[0 := z % 0x10000])], d.zone)
  {
    assert FirstZero(d.tab[n].zone, NR_DZONE_NUM, 0) == 0;
  }

  /** enter_dir() into the first block. */
  lemma FirstBlock(d: Disk, n: nat, entry: Entry, z: nat, next: nat, was: seq<Entry>)
    requires n < |d.tab| && 0 < z < next <= |d.zone| && d.tab[n].zone == NO_ZONES[0 := z]
    requires AsDir(d.zone[z]) == was && |was| == NR_DIR_ENTRIES && FreeSlot(was, 0) < NR_DIR_ENTRIES
    ensures DirectsIn(d, n, z, next) && DirectsIn(d, n, 0, |d.zone|) && Enterable(d, n, next) && !OpensBlock(d, n)
    ensures Entered(d, n, entry, next) == Disk(d.tab, d.zone[z := Dir(Into(was, entry))])
  {
    hide AsDir, FreeSlot, Into;
    assert Room(d, n, 0) == 0;
    assert d.tab[n := d.tab[n]] == d.tab;
  }

  // ---------- One more entry ----------

  /** The directory's blocks lie before the zones of the child being entered. */
  lemma OwnBefore(t: Node, k: nat, j: nat)
    requires t.DirNode? && k < |t.kids| && j < DirBlocks(k + 1)
    ensures j > 0 ==> NR_DIR_ENTRIES * j - 2 <= |t.kids|
    ensures DirZone(t, j) < KidZone(t, k)
    ensures j < DirBlocks(k) ==> DirZone(t, j) < ZonesUpTo(t, k)
  {
    if j < DirBlocks(k) {
      DirZoneBelow(t, k, j);
    } else {
      assert j == DirBlocks(k) && k == NR_DIR_ENTRIES * j - 2;
      assert (k + 2) % NR_DIR_ENTRIES == 0;
    }
  }

  lemma SlotOf(t: Node, k: nat, n: nat, parent: nat, j: nat)
    requires t.DirNode? && k < |t.kids| && n >= 1 && parent >= 1 && j < DirBlocks(k)
    ensures FreeSlot(DirBlock(t, k, n, parent, j), 0) == if NR_DIR_ENTRIES * (j + 1) <= k + 2 then NR_DIR_ENTRIES else k + 2 - NR_DIR_ENTRIES * j
  {
    var b := DirBlock(t, k, n, parent, j);
    hide Pad, DirBlock, KidInode;
    var r := FreeSlot(b, 0);
    forall i | 0 <= i < NR_DIR_ENTRIES ensures b[i].inum == 0 <==> NR_DIR_ENTRIES * j + i >= k + 2 {
      EntryInUse(t, k, n, parent, j, i);
    }
    var s := k + 2 - NR_DIR_ENTRIES * j;
    assert s > 0;
    if s < NR_DIR_ENTRIES { assert b[s].inum == 0; }
    if r < NR_DIR_ENTRIES { assert b[r].inum == 0; }
  }

  lemma EntryInUse(t: Node, k: nat, n: nat, parent: nat, j: nat, i: nat)
    requires t.DirNode? && k <= |t.kids| && n >= 1 && parent >= 1 && i < NR_DIR_ENTRIES
    ensures DirBlock(t, k, n, parent, j)[i].inum == 0 <==> NR_DIR_ENTRIES * j + i >= k + 2
  {
    DirBlockAt(t, k, n, parent, j, i);
  }

  /** The entry of child k goes to the last block if that has room. */
  lemma BlockTakesEntry(t: Node, k: nat, n: nat, parent: nat)
    requires t.DirNode? && k < |t.kids| && n >= 1 && parent >= 1 && Fresh(k) == 0
    ensures var e, j := Entry(n + KidInode(t, k), Pad(t.kids[k].name)), (k + 2) / NR_DIR_ENTRIES;
      && j < DirBlocks(k) && FreeSlot(DirBlock(t, k, n, parent, j), 0) < NR_DIR_ENTRIES
      && Into(DirBlock(t, k, n, parent, j), e) == DirBlock(t, k + 1, n, parent, j)
  {
    var e, j := Entry(n + KidInode(t, k), Pad(t.kids[k].name)), (k + 2) / NR_DIR_ENTRIES;
    SlotOf(t, k, n, parent, j);
    hide Pad, DirBlock, FreeSlot, KidInode;
    var b := Into(DirBlock(t, k, n, parent, j), e);
    forall i | 0 <= i < NR_DIR_ENTRIES ensures b[i] == DirBlock(t, k + 1, n, parent, j)[i] {
      DirBlockAt(t, k, n, parent, j, i);
      DirBlockAt(t, k + 1, n, parent, j, i);
    }
    assert b == DirBlock(t, k + 1, n, parent, j);
  }

  /** Otherwise it is the first of a new block. */
  lemma NewBlockTakesEntry(t: Node, k: nat, n: nat, parent: nat)
    requires t.DirNode? && k < |t.kids| && Fresh(k) == 1
    ensures var e, j := Entry(n + KidInode(t, k), Pad(t.kids[k].name)), (k + 2) / NR_DIR_ENTRIES;
      j == DirBlocks(k) && AsDir(Zero)[0 := e] == DirBlock(t, k + 1, n, parent, j)
  {
    var e, j := Entry(n + KidInode(t, k), Pad(t.kids[k].name)), (k + 2) / NR_DIR_ENTRIES;
    hide Pad, DirBlock, KidInode;
    var b := AsDir(Zero)[0 := e];
    forall i | 0 <= i < NR_DIR_ENTRIES ensures b[i] == DirBlock(t, k + 1, n, parent, j)[i] {
      DirBlockAt(t, k + 1, n, parent, j, i);
    }
    assert b == DirBlock(t, k + 1, n, parent, j);
  }

  lemma OtherBlocks(t: Node, k: nat, n: nat, parent: nat, j: nat)
    requires t.DirNode? && k < |t.kids| && j < (k + 2) / NR_DIR_ENTRIES
    ensures DirBlock(t, k, n, parent, j) == DirBlock(t, k + 1, n, parent, j)
  {
    hide Pad, DirBlock, KidInode;
    forall i | 0 <= i < NR_DIR_ENTRIES ensures DirBlock(t, k, n, parent, j)[i] == DirBlock(t, k + 1, n, parent, j)[i] {
      DirBlockAt(t, k, n, parent, j, i);
      DirBlockAt(t, k + 1, n, parent, j, i);
    }
  }

  /** A directory with k children, about to get another, in the zones z..next. */
  ghost predicate Growing(d: Disk, t: Node, k: nat, n: nat, parent: nat, z: nat, nlinks: nat) {
    t.DirNode? && k < |t.kids| && n >= 1 && parent >= 1 && z >= INODE_OFFSET &&
    z + ZonesUpTo(t, k) <= |d.zone| && DirAt(d, t, k, n, parent, z, nlinks)
  }

  lemma ZoneOf(d: Disk, t: Node, k: nat, n: nat, parent: nat, z: nat, nlinks: nat, j: nat)
    requires Growing(d, t, k, n, parent, z, nlinks) && j < NR_DZONE_NUM
    ensures j >= DirBlocks(k) ==> d.tab[n].zone[j] == 0
    ensures j < DirBlocks(k) ==>
      && d.tab[n].zone[j] == z + DirZone(t, j) && z <= d.tab[n].zone[j] < z + ZonesUpTo(t, k)
      && AsDir(d.zone[d.tab[n].zone[j]]) == DirBlock(t, k, n, parent, j)
  {
    if j < DirBlocks(k) {
      DirZoneBelow(t, k, j);
      assert BlockHolds(d, t, k, n, parent, z, j);
    }
  }

  lemma ZonesInside(d: Disk, t: Node, k: nat, n: nat, parent: nat, z: nat, nlinks: nat)
    requires Growing(d, t, k, n, parent, z, nlinks)
    ensures DirectsIn(d, n, z, z + ZonesUpTo(t, k)) && DirectsIn(d, n, 0, |d.zone|)
  {
    forall j | 0 <= j < NR_DZONE_NUM && d.tab[n].zone[j] != 0
      ensures z <= d.tab[n].zone[j] < z + ZonesUpTo(t, k)
    {
      ZoneOf(d, t, k, n, parent, z, nlinks, j);
    }
  }

  /** enter_dir() finds room behind the entries there are. */
  lemma {:induction false} RoomIsNext(d: Disk, t: Node, k: nat, n: nat, parent: nat, z: nat, nlinks: nat, j: nat)
    requires Growing(d, t, k, n, parent, z, nlinks) && DirectsIn(d, n, 0, |d.zone|)
    requires j <= (k + 2) / NR_DIR_ENTRIES <= NR_DZONE_NUM
    ensures Room(d, n, j) == (k + 2) / NR_DIR_ENTRIES
    decreases NR_DZONE_NUM - j
  {
    if j < NR_DZONE_NUM {
      ZoneOf(d, t, k, n, parent, z, nlinks, j);
      if j < DirBlocks(k) { SlotOf(t, k, n, parent, j); }
    }
    if j < (k + 2) / NR_DIR_ENTRIES { RoomIsNext(d, t, k, n, parent, z, nlinks, j + 1); }
  }

  /** enter_dir() and incr_size() for child k. */
  ghost function WithEntry(d: Disk, t: Node, k: nat, n: nat, next: nat): Disk
    requires t.DirNode? && k < |t.kids| && DirectsIn(d, n, 0, |d.zone|) && Enterable(d, n, next)
  {
    Larger(Entered(d, n, Entry(n + KidInode(t, k), Pad(t.kids[k].name)), next), n)
  }

  ghost function Larger(d: Disk, n: nat): Disk
    requires n < |d.tab|
  {
    Disk(d.tab[n := d.tab[n].(size := d.tab[n].size + 16)], d.zone)
  }

  lemma WhenEnterable(d: Disk, t: Node, k: nat, n: nat, parent: nat, z: nat, nlinks: nat)
    requires Growing(d, t, k, n, parent, z, nlinks)
    ensures DirectsIn(d, n, z, z + ZonesUpTo(t, k)) && DirectsIn(d, n, 0, |d.zone|)
    ensures var next := z + ZonesUpTo(t, k);
      && (Enterable(d, n, next) <==> DirBlocks(k + 1) <= NR_DZONE_NUM && next + Fresh(k) <= |d.zone|)
      && (Enterable(d, n, next) ==> Fresh(k) == if OpensBlock(d, n) then 1 else 0)
  {
    ZonesInside(d, t, k, n, parent, z, nlinks);
    RoomIsNext(d, t, k, n, parent, z, nlinks, 0);
    var j := (k + 2) / NR_DIR_ENTRIES;
    if j < NR_DZONE_NUM { ZoneOf(d, t, k, n, parent, z, nlinks, j); }
  }

  /** enter_dir() and incr_size() into a block with room. */
  lemma EnteredOld(d: Disk, n: nat, entry: Entry, next: nat, k: nat, dir: seq<Entry>)
    requires DirectsIn(d, n, 0, |d.zone|) && Enterable(d, n, next)
    requires Room(d, n, 0) == k && k < NR_DZONE_NUM && d.tab[n].zone[k] != 0
    requires FreeSlot(AsDir(d.zone[d.tab[n].zone[k]]), 0) < NR_DIR_ENTRIES
    requires Into(AsDir(d.zone[d.tab[n].zone[k]]), entry) == dir
    ensures Larger(Entered(d, n, entry, next), n) ==
      Disk(d.tab[n := d.tab[n].(size := d.tab[n].size + 16)], d.zone[d.tab[n].zone[k] := Dir(dir)])
  {
    hide AsDir, Into, FreeSlot, Room;
    var p := d.tab[n];
    assert d.tab[n := p][n := p.(size := p.size + 16)] == d.tab[n := p.(size := p.size + 16)];
  }

  /** enter_dir() and incr_size() into a new block. */
  lemma EnteredNew(d: Disk, n: nat, entry: Entry, next: nat, k: nat)
    requires DirectsIn(d, n, 0, |d.zone|) && Enterable(d, n, next)
    requires Room(d, n, 0) == k && k < NR_DZONE_NUM && d.tab[n].zone[k] == 0
    ensures next < |d.zone|
    ensures var p := d.tab[n];
      Larger(Entered(d, n, entry, next), n) ==
        Disk(d.tab[n := p.(size := p.size + 16, zone := p.zone[k := next])], d.zone[next := Dir(AsDir(Zero)[0 := entry])])
  {
    hide AsDir, FreeSlot, Room;
    var p := d.tab[n];
    var p1 := p.(zone := p.zone[k := next]);
    var b := Dir(AsDir(Zero)[0 := entry]);
    assert d.zone[next := Zero][next := b] == d.zone[next := b];
    assert d.tab[n := p1][n := p1.(size := p.size + 16)] == d.tab[n := p1.(size := p.size + 16)];
  }

  /** The place of child k's entry: the j-th block, zone `own`. */
  ghost predicate EntryGoes(d: Disk, t: Node, k: nat, n: nat, parent: nat, z: nat, j: nat, own: nat) {
    t.DirNode? && k < |t.kids| && n < |d.tab| && DirBlocks(k + 1) <= NR_DZONE_NUM && own < |d.zone| &&
    j == (k + 2) / NR_DIR_ENTRIES < NR_DZONE_NUM && NR_DIR_ENTRIES * j - 2 <= k && own == z + DirZone(t, j) < z + KidZone(t, k)
  }

  /** The disk with child k's entry in the j-th block, zone `own`. */
  ghost predicate EntryIn(d: Disk, d': Disk, t: Node, k: nat, n: nat, parent: nat, z: nat, j: nat, own: nat) {
    EntryGoes(d, t, k, n, parent, z, j, own) &&
    (Fresh(k) == 1 ==> own == z + ZonesUpTo(t, k)) &&
    var p := d.tab[n];
    var p' := if Fresh(k) == 0 then p.(size := p.size + 16) else p.(size := p.size + 16, zone := p.zone[j := own]);
    d' == Disk(d.tab[n := p'], d.zone[own := Dir(DirBlock(t, k + 1, n, parent, j))])
  }

  lemma EntryGoesThere(d: Disk, t: Node, k: nat, n: nat, parent: nat, z: nat, nlinks: nat)
    requires Growing(d, t, k, n, parent, z, nlinks)
    requires DirectsIn(d, n, 0, |d.zone|) && Enterable(d, n, z + ZonesUpTo(t, k))
    ensures var j := (k + 2) / NR_DIR_ENTRIES;
      && j < NR_DZONE_NUM && Room(d, n, 0) == j && NR_DIR_ENTRIES * j - 2 <= k && n < |d.tab|
      && EntryGoes(d, t, k, n, parent, z, j, z + DirZone(t, j))
      && (Fresh(k) == 0 ==> d.tab[n].zone[j] == z + DirZone(t, j) && AsDir(d.zone[z + DirZone(t, j)]) == DirBlock(t, k, n, parent, j))
      && (Fresh(k) == 1 ==> d.tab[n].zone[j] == 0 && DirZone(t, j) == ZonesUpTo(t, k))
  {
    var j := (k + 2) / NR_DIR_ENTRIES;
    BlockOf(k);
    hide DirBlock, AsDir, FreeSlot, DirAt, Entered, DirZones, DirBlocks, Fresh, Room;
    RoomIsNext(d, t, k, n, parent, z, nlinks, 0);
    ZoneOf(d, t, k, n, parent, z, nlinks, j);
  }

  /** The block that entry k+2 goes to. */
  lemma BlockOf(k: nat)
    ensures var j := (k + 2) / NR_DIR_ENTRIES;
      && DirBlocks(k + 1) == j + 1 && NR_DIR_ENTRIES * j - 2 <= k && (Fresh(k) == 0 || Fresh(k) == 1)
      && (Fresh(k) == 0 ==> DirBlocks(k) == j + 1)
      && (Fresh(k) == 1 ==> DirBlocks(k) == j && k == NR_DIR_ENTRIES * j - 2 && j > 0)
  {
  }

  lemma EnteredInLast(d: Disk, t: Node, k: nat, n: nat, parent: nat, z: nat, nlinks: nat)
    requires Growing(d, t, k, n, parent, z, nlinks) && Fresh(k) == 0
    requires DirectsIn(d, n, 0, |d.zone|) && Enterable(d, n, z + ZonesUpTo(t, k))
    ensures var j := (k + 2) / NR_DIR_ENTRIES;
      && NR_DIR_ENTRIES * j - 2 <= |t.kids|
      && EntryIn(d, WithEntry(d, t, k, n, z + ZonesUpTo(t, k)), t, k, n, parent, z, j, z + DirZone(t, j))
  {
    hide EntryGoes, DirBlock, Into, FreeSlot, Pad, DirAt, Room, AsDir, Entered, Enterable, DirectsIn, InodesUpTo, ZonesUpTo;
    var j := (k + 2) / NR_DIR_ENTRIES;
    EntryGoesThere(d, t, k, n, parent, z, nlinks);
    BlockTakesEntry(t, k, n, parent);
    EnteredOld(d, n, Entry(n + KidInode(t, k), Pad(t.kids[k].name)), z + ZonesUpTo(t, k), j, DirBlock(t, k + 1, n, parent, j));
  }

  lemma EnteredInNew(d: Disk, t: Node, k: nat, n: nat, parent: nat, z: nat, nlinks: nat)
    requires Growing(d, t, k, n, parent, z, nlinks) && Fresh(k) == 1
    requires DirectsIn(d, n, 0, |d.zone|) && Enterable(d, n, z + ZonesUpTo(t, k))
    ensures var j := (k + 2) / NR_DIR_ENTRIES;
      && NR_DIR_ENTRIES * j - 2 <= |t.kids|
      && EntryIn(d, WithEntry(d, t, k, n, z + ZonesUpTo(t, k)), t, k, n, parent, z, j, z + DirZone(t, j))
  {
    hide EntryGoes, DirBlock, Into, FreeSlot, Pad, DirAt, Room, AsDir, Entered, Enterable, DirectsIn, InodesUpTo, ZonesUpTo, DirZone;
    var j := (k + 2) / NR_DIR_ENTRIES;
    EntryGoesThere(d, t, k, n, parent, z, nlinks);
    NewBlockTakesEntry(t, k, n, parent);
    EnteredNew(d, n, Entry(n + KidInode(t, k), Pad(t.kids[k].name)), z + ZonesUpTo(t, k), j);
  }

  lemma ZonesGrow(t: Node, k: nat, z: nat)
    requires t.DirNode? && k < |t.kids| && DirBlocks(k + 1) <= NR_DZONE_NUM
    ensures Fresh(k) == 0 ==> DirZones(t, k, z) == DirZones(t, k + 1, z)
    ensures Fresh(k) == 1 ==> DirZones(t, k, z)[(k + 2) / NR_DIR_ENTRIES := z + ZonesUpTo(t, k)] == DirZones(t, k + 1, z)
  {
    if Fresh(k) == 1 {
      assert k == NR_DIR_ENTRIES * ((k + 2) / NR_DIR_ENTRIES) - 2;
    } else {
      assert DirBlocks(k) == DirBlocks(k + 1);
      assert forall j :: 0 <= j < NR_ZONE_NUMS ==> DirZones(t, k, z)[j] == DirZones(t, k + 1, z)[j];
    }
  }

  lemma EntriesGrow(d: Disk, d': Disk, t: Node, k: nat, n: nat, parent: nat, z: nat, nlinks: nat, j: nat, own: nat)
    requires Growing(d, t, k, n, parent, z, nlinks) && EntryIn(d, d', t, k, n, parent, z, j, own)
    ensures EntriesAt(d', t, k + 1, n, parent, z)
  {
    hide DirBlock, Pad, Subdirs, DirZones, InodesUpTo;
    BlockOf(k);
    var k1 := k + 1;
    forall i | 0 <= i < DirBlocks(k1) ensures BlockHolds(d', t, k1, n, parent, z, i) {
      OwnBefore(t, k, i);
      if i < j {
        assert BlockHolds(d, t, k, n, parent, z, i);
        OtherBlocks(t, k, n, parent, i);
        OwnApart(t, k, i, j);
      }
    }
  }

  /** Different blocks of a directory are different zones. */
  lemma OwnApart(t: Node, k: nat, i: nat, j: nat)
    requires t.DirNode? && i < j && NR_DIR_ENTRIES * j - 2 <= |t.kids|
    ensures DirZone(t, i) < DirZone(t, j)
  {
    OwnBefore(t, NR_DIR_ENTRIES * j - 3, i);
    assert Fresh(NR_DIR_ENTRIES * j - 3) == 0;
    UpToMonotone(t, NR_DIR_ENTRIES * j - 3, NR_DIR_ENTRIES * j - 2);
  }

  /** enter_dir() and incr_size(): the directory has one more child, its other children stay. */
  lemma DirGrows(d: Disk, d': Disk, t: Node, k: nat, n: nat, parent: nat, z: nat, nlinks: nat, j: nat, own: nat)
    requires Growing(d, t, k, n, parent, z, nlinks) && EntryIn(d, d', t, k, n, parent, z, j, own)
    requires KidsAt(d, t, k, n, z)
    ensures DirAt(d', t, k + 1, n, parent, z, nlinks) && KidsAt(d', t, k, n, z)
    ensures Same(d, d', 0, n, 0, z) && Same(d, d', n + 1, |d.tab|, 0, 0)
  {
    EntriesGrow(d, d', t, k, n, parent, z, nlinks, j, own);
    ZonesGrow(t, k, z);
    hide EntriesAt, DirZones, DirBlock, DirBlocks, Pad, ZonesUpTo, InodesUpTo, KidsAt, Fresh;
    KidsKeptByOwn(d, d', t, k, n, z, j);
  }

  /** What is done behind child k-1 leaves the directory and its children alone, the entry of child k too. */
  lemma DirKept(d: Disk, d': Disk, t: Node, k: nat, e: nat, n: nat, parent: nat, z: nat, nlinks: nat)
    requires t.DirNode? && k <= e <= |t.kids| && e <= k + 1
    requires DirAt(d, t, e, n, parent, z, nlinks) && KidsAt(d, t, k, n, z)
    requires Same(d, d', n, n + 1 + InodesUpTo(t, k), z, z + if e == k then ZonesUpTo(t, k) else KidZone(t, k))
    ensures DirAt(d', t, e, n, parent, z, nlinks) && KidsAt(d', t, k, n, z)
  {
    hide Pad, DirEntry, DirBlock, DirZones, Subdirs;
    KidsKept(d, d', t, k, n, z);
    forall j | 0 <= j < DirBlocks(e) ensures OwnSame(d, d', t, e, z, j) {
      if e == k { DirZoneBelow(t, k, j); } else { OwnBefore(t, k, j); }
    }
    EntriesStay(d, d', t, e, n, parent, z);
  }
}
