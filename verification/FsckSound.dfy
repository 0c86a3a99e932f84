/** What it means on any device when fsck has nothing to complain about. */
module FsckSound {
  import opened FsDisk
  import opened FsckState
  import opened FsckTrace
  import opened FsckDirs
  import opened FsckExact

  /** Bit k of the map that starts in block blkno; fsck takes bit 0 as set. */
  function DiskBit(dev: seq<Block>, blkno: nat, k: nat): bool
    requires blkno + k / BITS_PER_BLOCK < |dev|
  {
    k == 0 || AsBits(dev[blkno + k / BITS_PER_BLOCK])[k % BITS_PER_BLOCK]
  }

  /** The blocks of both maps are on the device. */
  predicate MapsFit(dev: seq<Block>, sb: Super) {
    && 1 < sb.firstdatazone < sb.nzones
    && SUPER_BLOCK + 1 + sb.ninodes / BITS_PER_BLOCK < |dev|
    && SUPER_BLOCK + 1 + sb.imapBlocks + (sb.nzones - sb.firstdatazone) / BITS_PER_BLOCK < |dev|
  }

  /** Zone z has its bit in the zone map. */
  predicate ZoneMarked(dev: seq<Block>, sb: Super, z: nat)
    requires MapsFit(dev, sb) && sb.firstdatazone <= z < sb.nzones
  {
    var k := z - sb.firstdatazone + 1;
    var last := sb.nzones - sb.firstdatazone;
    assert k / BITS_PER_BLOCK <= last / BITS_PER_BLOCK;
    DiskBit(dev, SUPER_BLOCK + 1 + sb.imapBlocks, k)
  }

  /** The maps on the disk are exactly those of the inodes and zones met, and every other inode is free. */
  ghost predicate MapsRight(dev: seq<Block>, sb: Super, tr: Trace)
    requires MapsFit(dev, sb)
  {
    && (forall z :: sb.firstdatazone <= z < sb.nzones ==> (ZoneMet(tr, z) <==> ZoneMarked(dev, sb, z)))
    && (forall i :: 1 <= i <= sb.ninodes ==>
          i / BITS_PER_BLOCK <= sb.ninodes / BITS_PER_BLOCK && (DiskBit(dev, SUPER_BLOCK + 1, i) <==> i in tr.met))
    && (forall i :: 1 <= i <= sb.ninodes && i !in tr.met ==> InodeOn(dev, sb, i).kind == NotAllocated)
  }

  /** Every inode met has as many entries naming it as its link count says, and no other has any. */
  ghost predicate LinksRight(dev: seq<Block>, sb: Super, tr: Trace) {
    forall i :: 1 <= i <= sb.ninodes ==> References(tr.links, i) == if i in tr.met then InodeOn(dev, sb, i).nlinks else 0
  }

  /** A consistent file system: the root and what it leads to, each inode reached from the root and each with all its zones
      and entries, no zone in two places, directories entered once, maps and link counts right. */
  ghost predicate Consistent(dev: seq<Block>, sb: Super, tr: Trace) {
    && AllTrue(dev, sb, tr) && AllNamed(tr) && AllOnce(sb, tr) && EnteredOnce(dev, sb, tr.met, tr.links, |tr.links|) && Tight(dev, sb, tr)
    && ROOT_INODE in tr.met && (forall k :: 0 <= k < |tr.met| ==> Complete(dev, sb, tr, tr.met[k]))
    && MapsFit(dev, sb) && MapsRight(dev, sb, tr) && LinksRight(dev, sb, tr)
  }

  /** What fsck has found when it is through: its own maps and counts are those of the walk, and agree with the disk. */
  lemma CleanIsConsistent(dev: seq<Block>, sb: Super, tr: Trace, inodeMap: seq<bool>, zoneMap: seq<bool>, count: seq<nat>)
    requires Honest(dev, sb, tr, inodeMap, zoneMap, count) && Settled(dev, sb, tr, []) && EnteredOnce(dev, sb, tr.met, tr.links, |tr.links|)
    requires Tight(dev, sb, tr)
    requires ROOT_INODE in tr.met
    requires MapsFit(dev, sb) && |inodeMap| > sb.ninodes && |zoneMap| > sb.nzones - sb.firstdatazone && |count| == sb.ninodes + 1
    requires forall k :: 0 <= k <= sb.nzones - sb.firstdatazone ==>
      k / BITS_PER_BLOCK <= (sb.nzones - sb.firstdatazone) / BITS_PER_BLOCK && DiskBit(dev, SUPER_BLOCK + 1 + sb.imapBlocks, k) == zoneMap[k]
    requires forall k :: 0 <= k <= sb.ninodes ==>
      k / BITS_PER_BLOCK <= sb.ninodes / BITS_PER_BLOCK && DiskBit(dev, SUPER_BLOCK + 1, k) == inodeMap[k]
    requires forall i :: 1 <= i <= sb.ninodes ==> count[i] == 0
    requires forall i :: 1 <= i <= sb.ninodes && !inodeMap[i] ==> InodeOn(dev, sb, i).kind == NotAllocated
    ensures Consistent(dev, sb, tr)
  {
    hide AllTrue, AllNamed, AllOnce, EnteredOnce, Tight, Complete, InodeOn, DiskBit, CountsTell, FewLinks, ZoneMet, LinksRight;
    LinksAreRight(dev, sb, tr, count);
    forall z | sb.firstdatazone <= z < sb.nzones ensures ZoneMet(tr, z) <==> ZoneMarked(dev, sb, z) {
      assert zoneMap[z - sb.firstdatazone + 1] <==> ZoneBit(sb, tr, z - sb.firstdatazone + 1);
    }
  }

  lemma LinksAreRight(dev: seq<Block>, sb: Super, tr: Trace, count: seq<nat>)
    requires CountsTell(dev, sb, tr, count) && FewLinks(dev, sb, tr) && |count| == sb.ninodes + 1
    requires forall k :: 0 <= k < |tr.met| ==> Complete(dev, sb, tr, tr.met[k])
    requires forall i :: 1 <= i <= sb.ninodes ==> count[i] == 0
    ensures LinksRight(dev, sb, tr)
  {
    hide InodeOn, References, FileCovered;
    forall i: nat | 1 <= i <= sb.ninodes ensures References(tr.links, i) == if i in tr.met then InodeOn(dev, sb, i).nlinks else 0 {
      var b := Balance(dev, sb, tr, i);
      assert count[i] == b % 256 && -LINK_MAX <= b <= LINK_MAX;
      if i in tr.met {
        var k :| 0 <= k < |tr.met| && tr.met[k] == i;
        assert Complete(dev, sb, tr, tr.met[k]);
      }
    }
  }

  lemma {:induction false} ManyReferences(links: seq<Link>, i: nat, s: set<Link>)
    requires forall l :: l in s ==> l in links && l.target == i
    ensures References(links, i) >= |s|
  {
    if links == [] {
      assert s == {};
    } else {
      var last, rest := links[|links|-1], s - {links[|links|-1]};
      ManyReferences(links[..|links|-1], i, rest);
      assert last in s ==> s == rest + {last};
      assert last !in s ==> s == rest;
    }
  }

  // ---------- Reading it off ----------

  /** A way along entries of directories, from the root to an inode. */
  ghost predicate Way(dev: seq<Block>, sb: Super, tr: Trace, way: seq<Link>, ino: nat) {
    && (forall k :: 0 <= k < |way| ==> TrueLink(dev, sb, tr, way[k]))
    && (forall k :: 1 <= k < |way| ==> way[k].dir == way[k-1].target)
    && if way == [] then ino == ROOT_INODE else way[0].dir == ROOT_INODE && way[|way|-1].target == ino
  }

  /** Every inode met is reached from the root. */
  lemma {:induction false} HasWay(dev: seq<Block>, sb: Super, tr: Trace, k: nat) returns (way: seq<Link>)
    requires AllTrue(dev, sb, tr) && AllNamed(tr) && k < |tr.met|
    ensures Way(dev, sb, tr, way, tr.met[k])
    decreases k
  {
    hide TrueLink, TrueRef;
    assert NamedBefore(tr, k);
    if tr.met[k] == ROOT_INODE {
      way := [];
    } else {
      var i :| 0 <= i < |tr.links| && tr.links[i].target == tr.met[k] && tr.links[i].dir in tr.met[..k];
      var j :| 0 <= j < k && tr.met[j] == tr.links[i].dir;
      var before := HasWay(dev, sb, tr, j);
      way := before + [tr.links[i]];
    }
  }

  lemma {:induction false} DirectPos(dev: seq<Block>, size: nat, zlist: seq<nat>, i: nat)
    requires i <= |zlist| && (i == 0 || BLOCK_SIZE * (i - 1) < size)
    ensures PosAfter(dev, size, zlist, i, 0, 0) == BLOCK_SIZE * i
  {
    if i > 0 { DirectPos(dev, size, zlist, i - 1); }
  }

  lemma {:induction false} DirectCovered(dev: seq<Block>, sb: Super, tr: Trace, ino: nat, ip: Inode, zlist: seq<nat>, i: nat, a: nat)
    requires a < i <= |zlist| && Covered(dev, sb, tr, ino, ip, zlist, i, 0, 0) && BLOCK_SIZE * a < ip.size
    ensures ZoneCovered(dev, sb, tr, ino, ip, zlist[a], 0, BLOCK_SIZE * a)
    decreases i
  {
    if a < i - 1 {
      DirectCovered(dev, sb, tr, ino, ip, zlist, i - 1, a);
    } else {
      DirectPos(dev, ip.size, zlist, a);
    }
  }

  /** A file or directory that has been met. */
  ghost predicate HasZones(dev: seq<Block>, sb: Super, tr: Trace, i: nat, a: nat) {
    i >= 1 && i in tr.met && a < NR_DZONE_NUM &&
    var ip := InodeOn(dev, sb, i);
    (ip.kind == Regular || ip.kind == Directory) && BLOCK_SIZE * a < ip.size && ip.zone[a] != 0
  }

  lemma DirectRef(dev: seq<Block>, sb: Super, tr: Trace, i: nat, a: nat)
    requires (forall k :: 0 <= k < |tr.met| ==> Complete(dev, sb, tr, tr.met[k])) && HasZones(dev, sb, tr, i, a)
    ensures Ref(i, InodeOn(dev, sb, i).zone[a], 0, BLOCK_SIZE * a) in tr.refs
  {
    hide InodeOn, Complete, SlotsDone, Covered;
    DirectZoneCovered(dev, sb, tr, i, a);
  }

  lemma DirectZoneCovered(dev: seq<Block>, sb: Super, tr: Trace, i: nat, a: nat)
    requires (forall k :: 0 <= k < |tr.met| ==> Complete(dev, sb, tr, tr.met[k])) && HasZones(dev, sb, tr, i, a)
    ensures ZoneCovered(dev, sb, tr, i, InodeOn(dev, sb, i), InodeOn(dev, sb, i).zone[a], 0, BLOCK_SIZE * a)
  {
    hide ZoneCovered, InodeOn, Covered, PosAfter;
    var ip := InodeOn(dev, sb, i);
    var k :| 0 <= k < |tr.met| && tr.met[k] == i;
    assert Complete(dev, sb, tr, tr.met[k]);
    DirectCovered(dev, sb, tr, i, ip, ip.zone[..NR_DZONE_NUM], NR_DZONE_NUM, a);
  }

  /** No direct zone is in two places, of one file or of two. */
  lemma ZonesApart(dev: seq<Block>, sb: Super, tr: Trace, i: nat, a: nat, k: nat, b: nat)
    requires Consistent(dev, sb, tr) && HasZones(dev, sb, tr, i, a) && HasZones(dev, sb, tr, k, b) && (i != k || a != b)
    ensures InodeOn(dev, sb, i).zone[a] != InodeOn(dev, sb, k).zone[b]
  {
    hide InodeOn, Complete, AllTrue, AllNamed, EnteredOnce, Tight, MapsRight, LinksRight, MapsFit;
    DirectRef(dev, sb, tr, i, a);
    DirectRef(dev, sb, tr, k, b);
    var r, q := Ref(i, InodeOn(dev, sb, i).zone[a], 0, BLOCK_SIZE * a), Ref(k, InodeOn(dev, sb, k).zone[b], 0, BLOCK_SIZE * b);
    var m :| 0 <= m < |tr.refs| && tr.refs[m] == r;
    var n :| 0 <= n < |tr.refs| && tr.refs[n] == q;
    assert r != q;
  }

  /** The directory in which directory d is entered, by the only ordinary entry that names it. */
  ghost predicate OnlyEntry(tr: Trace, d: nat, k: nat) {
    k < |tr.links| && tr.links[k].plain && tr.links[k].target == d && forall i :: 0 <= i < |tr.links| && tr.links[i].plain && tr.links[i].target == d ==> i == k
  }

  /** The directories are a tree: the root is entered nowhere, and every other one in exactly one place. */
  lemma DirectoriesAreATree(dev: seq<Block>, sb: Super, tr: Trace, d: nat)
    requires Consistent(dev, sb, tr) && d in tr.met && IsDirectory(dev, sb, d)
    ensures if d == ROOT_INODE then forall i :: 0 <= i < |tr.links| && tr.links[i].plain ==> tr.links[i].target != d
            else exists k: nat :: OnlyEntry(tr, d, k)
  {
    hide IsDirectory, Complete, AllTrue, AllOnce, Tight, MapsRight, LinksRight, MapsFit;
    if d != ROOT_INODE {
      var m :| 0 <= m < |tr.met| && tr.met[m] == d;
      assert NamedBefore(tr, m);
      var k: nat :| k < |tr.links| && tr.links[k].plain && tr.links[k].target == d;
      assert OnlyEntry(tr, d, k);
    }
  }

  /** The entry ".." of a directory names the one in which it is entered. */
  lemma DotDotLeadsBack(dev: seq<Block>, sb: Super, tr: Trace, d: nat, a: nat, j: nat, k: nat)
    requires Consistent(dev, sb, tr) && HasZones(dev, sb, tr, d, a) && IsDirectory(dev, sb, d) && j < NR_DIR_ENTRIES
    requires InodeOn(dev, sb, d).zone[a] < |dev| && BLOCK_SIZE * a + 16 * j < InodeOn(dev, sb, d).size
    requires var e := AsDir(dev[InodeOn(dev, sb, d).zone[a]])[j]; e.inum != 0 && IsDotDot(e.name) && !IsDot(e.name)
    requires d != ROOT_INODE ==> OnlyEntry(tr, d, k)
    ensures AsDir(dev[InodeOn(dev, sb, d).zone[a]])[j].inum == if d == ROOT_INODE then ROOT_INODE else tr.links[k].dir
  {
    hide InodeOn, AsDir, Complete, AllTrue, AllNamed, AllOnce, EnteredOnce, Tight, MapsRight, LinksRight, MapsFit, IsDot, IsDotDot, ZoneCovered;
    DirectZoneCovered(dev, sb, tr, d, a);
    SlotInOrder(dev, sb, tr, d, InodeOn(dev, sb, d), InodeOn(dev, sb, d).zone[a], BLOCK_SIZE * a, j);
  }

  lemma SlotInOrder(dev: seq<Block>, sb: Super, tr: Trace, ino: nat, ip: Inode, z: nat, pos: nat, j: nat)
    requires ZoneCovered(dev, sb, tr, ino, ip, z, 0, pos) && ip.kind == Directory && z != 0 && z < |dev|
    requires j < NR_DIR_ENTRIES && pos + 16 * j < ip.size && AsDir(dev[z])[j].inum != 0
    ensures EntryDone(sb, tr, ino, z, pos, j, AsDir(dev[z])[j])
  {
    hide AsDir, EntryDone;
    assert SlotDone(dev, sb, tr, ino, ip.size, z, pos, j);
  }
}
