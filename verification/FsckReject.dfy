/** Why fsck does not pass what mkfs builds from an unsound tree: a consistent disk holds a sound one. */
module FsckReject {
  import opened FsDisk
  import opened FsTree
  import opened MkfsDisk
  import opened MkfsTree
  import opened Mkfs
  import opened FsckState
  import opened FsckTrace
  import opened FsckSound

  /** A consistent disk with the super block of mkfs. */
  ghost predicate Passed(dev: seq<Block>, N: nat, tr: Trace) {
    First(N) <= |dev| && Consistent(dev, TheSuper(N, |dev|), tr)
  }

  lemma MetInode(dev: seq<Block>, N: nat, tr: Trace, n: nat)
    requires Passed(dev, N, tr) && n in tr.met
    ensures 1 <= n <= N && InodeOn(dev, TheSuper(N, |dev|), n) == View(dev, N).tab[n]
    ensures Complete(dev, TheSuper(N, |dev|), tr, n)
  {
    hide Complete, View, InodeOn, AllTrue, AllNamed, MapsFit, MapsRight, LinksRight;
    var k :| 0 <= k < |tr.met| && tr.met[k] == n;
    assert 1 <= tr.met[k] <= N && Complete(dev, TheSuper(N, |dev|), tr, tr.met[k]);
    ViewInode(dev, N, n);
  }

  lemma ViewInode(dev: seq<Block>, N: nat, n: nat)
    requires First(N) <= |dev| && 1 <= n <= N
    ensures InodeOn(dev, TheSuper(N, |dev|), n) == View(dev, N).tab[n]
  {
    ViewAt(dev, N, n);
  }

  /** A directory of the tree that has been met. */
  ghost predicate MetDir(dev: seq<Block>, N: nat, tr: Trace, t: Node, n: nat, parent: nat, z: nat) {
    && Passed(dev, N, tr) && t.DirNode? && n >= 1 && n in tr.met && parent >= 1 && First(N) <= z
    && NodeAt(View(dev, N), t, n, parent, z)
  }

  /** Entry e has been found in order. */
  lemma EntryInOrder(dev: seq<Block>, N: nat, tr: Trace, t: Node, n: nat, parent: nat, z: nat, e: nat)
    requires MetDir(dev, N, tr, t, n, parent, z) && e < |t.kids| + 2
    ensures e / NR_DIR_ENTRIES < DirBlocks(|t.kids|)
    ensures EntryDone(TheSuper(N, |dev|), tr, n, z + DirZone(t, e / NR_DIR_ENTRIES), BLOCK_SIZE * (e / NR_DIR_ENTRIES), e % NR_DIR_ENTRIES, DirEntry(t, |t.kids|, n, parent, e))
  {
    hide Complete, InodeOn, View, AsDir, EntryDone, Consistent, Covered, PosAfter, KidsAt, ZoneCovered, SlotsDone, SlotDone;
    var ip, j := View(dev, N).tab[n], e / NR_DIR_ENTRIES;
    MetInode(dev, N, tr, n);
    DirectsCovered(dev, N, tr, n, ip);
    assert j < DirBlocks(|t.kids|) && BlockHolds(View(dev, N), t, |t.kids|, n, parent, z, j);
    ZoneKept(dev, N, z + DirZone(t, j));
    BlockEntry(t, |t.kids|, n, parent, e);
    DirectCovered(dev, TheSuper(N, |dev|), tr, n, ip, ip.zone[..NR_DZONE_NUM], NR_DZONE_NUM, j);
    SlotInOrder(dev, TheSuper(N, |dev|), tr, n, ip, z + DirZone(t, j), BLOCK_SIZE * j, e % NR_DIR_ENTRIES);
  }

  lemma DirectsCovered(dev: seq<Block>, N: nat, tr: Trace, n: nat, ip: Inode)
    requires Complete(dev, TheSuper(N, |dev|), tr, n) && n >= 1 && ip == InodeOn(dev, TheSuper(N, |dev|), n) && ip.kind == Directory
    ensures Covered(dev, TheSuper(N, |dev|), tr, n, ip, ip.zone[..NR_DZONE_NUM], NR_DZONE_NUM, 0, 0)
  {
    hide InodeOn, Covered, PosAfter;
  }

  lemma BlockEntry(t: Node, k: nat, n: nat, parent: nat, e: nat)
    requires t.DirNode? && k <= |t.kids| && n >= 1 && parent >= 1 && e < k + 2
    ensures DirBlock(t, k, n, parent, e / NR_DIR_ENTRIES)[e % NR_DIR_ENTRIES] == DirEntry(t, k, n, parent, e) && DirEntry(t, k, n, parent, e).inum != 0
  {
  }

  lemma ZoneKept(dev: seq<Block>, N: nat, b: nat)
    requires First(N) <= b < |dev|
    ensures View(dev, N).zone[b] == dev[b]
  {
  }

  lemma KidStands(dev: seq<Block>, N: nat, tr: Trace, t: Node, n: nat, parent: nat, z: nat, k: nat)
    requires MetDir(dev, N, tr, t, n, parent, z) && k < |t.kids|
    ensures Passed(dev, N, tr) && n >= 1 && First(N) <= z
    ensures First(N) <= |dev| && NodeAt(View(dev, N), t.kids[k].node, n + KidInode(t, k), n, z + KidZone(t, k))
  {
    hide View, Consistent, DirAt;
    KidAt(View(dev, N), t, |t.kids|, n, z, k);
  }

  /** A child's name is plain, and its inode has been met. */
  lemma KidInOrder(dev: seq<Block>, N: nat, tr: Trace, t: Node, n: nat, parent: nat, z: nat, k: nat)
    requires MetDir(dev, N, tr, t, n, parent, z) && k < |t.kids|
    ensures PlainName(Pad(t.kids[k].name)) && n + KidInode(t, k) in tr.met
  {
    hide MetDir, Pad, DirZone, IsDot, IsDotDot, HasSlash, KidInode;
    EntryInOrder(dev, N, tr, t, n, parent, z, k + 2);
    assert BLOCK_SIZE * ((k + 2) / NR_DIR_ENTRIES) + 16 * ((k + 2) % NR_DIR_ENTRIES) == 16 * (k + 2);
  }

  lemma KidIsMetDir(dev: seq<Block>, N: nat, tr: Trace, t: Node, n: nat, parent: nat, z: nat, k: nat)
    requires MetDir(dev, N, tr, t, n, parent, z) && k < |t.kids| && t.kids[k].node.DirNode?
    ensures MetDir(dev, N, tr, t.kids[k].node, n + KidInode(t, k), n, z + KidZone(t, k))
  {
    hide NodeAt, View, Consistent, PlainName;
    KidStands(dev, N, tr, t, n, parent, z, k);
    KidInOrder(dev, N, tr, t, n, parent, z, k);
  }

  /** The entry ".." of a child names the directory. */
  lemma KidNamesParent(dev: seq<Block>, N: nat, tr: Trace, t: Node, n: nat, parent: nat, z: nat, k: nat)
    requires t.DirNode? && MetDir(dev, N, tr, t, n, parent, z) && k < |t.kids| && t.kids[k].node.DirNode?
    ensures Link(z + KidZone(t, k), 1, n, false, n + KidInode(t, k), 0) in tr.links
  {
    hide MetDir, Pad, KidZone, KidInode;
    KidIsMetDir(dev, N, tr, t, n, parent, z, k);
    DotNames();
    EntryInOrder(dev, N, tr, t.kids[k].node, n + KidInode(t, k), n, z + KidZone(t, k), 1);
  }

  /** The links of the subdirectories among the first k children. */
  lemma {:induction false} ParentLinks(dev: seq<Block>, N: nat, tr: Trace, t: Node, n: nat, parent: nat, z: nat, k: nat) returns (s: set<Link>)
    requires t.DirNode? && MetDir(dev, N, tr, t, n, parent, z) && k <= |t.kids|
    ensures |s| == Subdirs(t, k)
    ensures forall l :: l in s ==> l in tr.links && l.target == n && l.dir <= n + InodesUpTo(t, k)
    decreases k
  {
    hide MetDir;
    if k == 0 {
      s := {};
    } else {
      s := ParentLinks(dev, N, tr, t, n, parent, z, k - 1);
      if t.kids[k - 1].node.DirNode? {
        KidNamesParent(dev, N, tr, t, n, parent, z, k - 1);
        s := s + {Link(z + KidZone(t, k - 1), 1, n, false, n + KidInode(t, k - 1), 0)};
      }
    }
  }

  /** The link count on the disk is an unsigned byte, but it agrees with the entries. */
  lemma FewSubdirs(dev: seq<Block>, N: nat, tr: Trace, t: Node, n: nat, parent: nat, z: nat)
    requires MetDir(dev, N, tr, t, n, parent, z)
    ensures 2 + Subdirs(t, |t.kids|) <= LINK_MAX
  {
    hide View, KidsAt, EntriesAt, Consistent, InodeOn, Complete, References;
    var s := ParentLinks(dev, N, tr, t, n, parent, z, |t.kids|);
    ManyReferences(tr.links, n, s);
    MetInode(dev, N, tr, n);
    MetLinks(dev, N, tr, n);
  }

  lemma MetLinks(dev: seq<Block>, N: nat, tr: Trace, n: nat)
    requires Passed(dev, N, tr) && n in tr.met
    ensures First(N) <= |dev| && n < |View(dev, N).tab| && References(tr.links, n) == View(dev, N).tab[n].nlinks <= LINK_MAX
  {
    MetInode(dev, N, tr, n);
    hide View, InodeOn, FileCovered, References, AllTrue, AllNamed, AllOnce, MapsRight;
  }

  lemma {:induction false} TreeIsSound(dev: seq<Block>, N: nat, tr: Trace, t: Node, n: nat, parent: nat, z: nat)
    requires Passed(dev, N, tr) && n in tr.met && parent >= 1 && First(N) <= z && NodeAt(View(dev, N), t, n, parent, z)
    ensures Sound(t)
    decreases t, 1, 0
  {
    if t.DirNode? {
      hide NodeAt, Consistent, View;
      MetInode(dev, N, tr, n);
      FewSubdirs(dev, N, tr, t, n, parent, z);
      KidsAreSound(dev, N, tr, t, n, parent, z, |t.kids|);
    }
  }

  lemma {:induction false} KidsAreSound(dev: seq<Block>, N: nat, tr: Trace, t: Node, n: nat, parent: nat, z: nat, k: nat)
    requires t.DirNode? && MetDir(dev, N, tr, t, n, parent, z) && k <= |t.kids|
    ensures SoundUpTo(t, k)
    decreases t, 0, k
  {
    hide NodeAt, View, Pad, PlainName, Passed, MetDir, KidInode, KidZone, Subdirs, Sound;
    if k > 0 {
      KidsAreSound(dev, N, tr, t, n, parent, z, k - 1);
      KidStands(dev, N, tr, t, n, parent, z, k - 1);
      KidInOrder(dev, N, tr, t, n, parent, z, k - 1);
      TreeIsSound(dev, N, tr, t.kids[k - 1].node, n + KidInode(t, k - 1), n, z + KidZone(t, k - 1));
    }
  }

  /** fsck has nothing to complain about only where the tree is sound. */
  lemma BuiltIsSound(dev: seq<Block>, N: nat, t: Node, tr: Trace)
    requires FileSystem(dev, N, t) && Consistent(dev, TheSuper(N, |dev|), tr)
    ensures Sound(t)
  {
    hide View, NodeAt, AllTrue, AllNamed, AllOnce, Complete, MapsRight, LinksRight, MapsFit, FreeFrom, MapsAt, Sound, MkfsTree.Fits;
    TreeIsSound(dev, N, tr, t, ROOT_INODE, ROOT_INODE, First(N));
  }

  /** A prototype whose one file has a '/' in its name: mkfs builds it where there are three inodes, and fsck complains. */
  lemma SlashInName(inodes: nat, blocks: nat)
    requires Geometry(inodes, blocks) && inodes >= 3
    ensures var t := DirNode(0, [Kid("a/b", FileNode(0, []))]);
      !Sound(t) && MkfsTree.Fits(t, ROOT_INODE, First(inodes), inodes, blocks)
  {
    var t := DirNode(0, [Kid("a/b", FileNode(0, []))]);
    assert t.kids[0] == Kid("a/b", FileNode(0, []));
    assert Pad("a/b")[1..][0] == '/';
    assert HasSlash(Pad("a/b"));
    assert !SoundUpTo(t, 1);
    assert InodesUpTo(t, 1) == 1 && ZonesUpTo(t, 1) == 1;
  }
}
