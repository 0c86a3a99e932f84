/** The course of fsck's walk over a tree that mkfs laid out: inodes and zones are met in the order
    in which they were allocated. */
module FsckWalk {
  import opened FsDisk
  import opened FsTree
  import opened MkfsTree
  import opened FsckState

  /** All inodes below n and all zones below z are marked, and nothing else. */
  ghost predicate Reached(dev: seq<Block>, N: nat, s: State, n: nat, z: nat) {
    && First(N) <= z && First(N) <= |dev| <= BITS_PER_BLOCK && N < BITS_PER_BLOCK
    && s.inodeMap == Taken(n, N + 1)
    && s.zoneMap == Taken(z - First(N) + 1, |dev| - First(N) + 1)
    && |s.count| == N + 1 && (forall i :: 0 <= i < |s.count| ==> s.count[i] < 256)
  }

  /** The walk comes to a tree: its root is named by the entry just counted, or is the root inode. */
  ghost predicate Arrives(dev: seq<Block>, N: nat, s: State, t: Node, n: nat, parent: nat, z: nat) {
    && Reached(dev, N, s, n, z) && s.clean
    && 1 <= n && n + Inodes(t) <= N + 1 && z + Zones(t) <= |dev|
    && NodeAt(View(dev, N), t, n, parent, z) && Sound(t)
    && s.count[n] == (if parent == n then 0 else 1)
    && ZeroFrom(s.count, n + 1, n + Inodes(t))
    && (if parent == n then n == ROOT_INODE && t.DirNode?
        else 1 <= parent < n && s.count[parent] != LINK_MAX && s.stack != [] && s.stack[0].inum == parent)
  }

  ghost predicate ZeroFrom(count: seq<nat>, n: nat, n2: nat) {
    forall i :: n <= i < n2 && i < |count| ==> count[i] == 0
  }

  /** The walk is through with a tree. */
  ghost predicate Leaves(dev: seq<Block>, N: nat, s: State, s': State, t: Node, n: nat, parent: nat, z: nat) {
    && Reached(dev, N, s', n + Inodes(t), z + Zones(t)) && s'.clean
    && n < |s.count| && s'.count == Tally(s.count, t, n, parent)
    && s'.stack == s.stack
  }

  // ---------- Inside a directory ----------

  /** Children done after e entries. */
  function Done(e: nat): nat { if e <= 2 then 0 else e - 2 }

  /** Zones of the directory's stretch marked after e entries; `ready` if the block of entry e is marked already. */
  function MarkedZones(t: Node, e: nat, ready: bool): nat
    requires t.DirNode? && Done(e) <= |t.kids|
  {
    if e == 0 then (if ready then 1 else 0)
    else ZonesUpTo(t, Done(e)) + if ready && e % NR_DIR_ENTRIES == 0 then 1 else 0
  }

  /** e entries of directory n are done, since the walk arrived there in state s0. */
  ghost predicate InDir(dev: seq<Block>, N: nat, s0: State, s: State, t: Node, n: nat, parent: nat, z: nat, e: nat, ready: bool) {
    && t.DirNode? && e <= |t.kids| + 2 && n < |s0.count| && s0.count[n] + 256 >= 2 + Subdirs(t, |t.kids|)
    && Reached(dev, N, s, n + 1 + InodesUpTo(t, Done(e)), z + MarkedZones(t, e, ready)) && s.clean
    && s.count == Mid(s0.count, t, n, parent, e)
    && |s.stack| == |s0.stack| + 1 && s.stack[1..] == s0.stack
    && s.stack[0].inum == n && (e >= 1 ==> s.stack[0].dot) && (e >= 2 ==> s.stack[0].dotdot)
  }

  lemma KidArrives(dev: seq<Block>, N: nat, s0: State, s: State, s1: State, t: Node, n: nat, parent: nat, z: nat, k: nat)
    requires Arrives(dev, N, s0, t, n, parent, z) && t.DirNode? && k < |t.kids|
    requires InDir(dev, N, s0, s, t, n, parent, z, k + 2, true)
    requires s1 == s.(count := Bump(s.count, n + KidInode(t, k)))
    ensures n + KidInode(t, k) <= N && s.count[n + KidInode(t, k)] == 0 && !s.inodeMap[n + KidInode(t, k)]
    ensures Arrives(dev, N, s1, t.kids[k].node, n + KidInode(t, k), n, z + KidZone(t, k))
  {
    hide View, NodeAt, Sound, Mid, Subdirs, InodesUpTo, ZonesUpTo, Zones, Inodes, Taken, Fresh, MarkedZones;
    KidPlace(dev, N, s0, t, n, parent, z, k);
    KidCounts(dev, N, s0, s, t, n, parent, z, k);
    FreeBit(n + KidInode(t, k), N + 1);
    ReadyForKid(t, k);
  }

  lemma FreeBit(n: nat, len: nat)
    requires n < len <= BITS_PER_BLOCK
    ensures !Taken(n, len)[n]
  {
  }

  lemma ReadyForKid(t: Node, k: nat)
    requires t.DirNode? && k < |t.kids|
    ensures MarkedZones(t, k + 2, true) == KidZone(t, k) && MarkedZones(t, k + 3, false) == KidZone(t, k) + Zones(t.kids[k].node)
  {
    assert (k + 2) % NR_DIR_ENTRIES == 0 <==> Fresh(k) == 1;
  }

  lemma KidPlace(dev: seq<Block>, N: nat, s0: State, t: Node, n: nat, parent: nat, z: nat, k: nat)
    requires Arrives(dev, N, s0, t, n, parent, z) && t.DirNode? && k < |t.kids|
    ensures n + KidInode(t, k) + Inodes(t.kids[k].node) <= n + Inodes(t)
    ensures z + KidZone(t, k) + Zones(t.kids[k].node) <= |dev|
    ensures NodeAt(View(dev, N), t.kids[k].node, n + KidInode(t, k), n, z + KidZone(t, k)) && Sound(t.kids[k].node)
  {
    hide View, DirAt;
    KidsInOrder(t, k, |t.kids|);
    KidAt(View(dev, N), t, |t.kids|, n, z, k);
    SoundKid(t, |t.kids|, k);
  }

  lemma KidCounts(dev: seq<Block>, N: nat, s0: State, s: State, t: Node, n: nat, parent: nat, z: nat, k: nat)
    requires Arrives(dev, N, s0, t, n, parent, z) && t.DirNode? && k < |t.kids|
    requires InDir(dev, N, s0, s, t, n, parent, z, k + 2, true)
    ensures s.count[n] != LINK_MAX && ZeroFrom(s.count, n + 1, n + Inodes(t))
  {
    hide View, NodeAt, Taken, Mid, Gained;
    OwnCount(s0.count, t, n, parent, k + 2);
    forall i | n < i < n + Inodes(t) && i <= N ensures s.count[i] == 0 { MidAt(s0.count, t, n, parent, k + 2, i); }
  }

  /** After child k all is set for the next entry. */
  lemma KidLeaves(dev: seq<Block>, N: nat, s0: State, s: State, s1: State, s2: State, t: Node, n: nat, parent: nat, z: nat, k: nat)
    requires Arrives(dev, N, s0, t, n, parent, z) && t.DirNode? && k < |t.kids|
    requires InDir(dev, N, s0, s, t, n, parent, z, k + 2, true)
    requires n + KidInode(t, k) <= N && s.count[n + KidInode(t, k)] == 0
    requires s1 == s.(count := Bump(s.count, n + KidInode(t, k)))
    requires Leaves(dev, N, s1, s2, t.kids[k].node, n + KidInode(t, k), n, z + KidZone(t, k))
    ensures InDir(dev, N, s0, s2, t, n, parent, z, k + 3, false)
  {
    var c := n + KidInode(t, k);
    hide View, NodeAt, Sound, Taken, Gained, Subdirs, ZonesUpTo, Zones, MarkedZones;
    ReadyForKid(t, k);
    assert s.count[c := 1][c := 0] == s.count;
    assert s2.count == Mid(s0.count, t, n, parent, k + 3);
  }

  /** "." and "..": the directory's own first two entries. */
  lemma DotDone(dev: seq<Block>, N: nat, s0: State, s: State, s1: State, t: Node, n: nat, parent: nat, z: nat)
    requires Arrives(dev, N, s0, t, n, parent, z) && t.DirNode?
    requires InDir(dev, N, s0, s, t, n, parent, z, 0, true)
    requires s1 == s.(count := Bump(s.count, n), stack := [s.stack[0].(dot := true)] + s.stack[1..])
    ensures s.count[n] != LINK_MAX && InDir(dev, N, s0, s1, t, n, parent, z, 1, false)
  {
    OwnCount(s0.count, t, n, parent, 0);
    hide View, NodeAt, Sound, Taken, Gained, Subdirs;
  }

  lemma DotDotDone(dev: seq<Block>, N: nat, s0: State, s: State, s1: State, t: Node, n: nat, parent: nat, z: nat)
    requires Arrives(dev, N, s0, t, n, parent, z) && t.DirNode?
    requires InDir(dev, N, s0, s, t, n, parent, z, 1, true)
    requires s1 == s.(count := Bump(s.count, parent), stack := [s.stack[0].(dotdot := true)] + s.stack[1..])
    ensures s.count[parent] != LINK_MAX && InDir(dev, N, s0, s1, t, n, parent, z, 2, false)
  {
    OwnCount(s0.count, t, n, parent, 1);
    MidAt(s0.count, t, n, parent, 1, parent);
    hide View, NodeAt, Sound, Taken, Gained, Subdirs;
  }

  // ---------- Inside a regular file ----------

  /** The zone map with j data blocks of a file marked, and with `ind` also its indirect block. */
  function FileMap(dev: seq<Block>, N: nat, z: nat, j: nat, ind: bool): seq<bool>
    requires First(N) <= z && First(N) <= |dev|
  {
    var bit, len := z - First(N) + 1, |dev| - First(N) + 1;
    var bits := Taken(bit + FileZones(j), len);
    var b := bit + NR_DZONE_NUM + 1;
    if ind && j == NR_DZONE_NUM && b < |bits| then bits[b := true] else bits
  }

  /** Only the zone map has changed. */
  ghost predicate InFile(dev: seq<Block>, N: nat, s0: State, s: State, z: nat, j: nat, ind: bool) {
    First(N) <= z && First(N) <= |dev| && s == s0.(zoneMap := FileMap(dev, N, z, j, ind))
  }

  lemma DataBlockMarked(dev: seq<Block>, N: nat, z: nat, j: nat, ind: bool)
    requires First(N) <= z && z + BlockPos(j) < |dev| <= BITS_PER_BLOCK && (j < NR_DZONE_NUM <==> !ind)
    requires j == NR_DZONE_NUM ==> z + NR_DZONE_NUM + 1 < |dev|
    ensures var bit := z + BlockPos(j) - First(N) + 1;
      bit < BITS_PER_BLOCK && !FileMap(dev, N, z, j, ind)[bit] &&
      FileMap(dev, N, z, j, ind)[bit := true] == FileMap(dev, N, z, j + 1, ind)
  {
    var bit, len := z - First(N) + 1, |dev| - First(N) + 1;
    if j == NR_DZONE_NUM {
      TakeTwo(bit + NR_DZONE_NUM, len);
    } else {
      TakeNext(bit + FileZones(j), len);
    }
  }

  lemma IndirectBlockMarked(dev: seq<Block>, N: nat, z: nat)
    requires First(N) <= z && z + NR_DZONE_NUM + 1 < |dev| <= BITS_PER_BLOCK
    ensures var bit := z + NR_DZONE_NUM + 1 - First(N) + 1;
      bit < BITS_PER_BLOCK && !FileMap(dev, N, z, NR_DZONE_NUM, false)[bit] &&
      FileMap(dev, N, z, NR_DZONE_NUM, false)[bit := true] == FileMap(dev, N, z, NR_DZONE_NUM, true)
  {
  }

  // ---------- Lists of zones ----------

  /** What a list of zones belongs to: the blocks of a directory; blocks of a file, from block `from` on;
      a file's indirect block; or anything else. */
  datatype Plan =
    | OfDir(s0: State, t: Node, n: nat, parent: nat, z: nat)
    | OfFile(s0: State, m: nat, z: nat, from: nat)
    | OfIndirect(s0: State, m: nat, z: nat)
    | Unknown

  function Min(a: nat, b: nat): nat { if a < b then a else b }

  ghost predicate FileFits(dev: seq<Block>, N: nat, ip: Inode, m: nat, z: nat) {
    ip.kind == Regular && m == Blocks(ip.size) && First(N) <= z && First(N) <= |dev| <= BITS_PER_BLOCK && z + FileZones(m) <= |dev|
  }

  /** The list is the one the plan says. */
  ghost predicate ListFits(plan: Plan, dev: seq<Block>, N: nat, ip: Inode, zlist: seq<nat>, level: nat) {
    match plan
    case OfDir(s0, t, n, parent, z) =>
      level == 0 && t.DirNode? && Arrives(dev, N, s0, t, n, parent, z) && n < |View(dev, N).tab| && ip == View(dev, N).tab[n]
      && zlist == ip.zone[..NR_DZONE_NUM]
    case OfFile(s0, m, z, from) =>
      level == 0 && FileFits(dev, N, ip, m, z)
      && (if from == 0 then |zlist| == NR_DZONE_NUM else from >= NR_DZONE_NUM && m > NR_DZONE_NUM)
      && (forall i :: 0 <= i < |zlist| ==> zlist[i] == if from + i < m then z + BlockPos(from + i) else 0)
    case OfIndirect(s0, m, z) =>
      level == 1 && FileFits(dev, N, ip, m, z) && m > NR_DZONE_NUM && |zlist| == 1 && zlist[0] == z + NR_DZONE_NUM + 1
      && AsIndirect(dev[z + NR_DZONE_NUM + 1]) == FileIndirect(m, z) && m <= NR_DZONE_NUM + NR_INDIRECTS
    case Unknown => false
  }

  /** Where the walk stands after i zones of the list. */
  ghost predicate Follows(plan: Plan, dev: seq<Block>, N: nat, s: State, pos: nat, i: nat) {
    match plan
    case OfDir(s0, t, n, parent, z) =>
      t.DirNode? && pos == BLOCK_SIZE * Min(i, DirBlocks(|t.kids|)) &&
      InDir(dev, N, s0, s, t, n, parent, z, Min(NR_DIR_ENTRIES * i, |t.kids| + 2), false)
    case OfFile(s0, m, z, from) =>
      var j := if from < m then Min(from + i, m) else from;
      pos == BLOCK_SIZE * j && InFile(dev, N, s0, s, z, Min(from + i, m), from > 0)
    case OfIndirect(s0, m, z) =>
      if i == 0 then pos == BLOCK_SIZE * NR_DZONE_NUM && InFile(dev, N, s0, s, z, NR_DZONE_NUM, false)
      else pos >= BLOCK_SIZE * m && InFile(dev, N, s0, s, z, m, true)
    case Unknown => false
  }

  /** The i-th zone of the list is marked too, but not yet looked into. */
  ghost predicate Opened(plan: Plan, dev: seq<Block>, N: nat, s: State, pos: nat, i: nat) {
    match plan
    case OfDir(s0, t, n, parent, z) =>
      t.DirNode? && pos == BLOCK_SIZE * i && i < DirBlocks(|t.kids|) && NR_DIR_ENTRIES * i < |t.kids| + 2 &&
      InDir(dev, N, s0, s, t, n, parent, z, NR_DIR_ENTRIES * i, true)
    case OfFile(s0, m, z, from) =>
      from + i < m && pos == BLOCK_SIZE * (from + i) && InFile(dev, N, s0, s, z, from + i + 1, from > 0)
    case OfIndirect(s0, m, z) =>
      i == 0 && pos == BLOCK_SIZE * NR_DZONE_NUM && InFile(dev, N, s0, s, z, NR_DZONE_NUM, true)
    case Unknown => false
  }

  /** The size says where the list ends. */
  lemma ListEnds(plan: Plan, dev: seq<Block>, N: nat, ip: Inode, zlist: seq<nat>, level: nat, s: State, pos: nat, i: nat)
    requires ListFits(plan, dev, N, ip, zlist, level) && Follows(plan, dev, N, s, pos, i) && i < |zlist| && pos >= ip.size
    ensures Follows(plan, dev, N, s, pos, |zlist|)
  {
    hide View, Arrives, InDir, InFile, FileMap, FileIndirect, AsIndirect;
    match plan
    case OfDir(s0, t, n, parent, z) =>
      DirSize(dev, N, s0, t, n, parent, z);
    case OfFile(s0, m, z, from) =>
    case OfIndirect(s0, m, z) =>
  }

  lemma DirSize(dev: seq<Block>, N: nat, s0: State, t: Node, n: nat, parent: nat, z: nat)
    requires t.DirNode? && Arrives(dev, N, s0, t, n, parent, z)
    ensures n < |View(dev, N).tab| && View(dev, N).tab[n].size == 16 * (|t.kids| + 2)
    ensures View(dev, N).tab[n].zone == DirZones(t, |t.kids|, z) && DirBlocks(|t.kids|) <= NR_DZONE_NUM
    ensures View(dev, N).tab[n].kind == Directory && View(dev, N).tab[n].nlinks == 2 + Subdirs(t, |t.kids|)
  {
    hide View, KidsAt, DirZones;
  }

  /** While the size is not reached the next zone is there, is not marked yet, and marking it opens it. */
  lemma ZoneOpens(plan: Plan, dev: seq<Block>, N: nat, ip: Inode, zlist: seq<nat>, level: nat, s: State, pos: nat, i: nat)
    requires ListFits(plan, dev, N, ip, zlist, level) && Follows(plan, dev, N, s, pos, i) && i < |zlist| && pos < ip.size
    ensures First(N) <= zlist[i] < |dev|
    ensures var bit := zlist[i] - First(N) + 1;
      bit < |s.zoneMap| && !s.zoneMap[bit] && Opened(plan, dev, N, s.(zoneMap := s.zoneMap[bit := true]), pos, i)
  {
    hide View, Arrives, InDir, InFile, FileMap, FileIndirect, AsIndirect, FileZones, BlockPos;
    match plan
    case OfDir(s0, t, n, parent, z) =>
      DirSize(dev, N, s0, t, n, parent, z);
      BlocksCover(|t.kids|, i);
      DirZoneOpens(dev, N, s0, s, t, n, parent, z, i);
    case OfFile(s0, m, z, from) =>
      BeforeEnd(ip.size, if from < m then Min(from + i, m) else from);
      FileZoneOpens(dev, N, s0, s, m, z, from, i);
    case OfIndirect(s0, m, z) =>
      IndirectZoneOpens(dev, N, s0, s, m, z);
  }

  lemma BlocksCover(k: nat, i: nat)
    ensures BLOCK_SIZE * Min(i, DirBlocks(k)) < 16 * (k + 2) ==> NR_DIR_ENTRIES * i < k + 2
  {
  }

  lemma BeforeEnd(size: nat, j: nat)
    ensures BLOCK_SIZE * j < size <==> j < Blocks(size)
  {
  }

  lemma FileZoneOpens(dev: seq<Block>, N: nat, s0: State, s: State, m: nat, z: nat, from: nat, i: nat)
    requires First(N) <= z && z + FileZones(m) <= |dev| <= BITS_PER_BLOCK && from + i < m
    requires if from == 0 then i < NR_DZONE_NUM else from >= NR_DZONE_NUM && m > NR_DZONE_NUM
    requires InFile(dev, N, s0, s, z, from + i, from > 0)
    ensures First(N) <= z + BlockPos(from + i) < |dev|
    ensures var bit := z + BlockPos(from + i) - First(N) + 1;
      && bit < |s.zoneMap| && !s.zoneMap[bit]
      && InFile(dev, N, s0, s.(zoneMap := s.zoneMap[bit := true]), z, from + i + 1, from > 0)
  {
    hide Taken;
    assert |FileMap(dev, N, z, from + i, from > 0)| == BITS_PER_BLOCK;
    DataBlockMarked(dev, N, z, from + i, from > 0);
    hide FileMap;
  }

  lemma IndirectZoneOpens(dev: seq<Block>, N: nat, s0: State, s: State, m: nat, z: nat)
    requires First(N) <= z && z + FileZones(m) <= |dev| <= BITS_PER_BLOCK && m > NR_DZONE_NUM
    requires InFile(dev, N, s0, s, z, NR_DZONE_NUM, false)
    ensures z + NR_DZONE_NUM + 1 < |dev|
    ensures var bit := z + NR_DZONE_NUM + 1 - First(N) + 1;
      && bit < |s.zoneMap| && !s.zoneMap[bit]
      && InFile(dev, N, s0, s.(zoneMap := s.zoneMap[bit := true]), z, NR_DZONE_NUM, true)
  {
    hide Taken;
    assert |FileMap(dev, N, z, NR_DZONE_NUM, false)| == BITS_PER_BLOCK;
    IndirectBlockMarked(dev, N, z);
    hide FileMap;
  }

  lemma DirZoneOpens(dev: seq<Block>, N: nat, s0: State, s: State, t: Node, n: nat, parent: nat, z: nat, i: nat)
    requires t.DirNode? && Arrives(dev, N, s0, t, n, parent, z) && i < NR_DZONE_NUM
    requires NR_DIR_ENTRIES * i < |t.kids| + 2
    requires InDir(dev, N, s0, s, t, n, parent, z, NR_DIR_ENTRIES * i, false)
    ensures i < DirBlocks(|t.kids|) && n < |View(dev, N).tab|
    ensures var zno := View(dev, N).tab[n].zone[i]; var bit := zno - First(N) + 1;
      && First(N) <= zno < |dev| && zno == z + DirZone(t, i)
      && bit < |s.zoneMap| && !s.zoneMap[bit]
      && InDir(dev, N, s0, s.(zoneMap := s.zoneMap[bit := true]), t, n, parent, z, NR_DIR_ENTRIES * i, true)
  {
    DirSize(dev, N, s0, t, n, parent, z);
    DirZoneBelow(t, |t.kids|, i);
    var e := NR_DIR_ENTRIES * i;
    assert z + MarkedZones(t, e, false) == z + DirZone(t, i);
    assert MarkedZones(t, e, true) == MarkedZones(t, e, false) + 1;
    TakeNext(z + DirZone(t, i) - First(N) + 1, |dev| - First(N) + 1);
    hide View, Arrives, Mid, Subdirs, InodesUpTo, ZonesUpTo, Taken;
  }

  // ---------- Chunks ----------

  /** A quarter of an indirect block, as a list of its own. */
  lemma ChunkFits(dev: seq<Block>, N: nat, ip: Inode, s0: State, m: nat, z: nat, c: nat)
    requires ListFits(OfIndirect(s0, m, z), dev, N, ip, [z + NR_DZONE_NUM + 1], 1) && c < 4
    ensures z + NR_DZONE_NUM + 1 < |dev|
    ensures ListFits(OfFile(s0, m, z, NR_DZONE_NUM + 128 * c), dev, N, ip, AsIndirect(dev[z + NR_DZONE_NUM + 1])[128 * c..128 * c + 128], 0)
  {
    hide AsIndirect, FileIndirect;
    var q, from := AsIndirect(dev[z + NR_DZONE_NUM + 1])[128 * c..128 * c + 128], NR_DZONE_NUM + 128 * c;
    forall i | 0 <= i < |q| ensures q[i] == if from + i < m then z + BlockPos(from + i) else 0 {
      IndirectIs(m, z, 128 * c + i);
    }
  }

  lemma IndirectIs(m: nat, z: nat, i: nat)
    requires i < NR_INDIRECTS
    ensures FileIndirect(m, z)[i] == IndirectEntry(m, z, i)
  {
  }

  /** Where the walk stands after c quarters of a file's indirect block. */
  ghost predicate Quarters(dev: seq<Block>, N: nat, s0: State, s: State, m: nat, z: nat, pos: nat, c: nat) {
    pos == BLOCK_SIZE * Min(NR_DZONE_NUM + 128 * c, m) && InFile(dev, N, s0, s, z, Min(NR_DZONE_NUM + 128 * c, m), true)
  }

  lemma QuarterStarts(dev: seq<Block>, N: nat, s0: State, s: State, m: nat, z: nat, pos: nat, c: nat, size: nat)
    requires Quarters(dev, N, s0, s, m, z, pos, c) && pos < size && m == Blocks(size)
    ensures Follows(OfFile(s0, m, z, NR_DZONE_NUM + 128 * c), dev, N, s, pos, 0)
  {
    hide InFile;
  }

  lemma QuarterEnds(dev: seq<Block>, N: nat, s0: State, s: State, m: nat, z: nat, pos: nat, c: nat)
    requires NR_DZONE_NUM + 128 * c < m && Follows(OfFile(s0, m, z, NR_DZONE_NUM + 128 * c), dev, N, s, pos, 128)
    ensures Quarters(dev, N, s0, s, m, z, pos, c + 1)
  {
    hide InFile;
  }

  lemma AllQuarters(dev: seq<Block>, N: nat, ip: Inode, s0: State, s: State, m: nat, z: nat, pos: nat, c: nat)
    requires FileFits(dev, N, ip, m, z) && NR_DZONE_NUM < m <= NR_DZONE_NUM + NR_INDIRECTS
    requires Quarters(dev, N, s0, s, m, z, pos, c) && (c == 4 || pos >= ip.size)
    ensures Follows(OfIndirect(s0, m, z), dev, N, s, pos, 1)
  {
    hide InFile;
  }

  /** The indirect block's turn. */
  lemma FirstQuarter(plan: Plan, dev: seq<Block>, N: nat, ip: Inode, zlist: seq<nat>, level: nat, s: State, pos: nat, i: nat)
    requires plan.OfIndirect? && ListFits(plan, dev, N, ip, zlist, level) && i < |zlist| && Opened(plan, dev, N, s, pos, i)
    ensures level == 1 && i == 0 && |zlist| == 1 && Quarters(dev, N, plan.s0, s, plan.m, plan.z, pos, 0)
  {
    hide InFile, AsIndirect, FileIndirect, FileFits;
  }

  /** A quarter's turn: its numbers are a list of the file's zones. */
  lemma QuarterOpens(plan: Plan, dev: seq<Block>, N: nat, ip: Inode, zlist: seq<nat>, s: State, pos: nat, c: nat)
    requires plan.OfIndirect? && |zlist| == 1 && ListFits(plan, dev, N, ip, zlist, 1)
    requires Quarters(dev, N, plan.s0, s, plan.m, plan.z, pos, c) && c < 4 && (c == 0 || pos < ip.size)
    ensures zlist[0] < |dev| && NR_DZONE_NUM + 128 * c < plan.m
    ensures var part := OfFile(plan.s0, plan.m, plan.z, NR_DZONE_NUM + 128 * c);
      ListFits(part, dev, N, ip, AsIndirect(dev[zlist[0]])[128 * c..128 * c + 128], 0) && Follows(part, dev, N, s, pos, 0)
  {
    hide InFile, AsIndirect, FileIndirect;
    ChunkFits(dev, N, ip, plan.s0, plan.m, plan.z, c);
    assert zlist == [plan.z + NR_DZONE_NUM + 1];
    QuarterStarts(dev, N, plan.s0, s, plan.m, plan.z, pos, c, ip.size);
  }

  lemma LastQuarter(plan: Plan, dev: seq<Block>, N: nat, ip: Inode, zlist: seq<nat>, s: State, pos: nat, c: nat)
    requires plan.OfIndirect? && ListFits(plan, dev, N, ip, zlist, 1) && Quarters(dev, N, plan.s0, s, plan.m, plan.z, pos, c) && (c == 4 || pos >= ip.size)
    ensures Follows(plan, dev, N, s, pos, 1)
  {
    hide InFile, AsIndirect, FileIndirect, FileFits;
    AllQuarters(dev, N, ip, plan.s0, s, plan.m, plan.z, pos, c);
  }

  // ---------- Directory blocks ----------

  lemma ReadyAnyway(dev: seq<Block>, N: nat, s0: State, s: State, t: Node, n: nat, parent: nat, z: nat, e: nat, i: nat)
    requires InDir(dev, N, s0, s, t, n, parent, z, e, e == NR_DIR_ENTRIES * i)
    requires NR_DIR_ENTRIES * i <= e < NR_DIR_ENTRIES * (i + 1)
    ensures InDir(dev, N, s0, s, t, n, parent, z, e, true)
  {
    hide Reached, Mid, ZonesUpTo, InodesUpTo;
  }

  /** Block i of a directory as read from its zone. */
  lemma BlockRead(dev: seq<Block>, N: nat, s0: State, t: Node, n: nat, parent: nat, z: nat, i: nat, e: nat)
    requires t.DirNode? && Arrives(dev, N, s0, t, n, parent, z) && i < DirBlocks(|t.kids|)
    requires NR_DIR_ENTRIES * i <= e < NR_DIR_ENTRIES * (i + 1)
    ensures z + DirZone(t, i) < |dev|
    ensures AsDir(dev[z + DirZone(t, i)])[e - NR_DIR_ENTRIES * i] == DirEntry(t, |t.kids|, n, parent, e)
  {
    var d, K := View(dev, N), |t.kids|;
    hide AsDir, DirBlock, KidsAt, Subdirs, Taken, DirZones, DirEntry;
    assert BlockHolds(d, t, K, n, parent, z, i);
    DirBlockAt(t, K, n, parent, i, e - NR_DIR_ENTRIES * i);
  }

  /** The block just looked into was the i-th. */
  lemma DirZoneDone(plan: Plan, dev: seq<Block>, N: nat, s: State, pos: nat, i: nat)
    requires plan.OfDir? && plan.t.DirNode? && i < DirBlocks(|plan.t.kids|) && pos == BLOCK_SIZE * i
    requires InDir(dev, N, plan.s0, s, plan.t, plan.n, plan.parent, plan.z, Min(NR_DIR_ENTRIES * (i + 1), |plan.t.kids| + 2), false)
    ensures Follows(plan, dev, N, s, pos + BLOCK_SIZE, i + 1)
  {
    hide InDir;
  }

  lemma FileZoneDone(plan: Plan, dev: seq<Block>, N: nat, s: State, pos: nat, i: nat)
    requires plan.OfFile? && Opened(plan, dev, N, s, pos, i)
    ensures Follows(plan, dev, N, s, pos + BLOCK_SIZE, i + 1)
  {
    hide InFile;
  }

  lemma EntryUsed(dev: seq<Block>, N: nat, s0: State, t: Node, n: nat, parent: nat, z: nat, e: nat)
    requires t.DirNode? && Arrives(dev, N, s0, t, n, parent, z) && e < |t.kids| + 2
    ensures DirEntry(t, |t.kids|, n, parent, e).inum != 0
  {
    hide View, NodeAt, Reached, Sound;
  }

  /** What chkentry() finds at entry e of a directory. */
  ghost predicate EntryLooks(N: nat, s: State, n: nat, parent: nat, e: nat, dp: Entry) {
    && |s.count| == N + 1 && |s.inodeMap| > N && 1 <= dp.inum <= N && s.count[dp.inum] != LINK_MAX
    && (e == 0 ==> IsDot(dp.name) && dp.inum == n && dp.name[1] == '\0')
    && (e == 1 ==> !IsDot(dp.name) && IsDotDot(dp.name) && dp.inum == parent && dp.name[1] != '\0')
    && (e == 1 && n == ROOT_INODE ==> parent == n)
    && (e == 1 && n != ROOT_INODE ==> |s.stack| >= 2 && s.stack[1].inum == parent)
    && (e >= 2 ==> PlainName(dp.name) && !s.inodeMap[dp.inum])
  }

  lemma EntryIsFine(dev: seq<Block>, N: nat, s0: State, s: State, t: Node, n: nat, parent: nat, z: nat, e: nat)
    requires t.DirNode? && Arrives(dev, N, s0, t, n, parent, z) && e < |t.kids| + 2
    requires InDir(dev, N, s0, s, t, n, parent, z, e, true)
    ensures EntryLooks(N, s, n, parent, e, DirEntry(t, |t.kids|, n, parent, e))
    ensures e >= 2 ==> DirEntry(t, |t.kids|, n, parent, e).inum == n + KidInode(t, e - 2)
    ensures e == 0 ==> DirEntry(t, |t.kids|, n, parent, e).inum == n
    ensures e == 1 ==> DirEntry(t, |t.kids|, n, parent, e).inum == parent
  {
    hide *;
    if e == 0 {
      DotIsFine(dev, N, s0, s, t, n, parent, z);
    } else if e == 1 {
      DotDotIsFine(dev, N, s0, s, t, n, parent, z);
    } else {
      NameIsFine(dev, N, s0, s, t, n, parent, z, e - 2);
    }
  }

  lemma DotIsFine(dev: seq<Block>, N: nat, s0: State, s: State, t: Node, n: nat, parent: nat, z: nat)
    requires t.DirNode? && Arrives(dev, N, s0, t, n, parent, z) && InDir(dev, N, s0, s, t, n, parent, z, 0, true)
    ensures var dp := DirEntry(t, |t.kids|, n, parent, 0); EntryLooks(N, s, n, parent, 0, dp) && dp.inum == n
  {
    hide View, NodeAt, Sound, Taken, Mid, Subdirs, Pad, IsDot, IsDotDot;
    DotNames();
    DotDone(dev, N, s0, s, s.(count := Bump(s.count, n), stack := [s.stack[0].(dot := true)] + s.stack[1..]), t, n, parent, z);
  }

  lemma DotDotIsFine(dev: seq<Block>, N: nat, s0: State, s: State, t: Node, n: nat, parent: nat, z: nat)
    requires t.DirNode? && Arrives(dev, N, s0, t, n, parent, z) && InDir(dev, N, s0, s, t, n, parent, z, 1, true)
    ensures var dp := DirEntry(t, |t.kids|, n, parent, 1); EntryLooks(N, s, n, parent, 1, dp) && dp.inum == parent
  {
    hide View, NodeAt, Sound, Taken, Mid, Subdirs, Pad, IsDot, IsDotDot;
    DotNames();
    DotDotDone(dev, N, s0, s, s.(count := Bump(s.count, parent), stack := [s.stack[0].(dotdot := true)] + s.stack[1..]), t, n, parent, z);
    assert n != parent ==> s.stack[1] == s.stack[1..][0];
  }

  lemma NameIsFine(dev: seq<Block>, N: nat, s0: State, s: State, t: Node, n: nat, parent: nat, z: nat, k: nat)
    requires t.DirNode? && k < |t.kids| && Arrives(dev, N, s0, t, n, parent, z) && InDir(dev, N, s0, s, t, n, parent, z, k + 2, true)
    ensures var dp := DirEntry(t, |t.kids|, n, parent, k + 2); EntryLooks(N, s, n, parent, k + 2, dp) && dp.inum == n + KidInode(t, k)
  {
    hide View, NodeAt, Taken, Mid, Subdirs, Pad, PlainName, IsDot, IsDotDot;
    KidArrives(dev, N, s0, s, s.(count := Bump(s.count, n + KidInode(t, k))), t, n, parent, z, k);
    SoundKid(t, |t.kids|, k);
  }

  // ---------- Inodes ----------

  /** The inode of a directory is counted; its entries are still to come. */
  lemma DirBegins(dev: seq<Block>, N: nat, s0: State, s: State, t: Node, n: nat, parent: nat, z: nat)
    requires t.DirNode? && Arrives(dev, N, s0, t, n, parent, z)
    requires s.inodeMap == s0.inodeMap[n := true] && s.zoneMap == s0.zoneMap && s.clean
    requires s.count == s0.count[n := (s0.count[n] - (2 + Subdirs(t, |t.kids|))) % 256]
    requires |s.stack| == |s0.stack| + 1 && s.stack[1..] == s0.stack && s.stack[0].inum == n
    ensures InDir(dev, N, s0, s, t, n, parent, z, 0, false)
  {
    hide View, NodeAt, Subdirs, Taken;
    TakeNext(n, N + 1);
    assert (s0.count[n] + 256 - (2 + Subdirs(t, |t.kids|))) % 256 == (s0.count[n] - (2 + Subdirs(t, |t.kids|))) % 256;
  }

  lemma DirEnds(dev: seq<Block>, N: nat, s0: State, s: State, t: Node, n: nat, parent: nat, z: nat)
    requires t.DirNode? && Arrives(dev, N, s0, t, n, parent, z)
    requires InDir(dev, N, s0, s, t, n, parent, z, |t.kids| + 2, false)
    ensures Leaves(dev, N, s0, s.(stack := s.stack[1..]), t, n, parent, z)
  {
    hide View, NodeAt, Taken, Mid;
    TallyIsMid(s0.count, t, n, parent);
  }

  /** The inode of something else than a directory is counted. */
  ghost predicate LeafSeen(dev: seq<Block>, N: nat, s0: State, s: State, t: Node, n: nat, parent: nat, z: nat) {
    && Reached(dev, N, s, n + 1, z) && s.clean && n < |s0.count| && s.count == Tally(s0.count, t, n, parent)
    && s.stack != [] && s.stack[1..] == s0.stack
  }

  lemma LeafBegins(dev: seq<Block>, N: nat, s0: State, s: State, t: Node, n: nat, parent: nat, z: nat)
    requires !t.DirNode? && Arrives(dev, N, s0, t, n, parent, z) && n != parent
    requires s.inodeMap == s0.inodeMap[n := true] && s.zoneMap == s0.zoneMap && s.clean
    requires s.count == s0.count[n := (s0.count[n] - 1) % 256]
    requires s.stack != [] && s.stack[1..] == s0.stack
    ensures LeafSeen(dev, N, s0, s, t, n, parent, z)
  {
    hide View, NodeAt, Taken;
    TakeNext(n, N + 1);
  }

  lemma FileEnds(dev: seq<Block>, N: nat, s0: State, s1: State, s: State, t: Node, n: nat, parent: nat, z: nat)
    requires t.FileNode? && Arrives(dev, N, s0, t, n, parent, z) && LeafSeen(dev, N, s0, s1, t, n, parent, z)
    requires s == s1.(zoneMap := Taken(z - First(N) + 1 + Zones(t), |dev| - First(N) + 1))
    ensures Leaves(dev, N, s0, s.(stack := s.stack[1..]), t, n, parent, z)
  {
    hide View, NodeAt, Taken;
  }

  lemma DeviceEnds(dev: seq<Block>, N: nat, s0: State, s: State, t: Node, n: nat, parent: nat, z: nat)
    requires t.DeviceNode? && Arrives(dev, N, s0, t, n, parent, z) && LeafSeen(dev, N, s0, s, t, n, parent, z)
    ensures Leaves(dev, N, s0, s.(stack := s.stack[1..]), t, n, parent, z)
  {
    hide View, NodeAt, Taken;
  }

  /** The inode of what the walk arrives at. */
  lemma InodeMet(dev: seq<Block>, N: nat, s0: State, t: Node, n: nat, parent: nat, z: nat)
    requires Arrives(dev, N, s0, t, n, parent, z)
    ensures n <= N && |View(dev, N).tab| == N + 1
    ensures var ip := View(dev, N).tab[n];
      && (t.DirNode? ==> ip.kind == Directory && ip.nlinks == 2 + Subdirs(t, |t.kids|) <= LINK_MAX)
      && (t.FileNode? ==> ip.kind == Regular && ip.nlinks == 1)
      && (t.DeviceNode? ==> (ip.kind == BlockSpecial || ip.kind == CharSpecial) && ip.nlinks == 1)
  {
    hide View, KidsAt, EntriesAt, BlocksAt, Taken, SoundUpTo;
  }

  /** The zones in a directory's inode are its blocks. */
  lemma DirListed(dev: seq<Block>, N: nat, s0: State, s: State, t: Node, n: nat, parent: nat, z: nat)
    requires t.DirNode? && Arrives(dev, N, s0, t, n, parent, z) && InDir(dev, N, s0, s, t, n, parent, z, 0, false)
    ensures n < |View(dev, N).tab|
    ensures var ip := View(dev, N).tab[n]; var plan := OfDir(s0, t, n, parent, z);
      ListFits(plan, dev, N, ip, ip.zone[..NR_DZONE_NUM], 0) && Follows(plan, dev, N, s, 0, 0)
  {
    hide View, NodeAt, Reached;
  }

  /** The zones in a regular file's inode are its first blocks and the indirect one. */
  lemma FileListed(dev: seq<Block>, N: nat, s0: State, s: State, t: Node, n: nat, parent: nat, z: nat)
    requires t.FileNode? && Arrives(dev, N, s0, t, n, parent, z) && LeafSeen(dev, N, s0, s, t, n, parent, z)
    ensures n < |View(dev, N).tab|
    ensures var ip := View(dev, N).tab[n]; var m := Blocks(ip.size);
      && m == Blocks(|t.content|) && m <= NR_DZONE_NUM + NR_INDIRECTS && FileFits(dev, N, ip, m, z)
      && ListFits(OfFile(s, m, z, 0), dev, N, ip, ip.zone[..NR_DZONE_NUM], 0)
      && Follows(OfFile(s, m, z, 0), dev, N, s, 0, 0)
      && (m > NR_DZONE_NUM ==> ListFits(OfIndirect(s, m, z), dev, N, ip, [ip.zone[NR_DZONE_NUM]], 1))
  {
    var d, m := View(dev, N), Blocks(|t.content|);
    hide View, Taken, AsIndirect, FileIndirect, Chunks, Tally;
    if m > NR_DZONE_NUM { assert d.zone[z + NR_DZONE_NUM + 1] == dev[z + NR_DZONE_NUM + 1] by { ViewZoneIs(dev, N, z + NR_DZONE_NUM + 1); } }
    assert s == s.(zoneMap := s.zoneMap);
  }

  lemma ViewZoneIs(dev: seq<Block>, N: nat, z: nat)
    requires First(N) <= z < |dev|
    ensures View(dev, N).zone[z] == dev[z]
  {
  }

  /** Where the walk stands in a file between its lists of zones: `lists` of them are done. */
  ghost predicate FileUnderway(dev: seq<Block>, N: nat, s1: State, s: State, size: nat, z: nat, pos: nat, lists: nat) {
    var m := Blocks(size);
    if lists == 1 && m > NR_DZONE_NUM then pos == BLOCK_SIZE * NR_DZONE_NUM && InFile(dev, N, s1, s, z, NR_DZONE_NUM, false)
    else pos >= size && InFile(dev, N, s1, s, z, m, m > NR_DZONE_NUM)
  }

  lemma DirectsDone(dev: seq<Block>, N: nat, s1: State, s: State, size: nat, z: nat, pos: nat)
    requires Follows(OfFile(s1, Blocks(size), z, 0), dev, N, s, pos, NR_DZONE_NUM)
    ensures FileUnderway(dev, N, s1, s, size, z, pos, 1)
  {
    hide InFile;
  }

  lemma FileMapDone(dev: seq<Block>, N: nat, s1: State, s: State, size: nat, z: nat, pos: nat)
    requires FileUnderway(dev, N, s1, s, size, z, pos, 3)
    ensures First(N) <= z && First(N) <= |dev|
    ensures s == s1.(zoneMap := Taken(z - First(N) + 1 + FileZones(Blocks(size)), |dev| - First(N) + 1))
  {
  }

  lemma DirListDone(plan: Plan, dev: seq<Block>, N: nat, ip: Inode, s: State, pos: nat)
    requires plan.OfDir? && ListFits(plan, dev, N, ip, ip.zone[..NR_DZONE_NUM], 0) && Follows(plan, dev, N, s, pos, NR_DZONE_NUM)
    ensures pos >= ip.size && InDir(dev, N, plan.s0, s, plan.t, plan.n, plan.parent, plan.z, |plan.t.kids| + 2, false)
  {
    hide View, Arrives, InDir;
    DirSize(dev, N, plan.s0, plan.t, plan.n, plan.parent, plan.z);
  }
}
