/** What mkfs's routines do to the disk as a whole: add_zone(), eat_file() and enter_dir(). */
module MkfsDisk {
  import opened FsDisk
  import opened FsTree

  /** The first zero among the first `lim` numbers, or `lim`. */
  function FirstZero(s: seq<nat>, lim: nat, from: nat): (r: nat)
    requires from <= lim <= |s|
    ensures from <= r <= lim && (forall i :: from <= i < r ==> s[i] != 0) && (r < lim ==> s[r] == 0)
    decreases lim - from
  {
    if from == lim || s[from] == 0 then from else FirstZero(s, lim, from + 1)
  }

  /** Bits from..from+count set. */
  function Fill(bits: seq<bool>, from: nat, count: nat): (r: seq<bool>)
    ensures |r| == |bits|
  {
    seq(|bits|, k requires 0 <= k < |bits| => bits[k] || from <= k < from + count)
  }

  ghost predicate MapsAt(image: seq<Block>, inodes: nat, nextInode: nat, nextZone: nat)
    requires First(inodes) <= nextZone && First(inodes) <= |image|
  {
    && image[SUPER_BLOCK] == SuperBlock(TheSuper(inodes, |image|))
    && image[INODE_MAP] == BitMap(Taken(nextInode, inodes + 1))
    && image[ZONE_MAP] == BitMap(Taken(nextZone - First(inodes) + 1, |image| - First(inodes) + 1))
  }

  /** The super block of a file system with one block for each map and zones of one block. */
  function TheSuper(inodes: nat, zones: nat): Super {
    Super(inodes, zones, 1, 1, First(inodes), 0, MAX_ZONES * BLOCK_SIZE, SUPER_MAGIC)
  }

  ghost predicate Seen(umap: seq<bool>, n: nat) {
    n <= |umap| && forall b :: 0 <= b < n ==> umap[b]
  }

  ghost predicate FreeFrom(tab: seq<Inode>, n: nat) {
    forall i :: n <= i < |tab| ==> tab[i] == NO_INODE
  }

  /** The sizes covered: at least one inode and zone, each map in one block. */
  predicate Geometry(inodes: nat, blocks: nat) {
    1 <= inodes < BITS_PER_BLOCK && First(inodes) < blocks <= BITS_PER_BLOCK
  }

  // ---------- enter_dir() on the disk as a whole ----------

  /** The first entry from `from` on that is not in use. */
  function FreeSlot(dir: seq<Entry>, from: nat): (r: nat)
    requires from <= |dir|
    ensures from <= r <= |dir| && (forall i :: from <= i < r ==> dir[i].inum != 0) && (r < |dir| ==> dir[r].inum == 0)
    decreases |dir| - from
  {
    if from == |dir| || dir[from].inum == 0 then from else FreeSlot(dir, from + 1)
  }

  lemma EmptyBlock(entry: Entry)
    ensures FreeSlot(AsDir(Zero), 0) == 0 && Into(AsDir(Zero), entry) == AsDir(Zero)[0 := entry]
  {
  }

  function Into(dir: seq<Entry>, entry: Entry): seq<Entry>
    requires FreeSlot(dir, 0) < |dir|
  {
    dir[FreeSlot(dir, 0) := entry]
  }

  ghost predicate DirectsIn(d: Disk, n: nat, lo: nat, hi: nat) {
    n < |d.tab| && hi <= |d.zone| &&
    forall k :: 0 <= k < NR_DZONE_NUM && d.tab[n].zone[k] != 0 ==> lo <= d.tab[n].zone[k] < hi
  }

  /** The first of a directory's zones, from the k-th on, that is missing or has a free entry. */
  ghost function Room(d: Disk, n: nat, k: nat): (r: nat)
    requires DirectsIn(d, n, 0, |d.zone|) && k <= NR_DZONE_NUM
    ensures k <= r <= NR_DZONE_NUM
    decreases NR_DZONE_NUM - k
  {
    if k == NR_DZONE_NUM || d.tab[n].zone[k] == 0 || FreeSlot(AsDir(d.zone[d.tab[n].zone[k]]), 0) < NR_DIR_ENTRIES
    then k else Room(d, n, k + 1)
  }

  ghost predicate OpensBlock(d: Disk, n: nat)
    requires DirectsIn(d, n, 0, |d.zone|)
  {
    Room(d, n, 0) < NR_DZONE_NUM && d.tab[n].zone[Room(d, n, 0)] == 0
  }

  ghost predicate Enterable(d: Disk, n: nat, next: nat)
    requires DirectsIn(d, n, 0, |d.zone|)
  {
    Room(d, n, 0) < NR_DZONE_NUM && (OpensBlock(d, n) ==> next < |d.zone|)
  }

  ghost function Entered(d: Disk, n: nat, entry: Entry, next: nat): Disk
    requires DirectsIn(d, n, 0, |d.zone|) && Enterable(d, n, next)
  {
    var p := d.tab[n];
    var k := Room(d, n, 0);
    if p.zone[k] == 0 then
      Disk(d.tab[n := p.(zone := p.zone[k := next])], d.zone[next := Zero][next := Dir(AsDir(Zero)[0 := entry])])
    else
      Disk(d.tab[n := p], d.zone[p.zone[k] := Dir(Into(AsDir(d.zone[p.zone[k]]), entry))])
  }

  lemma FailsForGood(m: nat, size: nat, z: nat, blocks: nat)
    requires BLOCK_SIZE * m < size
    requires !(m < NR_DZONE_NUM + NR_INDIRECTS && z + FileZones(m + 1) <= blocks)
    ensures !(Blocks(size) <= NR_DZONE_NUM + NR_INDIRECTS && z + FileZones(Blocks(size)) <= blocks)
  {
    assert Blocks(size) >= m + 1;
  }

  /** The disk once the m-th block of a file is in its zone, but not yet in the inode. */
  ghost function WithChunk(d: Disk, content: seq<bv8>, m: nat, zone: nat): Disk
    requires zone < |d.zone|
  {
    Disk(d.tab, d.zone[zone := Zero][zone := Data(Chunk(content, m))])
  }

  /** add_zone() of the m-th block's zone to a file with m blocks: when it works, and what it leaves. */
  ghost predicate Grows(d: Disk, d': Disk, content: seq<bv8>, perms: nat, m: nat, size: nat, n: nat, z: nat, bytes: nat) {
    var zone := z + FileZones(m);
    && IndirectIn(d', n, z, zone + 1) && IndirectIn(d', n, 0, |d'.zone|)
    && (Addable(d', n, zone + 1) <==> m < NR_DZONE_NUM + NR_INDIRECTS && z + FileZones(m + 1) <= |d'.zone|)
    && (Addable(d', n, zone + 1) ==>
      && FileGrown(d, Added(d', n, zone, bytes, zone + 1), content, perms, m + 1, size + bytes, n, z)
      && (z + FileZones(m + 1) == zone + 1 + if NeedsIndirect(d'.tab[n]) then 1 else 0))
  }

  lemma GrowsGives(d: Disk, d': Disk, content: seq<bv8>, perms: nat, m: nat, size: nat, n: nat, z: nat, bytes: nat, lo: nat)
    requires Grows(d, d', content, perms, m, size, n, z, bytes) && lo <= z
    ensures var zone := z + FileZones(m);
      && IndirectIn(d', n, lo, zone + 1) && IndirectIn(d', n, 0, |d'.zone|)
      && (Addable(d', n, zone + 1) <==> m < NR_DZONE_NUM + NR_INDIRECTS && z + FileZones(m + 1) <= |d'.zone|)
      && (Addable(d', n, zone + 1) ==>
        var d'' := Added(d', n, zone, bytes, zone + 1);
        && FileAt(d'', content, perms, m + 1, size + bytes, n, z) && Same(d, d'', 0, n, 0, z)
        && (z + FileZones(m + 1) == zone + 1 + if NeedsIndirect(d'.tab[n]) then 1 else 0))
  {
  }

  lemma ChunkGrows(d: Disk, content: seq<bv8>, perms: nat, m: nat, size: nat, n: nat, z: nat, blocks: nat, bytes: nat)
    requires FileAt(d, content, perms, m, size, n, z) && z >= INODE_OFFSET && |d.zone| == blocks <= BITS_PER_BLOCK
    requires z + FileZones(m) < blocks
    ensures Grows(d, WithChunk(d, content, m, z + FileZones(m)), content, perms, m, size, n, z, bytes)
  {
    hide AboutToGrow, Grows, FileAt, Same, WithChunk;
    var d' := WithChunk(d, content, m, z + FileZones(m));
    ChunkInPlace(d, content, perms, m, size, n, z);
    if m < NR_DZONE_NUM {
      DirectGrows(d', content, perms, m, size, n, z, bytes);
    } else if m == NR_DZONE_NUM {
      EighthGrows(d', content, perms, size, n, z, bytes);
    } else {
      IndirectGrows(d', content, perms, m, size, n, z, bytes);
    }
    GrowsThrough(d, d', content, perms, m, size, n, z, bytes);
  }

  lemma ChunkInPlace(d: Disk, content: seq<bv8>, perms: nat, m: nat, size: nat, n: nat, z: nat)
    requires FileAt(d, content, perms, m, size, n, z) && z >= INODE_OFFSET
    requires z + FileZones(m) < |d.zone| <= BITS_PER_BLOCK
    ensures var d' := WithChunk(d, content, m, z + FileZones(m));
      AboutToGrow(d', content, perms, m, size, n, z) && Same(d, d', 0, n, 0, z)
  {
    var zone := z + FileZones(m);
    var d' := WithChunk(d, content, m, zone);
    assert Same(d, d', 0, |d.tab|, 0, zone);
    BlocksKept(d, d', content, m, z);
    ChunkReads(content, m);
  }

  lemma GrowsThrough(d: Disk, d': Disk, content: seq<bv8>, perms: nat, m: nat, size: nat, n: nat, z: nat, bytes: nat)
    requires Grows(d', d', content, perms, m, size, n, z, bytes) && Same(d, d', 0, n, 0, z)
    ensures Grows(d, d', content, perms, m, size, n, z, bytes)
  {
    hide Added, Addable, FileAt;
  }

  lemma ChunkReads(content: seq<bv8>, m: nat)
    ensures AsData(Data(Chunk(content, m))) == Chunk(content, m)
  {
  }

  /** A file with m blocks, and the next one in its zone. */
  ghost predicate AboutToGrow(d: Disk, content: seq<bv8>, perms: nat, m: nat, size: nat, n: nat, z: nat) {
    && FileAt(d, content, perms, m, size, n, z) && z >= INODE_OFFSET
    && z + FileZones(m) < |d.zone| <= BITS_PER_BLOCK
    && AsData(d.zone[z + FileZones(m)]) == Chunk(content, m)
  }

  lemma OneMoreChunk(d: Disk, content: seq<bv8>, m: nat, z: nat)
    requires Chunks(d, content, m, z) && z + FileZones(m) < |d.zone|
    requires AsData(d.zone[z + FileZones(m)]) == Chunk(content, m)
    ensures Chunks(d, content, m + 1, z)
  {
    assert BlockPos(m) == FileZones(m);
    forall j | 0 <= j < m + 1 ensures ChunkAt(d, content, j, z) {
      if j < m { assert ChunkAt(d, content, j, z); }
    }
  }

  lemma ChunksKept(d: Disk, d': Disk, content: seq<bv8>, m: nat, z: nat, ind: nat, b: Block)
    requires Chunks(d, content, m, z) && ind < |d.zone| && d'.zone == d.zone[ind := b]
    requires ind == z + NR_DZONE_NUM + 1 || ind >= z + FileZones(m)
    ensures Chunks(d', content, m, z)
  {
    forall j | 0 <= j < m ensures ChunkAt(d', content, j, z) {
      assert ChunkAt(d, content, j, z);
    }
  }

  lemma DirectInode(p: Inode, m: nat, z: nat)
    requires m < NR_DZONE_NUM && 0 < z && z + m < 0x10000 && p.zone == FileDirect(m, z)
    ensures FirstZero(p.zone, NR_DZONE_NUM, 0) == m
    ensures p.zone[m := (z + m) % 0x10000] == FileDirect(m + 1, z)
    ensures p.zone[NR_DZONE_NUM] == 0
  {
  }

  lemma FullInode(p: Inode, m: nat, z: nat)
    requires m >= NR_DZONE_NUM && 0 < z && p.zone == FileDirect(m, z)
    ensures FirstZero(p.zone, NR_DZONE_NUM, 0) == NR_DZONE_NUM
    ensures p.zone[NR_DZONE_NUM] == if m == NR_DZONE_NUM then 0 else z + NR_DZONE_NUM + 1
    ensures p.zone[NR_DZONE_NUM := z + NR_DZONE_NUM + 1] == FileDirect(m + 1, z)
  {
  }

  lemma FirstIndirect(z: nat)
    requires 0 < z && z + NR_DZONE_NUM < 0x10000
    ensures AsIndirect(Indirect(AsIndirect(Zero)[0 := (z + NR_DZONE_NUM) % 0x10000])) == FileIndirect(NR_DZONE_NUM + 1, z)
  {
  }

  lemma NextIndirect(m: nat, z: nat)
    requires m > NR_DZONE_NUM && 0 < z && z + m + 1 < 0x10000
    ensures var k := FirstZero(FileIndirect(m, z), NR_INDIRECTS, 0);
      && (k < NR_INDIRECTS <==> m < NR_DZONE_NUM + NR_INDIRECTS)
      && (k < NR_INDIRECTS ==>
        AsIndirect(Indirect(FileIndirect(m, z)[k := (z + m + 1) % 0x10000])) == FileIndirect(m + 1, z))
  {
    var blk := FileIndirect(m, z);
    var k := FirstZero(blk, NR_INDIRECTS, 0);
    if m < NR_DZONE_NUM + NR_INDIRECTS {
      assert blk[m - NR_DZONE_NUM] == IndirectEntry(m, z, m - NR_DZONE_NUM) == 0;
    }
    if k < NR_INDIRECTS {
      assert blk[k] == IndirectEntry(m, z, k);
      assert k == m - NR_DZONE_NUM;
      assert FileIndirect(m, z)[k := (z + m + 1) % 0x10000] == FileIndirect(m + 1, z);
    }
  }

  ghost predicate FileGrown(d: Disk, d': Disk, content: seq<bv8>, perms: nat, m: nat, size: nat, n: nat, z: nat) {
    FileAt(d', content, perms, m, size, n, z) && Same(d, d', 0, n, 0, z)
  }

  lemma DirectGrows(d: Disk, content: seq<bv8>, perms: nat, m: nat, size: nat, n: nat, z: nat, bytes: nat)
    requires AboutToGrow(d, content, perms, m, size, n, z) && m < NR_DZONE_NUM
    ensures Grows(d, d, content, perms, m, size, n, z, bytes)
  {
    DirectInode(d.tab[n], m, z);
    OneMoreChunk(d, content, m, z);
    hide FirstZero, FileDirect, FileIndirect, Chunk, AsData, AsIndirect, Chunks;
    ChunksFit(d, Added(d, n, z + m, bytes, z + m + 1), content, m + 1, z);
  }

  lemma ChunksFit(d: Disk, d': Disk, content: seq<bv8>, m: nat, z: nat)
    requires Chunks(d, content, m, z) && d'.zone == d.zone
    ensures Chunks(d', content, m, z)
  {
    forall j | 0 <= j < m ensures ChunkAt(d', content, j, z) { assert ChunkAt(d, content, j, z); }
  }

  lemma EighthGrows(d: Disk, content: seq<bv8>, perms: nat, size: nat, n: nat, z: nat, bytes: nat)
    requires AboutToGrow(d, content, perms, NR_DZONE_NUM, size, n, z)
    ensures Grows(d, d, content, perms, NR_DZONE_NUM, size, n, z, bytes)
  {
    var zone, m := z + NR_DZONE_NUM, NR_DZONE_NUM;
    FullInode(d.tab[n], m, z);
    OneMoreChunk(d, content, m, z);
    FirstIndirect(z);
    hide FirstZero, FileDirect, FileIndirect, Chunk, AsData, AsIndirect, Chunks;
    if zone + 1 < |d.zone| {
      var d' := Added(d, n, zone, bytes, zone + 1);
      ChunksKept(d, d', content, m + 1, z, zone + 1, d'.zone[zone + 1]);
    }
  }

  lemma IndirectGrows(d: Disk, content: seq<bv8>, perms: nat, m: nat, size: nat, n: nat, z: nat, bytes: nat)
    requires AboutToGrow(d, content, perms, m, size, n, z) && m > NR_DZONE_NUM
    ensures Grows(d, d, content, perms, m, size, n, z, bytes)
  {
    var zone, ind := z + m + 1, z + NR_DZONE_NUM + 1;
    FullInode(d.tab[n], m, z);
    OneMoreChunk(d, content, m, z);
    NextIndirect(m, z);
    assert d.tab[n].zone[NR_DZONE_NUM := ind] == d.tab[n].zone;
    hide FirstZero, FileDirect, FileIndirect, Chunk, AsData, AsIndirect, Chunks;
    if m < NR_DZONE_NUM + NR_INDIRECTS {
      var d' := Added(d, n, zone, bytes, zone + 1);
      ChunksKept(d, d', content, m + 1, z, ind, d'.zone[ind]);
    }
  }

  // ---------- add_zone() on the disk as a whole ----------

  ghost predicate IndirectIn(d: Disk, n: nat, lo: nat, hi: nat) {
    n < |d.tab| && hi <= |d.zone| &&
    (d.tab[n].zone[NR_DZONE_NUM] != 0 ==> lo <= d.tab[n].zone[NR_DZONE_NUM] < hi)
  }

  predicate DirectsFull(p: Inode) { FirstZero(p.zone, NR_DZONE_NUM, 0) == NR_DZONE_NUM }

  predicate NeedsIndirect(p: Inode) { DirectsFull(p) && p.zone[NR_DZONE_NUM] == 0 }

  /** Is there room for one more zone in inode n, when `next` is the next zone to be allocated? */
  ghost predicate Addable(d: Disk, n: nat, next: nat)
    requires IndirectIn(d, n, 0, |d.zone|)
  {
    var p := d.tab[n];
    if !DirectsFull(p) then true
    else if NeedsIndirect(p) then next < |d.zone|
    else FirstZero(AsIndirect(d.zone[p.zone[NR_DZONE_NUM]]), NR_INDIRECTS, 0) < NR_INDIRECTS
  }

  ghost function Added(d: Disk, n: nat, z: nat, bytes: nat, next: nat): Disk
    requires IndirectIn(d, n, 0, |d.zone|) && Addable(d, n, next)
  {
    var p := d.tab[n].(size := d.tab[n].size + bytes);
    var i := FirstZero(p.zone, NR_DZONE_NUM, 0);
    if i < NR_DZONE_NUM then
      Disk(d.tab[n := p.(zone := p.zone[i := z % 0x10000])], d.zone)
    else if p.zone[NR_DZONE_NUM] == 0 then
      Disk(d.tab[n := p.(zone := p.zone[NR_DZONE_NUM := next])],
           d.zone[next := Indirect(AsIndirect(Zero)[0 := z % 0x10000])])
    else
      var ind := p.zone[NR_DZONE_NUM];
      var k := FirstZero(AsIndirect(d.zone[ind]), NR_INDIRECTS, 0);
      Disk(d.tab[n := p], d.zone[ind := Indirect(AsIndirect(d.zone[ind])[k := z % 0x10000])])
  }

  lemma Directs(d: Disk, n: nat, z: nat, bytes: nat, next: nat)
    requires IndirectIn(d, n, 0, |d.zone|) && !DirectsFull(d.tab[n])
    ensures !NeedsIndirect(d.tab[n]) && Addable(d, n, next)
    ensures var p := d.tab[n].(size := d.tab[n].size + bytes);
      Added(d, n, z, bytes, next) ==
        Disk(d.tab[n := p.(zone := p.zone[FirstZero(p.zone, NR_DZONE_NUM, 0) := z % 0x10000])], d.zone)
  {
  }

  lemma NewIndirect(d: Disk, n: nat, z: nat, bytes: nat, next: nat)
    requires IndirectIn(d, n, 0, |d.zone|) && NeedsIndirect(d.tab[n])
    ensures FirstZero(AsIndirect(Zero), NR_INDIRECTS, 0) == 0
    ensures Addable(d, n, next) <==> next < |d.zone|
    ensures next < |d.zone| ==>
      var p := d.tab[n].(size := d.tab[n].size + bytes);
      Added(d, n, z, bytes, next) ==
        Disk(d.tab[n := p][n := p.(zone := p.zone[NR_DZONE_NUM := next])],
             d.zone[next := Zero][next := Indirect(AsIndirect(Zero)[0 := z % 0x10000])])
  {
    ZeroIndirect();
    hide AsIndirect;
    var p := d.tab[n].(size := d.tab[n].size + bytes);
    var p' := p.(zone := p.zone[NR_DZONE_NUM := next]);
    assert d.tab[n := p][n := p'] == d.tab[n := p'];
    if next < |d.zone| {
      var b := Indirect(AsIndirect(Zero)[0 := z % 0x10000]);
      assert d.zone[next := Zero][next := b] == d.zone[next := b];
    }
  }

  lemma OldIndirect(d: Disk, n: nat, z: nat, bytes: nat, next: nat)
    requires IndirectIn(d, n, 0, |d.zone|) && DirectsFull(d.tab[n]) && !NeedsIndirect(d.tab[n])
    ensures d.tab[n].zone[NR_DZONE_NUM] != 0
    ensures var ind := d.tab[n].zone[NR_DZONE_NUM]; var k := FirstZero(AsIndirect(d.zone[ind]), NR_INDIRECTS, 0);
      && (Addable(d, n, next) <==> k < NR_INDIRECTS)
      && (k < NR_INDIRECTS ==>
        var p := d.tab[n].(size := d.tab[n].size + bytes);
        Added(d, n, z, bytes, next) ==
          Disk(d.tab[n := p][n := p], d.zone[ind := Indirect(AsIndirect(d.zone[ind])[k := z % 0x10000])]))
  {
    hide AsIndirect;
    var p := d.tab[n].(size := d.tab[n].size + bytes);
    assert d.tab[n := p][n := p] == d.tab[n := p];
  }

  lemma ZeroIndirect()
    ensures AsIndirect(Zero)[0] == 0
  {
  }

  lemma FillNext(used: nat, len: nat)
    requires used < len <= BITS_PER_BLOCK
    ensures AsBits(BitMap(Taken(used, len))) == Taken(used, len)
    ensures Fill(Taken(used, len), used, 1) == Taken(used + 1, len)
  {
  }

  lemma MapsKept(image: seq<Block>, inodes: nat, nextInode: nat, nextZone: nat, n: nat, inode: Inode)
    requires First(inodes) <= nextZone && First(inodes) <= |image| && 1 <= n <= inodes
    requires MapsAt(image, inodes, nextInode, nextZone)
    ensures InodeBlock(n) < First(inodes) && MapsAt(SetInode(image, n, inode), inodes, nextInode, nextZone)
  {
    InodeInTable(n, inodes);
  }

  ghost predicate Cleared(image: seq<Block>, n: nat) {
    n <= |image| && forall b :: 2 <= b < n ==> image[b] == Zero
  }

  lemma FreshMap(len: nat)
    requires 1 <= len <= BITS_PER_BLOCK
    ensures Fill(Fill(AsBits(Zero), len, BITS_PER_BLOCK - len), 0, 1) == Taken(1, len)
  {
  }

  lemma FreshTable(image: seq<Block>, inodes: nat)
    requires First(inodes) <= |image|
    requires forall b :: INODE_OFFSET <= b < First(inodes) ==> image[b] == Zero
    ensures FreeFrom(View(image, inodes).tab, 1)
  {
    var tab := View(image, inodes).tab;
    forall n | 1 <= n < |tab| ensures tab[n] == NO_INODE { InodeInTable(n, inodes); }
  }
}
