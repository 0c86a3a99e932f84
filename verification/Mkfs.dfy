/** mkfs: builds a file system from a prototype tree. */
module Mkfs {
  import opened FsDisk
  import opened FsTree
  import opened MkfsDisk
  import opened MkfsTree

  class Maker {
    const nrinodes: nat
    const nrblocks: nat
    var image: seq<Block>
    var umap: seq<bool>
    var nextInode: nat
    var nextZone: nat

    ghost predicate Sized()
      reads this
    {
      Geometry(nrinodes, nrblocks) && |image| == |umap| == nrblocks
    }

    ghost function D(): (d: Disk)
      reads this
      requires Sized()
      ensures |d.tab| == nrinodes + 1 && |d.zone| == nrblocks
    {
      View(image, nrinodes)
    }

    ghost predicate Valid()
      reads this
    {
      && Sized()
      && 1 <= nextInode <= nrinodes && First(nrinodes) <= nextZone <= nrblocks
      && Seen(umap, nextZone)
      && MapsAt(image, nrinodes, nextInode, nextZone)
      && FreeFrom(D().tab, nextInode)
    }

    /** get_block(): the first access to a block finds zeros. */
    method GetBlock(n: nat) returns (buf: Block)
      requires n < |umap| == |image|
      modifies this`umap
      ensures umap == old(umap)[n := true]
      ensures buf == if old(umap)[n] then image[n] else Zero
    {
      buf := if umap[n] then image[n] else Zero;
      umap := umap[n := true];
    }

    /** put_block() */
    method PutBlock(n: nat, buf: Block)
      requires n < |umap| == |image|
      modifies this`umap, this`image
      ensures umap == old(umap)[n := true] && image == old(image)[n := buf]
    {
      umap := umap[n := true];
      image := image[n := buf];
    }

    /** insert_bit() */
    method InsertBit(block: nat, bit: nat, count: nat)
      requires block < |umap| == |image| && umap[block] && bit + count <= BITS_PER_BLOCK
      modifies this`umap, this`image
      ensures umap == old(umap)
      ensures image == old(image)[block := BitMap(Fill(AsBits(old(image)[block]), bit, count))]
    {
      var b := GetBlock(block);
      var buf := AsBits(b);
      ghost var was := buf;
      var i := bit;
      while i < bit + count
        invariant bit <= i <= bit + count && |buf| == BITS_PER_BLOCK
        invariant forall k :: 0 <= k < BITS_PER_BLOCK ==> buf[k] == (was[k] || bit <= k < i)
      {
        buf := buf[i := true];
        i := i + 1;
      }
      assert buf == Fill(was, bit, count);
      PutBlock(block, BitMap(buf));
    }

    /** A device with arbitrary contents. */
    constructor (raw: seq<Block>, inodes: nat)
      requires Geometry(inodes, |raw|)
      ensures Sized() && nrinodes == inodes && nrblocks == |raw| && umap == seq(|raw|, _ => false)
    {
      nrinodes, nrblocks := inodes, |raw|;
      image, umap := raw, seq(|raw|, _ => false);
      nextInode, nextZone := 0, 0;
    }

    /** super(): super block, cleared maps and inodes, and the map bits that stand for nothing. */
    method Super()
      requires Sized() && Seen(umap, 1)
      modifies this
      ensures Valid() && nextInode == 1 && nextZone == First(nrinodes)
    {
      PutBlock(SUPER_BLOCK, SuperBlock(TheSuper(nrinodes, nrblocks)));
      Clear();
      nextZone, nextInode := First(nrinodes), 1;
      MarkEnds();
      FreshTable(image, nrinodes);
    }

    method Clear()
      requires Sized() && Seen(umap, 2)
      modifies this`umap, this`image
      ensures Sized() && Seen(umap, First(nrinodes)) && image[SUPER_BLOCK] == old(image[SUPER_BLOCK])
      ensures Cleared(image, First(nrinodes))
    {
      var i := 2;
      while i < First(nrinodes)
        invariant 2 <= i <= First(nrinodes) && Sized() && Seen(umap, i)
        invariant image[SUPER_BLOCK] == old(image[SUPER_BLOCK]) && Cleared(image, i)
      {
        PutBlock(i, Zero);
        i := i + 1;
      }
    }

    method MarkEnds()
      requires Sized() && Seen(umap, INODE_OFFSET) && image[INODE_MAP] == image[ZONE_MAP] == Zero
      modifies this`umap, this`image
      ensures umap == old(umap)
      ensures image == old(image)[INODE_MAP := BitMap(Taken(1, nrinodes + 1))]
                                 [ZONE_MAP := BitMap(Taken(1, nrblocks - First(nrinodes) + 1))]
    {
      var bits := nrinodes + 1;
      InsertBit(INODE_MAP, bits, BITS_PER_BLOCK - bits);
      FreshMap(bits);
      bits := nrblocks - First(nrinodes) + 1;
      InsertBit(ZONE_MAP, bits, BITS_PER_BLOCK - bits);
      InsertBit(ZONE_MAP, 0, 1);
      InsertBit(INODE_MAP, 0, 1);
      FreshMap(bits);
    }

    /** The inode block that holds inode n, read and written back with a changed inode. */
    method PutInode(n: nat, inode: Inode)
      requires Sized() && 1 <= n <= nrinodes && Seen(umap, First(nrinodes))
      modifies this`umap, this`image
      ensures Sized() && umap == old(umap) && image == SetInode(old(image), n, inode)
    {
      InodeInTable(n, nrinodes);
      var b := GetBlock(InodeBlock(n));
      PutBlock(InodeBlock(n), InodeTable(AsInodes(b)[(n - 1) % INODES_PER_BLOCK := inode]));
    }

    method GetInode(n: nat) returns (inode: Inode)
      requires Sized() && 1 <= n <= nrinodes && Seen(umap, First(nrinodes))
      modifies this`umap
      ensures umap == old(umap) && inode == D().tab[n]
    {
      InodeInTable(n, nrinodes);
      var b := GetBlock(InodeBlock(n));
      inode := AsInodes(b)[(n - 1) % INODES_PER_BLOCK];
      ViewAt(image, nrinodes, n);
    }

    /** Writes an allocated inode. */
    method WriteInode(n: nat, inode: Inode)
      requires Valid() && 1 <= n < nextInode
      modifies this`umap, this`image
      ensures Valid() && D() == Disk(old(D().tab)[n := inode], old(D().zone))
    {
      InodeIsSet(image, nrinodes, n, inode);
      hide View, Taken, SetInode, TheSuper;
      MapsKept(image, nrinodes, nextInode, nextZone, n, inode);
      PutInode(n, inode);
    }

    /** Writes an allocated zone. */
    method WriteZone(z: nat, b: Block)
      requires Valid() && First(nrinodes) <= z < nextZone
      modifies this`umap, this`image
      ensures Valid() && D() == Disk(old(D().tab), old(D().zone)[z := b])
    {
      ZoneIsSet(image, nrinodes, z, b);
      hide View, Taken, TheSuper;
      PutBlock(z, b);
      assert umap == old(umap);
    }

    method ReadZone(z: nat) returns (b: Block)
      requires Valid() && First(nrinodes) <= z < nextZone
      modifies this`umap
      ensures umap == old(umap) && |D().zone| == nrblocks && b == D().zone[z]
    {
      b := GetBlock(z);
    }

    /** incr_link(): the count is one unsigned byte. */
    method IncrLink(n: nat)
      requires Valid() && 1 <= n < nextInode
      modifies this`umap, this`image
      ensures Valid() && var was := old(D().tab)[n];
        D() == Disk(old(D().tab)[n := was.(nlinks := (was.nlinks + 1) % 256)], old(D().zone))
    {
      var inode := GetInode(n);
      WriteInode(n, inode.(nlinks := (inode.nlinks + 1) % 256));
    }

    /** incr_size() */
    method IncrSize(n: nat, count: nat)
      requires Valid() && 1 <= n < nextInode
      modifies this`umap, this`image
      ensures Valid() && var was := old(D().tab)[n];
        D() == Disk(old(D().tab)[n := was.(size := was.size + count)], old(D().zone))
    {
      var inode := GetInode(n);
      WriteInode(n, inode.(size := inode.size + count));
    }

    /** alloc_zone(): the next zone, cleared and marked; not ok when the device is full. */
    method AllocZone() returns (ok: bool, z: nat)
      requires Valid()
      modifies this`umap, this`image, this`nextZone
      ensures ok <==> old(nextZone) < nrblocks
      ensures ok ==> Valid() && z == old(nextZone) && nextZone == z + 1
      ensures ok ==> D() == Disk(old(D().tab), old(D().zone)[z := Zero])
    {
      z := nextZone;
      nextZone := nextZone + 1;
      if z + 1 > nrblocks { return false, 0; }
      ZoneIsSet(image, nrinodes, z, Zero);
      FillNext(z - First(nrinodes) + 1, nrblocks - First(nrinodes) + 1);
      hide View, Taken, TheSuper, Fill;
      PutBlock(z, Zero);
      ghost var one := image;
      InsertBit(ZONE_MAP, z - (First(nrinodes) - 1), 1);
      MapIsSet(one, nrinodes, ZONE_MAP, image[ZONE_MAP]);
      ok := true;
    }

    /** alloc_inode(): the next inode, marked; the last inode number is never given out. */
    method AllocInode(kind: Kind, perms: nat) returns (ok: bool, num: nat)
      requires Valid()
      modifies this`umap, this`image, this`nextInode
      ensures ok <==> old(nextInode) < nrinodes
      ensures ok ==> Valid() && num == old(nextInode) && nextInode == num + 1
      ensures ok ==> D() == Disk(old(D().tab)[num := Inode(kind, perms, 0, 0, NO_ZONES)], old(D().zone))
    {
      num := nextInode;
      nextInode := nextInode + 1;
      if num >= nrinodes { return false, 0; }
      var inode := GetInode(num);
      inode := inode.(kind := kind, perms := perms);
      InodeIsSet(image, nrinodes, num, inode);
      FillNext(num, nrinodes + 1);
      MapsKept(image, nrinodes, num, nextZone, num, inode);
      hide View, Taken, TheSuper, Fill, SetInode;
      PutInode(num, inode);
      ghost var one := image;
      InsertBit(INODE_MAP, num, 1);
      MapIsSet(one, nrinodes, INODE_MAP, image[INODE_MAP]);
      ok := true;
    }

    /** add_zone(): zone z goes into the first free place of inode n. */
    method AddZone(n: nat, z: nat, bytes: nat) returns (ok: bool)
      requires Valid() && 1 <= n < nextInode && IndirectIn(D(), n, First(nrinodes), nextZone)
      modifies this`umap, this`image, this`nextZone
      ensures ok <==> Addable(old(D()), n, old(nextZone))
      ensures ok ==> Valid() && D() == Added(old(D()), n, z, bytes, old(nextZone))
      ensures ok ==> nextZone == old(nextZone) + if NeedsIndirect(old(D().tab)[n]) then 1 else 0
    {
      var p := GetInode(n);
      ghost var d := D();
      if !DirectsFull(p) { Directs(d, n, z, bytes, nextZone); }
      hide *;
      p := p.(size := p.size + bytes);
      var done := AddDirect(n, p, z);
      if done { return true; }
      ok := AddBehind(n, p, z, bytes);
    }

    /** add_zone() once the direct zones are taken. */
    method AddBehind(n: nat, p0: Inode, z: nat, ghost bytes: nat) returns (ok: bool)
      requires Valid() && 1 <= n < nextInode && IndirectIn(D(), n, First(nrinodes), nextZone)
      requires DirectsFull(D().tab[n]) && p0 == D().tab[n].(size := D().tab[n].size + bytes)
      modifies this`umap, this`image, this`nextZone
      ensures ok <==> Addable(old(D()), n, old(nextZone))
      ensures ok ==> Valid() && D() == Added(old(D()), n, z, bytes, old(nextZone))
      ensures ok ==> nextZone == old(nextZone) + if NeedsIndirect(old(D().tab)[n]) then 1 else 0
    {
      hide View, Added, Addable, MapsAt, FreeFrom, Seen, FirstZero, AsIndirect;
      if NeedsIndirect(D().tab[n]) { NewIndirect(D(), n, z, bytes, nextZone); } else { OldIndirect(D(), n, z, bytes, nextZone); }
      var okz, p := GrowIndirect(n, p0);
      if !okz { return false; }
      ok := AddIndirect(p.zone[NR_DZONE_NUM], z);
    }

    /** Writes inode n as p0, with an indirect zone. */
    method GrowIndirect(n: nat, p0: Inode) returns (ok: bool, p: Inode)
      requires Valid() && 1 <= n < nextInode
      modifies this`umap, this`image, this`nextZone
      ensures ok <==> p0.zone[NR_DZONE_NUM] == 0 ==> old(nextZone) < nrblocks
      ensures ok ==> Valid() && |old(D().zone)| == nrblocks
      ensures ok && p0.zone[NR_DZONE_NUM] == 0 ==>
        p == p0.(zone := p0.zone[NR_DZONE_NUM := old(nextZone)]) && nextZone == old(nextZone) + 1 &&
        D() == Disk(old(D().tab)[n := p0][n := p], old(D().zone)[old(nextZone) := Zero])
      ensures ok && p0.zone[NR_DZONE_NUM] != 0 ==>
        p == p0 && nextZone == old(nextZone) && D() == Disk(old(D().tab)[n := p0][n := p], old(D().zone))
    {
      hide View, Added, Addable;
      p := p0;
      WriteInode(n, p);
      if p.zone[NR_DZONE_NUM] == 0 {
        var okz, ind := AllocZone();
        if !okz { return false, p; }
        p := p.(zone := p.zone[NR_DZONE_NUM := ind]);
      }
      WriteInode(n, p);
      ok := true;
    }

    /** The loop of add_zone() over the direct zones of inode n, to be written as p. */
    method AddDirect(n: nat, p: Inode, z: nat) returns (done: bool)
      requires Valid() && 1 <= n < nextInode && n < |D().tab| && p.zone == D().tab[n].zone
      modifies this`umap, this`image
      ensures Valid() && (done <==> !DirectsFull(old(D().tab)[n]))
      ensures D() == if done then Disk(old(D().tab)[n := p.(zone := p.zone[FirstZero(p.zone, NR_DZONE_NUM, 0) := z % 0x10000])], old(D().zone))
                     else old(D())
    {
      var i := 0;
      while i < NR_DZONE_NUM
        invariant 0 <= i <= NR_DZONE_NUM && Valid() && D() == old(D())
        invariant FirstZero(p.zone, NR_DZONE_NUM, 0) == FirstZero(p.zone, NR_DZONE_NUM, i)
      {
        if p.zone[i] == 0 {
          WriteInode(n, p.(zone := p.zone[i := z % 0x10000]));
          return true;
        }
        i := i + 1;
      }
      done := false;
    }

    /** The second half of add_zone(): the first free place of an indirect block. */
    method AddIndirect(ind: nat, z: nat) returns (ok: bool)
      requires Valid() && First(nrinodes) <= ind < nextZone
      modifies this`umap, this`image
      ensures |old(D().zone)| == nrblocks
      ensures var k := FirstZero(AsIndirect(old(D().zone)[ind]), NR_INDIRECTS, 0);
        && (ok <==> k < NR_INDIRECTS)
        && (ok ==> Valid() && D() == Disk(old(D().tab), old(D().zone)[ind := Indirect(AsIndirect(old(D().zone)[ind])[k := z % 0x10000])]))
    {
      var b := ReadZone(ind);
      var blk := AsIndirect(b);
      var i := 0;
      while i < NR_INDIRECTS
        invariant 0 <= i <= NR_INDIRECTS
        invariant FirstZero(blk, NR_INDIRECTS, 0) == FirstZero(blk, NR_INDIRECTS, i)
      {
        if blk[i] == 0 {
          WriteZone(ind, Indirect(blk[i := z % 0x10000]));
          return true;
        }
        i := i + 1;
      }
      ok := false;
    }

    /** A file's first m blocks are in, and `size` of its bytes. */
    ghost predicate Storing(content: seq<bv8>, perms: nat, m: nat, size: nat, n: nat, z: nat)
      reads this
    {
      Valid() && 1 <= n < nextInode && First(nrinodes) <= z && nextZone == z + FileZones(m) &&
      FileAt(D(), content, perms, m, size, n, z)
    }

    /** One round of eat_file()'s loop that reads something. */
    method EatBlock(n: nat, chunk: seq<bv8>, bytes: nat,
                    ghost content: seq<bv8>, ghost perms: nat, ghost m: nat, ghost size: nat, ghost z: nat)
      returns (ok: bool)
      requires Storing(content, perms, m, size, n, z) && chunk == Chunk(content, m)
      modifies this`umap, this`image, this`nextZone
      ensures ok <==> m < NR_DZONE_NUM + NR_INDIRECTS && z + FileZones(m + 1) <= nrblocks
      ensures ok ==> Storing(content, perms, m + 1, size + bytes, n, z) && Same(old(D()), D(), 0, n, 0, z)
    {
      hide View, Chunk, FileAt, Same, MapsAt, FreeFrom, Seen, Grows;
      ghost var d := D();
      var okz, zone := PutChunk(chunk);
      if !okz { return false; }
      ChunkGrows(d, content, perms, m, size, n, z, nrblocks, bytes);
      ok := LinkChunk(n, zone, bytes, d, content, perms, m, size, z);
    }

    /** The zone just written is added to the inode. */
    method LinkChunk(n: nat, zone: nat, bytes: nat,
                     ghost d: Disk, ghost content: seq<bv8>, ghost perms: nat, ghost m: nat, ghost size: nat, ghost z: nat)
      returns (ok: bool)
      requires Valid() && 1 <= n < nextInode && First(nrinodes) <= z && zone == z + FileZones(m) && nextZone == zone + 1
      requires Grows(d, D(), content, perms, m, size, n, z, bytes)
      modifies this`umap, this`image, this`nextZone
      ensures ok <==> m < NR_DZONE_NUM + NR_INDIRECTS && z + FileZones(m + 1) <= nrblocks
      ensures ok ==> Storing(content, perms, m + 1, size + bytes, n, z) && Same(d, D(), 0, n, 0, z)
    {
      hide View, Added, Addable, NeedsIndirect, FileAt, Same, MapsAt, FreeFrom, Seen, Grows, IndirectIn;
      GrowsGives(d, D(), content, perms, m, size, n, z, bytes, First(nrinodes));
      ok := AddZone(n, zone, bytes);
    }

    method PutChunk(chunk: seq<bv8>) returns (ok: bool, zone: nat)
      requires Valid()
      modifies this`umap, this`image, this`nextZone
      ensures ok <==> old(nextZone) < nrblocks
      ensures ok ==> Valid() && zone == old(nextZone) && nextZone == zone + 1
      ensures ok ==> D() == Disk(old(D().tab), old(D().zone)[zone := Zero][zone := Data(chunk)])
    {
      ok, zone := AllocZone();
      if ok { WriteZone(zone, Data(chunk)); }
    }

    /** eat_file() */
    method EatFile(n: nat, content: seq<bv8>, ghost perms: nat, ghost z: nat) returns (ok: bool)
      requires Storing(content, perms, 0, 0, n, z)
      modifies this`umap, this`image, this`nextZone
      ensures ok <==> Blocks(|content|) <= NR_DZONE_NUM + NR_INDIRECTS && z + FileZones(Blocks(|content|)) <= nrblocks
      ensures ok ==> Storing(content, perms, Blocks(|content|), |content|, n, z) && Same(old(D()), D(), 0, n, 0, z)
    {
      hide View, Chunk, FileAt, Same, MapsAt, FreeFrom, Seen;
      ghost var d := D();
      SameAsItself(d, 0, n, 0, z);
      ghost var m := 0;
      var pos, ct := 0, BLOCK_SIZE;
      while ct == BLOCK_SIZE
        invariant 0 <= pos <= |content| && 0 <= ct <= BLOCK_SIZE
        invariant m == Blocks(pos) && (ct == BLOCK_SIZE ==> pos == BLOCK_SIZE * m)
        invariant ct < BLOCK_SIZE ==> pos == |content|
        invariant Storing(content, perms, m, pos, n, z) && Same(d, D(), 0, n, 0, z)
        decreases |content| - pos, ct
      {
        var buf := ReadChunk(content, pos, m);
        ct := if |content| - pos < BLOCK_SIZE then |content| - pos else BLOCK_SIZE;
        if ct > 0 {
          ghost var d1 := D();
          ok := EatBlock(n, buf, ct, content, perms, m, pos, z);
          if !ok { FailsForGood(m, |content|, z, nrblocks); return; }
          SameThrough(d, d1, D(), 0, n, 0, z);
          pos := pos + ct;
          m := m + 1;
        }
      }
      ok := true;
      StoredFits(content, perms, m, pos, n, z);
    }

    /** What a full file says about its size. */
    lemma StoredFits(content: seq<bv8>, perms: nat, m: nat, size: nat, n: nat, z: nat)
      requires Storing(content, perms, m, size, n, z)
      ensures m <= NR_DZONE_NUM + NR_INDIRECTS && z + FileZones(m) <= nrblocks
    {
    }

    /** enter_dir() */
    method EnterDir(n: nat, name: string, child: nat) returns (ok: bool)
      requires Valid() && 1 <= n < nextInode && DirectsIn(D(), n, First(nrinodes), nextZone)
      modifies this`umap, this`image, this`nextZone
      ensures ok <==> Enterable(old(D()), n, old(nextZone))
      ensures ok ==> Valid() && D() == Entered(old(D()), n, Entry(child, Pad(name)), old(nextZone))
      ensures ok ==> nextZone == old(nextZone) + if OpensBlock(old(D()), n) then 1 else 0
    {
      hide View, Pad, MapsAt, FreeFrom, AsDir, FreeSlot, Into;
      ghost var d := D();
      var ino := GetInode(n);
      var k := 0;
      while k < NR_DZONE_NUM
        invariant 0 <= k <= NR_DZONE_NUM && Valid() && D() == d && nextZone == old(nextZone)
        invariant DirectsIn(d, n, First(nrinodes), nextZone) && ino == d.tab[n] && Room(d, n, 0) == Room(d, n, k)
      {
        if ino.zone[k] == 0 {
          ok := EnterNewBlock(n, ino, k, Entry(child, Pad(name)));
          return;
        }
        var done := EnterBlock(ino.zone[k], Entry(child, Pad(name)));
        if done {
          WriteInode(n, ino);
          return true;
        }
        k := k + 1;
      }
      ok := false;
    }

    /** enter_dir() where zone k of the directory is still missing. */
    method EnterNewBlock(n: nat, ino: Inode, k: nat, entry: Entry) returns (ok: bool)
      requires Valid() && 1 <= n < nextInode && k < NR_DZONE_NUM
      modifies this`umap, this`image, this`nextZone
      ensures ok <==> old(nextZone) < nrblocks
      ensures ok ==> Valid() && nextZone == old(nextZone) + 1
      ensures ok ==> var next := old(nextZone);
        D() == Disk(old(D().tab)[n := ino.(zone := ino.zone[k := next])],
                    old(D().zone)[next := Zero][next := Dir(AsDir(Zero)[0 := entry])])
    {
      hide View, MapsAt, FreeFrom, Seen, AsDir, FreeSlot, Into;
      var okz, z := AllocZone();
      if !okz { return false; }
      EmptyBlock(entry);
      var done := EnterBlock(z, entry);
      WriteInode(n, ino.(zone := ino.zone[k := z]));
      ok := true;
    }

    /** The inner loop of enter_dir(), over the entries of one block. */
    method EnterBlock(z: nat, entry: Entry) returns (done: bool)
      requires Valid() && First(nrinodes) <= z < nextZone
      modifies this`umap, this`image
      ensures Valid() && (done <==> FreeSlot(AsDir(old(D().zone)[z]), 0) < NR_DIR_ENTRIES)
      ensures D() == if done then Disk(old(D().tab), old(D().zone)[z := Dir(Into(AsDir(old(D().zone)[z]), entry))]) else old(D())
    {
      var b := ReadZone(z);
      var dir := AsDir(b);
      var i := 0;
      while i < NR_DIR_ENTRIES
        invariant 0 <= i <= NR_DIR_ENTRIES && Valid() && D() == old(D())
        invariant FreeSlot(dir, 0) == FreeSlot(dir, i)
      {
        if dir[i].inum == 0 {
          WriteZone(z, Dir(dir[i := entry]));
          return true;
        }
        i := i + 1;
      }
      done := false;
    }

    // ---------- Directories ----------

    /** Inode n is a directory with its first k children and their subtrees in place. */
    ghost predicate Eating(t: Node, k: nat, n: nat, parent: nat, z: nat)
      reads this
    {
      && Valid() && t.DirNode? && k <= |t.kids| && 1 <= n && 1 <= parent <= n && First(nrinodes) <= z
      && DirAt(D(), t, k, n, parent, z, (2 + Subdirs(t, k)) % 256) && KidsAt(D(), t, k, n, z)
      && nextInode == n + 1 + InodesUpTo(t, k) && nextZone == z + ZonesUpTo(t, k)
    }

    /** The entry, size and link of child k; its inode is still empty. */
    ghost predicate EntryMade(t: Node, k: nat, n: nat, parent: nat, z: nat)
      reads this
    {
      && Valid() && t.DirNode? && k < |t.kids| && 1 <= n && 1 <= parent <= n && First(nrinodes) <= z
      && DirAt(D(), t, k + 1, n, parent, z, (2 + Subdirs(t, k)) % 256) && KidsAt(D(), t, k, n, z)
      && nextInode == n + KidInode(t, k) + 1 && nextZone == z + KidZone(t, k)
      && n + KidInode(t, k) < |D().tab|
      && D().tab[n + KidInode(t, k)] == Inode(KindOf(t.kids[k].node), t.kids[k].node.perms, 1, 0, NO_ZONES)
    }

    /** The four lines that rootdir() and eat_dir() share: a zone with "." and "..". */
    method StartDir(n: nat, parent: nat, ghost t: Node) returns (ok: bool)
      requires Valid() && 1 <= n < nextInode && 1 <= parent && t.DirNode?
      requires D().tab[n].size == 0 && D().tab[n].zone == NO_ZONES
      modifies this`umap, this`image, this`nextZone
      ensures ok <==> old(nextZone) < nrblocks
      ensures ok ==> Valid() && nextZone == old(nextZone) + 1
      ensures ok ==> var z, p := old(nextZone), old(D().tab)[n];
        D() == Disk(old(D().tab)[n := p.(size := 32, zone := NO_ZONES[0 := z])],
                    old(D().zone)[z := Dir(DirBlock(t, 0, n, parent, 0))])
    {
      hide View, MapsAt, FreeFrom, Seen, AsDir, FreeSlot, Into, Pad, DirBlock, Added, Addable, NeedsIndirect, Entered, Enterable, OpensBlock, DirectsIn, IndirectIn;
      ghost var was := D();
      var okz, z := AllocZone();
      if !okz { return false; }
      FirstZone(D(), n, z, 32, nextZone);
      NoIndirect(D(), n, First(nrinodes), nextZone);
      var _ := AddZone(n, z, 32);
      ok := EnterDots(n, parent, z, t);
      ZoneTwice(was.zone, z, Zero, Dir(DirBlock(t, 0, n, parent, 0)));
    }

    method EnterDots(n: nat, parent: nat, z: nat, ghost t: Node) returns (ok: bool)
      requires Valid() && 1 <= n < nextInode && 1 <= parent && t.DirNode?
      requires First(nrinodes) <= z < nextZone && D().tab[n].zone == NO_ZONES[0 := z] && D().zone[z] == Zero
      modifies this`umap, this`image, this`nextZone
      ensures ok && Valid() && nextZone == old(nextZone)
      ensures D() == Disk(old(D().tab), old(D().zone)[z := Dir(DirBlock(t, 0, n, parent, 0))])
    {
      hide View, MapsAt, FreeFrom, Seen, AsDir, FreeSlot, Into, Pad, DirBlock, Entered, Enterable, OpensBlock, DirectsIn;
      ghost var was := D();
      DotsEntered(t, n, parent);
      ghost var none := AsDir(Zero);
      ghost var one := Into(none, Entry(n, Pad(DOT)));
      FirstBlock(D(), n, Entry(n, Pad(DOT)), z, nextZone, none);
      WithinBounds(D(), n, First(nrinodes), z, nextZone);
      ok := EnterDir(n, DOT, n);
      FirstBlock(D(), n, Entry(parent, Pad(DOTDOT)), z, nextZone, one);
      WithinBounds(D(), n, First(nrinodes), z, nextZone);
      ok := EnterDir(n, DOTDOT, parent);
      ZoneTwice(was.zone, z, Dir(one), Dir(DirBlock(t, 0, n, parent, 0)));
    }

    /** eat_dir() up to incr_link(n): child k gets an inode and an entry. */
    method EnterKid(ghost t: Node, ghost k: nat, n: nat, kid: Kid, ghost parent: nat, ghost z: nat) returns (ok: bool, c: nat)
      requires Eating(t, k, n, parent, z) && k < |t.kids| && kid == t.kids[k]
      modifies this
      ensures ok <==> old(nextInode) < nrinodes && DirBlocks(k + 1) <= NR_DZONE_NUM && old(nextZone) + Fresh(k) <= nrblocks
      ensures ok ==> EntryMade(t, k, n, parent, z) && c == n + KidInode(t, k) && Same(old(D()), D(), 0, n, 0, z)
    {
      hide View, MapsAt, FreeFrom, Seen, DirAt, KidsAt, DirectsIn, Enterable, Entered, OpensBlock, Subdirs, InodesUpTo, ZonesUpTo, Pad;
      ghost var nlinks := (2 + Subdirs(t, k)) % 256;
      ghost var d0 := D();
      ok, c := AllocInode(KindOf(kid.node), kid.node.perms);
      if !ok { return; }
      ghost var d1 := D();
      DirKept(d0, d1, t, k, k, n, parent, z, nlinks);
      assert Growing(d1, t, k, n, parent, z, nlinks);
      WhenEnterable(d1, t, k, n, parent, z, nlinks);
      WithinBounds(d1, n, First(nrinodes), z, nextZone);
      ok := EnterDir(n, kid.name, c);
      if !ok { return; }
      IncrSize(n, 16);
      ghost var d2 := D();
      EntryWritten(d1, d2, t, k, n, parent, z, nlinks);
      IncrLink(c);
      DirKept(d2, D(), t, k, k + 1, n, parent, z, nlinks);
    }

    /** The child's subtree is in place too. */
    ghost predicate KidMade(t: Node, k: nat, n: nat, parent: nat, z: nat)
      reads this
    {
      && Valid() && t.DirNode? && k < |t.kids| && 1 <= n && 1 <= parent <= n && First(nrinodes) <= z
      && DirAt(D(), t, k + 1, n, parent, z, (2 + Subdirs(t, k + 1)) % 256) && KidsAt(D(), t, k, n, z)
      && NodeAt(D(), t.kids[k].node, n + KidInode(t, k), n, z + KidZone(t, k))
      && nextInode == n + KidInode(t, k) + Inodes(t.kids[k].node)
      && nextZone == z + KidZone(t, k) + Zones(t.kids[k].node)
    }

    /** eat_dir() for a regular file that can be opened. */
    method EatRegular(ghost t: Node, ghost k: nat, ghost n: nat, c: nat, content: seq<bv8>, ghost parent: nat, ghost z: nat)
      returns (ok: bool)
      requires EntryMade(t, k, n, parent, z) && c == n + KidInode(t, k)
      requires t.kids[k].node.FileNode? && t.kids[k].node.content == content
      modifies this`umap, this`image, this`nextZone
      ensures ok <==> Fits(t.kids[k].node, c, z + KidZone(t, k), nrinodes, nrblocks)
      ensures ok ==> KidMade(t, k, n, parent, z) && Same(old(D()), D(), 0, c, 0, z + KidZone(t, k))
    {
      hide View, MapsAt, FreeFrom, Seen, DirAt, KidsAt, InodesUpTo, ZonesUpTo, Pad, Chunk;
      ghost var d, zk, perms, nlinks := D(), z + KidZone(t, k), t.kids[k].node.perms, (2 + Subdirs(t, k)) % 256;
      EmptyFile(d, content, perms, c, zk);
      ok := EatFile(c, content, perms, zk);
      if !ok { return; }
      DirKept(d, D(), t, k, k + 1, n, parent, z, nlinks);
    }

    /** eat_dir() for a special file. */
    method EatSpecial(ghost t: Node, ghost k: nat, ghost n: nat, c: nat, rdev: nat, size: nat, ghost parent: nat, ghost z: nat)
      returns (ok: bool)
      requires EntryMade(t, k, n, parent, z) && c == n + KidInode(t, k)
      requires var node := t.kids[k].node; node.DeviceNode? && node.rdev == rdev && node.size == size
      modifies this`umap, this`image, this`nextZone
      ensures ok <==> Fits(t.kids[k].node, c, z + KidZone(t, k), nrinodes, nrblocks)
      ensures ok ==> KidMade(t, k, n, parent, z) && Same(old(D()), D(), 0, c, 0, z + KidZone(t, k))
    {
      hide View, MapsAt, FreeFrom, Seen, DirAt, KidsAt, InodesUpTo, ZonesUpTo, Pad, Chunk, Added, Addable, NeedsIndirect, IndirectIn;
      ghost var d, nlinks := D(), (2 + Subdirs(t, k)) % 256;
      FirstZone(d, c, rdev, size, nextZone);
      NoIndirect(d, c, First(nrinodes), nextZone);
      ok := AddZone(c, rdev, size);
      DirKept(d, D(), t, k, k + 1, n, parent, z, nlinks);
    }

    /** eat_dir() for a directory. */
    method EatSubdir(ghost t: Node, ghost k: nat, n: nat, c: nat, node: Node, ghost parent: nat, ghost z: nat)
      returns (ok: bool)
      requires EntryMade(t, k, n, parent, z) && c == n + KidInode(t, k)
      requires node == t.kids[k].node && node.DirNode?
      modifies this
      ensures ok <==> Fits(node, c, z + KidZone(t, k), nrinodes, nrblocks)
      ensures ok ==> KidMade(t, k, n, parent, z) && Same(old(D()), D(), 0, n, 0, z)
      decreases t, 0, 0
    {
      hide View, MapsAt, FreeFrom, Seen, DirAt, KidsAt, ZonesUpTo, InodesUpTo, Pad, DirBlock, Same, ShapeUpTo;
      ghost var d0, zk := D(), z + KidZone(t, k);
      var okz := StartDir(c, n, node);
      if !okz { return false; }
      ghost var d1 := D();
      IncrLink(n);
      IncrLink(c);
      SubdirStarted(d0, d1, D(), t, k, n, parent, z, c, zk);
      ghost var d3 := D();
      NoKids(d3, node, c, zk);
      ok := EatDir(c, node, n, zk);
      if !ok { return; }
      SubdirDone(d0, d3, D(), t, k, n, parent, z, c, zk);
    }

    /** eat_dir() */
    method EatDir(n: nat, t: Node, ghost parent: nat, ghost z: nat) returns (ok: bool)
      requires t.DirNode? && Eating(t, 0, n, parent, z)
      modifies this
      ensures ok <==> FitsUpTo(t, |t.kids|, n, z, nrinodes, nrblocks)
      ensures ok ==> Eating(t, |t.kids|, n, parent, z) && Same(old(D()), D(), 0, n, 0, z)
      decreases t, 1, 0
    {
      hide View, MapsAt, FreeFrom, Seen, DirAt, KidsAt, ZonesUpTo, InodesUpTo, Pad, Same;
      ghost var d := D();
      SameAsItself(d, 0, n, 0, z);
      NothingYet(t, n, z, nrinodes, nrblocks);
      var k := 0;
      while k < |t.kids|
        invariant 0 <= k <= |t.kids| && Eating(t, k, n, parent, z)
        invariant FitsUpTo(t, k, n, z, nrinodes, nrblocks) && Same(d, D(), 0, n, 0, z)
      {
        ok := EatKid(t, k, n, parent, z, d);
        if !ok { return; }
        k := k + 1;
      }
      ok := true;
    }

    /** One line of the prototype. */
    method EatKid(t: Node, k: nat, n: nat, ghost parent: nat, ghost z: nat, ghost d: Disk) returns (ok: bool)
      requires Eating(t, k, n, parent, z) && k < |t.kids|
      requires FitsUpTo(t, k, n, z, nrinodes, nrblocks) && Same(d, D(), 0, n, 0, z)
      modifies this
      ensures !ok ==> !FitsUpTo(t, |t.kids|, n, z, nrinodes, nrblocks)
      ensures ok ==> Eating(t, k + 1, n, parent, z) && FitsUpTo(t, k + 1, n, z, nrinodes, nrblocks) && Same(d, D(), 0, n, 0, z)
      decreases t, 0, 1
    {
      hide View, MapsAt, FreeFrom, Seen, DirAt, Pad, Same, Shape, ShapeUpTo;
      FitsNext(t, k, n, z, nrinodes, nrblocks);
      var c;
      ghost var d0 := D();
      ok, c := EnterKid(t, k, n, t.kids[k], parent, z);
      if ok {
        ghost var d1 := D();
        match t.kids[k].node {
          case DirNode(_, _) =>
            ok := EatSubdir(t, k, n, c, t.kids[k].node, parent, z);
          case FileNode(_, content) =>
            ok := EatRegular(t, k, n, c, content, parent, z);
            if ok { SameLess(d1, D(), c, z + KidZone(t, k), n, z); }
          case DeviceNode(_, _, rdev, size) =>
            ok := EatSpecial(t, k, n, c, rdev, size, parent, z);
            if ok { SameLess(d1, D(), c, z + KidZone(t, k), n, z); }
        }
        if ok {
          SameThrough(d, d0, d1, 0, n, 0, z);
          SameThrough(d, d1, D(), 0, n, 0, z);
        }
      }
      if !ok { NeverFits(t, k, n, z, nrinodes, nrblocks); }
    }

    /** rootdir() */
    method RootDir(n: nat, ghost t: Node) returns (ok: bool)
      requires Valid() && 1 <= n < nextInode && t.DirNode? && First(nrinodes) == nextZone
      requires D().tab[n] == Inode(Directory, t.perms, 0, 0, NO_ZONES)
      modifies this`umap, this`image, this`nextZone
      ensures ok && Valid() && nextZone == old(nextZone) + 1
      ensures DirAt(D(), t, 0, n, n, old(nextZone), 2)
    {
      hide View, MapsAt, FreeFrom, Seen, DirAt, Pad, DirBlock;
      ok := StartDir(n, n, t);
      IncrLink(n);
      IncrLink(n);
      EmptyDirectory(D(), t, n, n, old(nextZone), 2);
    }
  }

  lemma NothingYet(t: Node, n: nat, z: nat, inodes: nat, blocks: nat)
    requires t.DirNode? && n + 1 <= inodes && z + ZonesUpTo(t, 0) <= blocks
    ensures FitsUpTo(t, 0, n, z, inodes, blocks)
  {
  }

  lemma NeverFits(t: Node, k: nat, n: nat, z: nat, inodes: nat, blocks: nat)
    requires t.DirNode? && k < |t.kids| && !FitsUpTo(t, k + 1, n, z, inodes, blocks)
    ensures !FitsUpTo(t, |t.kids|, n, z, inodes, blocks)
  {
    if FitsUpTo(t, |t.kids|, n, z, inodes, blocks) { FitsBefore(t, |t.kids|, k + 1, n, z, inodes, blocks); }
  }

  lemma NoKids(d: Disk, t: Node, n: nat, z: nat)
    requires t.DirNode?
    ensures KidsAt(d, t, 0, n, z) && Subdirs(t, 0) == 0 && ZonesUpTo(t, 0) == 1 && InodesUpTo(t, 0) == 0
  {
  }

  /** The disk when a subdirectory (inode c) has its first block and both link counts are up. */
  lemma SubdirStarted(d0: Disk, d1: Disk, d3: Disk, t: Node, k: nat, n: nat, parent: nat, z: nat, c: nat, zk: nat)
    requires t.DirNode? && k < |t.kids| && t.kids[k].node.DirNode? && c == n + KidInode(t, k) && zk == z + KidZone(t, k)
    requires DirAt(d0, t, k + 1, n, parent, z, (2 + Subdirs(t, k)) % 256) && KidsAt(d0, t, k, n, z)
    requires c < |d0.tab| && zk < |d0.zone| && d0.tab[c] == Inode(Directory, t.kids[k].node.perms, 1, 0, NO_ZONES)
    requires d1 == Disk(d0.tab[c := d0.tab[c].(size := 32, zone := NO_ZONES[0 := zk])],
                        d0.zone[zk := Dir(DirBlock(t.kids[k].node, 0, c, n, 0))])
    requires var p := d1.tab[n].(nlinks := (d1.tab[n].nlinks + 1) % 256);
      d3 == Disk(d1.tab[n := p][c := d1.tab[n := p][c].(nlinks := (d1.tab[n := p][c].nlinks + 1) % 256)], d1.zone)
    ensures DirAt(d3, t, k + 1, n, parent, z, (2 + Subdirs(t, k + 1)) % 256) && KidsAt(d3, t, k, n, z)
    ensures DirAt(d3, t.kids[k].node, 0, c, n, zk, 2) && Same(d0, d3, 0, n, 0, z)
  {
    hide DirBlock, EntriesAt, DirBlocks, DirZones, Pad, ZonesUpTo, InodesUpTo, KidsAt;
    var nlinks := (2 + Subdirs(t, k)) % 256;
    EmptyDirectory(d3, t.kids[k].node, c, n, zk, 2);
    DirKept(d0, d1, t, k, k + 1, n, parent, z, nlinks);
    EntriesKeptUpTo(d1, d3, t, k + 1, n, parent, z);
    KidsKept(d1, d3, t, k, n, z);
  }

  lemma EntriesKeptUpTo(d: Disk, d': Disk, t: Node, k: nat, n: nat, parent: nat, z: nat)
    requires t.DirNode? && k <= |t.kids| && EntriesAt(d, t, k, n, parent, z) && d'.zone == d.zone
    ensures EntriesAt(d', t, k, n, parent, z)
  {
    forall j | 0 <= j < DirBlocks(k) ensures OwnSame(d, d', t, k, z, j) { }
    EntriesStay(d, d', t, k, n, parent, z);
  }

  lemma SubdirDone(d0: Disk, d3: Disk, d4: Disk, t: Node, k: nat, n: nat, parent: nat, z: nat, c: nat, zk: nat)
    requires t.DirNode? && k < |t.kids| && c == n + KidInode(t, k) && zk == z + KidZone(t, k)
    requires DirAt(d3, t, k + 1, n, parent, z, (2 + Subdirs(t, k + 1)) % 256) && KidsAt(d3, t, k, n, z)
    requires Same(d0, d3, 0, n, 0, z) && Same(d3, d4, 0, c, 0, zk)
    ensures DirAt(d4, t, k + 1, n, parent, z, (2 + Subdirs(t, k + 1)) % 256) && KidsAt(d4, t, k, n, z)
    ensures Same(d0, d4, 0, n, 0, z)
  {
    hide DirAt, KidsAt, Subdirs, ZonesUpTo, InodesUpTo;
    DirKept(d3, d4, t, k, k + 1, n, parent, z, (2 + Subdirs(t, k + 1)) % 256);
    SameThrough(d0, d3, d4, 0, n, 0, z);
  }

  lemma SameLess(d: Disk, d': Disk, c: nat, zk: nat, n: nat, z: nat)
    requires Same(d, d', 0, c, 0, zk) && n <= c && z <= zk
    ensures Same(d, d', 0, n, 0, z)
  {
  }

  lemma EmptyFile(d: Disk, content: seq<bv8>, perms: nat, n: nat, z: nat)
    requires n < |d.tab| && z <= |d.zone| && d.tab[n] == Inode(Regular, perms, 1, 0, NO_ZONES)
    ensures FileAt(d, content, perms, 0, 0, n, z)
  {
    assert FileDirect(0, z) == NO_ZONES;
  }

  lemma EntryWritten(d: Disk, d': Disk, t: Node, k: nat, n: nat, parent: nat, z: nat, nlinks: nat)
    requires Growing(d, t, k, n, parent, z, nlinks) && KidsAt(d, t, k, n, z)
    requires DirectsIn(d, n, 0, |d.zone|) && Enterable(d, n, z + ZonesUpTo(t, k))
    requires d' == WithEntry(d, t, k, n, z + ZonesUpTo(t, k))
    ensures DirAt(d', t, k + 1, n, parent, z, nlinks) && KidsAt(d', t, k, n, z)
    ensures Same(d, d', 0, n, 0, z) && Same(d, d', n + 1, |d.tab|, 0, 0)
  {
    hide DirAt, KidsAt, DirectsIn, Enterable, Subdirs, InodesUpTo, ZonesUpTo, WithEntry, EntryIn, Same;
    BlockOf(k);
    var j := (k + 2) / NR_DIR_ENTRIES;
    if Fresh(k) == 0 {
      EnteredInLast(d, t, k, n, parent, z, nlinks);
    } else {
      EnteredInNew(d, t, k, n, parent, z, nlinks);
    }
    DirGrows(d, d', t, k, n, parent, z, nlinks, j, z + DirZone(t, j));
  }

  lemma ZoneTwice(s: seq<Block>, z: nat, a: Block, b: Block)
    requires z < |s|
    ensures s[z := a][z := b] == s[z := b]
  {
  }

  lemma NoIndirect(d: Disk, n: nat, lo: nat, hi: nat)
    requires n < |d.tab| && d.tab[n].zone == NO_ZONES && hi <= |d.zone|
    ensures IndirectIn(d, n, lo, hi)
  {
  }

  lemma WithinBounds(d: Disk, n: nat, lo: nat, z: nat, hi: nat)
    requires DirectsIn(d, n, z, hi) && lo <= z
    ensures DirectsIn(d, n, lo, hi)
  {
  }

  function KindOf(t: Node): Kind {
    match t
    case DirNode(_, _) => Directory
    case FileNode(_, _) => Regular
    case DeviceNode(block, _, _, _) => if block then BlockSpecial else CharSpecial
  }

  /** read() into a cleared buffer. */
  method ReadChunk(content: seq<bv8>, pos: nat, ghost m: nat) returns (buf: seq<bv8>)
    requires pos <= |content| && pos == BLOCK_SIZE * m
    ensures buf == Chunk(content, m)
  {
    buf := seq(BLOCK_SIZE, i requires i >= 0 => if pos + i < |content| then content[pos + i] else 0);
  }

  /** A finished file system: the tree from inode 1 and the first data zone on, both maps, and the rest free. */
  ghost predicate FileSystem(image: seq<Block>, inodes: nat, t: Node) {
    && Geometry(inodes, |image|) && t.DirNode? && Fits(t, ROOT_INODE, First(inodes), inodes, |image|)
    && NodeAt(View(image, inodes), t, ROOT_INODE, ROOT_INODE, First(inodes))
    && MapsAt(image, inodes, ROOT_INODE + Inodes(t), First(inodes) + Zones(t))
    && FreeFrom(View(image, inodes).tab, ROOT_INODE + Inodes(t))
  }

  /** mkfs on a device with arbitrary contents: it works exactly when the tree fits. */
  method Build(raw: seq<Block>, inodes: nat, t: Node) returns (ok: bool, image: seq<Block>)
    requires Geometry(inodes, |raw|) && t.DirNode?
    ensures ok <==> Fits(t, ROOT_INODE, First(inodes), inodes, |raw|)
    ensures ok ==> |image| == |raw| && FileSystem(image, inodes, t)
  {
    hide View, MapsAt, FreeFrom, DirAt, KidsAt, ZonesUpTo, InodesUpTo, ShapeUpTo, Pad, Same;
    var m := new Maker(raw, inodes);
    m.PutBlock(0, Zero);
    m.Super();
    var root;
    ok, root := m.AllocInode(Directory, t.perms);
    if !ok { return false, []; }
    ok := m.RootDir(root, t);
    NoKids(m.D(), t, root, First(inodes));
    ok := m.EatDir(root, t, root, First(inodes));
    image := m.image;
  }
}
