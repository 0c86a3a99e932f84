/** readfs: extracts the files and directories of a file system. */
module Readfs {
  import opened FsDisk
  import opened Options
  import opened FsTree
  import opened MkfsDisk
  import opened MkfsTree
  import opened Mkfs
  import opened Extract
  import LruCache

  // ---------- Block numbers of a file ----------

  /** Where the number of a file's block is found: in the inode, in the indirect block, or in an
      indirect block named by the double indirect one. */
  datatype Place = Direct(i: nat) | Single(i: nat) | Double(i: nat, j: nat)

  predicate IsPlace(p: Place) {
    match p
    case Direct(i) => i < NR_DZONE_NUM
    case Single(i) => i < NR_INDIRECTS
    case Double(i, j) => i < NR_INDIRECTS && j < NR_INDIRECTS
  }

  /** The place of the b-th zone of a file. */
  function PlaceOf(b: nat): Place {
    if b < NR_DZONE_NUM then Direct(b)
    else if b - NR_DZONE_NUM < NR_INDIRECTS then Single(b - NR_DZONE_NUM)
    else Double((b - NR_DZONE_NUM - NR_INDIRECTS) / NR_INDIRECTS, (b - NR_DZONE_NUM - NR_INDIRECTS) % NR_INDIRECTS)
  }

  /** The order in which a file's blocks fill these places. */
  function Rank(p: Place): nat {
    match p
    case Direct(i) => i
    case Single(i) => NR_DZONE_NUM + i
    case Double(i, j) => NR_DZONE_NUM + NR_INDIRECTS + NR_INDIRECTS * i + j
  }

  /** Every block below the maximum has a place of its own, the places are filled in order, and none is left out. */
  lemma PlacesAreInOrder(b: nat, p: Place)
    requires b < MAX_ZONES && IsPlace(p)
    ensures IsPlace(PlaceOf(b)) && Rank(PlaceOf(b)) == b
    ensures Rank(p) < MAX_ZONES && PlaceOf(Rank(p)) == p
  {
    match p
    case Direct(i) =>
    case Single(i) =>
    case Double(i, j) => Quotient(i, j);
  }

  /** s_max_size: the bytes for which a file has places. */
  lemma MaxSizeIsAllPlaces(inodes: nat, zones: nat, pos: nat)
    ensures pos < TheSuper(inodes, zones).maxSize <==> exists p :: IsPlace(p) && Rank(p) == pos / BLOCK_SIZE
  {
    if pos < TheSuper(inodes, zones).maxSize { PlacesAreInOrder(pos / BLOCK_SIZE, Direct(0)); }
    if exists p :: IsPlace(p) && Rank(p) == pos / BLOCK_SIZE {
      var p :| IsPlace(p) && Rank(p) == pos / BLOCK_SIZE;
      PlacesAreInOrder(0, p);
    }
  }

  lemma Quotient(i: nat, j: nat)
    requires j < NR_INDIRECTS
    ensures (NR_INDIRECTS * i + j) / NR_INDIRECTS == i && (NR_INDIRECTS * i + j) % NR_INDIRECTS == j
  {
  }

  /** The block number at a place. */
  function ZoneAt(dev: seq<Block>, ip: Inode, p: Place): Option<nat>
    requires IsPlace(p)
  {
    match p
    case Direct(i) => Some(ip.zone[i])
    case Single(i) =>
      var b :- Fetch(dev, ip.zone[NR_DZONE_NUM]);
      Some(AsIndirect(b)[i])
    case Double(i, j) =>
      var b :- Fetch(dev, ip.zone[NR_DZONE_NUM + 1]);
      var b2 :- Fetch(dev, AsIndirect(b)[i]);
      Some(AsIndirect(b2)[j])
  }

  /** A block of the device; there is no block 0 of a file, and none behind the end. */
  function Fetch(dev: seq<Block>, z: nat): Option<Block> {
    if z == 0 || z >= |dev| then None else Some(dev[z])
  }

  /** The b-th block of a file. */
  function Placed(dev: seq<Block>, ip: Inode, b: nat): Option<Block>
    requires b < MAX_ZONES
  {
    PlaceIsValid(b);
    var z :- ZoneAt(dev, ip, PlaceOf(b));
    Fetch(dev, z)
  }

  /** What get_fileblock() reads: the number is cut to 16 bits, and what was cut off is added to the zone found. */
  function FileBlock(dev: seq<Block>, ip: Inode, b: nat): Option<Block> {
    var zone := b % 0x10000;
    PlaceIsValid(zone);
    var z :- ZoneAt(dev, ip, PlaceOf(zone));
    Fetch(dev, z + (b - zone))
  }

  lemma PlaceIsValid(b: nat)
    requires b < MAX_ZONES
    ensures IsPlace(PlaceOf(b))
  {
  }

  /** On a device that 16 bits can address, get_fileblock() finds every block below 65536 in its place and none behind. */
  lemma FileBlockIsPlaced(dev: seq<Block>, ip: Inode, b: nat)
    requires |dev| <= 0x10000 && b < MAX_ZONES
    ensures FileBlock(dev, ip, b) == if b < 0x10000 then Placed(dev, ip, b) else None
  {
    if b >= 0x10000 { assert b - b % 0x10000 >= 0x10000; }
  }

  // ---------- The program ----------

  function SuperOf(dev: seq<Block>): Super {
    AsSuper(if SUPER_BLOCK < |dev| then dev[SUPER_BLOCK] else Zero)
  }

  /** The first b blocks of a file, cut to its size; None if one of them cannot be read. */
  function ContentsUpTo(dev: seq<Block>, ip: Inode, b: nat): Option<seq<bv8>>
    requires b <= Blocks(ip.size)
  {
    if b == 0 then Some([]) else
      var before :- ContentsUpTo(dev, ip, b - 1);
      var blk :- FileBlock(dev, ip, b - 1);
      var left := ip.size - BLOCK_SIZE * (b - 1);
      Some(before + if left > BLOCK_SIZE then AsData(blk) else AsData(blk)[..left])
  }

  /** As much of the first b blocks as comes before one that cannot be read. */
  function Readable(dev: seq<Block>, ip: Inode, b: nat): seq<bv8>
    requires b <= Blocks(ip.size)
  {
    match ContentsUpTo(dev, ip, b)
    case Some(c) => c
    case None => Readable(dev, ip, b - 1)
  }

  lemma {:induction false} NoneReadableBehind(dev: seq<Block>, ip: Inode, b: nat, c: nat)
    requires b < c <= Blocks(ip.size) && ContentsUpTo(dev, ip, b + 1) == None
    ensures ContentsUpTo(dev, ip, c) == None && Readable(dev, ip, c) == Readable(dev, ip, b)
    decreases c
  {
    hide FileBlock, AsData;
    if b + 1 < c { NoneReadableBehind(dev, ip, b, c - 1); }
  }

  class Reader {
    const dev: seq<Block>
    const inodes: LruCache.Cache
    const indirects: LruCache.Cache
    const sb: Super
    var counter: nat

    ghost predicate Valid()
      reads this, inodes, inodes.slots, indirects, indirects.slots
    {
      inodes != indirects && inodes.slots != indirects.slots && inodes.dev == indirects.dev == dev &&
      inodes.Valid(counter) && indirects.Valid(counter)
    }

    constructor (dev: seq<Block>)
      ensures Valid() && this.dev == dev && sb == SuperOf(dev)
      ensures fresh(inodes) && fresh(inodes.slots) && fresh(indirects) && fresh(indirects.slots)
    {
      this.dev := dev;
      sb := SuperOf(dev);
      counter := 0;
      inodes := new LruCache.Cache(dev);
      indirects := new LruCache.Cache(dev);
    }

    ghost function Repr(): set<object> {
      {this, inodes, inodes.slots, indirects, indirects.slots}
    }

    /** get_block() with type B_INODE */
    method GetInodeBlock(block: nat) returns (r: Option<Block>)
      requires Valid()
      modifies Repr()
      ensures Valid() && r == Fetch(dev, block)
    {
      hide LruCache.Good, LruCache.Latest, LruCache.Front;
      if block == 0 { return None; }
      ghost var was := counter;
      r, counter := inodes.GetBlock(block, counter);
      indirects.CounterMoves(was, counter);
    }

    /** get_block() with type B_INDIRECT */
    method GetIndirectBlock(block: nat) returns (r: Option<Block>)
      requires Valid()
      modifies Repr()
      ensures Valid() && r == Fetch(dev, block)
    {
      hide LruCache.Good, LruCache.Latest, LruCache.Front;
      if block == 0 { return None; }
      ghost var was := counter;
      r, counter := indirects.GetBlock(block, counter);
      inodes.CounterMoves(was, counter);
    }

    /** get_block() with type B_DATA, which has no cache */
    method GetDataBlock(block: nat) returns (r: Option<Block>)
      ensures r == Fetch(dev, block)
    {
      if block == 0 { return None; }
      r := if block < |dev| then Some(dev[block]) else None;
    }

    /** get_fileblock() */
    method GetFileBlock(ip: Inode, b: nat) returns (r: Option<Block>)
      requires Valid()
      modifies Repr()
      ensures Valid() && r == FileBlock(dev, ip, b)
    {
      hide LruCache.Good, LruCache.Latest, LruCache.Front, AsIndirect;
      var zone := b % 0x10000;
      var zoneIndex := b - zone;
      if zone < NR_DZONE_NUM {
        zone := ip.zone[zone];
        r := GetDataBlock(zone + zoneIndex);
        return;
      }
      zone := zone - NR_DZONE_NUM;
      var ind;
      if zone < NR_INDIRECTS {
        ind := ip.zone[NR_DZONE_NUM];
      } else {
        ind := ip.zone[NR_DZONE_NUM + 1];
        var b2 := GetIndirectBlock(ind);
        if b2.None? { return None; }
        zone := zone - NR_INDIRECTS;
        ind := AsIndirect(b2.value)[zone / NR_INDIRECTS];
        zone := zone % NR_INDIRECTS;
      }
      r := GetIndirectBlock(ind);
      if r.None? { return; }
      zone := AsIndirect(r.value)[zone];
      r := GetDataBlock(zone + zoneIndex);
    }

    /** get_inode() */
    method GetInode(inum: nat) returns (r: Option<Inode>)
      requires Valid() && inum >= 1
      modifies Repr()
      ensures Valid()
      ensures var b := SUPER_BLOCK + 1 + sb.imapBlocks + sb.zmapBlocks + (inum - 1) / INODES_PER_BLOCK;
        r == if b < |dev| then Some(AsInodes(dev[b])[(inum - 1) % INODES_PER_BLOCK]) else None
    {
      hide Valid, Repr, AsInodes, Fetch;
      FetchIs(dev, SUPER_BLOCK + 1 + sb.imapBlocks + sb.zmapBlocks + (inum - 1) / INODES_PER_BLOCK);
      var block := SUPER_BLOCK + 1 + sb.imapBlocks + sb.zmapBlocks;
      block := block + (inum - 1) / INODES_PER_BLOCK;
      var b := GetInodeBlock(block);
      if b.None? { return None; }
      r := Some(AsInodes(b.value)[(inum - 1) % INODES_PER_BLOCK]);
    }

    /** dump_file(): only a regular file has its blocks copied. */
    method DumpFile(ip: Inode, filename: string, here: seq<Kid>) returns (r: Haul)
      requires Valid()
      modifies Repr()
      ensures Valid()
      ensures r == match FateOf(filename, here)
        case Elsewhere => Astray
        case Refused => Here(here)
        case Made => Here(here + [Kid(filename, FileNode(ip.perms, if ip.kind == Regular then Readable(dev, ip, Blocks(ip.size)) else []))])
    {
      hide Valid, Repr, FileBlock, AsData, FateOf;
      match FateOf(filename, here) {
        case Elsewhere => return Astray;
        case Refused => return Here(here);
        case Made =>
      }
      var content := [];
      if ip.kind == Regular {
        var size: int := ip.size;
        var b := 0;
        while size > 0
          invariant Valid() && b <= Blocks(ip.size) && size == ip.size - BLOCK_SIZE * b
          invariant ContentsUpTo(dev, ip, b) == Some(content)
        {
          var bp := GetFileBlock(ip, b);
          b := b + 1;
          if bp.None? {
            NoneReadableBehind(dev, ip, b - 1, Blocks(ip.size));
            return Here(here + [Kid(filename, FileNode(ip.perms, content))]);
          }
          content := content + if size > BLOCK_SIZE then AsData(bp.value) else AsData(bp.value)[..size];
          size := size - BLOCK_SIZE;
        }
        assert b == Blocks(ip.size);
      }
      r := Here(here + [Kid(filename, FileNode(ip.perms, content))]);
    }

    /** A tree on the device, as mkfs laid it out. */
    ghost predicate Holds(t: Node, n: nat, parent: nat, z: nat, inodes: nat) {
      && First(inodes) <= |dev| <= BITS_PER_BLOCK && sb == TheSuper(inodes, |dev|)
      && First(inodes) <= z && 1 <= n <= inodes && parent >= 1 && n + Inodes(t) <= inodes + 1
      && NodeAt(View(dev, inodes), t, n, parent, z)
    }

    /** dump_dir(): without a name, into the directory that the program is in. */
    method DumpDir(ip: Inode, directory: string, here: seq<Kid>, ghost t: Node, ghost n: nat, ghost parent: nat, ghost z: nat, ghost inodes: nat)
      returns (r: Haul)
      requires Valid() && t.DirNode? && Holds(t, n, parent, z, inodes) && ip == View(dev, inodes).tab[n]
      modifies Repr()
      ensures Valid() && r == Dumped(t, directory, here)
      decreases t, 1, 0
    {
      hide Valid, View, NodeAt, Repr, Extracted, FateOf, Dumped, TheSuper;
      DirDumped(t, directory, here);
      DirInode(dev, inodes, t, n, parent, z);
      var inside := here;
      if directory != [] {
        match FateOf(directory, here) {
          case Elsewhere => return Astray;
          case Refused => return Here(here);
          case Made => inside := [];
        }
      }
      r := DumpEntries(ip, inside, t, n, parent, z, inodes);
      if directory != [] && r.Here? { r := Here(here + [Kid(directory, DirNode(ip.perms, r.kids))]); }
    }

    /** dump_dir()'s outer loop, over the blocks of the directory. */
    method DumpEntries(ip: Inode, inside: seq<Kid>, ghost t: Node, ghost n: nat, ghost parent: nat, ghost z: nat, ghost inodes: nat)
      returns (r: Haul)
      requires Valid() && t.DirNode? && Holds(t, n, parent, z, inodes) && ip == View(dev, inodes).tab[n]
      modifies Repr()
      ensures Valid() && r == Extracted(t, inside)
      decreases t, 0, 3
    {
      ghost var K := |t.kids|;
      hide Valid, View, FileBlock, AsDir, DirBlock, ExtractedKids, NodeAt, Repr, Extracted, Kept, TheSuper;
      DirInode(dev, inodes, t, n, parent, z);
      var nEntries: int := ip.size / 16;
      r := Here(inside);
      var b := 0;
      ghost var k: nat := 0;
      NoneYet(t, inside);
      while nEntries > 0
        invariant Valid() && k <= K && r == ExtractedKids(t, k, inside) && Underway(K, b, k, nEntries)
        decreases nEntries
      {
        nEntries, r, k := DumpNext(ip, b, nEntries, r, t, n, parent, z, inodes, k, inside);
        b := b + 1;
      }
      Finished(t, b, k, nEntries, inside);
    }

    /** One round of dump_dir()'s outer loop: the b-th block. */
    method DumpNext(ip: Inode, b: nat, n0: int, r0: Haul,
                    ghost t: Node, ghost n: nat, ghost parent: nat, ghost z: nat, ghost inodes: nat, ghost k0: nat, ghost inside: seq<Kid>)
      returns (nEntries: int, r: Haul, ghost k: nat)
      requires Valid() && t.DirNode? && Holds(t, n, parent, z, inodes) && ip == View(dev, inodes).tab[n]
      requires k0 <= |t.kids| && r0 == ExtractedKids(t, k0, inside) && Underway(|t.kids|, b, k0, n0) && n0 > 0
      modifies Repr()
      ensures Valid() && k <= |t.kids| && r == ExtractedKids(t, k, inside)
      ensures Underway(|t.kids|, b + 1, k, nEntries) && nEntries < n0
      decreases t, 0, 2
    {
      hide Valid, View, FileBlock, AsDir, DirBlock, ExtractedKids, NodeAt, Repr, Kept, TheSuper;
      StoredDir(dev, inodes, t, n, parent, z, b, k0, n0);
      var bp := GetFileBlock(ip, b);
      var dp := 0;
      nEntries := n0;
      if b == 0 {
        dp := 2;
        nEntries := nEntries - 2;
      }
      nEntries, r, k := DumpBlock(AsDir(bp.value), dp, nEntries, r0, t, n, parent, z, inodes, b, k0, inside);
      BlockDone(|t.kids|, b, k, nEntries);
    }

    /** The inner loop of dump_dir(), over the entries of one block. */
    method DumpBlock(dir: seq<Entry>, dp0: nat, n0: int, r0: Haul,
                     ghost t: Node, ghost n: nat, ghost parent: nat, ghost z: nat, ghost inodes: nat, ghost b: nat, ghost k0: nat, ghost inside: seq<Kid>)
      returns (nEntries: int, r: Haul, ghost k: nat)
      requires Valid() && t.DirNode? && Holds(t, n, parent, z, inodes) && dir == DirBlock(t, |t.kids|, n, parent, b)
      requires k0 <= |t.kids| && r0 == ExtractedKids(t, k0, inside)
      requires k0 + 2 == NR_DIR_ENTRIES * b + dp0 && dp0 <= NR_DIR_ENTRIES && n0 == |t.kids| - k0 - b >= 0
      modifies Repr()
      ensures Valid() && k0 <= k <= |t.kids| && r == ExtractedKids(t, k, inside)
      ensures nEntries == |t.kids| - k - b - 1 && k + 2 <= NR_DIR_ENTRIES * (b + 1)
      ensures nEntries == -1 || (nEntries >= 0 && k + 2 == NR_DIR_ENTRIES * (b + 1))
      decreases t, 0, 1
    {
      hide Valid, View, DirBlock, ExtractedKids, NodeAt, Repr, Pad, CString, DirEntry;
      r, k := r0, k0;
      var dp := dp0;
      var go := n0 > 0;
      nEntries := n0 - 1;
      while go && dp < NR_DIR_ENTRIES
        invariant Valid() && k0 <= k <= |t.kids| && r == ExtractedKids(t, k, inside)
        invariant k + 2 == NR_DIR_ENTRIES * b + dp && dp <= NR_DIR_ENTRIES
        invariant nEntries == |t.kids| - k - b - 1 >= -1 && go == (nEntries >= 0)
      {
        KidEntry(t, n, parent, b, dp, k);
        if dir[dp].inum != 0 {
          r := DumpEntry(dir[dp], r, t, k, n, parent, z, inodes, inside);
          k := k + 1;
        }
        dp := dp + 1;
        go := nEntries > 0;
        nEntries := nEntries - 1;
      }
    }

    /** One entry: the file or directory behind it, under its name. */
    method DumpEntry(entry: Entry, r0: Haul, ghost t: Node, ghost k: nat, ghost n: nat, ghost parent: nat, ghost z: nat, ghost inodes: nat, ghost inside: seq<Kid>)
      returns (r: Haul)
      requires Valid() && t.DirNode? && k < |t.kids| && Holds(t, n, parent, z, inodes)
      requires entry == Entry(n + KidInode(t, k), Pad(t.kids[k].name)) && r0 == ExtractedKids(t, k, inside)
      modifies Repr()
      ensures Valid() && r == ExtractedKids(t, k + 1, inside)
      decreases t, 0, 0
    {
      hide Valid, View, ExtractedKids, Repr, Pad, CString, NodeAt, FateOf;
      ghost var c, zk, node := n + KidInode(t, k), z + KidZone(t, k), t.kids[k].node;
      OneMoreKid(t, k, inside);
      if r0.Astray? { return Astray; }
      KidHeld(t, k, n, parent, z, inodes);
      var dip := GetInode(entry.inum);
      InodeRead(dev, inodes, c);
      KindRead(View(dev, inodes), node, c, n, zk);
      var name := CString(entry.name);
      if dip.value.kind == Directory {
        r := DumpDir(dip.value, name, r0.kids, node, c, n, zk, inodes);
      } else {
        r := DumpFile(dip.value, name, r0.kids);
        FileRead(dev, inodes, node, c, n, zk);
      }
    }

    lemma KidHeld(t: Node, k: nat, n: nat, parent: nat, z: nat, inodes: nat)
      requires t.DirNode? && k < |t.kids| && Holds(t, n, parent, z, inodes)
      ensures Holds(t.kids[k].node, n + KidInode(t, k), n, z + KidZone(t, k), inodes)
    {
      KidAt(View(dev, inodes), t, |t.kids|, n, z, k);
      KidsInOrder(t, k, |t.kids|);
    }
  }

  /** n_entries in dump_dir()'s outer loop, with b blocks and `kids` children done. */
  predicate Underway(K: nat, b: nat, kids: nat, nEntries: int) {
    if b == 0 then kids == 0 && nEntries == K + 2
    else if nEntries > 0 then kids + 2 == NR_DIR_ENTRIES * b && nEntries == K - kids - b
    else kids == Kept(K)
  }

  lemma BlockDone(K: nat, b: nat, kids: nat, nEntries: int)
    requires nEntries == K - kids - b - 1 && NR_DIR_ENTRIES * b <= kids + 2 <= NR_DIR_ENTRIES * (b + 1)
    requires nEntries == -1 || (nEntries >= 0 && kids + 2 == NR_DIR_ENTRIES * (b + 1))
    ensures Underway(K, b + 1, kids, nEntries)
  {
    if nEntries <= 0 { assert (K + 2) / 65 == K - kids; }
  }

  lemma DirDumped(t: Node, directory: string, here: seq<Kid>)
    requires t.DirNode?
    ensures directory == [] ==> Dumped(t, directory, here) == Extracted(t, here)
    ensures directory != [] && FateOf(directory, here) == Elsewhere ==> Dumped(t, directory, here) == Astray
    ensures directory != [] && FateOf(directory, here) == Refused ==> Dumped(t, directory, here) == Here(here)
    ensures directory != [] && FateOf(directory, here) == Made ==>
      Dumped(t, directory, here) == var h := Extracted(t, []); if h.Astray? then Astray else Here(here + [Kid(directory, DirNode(t.perms, h.kids))])
  {
    hide Extracted, FateOf;
  }

  lemma Finished(t: Node, b: nat, k: nat, nEntries: int, here: seq<Kid>)
    requires t.DirNode? && Underway(|t.kids|, b, k, nEntries) && nEntries <= 0 && k <= |t.kids|
    ensures Extracted(t, here) == ExtractedKids(t, k, here)
  {
  }

  lemma NoneYet(t: Node, here: seq<Kid>)
    requires t.DirNode?
    ensures ExtractedKids(t, 0, here) == Here(here)
  {
  }

  lemma OneMoreKid(t: Node, k: nat, here: seq<Kid>)
    requires t.DirNode? && k < |t.kids|
    ensures var h := ExtractedKids(t, k, here);
      ExtractedKids(t, k + 1, here) == if h.Astray? then Astray else Dumped(t.kids[k].node, CString(Pad(t.kids[k].name)), h.kids)
  {
  }

  lemma KidEntry(t: Node, n: nat, parent: nat, b: nat, i: nat, k: nat)
    requires t.DirNode? && k < |t.kids| && i < NR_DIR_ENTRIES && k + 2 == NR_DIR_ENTRIES * b + i && n >= 1
    ensures var e := DirBlock(t, |t.kids|, n, parent, b)[i]; e == Entry(n + KidInode(t, k), Pad(t.kids[k].name)) && e.inum != 0
  {
    DirBlockAt(t, |t.kids|, n, parent, b, i);
  }

  lemma DirInode(dev: seq<Block>, inodes: nat, t: Node, n: nat, parent: nat, z: nat)
    requires t.DirNode? && First(inodes) <= |dev| && NodeAt(View(dev, inodes), t, n, parent, z)
    ensures n < |View(dev, inodes).tab|
    ensures var ip := View(dev, inodes).tab[n]; ip.size == 16 * (|t.kids| + 2) && ip.perms == t.perms
  {
  }

  lemma StoredDir(dev: seq<Block>, inodes: nat, t: Node, n: nat, parent: nat, z: nat, b: nat, kids: nat, nEntries: int)
    requires t.DirNode? && First(inodes) <= |dev| <= 0x10000 && First(inodes) <= z && NodeAt(View(dev, inodes), t, n, parent, z)
    requires Underway(|t.kids|, b, kids, nEntries) && nEntries > 0
    ensures n < |View(dev, inodes).tab|
    ensures var blk := FileBlock(dev, View(dev, inodes).tab[n], b);
      blk.Some? && AsDir(blk.value) == DirBlock(t, |t.kids|, n, parent, b)
  {
    var d, K := View(dev, inodes), |t.kids|;
    hide View, AsDir, DirBlock, KidsAt, Subdirs, InodesUpTo, ZonesUpTo;
    assert b < DirBlocks(K);
    assert BlockHolds(d, t, K, n, parent, z, b);
    ViewZone(dev, inodes, z + DirZone(t, b));
    DirectBlock(dev, d.tab[n], b);
  }

  lemma InodeRead(dev: seq<Block>, inodes: nat, n: nat)
    requires First(inodes) <= |dev| && 1 <= n <= inodes
    ensures var b := SUPER_BLOCK + 1 + 1 + 1 + (n - 1) / INODES_PER_BLOCK;
      b < |dev| && AsInodes(dev[b])[(n - 1) % INODES_PER_BLOCK] == View(dev, inodes).tab[n]
  {
    ViewAt(dev, inodes, n);
  }

  lemma KindRead(d: Disk, t: Node, n: nat, parent: nat, z: nat)
    requires NodeAt(d, t, n, parent, z)
    ensures n < |d.tab| && d.tab[n].kind == KindOf(t)
  {
  }

  lemma FileRead(dev: seq<Block>, inodes: nat, t: Node, n: nat, parent: nat, z: nat)
    requires !t.DirNode? && First(inodes) <= |dev| <= 0x10000 && First(inodes) <= z && NodeAt(View(dev, inodes), t, n, parent, z)
    ensures n < |View(dev, inodes).tab|
    ensures var ip := View(dev, inodes).tab[n];
      AsFile(t) == FileNode(ip.perms, if ip.kind == Regular then Readable(dev, ip, Blocks(ip.size)) else [])
  {
    hide View, FileBlock, BlocksAt;
    if t.FileNode? {
      StoredContents(dev, inodes, t.content, t.perms, n, z, Blocks(|t.content|));
      assert t.content[..|t.content|] == t.content;
    }
  }

  lemma FetchIs(dev: seq<Block>, z: nat)
    requires z > 0
    ensures Fetch(dev, z) == if z < |dev| then Some(dev[z]) else None
  {
  }

  // ---------- Files stored by mkfs ----------

  lemma ViewZone(dev: seq<Block>, inodes: nat, z: nat)
    requires First(inodes) <= z < |dev|
    ensures View(dev, inodes).zone[z] == dev[z]
  {
  }

  lemma DirectBlock(dev: seq<Block>, ip: Inode, b: nat)
    requires b < NR_DZONE_NUM && 0 < ip.zone[b] < |dev|
    ensures FileBlock(dev, ip, b) == Some(dev[ip.zone[b]])
  {
  }

  lemma SingleBlock(dev: seq<Block>, ip: Inode, b: nat, z: nat)
    requires NR_DZONE_NUM <= b < NR_DZONE_NUM + NR_INDIRECTS && 0 < ip.zone[NR_DZONE_NUM] < |dev|
    requires AsIndirect(dev[ip.zone[NR_DZONE_NUM]])[b - NR_DZONE_NUM] == z && 0 < z < |dev|
    ensures FileBlock(dev, ip, b) == Some(dev[z])
  {
    hide AsIndirect;
  }

  lemma StoredBlock(dev: seq<Block>, inodes: nat, content: seq<bv8>, perms: nat, n: nat, z: nat, b: nat)
    requires First(inodes) <= |dev| <= 0x10000 && First(inodes) <= z && b < Blocks(|content|)
    requires FileAt(View(dev, inodes), content, perms, Blocks(|content|), |content|, n, z)
    ensures var blk := FileBlock(dev, View(dev, inodes).tab[n], b);
      blk.Some? && AsData(blk.value) == Chunk(content, b)
  {
    var d, m := View(dev, inodes), Blocks(|content|);
    var ip, at := d.tab[n], z + BlockPos(b);
    hide View, AsData, Chunk, AsIndirect, FileIndirect;
    assert ChunkAt(d, content, b, z);
    ViewZone(dev, inodes, at);
    if b < NR_DZONE_NUM {
      DirectBlock(dev, ip, b);
    } else {
      ViewZone(dev, inodes, z + NR_DZONE_NUM + 1);
      IndirectAt(m, z, b - NR_DZONE_NUM);
      SingleBlock(dev, ip, b, at);
    }
  }

  lemma IndirectAt(m: nat, z: nat, i: nat)
    requires i < NR_INDIRECTS
    ensures FileIndirect(m, z)[i] == IndirectEntry(m, z, i)
  {
  }

  lemma ChunkIsSlice(content: seq<bv8>, b: nat)
    requires BLOCK_SIZE * b < |content|
    ensures |content| - BLOCK_SIZE * b > BLOCK_SIZE ==> Chunk(content, b) == content[BLOCK_SIZE * b..BLOCK_SIZE * b + BLOCK_SIZE]
    ensures |content| - BLOCK_SIZE * b <= BLOCK_SIZE ==> Chunk(content, b)[..|content| - BLOCK_SIZE * b] == content[BLOCK_SIZE * b..]
  {
  }

  /** What eat_file() stored, dump_file() returns byte for byte. */
  lemma {:induction false} StoredContents(dev: seq<Block>, inodes: nat, content: seq<bv8>, perms: nat, n: nat, z: nat, b: nat)
    requires First(inodes) <= |dev| <= 0x10000 && First(inodes) <= z && b <= Blocks(|content|)
    requires FileAt(View(dev, inodes), content, perms, Blocks(|content|), |content|, n, z)
    ensures ContentsUpTo(dev, View(dev, inodes).tab[n], b) ==
      Some(content[..if BLOCK_SIZE * b <= |content| then BLOCK_SIZE * b else |content|])
    decreases b
  {
    hide FileBlock, Chunk, AsData, BlocksAt, View, FileDirect;
    if b > 0 {
      StoredContents(dev, inodes, content, perms, n, z, b - 1);
      StoredBlock(dev, inodes, content, perms, n, z, b - 1);
      var blk := FileBlock(dev, View(dev, inodes).tab[n], b - 1).value;
      OnePiece(content, b - 1, AsData(blk));
    }
  }

  lemma OnePiece(content: seq<bv8>, b: nat, data: seq<bv8>)
    requires BLOCK_SIZE * b < |content| && data == Chunk(content, b)
    ensures var left := |content| - BLOCK_SIZE * b;
      |data| == BLOCK_SIZE &&
      content[..BLOCK_SIZE * b] + (if left > BLOCK_SIZE then data else data[..left]) ==
        content[..if BLOCK_SIZE * (b + 1) <= |content| then BLOCK_SIZE * (b + 1) else |content|]
  {
    ChunkIsSlice(content, b);
    hide Chunk;
    var from := BLOCK_SIZE * b;
    if |content| - from > BLOCK_SIZE {
      assert content[..from] + content[from..from + BLOCK_SIZE] == content[..from + BLOCK_SIZE];
    } else {
      assert content[..from] + content[from..] == content[..|content|];
    }
  }

  // ---------- Whole file systems ----------

  /** readfs() in an empty directory, on a device that holds a file system if its super block says so. */
  method Readfs(dev: seq<Block>, ghost t: Node, ghost inodes: nat) returns (r: Option<Haul>)
    requires SuperOf(dev).magic == SUPER_MAGIC ==> FileSystem(dev, inodes, t)
    ensures r == if SuperOf(dev).magic == SUPER_MAGIC then Some(Extracted(t, [])) else None
  {
    hide LruCache.Good, LruCache.Latest, LruCache.Front, View, NodeAt, FileSystem, Reader.Holds, Extracted, AsInodes, AsSuper, FateOf;
    var reader := new Reader(dev);
    if reader.sb.magic != SUPER_MAGIC { return None; }
    RootHeld(reader, t, inodes);
    var root := reader.GetInode(1);
    var out := reader.DumpDir(root.value, [], [], t, 1, 1, First(inodes), inodes);
    r := Some(out);
  }

  lemma RootHeld(reader: Reader, t: Node, inodes: nat)
    requires reader.sb == SuperOf(reader.dev) && FileSystem(reader.dev, inodes, t)
    ensures reader.Holds(t, 1, 1, First(inodes), inodes) && t.DirNode?
    ensures First(inodes) <= |reader.dev| && |View(reader.dev, inodes).tab| > 1
    ensures var b := SUPER_BLOCK + 1 + reader.sb.imapBlocks + reader.sb.zmapBlocks + (1 - 1) / INODES_PER_BLOCK;
      b < |reader.dev| && AsInodes(reader.dev[b])[(1 - 1) % INODES_PER_BLOCK] == View(reader.dev, inodes).tab[1]
  {
    hide NodeAt, FreeFrom;
    InodeRead(reader.dev, inodes, 1);
  }

  /** mkfs, then readfs on what it built. */
  method MkfsThenReadfs(raw: seq<Block>, inodes: nat, t: Node) returns (r: Option<Haul>)
    requires Geometry(inodes, |raw|) && t.DirNode?
    ensures r == if Fits(t, ROOT_INODE, First(inodes), inodes, |raw|) then Some(Extracted(t, [])) else None
    ensures r == Some(Here(t.kids)) <==> Fits(t, ROOT_INODE, First(inodes), inodes, |raw|) && Recoverable(t)
  {
    hide View, NodeAt, Extracted, FreeFrom, Fits, Recoverable;
    RecoveredExactly(t);
    var ok, image := Build(raw, inodes, t);
    if !ok { return None; }
    r := Readfs(image, t, inodes);
  }

  // ---------- Sixty-three files ----------

  /** A directory of empty files with names of one character. */
  function Crowd(n: nat): (t: Node)
    requires n <= 63
    ensures t.DirNode? && |t.kids| == n
  {
    DirNode(0, seq(n, i requires 0 <= i < n => Kid([(64 + i) as char], FileNode(0, []))))
  }

  lemma {:induction false} CrowdFits(n: nat, k: nat)
    requires k <= n <= 63
    ensures ShapeUpTo(Crowd(n), k) && InodesUpTo(Crowd(n), k) == k && ZonesUpTo(Crowd(n), k) <= 1 + k
    decreases k
  {
    if k > 0 { CrowdFits(n, k - 1); }
  }

  /** A tree of 63 files that fits is built, and readfs gives back the first 62 of them. */
  method SixtyThirdEntryIsLost(raw: seq<Block>) returns (r: Option<Haul>)
    requires |raw| == 360
    ensures r == Some(Here(Crowd(63).kids[..62]))
  {
    CrowdHasRoom(|raw|);
    CrowdIsCut();
    hide Extracted, Crowd, Fits, Recoverable;
    r := MkfsThenReadfs(raw, 100, Crowd(63));
  }

  lemma CrowdIsCut()
    ensures Extracted(Crowd(63), []) == Here(Crowd(63).kids[..62])
  {
    assert Tidy(Crowd(63).kids);
    assert forall i :: 0 <= i < 62 ==> Recoverable(Crowd(63).kids[i].node);
    hide Crowd, Tidy, Recoverable;
    KidsCome(Crowd(63), 62);
    OneLost(Crowd(63));
  }

  lemma OneLost(t: Node)
    requires t.DirNode? && |t.kids| == 63
    ensures Extracted(t, []) == ExtractedKids(t, 62, [])
  {
    hide ExtractedKids;
  }

  lemma CrowdHasRoom(blocks: nat)
    requires blocks == 360
    ensures Fits(Crowd(63), ROOT_INODE, First(100), 100, blocks)
  {
    CrowdFits(63, 63);
    hide ShapeUpTo, ZonesUpTo, InodesUpTo;
  }

  // ---------- Two files of one name ----------

  function Twins(): (t: Node)
    ensures t.DirNode?
  {
    DirNode(0, [Kid("a", FileNode(0, [1])), Kid("a", FileNode(0, [2]))])
  }

  /** mkfs builds a directory with two files of one name, and readfs gives back the first of them. */
  method SecondTwinIsLost(raw: seq<Block>, inodes: nat) returns (r: Option<Haul>)
    requires Geometry(inodes, |raw|) && inodes >= 4 && |raw| >= First(inodes) + 4
    ensures r == Some(Here([Kid("a", FileNode(0, [1]))]))
  {
    TwinsFit(inodes, |raw|);
    OneTwinComes();
    hide Extracted, Twins, Fits, Recoverable;
    r := MkfsThenReadfs(raw, inodes, Twins());
  }

  lemma TwinsFit(inodes: nat, blocks: nat)
    requires inodes >= 4 && blocks >= First(inodes) + 4
    ensures Fits(Twins(), ROOT_INODE, First(inodes), inodes, blocks)
  {
    assert ShapeUpTo(Twins(), 1) && InodesUpTo(Twins(), 1) == 1 && ZonesUpTo(Twins(), 1) == 2;
    assert ShapeUpTo(Twins(), 2) && InodesUpTo(Twins(), 2) == 2 && ZonesUpTo(Twins(), 2) == 3;
  }

  lemma OneTwinComes()
    ensures Extracted(Twins(), []) == Here([Kid("a", FileNode(0, [1]))])
  {
    var here := [Kid("a", FileNode(0, [1]))];
    NameSurvives("a");
    MadeIsProper("a", []);
    assert FateOf("a", here) == Refused by { assert here[0].name == "a"; }
    hide Pad, CString, FateOf;
    assert ExtractedKids(Twins(), 0, []) == Here([]);
    assert ExtractedKids(Twins(), 1, []) == Here(here);
    assert ExtractedKids(Twins(), 2, []) == Here(here);
  }
}
