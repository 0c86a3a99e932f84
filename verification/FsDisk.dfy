/** The on-disk format that mkfs, fsck and readfs share: blocks, inodes, directory entries and
    bit maps. A block carries its type; a block of zeros can be read as any type. */
module FsDisk {
  const BLOCK_SIZE := 1024
  const INODES_PER_BLOCK := 32
  const NR_DIR_ENTRIES := 64
  const NR_INDIRECTS := 512
  const NR_DZONE_NUM := 7
  const NR_ZONE_NUMS := 9
  const NAME_MAX := 14
  const BITS_PER_BLOCK := 8192
  const SUPER_MAGIC := 0x137F
  const ROOT_INODE := 1
  const MAX_ZONES := 7 + 512 + 512 * 512

  const SUPER_BLOCK := 1
  const INODE_MAP := 2
  const ZONE_MAP := 3
  const INODE_OFFSET := 4

  datatype Kind = NotAllocated | Regular | Directory | BlockSpecial | CharSpecial | NamedPipe

  type ZoneList = z: seq<nat> | |z| == NR_ZONE_NUMS witness [0, 0, 0, 0, 0, 0, 0, 0, 0]

  const NO_ZONES: ZoneList := [0, 0, 0, 0, 0, 0, 0, 0, 0]

  datatype Inode = Inode(kind: Kind, perms: nat, nlinks: nat, size: nat, zone: ZoneList)

  const NO_INODE := Inode(NotAllocated, 0, 0, 0, NO_ZONES)

  /** d_name: NAME_MAX characters, shorter names padded with NUL. */
  type Name = s: string | |s| == NAME_MAX witness
    ['\0', '\0', '\0', '\0', '\0', '\0', '\0', '\0', '\0', '\0', '\0', '\0', '\0', '\0']

  datatype Entry = Entry(inum: nat, name: Name)

  const NO_NAME: Name := ['\0', '\0', '\0', '\0', '\0', '\0', '\0', '\0', '\0', '\0', '\0', '\0', '\0', '\0']

  datatype Super = Super(ninodes: nat, nzones: nat, imapBlocks: nat, zmapBlocks: nat, firstdatazone: nat,
                         logZoneSize: nat, maxSize: nat, magic: nat)

  datatype Block =
    | Zero
    | SuperBlock(sb: Super)
    | BitMap(bits: seq<bool>)
    | InodeTable(inodes: seq<Inode>)
    | Dir(entries: seq<Entry>)
    | Indirect(zones: seq<nat>)
    | Data(bytes: seq<bv8>)

  // ---------- Reading a block as one of its types ----------

  function AsBits(b: Block): (r: seq<bool>)
    ensures |r| == BITS_PER_BLOCK
  {
    if b.BitMap? && |b.bits| == BITS_PER_BLOCK then b.bits else seq(BITS_PER_BLOCK, _ => false)
  }

  function AsInodes(b: Block): (r: seq<Inode>)
    ensures |r| == INODES_PER_BLOCK
  {
    if b.InodeTable? && |b.inodes| == INODES_PER_BLOCK then b.inodes else seq(INODES_PER_BLOCK, _ => NO_INODE)
  }

  function AsDir(b: Block): (r: seq<Entry>)
    ensures |r| == NR_DIR_ENTRIES
  {
    if b.Dir? && |b.entries| == NR_DIR_ENTRIES then b.entries else seq(NR_DIR_ENTRIES, _ => Entry(0, NO_NAME))
  }

  function AsIndirect(b: Block): (r: seq<nat>)
    ensures |r| == NR_INDIRECTS
  {
    if b.Indirect? && |b.zones| == NR_INDIRECTS then b.zones else seq(NR_INDIRECTS, _ => 0)
  }

  function AsData(b: Block): (r: seq<bv8>)
    ensures |r| == BLOCK_SIZE
  {
    if b.Data? && |b.bytes| == BLOCK_SIZE then b.bytes else seq(BLOCK_SIZE, _ => 0)
  }

  function AsSuper(b: Block): Super {
    if b.SuperBlock? then b.sb else Super(0, 0, 0, 0, 0, 0, 0, 0)
  }

  // ---------- Bit maps ----------

  /** The map in which the first `used` of `len` bits are taken, and everything behind them. */
  function Taken(used: nat, len: nat): (r: seq<bool>)
    ensures |r| == BITS_PER_BLOCK
  {
    seq(BITS_PER_BLOCK, k => k < used || k >= len)
  }

  lemma TakeNext(used: nat, len: nat)
    requires used < len <= BITS_PER_BLOCK
    ensures !Taken(used, len)[used]
    ensures Taken(used, len)[used := true] == Taken(used + 1, len)
  {
  }

  /** Two bits set out of order. */
  lemma TakeTwo(used: nat, len: nat)
    requires used + 1 < len <= BITS_PER_BLOCK
    ensures !Taken(used, len)[used + 1]
    ensures !Taken(used, len)[used + 1 := true][used]
    ensures Taken(used, len)[used + 1 := true][used := true] == Taken(used + 2, len)
  {
  }
}
