/** A device on which one file has two names: fsck has nothing to say about it. */
module FsckHardLink {
  import opened FsDisk
  import opened FsckState
  import opened FsckTrace
  import opened FsckDirs
  import opened FsckExact
  import opened FsckSound
  import opened FsckRecord
  import opened Fsck

  const SB := Super(2, 7, 1, 1, 5, 0, MAX_ZONES * BLOCK_SIZE, SUPER_MAGIC)

  function Named(a: char, b: char): Name {
    [a, b, '\0', '\0', '\0', '\0', '\0', '\0', '\0', '\0', '\0', '\0', '\0', '\0']
  }

  const ROOT := Inode(Directory, 0, 2, 64, [5, 0, 0, 0, 0, 0, 0, 0, 0])

  /** A file of five bytes, with two links. */
  const FILE := Inode(Regular, 0, 2, 5, [6, 0, 0, 0, 0, 0, 0, 0, 0])

  function InodeBlock(): seq<Inode> { [ROOT, FILE] + seq(INODES_PER_BLOCK - 2, _ => NO_INODE) }

  /** The root directory, in which "a" and "b" both name inode 2. */
  function RootEntries(): seq<Entry> {
    [Entry(1, Named('.', '\0')), Entry(1, Named('.', '.')), Entry(2, Named('a', '\0')), Entry(2, Named('b', '\0'))]
    + seq(NR_DIR_ENTRIES - 4, _ => Entry(0, NO_NAME))
  }

  function Device(): seq<Block> {
    [Zero, SuperBlock(SB), BitMap(Taken(3, 3)), BitMap(Taken(3, 3)), InodeTable(InodeBlock()), Dir(RootEntries()), Data(seq(BLOCK_SIZE, _ => 0))]
  }

  function Links(): seq<Link> {
    [Link(5, 0, 1, false, 1, 0), Link(5, 1, 1, false, 1, 0), Link(5, 2, 2, true, 1, 0), Link(5, 3, 2, true, 1, 0)]
  }

  const REFS := [Ref(1, 5, 0, 0), Ref(2, 6, 0, 0)]

  function Record(): Trace { Trace([1, 2], REFS, Links()) }

  // ---------- What is on the device ----------

  lemma Blocks()
    ensures |Device()| == 7 && AsSuper(Device()[SUPER_BLOCK]) == SB
    ensures AsBits(Device()[2]) == Taken(3, 3) && AsBits(Device()[3]) == Taken(3, 3)
    ensures AsInodes(Device()[4]) == InodeBlock() && AsDir(Device()[5]) == RootEntries()
  {
    hide Taken;
  }

  lemma Inodes()
    ensures InodeOn(Device(), SB, 1) == ROOT && InodeOn(Device(), SB, 2) == FILE
  {
    Blocks();
    hide Device;
  }

  lemma Entries(j: nat)
    requires j < NR_DIR_ENTRIES
    ensures |Device()| == 7 && (j < 4 ==> j < |Links()|)
    ensures var e := AsDir(Device()[5])[j];
      && (j == 0 ==> e.inum == 1 && IsDot(e.name)) && (j == 1 ==> e.inum == 1 && !IsDot(e.name) && IsDotDot(e.name))
      && (2 <= j < 4 ==> e.inum == 2 && IsPlain(e) && e.name[0] != '\0' && !HasSlash(e.name))
      && (j < 4 ==> Links()[j] == Link(5, j, e.inum, IsPlain(e), 1, 0))
  {
    Blocks();
    hide Device;
    if 2 <= j < 4 {
      var e := RootEntries()[j];
      assert e.name[1..][0] == '\0' && HasSlash(e.name) == (e.name[0] == '/' || HasSlash(e.name[1..]));
    }
  }

  // ---------- The record ----------

  lemma RefsStand(k: nat)
    requires k < 2
    ensures TrueRef(Device(), SB, Record().met, REFS[k]) && TightRef(Device(), SB, REFS[k])
  {
    Inodes();
    hide Device, InodeOn, Links;
    var ip := if k == 0 then ROOT else FILE;
    assert ip.zone[..NR_DZONE_NUM][0] == REFS[k].zno;
    NoneBefore(Device(), ip.size, Directs(ip), 0, 0);
    assert DirectAt(Device(), ip, REFS[k].zno, 0, 0);
  }

  lemma LinksStand(k: nat)
    requires k < 4
    ensures |Links()| == 4 && TrueLink(Device(), SB, Record(), Links()[k]) && TightLink(Device(), SB, Links()[k])
  {
    Inodes();
    Entries(k);
    hide Device, InodeOn, IsPlain, IsDot, IsDotDot, HasSlash;
    assert Record().refs[0] == Ref(1, 5, 0, 0) && Record().met[0] == 1;
  }

  /** A file of at most one block is covered with its first zone. */
  lemma SmallCovered(dev: seq<Block>, sb: Super, tr: Trace, ino: nat, ip: Inode)
    requires 0 < ip.size <= BLOCK_SIZE && ip.zone[0] != 0 && ZoneCovered(dev, sb, tr, ino, ip, ip.zone[0], 0, 0)
    ensures FileCovered(dev, sb, tr, ino, ip)
  {
    var direct, single, double := Directs(ip), [ip.zone[NR_DZONE_NUM]], [ip.zone[NR_DZONE_NUM + 1]];
    NoneCovered(dev, sb, tr, ino, ip, direct, 0, 0);
    assert Extends(tr, tr);
    OneCovered(dev, sb, tr, tr, ino, ip, direct, 0, 0, 0);
    hide Covered, ZoneCovered, PosAfter;
    RestCovered(dev, sb, tr, ino, ip, direct, 1, NR_DZONE_NUM, 0, 0);
    var p := SinglePos(dev, ip);
    NoneCovered(dev, sb, tr, ino, ip, single, 1, p);
    RestCovered(dev, sb, tr, ino, ip, single, 0, 1, 1, p);
    NoneCovered(dev, sb, tr, ino, ip, double, 2, p);
    RestCovered(dev, sb, tr, ino, ip, double, 0, 1, 2, p);
  }

  lemma RootSlots()
    ensures SlotsDone(Device(), SB, Record(), 1, ROOT.size, 5, 0, 0, NR_DIR_ENTRIES)
  {
    forall j | 0 <= j < NR_DIR_ENTRIES ensures SlotDone(Device(), SB, Record(), 1, ROOT.size, 5, 0, j) { RootSlot(j); }
    hide SlotDone;
  }

  lemma RootSlot(j: nat)
    requires j < NR_DIR_ENTRIES
    ensures SlotDone(Device(), SB, Record(), 1, ROOT.size, 5, 0, j)
  {
    hide Device, IsDot, IsDotDot, HasSlash, AsDir, Links;
    Entries(j);
    if j < 4 {
      assert Links()[j] in Record().links;
      assert Record().met[1] == 2;
    }
  }

  lemma InodesComplete()
    ensures Complete(Device(), SB, Record(), 1) && Complete(Device(), SB, Record(), 2)
  {
    Inodes();
    Blocks();
    RootSlots();
    assert REFS[0] in Record().refs && REFS[1] in Record().refs;
    hide Device, InodeOn, SlotsDone, FileCovered;
    SmallCovered(Device(), SB, Record(), 1, ROOT);
    SmallCovered(Device(), SB, Record(), 2, FILE);
  }

  lemma TwoLinksEach(i: nat)
    ensures References(Links(), i) == if i == 1 || i == 2 then 2 else 0
  {
    var l := Links();
    hide References;
    assert References([], i) == 0 by { NoReferences(i); }
    OneReference([], l[0], i);
    assert l[..1] == [] + [l[0]] && l[..2] == l[..1] + [l[1]] && l[..3] == l[..2] + [l[2]] && l == l[..3] + [l[3]];
    OneReference(l[..1], l[1], i);
    OneReference(l[..2], l[2], i);
    OneReference(l[..3], l[3], i);
  }

  lemma NoReferences(i: nat)
    ensures References([], i) == 0
  {
  }

  lemma AllThere()
    ensures AllTrue(Device(), SB, Record()) && Tight(Device(), SB, Record())
  {
    hide TrueRef, TightRef, TrueLink, TightLink, Device;
    forall k | 0 <= k < |Record().refs| ensures TrueRef(Device(), SB, Record().met, Record().refs[k]) && TightRef(Device(), SB, Record().refs[k]) { RefsStand(k); }
    forall k | 0 <= k < |Record().links| ensures TrueLink(Device(), SB, Record(), Record().links[k]) && TightLink(Device(), SB, Record().links[k]) { LinksStand(k); }
  }

  lemma EachOnce()
    ensures AllNamed(Record()) && AllOnce(SB, Record()) && EnteredOnce(Device(), SB, Record().met, Record().links, 4)
  {
    Inodes();
    hide Device, InodeOn;
    var tr := Record();
    assert tr.links[2].plain && tr.links[2].target == 2 && tr.links[2].dir == 1 && tr.met[..1][0] == 1;
    assert NamedBefore(tr, 0) && NamedBefore(tr, 1);
    assert tr.met[0] == 1 && tr.met[1] == 2;
  }

  lemma Maps()
    ensures MapsFit(Device(), SB) && MapsRight(Device(), SB, Record())
  {
    Blocks();
    hide Device, InodeOn, AsBits;
    var tr := Record();
    assert tr.met[0] == 1 && tr.met[1] == 2 && tr.refs[0].zno == 5 && tr.refs[1].zno == 6;
    assert DiskBit(Device(), 2, 1) && DiskBit(Device(), 2, 2) && DiskBit(Device(), 3, 1) && DiskBit(Device(), 3, 2);
    forall z | SB.firstdatazone <= z < SB.nzones ensures ZoneMet(tr, z) && ZoneMarked(Device(), SB, z) {
      assert z == tr.refs[z - 5].zno;
    }
  }

  lemma LinkCounts()
    ensures LinksRight(Device(), SB, Record())
  {
    hide Device, Links, InodeOn, References;
    Inodes();
    assert Record().met[0] == 1 && Record().met[1] == 2;
    forall i: nat | 1 <= i <= SB.ninodes ensures References(Record().links, i) == if i in Record().met then InodeOn(Device(), SB, i).nlinks else 0 {
      TwoLinksEach(i);
    }
  }

  /** The record of the device: everything is in its place. */
  lemma DeviceIsConsistent()
    ensures Guide(Device(), SB, Record())
  {
    hide Device, AllTrue, AllNamed, AllOnce, EnteredOnce, Tight, Complete, MapsFit, MapsRight, LinksRight, DotsIn, InodeOn;
    AllThere();
    EachOnce();
    InodesComplete();
    Maps();
    LinkCounts();
    assert Record().met[0] == 1;
    Inodes();
    RootDots();
  }

  lemma RootDots()
    ensures DotsIn(Device(), ROOT)
  {
    Blocks();
    Entries(0);
    Entries(1);
    hide Device, AsDir, IsDot, IsDotDot;
  }

  /** fsck finds nothing wrong with a file that has two names. */
  method TwoNamesAreClean() returns (clean: bool)
    ensures clean
  {
    hide Guide, Device, Record;
    Blocks();
    DeviceIsConsistent();
    clean := FsckAny(Device());
  }
}
