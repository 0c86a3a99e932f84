/** What fsck's walk meets on any device: inodes, zones and entries, and what the maps and counts say about them. */
module FsckTrace {
  import opened FsDisk
  import opened FsckState

  /** A zone found in one of an inode's lists, at an offset of the file; level 0 is the contents, 1 and 2 are indirect blocks. */
  datatype Ref = Ref(ino: nat, zno: nat, level: nat, pos: nat)

  /** An entry that has been counted: its place, what it names, whether by a name other than "." and "..", and the directory
      it is in, with the offset of the zone. */
  datatype Link = Link(zno: nat, slot: nat, target: nat, plain: bool, dir: nat, zpos: nat)

  /** The inodes, zones and entries in the order in which the walk has met them. */
  datatype Trace = Trace(met: seq<nat>, refs: seq<Ref>, links: seq<Link>)

  const NO_TRACE := Trace([], [], [])

  ghost predicate Extends(a: Trace, b: Trace) { a.met <= b.met && a.refs <= b.refs && a.links <= b.links }

  function InodeOn(dev: seq<Block>, sb: Super, ino: nat): Inode
    requires ino >= 1
  {
    var b := SUPER_BLOCK + 1 + sb.imapBlocks + sb.zmapBlocks + (ino - 1) / INODES_PER_BLOCK;
    if b < |dev| then AsInodes(dev[b])[(ino - 1) % INODES_PER_BLOCK] else NO_INODE
  }

  /** jump(): the bytes a missing zone stands for. */
  function Jump(level: nat): nat {
    if level == 0 then BLOCK_SIZE else NR_INDIRECTS * Jump(level - 1)
  }

  // ---------- Nothing is met that is not there ----------

  /** The inode's lists hold zone z at this level. */
  ghost predicate PointedAt(dev: seq<Block>, ip: Inode, z: nat, level: nat)
    decreases 2 - level, 0
  {
    || (level == 0 && z in ip.zone[..NR_DZONE_NUM])
    || (level == 1 && z == ip.zone[NR_DZONE_NUM])
    || (level == 2 && z == ip.zone[NR_DZONE_NUM + 1])
    || (level < 2 && exists w: nat :: PointedFrom(dev, ip, w, z, level))
  }

  ghost predicate PointedFrom(dev: seq<Block>, ip: Inode, w: nat, z: nat, level: nat)
    requires level < 2
    decreases 2 - level - 1, 1
  {
    w < |dev| && z in AsIndirect(dev[w]) && PointedAt(dev, ip, w, level + 1)
  }

  /** A list of zones of one level of an inode. */
  ghost predicate ListOf(dev: seq<Block>, ip: Inode, zlist: seq<nat>, level: nat) {
    forall i :: 0 <= i < |zlist| ==> PointedAt(dev, ip, zlist[i], level)
  }

  lemma OwnLists(dev: seq<Block>, ip: Inode)
    ensures ListOf(dev, ip, ip.zone[..NR_DZONE_NUM], 0)
    ensures ListOf(dev, ip, [ip.zone[NR_DZONE_NUM]], 1) && ListOf(dev, ip, [ip.zone[NR_DZONE_NUM + 1]], 2)
  {
  }

  lemma ListBelow(dev: seq<Block>, ip: Inode, w: nat, level: nat, from: nat, to: nat)
    requires 1 <= level <= 2 && w < |dev| && PointedAt(dev, ip, w, level) && from <= to <= NR_INDIRECTS
    ensures ListOf(dev, ip, AsIndirect(dev[w])[from..to], level - 1)
  {
    hide AsIndirect;
    forall i | 0 <= i < to - from ensures PointedAt(dev, ip, AsIndirect(dev[w])[from..to][i], level - 1) {
      assert PointedFrom(dev, ip, w, AsIndirect(dev[w])[from + i], level - 1);
    }
  }

  /** A reference is one of an inode that has been met. */
  ghost predicate TrueRef(dev: seq<Block>, sb: Super, met: seq<nat>, r: Ref) {
    r.ino in met && r.ino >= 1 && r.level <= 2 && PointedAt(dev, InodeOn(dev, sb, r.ino), r.zno, r.level)
  }

  /** A link is an entry in a zone of a directory that has been met. */
  ghost predicate TrueLink(dev: seq<Block>, sb: Super, tr: Trace, l: Link) {
    && l.dir in tr.met && l.dir >= 1 && InodeOn(dev, sb, l.dir).kind == Directory
    && l.zno < |dev| && l.slot < NR_DIR_ENTRIES && Ref(l.dir, l.zno, 0, l.zpos) in tr.refs
    && AsDir(dev[l.zno])[l.slot].inum == l.target != 0 && l.plain == IsPlain(AsDir(dev[l.zno])[l.slot])
  }

  predicate IsPlain(e: Entry) { !IsDot(e.name) && !IsDotDot(e.name) }

  ghost predicate AllTrue(dev: seq<Block>, sb: Super, tr: Trace) {
    && (forall i :: 0 <= i < |tr.refs| ==> TrueRef(dev, sb, tr.met, tr.refs[i]))
    && forall i :: 0 <= i < |tr.links| ==> TrueLink(dev, sb, tr, tr.links[i])
  }

  /** Each inode but the root is named by an ordinary entry of a directory met before it. */
  ghost predicate NamedBefore(tr: Trace, k: nat)
    requires k < |tr.met|
  {
    tr.met[k] == ROOT_INODE || exists i :: 0 <= i < |tr.links| && tr.links[i].plain && tr.links[i].target == tr.met[k] && tr.links[i].dir in tr.met[..k]
  }

  ghost predicate AllNamed(tr: Trace) { forall k :: 0 <= k < |tr.met| ==> NamedBefore(tr, k) }

  // ---------- Nothing is met twice ----------

  ghost predicate AllOnce(sb: Super, tr: Trace) {
    && (forall i, j :: 0 <= i < j < |tr.met| ==> tr.met[i] != tr.met[j])
    && (forall i :: 0 <= i < |tr.met| ==> 1 <= tr.met[i] <= sb.ninodes)
    && (forall i, j :: 0 <= i < j < |tr.refs| ==> tr.refs[i].zno != tr.refs[j].zno)
    && (forall i :: 0 <= i < |tr.refs| ==> sb.firstdatazone <= tr.refs[i].zno < sb.nzones)
    && (forall i, j :: 0 <= i < j < |tr.links| ==> tr.links[i].zno != tr.links[j].zno || tr.links[i].slot != tr.links[j].slot)
  }

  // ---------- What the maps and counts say ----------

  ghost predicate ZoneMet(tr: Trace, z: int) { exists i :: 0 <= i < |tr.refs| && tr.refs[i].zno == z }

  ghost predicate MapsTell(sb: Super, tr: Trace, inodeMap: seq<bool>, zoneMap: seq<bool>) {
    && (forall k :: 0 <= k < |inodeMap| ==> (inodeMap[k] <==> k == 0 || k > sb.ninodes || k in tr.met))
    && forall k :: 0 <= k < |zoneMap| ==> (zoneMap[k] <==> ZoneBit(sb, tr, k))
  }

  /** Should bit k of the zone map be set? */
  ghost predicate ZoneBit(sb: Super, tr: Trace, k: int) {
    k == 0 || k > sb.nzones - sb.firstdatazone || ZoneMet(tr, k + sb.firstdatazone - 1)
  }

  /** How many of the links name inode i. */
  function References(links: seq<Link>, i: nat): nat {
    if links == [] then 0 else References(links[..|links|-1], i) + if links[|links|-1].target == i then 1 else 0
  }

  /** The links that the inode itself speaks of, as far as fsck believes it. */
  function Claimed(ip: Inode): nat { if ip.nlinks > LINK_MAX then LINK_MAX else ip.nlinks }

  /** The references to inode i that its own link count does not speak of. */
  function Balance(dev: seq<Block>, sb: Super, tr: Trace, i: nat): int
    requires i >= 1
  {
    References(tr.links, i) - if i in tr.met then Claimed(InodeOn(dev, sb, i)) else 0
  }

  ghost predicate CountsTell(dev: seq<Block>, sb: Super, tr: Trace, count: seq<nat>) {
    forall i :: 1 <= i < |count| ==> count[i] == Balance(dev, sb, tr, i) % 256
  }

  /** No inode has been named so often that its count, an unsigned byte, would come round again. */
  ghost predicate FewLinks(dev: seq<Block>, sb: Super, tr: Trace) {
    forall i: nat :: i >= 1 ==> Balance(dev, sb, tr, i) <= LINK_MAX
  }

  /** The trace is that of entries and zones that are there, each met once, and the maps and counts are those of the trace. */
  ghost predicate Honest(dev: seq<Block>, sb: Super, tr: Trace, inodeMap: seq<bool>, zoneMap: seq<bool>, count: seq<nat>) {
    AllTrue(dev, sb, tr) && AllNamed(tr) && AllOnce(sb, tr) && MapsTell(sb, tr, inodeMap, zoneMap) && CountsTell(dev, sb, tr, count)
  }

  lemma NothingMet(dev: seq<Block>, sb: Super, inodeMap: seq<bool>, zoneMap: seq<bool>, count: seq<nat>)
    requires forall k :: 0 <= k < |inodeMap| ==> (inodeMap[k] <==> k == 0 || k > sb.ninodes)
    requires forall k :: 0 <= k < |zoneMap| ==> (zoneMap[k] <==> k == 0 || k > sb.nzones - sb.firstdatazone)
    requires forall k :: 0 <= k < |count| ==> count[k] == 0
    ensures Honest(dev, sb, NO_TRACE, inodeMap, zoneMap, count)
  {
  }

  // ---------- One more of each ----------

  lemma TrueStill(dev: seq<Block>, sb: Super, tr: Trace, tr': Trace, l: Link)
    requires Extends(tr, tr') && TrueLink(dev, sb, tr, l)
    ensures TrueLink(dev, sb, tr', l)
  {
    hide InodeOn, AsDir;
  }

  lemma NamedStill(tr: Trace, tr': Trace, k: nat)
    requires Extends(tr, tr') && k < |tr.met| && NamedBefore(tr, k)
    ensures NamedBefore(tr', k)
  {
    assert tr'.met[..k] == tr.met[..k];
  }

  /** markzone() */
  lemma OneRef(dev: seq<Block>, sb: Super, tr: Trace, inodeMap: seq<bool>, zoneMap: seq<bool>, count: seq<nat>, r: Ref)
    requires Honest(dev, sb, tr, inodeMap, zoneMap, count) && TrueRef(dev, sb, tr.met, r)
    requires sb.firstdatazone <= r.zno < sb.nzones && r.zno - sb.firstdatazone + 1 < |zoneMap| && !zoneMap[r.zno - sb.firstdatazone + 1]
    ensures Honest(dev, sb, tr.(refs := tr.refs + [r]), inodeMap, zoneMap[r.zno - sb.firstdatazone + 1 := true], count)
    ensures SlotsBelow(tr.(refs := tr.refs + [r]), r.zno, 0)
  {
    hide TrueRef, TrueLink, NamedBefore, References, Claimed, InodeOn;
    var tr' := tr.(refs := tr.refs + [r]);
    NotMet(tr, r.zno, sb, zoneMap);
    forall i | 0 <= i < |tr.links| ensures TrueLink(dev, sb, tr', tr.links[i]) && tr.links[i].zno != r.zno {
      TrueStill(dev, sb, tr, tr', tr.links[i]);
      LinkIsInRef(dev, sb, tr, tr.links[i]);
    }
    forall k | 0 <= k < |tr.met| ensures NamedBefore(tr', k) { NamedStill(tr, tr', k); }
    MapGrows(sb, tr, inodeMap, zoneMap, r);
  }

  lemma NotMet(tr: Trace, z: nat, sb: Super, zoneMap: seq<bool>)
    requires sb.firstdatazone <= z && z - sb.firstdatazone + 1 < |zoneMap| && !zoneMap[z - sb.firstdatazone + 1]
    requires forall k :: 0 <= k < |zoneMap| ==> (zoneMap[k] <==> ZoneBit(sb, tr, k))
    ensures forall i :: 0 <= i < |tr.refs| ==> tr.refs[i].zno != z
  {
    assert !ZoneBit(sb, tr, z - sb.firstdatazone + 1);
    assert !ZoneMet(tr, z);
  }

  lemma LinkIsInRef(dev: seq<Block>, sb: Super, tr: Trace, l: Link)
    requires TrueLink(dev, sb, tr, l)
    ensures exists i :: 0 <= i < |tr.refs| && tr.refs[i].zno == l.zno
  {
    hide InodeOn, AsDir;
    var i :| 0 <= i < |tr.refs| && tr.refs[i] == Ref(l.dir, l.zno, 0, l.zpos);
  }

  lemma MapGrows(sb: Super, tr: Trace, inodeMap: seq<bool>, zoneMap: seq<bool>, r: Ref)
    requires MapsTell(sb, tr, inodeMap, zoneMap) && sb.firstdatazone <= r.zno && r.zno - sb.firstdatazone + 1 < |zoneMap|
    ensures MapsTell(sb, tr.(refs := tr.refs + [r]), inodeMap, zoneMap[r.zno - sb.firstdatazone + 1 := true])
  {
    var tr', b := tr.(refs := tr.refs + [r]), r.zno - sb.firstdatazone + 1;
    forall k | 0 <= k < |zoneMap| ensures zoneMap[b := true][k] <==> ZoneBit(sb, tr', k) {
      var z := k + sb.firstdatazone - 1;
      assert tr'.refs[|tr.refs|] == r;
      assert ZoneMet(tr, z) ==> ZoneMet(tr', z) by {
        if ZoneMet(tr, z) {
          var i :| 0 <= i < |tr.refs| && tr.refs[i].zno == z;
          assert tr'.refs[i].zno == z;
        }
      }
    }
  }

  /** chkinode() */
  lemma OneMet(dev: seq<Block>, sb: Super, tr: Trace, inodeMap: seq<bool>, zoneMap: seq<bool>, count: seq<nat>, ino: nat)
    requires Honest(dev, sb, tr, inodeMap, zoneMap, count)
    requires 1 <= ino <= sb.ninodes && ino < |inodeMap| && !inodeMap[ino] && ino < |count|
    requires ino == ROOT_INODE || NamedIn(tr, ino)
    ensures Honest(dev, sb, tr.(met := tr.met + [ino]), inodeMap[ino := true], zoneMap, count[ino := (count[ino] - Claimed(InodeOn(dev, sb, ino))) % 256])
  {
    hide TrueRef, TrueLink, NamedBefore, References, Claimed, InodeOn, ZoneMet;
    NoLongerNew(sb, tr, inodeMap, zoneMap, ino);
    var tr' := tr.(met := tr.met + [ino]);
    assert forall i :: i in tr'.met <==> i in tr.met || i == ino;
    forall i | 0 <= i < |tr.refs| ensures TrueRef(dev, sb, tr'.met, tr.refs[i]) { RefStill(dev, sb, tr, tr', tr.refs[i]); }
    forall i | 0 <= i < |tr.links| ensures TrueLink(dev, sb, tr', tr.links[i]) { TrueStill(dev, sb, tr, tr', tr.links[i]); }
    forall k | 0 <= k < |tr'.met| ensures NamedBefore(tr', k) {
      if k < |tr.met| { NamedStill(tr, tr', k); } else { NamedNow(tr, tr', ino); }
    }
    SameZones(tr, tr');
  }

  lemma NoLongerNew(sb: Super, tr: Trace, inodeMap: seq<bool>, zoneMap: seq<bool>, ino: nat)
    requires MapsTell(sb, tr, inodeMap, zoneMap) && 1 <= ino <= sb.ninodes && ino < |inodeMap| && !inodeMap[ino]
    ensures ino !in tr.met
  {
  }

  /** A directory met already names the inode. */
  ghost predicate NamedIn(tr: Trace, ino: nat) { exists i :: 0 <= i < |tr.links| && tr.links[i].plain && tr.links[i].target == ino && tr.links[i].dir in tr.met }

  lemma NamedNow(tr: Trace, tr': Trace, ino: nat)
    requires tr' == tr.(met := tr.met + [ino]) && (ino == ROOT_INODE || NamedIn(tr, ino))
    ensures NamedBefore(tr', |tr.met|)
  {
    assert tr'.met[..|tr.met|] == tr.met;
  }

  lemma RefStill(dev: seq<Block>, sb: Super, tr: Trace, tr': Trace, r: Ref)
    requires Extends(tr, tr') && TrueRef(dev, sb, tr.met, r)
    ensures TrueRef(dev, sb, tr'.met, r)
  {
    hide InodeOn, PointedAt;
  }

  lemma SameZones(tr: Trace, tr': Trace)
    requires tr'.refs == tr.refs
    ensures forall z :: ZoneMet(tr', z) <==> ZoneMet(tr, z)
  {
  }

  /** The count in chkentry() */
  lemma OneLink(dev: seq<Block>, sb: Super, tr: Trace, inodeMap: seq<bool>, zoneMap: seq<bool>, count: seq<nat>, l: Link)
    requires Honest(dev, sb, tr, inodeMap, zoneMap, count) && TrueLink(dev, sb, tr, l) && 1 <= l.target < |count|
    requires SlotsBelow(tr, l.zno, l.slot)
    ensures Honest(dev, sb, tr.(links := tr.links + [l]), inodeMap, zoneMap, Bump(count, l.target))
  {
    hide TrueRef, TrueLink, NamedBefore, Claimed, InodeOn, ZoneMet, References;
    var tr' := tr.(links := tr.links + [l]);
    forall i | 0 <= i < |tr'.links| ensures TrueLink(dev, sb, tr', tr'.links[i]) { TrueStill(dev, sb, tr, tr', tr'.links[i]); }
    forall k | 0 <= k < |tr.met| ensures NamedBefore(tr', k) { NamedStill(tr, tr', k); }
    SameZones(tr, tr');
    forall i | 1 <= i < |count| ensures References(tr'.links, i) == References(tr.links, i) + if l.target == i then 1 else 0 { OneReference(tr.links, l, i); }
    CountGrows(dev, sb, tr, tr', count, l);
  }

  lemma OneReference(links: seq<Link>, l: Link, i: nat)
    ensures References(links + [l], i) == References(links, i) + if l.target == i then 1 else 0
  {
    assert (links + [l])[..|links|] == links;
  }

  lemma CountGrows(dev: seq<Block>, sb: Super, tr: Trace, tr': Trace, count: seq<nat>, l: Link)
    requires CountsTell(dev, sb, tr, count) && tr' == tr.(links := tr.links + [l]) && 1 <= l.target < |count|
    requires forall i :: 1 <= i < |count| ==> References(tr'.links, i) == References(tr.links, i) + if l.target == i then 1 else 0
    ensures CountsTell(dev, sb, tr', Bump(count, l.target))
  {
    hide InodeOn, Claimed, References;
  }

  // ---------- Nothing that is there has been passed over ----------

  /** Directory `dir` has an ordinary entry that names inode ino. */
  ghost predicate NamedFrom(links: seq<Link>, ino: nat, dir: nat) {
    exists i :: 0 <= i < |links| && links[i].plain && links[i].target == ino && links[i].dir == dir
  }

  /** The inode is that of the directory in which ino is entered; the root's is its own. */
  ghost predicate LeadsBack(links: seq<Link>, ino: nat, parent: nat) {
    if ino == ROOT_INODE then parent == ROOT_INODE else NamedFrom(links, ino, parent)
  }

  lemma StillNamed(links: seq<Link>, links': seq<Link>, ino: nat, dir: nat)
    requires links <= links' && NamedFrom(links, ino, dir)
    ensures NamedFrom(links', ino, dir)
  {
    var i :| 0 <= i < |links| && links[i].plain && links[i].target == ino && links[i].dir == dir;
    assert links'[i] == links[i];
  }

  /** An entry in use: it is counted, it names an inode, "." comes first and names the directory itself, ".." comes second
      and names the one above, and any other name is plain and its inode met. */
  ghost predicate EntryDone(sb: Super, tr: Trace, ino: nat, z: nat, pos: nat, j: nat, e: Entry) {
    && 1 <= e.inum <= sb.ninodes && Link(z, j, e.inum, IsPlain(e), ino, pos) in tr.links
    && (if IsDot(e.name) then e.inum == ino && pos + 16 * j == 0
        else if IsDotDot(e.name) then pos + 16 * j == 16 && LeadsBack(tr.links, ino, e.inum)
        else (e.name[0] != '\0' && !HasSlash(e.name) && e.inum in tr.met))
  }

  /** Slot j of a directory's zone at offset pos. */
  ghost predicate SlotDone(dev: seq<Block>, sb: Super, tr: Trace, ino: nat, size: nat, z: nat, pos: nat, j: nat) {
    z < |dev| && j < NR_DIR_ENTRIES &&
    (pos + 16 * j < size ==>
      size - (pos + 16 * j) >= 16 && (AsDir(dev[z])[j].inum != 0 ==> EntryDone(sb, tr, ino, z, pos, j, AsDir(dev[z])[j])))
  }

  ghost predicate SlotsDone(dev: seq<Block>, sb: Super, tr: Trace, ino: nat, size: nat, z: nat, pos: nat, from: nat, to: nat) {
    forall j :: from <= j < to ==> SlotDone(dev, sb, tr, ino, size, z, pos, j)
  }

  /** The offset behind the first i zones of a list; a list is left where the file ends. */
  function PosAfter(dev: seq<Block>, size: nat, zlist: seq<nat>, i: nat, level: nat, pos: nat): nat
    requires i <= |zlist|
    decreases level, i
  {
    if i == 0 then pos else
    var p := PosAfter(dev, size, zlist, i - 1, level, pos);
    if p >= size then p
    else if zlist[i-1] == 0 || level == 0 || zlist[i-1] >= |dev| then p + Jump(level)
    else PosAfter(dev, size, AsIndirect(dev[zlist[i-1]]), NR_INDIRECTS, level - 1, p)
  }

  /** The first i zones of a list are met with all below them, as far as the file goes. */
  ghost predicate Covered(dev: seq<Block>, sb: Super, tr: Trace, ino: nat, ip: Inode, zlist: seq<nat>, i: nat, level: nat, pos: nat)
    requires i <= |zlist|
    decreases level, i, 0
  {
    i == 0 ||
    (Covered(dev, sb, tr, ino, ip, zlist, i - 1, level, pos) &&
     (var p := PosAfter(dev, ip.size, zlist, i - 1, level, pos); p >= ip.size || ZoneCovered(dev, sb, tr, ino, ip, zlist[i-1], level, p)))
  }

  ghost predicate ZoneCovered(dev: seq<Block>, sb: Super, tr: Trace, ino: nat, ip: Inode, z: nat, level: nat, pos: nat)
    decreases level, 0, 0
  {
    z == 0 ||
    (z < |dev| && Ref(ino, z, level, pos) in tr.refs &&
     if level > 0 then Covered(dev, sb, tr, ino, ip, AsIndirect(dev[z]), NR_INDIRECTS, level - 1, pos)
     else ip.kind == Directory ==> SlotsDone(dev, sb, tr, ino, ip.size, z, pos, 0, NR_DIR_ENTRIES))
  }

  /** A file or directory whose zones are all met. */
  ghost predicate FileCovered(dev: seq<Block>, sb: Super, tr: Trace, ino: nat, ip: Inode) {
    var direct, single, double := ip.zone[..NR_DZONE_NUM], [ip.zone[NR_DZONE_NUM]], [ip.zone[NR_DZONE_NUM + 1]];
    var p1 := PosAfter(dev, ip.size, direct, NR_DZONE_NUM, 0, 0);
    var p2 := PosAfter(dev, ip.size, single, 1, 1, p1);
    && Covered(dev, sb, tr, ino, ip, direct, NR_DZONE_NUM, 0, 0)
    && Covered(dev, sb, tr, ino, ip, single, 1, 1, p1)
    && Covered(dev, sb, tr, ino, ip, double, 1, 2, p2)
  }

  /** An inode with nothing left to look at. */
  ghost predicate Complete(dev: seq<Block>, sb: Super, tr: Trace, ino: nat) {
    ino >= 1 &&
    var ip := InodeOn(dev, sb, ino);
    && 1 <= ip.nlinks <= LINK_MAX && ip.kind != NotAllocated
    && (ip.kind == Regular || ip.kind == Directory ==> FileCovered(dev, sb, tr, ino, ip))
  }

  /** The directories being descended. */
  function Inums(stack: seq<Frame>): seq<nat> { if stack == [] then [] else [stack[0].inum] + Inums(stack[1..]) }

  /** Every inode met is complete or is being looked at, and none is named too often. */
  ghost predicate Settled(dev: seq<Block>, sb: Super, tr: Trace, open: seq<nat>) {
    FewLinks(dev, sb, tr) && forall i :: 0 <= i < |tr.met| ==> tr.met[i] in open || Complete(dev, sb, tr, tr.met[i])
  }

  lemma NothingSettled(dev: seq<Block>, sb: Super)
    ensures Settled(dev, sb, NO_TRACE, [])
  {
  }

  // ---------- What is done stays done ----------

  lemma SlotStays(dev: seq<Block>, sb: Super, tr: Trace, tr': Trace, ino: nat, size: nat, z: nat, pos: nat, j: nat)
    requires Extends(tr, tr') && SlotDone(dev, sb, tr, ino, size, z, pos, j)
    ensures SlotDone(dev, sb, tr', ino, size, z, pos, j)
  {
    hide AsDir, HasSlash, NamedFrom;
    if z < |dev| && j < NR_DIR_ENTRIES && NamedFrom(tr.links, ino, AsDir(dev[z])[j].inum) {
      StillNamed(tr.links, tr'.links, ino, AsDir(dev[z])[j].inum);
    }
  }

  lemma SlotsStay(dev: seq<Block>, sb: Super, tr: Trace, tr': Trace, ino: nat, size: nat, z: nat, pos: nat, from: nat, to: nat)
    requires Extends(tr, tr') && SlotsDone(dev, sb, tr, ino, size, z, pos, from, to)
    ensures SlotsDone(dev, sb, tr', ino, size, z, pos, from, to)
  {
    hide SlotDone;
    forall j | from <= j < to ensures SlotDone(dev, sb, tr', ino, size, z, pos, j) { SlotStays(dev, sb, tr, tr', ino, size, z, pos, j); }
  }

  lemma SlotsJoin(dev: seq<Block>, sb: Super, tr: Trace, ino: nat, size: nat, z: nat, pos: nat, from: nat, mid: nat, to: nat)
    requires SlotsDone(dev, sb, tr, ino, size, z, pos, from, mid) && SlotsDone(dev, sb, tr, ino, size, z, pos, mid, to)
    ensures SlotsDone(dev, sb, tr, ino, size, z, pos, from, to)
  {
    hide SlotDone;
  }

  /** The slots behind the end of the directory. */
  lemma SlotsBehind(dev: seq<Block>, sb: Super, tr: Trace, ino: nat, size: nat, z: nat, pos: nat, from: nat, to: nat)
    requires z < |dev| && pos + 16 * from >= size && to <= NR_DIR_ENTRIES
    ensures SlotsDone(dev, sb, tr, ino, size, z, pos, from, to)
  {
  }

  lemma {:induction false} CoveredStays(dev: seq<Block>, sb: Super, tr: Trace, tr': Trace, ino: nat, ip: Inode, zlist: seq<nat>, i: nat, level: nat, pos: nat)
    requires Extends(tr, tr') && i <= |zlist| && Covered(dev, sb, tr, ino, ip, zlist, i, level, pos)
    ensures Covered(dev, sb, tr', ino, ip, zlist, i, level, pos)
    decreases level, i, 0
  {
    if i > 0 {
      CoveredStays(dev, sb, tr, tr', ino, ip, zlist, i - 1, level, pos);
      var p := PosAfter(dev, ip.size, zlist, i - 1, level, pos);
      hide PosAfter, ZoneCovered;
      if p < ip.size { ZoneStays(dev, sb, tr, tr', ino, ip, zlist[i-1], level, p); }
    }
  }

  lemma {:induction false} ZoneStays(dev: seq<Block>, sb: Super, tr: Trace, tr': Trace, ino: nat, ip: Inode, z: nat, level: nat, pos: nat)
    requires Extends(tr, tr') && ZoneCovered(dev, sb, tr, ino, ip, z, level, pos)
    ensures ZoneCovered(dev, sb, tr', ino, ip, z, level, pos)
    decreases level, 0, 0
  {
    hide SlotsDone, AsIndirect, Covered;
    if z != 0 {
      if level > 0 {
        CoveredStays(dev, sb, tr, tr', ino, ip, AsIndirect(dev[z]), NR_INDIRECTS, level - 1, pos);
      } else if ip.kind == Directory {
        SlotsStay(dev, sb, tr, tr', ino, ip.size, z, pos, 0, NR_DIR_ENTRIES);
      }
    }
  }

  lemma CompleteStays(dev: seq<Block>, sb: Super, tr: Trace, tr': Trace, ino: nat)
    requires Extends(tr, tr') && Complete(dev, sb, tr, ino)
    ensures Complete(dev, sb, tr', ino)
  {
    hide InodeOn, Covered, PosAfter;
    var ip := InodeOn(dev, sb, ino);
    if ip.kind == Regular || ip.kind == Directory {
      var p1 := PosAfter(dev, ip.size, ip.zone[..NR_DZONE_NUM], NR_DZONE_NUM, 0, 0);
      CoveredStays(dev, sb, tr, tr', ino, ip, ip.zone[..NR_DZONE_NUM], NR_DZONE_NUM, 0, 0);
      CoveredStays(dev, sb, tr, tr', ino, ip, [ip.zone[NR_DZONE_NUM]], 1, 1, p1);
      CoveredStays(dev, sb, tr, tr', ino, ip, [ip.zone[NR_DZONE_NUM + 1]], 1, 2, PosAfter(dev, ip.size, [ip.zone[NR_DZONE_NUM]], 1, 1, p1));
    }
  }

  /** One more zone. */
  lemma SettledStays(dev: seq<Block>, sb: Super, tr: Trace, tr': Trace, open: seq<nat>)
    requires Extends(tr, tr') && tr'.met == tr.met && tr'.links == tr.links && Settled(dev, sb, tr, open)
    ensures Settled(dev, sb, tr', open)
  {
    hide Complete, InodeOn, Claimed, References;
    SameBalance(dev, sb, tr, tr');
    forall i | 0 <= i < |tr.met| && tr.met[i] !in open ensures Complete(dev, sb, tr', tr.met[i]) { CompleteStays(dev, sb, tr, tr', tr.met[i]); }
  }

  lemma SameBalance(dev: seq<Block>, sb: Super, tr: Trace, tr': Trace)
    requires tr'.met == tr.met && tr'.links == tr.links && FewLinks(dev, sb, tr)
    ensures FewLinks(dev, sb, tr')
  {
    hide InodeOn, Claimed, References;
    forall i: nat | i >= 1 ensures Balance(dev, sb, tr', i) <= LINK_MAX {
      assert Balance(dev, sb, tr', i) == Balance(dev, sb, tr, i);
    }
  }

  /** One more entry, for an inode whose count is not at the limit. */
  lemma SettledLink(dev: seq<Block>, sb: Super, tr: Trace, l: Link, open: seq<nat>, count: seq<nat>)
    requires Settled(dev, sb, tr, open) && CountsTell(dev, sb, tr, count) && 1 <= l.target < |count| && count[l.target] != LINK_MAX
    ensures Settled(dev, sb, tr.(links := tr.links + [l]), open)
  {
    hide Complete, InodeOn, Claimed, References;
    var tr' := tr.(links := tr.links + [l]);
    forall i | 0 <= i < |tr.met| && tr.met[i] !in open ensures Complete(dev, sb, tr', tr.met[i]) { CompleteStays(dev, sb, tr, tr', tr.met[i]); }
    forall i: nat | i >= 1 ensures Balance(dev, sb, tr', i) <= LINK_MAX {
      OneReference(tr.links, l, i);
      assert Balance(dev, sb, tr', i) == Balance(dev, sb, tr, i) + if l.target == i then 1 else 0;
      if l.target == i { assert Balance(dev, sb, tr, i) != LINK_MAX; }
    }
  }

  /** One more inode, which is being looked at. */
  lemma SettledMore(dev: seq<Block>, sb: Super, tr: Trace, ino: nat, open: seq<nat>)
    requires Settled(dev, sb, tr, open) && ino in open
    ensures Settled(dev, sb, tr.(met := tr.met + [ino]), open)
  {
    hide Complete, InodeOn, Claimed, References;
    var tr' := tr.(met := tr.met + [ino]);
    forall i: nat | i >= 1 ensures Balance(dev, sb, tr', i) <= LINK_MAX {
      assert Balance(dev, sb, tr, i) <= LINK_MAX && (i in tr.met ==> i in tr'.met);
    }
    forall i | 0 <= i < |tr'.met| && tr'.met[i] !in open ensures Complete(dev, sb, tr', tr'.met[i]) {
      assert i < |tr.met|;
      CompleteStays(dev, sb, tr, tr', tr.met[i]);
    }
  }

  /** The list is left where the file ends. */
  lemma {:induction false} RestCovered(dev: seq<Block>, sb: Super, tr: Trace, ino: nat, ip: Inode, zlist: seq<nat>, i: nat, k: nat, level: nat, pos: nat)
    requires i <= k <= |zlist| && Covered(dev, sb, tr, ino, ip, zlist, i, level, pos)
    requires i == k || PosAfter(dev, ip.size, zlist, i, level, pos) >= ip.size
    ensures Covered(dev, sb, tr, ino, ip, zlist, k, level, pos)
    ensures PosAfter(dev, ip.size, zlist, k, level, pos) == PosAfter(dev, ip.size, zlist, i, level, pos)
    decreases k
  {
    if i < k {
      RestCovered(dev, sb, tr, ino, ip, zlist, i, k - 1, level, pos);
      hide ZoneCovered;
    }
  }

  /** A list read in pieces. */
  lemma {:induction false} PieceCovered(dev: seq<Block>, sb: Super, tr: Trace, ino: nat, ip: Inode, zlist: seq<nat>, a: nat, piece: seq<nat>, k: nat, level: nat, pos: nat)
    requires a + |piece| <= |zlist| && piece == zlist[a..a + |piece|] && k <= |piece|
    requires Covered(dev, sb, tr, ino, ip, zlist, a, level, pos)
    requires Covered(dev, sb, tr, ino, ip, piece, k, level, PosAfter(dev, ip.size, zlist, a, level, pos))
    ensures Covered(dev, sb, tr, ino, ip, zlist, a + k, level, pos)
    ensures PosAfter(dev, ip.size, zlist, a + k, level, pos) == PosAfter(dev, ip.size, piece, k, level, PosAfter(dev, ip.size, zlist, a, level, pos))
    decreases k
  {
    if k > 0 {
      hide ZoneCovered, AsIndirect;
      PieceCovered(dev, sb, tr, ino, ip, zlist, a, piece, k - 1, level, pos);
      assert piece[k - 1] == zlist[a + k - 1];
    }
  }

  // ---------- Where new links are ----------

  ghost predicate NewRef(a: Trace, b: Trace, z: nat) { exists m :: |a.refs| <= m < |b.refs| && b.refs[m].zno == z }

  /** The links added are in zones added. */
  ghost predicate LinksInside(a: Trace, b: Trace) {
    forall k :: |a.links| <= k < |b.links| ==> NewRef(a, b, b.links[k].zno)
  }

  /** The links added are in zones added, or in the zone given. */
  ghost predicate NewLinks(a: Trace, b: Trace, zno: nat) {
    forall k :: |a.links| <= k < |b.links| ==> b.links[k].zno == zno || NewRef(a, b, b.links[k].zno)
  }

  /** No link of the zone is behind slot j. */
  ghost predicate SlotsBelow(tr: Trace, zno: nat, j: nat) {
    forall k :: 0 <= k < |tr.links| && tr.links[k].zno == zno ==> tr.links[k].slot < j
  }

  lemma NoNewLinks(a: Trace, b: Trace, zno: nat)
    requires b.links == a.links
    ensures LinksInside(a, b) && NewLinks(a, b, zno) && Extends(a, a)
  {
  }

  lemma StillThere(a: Trace, b: Trace, ino: nat, r: Ref)
    requires Extends(a, b) && ino in a.met && r in a.refs
    ensures ino in b.met && r in b.refs
  {
  }

  lemma StillMet(a: Trace, b: Trace, ino: nat)
    requires Extends(a, b) && ino in a.met
    ensures ino in b.met
  {
  }

  lemma InsideIsNew(a: Trace, b: Trace, zno: nat)
    requires LinksInside(a, b)
    ensures NewLinks(a, b, zno)
  {
    hide NewRef;
  }

  lemma InsideJoin(a: Trace, b: Trace, c: Trace)
    requires Extends(a, b) && Extends(b, c) && LinksInside(a, b) && LinksInside(b, c)
    ensures Extends(a, c) && LinksInside(a, c)
  {
    hide NewRef;
    forall k | |a.links| <= k < |c.links| ensures NewRef(a, c, c.links[k].zno) { NewRefStays(a, b, c, c.links[k].zno); }
  }

  lemma NewRefStays(a: Trace, b: Trace, c: Trace, z: nat)
    requires Extends(a, b) && Extends(b, c) && (NewRef(a, b, z) || NewRef(b, c, z))
    ensures NewRef(a, c, z)
  {
    if NewRef(a, b, z) {
      var m :| |a.refs| <= m < |b.refs| && b.refs[m].zno == z;
      assert c.refs[m].zno == z;
    } else {
      var m :| |b.refs| <= m < |c.refs| && c.refs[m].zno == z;
      assert c.refs[m].zno == z;
    }
  }

  lemma NewLinksJoin(a: Trace, b: Trace, c: Trace, zno: nat)
    requires Extends(a, b) && Extends(b, c) && NewLinks(a, b, zno) && NewLinks(b, c, zno)
    ensures Extends(a, c) && NewLinks(a, c, zno)
  {
    hide NewRef;
    forall k | |a.links| <= k < |c.links| ensures c.links[k].zno == zno || NewRef(a, c, c.links[k].zno) {
      if c.links[k].zno != zno { NewRefStays(a, b, c, c.links[k].zno); }
    }
  }

  /** A zone that is new itself, and then what is in it. */
  lemma NewLinksInside(a: Trace, b: Trace, c: Trace, zno: nat)
    requires Extends(a, b) && Extends(b, c) && b.links == a.links && NewRef(a, b, zno) && NewLinks(b, c, zno)
    ensures Extends(a, c) && LinksInside(a, c)
  {
    hide NewRef;
    forall k | |a.links| <= k < |c.links| ensures NewRef(a, c, c.links[k].zno) { NewRefStays(a, b, c, c.links[k].zno); }
  }

  /** Links in new zones are not in an old one. */
  lemma SlotsBelowStill(dev: seq<Block>, sb: Super, a: Trace, b: Trace, zno: nat, j: nat, r: Ref)
    requires Extends(a, b) && AllOnce(sb, b) && r in a.refs && r.zno == zno && SlotsBelow(a, zno, j)
    requires LinksInside(a, b)
    ensures SlotsBelow(b, zno, j)
  {
    var i :| 0 <= i < |a.refs| && a.refs[i] == r;
    assert b.refs[i] == r;
    assert !NewRef(a, b, zno);
  }

  // ---------- Steps of the walk ----------

  /** The offset behind one zone that is there. */
  function PosBehind(dev: seq<Block>, size: nat, z: nat, level: nat, pos: nat): nat {
    if level == 0 || z >= |dev| then pos + Jump(level) else PosAfter(dev, size, AsIndirect(dev[z]), NR_INDIRECTS, level - 1, pos)
  }

  lemma NoneCovered(dev: seq<Block>, sb: Super, tr: Trace, ino: nat, ip: Inode, zlist: seq<nat>, level: nat, pos: nat)
    ensures PosAfter(dev, ip.size, zlist, 0, level, pos) == pos && Covered(dev, sb, tr, ino, ip, zlist, 0, level, pos)
  {
  }

  lemma NoZoneCovered(dev: seq<Block>, sb: Super, tr: Trace, ino: nat, ip: Inode, zlist: seq<nat>, i: nat, level: nat, pos: nat)
    requires i < |zlist| && zlist[i] == 0 && Covered(dev, sb, tr, ino, ip, zlist, i, level, pos) && PosAfter(dev, ip.size, zlist, i, level, pos) < ip.size
    ensures Covered(dev, sb, tr, ino, ip, zlist, i + 1, level, pos)
    ensures PosAfter(dev, ip.size, zlist, i + 1, level, pos) == PosAfter(dev, ip.size, zlist, i, level, pos) + Jump(level)
  {
  }

  lemma OneCovered(dev: seq<Block>, sb: Super, tr: Trace, tr': Trace, ino: nat, ip: Inode, zlist: seq<nat>, i: nat, level: nat, pos: nat)
    requires Extends(tr, tr') && i < |zlist| && zlist[i] != 0 && Covered(dev, sb, tr, ino, ip, zlist, i, level, pos)
    requires PosAfter(dev, ip.size, zlist, i, level, pos) < ip.size
    requires ZoneCovered(dev, sb, tr', ino, ip, zlist[i], level, PosAfter(dev, ip.size, zlist, i, level, pos))
    ensures Covered(dev, sb, tr', ino, ip, zlist, i + 1, level, pos)
    ensures PosAfter(dev, ip.size, zlist, i + 1, level, pos) == PosBehind(dev, ip.size, zlist[i], level, PosAfter(dev, ip.size, zlist, i, level, pos))
  {
    CoveredStays(dev, sb, tr, tr', ino, ip, zlist, i, level, pos);
    hide ZoneCovered;
  }

  lemma ListedRef(dev: seq<Block>, sb: Super, tr: Trace, ino: nat, ip: Inode, zlist: seq<nat>, i: nat, level: nat, pos: nat)
    requires ListOf(dev, ip, zlist, level) && i < |zlist| && level <= 2 && ino >= 1 && ino in tr.met && ip == InodeOn(dev, sb, ino)
    ensures TrueRef(dev, sb, tr.met, Ref(ino, zlist[i], level, pos)) && PointedAt(dev, ip, zlist[i], level)
  {
    hide InodeOn, PointedAt;
  }

  /** From tr1, where a zone was marked, to the end of what is in it. */
  lemma MarkedInside(tr0: Trace, tr1: Trace, tr2: Trace, tr3: Trace, r: Ref)
    requires Extends(tr0, tr1) && LinksInside(tr0, tr1) && tr2 == tr1.(refs := tr1.refs + [r]) && Extends(tr2, tr3) && NewLinks(tr2, tr3, r.zno)
    ensures Extends(tr0, tr3) && LinksInside(tr0, tr3) && Extends(tr1, tr3)
  {
    hide LinksInside, NewLinks;
    assert tr2.refs[|tr1.refs|].zno == r.zno;
    assert NewRef(tr1, tr2, r.zno);
    NewLinksInside(tr1, tr2, tr3, r.zno);
    InsideJoin(tr0, tr1, tr3);
  }

  lemma QuarterCovered(dev: seq<Block>, sb: Super, tr: Trace, tr': Trace, ino: nat, ip: Inode, zlist: seq<nat>, a: nat, piece: seq<nat>, level: nat, pos: nat)
    requires Extends(tr, tr') && a + |piece| <= |zlist| && piece == zlist[a..a + |piece|] && Covered(dev, sb, tr, ino, ip, zlist, a, level, pos)
    requires Covered(dev, sb, tr', ino, ip, piece, |piece|, level, PosAfter(dev, ip.size, zlist, a, level, pos))
    ensures Covered(dev, sb, tr', ino, ip, zlist, a + |piece|, level, pos)
    ensures PosAfter(dev, ip.size, zlist, a + |piece|, level, pos) == PosAfter(dev, ip.size, piece, |piece|, level, PosAfter(dev, ip.size, zlist, a, level, pos))
  {
    hide Covered, PosAfter;
    CoveredStays(dev, sb, tr, tr', ino, ip, zlist, a, level, pos);
    PieceCovered(dev, sb, tr', ino, ip, zlist, a, piece, |piece|, level, pos);
  }

  lemma NoSlots(dev: seq<Block>, sb: Super, tr: Trace, ino: nat, size: nat, z: nat, pos: nat)
    ensures SlotsDone(dev, sb, tr, ino, size, z, pos, 0, 0)
  {
  }

  lemma NoneBetween(dev: seq<Block>, sb: Super, tr: Trace, ino: nat, size: nat, z: nat, pos: nat, j: nat)
    ensures SlotsDone(dev, sb, tr, ino, size, z, pos, j, j)
  {
  }

  lemma SlotsBelowMore(tr: Trace, zno: nat, j: nat, k: nat)
    requires SlotsBelow(tr, zno, j) && j <= k
    ensures SlotsBelow(tr, zno, k)
  {
  }

  lemma ChunkDone(dev: seq<Block>, sb: Super, tr: Trace, tr': Trace, ino: nat, size: nat, z: nat, pos: nat, mid: nat, to: nat)
    requires Extends(tr, tr') && SlotsDone(dev, sb, tr, ino, size, z, pos, 0, mid) && SlotsDone(dev, sb, tr', ino, size, z, pos, mid, to)
    ensures SlotsDone(dev, sb, tr', ino, size, z, pos, 0, to)
  {
    hide SlotsDone;
    SlotsStay(dev, sb, tr, tr', ino, size, z, pos, 0, mid);
    SlotsJoin(dev, sb, tr', ino, size, z, pos, 0, mid, to);
  }

  lemma LastChunkDone(dev: seq<Block>, sb: Super, tr: Trace, ino: nat, size: nat, z: nat, pos: nat, mid: nat)
    requires z < |dev| && mid <= NR_DIR_ENTRIES && pos + 16 * mid >= size && SlotsDone(dev, sb, tr, ino, size, z, pos, 0, mid)
    ensures SlotsDone(dev, sb, tr, ino, size, z, pos, 0, NR_DIR_ENTRIES)
  {
    hide SlotsDone;
    SlotsBehind(dev, sb, tr, ino, size, z, pos, mid, NR_DIR_ENTRIES);
    SlotsJoin(dev, sb, tr, ino, size, z, pos, 0, mid, NR_DIR_ENTRIES);
  }

  lemma OneSlotDone(dev: seq<Block>, sb: Super, tr: Trace, tr': Trace, ino: nat, size: nat, z: nat, pos: nat, from: nat, j: nat)
    requires Extends(tr, tr') && from <= j && SlotsDone(dev, sb, tr, ino, size, z, pos, from, j)
    requires z < |dev| && j < NR_DIR_ENTRIES && (pos + 16 * j >= size || size - (pos + 16 * j) >= 16)
    requires AsDir(dev[z])[j].inum != 0 ==> EntryDone(sb, tr', ino, z, pos, j, AsDir(dev[z])[j])
    ensures SlotsDone(dev, sb, tr', ino, size, z, pos, from, j + 1)
  {
    hide EntryDone, AsDir;
    SlotsStay(dev, sb, tr, tr', ino, size, z, pos, from, j);
  }

  lemma EntryIsLink(dev: seq<Block>, sb: Super, tr: Trace, ino: nat, ip: Inode, zno: nat, zpos: nat, slot: nat, dp: Entry)
    requires ino >= 1 && ino in tr.met && ip == InodeOn(dev, sb, ino) && ip.kind == Directory && Ref(ino, zno, 0, zpos) in tr.refs && zno < |dev|
    requires slot < NR_DIR_ENTRIES && dp == AsDir(dev[zno])[slot] && dp.inum != 0
    ensures TrueLink(dev, sb, tr, Link(zno, slot, dp.inum, IsPlain(dp), ino, zpos))
  {
    hide InodeOn, AsDir;
  }

  lemma LinkAdded(tr: Trace, tr': Trace, l: Link)
    requires tr' == tr.(links := tr.links + [l]) && l.dir in tr.met
    ensures Extends(tr, tr') && NewLinks(tr, tr', l.zno) && (l.plain ==> NamedIn(tr', l.target)) && l in tr'.links
    ensures SlotsBelow(tr, l.zno, l.slot) ==> SlotsBelow(tr', l.zno, l.slot + 1)
  {
    assert tr'.links[|tr.links|] == l;
  }

  lemma LinkStays(dev: seq<Block>, sb: Super, tr0: Trace, tr1: Trace, tr2: Trace, l: Link, inodeMap: seq<bool>, zoneMap: seq<bool>, count: seq<nat>)
    requires tr1 == tr0.(links := tr0.links + [l]) && NewLinks(tr0, tr1, l.zno) && SlotsBelow(tr1, l.zno, l.slot + 1) && Ref(l.dir, l.zno, 0, l.zpos) in tr0.refs
    requires Extends(tr1, tr2) && LinksInside(tr1, tr2) && Honest(dev, sb, tr2, inodeMap, zoneMap, count)
    ensures Extends(tr0, tr2) && NewLinks(tr0, tr2, l.zno) && SlotsBelow(tr2, l.zno, l.slot + 1) && l in tr2.links
  {
    hide NewLinks, LinksInside, SlotsBelow, AllTrue, AllNamed, MapsTell, CountsTell, AllOnce;
    InsideIsNew(tr1, tr2, l.zno);
    NewLinksJoin(tr0, tr1, tr2, l.zno);
    assert tr2.links[|tr0.links|] == l;
    SlotsBelowStill(dev, sb, tr1, tr2, l.zno, l.slot + 1, Ref(l.dir, l.zno, 0, l.zpos));
  }

  lemma OneOpen(stack: seq<Frame>, open: seq<nat>)
    requires stack != [] && open == Inums(stack[1..])
    ensures Inums(stack) == [stack[0].inum] + open
  {
  }

  lemma SettledOpen(dev: seq<Block>, sb: Super, tr: Trace, open: seq<nat>, more: seq<nat>)
    requires Settled(dev, sb, tr, open) && forall i :: i in open ==> i in more
    ensures Settled(dev, sb, tr, more)
  {
    hide Complete, FewLinks;
  }

  lemma SettledClosed(dev: seq<Block>, sb: Super, tr: Trace, ino: nat, stack: seq<Frame>, open: seq<nat>)
    requires stack != [] && stack[0].inum == ino && open == Inums(stack[1..])
    requires Settled(dev, sb, tr, Inums(stack)) && Complete(dev, sb, tr, ino)
    ensures Settled(dev, sb, tr, open)
  {
    hide Complete, FewLinks;
  }

  lemma CountsAre(dev: seq<Block>, sb: Super, tr: Trace, inodeMap: seq<bool>, zoneMap: seq<bool>, count: seq<nat>)
    requires Honest(dev, sb, tr, inodeMap, zoneMap, count)
    ensures CountsTell(dev, sb, tr, count)
  {
    hide CountsTell, AllTrue, AllNamed, AllOnce, MapsTell;
  }

  lemma VisitedIsMet(dev: seq<Block>, sb: Super, tr: Trace, inodeMap: seq<bool>, zoneMap: seq<bool>, count: seq<nat>, ino: nat)
    requires Honest(dev, sb, tr, inodeMap, zoneMap, count) && 1 <= ino <= sb.ninodes && ino < |inodeMap|
    ensures inodeMap[ino] <==> ino in tr.met
  {
    hide AllTrue, AllNamed, AllOnce, CountsTell;
  }

  /** The direct zones and the first level - 1 indirect ones. */
  ghost predicate ListsCovered(dev: seq<Block>, sb: Super, tr: Trace, ino: nat, ip: Inode, level: nat, pos: nat) {
    var direct, single, double := ip.zone[..NR_DZONE_NUM], [ip.zone[NR_DZONE_NUM]], [ip.zone[NR_DZONE_NUM + 1]];
    var p1 := PosAfter(dev, ip.size, direct, NR_DZONE_NUM, 0, 0);
    var p2 := PosAfter(dev, ip.size, single, 1, 1, p1);
    && (level >= 1 ==> Covered(dev, sb, tr, ino, ip, direct, NR_DZONE_NUM, 0, 0))
    && (level >= 2 ==> Covered(dev, sb, tr, ino, ip, single, 1, 1, p1))
    && (level >= 3 ==> Covered(dev, sb, tr, ino, ip, double, 1, 2, p2))
    && (level == 1 ==> pos == p1) && (level == 2 ==> pos == p2)
  }

  lemma FirstListCovered(dev: seq<Block>, sb: Super, tr: Trace, ino: nat, ip: Inode, pos: nat)
    requires Covered(dev, sb, tr, ino, ip, ip.zone[..NR_DZONE_NUM], NR_DZONE_NUM, 0, 0) && pos == PosAfter(dev, ip.size, ip.zone[..NR_DZONE_NUM], NR_DZONE_NUM, 0, 0)
    ensures ListsCovered(dev, sb, tr, ino, ip, 1, pos)
  {
    hide Covered, PosAfter;
  }

  lemma AllListsCovered(dev: seq<Block>, sb: Super, tr: Trace, ino: nat, ip: Inode, pos: nat)
    requires ListsCovered(dev, sb, tr, ino, ip, 3, pos)
    ensures FileCovered(dev, sb, tr, ino, ip)
  {
    hide Covered, PosAfter;
  }

  lemma NextListCovered(dev: seq<Block>, sb: Super, tr: Trace, tr': Trace, ino: nat, ip: Inode, level: nat, pos: nat, pos': nat)
    requires 1 <= level <= 2 && Extends(tr, tr') && ListsCovered(dev, sb, tr, ino, ip, level, pos)
    requires var zlist := [ip.zone[NR_DZONE_NUM + level - 1]];
      Covered(dev, sb, tr', ino, ip, zlist, 1, level, pos) && pos' == PosAfter(dev, ip.size, zlist, 1, level, pos)
    ensures ListsCovered(dev, sb, tr', ino, ip, level + 1, pos')
  {
    hide Covered, PosAfter;
    var p1 := PosAfter(dev, ip.size, ip.zone[..NR_DZONE_NUM], NR_DZONE_NUM, 0, 0);
    CoveredStays(dev, sb, tr, tr', ino, ip, ip.zone[..NR_DZONE_NUM], NR_DZONE_NUM, 0, 0);
    if level == 2 { CoveredStays(dev, sb, tr, tr', ino, ip, [ip.zone[NR_DZONE_NUM]], 1, 1, p1); }
  }
}
