/** Why fsck finds nothing wrong with a consistent device: the walk stays within the record of what is there, and in the end
    has met all of it. */
module FsckRecord {
  import opened FsDisk
  import opened FsckState
  import opened FsckTrace
  import opened FsckDirs
  import opened FsckExact
  import opened FsckSound

  /** The first two entries of a directory are "." and "..". */
  ghost predicate DotsIn(dev: seq<Block>, ip: Inode) {
    ip.size >= 32 && 0 < ip.zone[0] < |dev| &&
    var d := AsDir(dev[ip.zone[0]]);
    d[0].inum != 0 && IsDot(d[0].name) && d[1].inum != 0 && IsDotDot(d[1].name)
  }

  ghost predicate DotsStand(dev: seq<Block>, sb: Super, rec: Trace) {
    forall i :: i in rec.met && IsDirectory(dev, sb, i) ==> DotsIn(dev, InodeOn(dev, sb, i))
  }

  /** A record of a consistent device. */
  ghost predicate Guide(dev: seq<Block>, sb: Super, rec: Trace) { Consistent(dev, sb, rec) && DotsStand(dev, sb, rec) }

  /** Nothing has been met that is not on the record. */
  ghost predicate Inside(tr: Trace, rec: Trace) {
    && (forall i :: i in tr.met ==> i in rec.met)
    && (forall k :: 0 <= k < |tr.refs| ==> tr.refs[k] in rec.refs)
    && forall k :: 0 <= k < |tr.links| ==> tr.links[k] in rec.links
  }

  /** Only directories are marked as directories. */
  ghost predicate DirsOnly(dev: seq<Block>, sb: Super, dirMap: seq<bool>) {
    forall i :: 1 <= i < |dirMap| && dirMap[i] ==> IsDirectory(dev, sb, i)
  }

  function NameOf(dev: seq<Block>, l: Link): Name {
    if l.zno < |dev| && l.slot < NR_DIR_ENTRIES then AsDir(dev[l.zno])[l.slot].name else NO_NAME
  }

  /** Of the entries of directory ino among the first n links, "." and ".." have been noted. */
  ghost predicate DotsNoted(dev: seq<Block>, links: seq<Link>, n: nat, ino: nat, dot: bool, dotdot: bool) {
    forall k :: 0 <= k < n && k < |links| && links[k].dir == ino ==>
      (IsDot(NameOf(dev, links[k])) ==> dot) && (IsDotDot(NameOf(dev, links[k])) ==> dotdot)
  }

  // ---------- Where new zones belong ----------

  /** The zones added are of the inode given, if it is not 0, or of inodes that were not met before. */
  ghost predicate NewRefs(a: Trace, b: Trace, ino: nat) {
    forall k :: |a.refs| <= k < |b.refs| ==> b.refs[k].ino !in a.met || (ino != 0 && b.refs[k].ino == ino)
  }

  lemma NoNewRefs(a: Trace, b: Trace, ino: nat)
    requires b.refs == a.refs
    ensures NewRefs(a, b, ino)
  {
  }

  lemma OneNewRef(a: Trace, b: Trace, r: Ref)
    requires b == a.(refs := a.refs + [r]) && r.ino != 0
    ensures NewRefs(a, b, r.ino) && Extends(a, b)
  {
  }

  lemma NewRefsJoin(a: Trace, b: Trace, c: Trace, ino: nat, more: nat)
    requires Extends(a, b) && Extends(b, c) && NewRefs(a, b, ino) && NewRefs(b, c, more) && (more == ino || more == 0 || more !in a.met)
    ensures NewRefs(a, c, ino)
  {
    forall k | |a.refs| <= k < |c.refs| ensures c.refs[k].ino !in a.met || (ino != 0 && c.refs[k].ino == ino) {
      if k < |b.refs| { assert c.refs[k] == b.refs[k]; }
    }
  }

  lemma NewRefsOf(a: Trace, b: Trace, ino: nat)
    requires NewRefs(a, b, 0)
    ensures NewRefs(a, b, ino)
  {
  }

  /** The zones of inode ino come before the offset pos, or are at it and of a level above. */
  ghost predicate Ahead(tr: Trace, ino: nat, level: int, pos: nat) {
    forall k :: 0 <= k < |tr.refs| && tr.refs[k].ino == ino ==> tr.refs[k].pos < pos || (tr.refs[k].pos == pos && tr.refs[k].level > level)
  }

  ghost predicate Below(tr: Trace, ino: nat, pos: nat) {
    forall k :: 0 <= k < |tr.refs| && tr.refs[k].ino == ino ==> tr.refs[k].pos < pos
  }

  lemma BelowIsAhead(tr: Trace, ino: nat, level: int, pos: nat)
    requires Below(tr, ino, pos)
    ensures Ahead(tr, ino, level, pos)
  {
  }

  lemma AheadIsBelow(tr: Trace, ino: nat, level: int, pos: nat, pos': nat)
    requires Ahead(tr, ino, level, pos) && pos < pos'
    ensures Below(tr, ino, pos')
  {
  }

  /** Descending from a directory does not change where its own zones are. */
  lemma StillAhead(a: Trace, b: Trace, ino: nat, level: int, pos: nat)
    requires Extends(a, b) && NewRefs(a, b, 0) && ino in a.met && Ahead(a, ino, level, pos)
    ensures Ahead(b, ino, level, pos)
  {
    forall k | 0 <= k < |b.refs| && b.refs[k].ino == ino ensures b.refs[k].pos < pos || (b.refs[k].pos == pos && b.refs[k].level > level) {
      if k < |a.refs| { assert b.refs[k] == a.refs[k]; }
    }
  }

  lemma JumpIsPositive(level: nat)
    ensures Jump(level) > 0
  {
  }

  /** As long as the file goes on, so does the offset. */
  lemma {:induction false} PosGrows(dev: seq<Block>, size: nat, zlist: seq<nat>, i: nat, level: nat, pos: nat)
    requires i <= |zlist|
    ensures PosAfter(dev, size, zlist, i, level, pos) >= pos
    ensures 0 < i && pos < size ==> PosAfter(dev, size, zlist, i, level, pos) > pos
    decreases level, i
  {
    if i > 0 {
      PosGrows(dev, size, zlist, i - 1, level, pos);
      var p := PosAfter(dev, size, zlist, i - 1, level, pos);
      JumpIsPositive(level);
      if level > 0 && zlist[i-1] < |dev| { PosGrows(dev, size, AsIndirect(dev[zlist[i-1]]), NR_INDIRECTS, level - 1, p); }
    }
  }

  // ---------- Each complaint ----------

  lemma InRecord(dev: seq<Block>, sb: Super, rec: Trace, ino: nat)
    requires Consistent(dev, sb, rec) && ino in rec.met
    ensures 1 <= ino <= sb.ninodes && Complete(dev, sb, rec, ino)
  {
    hide Complete, AllTrue, AllNamed, EnteredOnce, Tight, MapsRight, LinksRight, MapsFit;
    var k :| 0 <= k < |rec.met| && rec.met[k] == ino;
    assert 1 <= rec.met[k] && Complete(dev, sb, rec, rec.met[k]);
  }

  /** A zone is on the record once. */
  lemma OneZone(sb: Super, rec: Trace, a: Ref, b: Ref)
    requires AllOnce(sb, rec) && a in rec.refs && b in rec.refs
    ensures a.zno == b.zno ==> a == b
  {
    var i :| 0 <= i < |rec.refs| && rec.refs[i] == a;
    var j :| 0 <= j < |rec.refs| && rec.refs[j] == b;
  }

  /** markzone(): a zone on the record is in range, and marked only if it has been met. */
  lemma MarkPasses(dev: seq<Block>, sb: Super, rec: Trace, tr: Trace, inodeMap: seq<bool>, zoneMap: seq<bool>, count: seq<nat>, r: Ref)
    requires Consistent(dev, sb, rec) && Honest(dev, sb, tr, inodeMap, zoneMap, count) && Inside(tr, rec)
    requires r in rec.refs && Ahead(tr, r.ino, r.level, r.pos)
    ensures sb.firstdatazone <= r.zno < sb.nzones
    ensures var bit := r.zno - sb.firstdatazone + 1; bit < |zoneMap| ==> !zoneMap[bit]
    ensures Inside(tr.(refs := tr.refs + [r]), rec) && Ahead(tr.(refs := tr.refs + [r]), r.ino, r.level - 1, r.pos)
  {
    hide AllTrue, AllNamed, CountsTell, Complete, EnteredOnce, Tight, MapsRight, LinksRight, MapsFit;
    assert sb.firstdatazone <= r.zno < sb.nzones by { var j :| 0 <= j < |rec.refs| && rec.refs[j] == r; }
    var bit := r.zno - sb.firstdatazone + 1;
    forall k | 0 <= k < |tr.refs| ensures tr.refs[k].zno != r.zno { OneZone(sb, rec, tr.refs[k], r); }
    assert bit < |zoneMap| ==> (zoneMap[bit] <==> ZoneBit(sb, tr, bit));
  }

  /** Links of one inode, each once. */
  lemma {:induction false} DistinctReferences(links: seq<Link>, i: nat) returns (s: set<Link>)
    requires forall j, k :: 0 <= j < k < |links| ==> links[j] != links[k]
    ensures |s| == References(links, i) && forall l :: l in s ==> l in links && l.target == i
    decreases |links|
  {
    if links == [] {
      s := {};
    } else {
      s := DistinctReferences(links[..|links|-1], i);
      if links[|links|-1].target == i { s := s + {links[|links|-1]}; }
    }
  }

  lemma NoMoreReferences(a: seq<Link>, b: seq<Link>, i: nat)
    requires forall j, k :: 0 <= j < k < |a| ==> a[j] != a[k]
    requires forall k :: 0 <= k < |a| ==> a[k] in b
    ensures References(a, i) <= References(b, i)
  {
    var s := DistinctReferences(a, i);
    ManyReferences(b, i, s);
  }

  lemma RecordedLinks(dev: seq<Block>, sb: Super, rec: Trace, i: nat)
    requires Consistent(dev, sb, rec) && 1 <= i <= sb.ninodes && References(rec.links, i) > 0
    ensures i in rec.met && References(rec.links, i) == InodeOn(dev, sb, i).nlinks <= LINK_MAX
  {
    hide AllTrue, AllNamed, AllOnce, Complete, EnteredOnce, Tight, MapsRight, MapsFit, InodeOn, References;
    InRecord(dev, sb, rec, i);
    hide Consistent;
    CompleteLinks(dev, sb, rec, i);
  }

  lemma CompleteLinks(dev: seq<Block>, sb: Super, rec: Trace, i: nat)
    requires Complete(dev, sb, rec, i)
    ensures i >= 1 && 1 <= InodeOn(dev, sb, i).nlinks <= LINK_MAX && InodeOn(dev, sb, i).kind != NotAllocated
    ensures IsFile(InodeOn(dev, sb, i)) ==> FileCovered(dev, sb, rec, i, InodeOn(dev, sb, i))
  {
    hide InodeOn, FileCovered;
  }

  /** A link that has not been counted yet. */
  ghost predicate NewLink(tr: Trace, l: Link) { forall k :: 0 <= k < |tr.links| ==> tr.links[k].zno != l.zno || tr.links[k].slot < l.slot }

  lemma BelowIsNew(tr: Trace, l: Link)
    requires SlotsBelow(tr, l.zno, l.slot)
    ensures NewLink(tr, l)
  {
  }

  /** chkentry(): the count is not at the limit when an entry on the record comes. */
  lemma CountIsLow(dev: seq<Block>, sb: Super, rec: Trace, tr: Trace, inodeMap: seq<bool>, zoneMap: seq<bool>, count: seq<nat>, l: Link)
    requires Consistent(dev, sb, rec) && Honest(dev, sb, tr, inodeMap, zoneMap, count) && Inside(tr, rec)
    requires l in rec.links && NewLink(tr, l) && 1 <= l.target <= sb.ninodes && l.target < |count|
    ensures count[l.target] != LINK_MAX
  {
    hide AllTrue, AllNamed, Complete, EnteredOnce, Tight, MapsRight, LinksRight, MapsFit, MapsTell, InodeOn, Consistent, References;
    var i := l.target;
    DistinctLinks(sb, tr, l);
    NoMoreReferences(tr.links + [l], rec.links, i);
    OneReference(tr.links, l, i);
    RecordedLinks(dev, sb, rec, i);
    ClaimedIs(InodeOn(dev, sb, i));
    assert count[i] == Balance(dev, sb, tr, i) % 256;
  }

  lemma ClaimedIs(ip: Inode)
    requires ip.nlinks <= LINK_MAX
    ensures Claimed(ip) == ip.nlinks
  {
  }

  lemma DistinctLinks(sb: Super, tr: Trace, l: Link)
    requires AllOnce(sb, tr) && NewLink(tr, l)
    ensures forall j, k :: 0 <= j < k < |tr.links + [l]| ==> (tr.links + [l])[j] != (tr.links + [l])[k]
  {
  }

  /** chkentry(): an entry on the record does not name a directory that is marked. */
  lemma NotMarkedYet(dev: seq<Block>, sb: Super, rec: Trace, tr: Trace, inodeMap: seq<bool>, zoneMap: seq<bool>, count: seq<nat>, dirMap: seq<bool>, l: Link)
    requires Consistent(dev, sb, rec) && Honest(dev, sb, tr, inodeMap, zoneMap, count) && Inside(tr, rec) && DirsOnly(dev, sb, dirMap)
    requires l in rec.links && NewLink(tr, l) && l.plain && 1 <= l.target <= sb.ninodes && l.target < |dirMap| == |inodeMap|
    requires dirMap[l.target] ==> inodeMap[l.target]
    ensures !dirMap[l.target]
  {
    hide AllTrue, AllOnce, AllNamed, Consistent, CountsTell, IsDirectory;
    NoSecondName(dev, sb, rec, tr, l);
    MetIsNamed(tr, l.target);
  }

  lemma MetIsNamed(tr: Trace, t: nat)
    requires AllNamed(tr)
    ensures t in tr.met ==> t == ROOT_INODE || exists i :: 0 <= i < |tr.links| && tr.links[i].plain && tr.links[i].target == t
  {
    if t in tr.met {
      var k :| 0 <= k < |tr.met| && tr.met[k] == t;
      assert NamedBefore(tr, k);
    }
  }

  lemma NoSecondName(dev: seq<Block>, sb: Super, rec: Trace, tr: Trace, l: Link)
    requires Consistent(dev, sb, rec) && Inside(tr, rec) && l in rec.links && NewLink(tr, l) && l.plain
    ensures l.target != ROOT_INODE
    ensures forall i :: 0 <= i < |tr.links| && tr.links[i].plain && tr.links[i].target == l.target ==> !IsDirectory(dev, sb, l.target)
  {
    hide AllTrue, AllNamed, AllOnce, Complete, Tight, MapsRight, LinksRight, MapsFit, IsDirectory;
    var n :| 0 <= n < |rec.links| && rec.links[n] == l;
    forall i | 0 <= i < |tr.links| && tr.links[i].plain && tr.links[i].target == l.target ensures !IsDirectory(dev, sb, l.target) {
      var m :| 0 <= m < |rec.links| && rec.links[m] == tr.links[i];
    }
  }

  /** chkdots(): the directory on the stack below is the one that ".." has to name. */
  lemma ParentIsRight(dev: seq<Block>, sb: Super, rec: Trace, tr: Trace, ino: nat, parent: nat, inum: nat)
    requires Consistent(dev, sb, rec) && Inside(tr, rec) && IsDirectory(dev, sb, ino)
    requires NamedFrom(tr.links, ino, parent) && NamedFrom(rec.links, ino, inum)
    ensures parent == inum
  {
    hide AllTrue, AllNamed, AllOnce, Complete, Tight, MapsRight, LinksRight, MapsFit, IsDirectory;
    var i :| 0 <= i < |tr.links| && tr.links[i].plain && tr.links[i].target == ino && tr.links[i].dir == parent;
    var m :| 0 <= m < |rec.links| && rec.links[m] == tr.links[i];
    var n :| 0 <= n < |rec.links| && rec.links[n].plain && rec.links[n].target == ino && rec.links[n].dir == inum;
  }

  // ---------- "." and ".." ----------

  /** Of a directory that has not been met no entry has been counted, and no zone marked. */
  lemma NothingOf(dev: seq<Block>, sb: Super, tr: Trace, inodeMap: seq<bool>, zoneMap: seq<bool>, count: seq<nat>, ino: nat, dot: bool, dotdot: bool)
    requires Honest(dev, sb, tr, inodeMap, zoneMap, count) && ino !in tr.met
    ensures DotsNoted(dev, tr.links, |tr.links|, ino, dot, dotdot) && Below(tr, ino, 0)
  {
    hide AllNamed, AllOnce, MapsTell, CountsTell, InodeOn, PointedAt, AsDir;
    assert forall k :: 0 <= k < |tr.links| ==> TrueLink(dev, sb, tr, tr.links[k]);
    assert forall k :: 0 <= k < |tr.refs| ==> TrueRef(dev, sb, tr.met, tr.refs[k]);
  }

  /** The directory of the last entry has been met. */
  lemma TopIsMet(dev: seq<Block>, sb: Super, tr: Trace, inodeMap: seq<bool>, zoneMap: seq<bool>, count: seq<nat>)
    requires Honest(dev, sb, tr, inodeMap, zoneMap, count) && tr.links != []
    ensures tr.links[|tr.links|-1].dir in tr.met
  {
    hide AllNamed, AllOnce, MapsTell, CountsTell, InodeOn, PointedAt, AsDir;
    assert TrueLink(dev, sb, tr, tr.links[|tr.links|-1]);
  }

  /** Descending from a directory counts none of its entries. */
  lemma StillNoted(dev: seq<Block>, sb: Super, a: Trace, b: Trace, inodeMap: seq<bool>, zoneMap: seq<bool>, count: seq<nat>, ino: nat, dot: bool, dotdot: bool)
    requires Extends(a, b) && LinksInside(a, b) && NewRefs(a, b, 0) && Honest(dev, sb, b, inodeMap, zoneMap, count) && ino in a.met
    requires DotsNoted(dev, a.links, |a.links|, ino, dot, dotdot)
    ensures DotsNoted(dev, b.links, |b.links|, ino, dot, dotdot)
  {
    hide AllNamed, MapsTell, CountsTell, InodeOn, PointedAt, AsDir, NameOf, IsDot, IsDotDot;
    forall k | 0 <= k < |b.links| && b.links[k].dir == ino ensures (IsDot(NameOf(dev, b.links[k])) ==> dot) && (IsDotDot(NameOf(dev, b.links[k])) ==> dotdot) {
      if k < |a.links| {
        assert b.links[k] == a.links[k];
      } else {
        NotOfOld(dev, sb, a, b, inodeMap, zoneMap, count, k);
      }
    }
  }

  lemma NotOfOld(dev: seq<Block>, sb: Super, a: Trace, b: Trace, inodeMap: seq<bool>, zoneMap: seq<bool>, count: seq<nat>, k: nat)
    requires Extends(a, b) && LinksInside(a, b) && NewRefs(a, b, 0) && Honest(dev, sb, b, inodeMap, zoneMap, count)
    requires |a.links| <= k < |b.links|
    ensures b.links[k].dir !in a.met
  {
    hide AllNamed, MapsTell, CountsTell, InodeOn, PointedAt, AsDir;
    var l := b.links[k];
    assert NewRef(a, b, l.zno);
    var m :| |a.refs| <= m < |b.refs| && b.refs[m].zno == l.zno;
    assert TrueLink(dev, sb, b, l);
    var n :| 0 <= n < |b.refs| && b.refs[n] == Ref(l.dir, l.zno, 0, l.zpos);
    assert m == n;
  }

  /** chkdirectory(): a directory all of whose entries have been counted has had both noted, if they stand there. */
  lemma BothNoted(dev: seq<Block>, sb: Super, tr: Trace, ino: nat, ip: Inode, dot: bool, dotdot: bool)
    requires FileCovered(dev, sb, tr, ino, ip) && ip.kind == Directory && DotsIn(dev, ip)
    requires DotsNoted(dev, tr.links, |tr.links|, ino, dot, dotdot)
    ensures dot && dotdot
  {
    hide AsDir, PosAfter, Covered, EntryDone;
    var z := ip.zone[0];
    NoneBefore(dev, ip.size, Directs(ip), 0, 0);
    CoveredAt(dev, sb, tr, ino, ip, Directs(ip), NR_DZONE_NUM, 0, 0, 0);
    assert SlotDone(dev, sb, tr, ino, ip.size, z, 0, 0) && SlotDone(dev, sb, tr, ino, ip.size, z, 0, 1);
    EntryIsNoted(dev, sb, tr, ino, z, 0, dot, dotdot);
    EntryIsNoted(dev, sb, tr, ino, z, 1, dot, dotdot);
  }

  lemma EntryIsNoted(dev: seq<Block>, sb: Super, tr: Trace, ino: nat, z: nat, j: nat, dot: bool, dotdot: bool)
    requires z < |dev| && j < NR_DIR_ENTRIES && EntryDone(sb, tr, ino, z, 0, j, AsDir(dev[z])[j]) && DotsNoted(dev, tr.links, |tr.links|, ino, dot, dotdot)
    ensures (IsDot(AsDir(dev[z])[j].name) ==> dot) && (IsDotDot(AsDir(dev[z])[j].name) ==> dotdot)
  {
    hide AsDir, IsDot, IsDotDot;
    var e := AsDir(dev[z])[j];
    var k :| 0 <= k < |tr.links| && tr.links[k] == Link(z, j, e.inum, IsPlain(e), ino, 0);
    assert NameOf(dev, tr.links[k]) == e.name;
  }

  // ---------- In the end all of the record has been met ----------

  /** The walk is over: whatever has been met is complete. */
  ghost predicate Over(dev: seq<Block>, sb: Super, rec: Trace, tr: Trace) {
    && Consistent(dev, sb, rec) && Inside(tr, rec) && ROOT_INODE in tr.met
    && forall k :: 0 <= k < |tr.met| ==> Complete(dev, sb, tr, tr.met[k])
  }

  lemma MetIsComplete(dev: seq<Block>, sb: Super, rec: Trace, tr: Trace, ino: nat)
    requires Over(dev, sb, rec, tr) && ino in tr.met
    ensures Complete(dev, sb, tr, ino)
  {
    hide Complete, Consistent;
    var k :| 0 <= k < |tr.met| && tr.met[k] == ino;
    assert Complete(dev, sb, tr, tr.met[k]);
  }

  lemma RefIsMet(dev: seq<Block>, sb: Super, rec: Trace, tr: Trace, r: Ref)
    requires Over(dev, sb, rec, tr) && r in rec.refs && r.ino in tr.met
    ensures r.ino >= 1 && r.zno != 0 && ZoneCovered(dev, sb, tr, r.ino, InodeOn(dev, sb, r.ino), r.zno, r.level, r.pos) && r in tr.refs
  {
    hide InodeOn, FileCovered, Complete, AllTrue, AllNamed, AllOnce, EnteredOnce, MapsRight, LinksRight, MapsFit, Covered, SlotsDone, AsIndirect;
    MetIsComplete(dev, sb, rec, tr, r.ino);
    CompleteLinks(dev, sb, tr, r.ino);
    StandsTight(dev, sb, rec, r);
    StandsIsFile(dev, InodeOn(dev, sb, r.ino), r.zno, r.level, r.pos);
    StandingIsCovered(dev, sb, tr, r.ino, InodeOn(dev, sb, r.ino), r.zno, r.level, r.pos);
  }

  lemma StandsTight(dev: seq<Block>, sb: Super, rec: Trace, r: Ref)
    requires Tight(dev, sb, rec) && r in rec.refs
    ensures r.ino >= 1 && StandsAt(dev, InodeOn(dev, sb, r.ino), r.zno, r.level, r.pos)
  {
    hide StandsAt, InodeOn, TightLink;
    var k :| 0 <= k < |rec.refs| && rec.refs[k] == r;
    assert TightRef(dev, sb, rec.refs[k]);
  }

  lemma StandsIsFile(dev: seq<Block>, ip: Inode, z: nat, level: nat, pos: nat)
    requires StandsAt(dev, ip, z, level, pos)
    ensures IsFile(ip) && z != 0
  {
  }

  lemma LinkIsMet(dev: seq<Block>, sb: Super, rec: Trace, tr: Trace, l: Link)
    requires Over(dev, sb, rec, tr) && l in rec.links && l.dir in tr.met
    ensures l in tr.links && (l.plain ==> l.target in tr.met)
  {
    hide InodeOn, AsDir, Complete, AllNamed, AllOnce, EnteredOnce, MapsRight, LinksRight, MapsFit, Covered, StandsAt, IsDot, IsDotDot, HasSlash, NamedFrom;
    var k :| 0 <= k < |rec.links| && rec.links[k] == l;
    assert TrueLink(dev, sb, rec, l) && TightLink(dev, sb, l);
    RefIsMet(dev, sb, rec, tr, Ref(l.dir, l.zno, 0, l.zpos));
    assert SlotDone(dev, sb, tr, l.dir, InodeOn(dev, sb, l.dir).size, l.zno, l.zpos, l.slot);
  }

  lemma {:induction false} RecordIsMet(dev: seq<Block>, sb: Super, rec: Trace, tr: Trace, k: nat)
    requires Over(dev, sb, rec, tr) && k < |rec.met|
    ensures rec.met[k] in tr.met
    decreases k
  {
    hide AllTrue, AllOnce, Complete, EnteredOnce, Tight, MapsRight, LinksRight, MapsFit;
    assert NamedBefore(rec, k);
    if rec.met[k] != ROOT_INODE {
      var i :| 0 <= i < |rec.links| && rec.links[i].plain && rec.links[i].target == rec.met[k] && rec.links[i].dir in rec.met[..k];
      var j :| 0 <= j < k && rec.met[j] == rec.links[i].dir;
      RecordIsMet(dev, sb, rec, tr, j);
      LinkIsMet(dev, sb, rec, tr, rec.links[i]);
    }
  }

  /** Then the walk has met what is on the record, and nothing else. */
  lemma SameAsRecord(dev: seq<Block>, sb: Super, rec: Trace, tr: Trace)
    requires Over(dev, sb, rec, tr)
    ensures forall i :: i in rec.met <==> i in tr.met
    ensures forall r :: r in rec.refs <==> r in tr.refs
    ensures forall l :: l in rec.links <==> l in tr.links
  {
    hide Over;
    forall i | i in rec.met ensures i in tr.met {
      var k :| 0 <= k < |rec.met| && rec.met[k] == i;
      RecordIsMet(dev, sb, rec, tr, k);
    }
    forall r | r in rec.refs ensures r in tr.refs {
      RefOwner(dev, sb, rec, tr, r);
      RefIsMet(dev, sb, rec, tr, r);
    }
    forall l | l in rec.links ensures l in tr.links {
      LinkOwner(dev, sb, rec, tr, l);
      LinkIsMet(dev, sb, rec, tr, l);
    }
    InsideIs(dev, sb, rec, tr);
  }

  lemma InsideIs(dev: seq<Block>, sb: Super, rec: Trace, tr: Trace)
    requires Over(dev, sb, rec, tr)
    ensures forall i :: i in tr.met ==> i in rec.met
    ensures forall r :: r in tr.refs ==> r in rec.refs
    ensures forall l :: l in tr.links ==> l in rec.links
  {
    hide Consistent, Complete;
  }

  lemma RefOwner(dev: seq<Block>, sb: Super, rec: Trace, tr: Trace, r: Ref)
    requires Over(dev, sb, rec, tr) && r in rec.refs && forall i :: i in rec.met ==> i in tr.met
    ensures r.ino in tr.met
  {
    hide AllNamed, AllOnce, Complete, EnteredOnce, Tight, MapsRight, LinksRight, MapsFit, InodeOn, PointedAt;
    var k :| 0 <= k < |rec.refs| && rec.refs[k] == r;
    assert TrueRef(dev, sb, rec.met, rec.refs[k]);
  }

  lemma LinkOwner(dev: seq<Block>, sb: Super, rec: Trace, tr: Trace, l: Link)
    requires Over(dev, sb, rec, tr) && l in rec.links && forall i :: i in rec.met ==> i in tr.met
    ensures l.dir in tr.met
  {
    hide AllNamed, AllOnce, Complete, EnteredOnce, Tight, MapsRight, LinksRight, MapsFit, InodeOn, AsDir;
    var k :| 0 <= k < |rec.links| && rec.links[k] == l;
    assert TrueLink(dev, sb, rec, rec.links[k]);
  }

  lemma SameReferences(dev: seq<Block>, sb: Super, rec: Trace, tr: Trace, i: nat)
    requires Consistent(dev, sb, rec) && AllOnce(sb, tr) && forall l :: l in rec.links <==> l in tr.links
    ensures References(tr.links, i) == References(rec.links, i)
  {
    hide AllTrue, AllNamed, Complete, EnteredOnce, Tight, MapsRight, LinksRight, MapsFit;
    OnceIsDistinct(sb, rec);
    OnceIsDistinct(sb, tr);
    hide Consistent, AllOnce, References;
    NoMoreReferences(tr.links, rec.links, i);
    NoMoreReferences(rec.links, tr.links, i);
  }

  lemma OnceIsDistinct(sb: Super, tr: Trace)
    requires AllOnce(sb, tr)
    ensures forall j, k :: 0 <= j < k < |tr.links| ==> tr.links[j] != tr.links[k]
  {
  }

  /** chkcount() */
  lemma CountsAreZero(dev: seq<Block>, sb: Super, rec: Trace, tr: Trace, inodeMap: seq<bool>, zoneMap: seq<bool>, count: seq<nat>)
    requires Over(dev, sb, rec, tr) && Honest(dev, sb, tr, inodeMap, zoneMap, count) && |count| == sb.ninodes + 1
    ensures forall i :: 1 <= i <= sb.ninodes ==> count[i] == 0
  {
    hide AllTrue, AllNamed, Complete, EnteredOnce, Tight, MapsRight, MapsFit, MapsTell, InodeOn, References, Inside, AllOnce;
    SameAsRecord(dev, sb, rec, tr);
    forall i: nat | 1 <= i <= sb.ninodes ensures count[i] == 0 {
      SameReferences(dev, sb, rec, tr, i);
      if i in tr.met {
        MetIsComplete(dev, sb, rec, tr, i);
        CompleteLinks(dev, sb, tr, i);
        ClaimedIs(InodeOn(dev, sb, i));
      }
      assert count[i] == Balance(dev, sb, tr, i) % 256;
    }
  }

  /** chkmap(), for the zones */
  lemma ZonesAgree(dev: seq<Block>, sb: Super, rec: Trace, tr: Trace, inodeMap: seq<bool>, zoneMap: seq<bool>, count: seq<nat>, k: nat)
    requires Over(dev, sb, rec, tr) && Honest(dev, sb, tr, inodeMap, zoneMap, count)
    requires k <= sb.nzones - sb.firstdatazone < |zoneMap| && SUPER_BLOCK + 1 + sb.imapBlocks + k / BITS_PER_BLOCK < |dev|
    ensures DiskBit(dev, SUPER_BLOCK + 1 + sb.imapBlocks, k) == zoneMap[k]
  {
    hide AllTrue, AllNamed, AllOnce, Complete, EnteredOnce, Tight, LinksRight, CountsTell, Inside, AsBits, InodeOn;
    SameAsRecord(dev, sb, rec, tr);
    assert zoneMap[k] <==> ZoneBit(sb, tr, k);
    if k > 0 {
      var z := k + sb.firstdatazone - 1;
      SameZonesMet(tr, rec, z);
      assert ZoneMet(rec, z) <==> ZoneMarked(dev, sb, z);
    }
  }

  lemma SameZonesMet(a: Trace, b: Trace, z: int)
    requires forall r :: r in b.refs <==> r in a.refs
    ensures ZoneMet(a, z) <==> ZoneMet(b, z)
  {
    if ZoneMet(a, z) {
      var i :| 0 <= i < |a.refs| && a.refs[i].zno == z;
      assert a.refs[i] in b.refs;
    }
    if ZoneMet(b, z) {
      var i :| 0 <= i < |b.refs| && b.refs[i].zno == z;
      assert b.refs[i] in a.refs;
    }
  }

  /** chkmap(), for the inodes */
  lemma InodesAgree(dev: seq<Block>, sb: Super, rec: Trace, tr: Trace, inodeMap: seq<bool>, zoneMap: seq<bool>, count: seq<nat>, k: nat)
    requires Over(dev, sb, rec, tr) && Honest(dev, sb, tr, inodeMap, zoneMap, count)
    requires k <= sb.ninodes < |inodeMap| && SUPER_BLOCK + 1 + k / BITS_PER_BLOCK < |dev|
    ensures DiskBit(dev, SUPER_BLOCK + 1, k) == inodeMap[k]
    ensures k > 0 && !inodeMap[k] ==> InodeOn(dev, sb, k).kind == NotAllocated
  {
    hide AllTrue, AllNamed, AllOnce, Complete, EnteredOnce, Tight, LinksRight, CountsTell, Inside, AsBits, InodeOn, ZoneMet, ZoneBit;
    SameAsRecord(dev, sb, rec, tr);
  }

  // ---------- What the record says of the pieces of the walk ----------

  lemma ZoneIsRecorded(dev: seq<Block>, sb: Super, rec: Trace, ino: nat, ip: Inode, z: nat, level: nat, pos: nat)
    requires ZoneCovered(dev, sb, rec, ino, ip, z, level, pos) && z != 0
    ensures z < |dev| && Ref(ino, z, level, pos) in rec.refs
    ensures level > 0 ==> Covered(dev, sb, rec, ino, ip, AsIndirect(dev[z]), NR_INDIRECTS, level - 1, pos)
    ensures level == 0 && ip.kind == Directory ==> SlotsDone(dev, sb, rec, ino, ip.size, z, pos, 0, NR_DIR_ENTRIES)
  {
    hide Covered, SlotsDone, AsIndirect;
  }

  lemma {:induction false} PieceIsRecorded(dev: seq<Block>, sb: Super, rec: Trace, ino: nat, ip: Inode, zlist: seq<nat>, a: nat, piece: seq<nat>, k: nat, level: nat, pos: nat)
    requires a + |piece| <= |zlist| && piece == zlist[a..a + |piece|] && k <= |piece| && Covered(dev, sb, rec, ino, ip, zlist, |zlist|, level, pos)
    ensures Covered(dev, sb, rec, ino, ip, piece, k, level, PosAfter(dev, ip.size, zlist, a, level, pos))
    decreases k
  {
    hide ZoneCovered, PosAfter;
    if k > 0 {
      PieceIsRecorded(dev, sb, rec, ino, ip, zlist, a, piece, k - 1, level, pos);
      PiecePos(dev, ip.size, zlist, a, piece, k - 1, level, pos);
      if PosAfter(dev, ip.size, zlist, a + k - 1, level, pos) < ip.size {
        CoveredAt(dev, sb, rec, ino, ip, zlist, |zlist|, level, pos, a + k - 1);
      }
    }
  }

  lemma SlotsPart(dev: seq<Block>, sb: Super, rec: Trace, ino: nat, size: nat, z: nat, pos: nat, n: nat, from: nat, to: nat)
    requires SlotsDone(dev, sb, rec, ino, size, z, pos, 0, n) && to <= n
    ensures SlotsDone(dev, sb, rec, ino, size, z, pos, from, to)
  {
    hide SlotDone;
  }

  lemma RecordedSlot(dev: seq<Block>, sb: Super, rec: Trace, ino: nat, size: nat, z: nat, pos: nat, from: nat, to: nat, j: nat)
    requires SlotsDone(dev, sb, rec, ino, size, z, pos, from, to) && from <= j < to
    ensures SlotDone(dev, sb, rec, ino, size, z, pos, j) && (pos + 16 * j < size ==> size - (pos + 16 * j) >= 16)
  {
    hide EntryDone, AsDir;
  }

  lemma EntryOfSlot(dev: seq<Block>, sb: Super, rec: Trace, ino: nat, size: nat, z: nat, pos: nat, j: nat)
    requires SlotDone(dev, sb, rec, ino, size, z, pos, j) && pos + 16 * j < size && z < |dev| && j < NR_DIR_ENTRIES && AsDir(dev[z])[j].inum != 0
    ensures EntryDone(sb, rec, ino, z, pos, j, AsDir(dev[z])[j])
  {
    hide EntryDone, AsDir;
  }

  lemma EntryParts(sb: Super, rec: Trace, ino: nat, z: nat, pos: nat, j: nat, e: Entry)
    requires EntryDone(sb, rec, ino, z, pos, j, e)
    ensures 1 <= e.inum <= sb.ninodes && Link(z, j, e.inum, IsPlain(e), ino, pos) in rec.links
    ensures IsDot(e.name) ==> e.inum == ino && pos + 16 * j == 0
    ensures !IsDot(e.name) && IsDotDot(e.name) ==> pos + 16 * j == 16 && LeadsBack(rec.links, ino, e.inum)
    ensures IsPlain(e) ==> e.name[0] != '\0' && !HasSlash(e.name) && e.inum in rec.met
  {
    hide LeadsBack, HasSlash;
  }

  lemma FileLists(dev: seq<Block>, sb: Super, rec: Trace, ino: nat, ip: Inode)
    requires FileCovered(dev, sb, rec, ino, ip)
    ensures Covered(dev, sb, rec, ino, ip, Directs(ip), NR_DZONE_NUM, 0, 0)
    ensures Covered(dev, sb, rec, ino, ip, [ip.zone[NR_DZONE_NUM]], 1, 1, SinglePos(dev, ip))
    ensures Covered(dev, sb, rec, ino, ip, [ip.zone[NR_DZONE_NUM + 1]], 1, 2, DoublePos(dev, ip))
  {
    hide Covered, PosAfter;
  }

  lemma ListIsRecorded(dev: seq<Block>, sb: Super, rec: Trace, tr: Trace, ino: nat, ip: Inode, level: nat, pos: nat)
    requires 1 <= level <= 2 && FileCovered(dev, sb, rec, ino, ip) && ListsCovered(dev, sb, tr, ino, ip, level, pos)
    ensures Covered(dev, sb, rec, ino, ip, [ip.zone[NR_DZONE_NUM + level - 1]], 1, level, pos)
  {
    hide Covered, PosAfter;
  }

  /** An inode on the record. */
  lemma RecordedInode(dev: seq<Block>, sb: Super, rec: Trace, ino: nat)
    requires Guide(dev, sb, rec) && ino in rec.met
    ensures ino >= 1
    ensures var ip := InodeOn(dev, sb, ino);
      && 1 <= ip.nlinks <= LINK_MAX && ip.kind != NotAllocated && (ino == ROOT_INODE ==> ip.kind == Directory)
      && (IsFile(ip) ==> FileCovered(dev, sb, rec, ino, ip)) && (ip.kind == Directory ==> DotsIn(dev, ip))
  {
    hide InodeOn, FileCovered, DotsIn, AllTrue, AllNamed, AllOnce, Tight, MapsRight, LinksRight, MapsFit, Complete;
    InRecord(dev, sb, rec, ino);
    CompleteLinks(dev, sb, rec, ino);
  }

  lemma RootIsRecorded(dev: seq<Block>, sb: Super, rec: Trace)
    requires Guide(dev, sb, rec)
    ensures ROOT_INODE in rec.met
  {
    hide AllTrue, AllNamed, AllOnce, Tight, MapsRight, LinksRight, MapsFit, Complete, DotsStand;
  }

  lemma NothingInside(dev: seq<Block>, sb: Super, rec: Trace, dirMap: seq<bool>)
    requires forall i :: 1 <= i < |dirMap| ==> !dirMap[i]
    ensures Inside(NO_TRACE, rec) && DirsOnly(dev, sb, dirMap)
  {
  }

  lemma OneMetInside(tr: Trace, rec: Trace, ino: nat)
    requires Inside(tr, rec) && ino in rec.met
    ensures Inside(tr.(met := tr.met + [ino]), rec)
  {
  }

  lemma OneLinkInside(dev: seq<Block>, tr: Trace, rec: Trace, l: Link, ino: nat, dot: bool, dotdot: bool)
    requires Inside(tr, rec) && l in rec.links
    ensures Inside(tr.(links := tr.links + [l]), rec)
    ensures DotsNoted(dev, tr.links, |tr.links|, ino, dot, dotdot) ==> DotsNoted(dev, tr.links + [l], |tr.links|, ino, dot, dotdot)
  {
    hide NameOf, IsDot, IsDotDot;
  }

  /** The last entry has been noted as well, or is neither. */
  lemma OneMoreNoted(dev: seq<Block>, links: seq<Link>, ino: nat, dot: bool, dotdot: bool, dot': bool, dotdot': bool)
    requires links != [] && DotsNoted(dev, links, |links| - 1, ino, dot, dotdot) && (dot ==> dot') && (dotdot ==> dotdot')
    requires var name := NameOf(dev, links[|links|-1]); (IsDot(name) ==> dot') && (IsDotDot(name) ==> dotdot')
    ensures DotsNoted(dev, links, |links|, ino, dot', dotdot')
  {
    hide NameOf, IsDot, IsDotDot;
  }

  lemma OneDirMarked(dev: seq<Block>, sb: Super, dirMap: seq<bool>, ino: nat)
    requires DirsOnly(dev, sb, dirMap) && ino < |dirMap| && IsDirectory(dev, sb, ino)
    ensures DirsOnly(dev, sb, dirMap[ino := true])
  {
    hide IsDirectory;
  }
}
