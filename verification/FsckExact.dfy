/** At which offsets an inode's lists put its zones, as far as its size goes. */
module FsckExact {
  import opened FsDisk
  import opened FsckState
  import opened FsckTrace

  function Directs(ip: Inode): seq<nat> { ip.zone[..NR_DZONE_NUM] }

  /** The offset behind the direct zones, where the indirect one's begin. */
  function SinglePos(dev: seq<Block>, ip: Inode): nat { PosAfter(dev, ip.size, Directs(ip), NR_DZONE_NUM, 0, 0) }

  function DoublePos(dev: seq<Block>, ip: Inode): nat { PosAfter(dev, ip.size, [ip.zone[NR_DZONE_NUM]], 1, 1, SinglePos(dev, ip)) }

  predicate IsFile(ip: Inode) { ip.kind == Regular || ip.kind == Directory }

  /** Zone z stands in one of the lists of a file or directory, for the offset pos. */
  ghost predicate StandsAt(dev: seq<Block>, ip: Inode, z: nat, level: nat, pos: nat)
    decreases 2 - level, 0
  {
    z != 0 && pos < ip.size && IsFile(ip) &&
    (|| (level == 0 && exists i: nat :: DirectAt(dev, ip, z, i, pos))
     || (level == 1 && z == ip.zone[NR_DZONE_NUM] && pos == SinglePos(dev, ip))
     || (level == 2 && z == ip.zone[NR_DZONE_NUM + 1] && pos == DoublePos(dev, ip))
     || (level < 2 && exists w: nat, p: nat, i: nat :: BelowAt(dev, ip, w, p, i, z, level, pos)))
  }

  ghost predicate DirectAt(dev: seq<Block>, ip: Inode, z: nat, i: nat, pos: nat) {
    i < NR_DZONE_NUM && z == ip.zone[i] && pos == PosAfter(dev, ip.size, Directs(ip), i, 0, 0)
  }

  /** In indirect block w, which stands for the offset p, zone z is the i-th. */
  ghost predicate BelowAt(dev: seq<Block>, ip: Inode, w: nat, p: nat, i: nat, z: nat, level: nat, pos: nat)
    requires level < 2
    decreases 2 - level - 1, 1
  {
    && w < |dev| && i < NR_INDIRECTS && z == AsIndirect(dev[w])[i] && pos == PosAfter(dev, ip.size, AsIndirect(dev[w]), i, level, p)
    && StandsAt(dev, ip, w, level + 1, p)
  }

  /** A list that begins at an offset of the file. */
  ghost predicate ListAt(dev: seq<Block>, ip: Inode, zlist: seq<nat>, level: nat, pos: nat) {
    forall i :: 0 <= i < |zlist| ==> ZoneAt(dev, ip, zlist, i, level, pos)
  }

  ghost predicate ZoneAt(dev: seq<Block>, ip: Inode, zlist: seq<nat>, i: nat, level: nat, pos: nat)
    requires i < |zlist|
  {
    var p := PosAfter(dev, ip.size, zlist, i, level, pos);
    zlist[i] != 0 && p < ip.size ==> StandsAt(dev, ip, zlist[i], level, p)
  }

  lemma OwnListsAt(dev: seq<Block>, ip: Inode)
    requires IsFile(ip)
    ensures ListAt(dev, ip, Directs(ip), 0, 0)
    ensures ListAt(dev, ip, [ip.zone[NR_DZONE_NUM]], 1, SinglePos(dev, ip)) && ListAt(dev, ip, [ip.zone[NR_DZONE_NUM + 1]], 2, DoublePos(dev, ip))
  {
    hide AsIndirect;
    forall i | 0 <= i < NR_DZONE_NUM ensures ZoneAt(dev, ip, Directs(ip), i, 0, 0) {
      assert DirectAt(dev, ip, ip.zone[i], i, PosAfter(dev, ip.size, Directs(ip), i, 0, 0));
    }
  }

  lemma OwnListAt(dev: seq<Block>, sb: Super, tr: Trace, ino: nat, ip: Inode, level: nat, pos: nat)
    requires IsFile(ip) && 1 <= level <= 2 && ListsCovered(dev, sb, tr, ino, ip, level, pos)
    ensures ListAt(dev, ip, [ip.zone[NR_DZONE_NUM + level - 1]], level, pos)
  {
    hide ListAt, Covered, PosAfter;
    OwnListsAt(dev, ip);
  }

  /** The offsets in a piece of a list. */
  lemma {:induction false} PiecePos(dev: seq<Block>, size: nat, zlist: seq<nat>, a: nat, piece: seq<nat>, k: nat, level: nat, pos: nat)
    requires a + |piece| <= |zlist| && piece == zlist[a..a + |piece|] && k <= |piece|
    ensures PosAfter(dev, size, piece, k, level, PosAfter(dev, size, zlist, a, level, pos)) == PosAfter(dev, size, zlist, a + k, level, pos)
    decreases k
  {
    if k > 0 {
      hide AsIndirect;
      PiecePos(dev, size, zlist, a, piece, k - 1, level, pos);
      assert piece[k - 1] == zlist[a + k - 1];
    }
  }

  /** A quarter of an indirect block. */
  lemma QuarterAt(dev: seq<Block>, ip: Inode, w: nat, level: nat, from: nat, to: nat, pos: nat)
    requires 1 <= level <= 2 && w < |dev| && StandsAt(dev, ip, w, level, pos) && from <= to <= NR_INDIRECTS
    ensures ListAt(dev, ip, AsIndirect(dev[w])[from..to], level - 1, PosAfter(dev, ip.size, AsIndirect(dev[w]), from, level - 1, pos))
  {
    hide AsIndirect, PosAfter;
    var all := AsIndirect(dev[w]);
    var below := level - 1;
    var piece, start := all[from..to], PosAfter(dev, ip.size, all, from, below, pos);
    forall i | 0 <= i < |piece| ensures ZoneAt(dev, ip, piece, i, below, start) {
      PiecePos(dev, ip.size, all, from, piece, i, below, pos);
      assert BelowAt(dev, ip, w, pos, from + i, piece[i], below, PosAfter(dev, ip.size, piece, i, below, start));
    }
  }

  /** The zones of the trace are where the lists put them, and its entries are within the directories. */
  ghost predicate Tight(dev: seq<Block>, sb: Super, tr: Trace) {
    && (forall k :: 0 <= k < |tr.refs| ==> TightRef(dev, sb, tr.refs[k]))
    && forall k :: 0 <= k < |tr.links| ==> TightLink(dev, sb, tr.links[k])
  }

  ghost predicate TightRef(dev: seq<Block>, sb: Super, r: Ref) { r.ino >= 1 && StandsAt(dev, InodeOn(dev, sb, r.ino), r.zno, r.level, r.pos) }

  ghost predicate TightLink(dev: seq<Block>, sb: Super, l: Link) { l.dir >= 1 && l.zpos + 16 * l.slot < InodeOn(dev, sb, l.dir).size }

  lemma NothingTight(dev: seq<Block>, sb: Super)
    ensures Tight(dev, sb, NO_TRACE)
  {
  }

  lemma OneRefTight(dev: seq<Block>, sb: Super, tr: Trace, r: Ref)
    requires Tight(dev, sb, tr) && TightRef(dev, sb, r)
    ensures Tight(dev, sb, tr.(refs := tr.refs + [r]))
  {
    hide TightRef, TightLink;
  }

  lemma OneLinkTight(dev: seq<Block>, sb: Super, tr: Trace, l: Link)
    requires Tight(dev, sb, tr) && TightLink(dev, sb, l)
    ensures Tight(dev, sb, tr.(links := tr.links + [l]))
  {
    hide TightRef, TightLink;
  }

  lemma OneMetTight(dev: seq<Block>, sb: Super, tr: Trace, ino: nat)
    requires Tight(dev, sb, tr)
    ensures Tight(dev, sb, tr.(met := tr.met + [ino]))
  {
    hide TightRef, TightLink;
  }

  lemma ListedAt(dev: seq<Block>, sb: Super, ino: nat, ip: Inode, zlist: seq<nat>, i: nat, level: nat, pos: nat)
    requires ListAt(dev, ip, zlist, level, pos) && i < |zlist| && zlist[i] != 0 && ino >= 1 && ip == InodeOn(dev, sb, ino)
    requires PosAfter(dev, ip.size, zlist, i, level, pos) < ip.size
    ensures StandsAt(dev, ip, zlist[i], level, PosAfter(dev, ip.size, zlist, i, level, pos))
    ensures TightRef(dev, sb, Ref(ino, zlist[i], level, PosAfter(dev, ip.size, zlist, i, level, pos)))
  {
    hide InodeOn, PosAfter, StandsAt;
    assert ZoneAt(dev, ip, zlist, i, level, pos);
  }

  lemma LinkIsTight(dev: seq<Block>, sb: Super, ino: nat, ip: Inode, l: Link)
    requires ino >= 1 && ip == InodeOn(dev, sb, ino) && l.dir == ino && l.zpos + 16 * l.slot < ip.size
    ensures TightLink(dev, sb, l)
  {
    hide InodeOn;
  }

  // ---------- Whoever covers a file has all that stands in its lists ----------

  lemma {:induction false} CoveredAt(dev: seq<Block>, sb: Super, tr: Trace, ino: nat, ip: Inode, zlist: seq<nat>, n: nat, level: nat, pos: nat, i: nat)
    requires i < n <= |zlist| && Covered(dev, sb, tr, ino, ip, zlist, n, level, pos) && PosAfter(dev, ip.size, zlist, i, level, pos) < ip.size
    ensures ZoneCovered(dev, sb, tr, ino, ip, zlist[i], level, PosAfter(dev, ip.size, zlist, i, level, pos))
    decreases n
  {
    hide ZoneCovered, PosAfter;
    if i < n - 1 { CoveredAt(dev, sb, tr, ino, ip, zlist, n - 1, level, pos, i); }
  }

  lemma {:induction false} StandingIsCovered(dev: seq<Block>, sb: Super, tr: Trace, ino: nat, ip: Inode, z: nat, level: nat, pos: nat)
    requires FileCovered(dev, sb, tr, ino, ip) && StandsAt(dev, ip, z, level, pos)
    ensures ZoneCovered(dev, sb, tr, ino, ip, z, level, pos)
    decreases 2 - level
  {
    hide AsIndirect, PosAfter, Covered, SlotsDone;
    if level == 0 && exists i: nat :: DirectAt(dev, ip, z, i, pos) {
      var i: nat :| DirectAt(dev, ip, z, i, pos);
      CoveredAt(dev, sb, tr, ino, ip, Directs(ip), NR_DZONE_NUM, 0, 0, i);
    } else if level == 1 && z == ip.zone[NR_DZONE_NUM] && pos == SinglePos(dev, ip) {
      NoneBefore(dev, ip.size, [ip.zone[NR_DZONE_NUM]], 1, pos);
      CoveredAt(dev, sb, tr, ino, ip, [ip.zone[NR_DZONE_NUM]], 1, 1, pos, 0);
    } else if level == 2 && z == ip.zone[NR_DZONE_NUM + 1] && pos == DoublePos(dev, ip) {
      NoneBefore(dev, ip.size, [ip.zone[NR_DZONE_NUM + 1]], 2, pos);
      CoveredAt(dev, sb, tr, ino, ip, [ip.zone[NR_DZONE_NUM + 1]], 1, 2, pos, 0);
    } else {
      var w: nat, p: nat, i: nat :| BelowAt(dev, ip, w, p, i, z, level, pos);
      StandingIsCovered(dev, sb, tr, ino, ip, w, level + 1, p);
      CoveredAt(dev, sb, tr, ino, ip, AsIndirect(dev[w]), NR_INDIRECTS, level, p, i);
    }
  }

  lemma NoneBefore(dev: seq<Block>, size: nat, zlist: seq<nat>, level: nat, pos: nat)
    ensures PosAfter(dev, size, zlist, 0, level, pos) == pos
  {
  }
}
