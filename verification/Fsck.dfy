/** fsck: the read-only pass over a file system. */
module Fsck {
  import opened FsDisk
  import opened FsTree
  import opened MkfsDisk
  import opened MkfsTree
  import opened Mkfs
  import opened FsckState
  import opened FsckTrace
  import opened FsckDirs
  import opened FsckExact
  import opened FsckSound
  import opened FsckRecord
  import opened FsckWalk
  import opened FsckReject

  const CINDIR := 128
  const CDIRECT := 16
  const MAXDIRSIZE := 5000

  /** Only directories already visited are marked as directories. */
  ghost predicate Within(dirMap: seq<bool>, inodeMap: seq<bool>) {
    |dirMap| == |inodeMap| && forall i :: 0 <= i < |dirMap| && dirMap[i] ==> inodeMap[i]
  }

  class Checker {
    const dev: seq<Block>
    const sb: Super
    ghost const record: Trace
    var inodeMap: seq<bool>
    var zoneMap: seq<bool>
    var dirMap: seq<bool>
    var count: seq<nat>
    var stack: seq<Frame>
    var clean: bool
    var fatal: bool
    var warned: bool
    ghost var trace: Trace

    ghost function Now(): State
      reads this
    {
      State(inodeMap, zoneMap, dirMap, count, stack, clean)
    }

    /** FIRST */
    function FirstZoneNr(): nat { sb.firstdatazone }

    ghost predicate Valid()
      reads this
    {
      ValidBut(|trace.links|, 0)
    }

    /** Valid but for the links from the n-th on, and for inode x, which is not marked as a directory. */
    ghost predicate ValidBut(n: nat, x: nat)
      reads this
    {
      && 1 < sb.firstdatazone < sb.nzones <= |dev|
      && SUPER_BLOCK + 1 + sb.imapBlocks + sb.zmapBlocks + (sb.ninodes + INODES_PER_BLOCK - 1) / INODES_PER_BLOCK <= sb.firstdatazone
      && |inodeMap| == sb.imapBlocks * BITS_PER_BLOCK > sb.ninodes && |zoneMap| == sb.zmapBlocks * BITS_PER_BLOCK >= sb.nzones
      && |count| == sb.ninodes + 1
      && Within(dirMap, inodeMap)
      && Traced()
      && DirsMarked(dev, sb, trace.met, dirMap, x) && Nested(trace.links, Inums(stack)) && (Fine() ==> EnteredOnce(dev, sb, trace.met, trace.links, n) && Tight(dev, sb, trace))
    }

    /** Valid up to the last link, which leads to inode ino. */
    ghost predicate ValidBefore(ino: nat)
      reads this
    {
      ValidBut(Before(trace.links), 0) && Awaited(trace.links, ino)
    }

    /** Nothing has been complained about. */
    ghost predicate Fine()
      reads this`clean, this`fatal
    {
      clean && !fatal
    }

    /** The maps and counts are those of what has been met, and as long as nothing is wrong, all of it but the directories
        being descended is done with. */
    ghost predicate Traced()
      reads this
    {
      Honest(dev, sb, trace, inodeMap, zoneMap, count) && (Fine() ==> Settled(dev, sb, trace, Inums(stack)))
    }

    /** An inode that has been met. */
    ghost predicate Owns(ino: nat, ip: Inode)
      reads this`trace
    {
      ino >= 1 && ino in trace.met && ip == InodeOn(dev, sb, ino)
    }

    /** A zone of it that has been marked, with no entry looked at yet. */
    ghost predicate Marked(ino: nat, zno: nat, level: nat, pos: nat)
      reads this`trace
    {
      Ref(ino, zno, level, pos) in trace.refs && SlotsBelow(trace, zno, 0)
    }

    /** More has been met, and if an inode is given, zones of it. */
    twostate predicate Advanced(ino: nat)
      reads this
    {
      Extends(old(trace), trace) && LinksInside(old(trace), trace) && NewRefs(old(trace), trace, ino) && (Fine() ==> old(Fine()))
    }

    /** In the middle of a zone. */
    twostate predicate AdvancedIn(zno: nat, ino: nat)
      reads this
    {
      Extends(old(trace), trace) && NewLinks(old(trace), trace, zno) && NewRefs(old(trace), trace, ino) && (Fine() ==> old(Fine()))
    }

    /** Nothing is wrong so far, on a device of which there is a record, and what has been met is on it; so are "." and ".."
        among the first n links noted, if they are of the directory on top of the stack. */
    ghost predicate OnRecordTo(n: nat)
      reads this`clean, this`fatal, this`trace, this`dirMap, this`stack
    {
      && Fine() && Guide(dev, sb, record) && Inside(trace, record) && DirsOnly(dev, sb, dirMap)
      && (stack != [] ==> DotsNoted(dev, trace.links, n, stack[0].inum, stack[0].dot, stack[0].dotdot))
    }

    ghost predicate OnRecord()
      reads this`clean, this`fatal, this`trace, this`dirMap, this`stack
    {
      OnRecordTo(|trace.links|)
    }

    lemma ZonesOnDevice()
      requires Valid()
      ensures sb.nzones <= |dev|
    {
    }

    lemma OnRecordIsFine()
      requires OnRecord()
      ensures Fine()
    {
    }

    /** The zones of inode ino that have been marked come before this place of the file. */
    ghost predicate Guided(ino: nat, level: int, pos: nat)
      reads this`clean, this`fatal, this`trace, this`dirMap, this`stack
    {
      OnRecord() && Ahead(trace, ino, level, pos)
    }

    /** The stack is as it was, but for what has been seen in the directory on top. */
    twostate predicate StackKept()
      reads this
    {
      |stack| == |old(stack)| && (stack != [] ==> stack[0].inum == old(stack)[0].inum && stack[1..] == old(stack)[1..])
    }

    /** devread() of an inode */
    method GetInode(ino: nat) returns (inode: Inode)
      requires SUPER_BLOCK + 1 + sb.imapBlocks + sb.zmapBlocks + (sb.ninodes + INODES_PER_BLOCK - 1) / INODES_PER_BLOCK <= |dev| && 1 <= ino <= sb.ninodes
      ensures var b := SUPER_BLOCK + 1 + sb.imapBlocks + sb.zmapBlocks + (ino - 1) / INODES_PER_BLOCK;
        b < |dev| && inode == AsInodes(dev[b])[(ino - 1) % INODES_PER_BLOCK]
      ensures inode == InodeOn(dev, sb, ino)
    {
      var b := SUPER_BLOCK + 1 + sb.imapBlocks + sb.zmapBlocks + (ino - 1) / INODES_PER_BLOCK;
      inode := AsInodes(dev[b])[(ino - 1) % INODES_PER_BLOCK];
    }

    /** markzone(): a zone out of range or found twice is complained about. */
    method MarkZone(ghost ino: nat, zno: nat, ghost level: nat, ghost pos: nat) returns (ok: bool)
      requires Valid() && TrueRef(dev, sb, trace.met, Ref(ino, zno, level, pos)) && (Fine() ==> TightRef(dev, sb, Ref(ino, zno, level, pos)))
      modifies this`zoneMap, this`clean, this`trace
      ensures Valid()
      ensures ok ==> trace == old(trace).(refs := old(trace).refs + [Ref(ino, zno, level, pos)]) && SlotsBelow(trace, zno, 0)
      ensures !ok ==> trace == old(trace)
      ensures ok <==> FirstZoneNr() <= zno < sb.nzones && !old(zoneMap)[zno - FirstZoneNr() + 1]
      ensures ok ==> zoneMap == old(zoneMap)[zno - FirstZoneNr() + 1 := true] && clean == old(clean)
      ensures !ok ==> zoneMap == old(zoneMap) && !clean
      ensures old(Guided(ino, level, pos)) && Ref(ino, zno, level, pos) in record.refs ==> ok && Guided(ino, level - 1, pos)
    {
      hide Honest, Settled, TrueRef, SlotsBelow, Inums, Within, DirsMarked, Nested, EnteredOnce, Tight, TightRef, TightLink, StandsAt, ListAt, Guide, Inside, DirsOnly, DotsNoted, NewRefs, Ahead, Below;
      if Guided(ino, level, pos) && Ref(ino, zno, level, pos) in record.refs { ZoneIsOnRecord(Ref(ino, zno, level, pos)); }
      if zno < FirstZoneNr() || zno >= sb.nzones {
        clean := false;
        return false;
      }
      var bit := zno - FirstZoneNr() + 1;
      if zoneMap[bit] {
        clean := false;
        return false;
      }
      ghost var tr := trace.(refs := trace.refs + [Ref(ino, zno, level, pos)]);
      OneRef(dev, sb, trace, inodeMap, zoneMap, count, Ref(ino, zno, level, pos));
      if Fine() {
        SettledStays(dev, sb, trace, tr, Inums(stack));
        OneRefTight(dev, sb, trace, Ref(ino, zno, level, pos));
      }
      zoneMap := zoneMap[bit := true];
      trace := tr;
      ok := true;
    }

    /** A zone on the record can be marked. */
    lemma ZoneIsOnRecord(r: Ref)
      requires Valid() && OnRecord() && Ahead(trace, r.ino, r.level, r.pos) && r in record.refs
      ensures FirstZoneNr() <= r.zno < sb.nzones && !zoneMap[r.zno - FirstZoneNr() + 1]
      ensures Inside(trace.(refs := trace.refs + [r]), record) && Ahead(trace.(refs := trace.refs + [r]), r.ino, r.level - 1, r.pos)
    {
      hide Honest, Settled, Consistent, DotsStand, Inside, DirsOnly, DotsNoted, Ahead, DirsMarked, Nested, EnteredOnce, Tight, Within, Inums;
      MarkPasses(dev, sb, record, trace, inodeMap, zoneMap, count, r);
    }

    /** chkdots() */
    method ChkDots(pos: nat, dp: Entry, exp: nat)
      modifies this`clean
      ensures clean <==> old(clean) && dp.inum == exp && pos == if dp.name[1] != '\0' then 16 else 0
    {
      if dp.inum != exp {
        clean := false;
      } else if pos != (if dp.name[1] != '\0' then 16 else 0) {
        clean := false;
      }
    }

    /** chkname() */
    method ChkName(dp: Entry)
      modifies this`clean
      ensures clean <==> old(clean) && dp.name[0] != '\0' && !HasSlash(dp.name)
    {
      if dp.name[0] == '\0' { clean := false; }
      var n := NAME_MAX + 1;
      var p := 0;
      while p < NAME_MAX && dp.name[p] != '\0' && n > 1
        invariant 0 <= p <= NAME_MAX && n + p == NAME_MAX + 1
        invariant clean == (old(clean) && dp.name[0] != '\0')
        invariant HasSlash(dp.name) == HasSlash(dp.name[p..])
        decreases NAME_MAX - p
      {
        n := n - 1;
        if dp.name[p] == '/' {
          clean := false;
          return;
        }
        assert dp.name[p..][1..] == dp.name[p+1..];
        p := p + 1;
      }
    }

    ghost predicate Mounted(N: nat)
    {
      sb == TheSuper(N, |dev|)
    }

    /** chkzones(): a list of zones, as far as the size of the file goes. */
    method ChkZones(ino: nat, ip: Inode, pos0: nat, zlist: seq<nat>, level: nat, ghost N: nat, ghost plan: Plan)
      returns (ok: bool, pos: nat)
      requires Valid() && StackFor(ino) && level <= 2
      requires Owns(ino, ip) && ListOf(dev, ip, zlist, level) && (Fine() ==> ListAt(dev, ip, zlist, level, pos0))
      modifies this
      ensures Valid() && Unset(inodeMap) <= old(Unset(inodeMap)) && StackKept() && Advanced(ino)
      ensures Fine() ==> ok && pos == PosAfter(dev, ip.size, zlist, |zlist|, level, pos0) && Covered(dev, sb, trace, ino, ip, zlist, |zlist|, level, pos0)
      ensures pos0 >= ip.size ==> ok && pos == pos0 && Now() == old(Now()) && fatal == old(fatal)
      ensures Mounted(N) && ListFits(plan, dev, N, ip, zlist, level) && old(Follows(plan, dev, N, Now(), pos0, 0)) ==>
        ok && Follows(plan, dev, N, Now(), pos, |zlist|) && fatal == old(fatal)
      ensures pos0 >= ip.size ==> trace == old(trace)
      ensures old(Guided(ino, level, pos0)) && Covered(dev, sb, record, ino, ip, zlist, |zlist|, level, pos0) ==>
        OnRecord() && (zlist != [] && pos0 < ip.size ==> Below(trace, ino, pos))
      decreases Unset(inodeMap), 12 + 3 * level
    {
      hide ListFits, Follows, Opened, Unset, DirsMarked, Nested, EnteredOnce, Tight, TightRef, TightLink, StandsAt, ListAt, Honest, Settled, InodeOn, ListOf, ZoneCovered, PosAfter, Covered, LinksInside, NewLinks, SlotsBelow, Jump, Inums, Within, PointedAt, Extends, PosBehind, Guide, Inside, DirsOnly, DotsNoted, NewRefs, Ahead, Below;
      ok, pos := true, pos0;
      NoneCovered(dev, sb, trace, ino, ip, zlist, level, pos0);
      NoNewLinks(trace, trace, 0);
      NoNewRefs(trace, trace, ino);
      ghost var guided := Guided(ino, level, pos0) && Covered(dev, sb, record, ino, ip, zlist, |zlist|, level, pos0);
      ghost var expected := Mounted(N) && ListFits(plan, dev, N, ip, zlist, level) && Follows(plan, dev, N, Now(), pos0, 0);
      var i := 0;
      while i < |zlist| && pos < ip.size
        invariant 0 <= i <= |zlist| && Valid() && Unset(inodeMap) <= old(Unset(inodeMap)) && StackKept() && Advanced(ino) && Owns(ino, ip)
        invariant Fine() ==> ok && pos == PosAfter(dev, ip.size, zlist, i, level, pos0) && Covered(dev, sb, trace, ino, ip, zlist, i, level, pos0)
        invariant pos0 >= ip.size ==> i == 0 && ok && pos == pos0 && Now() == old(Now()) && fatal == old(fatal)
        invariant (i == 0 ==> pos == pos0) && (pos0 >= ip.size ==> trace == old(trace))
        invariant guided ==> Guided(ino, level, pos) && (i > 0 ==> Below(trace, ino, pos))
        invariant expected ==> ok && Follows(plan, dev, N, Now(), pos, i) && fatal == old(fatal)
      {
        ghost var tr1 := trace;
        if guided { CoveredAt(dev, sb, record, ino, ip, zlist, |zlist|, level, pos0, i); }
        var good;
        good, pos := NextZone(ino, ip, pos, zlist, i, level, N, plan, pos0);
        if !good { ok := false; }
        InsideJoin(old(trace), tr1, trace);
        NewRefsJoin(old(trace), tr1, trace, ino, ino);
        StillMet(tr1, trace, ino);
        if guided { BelowIsAhead(trace, ino, level, pos); }
        i := i + 1;
      }
      if Fine() { RestCovered(dev, sb, trace, ino, ip, zlist, i, |zlist|, level, pos0); }
      if expected && i < |zlist| { ListEnds(plan, dev, N, ip, zlist, level, Now(), pos, i); }
    }

    /** One zone of the list. */
    method NextZone(ino: nat, ip: Inode, pos1: nat, zlist: seq<nat>, i: nat, level: nat, ghost N: nat, ghost plan: Plan, ghost pos0: nat)
      returns (ok: bool, pos: nat)
      requires Valid() && StackFor(ino) && level <= 2
      requires Owns(ino, ip) && ListOf(dev, ip, zlist, level) && i < |zlist|
      requires Fine() ==> ListAt(dev, ip, zlist, level, pos0) && pos1 == PosAfter(dev, ip.size, zlist, i, level, pos0) && pos1 < ip.size
      modifies this
      ensures Valid() && Unset(inodeMap) <= old(Unset(inodeMap)) && StackKept() && Advanced(ino)
      ensures Fine() && pos1 < ip.size && pos1 == PosAfter(dev, ip.size, zlist, i, level, pos0) && old(Covered(dev, sb, trace, ino, ip, zlist, i, level, pos0)) ==>
        ok && pos == PosAfter(dev, ip.size, zlist, i + 1, level, pos0) && Covered(dev, sb, trace, ino, ip, zlist, i + 1, level, pos0)
      ensures Mounted(N) && ListFits(plan, dev, N, ip, zlist, level) && pos1 < ip.size && old(Follows(plan, dev, N, Now(), pos1, i)) ==>
        ok && Follows(plan, dev, N, Now(), pos, i + 1) && fatal == old(fatal)
      ensures old(Guided(ino, level, pos1)) && pos1 < ip.size && ZoneCovered(dev, sb, record, ino, ip, zlist[i], level, pos1) ==> OnRecord() && Below(trace, ino, pos)
      decreases Unset(inodeMap), 12 + 3 * level, 0
    {
      hide ListFits, Follows, Opened, Unset, DirsMarked, Nested, EnteredOnce, Tight, TightRef, TightLink, StandsAt, ListAt, Honest, Settled, InodeOn, ListOf, ZoneCovered, PosAfter, Covered, LinksInside, NewLinks, SlotsBelow, Jump, Inums, Within, PointedAt, Extends, PosBehind, Guide, Inside, DirsOnly, DotsNoted, NewRefs, Ahead, Below;
      NoNewLinks(trace, trace, 0);
      NoNewRefs(trace, trace, ino);
      ghost var guided := Guided(ino, level, pos1) && pos1 < ip.size && ZoneCovered(dev, sb, record, ino, ip, zlist[i], level, pos1);
      ghost var covered := pos1 < ip.size && pos1 == PosAfter(dev, ip.size, zlist, i, level, pos0) && Covered(dev, sb, trace, ino, ip, zlist, i, level, pos0);
      if Mounted(N) && ListFits(plan, dev, N, ip, zlist, level) && pos1 < ip.size && Follows(plan, dev, N, Now(), pos1, i) {
        ZoneOpens(plan, dev, N, ip, zlist, level, Now(), pos1, i);
      }
      ok, pos := true, pos1;
      if zlist[i] == 0 {
        pos := pos + Jump(level);
        if covered { NoZoneCovered(dev, sb, trace, ino, ip, zlist, i, level, pos0); }
        JumpIsPositive(level);
        if guided { AheadIsBelow(trace, ino, level, pos1, pos); }
        return;
      }
      if guided { ZoneIsRecorded(dev, sb, record, ino, ip, zlist[i], level, pos); }
      ListedRef(dev, sb, trace, ino, ip, zlist, i, level, pos);
      if Fine() { ListedAt(dev, sb, ino, ip, zlist, i, level, pos0); }
      var marked := MarkZone(ino, zlist[i], level, pos);
      if !marked {
        pos := pos + Jump(level);
        return false, pos;
      }
      ghost var tr2 := trace;
      OneNewRef(old(trace), tr2, Ref(ino, zlist[i], level, pos));
      ok, pos := ZoneChk(ino, ip, pos, zlist[i], level, N, plan, zlist, i);
      NewRefsJoin(old(trace), tr2, trace, ino, ino);
      MarkedInside(old(trace), old(trace), tr2, trace, Ref(ino, zlist[i], level, pos1));
      if Fine() && covered { OneCovered(dev, sb, old(trace), trace, ino, ip, zlist, i, level, pos0); }
    }

    ghost predicate StackFor(ino: nat)
      reads this
    {
      stack != [] && stack[0].inum == ino && (ino != ROOT_INODE ==> |stack| >= 2)
    }

    /** zonechk() */
    method ZoneChk(ino: nat, ip: Inode, pos0: nat, zno: nat, level: nat, ghost N: nat, ghost plan: Plan, ghost zlist: seq<nat>, ghost i: nat)
      returns (ok: bool, pos: nat)
      requires Valid() && StackFor(ino) && level <= 2 && FirstZoneNr() <= zno < sb.nzones
      requires Owns(ino, ip) && PointedAt(dev, ip, zno, level) && Marked(ino, zno, level, pos0) && (Fine() ==> StandsAt(dev, ip, zno, level, pos0))
      modifies this
      ensures Valid() && Unset(inodeMap) <= old(Unset(inodeMap)) && StackKept() && AdvancedIn(zno, ino)
      ensures Fine() ==> ok && pos == PosBehind(dev, ip.size, zno, level, pos0) && ZoneCovered(dev, sb, trace, ino, ip, zno, level, pos0)
      ensures Mounted(N) && ListFits(plan, dev, N, ip, zlist, level) && i < |zlist| && zno == zlist[i] && old(Opened(plan, dev, N, Now(), pos0, i)) ==>
        ok && Follows(plan, dev, N, Now(), pos, i + 1) && fatal == old(fatal)
      ensures old(Guided(ino, level - 1, pos0)) && pos0 < ip.size && zno != 0 && ZoneCovered(dev, sb, record, ino, ip, zno, level, pos0) ==>
        OnRecord() && Below(trace, ino, pos)
      decreases Unset(inodeMap), 11 + 3 * level
    {
      hide View, InDir, InFile, Arrives, Unset, DirsMarked, Nested, EnteredOnce, Tight, TightRef, TightLink, StandsAt, ListAt, Honest, Settled, InodeOn, PointedAt, NewLinks, LinksInside, SlotsBelow, SlotsDone, PosAfter, Covered, Inums, Within, Guide, Inside, DirsOnly, DotsNoted, NewRefs, Ahead, Below;
      ghost var expected := Mounted(N) && ListFits(plan, dev, N, ip, zlist, level) && i < |zlist| && zno == zlist[i] && Opened(plan, dev, N, Now(), pos0, i);
      NoNewLinks(trace, trace, zno);
      NoNewRefs(trace, trace, ino);
      ghost var guided := Guided(ino, level - 1, pos0) && pos0 < ip.size && zno != 0 && ZoneCovered(dev, sb, record, ino, ip, zno, level, pos0);
      if guided { ZoneIsRecorded(dev, sb, record, ino, ip, zno, level, pos0); }
      pos := pos0;
      if level == 0 {
        if expected && plan.OfDir? { DirSize(dev, N, plan.s0, plan.t, plan.n, plan.parent, plan.z); }
        if ip.kind == Directory {
          ok := ChkDirZone(ino, ip, pos, zno, N, plan, zlist, i);
          NewRefsOf(old(trace), trace, ino);
          if guided { StillAhead(old(trace), trace, ino, -1, pos0); }
          if !ok { return; }
          if expected { DirZoneDone(plan, dev, N, Now(), pos, i); }
        } else if expected {
          FileZoneDone(plan, dev, N, Now(), pos, i);
        }
        pos := pos + BLOCK_SIZE;
        if guided { AheadIsBelow(trace, ino, -1, pos0, pos); }
        ok := true;
      } else {
        ok, pos := ChkIndZone(ino, ip, pos, zno, level, N, plan, zlist, i);
      }
    }

    /** chkindzone(): an indirect block, read in quarters. */
    method ChkIndZone(ino: nat, ip: Inode, pos0: nat, zno: nat, level: nat, ghost N: nat, ghost plan: Plan, ghost zlist: seq<nat>, ghost i: nat)
      returns (ok: bool, pos: nat)
      requires Valid() && StackFor(ino) && 1 <= level <= 2 && FirstZoneNr() <= zno < sb.nzones
      requires Owns(ino, ip) && PointedAt(dev, ip, zno, level) && Marked(ino, zno, level, pos0) && (Fine() ==> StandsAt(dev, ip, zno, level, pos0))
      modifies this
      ensures Valid() && Unset(inodeMap) <= old(Unset(inodeMap)) && StackKept() && AdvancedIn(zno, ino)
      ensures Fine() ==> ok && pos == PosBehind(dev, ip.size, zno, level, pos0) && ZoneCovered(dev, sb, trace, ino, ip, zno, level, pos0)
      ensures Mounted(N) && plan.OfIndirect? && ListFits(plan, dev, N, ip, zlist, level) && i < |zlist| && zno == zlist[i] && old(Opened(plan, dev, N, Now(), pos0, i)) ==>
        ok && Follows(plan, dev, N, Now(), pos, i + 1) && fatal == old(fatal)
      ensures old(Guided(ino, level - 1, pos0)) && pos0 < ip.size && zno != 0 && ZoneCovered(dev, sb, record, ino, ip, zno, level, pos0) ==>
        OnRecord() && Below(trace, ino, pos)
      decreases Unset(inodeMap), 10 + 3 * level
    {
      hide View, InFile, AsIndirect, FileIndirect, Unset, DirsMarked, Nested, EnteredOnce, Tight, TightRef, TightLink, StandsAt, ListAt, Honest, Settled, InodeOn, PointedAt, ListOf, NewLinks, LinksInside, SlotsBelow, PosAfter, Covered, Inums, Within, Extends, ListFits, Opened, Follows, Quarters, OnRecord, NewRefs, Ahead, Below, ValidBut;
      ZonesOnDevice();
      pos := pos0;
      ghost var all := AsIndirect(dev[zno]);
      NoneCovered(dev, sb, trace, ino, ip, all, level - 1, pos0);
      NoNewLinks(trace, trace, zno);
      NoNewRefs(trace, trace, ino);
      ghost var guided := Guided(ino, level - 1, pos0) && pos0 < ip.size && zno != 0 && ZoneCovered(dev, sb, record, ino, ip, zno, level, pos0);
      if guided { ZoneIsRecorded(dev, sb, record, ino, ip, zno, level, pos0); }
      ghost var expected := Mounted(N) && plan.OfIndirect? && ListFits(plan, dev, N, ip, zlist, level) && i < |zlist| && zno == zlist[i] && Opened(plan, dev, N, Now(), pos0, i);
      if expected { FirstQuarter(plan, dev, N, ip, zlist, level, Now(), pos, i); }
      var c := 0;
      while c < 4 && (c == 0 || pos < ip.size)
        invariant 0 <= c <= 4 && Valid() && Unset(inodeMap) <= old(Unset(inodeMap)) && StackKept() && AdvancedIn(zno, ino)
        invariant Owns(ino, ip) && Ref(ino, zno, level, pos0) in trace.refs
        invariant Fine() ==> pos == PosAfter(dev, ip.size, all, CINDIR * c, level - 1, pos0) && Covered(dev, sb, trace, ino, ip, all, CINDIR * c, level - 1, pos0)
        invariant (c == 0 ==> pos == pos0) && (guided ==> Guided(ino, level - 1, pos) && (c > 0 ==> Below(trace, ino, pos)))
        invariant expected ==> Quarters(dev, N, plan.s0, Now(), plan.m, plan.z, pos, c) && fatal == old(fatal)
      {
        var good;
        ghost var tr1 := trace;
        good, pos := NextQuarter(ino, ip, pos, zno, level, c, pos0, N, plan, zlist);
        InsideIsNew(tr1, trace, zno);
        NewLinksJoin(old(trace), tr1, trace, zno);
        NewRefsJoin(old(trace), tr1, trace, ino, ino);
        StillThere(tr1, trace, ino, Ref(ino, zno, level, pos0));
        if guided {
          OnRecordIsFine();
          BelowIsAhead(trace, ino, level - 1, pos);
        }
        if !good { return false, pos; }
        c := c + 1;
      }
      ok := true;
      if Fine() { RestCovered(dev, sb, trace, ino, ip, all, CINDIR * c, NR_INDIRECTS, level - 1, pos0); }
      if expected { LastQuarter(plan, dev, N, ip, zlist, Now(), pos, c); }
    }

    /** A quarter of an indirect block. */
    method NextQuarter(ino: nat, ip: Inode, pos1: nat, zno: nat, level: nat, c: nat, ghost pos0: nat, ghost N: nat, ghost plan: Plan, ghost zlist: seq<nat>)
      returns (ok: bool, pos: nat)
      requires Valid() && StackFor(ino) && 1 <= level <= 2 && FirstZoneNr() <= zno < sb.nzones && c < 4
      requires Owns(ino, ip) && PointedAt(dev, ip, zno, level)
      requires Fine() ==> StandsAt(dev, ip, zno, level, pos0) && pos1 == PosAfter(dev, ip.size, AsIndirect(dev[zno]), CINDIR * c, level - 1, pos0)
      modifies this
      ensures Valid() && Unset(inodeMap) <= old(Unset(inodeMap)) && StackKept() && Advanced(ino)
      ensures Fine() && old(Covered(dev, sb, trace, ino, ip, AsIndirect(dev[zno]), CINDIR * c, level - 1, pos0)) ==>
        && ok && pos == PosAfter(dev, ip.size, AsIndirect(dev[zno]), CINDIR * (c + 1), level - 1, pos0)
        && Covered(dev, sb, trace, ino, ip, AsIndirect(dev[zno]), CINDIR * (c + 1), level - 1, pos0)
      ensures level == 1 && old(QuarterExpected(ip, pos1, zno, c, N, plan, zlist, Now())) ==> ok && Quarters(dev, N, plan.s0, Now(), plan.m, plan.z, pos, c + 1) && fatal == old(fatal)
      ensures old(Guided(ino, level - 1, pos1)) && pos1 < ip.size && Covered(dev, sb, record, ino, ip, AsIndirect(dev[zno]), NR_INDIRECTS, level - 1, pos0) ==>
        OnRecord() && Below(trace, ino, pos)
      decreases Unset(inodeMap), 10 + 3 * level, 0
    {
      hide View, InFile, AsIndirect, Unset, DirsMarked, Nested, EnteredOnce, Tight, StandsAt, ListAt, Honest, Settled, InodeOn, PointedAt, ListOf, LinksInside, PosAfter, Covered, Inums, Within, Extends, ListFits, Follows, Quarters, NewRefs, Ahead, Below, OnRecord, QuarterExpected;
      var indirect := AsIndirect(dev[zno])[CINDIR * c..CINDIR * c + CINDIR];
      ghost var all, part := AsIndirect(dev[zno]), Unknown;
      ghost var expected := level == 1 && QuarterExpected(ip, pos1, zno, c, N, plan, zlist, Now());
      if expected {
        QuarterComes(ip, pos1, zno, c, N, plan, zlist, Now());
        part := OfFile(plan.s0, plan.m, plan.z, NR_DZONE_NUM + CINDIR * c);
      }
      ListBelow(dev, ip, zno, level, CINDIR * c, CINDIR * c + CINDIR);
      if Fine() { QuarterAt(dev, ip, zno, level, CINDIR * c, CINDIR * c + CINDIR, pos0); }
      if Guided(ino, level - 1, pos1) && Covered(dev, sb, record, ino, ip, all, NR_INDIRECTS, level - 1, pos0) {
        OnRecordIsFine();
        PieceIsRecorded(dev, sb, record, ino, ip, all, CINDIR * c, indirect, |indirect|, level - 1, pos0);
      }
      ok, pos := ChkZones(ino, ip, pos1, indirect, level - 1, N, part);
      if Fine() && old(Covered(dev, sb, trace, ino, ip, AsIndirect(dev[zno]), CINDIR * c, level - 1, pos0)) {
        QuarterCovered(dev, sb, old(trace), trace, ino, ip, all, CINDIR * c, indirect, level - 1, pos0);
      }
      if expected { QuarterEnds(dev, N, plan.s0, Now(), plan.m, plan.z, pos, c); }
    }

    ghost predicate QuarterExpected(ip: Inode, pos: nat, zno: nat, c: nat, N: nat, plan: Plan, zlist: seq<nat>, s: State) {
      && Mounted(N) && plan.OfIndirect? && zlist == [zno] && ListFits(plan, dev, N, ip, zlist, 1)
      && Quarters(dev, N, plan.s0, s, plan.m, plan.z, pos, c) && c < 4 && (c == 0 || pos < ip.size)
    }

    lemma QuarterComes(ip: Inode, pos: nat, zno: nat, c: nat, N: nat, plan: Plan, zlist: seq<nat>, s: State)
      requires QuarterExpected(ip, pos, zno, c, N, plan, zlist, s)
      ensures plan.OfIndirect? && Mounted(N) && zno < |dev| && NR_DZONE_NUM + CINDIR * c < plan.m
      ensures var part := OfFile(plan.s0, plan.m, plan.z, NR_DZONE_NUM + CINDIR * c);
        ListFits(part, dev, N, ip, AsIndirect(dev[zno])[CINDIR * c..CINDIR * c + CINDIR], 0) && Follows(part, dev, N, s, pos, 0)
    {
      hide ListFits, Follows, Quarters;
      QuarterOpens(plan, dev, N, ip, zlist, s, pos, c);
    }

    /** The directory on top of the stack, which the walk entered in state s0, with e entries done. */
    ghost predicate In(N: nat, s0: State, t: Node, n: nat, parent: nat, z: nat, e: nat, ready: bool)
      reads this
    {
      InAt(N, s0, Now(), t, n, parent, z, e, ready)
    }

    ghost predicate InAt(N: nat, s0: State, s: State, t: Node, n: nat, parent: nat, z: nat, e: nat, ready: bool) {
      Mounted(N) && t.DirNode? && Arrives(dev, N, s0, t, n, parent, z) && InDir(dev, N, s0, s, t, n, parent, z, e, ready)
    }

    /** chkdirzone(): a directory block, read in quarters. */
    method ChkDirZone(ino: nat, ip: Inode, pos0: nat, zno: nat, ghost N: nat, ghost plan: Plan, ghost zlist: seq<nat>, ghost i: nat)
      returns (ok: bool)
      requires Valid() && StackFor(ino) && FirstZoneNr() <= zno < sb.nzones
      requires Owns(ino, ip) && ip.kind == Directory && Marked(ino, zno, 0, pos0)
      modifies this
      ensures Valid() && Unset(inodeMap) <= old(Unset(inodeMap)) && StackKept() && AdvancedIn(zno, 0)
      ensures Fine() ==> ok && SlotsDone(dev, sb, trace, ino, ip.size, zno, pos0, 0, NR_DIR_ENTRIES)
      ensures Mounted(N) && plan.OfDir? && ListFits(plan, dev, N, ip, zlist, 0) && i < |zlist| && zno == zlist[i] && old(Opened(plan, dev, N, Now(), pos0, i)) ==>
        ok && InDir(dev, N, plan.s0, Now(), plan.t, plan.n, plan.parent, plan.z, Min(NR_DIR_ENTRIES * (i + 1), |plan.t.kids| + 2), false) && fatal == old(fatal)
      ensures old(OnRecord()) && pos0 < ip.size && SlotsDone(dev, sb, record, ino, ip.size, zno, pos0, 0, NR_DIR_ENTRIES) ==> OnRecord()
      decreases Unset(inodeMap), 9
    {
      hide View, Arrives, InDir, AsDir, DirEntry, NodeAt, Unset, DirsMarked, Nested, EnteredOnce, Tight, TightRef, TightLink, StandsAt, ListAt, Honest, Settled, InodeOn, NewLinks, LinksInside, SlotsBelow, SlotsDone, Inums, Within, Extends, ListFits, Opened, ChunksDone, OnRecord, NewRefs, ValidBut;
      ZonesOnDevice();
      NoNewLinks(trace, trace, zno);
      NoNewRefs(trace, trace, 0);
      ghost var guided := OnRecord() && pos0 < ip.size && SlotsDone(dev, sb, record, ino, ip.size, zno, pos0, 0, NR_DIR_ENTRIES);
      NoSlots(dev, sb, trace, ino, ip.size, zno, pos0);
      ghost var expected := Mounted(N) && plan.OfDir? && ListFits(plan, dev, N, ip, zlist, 0) && i < |zlist| && zno == zlist[i] && Opened(plan, dev, N, Now(), pos0, i);
      ghost var t, parent, z, s0 := DirNode(0, []), 0, 0, Now();
      if expected {
        t, parent, z, s0 := plan.t, plan.parent, plan.z, plan.s0;
        DirZoneStarts(plan, N, ip, ino, zlist, i, pos0);
      }
      var pos: nat := pos0;
      var c := 0;
      while c < 4 && (c == 0 || pos < ip.size)
        invariant 0 <= c <= 4 && Valid() && Unset(inodeMap) <= old(Unset(inodeMap)) && StackKept() && AdvancedIn(zno, 0)
        invariant Owns(ino, ip) && Ref(ino, zno, 0, pos0) in trace.refs
        invariant SlotsBelow(trace, zno, CDIRECT * c) && (c == 0 ==> pos == pos0) && (pos == pos0 + 16 * CDIRECT * c || ip.size <= pos <= pos0 + 16 * CDIRECT * c)
        invariant Fine() ==> SlotsDone(dev, sb, trace, ino, ip.size, zno, pos0, 0, CDIRECT * c)
        invariant guided ==> OnRecord()
        invariant expected ==> fatal == old(fatal) && ChunksDone(N, s0, t, ino, parent, z, i, c, pos)
      {
        ghost var tr1 := trace;
        ok, pos := NextChunk(ino, ip, pos, zno, c, pos0, N, s0, t, parent, z, i);
        NewLinksJoin(old(trace), tr1, trace, zno);
        NewRefsJoin(old(trace), tr1, trace, 0, 0);
        StillThere(tr1, trace, ino, Ref(ino, zno, 0, pos0));
        if guided { OnRecordIsFine(); }
        if !ok { return; }
        c := c + 1;
      }
      ok := true;
      if Fine() && c < 4 { LastChunkDone(dev, sb, trace, ino, ip.size, zno, pos0, CDIRECT * c); }
      if expected { ChunksEnd(N, s0, t, ino, parent, z, i, c, pos, ip.size); }
    }

    /** A quarter of a directory block. */
    method NextChunk(ino: nat, ip: Inode, pos1: nat, zno: nat, c: nat, ghost pos0: nat, ghost N: nat, ghost s0: State, ghost t: Node, ghost parent: nat, ghost z: nat, ghost i: nat)
      returns (ok: bool, pos: nat)
      requires Valid() && StackFor(ino) && FirstZoneNr() <= zno < sb.nzones && c < 4 && pos1 == pos0 + 16 * CDIRECT * c
      requires Owns(ino, ip) && ip.kind == Directory && Ref(ino, zno, 0, pos0) in trace.refs && SlotsBelow(trace, zno, CDIRECT * c)
      modifies this
      ensures Valid() && Unset(inodeMap) <= old(Unset(inodeMap)) && StackKept() && AdvancedIn(zno, 0)
      ensures SlotsBelow(trace, zno, CDIRECT * (c + 1)) && (ok ==> pos == pos1 + 16 * CDIRECT || ip.size <= pos <= pos1 + 16 * CDIRECT)
      ensures Fine() && old(SlotsDone(dev, sb, trace, ino, ip.size, zno, pos0, 0, CDIRECT * c)) ==> ok && SlotsDone(dev, sb, trace, ino, ip.size, zno, pos0, 0, CDIRECT * (c + 1))
      ensures old(NextChunkExpected(ino, ip, pos1, zno, c, N, s0, t, parent, z, i)) ==> ok && ChunksDone(N, s0, t, ino, parent, z, i, c + 1, pos) && fatal == old(fatal)
      ensures old(OnRecord()) && pos1 < ip.size && SlotsDone(dev, sb, record, ino, ip.size, zno, pos0, 0, NR_DIR_ENTRIES) ==> OnRecord()
      decreases Unset(inodeMap), 9, 0
    {
      hide AsDir, Unset, DirsMarked, Nested, EnteredOnce, Tight, Honest, Settled, InodeOn, NewLinks, SlotsBelow, SlotsDone, Inums, Within, Extends, ChunkExpected, ChunkOver, ChunksDone, OnRecord, NewRefs, NextChunkExpected;
      var dirblk := AsDir(dev[zno])[CDIRECT * c..CDIRECT * c + CDIRECT];
      ghost var expected := NextChunkExpected(ino, ip, pos1, zno, c, N, s0, t, parent, z, i);
      if expected { ChunkComes(ino, ip, pos1, zno, c, N, s0, t, parent, z, i); }
      if SlotsDone(dev, sb, record, ino, ip.size, zno, pos0, 0, NR_DIR_ENTRIES) {
        SlotsPart(dev, sb, record, ino, ip.size, zno, pos0, NR_DIR_ENTRIES, CDIRECT * c, CDIRECT * c + CDIRECT);
      }
      ghost var done := SlotsDone(dev, sb, trace, ino, ip.size, zno, pos0, 0, CDIRECT * c);
      ok, pos := ChkDirChunk(ino, ip, pos1, dirblk, N, s0, t, parent, z, i, NR_DIR_ENTRIES * i + CDIRECT * c, zno, pos0, CDIRECT * c);
      if Fine() && done { ChunkDone(dev, sb, old(trace), trace, ino, ip.size, zno, pos0, CDIRECT * c, CDIRECT * c + CDIRECT); }
      if expected { ChunkEnds(N, s0, t, ino, parent, z, i, c, pos); }
    }

    ghost predicate NextChunkExpected(ino: nat, ip: Inode, pos: nat, zno: nat, c: nat, N: nat, s0: State, t: Node, parent: nat, z: nat, i: nat)
      reads this
    {
      && ChunksDone(N, s0, t, ino, parent, z, i, c, pos) && c < 4 && i < DirBlocks(|t.kids|) && (c == 0 || pos < ip.size)
      && ino < |View(dev, N).tab| && ip == View(dev, N).tab[ino] && zno == z + DirZone(t, i)
    }

    lemma ChunkComes(ino: nat, ip: Inode, pos: nat, zno: nat, c: nat, N: nat, s0: State, t: Node, parent: nat, z: nat, i: nat)
      requires zno < |dev| && NextChunkExpected(ino, ip, pos, zno, c, N, s0, t, parent, z, i)
      ensures t.DirNode? && c < 4 && NR_DIR_ENTRIES * i < |t.kids| + 2
      ensures ChunkExpected(ino, ip, pos, AsDir(dev[zno])[CDIRECT * c..CDIRECT * c + CDIRECT], N, s0, t, parent, z, i, NR_DIR_ENTRIES * i + CDIRECT * c)
    {
      hide View, AsDir, In, ChunkExpected;
      ChunkRead(N, s0, t, ino, parent, z, i, c, pos, ip, AsDir(dev[zno])[CDIRECT * c..CDIRECT * c + CDIRECT]);
    }

    /** c quarters of the i-th block of a directory are done. */
    ghost predicate ChunksDone(N: nat, s0: State, t: Node, n: nat, parent: nat, z: nat, i: nat, c: nat, pos: nat)
      reads this
    {
      t.DirNode? && NR_DIR_ENTRIES * i < |t.kids| + 2 &&
      var e := Min(NR_DIR_ENTRIES * i + CDIRECT * c, |t.kids| + 2);
      pos == 16 * e && In(N, s0, t, n, parent, z, e, c == 0)
    }

    lemma ChunkEnds(N: nat, s0: State, t: Node, n: nat, parent: nat, z: nat, i: nat, c: nat, pos: nat)
      requires t.DirNode? && c < 4 && NR_DIR_ENTRIES * i < |t.kids| + 2
      requires ChunkOver(N, s0, t, n, parent, z, NR_DIR_ENTRIES * i + CDIRECT * c, pos)
      ensures ChunksDone(N, s0, t, n, parent, z, i, c + 1, pos)
    {
      hide In;
    }

    lemma ChunksEnd(N: nat, s0: State, t: Node, n: nat, parent: nat, z: nat, i: nat, c: nat, pos: nat, size: nat)
      requires 1 <= c <= 4 && ChunksDone(N, s0, t, n, parent, z, i, c, pos) && size == 16 * (|t.kids| + 2) && (c == 4 || pos >= size)
      ensures InDir(dev, N, s0, Now(), t, n, parent, z, Min(NR_DIR_ENTRIES * (i + 1), |t.kids| + 2), false)
    {
      hide InDir, Arrives;
    }

    lemma DirZoneStarts(plan: Plan, N: nat, ip: Inode, ino: nat, zlist: seq<nat>, i: nat, pos: nat)
      requires Mounted(N) && plan.OfDir? && ListFits(plan, dev, N, ip, zlist, 0) && i < |zlist|
      requires Opened(plan, dev, N, Now(), pos, i) && StackFor(ino)
      ensures ino == plan.n && ino < |View(dev, N).tab| && ip == View(dev, N).tab[ino]
      ensures plan.t.DirNode? && ChunksDone(N, plan.s0, plan.t, ino, plan.parent, plan.z, i, 0, pos)
      ensures ip.size == 16 * (|plan.t.kids| + 2) && i < DirBlocks(|plan.t.kids|) && NR_DIR_ENTRIES * i < |plan.t.kids| + 2
      ensures zlist[i] == plan.z + DirZone(plan.t, i)
    {
      hide View, Arrives, NodeAt, Unset;
      DirSize(dev, N, plan.s0, plan.t, plan.n, plan.parent, plan.z);
      hide Reached, Mid, Unset;
    }

    lemma ChunkRead(N: nat, s0: State, t: Node, n: nat, parent: nat, z: nat, i: nat, c: nat, pos: nat, ip: Inode, dirblk: seq<Entry>)
      requires ChunksDone(N, s0, t, n, parent, z, i, c, pos) && c < 4 && i < DirBlocks(|t.kids|)
      requires c == 0 || pos < ip.size
      requires n < |View(dev, N).tab| && ip == View(dev, N).tab[n]
      requires z + DirZone(t, i) < |dev| && dirblk == AsDir(dev[z + DirZone(t, i)])[CDIRECT * c..CDIRECT * c + CDIRECT]
      ensures ChunkExpected(n, ip, pos, dirblk, N, s0, t, parent, z, i, NR_DIR_ENTRIES * i + CDIRECT * c)
    {
      var e0 := NR_DIR_ENTRIES * i + CDIRECT * c;
      hide View, Arrives, InDir, AsDir, DirEntry, NodeAt, Unset;
      DirSize(dev, N, s0, t, n, parent, z);
      forall j | 0 <= j < CDIRECT && e0 + j < |t.kids| + 2 ensures dirblk[j] == DirEntry(t, |t.kids|, n, parent, e0 + j) {
        BlockRead(dev, N, s0, t, n, parent, z, i, e0 + j);
      }
    }

    /** The quarter that begins with entry e0 is done, or what there is of it. */
    ghost predicate ChunkOver(N: nat, s0: State, t: Node, n: nat, parent: nat, z: nat, e0: nat, pos: nat)
      reads this
    {
      t.DirNode? &&
      var e := Min(e0 + CDIRECT, |t.kids| + 2);
      pos == 16 * e && In(N, s0, t, n, parent, z, e, false)
    }

    lemma ChunkBegins(ino: nat, ip: Inode, pos: nat, dirblk: seq<Entry>, N: nat, s0: State, t: Node, parent: nat, z: nat, i: nat, e0: nat)
      requires ChunkExpected(ino, ip, pos, dirblk, N, s0, t, parent, z, i, e0)
      ensures SlotGoes(ino, ip, pos, dirblk, 0, N, s0, t, parent, z, i, e0)
    {
      hide In, EntriesRead;
    }

    lemma SlotComes(ino: nat, ip: Inode, pos: nat, dirblk: seq<Entry>, j: nat, N: nat, s0: State, t: Node, parent: nat, z: nat, i: nat, e0: nat)
      requires SlotGoes(ino, ip, pos, dirblk, j, N, s0, t, parent, z, i, e0)
      ensures j < |dirblk| && EntryExpected(ino, pos, dirblk[j], N, s0, t, parent, z, e0 + j) && dirblk[j].inum != 0 && ip.size - pos >= 16
      ensures SlotFits(ino, ip, pos, dirblk, j, t, parent, i, e0)
    {
      hide Arrives, InDir, DirEntry;
      ReadyAnyway(dev, N, s0, Now(), t, ino, parent, z, e0 + j, i);
      EntryUsed(dev, N, s0, t, ino, parent, z, e0 + j);
    }

    lemma SlotGone(ino: nat, ip: Inode, pos: nat, dirblk: seq<Entry>, j: nat, N: nat, s0: State, t: Node, parent: nat, z: nat, i: nat, e0: nat)
      requires SlotFits(ino, ip, pos, dirblk, j, t, parent, i, e0) && In(N, s0, t, ino, parent, z, e0 + j + 1, false)
      ensures if pos + 16 >= ip.size || j + 1 == CDIRECT then ChunkOver(N, s0, t, ino, parent, z, e0, pos + 16)
              else SlotGoes(ino, ip, pos + 16, dirblk, j + 1, N, s0, t, parent, z, i, e0)
    {
      hide In, EntriesRead;
    }

    /** A quarter of a directory block. */
    method ChkDirChunk(ino: nat, ip: Inode, pos0: nat, dirblk: seq<Entry>,
                       ghost N: nat, ghost s0: State, ghost t: Node, ghost parent: nat, ghost z: nat, ghost i: nat, ghost e0: nat,
                       ghost zno: nat, ghost zpos: nat, ghost base: nat)
      returns (ok: bool, pos: nat)
      requires Valid() && StackFor(ino) && |dirblk| == CDIRECT
      requires Owns(ino, ip) && ip.kind == Directory && Ref(ino, zno, 0, zpos) in trace.refs && zno < |dev| && SlotsBelow(trace, zno, base)
      requires base + CDIRECT <= NR_DIR_ENTRIES && dirblk == AsDir(dev[zno])[base..base + CDIRECT] && pos0 == zpos + 16 * base
      modifies this
      ensures Valid() && Unset(inodeMap) <= old(Unset(inodeMap)) && StackKept() && pos >= pos0 && AdvancedIn(zno, 0)
      ensures SlotsBelow(trace, zno, base + CDIRECT) && (ok ==> pos == pos0 + 16 * CDIRECT || ip.size <= pos <= pos0 + 16 * CDIRECT)
      ensures Fine() ==> ok && SlotsDone(dev, sb, trace, ino, ip.size, zno, zpos, base, base + CDIRECT)
      ensures old(ChunkExpected(ino, ip, pos0, dirblk, N, s0, t, parent, z, i, e0)) ==>
        ok && ChunkOver(N, s0, t, ino, parent, z, e0, pos) && fatal == old(fatal)
      ensures old(OnRecord()) && pos0 < ip.size && SlotsDone(dev, sb, record, ino, ip.size, zno, zpos, base, base + CDIRECT) ==> OnRecord()
      decreases Unset(inodeMap), 8
    {
      hide Arrives, InDir, AsDir, DirBlock, View, DirEntry, Unset, DirsMarked, Nested, EnteredOnce, Tight, TightRef, TightLink, StandsAt, ListAt, Honest, Settled, InodeOn, NewLinks, LinksInside, SlotsBelow, SlotsDone, EntryDone, Inums, Within, Extends, In, SlotGoes, ChunkExpected, ChunkOver, OnRecord, NewRefs, ValidBut;
      NoNewLinks(trace, trace, zno);
      NoNewRefs(trace, trace, 0);
      ghost var guided := OnRecord() && pos0 < ip.size && SlotsDone(dev, sb, record, ino, ip.size, zno, zpos, base, base + CDIRECT);
      NoneBetween(dev, sb, trace, ino, ip.size, zno, zpos, base);
      ghost var expected := ChunkExpected(ino, ip, pos0, dirblk, N, s0, t, parent, z, i, e0);
      if expected { ChunkBegins(ino, ip, pos0, dirblk, N, s0, t, parent, z, i, e0); }
      pos := pos0;
      var j := 0;
      while j < CDIRECT
        invariant 0 <= j <= CDIRECT && Valid() && Unset(inodeMap) <= old(Unset(inodeMap)) && StackKept() && pos == pos0 + 16 * j
        invariant AdvancedIn(zno, 0) && SlotsBelow(trace, zno, base + j) && Owns(ino, ip) && Ref(ino, zno, 0, zpos) in trace.refs
        invariant Fine() ==> SlotsDone(dev, sb, trace, ino, ip.size, zno, zpos, base, base + j)
        invariant guided ==> OnRecord() && (j < CDIRECT ==> pos < ip.size)
        invariant expected ==> fatal == old(fatal) && if j == CDIRECT then ChunkOver(N, s0, t, ino, parent, z, e0, pos) else SlotGoes(ino, ip, pos, dirblk, j, N, s0, t, parent, z, i, e0)
      {
        ok := ChkSlot(ino, ip, pos, dirblk, j, N, s0, t, parent, z, i, e0, zno, zpos, base, old(trace));
        SlotsBelowMore(trace, zno, base + j + 1, base + CDIRECT);
        if !ok { return; }
        pos := pos + 16;
        if pos >= ip.size {
          SlotsBehind(dev, sb, trace, ino, ip.size, zno, zpos, base + j + 1, base + CDIRECT);
          if Fine() { SlotsJoin(dev, sb, trace, ino, ip.size, zno, zpos, base, base + j + 1, base + CDIRECT); }
          return;
        }
        j := j + 1;
      }
      ok := true;
    }

    /** Entry e is next, and is the one read. */
    ghost predicate EntryExpected(ino: nat, pos: nat, dp: Entry, N: nat, s0: State, t: Node, parent: nat, z: nat, e: nat)
      reads this
    {
      In(N, s0, t, ino, parent, z, e, true) && e < |t.kids| + 2 && dp == DirEntry(t, |t.kids|, ino, parent, e) && pos == 16 * e
    }

    /** One slot: an entry in use is looked at. */
    method ChkSlot(ino: nat, ip: Inode, pos: nat, dirblk: seq<Entry>, j: nat,
                   ghost N: nat, ghost s0: State, ghost t: Node, ghost parent: nat, ghost z: nat, ghost i: nat, ghost e0: nat,
                   ghost zno: nat, ghost zpos: nat, ghost base: nat, ghost start: Trace)
      returns (ok: bool)
      requires Valid() && StackFor(ino) && |dirblk| == CDIRECT && j < CDIRECT
      requires Extends(start, trace) && NewLinks(start, trace, zno) && NewRefs(start, trace, 0)
      requires Owns(ino, ip) && ip.kind == Directory && Ref(ino, zno, 0, zpos) in trace.refs && zno < |dev| && SlotsBelow(trace, zno, base + j)
      requires base + CDIRECT <= NR_DIR_ENTRIES && dirblk == AsDir(dev[zno])[base..base + CDIRECT] && pos == zpos + 16 * (base + j)
      modifies this
      ensures Valid() && Unset(inodeMap) <= old(Unset(inodeMap)) && StackKept() && (Fine() ==> ok && old(Fine()))
      ensures Extends(start, trace) && NewLinks(start, trace, zno) && NewRefs(start, trace, 0)
      ensures SlotsBelow(trace, zno, base + j + 1) && Owns(ino, ip) && Ref(ino, zno, 0, zpos) in trace.refs
      ensures Fine() && old(SlotsDone(dev, sb, trace, ino, ip.size, zno, zpos, base, base + j)) ==> SlotsDone(dev, sb, trace, ino, ip.size, zno, zpos, base, base + j + 1)
      ensures old(SlotGoes(ino, ip, pos, dirblk, j, N, s0, t, parent, z, i, e0)) ==>
        && ok && fatal == old(fatal)
        && if pos + 16 >= ip.size || j + 1 == CDIRECT then ChunkOver(N, s0, t, ino, parent, z, e0, pos + 16)
           else SlotGoes(ino, ip, pos + 16, dirblk, j + 1, N, s0, t, parent, z, i, e0)
      ensures old(OnRecord()) && pos < ip.size && SlotsDone(dev, sb, record, ino, ip.size, zno, zpos, base, base + CDIRECT) ==> ok && OnRecord()
      decreases Unset(inodeMap), 7, 1
    {
      hide Honest, Settled, DirsMarked, Nested, EnteredOnce, Tight, InodeOn, NewLinks, SlotsBelow, SlotsDone, AsDir, EntryDone, Within, Inums, Unset, In, EntryExpected, SlotGoes, SlotFits, ChunkOver, Extends, NewRefs, OnRecord, SlotDone;
      var dp := dirblk[j];
      assert dp == AsDir(dev[zno])[base + j];
      SlotsBelowMore(trace, zno, base + j, base + j + 1);
      NoNewLinks(trace, trace, zno);
      ghost var guided := OnRecord() && pos < ip.size && SlotsDone(dev, sb, record, ino, ip.size, zno, zpos, base, base + CDIRECT);
      if guided {
        OnRecordIsFine();
        RecordedSlot(dev, sb, record, ino, ip.size, zno, zpos, base, base + CDIRECT, base + j);
        if dp.inum != 0 { EntryOfSlot(dev, sb, record, ino, ip.size, zno, zpos, base + j); }
      }
      ghost var done := SlotsDone(dev, sb, trace, ino, ip.size, zno, zpos, base, base + j);
      ghost var expected := SlotGoes(ino, ip, pos, dirblk, j, N, s0, t, parent, z, i, e0);
      if expected { SlotComes(ino, ip, pos, dirblk, j, N, s0, t, parent, z, i, e0); }
      if ip.size - pos < 16 {
        clean := false;
        return false;
      }
      if dp.inum != 0 { ChkEntry(ino, ip, pos, dp, N, s0, t, parent, z, e0 + j, zno, zpos, base + j); }
      StillThere(old(trace), trace, ino, Ref(ino, zno, 0, zpos));
      NewLinksJoin(start, old(trace), trace, zno);
      NewRefsJoin(start, old(trace), trace, 0, 0);
      if Fine() && done { OneSlotDone(dev, sb, old(trace), trace, ino, ip.size, zno, zpos, base, base + j); }
      if expected { SlotGone(ino, ip, pos, dirblk, j, N, s0, t, parent, z, i, e0); }
      ok := true;
    }

    /** The j-th entry of the quarter is next. */
    ghost predicate SlotGoes(ino: nat, ip: Inode, pos: nat, dirblk: seq<Entry>, j: nat, N: nat, s0: State, t: Node, parent: nat, z: nat, i: nat, e0: nat)
      reads this
    {
      SlotFits(ino, ip, pos, dirblk, j, t, parent, i, e0) && In(N, s0, t, ino, parent, z, e0 + j, e0 + j == NR_DIR_ENTRIES * i)
    }

    ghost predicate SlotFits(ino: nat, ip: Inode, pos: nat, dirblk: seq<Entry>, j: nat, t: Node, parent: nat, i: nat, e0: nat) {
      && t.DirNode? && EntriesRead(ino, dirblk, t, parent, e0) && j < CDIRECT && e0 + j < |t.kids| + 2 && ip.size == 16 * (|t.kids| + 2)
      && NR_DIR_ENTRIES * i <= e0 && e0 + CDIRECT <= NR_DIR_ENTRIES * (i + 1) && pos == 16 * (e0 + j)
    }

    ghost predicate ChunkExpected(ino: nat, ip: Inode, pos: nat, dirblk: seq<Entry>, N: nat, s0: State, t: Node, parent: nat, z: nat, i: nat, e0: nat)
      reads this
    {
      && t.DirNode? && e0 < |t.kids| + 2 && NR_DIR_ENTRIES * i <= e0 && e0 + CDIRECT <= NR_DIR_ENTRIES * (i + 1)
      && In(N, s0, t, ino, parent, z, e0, e0 == NR_DIR_ENTRIES * i)
      && pos == 16 * e0 && ip.size == 16 * (|t.kids| + 2) && EntriesRead(ino, dirblk, t, parent, e0)
    }

    /** The entries from the e0-th on. */
    ghost predicate EntriesRead(ino: nat, dirblk: seq<Entry>, t: Node, parent: nat, e0: nat) {
      && t.DirNode? && |dirblk| == CDIRECT
      && (forall j :: 0 <= j < CDIRECT && e0 + j < |t.kids| + 2 ==> dirblk[j] == DirEntry(t, |t.kids|, ino, parent, e0 + j))
    }

    /** chkentry() */
    method ChkEntry(ino: nat, ghost ip: Inode, pos: nat, dp: Entry, ghost N: nat, ghost s0: State, ghost t: Node, ghost parent: nat, ghost z: nat, ghost e: nat,
                    ghost zno: nat, ghost zpos: nat, ghost slot: nat)
      requires Valid() && StackFor(ino) && pos == zpos + 16 * slot
      requires Owns(ino, ip) && ip.kind == Directory && Ref(ino, zno, 0, zpos) in trace.refs && zno < |dev| && SlotsBelow(trace, zno, slot)
      requires slot < NR_DIR_ENTRIES && dp == AsDir(dev[zno])[slot] && dp.inum != 0 && pos < ip.size
      modifies this
      ensures Valid() && Unset(inodeMap) <= old(Unset(inodeMap)) && StackKept() && AdvancedIn(zno, 0)
      ensures SlotsBelow(trace, zno, slot + 1)
      ensures Fine() ==> EntryDone(sb, trace, ino, zno, zpos, slot, dp)
      ensures old(EntryExpected(ino, pos, dp, N, s0, t, parent, z, e)) ==>
        In(N, s0, t, ino, parent, z, e + 1, false) && fatal == old(fatal)
      ensures old(OnRecord()) && EntryDone(sb, record, ino, zno, zpos, slot, dp) ==> OnRecord()
      decreases Unset(inodeMap), 7, 0
    {
      hide View, Arrives, InDir, DirEntry, NodeAt, Unset, DirsMarked, Nested, EnteredOnce, Tight, TightRef, TightLink, StandsAt, ListAt, Honest, Settled, InodeOn, NewLinks, LinksInside, SlotsBelow, AsDir, NamedIn, IsDot, IsDotDot, HasSlash, Inums, Within, Extends, LeadsBack, Awaited, EntryExpected, NextIn, Counted, In, Bump, Guide, Inside, DirsOnly, DotsNoted, NewRefs, Ahead, Below, OnRecordTo, DotFits, NotedNext, EntryDone;
      NoNewLinks(trace, trace, zno);
      NoNewRefs(trace, trace, 0);
      ghost var l0 := Link(zno, slot, dp.inum, IsPlain(dp), ino, zpos);
      ghost var guided := OnRecord() && EntryDone(sb, record, ino, zno, zpos, slot, dp);
      if guided { EntryIsOnRecord(ino, ip, pos, dp, zno, zpos, slot); }
      SlotsBelowMore(trace, zno, slot, slot + 1);
      ghost var expected := EntryExpected(ino, pos, dp, N, s0, t, parent, z, e);
      ghost var s := Now();
      if expected { EntryWillDo(ino, pos, dp, N, s0, t, parent, z, e); }
      if dp.inum < ROOT_INODE || dp.inum > sb.ninodes {
        clean := false;
        return;
      }
      if count[dp.inum] == LINK_MAX { clean := false; }
      ghost var l, tr0 := l0, trace;
      CountEntry(ino, ip, dp, zno, zpos, slot);
      ghost var tr1 := trace;
      NoNewRefs(tr0, tr1, 0);
      if expected { EntryIsCounted(ino, pos, dp, N, s, s0, t, parent, z, e); }
      if guided { EntryIsNoted(ino, pos, dp, l); }
      ChkCounted(ino, pos, dp, N, s, s0, t, parent, z, e, zno, zpos, slot);
      NewRefsJoin(tr0, tr1, trace, 0, 0);
      LinkStays(dev, sb, tr0, tr1, trace, l, inodeMap, zoneMap, count);
    }

    lemma EntryIsNoted(ino: nat, pos: nat, dp: Entry, l: Link)
      requires trace.links != [] && l == trace.links[|trace.links|-1] && l.zno < |dev| && l.slot < NR_DIR_ENTRIES && dp == AsDir(dev[l.zno])[l.slot]
      requires OnRecordTo(|trace.links| - 1) && DotFits(ino, pos, dp)
      requires IsPlain(dp) ==> dp.name[0] != '\0' && !HasSlash(dp.name) && dp.inum in record.met && dp.inum < |dirMap| && !dirMap[dp.inum]
      ensures NotedNext(ino, pos, dp)
    {
      hide OnRecordTo, DotFits, HasSlash, IsDot, IsDotDot, AsDir;
    }

    /** An entry that has just been counted is on the record. */
    ghost predicate NotedNext(ino: nat, pos: nat, dp: Entry)
      reads this`clean, this`fatal, this`trace, this`dirMap, this`stack
    {
      && trace.links != [] && OnRecordTo(|trace.links| - 1) && DotFits(ino, pos, dp) && NameOf(dev, trace.links[|trace.links|-1]) == dp.name
      && (IsPlain(dp) ==> NameIsNext(dp))
    }

    /** The part of chkentry() behind the count. */
    method ChkCounted(ino: nat, pos: nat, dp: Entry, ghost N: nat, ghost s: State, ghost s0: State, ghost t: Node, ghost parent: nat, ghost z: nat, ghost e: nat,
                      ghost zno: nat, ghost zpos: nat, ghost slot: nat)
      requires StackFor(ino) && 1 <= dp.inum <= sb.ninodes && pos == zpos + 16 * slot && (if IsPlain(dp) then ValidBefore(dp.inum) else Valid())
      requires trace.links != [] && trace.links[|trace.links|-1] == Link(zno, slot, dp.inum, IsPlain(dp), ino, zpos)
      modifies this
      ensures Valid() && Unset(inodeMap) <= old(Unset(inodeMap)) && StackKept() && Advanced(0)
      ensures Fine() ==> EntryDone(sb, trace, ino, zno, zpos, slot, dp)
      ensures old(Counted(ino, pos, dp, N, s, s0, t, parent, z, e)) ==> In(N, s0, t, ino, parent, z, e + 1, false) && fatal == old(fatal)
      ensures old(NotedNext(ino, pos, dp)) ==> OnRecord()
      decreases Unset(inodeMap), 6, 2
    {
      hide Unset, DirsMarked, Nested, EnteredOnce, Tight, Honest, Settled, LinksInside, IsDot, IsDotDot, HasSlash, Inums, Within, LeadsBack, Awaited, CountedIn, Guide, Inside, DirsOnly, DotsNoted, NewRefs, OnRecordTo, DotFits, In, NameOf, NameIsNext;
      NoNewLinks(trace, trace, zno);
      NoNewRefs(trace, trace, 0);
      if IsDot(dp.name) || IsDotDot(dp.name) {
        ChkDotEntry(ino, pos, dp, N, s, s0, t, parent, z, e);
      } else {
        if Counted(ino, pos, dp, N, s, s0, t, parent, z, e) { CountedAt(ino, pos, dp, N, s, s0, t, parent, z, e, Now()); }
        ChkNamedEntry(ino, dp, N, s, s0, t, parent, z, e);
      }
    }

    lemma CountedAt(ino: nat, pos: nat, dp: Entry, N: nat, s: State, s0: State, t: Node, parent: nat, z: nat, e: nat, s1: State)
      requires CountedIn(ino, pos, dp, N, s, s0, t, parent, z, e, s1)
      ensures pos == 16 * e
    {
      hide Arrives, InDir, DirEntry, EntryLooks, Bump;
    }

    /** In state s, entry e is next, and is the one read. */
    ghost predicate NextIn(ino: nat, pos: nat, dp: Entry, N: nat, s: State, s0: State, t: Node, parent: nat, z: nat, e: nat) {
      && Mounted(N) && t.DirNode? && Arrives(dev, N, s0, t, ino, parent, z) && e < |t.kids| + 2
      && InDir(dev, N, s0, s, t, ino, parent, z, e, true) && dp == DirEntry(t, |t.kids|, ino, parent, e) && pos == 16 * e
    }

    lemma EntryWillDo(ino: nat, pos: nat, dp: Entry, N: nat, s0: State, t: Node, parent: nat, z: nat, e: nat)
      requires EntryExpected(ino, pos, dp, N, s0, t, parent, z, e)
      ensures NextIn(ino, pos, dp, N, Now(), s0, t, parent, z, e) && pos == 16 * e
      ensures 1 <= dp.inum <= sb.ninodes && dp.inum < |count| && count[dp.inum] != LINK_MAX
    {
      hide Arrives, InDir, DirEntry;
      EntryIsFine(dev, N, s0, Now(), t, ino, parent, z, e);
    }

    lemma EntryIsCounted(ino: nat, pos: nat, dp: Entry, N: nat, s: State, s0: State, t: Node, parent: nat, z: nat, e: nat)
      requires NextIn(ino, pos, dp, N, s, s0, t, parent, z, e) && Now() == s.(count := Bump(s.count, dp.inum))
      ensures Counted(ino, pos, dp, N, s, s0, t, parent, z, e)
    {
      hide Arrives, InDir, DirEntry, EntryLooks;
      EntryIsFine(dev, N, s0, s, t, ino, parent, z, e);
    }

    /** "." names the directory itself, and ".." the one below it on the stack. */
    ghost predicate DotFits(ino: nat, pos: nat, dp: Entry)
      reads this`stack
    {
      && (IsDot(dp.name) ==> dp.inum == ino && pos == 0)
      && (!IsDot(dp.name) && IsDotDot(dp.name) ==> pos == 16 && (ino != ROOT_INODE ==> |stack| >= 2) && dp.inum == if ino == ROOT_INODE then ino else stack[1].inum)
    }

    /** An entry on the record: its count is not at the limit, it fits if it is "." or "..", and else does not name a marked directory. */
    lemma EntryIsOnRecord(ino: nat, ip: Inode, pos: nat, dp: Entry, zno: nat, zpos: nat, slot: nat)
      requires Valid() && StackFor(ino) && pos == zpos + 16 * slot && Owns(ino, ip) && ip.kind == Directory && SlotsBelow(trace, zno, slot)
      requires OnRecord() && EntryDone(sb, record, ino, zno, zpos, slot, dp)
      ensures 1 <= dp.inum <= sb.ninodes && dp.inum < |count| && count[dp.inum] != LINK_MAX && Link(zno, slot, dp.inum, IsPlain(dp), ino, zpos) in record.links
      ensures DotFits(ino, pos, dp)
      ensures IsPlain(dp) ==> dp.name[0] != '\0' && !HasSlash(dp.name) && dp.inum in record.met && dp.inum < |dirMap| && !dirMap[dp.inum]
    {
      hide Honest, Settled, Consistent, DotsStand, Inside, DirsOnly, DotsNoted, DirsMarked, EnteredOnce, Tight, InodeOn, IsDot, IsDotDot, HasSlash, NamedFrom, Nested, Inums, SlotsBelow, EntryDone;
      ghost var l := Link(zno, slot, dp.inum, IsPlain(dp), ino, zpos);
      EntryParts(sb, record, ino, zno, zpos, slot, dp);
      BelowIsNew(trace, l);
      CountIsLow(dev, sb, record, trace, inodeMap, zoneMap, count, l);
      if IsPlain(dp) {
        NotMarkedYet(dev, sb, record, trace, inodeMap, zoneMap, count, dirMap, l);
      } else if !IsDot(dp.name) && ino != ROOT_INODE {
        TopIsNested(trace.links, stack);
        ParentIsRight(dev, sb, record, trace, ino, stack[1].inum, dp.inum);
      }
    }

    /** count[dp->d_inum]++ */
    method CountEntry(ghost ino: nat, ghost ip: Inode, dp: Entry, ghost zno: nat, ghost zpos: nat, ghost slot: nat)
      requires Valid() && 1 <= dp.inum <= sb.ninodes && (Fine() ==> count[dp.inum] != LINK_MAX)
      requires Owns(ino, ip) && ip.kind == Directory && Ref(ino, zno, 0, zpos) in trace.refs && zno < |dev| && SlotsBelow(trace, zno, slot)
      requires slot < NR_DIR_ENTRIES && dp == AsDir(dev[zno])[slot] && dp.inum != 0 && zpos + 16 * slot < ip.size
      modifies this`count, this`trace
      ensures count == Bump(old(count), dp.inum) && if IsPlain(dp) then ValidBefore(dp.inum) else Valid()
      ensures trace == old(trace).(links := old(trace).links + [Link(zno, slot, dp.inum, IsPlain(dp), ino, zpos)])
      ensures Extends(old(trace), trace) && NewLinks(old(trace), trace, zno) && SlotsBelow(trace, zno, slot + 1)
      ensures Link(zno, slot, dp.inum, IsPlain(dp), ino, zpos) in trace.links
      ensures old(OnRecord()) && Link(zno, slot, dp.inum, IsPlain(dp), ino, zpos) in record.links ==> OnRecordTo(|trace.links| - 1)
    {
      hide Honest, Settled, InodeOn, NewLinks, SlotsBelow, AsDir, NamedIn, Unset, Inums, Bump, Within, DirsMarked, Nested, EnteredOnce, Tight, TightRef, TightLink, StandsAt, ListAt, Guide, Inside, DirsOnly, DotsNoted, NewRefs, Ahead, Below;
      ghost var l := Link(zno, slot, dp.inum, IsPlain(dp), ino, zpos);
      ghost var tr1 := trace.(links := trace.links + [l]);
      EntryIsLink(dev, sb, trace, ino, ip, zno, zpos, slot, dp);
      OneLink(dev, sb, trace, inodeMap, zoneMap, count, l);
      CountsAre(dev, sb, trace, inodeMap, zoneMap, count);
      LinkAdded(trace, tr1, l);
      StillNested(trace.links, tr1.links, Inums(stack));
      if Fine() {
        OneMoreEntered(dev, sb, trace.met, trace.links, l);
        LinkIsTight(dev, sb, ino, ip, l);
        OneLinkTight(dev, sb, trace, l);
      }
      if OnRecord() && l in record.links { LinkIsOnRecord(l); }
      if Fine() { SettledLink(dev, sb, trace, l, Inums(stack), count); }
      count := Bump(count, dp.inum);
      trace := tr1;
    }

    lemma LinkIsOnRecord(l: Link)
      requires OnRecord() && l in record.links
      ensures Inside(trace.(links := trace.links + [l]), record)
      ensures stack != [] ==> DotsNoted(dev, trace.links + [l], |trace.links|, stack[0].inum, stack[0].dot, stack[0].dotdot)
    {
      hide Guide, Inside, DirsOnly, DotsNoted;
      var f := if stack == [] then Frame(0, false, false) else stack[0];
      OneLinkInside(dev, trace, record, l, f.inum, f.dot, f.dotdot);
    }

    /** Entry e is just counted; before that the state was s. */
    ghost predicate Counted(ino: nat, pos: nat, dp: Entry, N: nat, s: State, s0: State, t: Node, parent: nat, z: nat, e: nat)
      reads this
    {
      CountedIn(ino, pos, dp, N, s, s0, t, parent, z, e, Now())
    }

    ghost predicate CountedIn(ino: nat, pos: nat, dp: Entry, N: nat, s: State, s0: State, t: Node, parent: nat, z: nat, e: nat, s1: State) {
      && NextIn(ino, pos, dp, N, s, s0, t, parent, z, e) && EntryLooks(N, s, ino, parent, e, dp)
      && (e >= 2 ==> dp.inum == ino + KidInode(t, e - 2))
      && s1 == s.(count := Bump(s.count, dp.inum))
    }

    /** The top of the stack with what has now been seen. */
    ghost function Seen(s: State, dot: bool): State {
      if s.stack == [] then s
      else s.(stack := [if dot then s.stack[0].(dot := true) else s.stack[0].(dotdot := true)] + s.stack[1..])
    }

    lemma DotEnds(ino: nat, pos: nat, dp: Entry, N: nat, s: State, s0: State, t: Node, parent: nat, z: nat, e: nat, s1: State, s2: State)
      requires CountedIn(ino, pos, dp, N, s, s0, t, parent, z, e, s1) && (IsDot(dp.name) || IsDotDot(dp.name)) && s2 == Seen(s1, IsDot(dp.name))
      requires s1.stack != [] && (ino != ROOT_INODE ==> |s1.stack| >= 2)
      ensures InAt(N, s0, s2, t, ino, parent, z, e + 1, false)
      ensures if IsDot(dp.name) then dp.inum == ino && pos == 0 else pos == 16 && dp.inum == if ino == ROOT_INODE then ino else s1.stack[1].inum
    {
      hide Arrives, InDir, DirEntry, NodeAt, View, HasSlash;
      if IsDot(dp.name) { DotDone(dev, N, s0, s, s2, t, ino, parent, z); } else { DotDotDone(dev, N, s0, s, s2, t, ino, parent, z); }
    }

    /** The part of chkentry() for "." and "..". */
    method ChkDotEntry(ino: nat, pos: nat, dp: Entry,
                       ghost N: nat, ghost s: State, ghost s0: State, ghost t: Node, ghost parent: nat, ghost z: nat, ghost e: nat)
      requires Valid() && StackFor(ino) && (IsDot(dp.name) || IsDotDot(dp.name)) && trace.links != []
      modifies this`stack, this`clean
      ensures Valid() && StackKept()
      ensures Fine() ==> old(Fine()) && if IsDot(dp.name) then dp.inum == ino && pos == 0 else pos == 16 && LeadsBack(trace.links, ino, dp.inum)
      ensures old(Counted(ino, pos, dp, N, s, s0, t, parent, z, e)) ==> In(N, s0, t, ino, parent, z, e + 1, false)
      ensures old(OnRecordTo(|trace.links| - 1) && DotFits(ino, pos, dp)) && NameOf(dev, trace.links[|trace.links|-1]) == dp.name ==> OnRecord()
    {
      hide InAt, CountedIn, HasSlash, Honest, Settled, DirsMarked, Nested, EnteredOnce, Tight, Inums, Within, Guide, Inside, DirsOnly, DotsNoted, NameOf;
      ghost var s1 := Now();
      if Counted(ino, pos, dp, N, s, s0, t, parent, z, e) { DotEnds(ino, pos, dp, N, s, s0, t, parent, z, e, s1, Seen(s1, IsDot(dp.name))); }
      if ino != ROOT_INODE { TopIsNested(trace.links, stack); }
      if IsDot(dp.name) {
        See(true);
        ChkDots(pos, dp, ino);
      } else {
        See(false);
        ChkDots(pos, dp, if ino == ROOT_INODE then ino else stack[1].inum);
      }
    }

    /** ftop->st_presence: one of "." and ".." has been seen. */
    method See(dot: bool)
      requires Valid() && stack != [] && trace.links != []
      modifies this`stack
      ensures Valid() && StackKept() && Now() == Seen(old(Now()), dot)
      ensures var name := NameOf(dev, trace.links[|trace.links|-1]);
        old(OnRecordTo(|trace.links| - 1)) && (IsDot(name) ==> dot) && (IsDotDot(name) ==> !dot) ==> OnRecord()
    {
      hide Honest, Settled, DirsMarked, Nested, EnteredOnce, Tight, Within, Guide, Inside, DirsOnly, DotsNoted, NameOf, IsDot, IsDotDot;
      ghost var f := stack[0];
      ghost var name := NameOf(dev, trace.links[|trace.links|-1]);
      if OnRecordTo(|trace.links| - 1) && (IsDot(name) ==> dot) && (IsDotDot(name) ==> !dot) {
        OneMoreNoted(dev, trace.links, f.inum, f.dot, f.dotdot, f.dot || dot, f.dotdot || !dot);
      }
      stack := [if dot then stack[0].(dot := true) else stack[0].(dotdot := true)] + stack[1..];
    }

    /** The part of chkentry() for every other name. */
    method ChkNamedEntry(ino: nat, dp: Entry,
                         ghost N: nat, ghost s: State, ghost s0: State, ghost t: Node, ghost parent: nat, ghost z: nat, ghost e: nat)
      requires ValidBefore(dp.inum) && StackFor(ino) && 1 <= dp.inum <= sb.ninodes && !(IsDot(dp.name) || IsDotDot(dp.name))
      requires trace.links != [] && trace.links[|trace.links|-1].dir == ino
      modifies this
      ensures Valid() && Unset(inodeMap) <= old(Unset(inodeMap)) && StackKept() && Advanced(0)
      ensures Fine() ==> dp.name[0] != '\0' && !HasSlash(dp.name) && dp.inum in trace.met
      ensures old(Counted(ino, 16 * e, dp, N, s, s0, t, parent, z, e)) ==> In(N, s0, t, ino, parent, z, e + 1, false) && fatal == old(fatal)
      ensures old(NameIsNext(dp)) ==> OnRecord()
      decreases Unset(inodeMap), 6, 1
    {
      hide InAt, CountedIn, Arrives, Leaves, HasSlash, IsDot, IsDotDot, Unset, Honest, Settled, LinksInside, Inums, DirsMarked, Nested, EnteredOnce, Tight, NewRefs, Extends, Awaited, OnRecordTo, NameOf, NameIsNext;
      NoNewLinks(trace, trace, 0);
      NoNewRefs(trace, trace, 0);
      if NameIsNext(dp) { NameIsNoted(dp); }
      ghost var expected := Counted(ino, 16 * e, dp, N, s, s0, t, parent, z, e);
      ghost var kid, zone, s1 := t, 0, Now();
      if expected {
        NameArrives(ino, dp, N, s, s0, t, parent, z, e, s1);
        kid, zone := t.kids[e - 2].node, z + KidZone(t, e - 2);
      }
      ChkName(dp);
      if dirMap[dp.inum] {
        clean := false;
        return;
      }
      DescendTree(dp.inum, N, kid, ino, zone);
      if expected { NameLeaves(ino, dp, N, s, s0, t, parent, z, e, s1, Now()); }
    }

    lemma NameArrives(ino: nat, dp: Entry, N: nat, s: State, s0: State, t: Node, parent: nat, z: nat, e: nat, s1: State)
      requires CountedIn(ino, 16 * e, dp, N, s, s0, t, parent, z, e, s1) && !(IsDot(dp.name) || IsDotDot(dp.name))
      ensures t.DirNode? && 2 <= e < |t.kids| + 2 && Mounted(N) && Arrives(dev, N, s1, t.kids[e - 2].node, dp.inum, ino, z + KidZone(t, e - 2))
      ensures dp.name[0] != '\0' && !HasSlash(dp.name) && (dp.inum < |s1.inodeMap| ==> !s1.inodeMap[dp.inum])
    {
      hide Arrives, InDir, DirEntry, NodeAt, View, HasSlash, IsDot, IsDotDot;
      NamedLooks(N, s, ino, parent, e, dp);
      KidArrives(dev, N, s0, s, s1, t, ino, parent, z, e - 2);
    }

    lemma NameLeaves(ino: nat, dp: Entry, N: nat, s: State, s0: State, t: Node, parent: nat, z: nat, e: nat, s1: State, s2: State)
      requires CountedIn(ino, 16 * e, dp, N, s, s0, t, parent, z, e, s1) && 2 <= e && t.DirNode? && e < |t.kids| + 2
      requires Leaves(dev, N, s1, s2, t.kids[e - 2].node, dp.inum, ino, z + KidZone(t, e - 2))
      ensures InAt(N, s0, s2, t, ino, parent, z, e + 1, false)
    {
      hide Arrives, Leaves, InDir, DirEntry, NodeAt, View, HasSlash, IsDot, IsDotDot;
      KidArrives(dev, N, s0, s, s1, t, ino, parent, z, e - 2);
      KidLeaves(dev, N, s0, s, s1, s2, t, ino, parent, z, e - 2);
    }

    lemma NameIsNoted(dp: Entry)
      requires NameIsNext(dp) && stack != []
      ensures OnRecord() && dp.name[0] != '\0' && !HasSlash(dp.name) && dp.inum in record.met && dp.inum < |dirMap| && !dirMap[dp.inum]
    {
      hide Guide, Inside, DirsOnly, DotsNoted, HasSlash, NameOf, IsDot, IsDotDot;
      OneMoreNoted(dev, trace.links, stack[0].inum, stack[0].dot, stack[0].dotdot, stack[0].dot, stack[0].dotdot);
    }

    /** An entry on the record that is neither "." nor ".." has been counted. */
    ghost predicate NameIsNext(dp: Entry)
      reads this`clean, this`fatal, this`trace, this`dirMap, this`stack
    {
      && trace.links != [] && OnRecordTo(|trace.links| - 1) && NameOf(dev, trace.links[|trace.links|-1]) == dp.name && IsPlain(dp)
      && dp.name[0] != '\0' && !HasSlash(dp.name) && dp.inum in record.met && dp.inum < |dirMap| && !dirMap[dp.inum]
    }

    /** descendtree() */
    method DescendTree(ino: nat, ghost N: nat, ghost t: Node, ghost parent: nat, ghost z: nat)
      requires ValidBefore(ino) && 1 <= ino <= sb.ninodes && ino < |dirMap| && !dirMap[ino]
      requires stack != [] ==> trace.links != [] && trace.links[|trace.links|-1].dir == stack[0].inum
      requires ino != ROOT_INODE ==> stack != []
      modifies this
      ensures Valid() && Unset(inodeMap) <= old(Unset(inodeMap)) && stack == old(stack) && Advanced(0)
      ensures Fine() ==> ino in trace.met
      ensures old(Mounted(N) && Arrives(dev, N, Now(), t, ino, parent, z)) ==>
        Leaves(dev, N, old(Now()), Now(), t, ino, parent, z) && fatal == old(fatal)
      ensures old(OnRecord()) && ino in record.met ==> OnRecord()
      decreases Unset(inodeMap), 6, 0
    {
      hide Arrives, Leaves, View, Unset, Honest, Settled, InodeOn, LinksInside, NamedIn, Complete, Inums, Within, DirsMarked, Nested, EnteredOnce, Tight, TightRef, TightLink, StandsAt, ListAt, Guide, Inside, DirsOnly, DotsNoted, NewRefs, Extends;
      NoNewLinks(trace, trace, 0);
      NoNewRefs(trace, trace, 0);
      ghost var s0 := Now();
      ghost var expected := Mounted(N) && Arrives(dev, N, s0, t, ino, parent, z);
      ghost var guided := OnRecord() && ino in record.met;
      ghost var top, tr0 := stack, trace;
      if top != [] { TopIsMet(dev, sb, trace, inodeMap, zoneMap, count); }
      Enter(ino);
      var visited := inodeMap[ino];
      VisitedIsMet(dev, sb, trace, inodeMap, zoneMap, count, ino);
      if expected { NotVisited(dev, N, s0, t, ino, parent, z); }
      if !visited {
        var inode := GetInode(ino);
        if expected { InodeIs(dev, N, ino); }
        var _ := ChkInode(ino, inode, N, s0, t, parent, z);
        if Fine() { SettledClosed(dev, sb, trace, ino, stack, Inums(stack[1..])); }
        if guided && top != [] { StillNoted(dev, sb, tr0, trace, inodeMap, zoneMap, count, top[0].inum, top[0].dot, top[0].dotdot); }
      } else if Fine() {
        VisitedEntered(dev, sb, trace, dirMap, ino, inodeMap, zoneMap, count);
      }
      Leave();
    }

    /** The beginning of descendtree(): a frame on the stack, with whatever is in it. */
    method Enter(ino: nat)
      requires ValidBefore(ino) && (stack != [] ==> trace.links != [] && trace.links[|trace.links|-1].dir == stack[0].inum)
      modifies this`stack
      ensures ValidBefore(ino) && stack != [] && stack[0].inum == ino && stack[1..] == old(stack)
      ensures old(OnRecord()) && ino !in trace.met ==> OnRecord()
    {
      hide Honest, Settled, Inums, Within, DirsMarked, Nested, EnteredOnce, Tight, TightRef, TightLink, StandsAt, ListAt, Awaited, Guide, Inside, DirsOnly, DotsNoted;
      var dot: bool := *;
      var dotdot: bool := *;
      if ino !in trace.met { NothingOf(dev, sb, trace, inodeMap, zoneMap, count, ino, dot, dotdot); }
      ghost var open := Inums(stack);
      OneMoreNested(trace.links, ino, stack);
      stack := [Frame(ino, dot, dotdot)] + stack;
      OneOpen(stack, open);
      if Fine() { SettledOpen(dev, sb, trace, open, Inums(stack)); }
    }

    /** The end of descendtree() */
    method Leave()
      requires Valid() && stack != [] && (Fine() ==> Settled(dev, sb, trace, Inums(stack[1..])))
      modifies this`stack
      ensures Valid() && stack == old(stack)[1..]
    {
      hide Honest, Settled, Inums, Within, DirsMarked, Nested, EnteredOnce, Tight, TightRef, TightLink, StandsAt, ListAt, OnRecordTo;
      OneOpen(stack, Inums(stack[1..]));
      OneLessNested(trace.links, stack[0].inum, Inums(stack[1..]));
      stack := stack[1..];
    }

    /** In state s the walk has come to the inode of a tree it arrived at in state s0. */
    ghost predicate Coming(ino: nat, ip: Inode, N: nat, s: State, s0: State, t: Node, parent: nat, z: nat) {
      && Mounted(N) && Arrives(dev, N, s0, t, ino, parent, z) && ip == InodeOf(N, ino)
      && s.stack != [] && s.stack[0].inum == ino && s.(stack := s.stack[1..]) == s0
    }

    lemma InodeFits(ino: nat, ip: Inode, N: nat, s: State, s0: State, t: Node, parent: nat, z: nat)
      requires Coming(ino, ip, N, s, s0, t, parent, z)
      ensures 1 <= ip.nlinks <= LINK_MAX && s.clean && (ino == ROOT_INODE ==> ip.kind == Directory)
    {
      hide Arrives, View;
      InodeMet(dev, N, s0, t, ino, parent, z);
      RootIsDir(dev, N, s0, t, ino, parent, z);
    }

    /** The inode is marked and counted. */
    lemma InodeStarts(ino: nat, ip: Inode, N: nat, s: State, s0: State, t: Node, parent: nat, z: nat)
      requires Coming(ino, ip, N, s, s0, t, parent, z) && clean && ino < |s.inodeMap| && ino < |s.count|
      requires Now() == s.(inodeMap := s.inodeMap[ino := true], count := s.count[ino := (s.count[ino] - Claimed(ip)) % 256])
      ensures Met(ip, N, s0, t, ino, parent, z)
    {
      hide Arrives, View, InDir, LeafSeen;
      InodeMet(dev, N, s0, t, ino, parent, z);
      RootIsDir(dev, N, s0, t, ino, parent, z);
      if t.DirNode? { DirBegins(dev, N, s0, Now(), t, ino, parent, z); } else { LeafBegins(dev, N, s0, Now(), t, ino, parent, z); }
    }

    /** chkinode() */
    method ChkInode(ino: nat, ip: Inode, ghost N: nat, ghost s0: State, ghost t: Node, ghost parent: nat, ghost z: nat)
      returns (ok: bool)
      requires ValidBefore(ino) && StackFor(ino) && 1 <= ino <= sb.ninodes && !inodeMap[ino] && ip == InodeOn(dev, sb, ino)
      modifies this
      ensures Valid() && Unset(inodeMap) <= old(Unset(inodeMap)) && StackKept() && Advanced(0)
      ensures Fine() ==> ino in trace.met && Complete(dev, sb, trace, ino)
      ensures old(Coming(ino, ip, N, Now(), s0, t, parent, z)) ==>
        ok && Leaves(dev, N, s0, Now().(stack := stack[1..]), t, ino, parent, z) && fatal == old(fatal)
      ensures old(OnRecord()) && ino in record.met ==> OnRecord()
      decreases Unset(inodeMap), 5
    {
      hide Arrives, Leaves, View, Tally, Mid, InDir, LeafSeen, Unset, Honest, Settled, InodeOn, LinksInside, NamedIn, FileCovered, Inums, Within, DirsMarked, Nested, EnteredOnce, Tight, TightRef, TightLink, StandsAt, ListAt, Extends, Awaited, Coming, Met, Guide, Inside, DirsOnly, DotsNoted, NewRefs, Below, OnRecordTo, DotsIn;
      NoNewLinks(trace, trace, 0);
      NoNewRefs(trace, trace, 0);
      ghost var guided := OnRecord() && ino in record.met;
      if guided { InodeIsOnRecord(ino); }
      VisitedIsMet(dev, sb, trace, inodeMap, zoneMap, count, ino);
      ghost var s := Now();
      ghost var expected := Coming(ino, ip, N, s, s0, t, parent, z);
      if expected { InodeFits(ino, ip, N, s, s0, t, parent, z); }
      if ino == ROOT_INODE && ip.kind != Directory {
        fatal := true;
        return false;
      }
      if ip.nlinks == 0 {
        clean := false;
        return false;
      }
      Meet(ino, ip);
      if expected { InodeStarts(ino, ip, N, s, s0, t, parent, z); }
      ghost var tr1 := trace;
      ok := ChkMode(ino, ip, N, s0, t, parent, z);
      InsideJoin(old(trace), tr1, trace);
      NewRefsJoin(old(trace), tr1, trace, 0, ino);
      StillMet(tr1, trace, ino);
    }

    lemma InodeIsOnRecord(ino: nat)
      requires OnRecord() && ino in record.met
      ensures ino >= 1
      ensures var ip := InodeOn(dev, sb, ino);
        && 1 <= ip.nlinks <= LINK_MAX && ip.kind != NotAllocated && (ino == ROOT_INODE ==> ip.kind == Directory)
        && (IsFile(ip) ==> FileCovered(dev, sb, record, ino, ip)) && (ip.kind == Directory ==> DotsIn(dev, ip))
    {
      hide Guide, Inside, DirsOnly, DotsNoted, FileCovered, DotsIn, InodeOn;
      RecordedInode(dev, sb, record, ino);
    }

    /** The middle of chkinode(): the inode is marked, and its links are taken from its count. */
    method Meet(ino: nat, ip: Inode)
      requires ValidBefore(ino) && StackFor(ino) && 1 <= ino <= sb.ninodes && !inodeMap[ino]
      requires ip == InodeOn(dev, sb, ino) && (ino == ROOT_INODE ==> ip.kind == Directory)
      modifies this`inodeMap, this`count, this`clean, this`trace
      ensures ValidBut(|trace.links|, ino) && Unset(inodeMap) < old(Unset(inodeMap)) && Advanced(0) && Owns(ino, ip) && ino < |dirMap|
      ensures inodeMap == old(inodeMap)[ino := true] && count == old(count)[ino := (old(count)[ino] - Claimed(ip)) % 256]
      ensures clean <==> old(clean) && ip.nlinks <= LINK_MAX
      ensures old(OnRecord()) && ino in record.met ==> OnRecord() && Below(trace, ino, 0)
    {
      hide Guide, Inside, DirsOnly, DotsNoted, NewRefs, Below, DotsIn, FileCovered, Honest, Settled, InodeOn, NamedIn, LinksInside, Inums, Unset, DirsMarked, Nested, EnteredOnce, Tight, TightRef, TightLink, StandsAt, ListAt, Awaited;
      ghost var guided := OnRecord() && ino in record.met;
      if guided { MeetIsOnRecord(ino); }
      AwaitedIsNamed(dev, sb, trace, ino, inodeMap, zoneMap, count);
      VisitedIsMet(dev, sb, trace, inodeMap, zoneMap, count, ino);
      MetMarked(dev, sb, trace.met, dirMap, ino);
      if Fine() {
        MetEntered(dev, sb, trace, ino, inodeMap, zoneMap, count);
        OneMetTight(dev, sb, trace, ino);
      }
      SetOne(inodeMap, ino);
      ghost var tr0, tr1 := trace, trace.(met := trace.met + [ino]);
      OneMet(dev, sb, trace, inodeMap, zoneMap, count, ino);
      OneOpen(stack, Inums(stack[1..]));
      if Fine() { SettledMore(dev, sb, trace, ino, Inums(stack)); }
      NoNewLinks(tr0, tr1, 0);
      NoNewRefs(tr0, tr1, 0);
      inodeMap := inodeMap[ino := true];
      trace := tr1;
      if ip.nlinks > LINK_MAX {
        clean := false;
        count := count[ino := (count[ino] - LINK_MAX) % 256];
      } else {
        count := count[ino := (count[ino] - ip.nlinks) % 256];
      }
    }

    lemma MeetIsOnRecord(ino: nat)
      requires 1 <= ino <= sb.ninodes && ino < |inodeMap| && !inodeMap[ino] && Honest(dev, sb, trace, inodeMap, zoneMap, count) && OnRecord() && ino in record.met
      ensures InodeOn(dev, sb, ino).nlinks <= LINK_MAX && Inside(trace.(met := trace.met + [ino]), record) && Below(trace.(met := trace.met + [ino]), ino, 0)
    {
      hide Guide, Inside, DirsOnly, DotsNoted, FileCovered, DotsIn, InodeOn, Honest;
      InodeIsOnRecord(ino);
      OneMetInside(trace, record, ino);
      VisitedIsMet(dev, sb, trace, inodeMap, zoneMap, count, ino);
      NothingOf(dev, sb, trace, inodeMap, zoneMap, count, ino, false, false);
    }

    ghost function InodeOf(N: nat, ino: nat): Inode {
      if First(N) <= |dev| && ino <= N then View(dev, N).tab[ino] else NO_INODE
    }

    /** The inode just counted is that of a tree the walk arrived at in state s0. */
    ghost predicate Met(ip: Inode, N: nat, s0: State, t: Node, n: nat, parent: nat, z: nat)
      reads this
    {
      && Mounted(N) && Arrives(dev, N, s0, t, n, parent, z) && ip == InodeOf(N, n)
      && if t.DirNode? then InDir(dev, N, s0, Now(), t, n, parent, z, 0, false) else LeafSeen(dev, N, s0, Now(), t, n, parent, z)
    }

    /** chkmode() */
    method ChkMode(ino: nat, ip: Inode, ghost N: nat, ghost s0: State, ghost t: Node, ghost parent: nat, ghost z: nat)
      returns (ok: bool)
      requires ValidBut(|trace.links|, ino) && StackFor(ino) && 1 <= ino <= sb.ninodes && inodeMap[ino] && ino < |dirMap| && Owns(ino, ip)
      modifies this
      ensures Valid() && Unset(inodeMap) <= old(Unset(inodeMap)) && StackKept() && Advanced(ino)
      ensures Fine() ==> ip.kind != NotAllocated && (ip.kind == Regular || ip.kind == Directory ==> FileCovered(dev, sb, trace, ino, ip))
      ensures old(Met(ip, N, s0, t, ino, parent, z)) ==>
        ok && Leaves(dev, N, s0, Now().(stack := stack[1..]), t, ino, parent, z) && fatal == old(fatal)
      ensures old(OnRecord() && Below(trace, ino, 0)) && ino in record.met ==> OnRecord()
      decreases Unset(inodeMap), 40
    {
      hide Arrives, Leaves, View, InDir, LeafSeen, Follows, ListFits, Taken, Unset, Honest, Settled, InodeOn, LinksInside, FileCovered, Inums, Within, DirsMarked, Nested, EnteredOnce, Tight, TightRef, TightLink, StandsAt, ListAt, Extends, Guide, Inside, DirsOnly, DotsNoted, NewRefs, Below, OnRecordTo, DotsIn;
      NoNewLinks(trace, trace, 0);
      NoNewRefs(trace, trace, ino);
      if OnRecord() && ino in record.met { InodeIsOnRecord(ino); }
      if ip.kind != Directory { NotToBeMarked(dev, sb, trace.met, dirMap, ino); }
      ghost var expected := Met(ip, N, s0, t, ino, parent, z);
      ghost var s1 := Now();
      ghost var plan := Unknown;
      if expected {
        InodeMet(dev, N, s0, t, ino, parent, z);
        InodeOfIs(dev, N, ino);
      }
      match ip.kind {
        case Regular =>
          if expected {
            FileListed(dev, N, s0, s1, t, ino, parent, z);
            plan := OfFile(s1, Blocks(ip.size), z, 0);
          }
          ok := ChkFile(ino, ip, N, plan);
          if expected { FileEnds(dev, N, s0, s1, Now(), t, ino, parent, z); }
        case Directory =>
          if expected { plan := OfDir(s0, t, ino, parent, z); }
          ok := ChkDirectory(ino, ip, N, plan);
          if expected { DirEnds(dev, N, s0, Now(), t, ino, parent, z); }
        case BlockSpecial =>
          ok := true;
          if expected { DeviceEnds(dev, N, s0, Now(), t, ino, parent, z); }
        case CharSpecial =>
          ok := true;
          if expected { DeviceEnds(dev, N, s0, Now(), t, ino, parent, z); }
        case NamedPipe =>
          ok := true;
        case NotAllocated =>
          clean := false;
          ok := false;
      }
    }

    /** chkdirectory() */
    method ChkDirectory(ino: nat, ip: Inode, ghost N: nat, ghost plan: Plan) returns (ok: bool)
      requires ValidBut(|trace.links|, ino) && StackFor(ino) && 1 <= ino <= sb.ninodes && inodeMap[ino] && ino < |dirMap| && Owns(ino, ip) && ip.kind == Directory
      modifies this
      ensures Valid() && Unset(inodeMap) <= old(Unset(inodeMap)) && StackKept() && Advanced(ino)
      ensures Fine() ==> FileCovered(dev, sb, trace, ino, ip)
      ensures plan.OfDir? && plan.n == ino && old(Met(ip, N, plan.s0, plan.t, ino, plan.parent, plan.z)) && plan.t.DirNode? ==>
        ok && DirOver(N, plan, Now()) && fatal == old(fatal)
      ensures old(OnRecord() && Below(trace, ino, 0)) && FileCovered(dev, sb, record, ino, ip) && DotsIn(dev, ip) ==> OnRecord()
      decreases Unset(inodeMap), 39
    {
      hide DirOver, DirExpected, Arrives, InDir, View, ListFits, Follows, Unset, Honest, Settled, InodeOn, LinksInside, FileCovered, Within, Inums, DirsMarked, Nested, EnteredOnce, Tight, TightRef, TightLink, StandsAt, ListAt, Extends, Met, Guide, Inside, DirsOnly, DotsNoted, NewRefs, Below, DotsIn;
      ghost var guided := OnRecord() && Below(trace, ino, 0) && FileCovered(dev, sb, record, ino, ip) && DotsIn(dev, ip);
      ghost var expected := plan.OfDir? && plan.n == ino && plan.t.DirNode? && Met(ip, N, plan.s0, plan.t, ino, plan.parent, plan.z);
      if expected { DirectoryStarts(ino, ip, N, plan); }
      MarkDirectory(ino);
      if ip.size > MAXDIRSIZE { warned := true; }
      ok := ChkFile(ino, ip, N, plan);
      if guided { DotsFound(ino, ip); }
      if expected { DotsSeen(N, plan, Now()); }
      if !stack[0].dot {
        clean := false;
        ok := false;
      }
      if !stack[0].dotdot {
        clean := false;
        ok := false;
      }
    }

    lemma DotsFound(ino: nat, ip: Inode)
      requires OnRecord() && stack != [] && stack[0].inum == ino && FileCovered(dev, sb, trace, ino, ip) && ip.kind == Directory && DotsIn(dev, ip)
      ensures stack[0].dot && stack[0].dotdot
    {
      hide Guide, Inside, DirsOnly, DotsNoted, FileCovered, DotsIn;
      BothNoted(dev, sb, trace, ino, ip, stack[0].dot, stack[0].dotdot);
    }

    /** Before the first zone of a directory. */
    lemma DirectoryStarts(ino: nat, ip: Inode, N: nat, plan: Plan)
      requires plan.OfDir? && plan.n == ino < |dirMap| && ino <= sb.ninodes && plan.t.DirNode? && Met(ip, N, plan.s0, plan.t, ino, plan.parent, plan.z)
      ensures DirExpected(ip, N, plan, Now().(dirMap := dirMap[ino := true]))
    {
      hide Arrives, InDir, View, ListFits, Follows;
      var s := Now().(dirMap := dirMap[ino := true]);
      RootIsDir(dev, N, plan.s0, plan.t, ino, plan.parent, plan.z);
      DirMapAside(dev, N, plan.s0, Now(), s, plan.t, ino, plan.parent, plan.z);
      DirListed(dev, N, plan.s0, s, plan.t, ino, plan.parent, plan.z);
      InodeOfIs(dev, N, ino);
    }

    /** setbit(dirmap, ino) */
    method MarkDirectory(ino: nat)
      requires ValidBut(|trace.links|, ino) && ino < |inodeMap| && inodeMap[ino]
      modifies this`dirMap
      ensures Valid() && dirMap == old(dirMap)[ino := true]
      ensures old(OnRecord()) && IsDirectory(dev, sb, ino) ==> OnRecord()
    {
      hide Guide, Inside, DirsOnly, DotsNoted, IsDirectory, Honest, Settled, Inums, DirsMarked, Nested, EnteredOnce, Tight, TightRef, TightLink, StandsAt, ListAt;
      if OnRecord() && IsDirectory(dev, sb, ino) { OneDirMarked(dev, sb, dirMap, ino); }
      NowMarked(dev, sb, trace.met, dirMap, ino);
      dirMap := dirMap[ino := true];
    }

    /** chkfile() */
    method ChkFile(ino: nat, ip: Inode, ghost N: nat, ghost plan: Plan) returns (ok: bool)
      requires Valid() && StackFor(ino) && Owns(ino, ip) && IsFile(ip)
      modifies this
      ensures Valid() && Unset(inodeMap) <= old(Unset(inodeMap)) && StackKept() && Advanced(ino)
      ensures Fine() ==> FileCovered(dev, sb, trace, ino, ip)
      ensures old(DirExpected(ip, N, plan, Now())) ==> ok && DirOver(N, plan, Now()) && fatal == old(fatal)
      ensures Mounted(N) && plan.OfFile? && plan.from == 0 && old(FileExpected(ip, N, plan)) ==>
        ok && Now() == plan.s0.(zoneMap := Taken(plan.z - First(N) + 1 + FileZones(plan.m), |dev| - First(N) + 1)) && fatal == old(fatal)
      ensures old(OnRecord() && Below(trace, ino, 0)) && FileCovered(dev, sb, record, ino, ip) ==> OnRecord()
      decreases Unset(inodeMap), 38
    {
      hide Guide, Inside, DirsOnly, DotsNoted, NewRefs, Below, Ahead, OnRecordTo, FileCovered, ListsCovered, Arrives, InDir, View, ListFits, Follows, FileFits, FileUnderway, InFile, Taken, Unset, DirsMarked, Nested, EnteredOnce, Tight, TightRef, TightLink, StandsAt, ListAt, Honest, Settled, InodeOn, LinksInside, Covered, PosAfter, ListOf, Inums, Within, DirExpected, DirOver;
      ghost var guided := OnRecord() && Below(trace, ino, 0) && FileCovered(dev, sb, record, ino, ip);
      ghost var inDir := DirExpected(ip, N, plan, Now());
      ghost var inFile := Mounted(N) && FileExpected(ip, N, plan);
      var pos: nat;
      ok, pos := DirectList(ino, ip, N, plan);
      var i, level := NR_DZONE_NUM, 1;
      while i < NR_ZONE_NUMS
        invariant NR_DZONE_NUM <= i <= NR_ZONE_NUMS && level == i - NR_DZONE_NUM + 1
        invariant Valid() && Unset(inodeMap) <= old(Unset(inodeMap)) && StackKept() && Advanced(ino) && Owns(ino, ip)
        invariant Fine() ==> ListsCovered(dev, sb, trace, ino, ip, level, pos)
        invariant guided ==> OnRecord() && Below(trace, ino, pos)
        invariant inDir ==> ok && pos >= ip.size && fatal == old(fatal) && DirOver(N, plan, Now())
        invariant inFile ==> ok && fatal == old(fatal) && FileUnderway(dev, N, plan.s0, Now(), ip.size, plan.z, pos, level)
      {
        var good;
        ghost var tr1 := trace;
        good, pos := NextList(ino, ip, pos, i, level, N, plan);
        InsideJoin(old(trace), tr1, trace);
        NewRefsJoin(old(trace), tr1, trace, ino, ino);
        StillMet(tr1, trace, ino);
        ok := ok && good;
        i, level := i + 1, level + 1;
      }
      if Fine() { AllListsCovered(dev, sb, trace, ino, ip, pos); }
      if inFile { FileMapDone(dev, N, plan.s0, Now(), ip.size, plan.z, pos); }
    }

    ghost predicate DirExpected(ip: Inode, N: nat, plan: Plan, s: State) {
      Mounted(N) && plan.OfDir? && plan.t.DirNode? && ListFits(plan, dev, N, ip, ip.zone[..NR_DZONE_NUM], 0) && Follows(plan, dev, N, s, 0, 0)
    }

    ghost predicate DirOver(N: nat, plan: Plan, s: State) {
      plan.OfDir? && plan.t.DirNode? && InDir(dev, N, plan.s0, s, plan.t, plan.n, plan.parent, plan.z, |plan.t.kids| + 2, false)
    }

    lemma DotsSeen(N: nat, plan: Plan, s: State)
      requires DirOver(N, plan, s)
      ensures s.stack != [] && s.stack[0].dot && s.stack[0].dotdot
    {
    }

    /** The part of chkfile() for the direct zones. */
    method DirectList(ino: nat, ip: Inode, ghost N: nat, ghost plan: Plan) returns (ok: bool, pos: nat)
      requires Valid() && StackFor(ino) && Owns(ino, ip) && IsFile(ip)
      modifies this
      ensures Valid() && Unset(inodeMap) <= old(Unset(inodeMap)) && StackKept() && Advanced(ino)
      ensures Fine() ==> ok && ListsCovered(dev, sb, trace, ino, ip, 1, pos)
      ensures old(DirExpected(ip, N, plan, Now())) ==> ok && pos >= ip.size && DirOver(N, plan, Now()) && fatal == old(fatal)
      ensures old(Mounted(N) && FileExpected(ip, N, plan)) ==> ok && FileUnderway(dev, N, plan.s0, Now(), ip.size, plan.z, pos, 1) && fatal == old(fatal)
      ensures old(OnRecord() && Below(trace, ino, 0)) && FileCovered(dev, sb, record, ino, ip) ==> OnRecord() && Below(trace, ino, pos)
      decreases Unset(inodeMap), 37
    {
      hide Guide, Inside, DirsOnly, DotsNoted, NewRefs, Below, Ahead, OnRecordTo, FileCovered, ListsCovered, Arrives, InDir, View, ListFits, Follows, FileFits, FileUnderway, InFile, Taken, Unset, DirsMarked, Nested, EnteredOnce, Tight, TightRef, TightLink, StandsAt, ListAt, Honest, Settled, InodeOn, LinksInside, Covered, PosAfter, ListOf, Inums, Within, Extends, PointedAt;
      OwnLists(dev, ip);
      OwnListsAt(dev, ip);
      ghost var guided := OnRecord() && Below(trace, ino, 0) && FileCovered(dev, sb, record, ino, ip);
      if guided {
        FileLists(dev, sb, record, ino, ip);
        BelowIsAhead(trace, ino, 0, 0);
      }
      ghost var inDir := DirExpected(ip, N, plan, Now());
      ghost var inFile := Mounted(N) && FileExpected(ip, N, plan);
      ok, pos := ChkZones(ino, ip, 0, ip.zone[..NR_DZONE_NUM], 0, N, plan);
      if Fine() { FirstListCovered(dev, sb, trace, ino, ip, pos); }
      if inDir { DirListDone(plan, dev, N, ip, Now(), pos); }
      if inFile { DirectsDone(dev, N, plan.s0, Now(), ip.size, plan.z, pos); }
    }

    /** The part of chkfile() for an indirect zone. */
    method NextList(ino: nat, ip: Inode, pos1: nat, i: nat, level: nat, ghost N: nat, ghost plan: Plan) returns (ok: bool, pos: nat)
      requires Valid() && StackFor(ino) && Owns(ino, ip) && IsFile(ip)
      requires 1 <= level <= 2 && i == NR_DZONE_NUM + level - 1 && (Fine() ==> ListsCovered(dev, sb, trace, ino, ip, level, pos1))
      modifies this
      ensures Valid() && Unset(inodeMap) <= old(Unset(inodeMap)) && StackKept() && Advanced(ino)
      ensures Fine() ==> ListsCovered(dev, sb, trace, ino, ip, level + 1, pos)
      ensures pos1 >= ip.size ==> ok && pos == pos1 && Now() == old(Now()) && fatal == old(fatal)
      ensures Mounted(N) && InFileList(ip, N, plan) && old(FileUnderway(dev, N, plan.s0, Now(), ip.size, plan.z, pos1, level)) ==>
        ok && fatal == old(fatal) && FileUnderway(dev, N, plan.s0, Now(), ip.size, plan.z, pos, level + 1)
      ensures old(OnRecord() && Below(trace, ino, pos1)) && FileCovered(dev, sb, record, ino, ip) ==> OnRecord() && Below(trace, ino, pos)
      decreases Unset(inodeMap), 37
    {
      hide Guide, Inside, DirsOnly, DotsNoted, NewRefs, Below, Ahead, OnRecordTo, FileCovered, ListsCovered, Arrives, InDir, View, ListFits, Follows, FileFits, FileUnderway, InFile, Taken, Unset, DirsMarked, Nested, EnteredOnce, Tight, TightRef, TightLink, StandsAt, ListAt, Honest, Settled, InodeOn, LinksInside, Covered, PosAfter, ListOf, Inums, Within, Extends, PointedAt;
      var zlist := [ip.zone[i]];
      OwnLists(dev, ip);
      if Fine() { OwnListAt(dev, sb, trace, ino, ip, level, pos1); }
      ghost var inFile := Mounted(N) && InFileList(ip, N, plan) && FileUnderway(dev, N, plan.s0, Now(), ip.size, plan.z, pos1, level);
      ghost var part := Unknown;
      if inFile {
        NextListIs(dev, N, plan.s0, Now(), ip, plan.z, pos1, level);
        if level == 1 && plan.m > NR_DZONE_NUM { part := OfIndirect(plan.s0, plan.m, plan.z); }
      }
      if OnRecord() && Below(trace, ino, pos1) && FileCovered(dev, sb, record, ino, ip) {
        OnRecordIsFine();
        ListIsRecorded(dev, sb, record, trace, ino, ip, level, pos1);
        BelowIsAhead(trace, ino, level, pos1);
      }
      ok, pos := ChkZones(ino, ip, pos1, zlist, level, N, part);
      if Fine() { NextListCovered(dev, sb, old(trace), trace, ino, ip, level, pos1, pos); }
      if inFile { ListDone(dev, N, plan.s0, Now(), ip, plan.z, pos1, pos, level); }
    }

    ghost predicate InFileList(ip: Inode, N: nat, plan: Plan) {
      && plan.OfFile? && plan.m == Blocks(ip.size)
      && (plan.m > NR_DZONE_NUM ==> ListFits(OfIndirect(plan.s0, plan.m, plan.z), dev, N, ip, [ip.zone[NR_DZONE_NUM]], 1))
    }

    ghost predicate FileExpected(ip: Inode, N: nat, plan: Plan)
      reads this
    {
      && InFileList(ip, N, plan) && plan.from == 0 && plan.m <= NR_DZONE_NUM + NR_INDIRECTS && FileFits(dev, N, ip, plan.m, plan.z)
      && ListFits(plan, dev, N, ip, ip.zone[..NR_DZONE_NUM], 0) && Follows(plan, dev, N, Now(), 0, 0)
    }

    // ---------- The whole pass ----------

    /** The device, with the super block read; the record is only for what is said about it. */
    constructor (dev: seq<Block>, ghost record: Trace)
      requires |dev| > SUPER_BLOCK
      ensures this.dev == dev && this.record == record && sb == AsSuper(dev[SUPER_BLOCK]) && clean && !fatal && !warned && stack == []
    {
      this.dev, this.record := dev, record;
      sb := AsSuper(dev[SUPER_BLOCK]);
      inodeMap, zoneMap, dirMap, count, stack := [], [], [], [], [];
      clean, fatal, warned := true, false, false;
      trace := NO_TRACE;
    }

    /** getsuper(): false when a check is fatal. */
    method GetSuper() returns (ok: bool)
      ensures ok <==> PlausibleSuper(sb)
    {
      if sb.magic != SUPER_MAGIC { return false; }
      if Short(sb.ninodes) <= 0 { return false; }
      if sb.nzones <= 2 { return false; }
      if Short(sb.imapBlocks) <= 0 { return false; }
      if Short(sb.zmapBlocks) <= 0 { return false; }
      if Short(sb.firstdatazone) <= 1 { return false; }
      if Short(sb.logZoneSize) < 0 { return false; }
      if sb.maxSize <= 0 { return false; }
      ok := true;
    }

    /** chksuper(), for zones of one block: false when a check is fatal, `warned` when something is only odd. */
    method ChkSuper() returns (ok: bool)
      requires sb.logZoneSize == 0
      modifies this`warned
      ensures ok <==> FittingSuper(sb)
      ensures sb == TheSuper(sb.ninodes, sb.nzones) && sb.ninodes < BITS_PER_BLOCK && 0 < sb.nzones <= BITS_PER_BLOCK ==> warned == old(warned)
    {
      var n := BitmapSize(1 + sb.ninodes);
      if sb.magic != SUPER_MAGIC { return false; }
      if Short(sb.imapBlocks) < n { return false; }
      if sb.imapBlocks != n { warned := true; }
      n := BitmapSize(sb.nzones);
      if Short(sb.zmapBlocks) < n { return false; }
      if sb.zmapBlocks != n { warned := true; }
      if Short(sb.firstdatazone) >= sb.nzones { return false; }
      n := SUPER_BLOCK + 1 + sb.imapBlocks + sb.zmapBlocks + (sb.ninodes + INODES_PER_BLOCK - 1) / INODES_PER_BLOCK;
      if Short(sb.firstdatazone) < n { return false; }
      if sb.firstdatazone != n { warned := true; }
      if sb.maxSize != MAX_ZONES * BLOCK_SIZE { warned := true; }
      ok := true;
    }

    /** getbitmaps(), initbitmap() and getcount() */
    method GetMaps()
      requires PlausibleSuper(sb) && FittingSuper(sb) && Words(sb) && sb.nzones <= |dev| && stack == []
      modifies this`inodeMap, this`zoneMap, this`dirMap, this`count, this`trace
      ensures Valid() && count == seq(sb.ninodes + 1, _ => 0) && trace == NO_TRACE && sb.ninodes >= ROOT_INODE && |dirMap| > ROOT_INODE && !dirMap[ROOT_INODE]
      ensures inodeMap == FreshBits(sb.imapBlocks * BITS_PER_BLOCK, sb.ninodes + 1)
      ensures zoneMap == FreshBits(sb.zmapBlocks * BITS_PER_BLOCK, sb.nzones - sb.firstdatazone + 1)
      ensures Fine() && Guide(dev, sb, record) ==> OnRecord()
    {
      RoomForMaps(sb);
      hide Guide, Inside, DirsOnly, DotsNoted, DirsMarked, Nested, EnteredOnce, Tight, TightRef, TightLink, StandsAt, ListAt, Honest, Settled, Within, FittingSuper, PlausibleSuper;
      inodeMap := InitBitmap(sb.imapBlocks, sb.ninodes + 1);
      zoneMap := InitBitmap(sb.zmapBlocks, sb.nzones - sb.firstdatazone + 1);
      dirMap := seq(|inodeMap|, i => i == 0);
      count := seq(sb.ninodes + 1, _ => 0);
      trace := NO_TRACE;
      FreshMaps(dirMap, inodeMap, zoneMap, count);
      NothingInside(dev, sb, record, dirMap);
    }

    lemma FreshMaps(dirMap: seq<bool>, inodeMap: seq<bool>, zoneMap: seq<bool>, count: seq<nat>)
      requires 1 < sb.firstdatazone < sb.nzones
      requires inodeMap == FreshBits(sb.imapBlocks * BITS_PER_BLOCK, sb.ninodes + 1)
      requires zoneMap == FreshBits(sb.zmapBlocks * BITS_PER_BLOCK, sb.nzones - sb.firstdatazone + 1)
      requires dirMap == seq(|inodeMap|, i => i == 0) && count == seq(sb.ninodes + 1, _ => 0)
      ensures DirsMarked(dev, sb, [], dirMap, 0) && Nested([], []) && EnteredOnce(dev, sb, [], [], 0) && Tight(dev, sb, NO_TRACE)
      ensures Within(dirMap, inodeMap) && Honest(dev, sb, NO_TRACE, inodeMap, zoneMap, count) && Settled(dev, sb, NO_TRACE, [])
    {
      hide DirsMarked, Nested, EnteredOnce, Tight, TightRef, TightLink, StandsAt, ListAt, Honest, Settled;
      NothingMet(dev, sb, inodeMap, zoneMap, count);
      NothingSettled(dev, sb);
      NothingEntered(dev, sb, dirMap);
      NothingTight(dev, sb);
    }

    /** chkmap(): the bits that stand for something have to be those on the disk. */
    method ChkMap(cmap: seq<bool>, bit: nat, blkno: nat, nblk: nat, nbit: nat)
      requires bit <= nbit && nbit - bit <= |cmap| == nblk * BITS_PER_BLOCK && blkno + nblk <= |dev|
      modifies this`clean
      ensures clean <==> old(clean) && forall k :: 0 <= k < nbit - bit ==> DiskBit(dev, blkno, k) == cmap[k]
    {
      var k := 0;
      while bit + k < nbit
        invariant 0 <= k <= nbit - bit
        invariant clean <==> old(clean) && forall j :: 0 <= j < k ==> DiskBit(dev, blkno, j) == cmap[j]
        decreases nbit - k
      {
        if DiskBit(dev, blkno, k) != cmap[k] { clean := false; }
        k := k + 1;
      }
    }

    /** chkcount(): every link has to be accounted for. */
    method ChkCount()
      requires Valid()
      modifies this`clean
      ensures clean <==> old(clean) && forall i :: 1 <= i <= sb.ninodes ==> count[i] == 0
    {
      hide DirsMarked, Nested, EnteredOnce, Tight, TightRef, TightLink, StandsAt, ListAt, Honest, Settled, Within, Inums;
      var ino := 1;
      while ino <= sb.ninodes
        invariant 1 <= ino <= sb.ninodes + 1 && Valid()
        invariant clean <==> old(clean) && forall i :: 1 <= i < ino ==> count[i] == 0
      {
        if count[ino] != 0 { clean := false; }
        ino := ino + 1;
      }
    }

    /** chkilist(): an inode that was not met has to be free. */
    method ChkIlist()
      requires Valid() && sb.ninodes >= 1
      modifies this`clean
      ensures clean <==> old(clean) && forall i :: 1 <= i <= sb.ninodes && !inodeMap[i] ==> InodeOn(dev, sb, i).kind == NotAllocated
    {
      hide DirsMarked, Nested, EnteredOnce, Tight, TightRef, TightLink, StandsAt, ListAt, Honest, Settled, InodeOn, Within, Inums;
      var ino := 1;
      while ino <= sb.ninodes
        invariant 1 <= ino <= sb.ninodes + 1 && Valid()
        invariant clean <==> old(clean) && forall i :: 1 <= i < ino && !inodeMap[i] ==> InodeOn(dev, sb, i).kind == NotAllocated
      {
        if !inodeMap[ino] {
          var inode := GetInode(ino);
          if inode.kind != NotAllocated { clean := false; }
        }
        ino := ino + 1;
      }
    }

    /** What has to be true of a file system that nothing is complained about in the end. */
    ghost predicate Accounted()
      reads this
      requires Valid()
    {
      && (forall k :: 0 <= k < sb.nzones - sb.firstdatazone + 1 ==> DiskBit(dev, SUPER_BLOCK + 1 + sb.imapBlocks, k) == zoneMap[k])
      && (forall k :: 0 <= k <= sb.ninodes ==> DiskBit(dev, SUPER_BLOCK + 1, k) == inodeMap[k])
      && (forall i :: 1 <= i <= sb.ninodes ==> count[i] == 0)
      && (forall i :: 1 <= i <= sb.ninodes && !inodeMap[i] ==> InodeOn(dev, sb, i).kind == NotAllocated)
    }

    /** The four comparisons at the end of chkdev(). */
    method FinalChecks()
      requires Valid() && PlausibleSuper(sb)
      modifies this`clean
      ensures clean <==> old(clean) && Accounted()
    {
      hide AsInodes, AsBits, Unset, Within, DirsMarked, Nested, EnteredOnce, Tight, TightRef, TightLink, StandsAt, ListAt, Honest, Settled, Inums, InodeOn, DiskBit;
      ChkMap(zoneMap, sb.firstdatazone - 1, SUPER_BLOCK + 1 + sb.imapBlocks, sb.zmapBlocks, sb.nzones);
      ChkCount();
      ChkMap(inodeMap, 0, SUPER_BLOCK + 1, sb.imapBlocks, sb.ninodes + 1);
      ChkIlist();
    }

    /** chkdev(): false when the pass ends early. */
    method ChkDev(ghost N: nat, ghost t: Node) returns (done: bool)
      requires |dev| > SUPER_BLOCK && sb == AsSuper(dev[SUPER_BLOCK]) && sb.logZoneSize == 0 && Words(sb) && sb.nzones <= |dev|
      requires clean && !fatal && stack == []
      modifies this
      ensures done ==> PlausibleSuper(sb) && FittingSuper(sb)
      ensures done && clean ==> Consistent(dev, sb, trace)
      ensures PlausibleSuper(sb) && FittingSuper(sb) && Guide(dev, sb, record) ==> done && clean
      ensures FileSystem(dev, N, t) && Sound(t) ==>
        && done && clean
        && inodeMap == AsBits(dev[INODE_MAP]) && zoneMap == AsBits(dev[ZONE_MAP])
        && (forall i :: 0 <= i < |count| ==> count[i] == 0)
    {
      hide View, NodeAt, Arrives, Leaves, FileSystem, Unset, DirsMarked, Nested, EnteredOnce, Tight, TightRef, TightLink, StandsAt, ListAt, Honest, Settled, Within, Inums, InodeOn, Consistent, AsBits, AsSuper, Extends, LinksInside, PlausibleSuper, FittingSuper, Words, Guide, OnRecordTo, NewRefs;
      ghost var expected := FileSystem(dev, N, t) && Sound(t);
      if expected { SuperOfMkfs(dev, N, t); }
      var ok := GetSuper();
      if !ok { return false; }
      ok := ChkSuper();
      if !ok { return false; }
      GetMaps();
      ghost var s := Now();
      if expected { RootArrives(dev, N, s, t); }
      ghost var guided := Guide(dev, sb, record);
      if guided { RootIsRecorded(dev, sb, record); }
      DescendTree(ROOT_INODE, N, t, ROOT_INODE, First(N));
      if guided { AllOnRecord(); }
      if fatal { return false; }
      if expected { AllLeft(dev, N, s, Now(), t); }
      FinalChecks();
      done := true;
      if clean { AllConsistent(); }
    }

    /** When the walk stays on the record to its end, all is accounted for. */
    lemma AllOnRecord()
      requires Valid() && OnRecord() && stack == [] && (Fine() ==> ROOT_INODE in trace.met)
      ensures Fine() && Accounted()
    {
      hide DirsMarked, Nested, EnteredOnce, Tight, Honest, Complete, Consistent, DotsStand, Inside, DirsOnly, InodeOn, DiskBit, Over;
      assert Inums(stack) == [];
      assert Over(dev, sb, record, trace) by { WalkIsOver(); }
      BlocksOfMaps(sb.nzones - sb.firstdatazone);
      BlocksOfMaps(sb.ninodes);
      CountsAreZero(dev, sb, record, trace, inodeMap, zoneMap, count);
      forall k | 0 <= k < sb.nzones - sb.firstdatazone + 1 ensures DiskBit(dev, SUPER_BLOCK + 1 + sb.imapBlocks, k) == zoneMap[k] {
        ZonesAgree(dev, sb, record, trace, inodeMap, zoneMap, count, k);
      }
      forall k | 0 <= k <= sb.ninodes
        ensures DiskBit(dev, SUPER_BLOCK + 1, k) == inodeMap[k] && (1 <= k && !inodeMap[k] ==> InodeOn(dev, sb, k).kind == NotAllocated)
      {
        InodesAgree(dev, sb, record, trace, inodeMap, zoneMap, count, k);
      }
    }

    lemma WalkIsOver()
      requires Valid() && OnRecord() && stack == [] && ROOT_INODE in trace.met
      ensures Over(dev, sb, record, trace)
    {
      hide DirsMarked, Nested, EnteredOnce, Tight, Honest, Complete, Consistent, DotsStand, Inside, DirsOnly, InodeOn;
      assert Inums(stack) == [];
    }

    lemma AllConsistent()
      requires Valid() && Accounted() && Fine() && stack == [] && ROOT_INODE in trace.met
      ensures Consistent(dev, sb, trace)
    {
      hide DirsMarked, Nested, EnteredOnce, Tight, TightRef, TightLink, StandsAt, ListAt, Honest, Settled, Consistent, InodeOn, DiskBit;
      assert Inums(stack) == [];
      BlocksOfMaps(sb.nzones - sb.firstdatazone);
      BlocksOfMaps(sb.ninodes);
      CleanIsConsistent(dev, sb, trace, inodeMap, zoneMap, count);
    }
  }

  lemma BlocksOfMaps(n: nat)
    ensures forall k :: 0 <= k <= n ==> k / BITS_PER_BLOCK <= n / BITS_PER_BLOCK
  {
  }

  lemma SuperOfMkfs(dev: seq<Block>, N: nat, t: Node)
    requires FileSystem(dev, N, t)
    ensures |dev| > SUPER_BLOCK && AsSuper(dev[SUPER_BLOCK]) == TheSuper(N, |dev|)
    ensures PlausibleSuper(TheSuper(N, |dev|)) && FittingSuper(TheSuper(N, |dev|)) && Words(TheSuper(N, |dev|))
    ensures N < BITS_PER_BLOCK && 0 < |dev| <= BITS_PER_BLOCK && First(N) <= |dev|
  {
    hide View, NodeAt, Taken, FreeFrom;
  }

  lemma RootArrives(dev: seq<Block>, N: nat, s: State, t: Node)
    requires FileSystem(dev, N, t) && Sound(t) && s.clean
    requires s.inodeMap == FreshBits(BITS_PER_BLOCK, N + 1) && s.zoneMap == FreshBits(BITS_PER_BLOCK, |dev| - First(N) + 1)
    requires s.count == seq(N + 1, _ => 0)
    ensures Arrives(dev, N, s, t, ROOT_INODE, ROOT_INODE, First(N))
  {
    hide View, NodeAt, FreeFrom, Sound;
    assert s.inodeMap == Taken(1, N + 1);
    assert s.zoneMap == Taken(1, |dev| - First(N) + 1);
  }

  /** The maps rebuilt are those on the disk, no link is unaccounted for, and the inodes not met are free. */
  lemma AllLeft(dev: seq<Block>, N: nat, s: State, s': State, t: Node)
    requires FileSystem(dev, N, t) && s.count == seq(N + 1, _ => 0)
    requires Leaves(dev, N, s, s', t, ROOT_INODE, ROOT_INODE, First(N))
    ensures First(N) <= |dev| && s'.clean && |s'.count| == N + 1 && forall i :: 0 <= i <= N ==> s'.count[i] == 0
    ensures s'.inodeMap == AsBits(dev[INODE_MAP]) && s'.zoneMap == AsBits(dev[ZONE_MAP])
    ensures forall k :: 0 <= k < BITS_PER_BLOCK ==> DiskBit(dev, INODE_MAP, k) == s'.inodeMap[k]
    ensures forall k :: 0 <= k < BITS_PER_BLOCK ==> DiskBit(dev, ZONE_MAP, k) == s'.zoneMap[k]
    ensures forall i :: 1 <= i <= N && !s'.inodeMap[i] ==> InodeOn(dev, TheSuper(N, |dev|), i).kind == NotAllocated
  {
    MapBits(dev, N, t);
    forall i | 1 <= i <= N && !s'.inodeMap[i] ensures InodeOn(dev, TheSuper(N, |dev|), i).kind == NotAllocated {
      FreeInode(dev, N, t, i);
    }
    hide NodeAt, Sound, View, DiskBit, InodeOn, FreeFrom;
  }

  lemma MapBits(dev: seq<Block>, N: nat, t: Node)
    requires FileSystem(dev, N, t)
    ensures |dev| > INODE_OFFSET && First(N) <= |dev|
    ensures AsBits(dev[INODE_MAP]) == Taken(ROOT_INODE + Inodes(t), N + 1)
    ensures AsBits(dev[ZONE_MAP]) == Taken(First(N) + Zones(t) - First(N) + 1, |dev| - First(N) + 1)
    ensures forall k :: 0 <= k < BITS_PER_BLOCK ==> DiskBit(dev, INODE_MAP, k) == AsBits(dev[INODE_MAP])[k]
    ensures forall k :: 0 <= k < BITS_PER_BLOCK ==> DiskBit(dev, ZONE_MAP, k) == AsBits(dev[ZONE_MAP])[k]
  {
    hide NodeAt, View, FreeFrom, DiskBit;
    FirstIsTaken(ROOT_INODE + Inodes(t), N + 1);
    FirstIsTaken(First(N) + Zones(t) - First(N) + 1, |dev| - First(N) + 1);
    hide Taken;
    OneBlock(dev, INODE_MAP);
    OneBlock(dev, ZONE_MAP);
  }

  lemma FirstIsTaken(used: nat, len: nat)
    requires used >= 1
    ensures Taken(used, len)[0]
  {
  }

  lemma OneBlock(dev: seq<Block>, b: nat)
    requires b < |dev| && AsBits(dev[b])[0]
    ensures forall k :: 0 <= k < BITS_PER_BLOCK ==> DiskBit(dev, b, k) == AsBits(dev[b])[k]
  {
    hide AsBits;
    forall k | 0 <= k < BITS_PER_BLOCK ensures DiskBit(dev, b, k) == AsBits(dev[b])[k] {
      assert k / BITS_PER_BLOCK == 0 && k % BITS_PER_BLOCK == k;
    }
  }

  lemma FreeInode(dev: seq<Block>, N: nat, t: Node, i: nat)
    requires FileSystem(dev, N, t) && 1 <= i <= N && !Taken(ROOT_INODE + Inodes(t), N + 1)[i]
    ensures InodeOn(dev, TheSuper(N, |dev|), i).kind == NotAllocated
  {
    hide NodeAt, View;
    InodeIs(dev, N, i);
    assert View(dev, N).tab[i] == NO_INODE;
  }

  /** A 16-bit number as a signed short. */
  function Short(x: nat): int { if x % 0x10000 >= 0x8000 then x % 0x10000 - 0x10000 else x % 0x10000 }

  function BitmapSize(bits: nat): nat { (bits + BITS_PER_BLOCK - 1) / BITS_PER_BLOCK }

  /** The fields are 16-bit numbers. */
  predicate Words(sb: Super) {
    sb.ninodes < 0x10000 && sb.nzones < 0x10000 && sb.imapBlocks < 0x10000 && sb.zmapBlocks < 0x10000 && sb.firstdatazone < 0x10000
  }

  predicate PlausibleSuper(sb: Super) {
    sb.magic == SUPER_MAGIC && Short(sb.ninodes) > 0 && sb.nzones > 2 && Short(sb.imapBlocks) > 0 && Short(sb.zmapBlocks) > 0 &&
    Short(sb.firstdatazone) > 1 && Short(sb.logZoneSize) >= 0 && sb.maxSize > 0
  }

  predicate FittingSuper(sb: Super) {
    sb.magic == SUPER_MAGIC && Short(sb.imapBlocks) >= BitmapSize(1 + sb.ninodes) && Short(sb.zmapBlocks) >= BitmapSize(sb.nzones) &&
    Short(sb.firstdatazone) < sb.nzones &&
    Short(sb.firstdatazone) >= SUPER_BLOCK + 1 + sb.imapBlocks + sb.zmapBlocks + (sb.ninodes + INODES_PER_BLOCK - 1) / INODES_PER_BLOCK
  }

  lemma RoomForMaps(sb: Super)
    requires PlausibleSuper(sb) && FittingSuper(sb) && Words(sb)
    ensures sb.imapBlocks * BITS_PER_BLOCK > sb.ninodes && sb.zmapBlocks * BITS_PER_BLOCK >= sb.nzones && 1 < sb.firstdatazone < sb.nzones
    ensures SUPER_BLOCK + 1 + sb.imapBlocks + sb.zmapBlocks + (sb.ninodes + INODES_PER_BLOCK - 1) / INODES_PER_BLOCK <= sb.firstdatazone
    ensures sb.ninodes >= ROOT_INODE
  {
    hide BitmapSize, Short;
    ShortIs(sb.ninodes);
    ShortIs(sb.imapBlocks);
    ShortIs(sb.zmapBlocks);
    ShortIs(sb.firstdatazone);
    BlocksHold(1 + sb.ninodes, sb.imapBlocks);
    BlocksHold(sb.nzones, sb.zmapBlocks);
  }

  lemma ShortIs(x: nat)
    requires x < 0x10000 && Short(x) > 0
    ensures Short(x) == x
  {
  }

  lemma BlocksHold(bits: nat, blocks: nat)
    requires blocks >= BitmapSize(bits)
    ensures blocks * BITS_PER_BLOCK >= bits
  {
  }

  /** A map in which only bit 0 and the bits from `len` on are set. */
  function FreshBits(size: nat, len: nat): seq<bool> { seq(size, k => k == 0 || k >= len) }

  /** allocbitmap() and initbitmap() */
  method InitBitmap(nblk: nat, len: nat) returns (bits: seq<bool>)
    ensures bits == FreshBits(nblk * BITS_PER_BLOCK, len)
  {
    bits := seq(nblk * BITS_PER_BLOCK, i => i == 0);
    var bit := len;
    while bit < |bits|
      invariant len <= bit && |bits| == nblk * BITS_PER_BLOCK
      invariant forall k :: 0 <= k < |bits| ==> bits[k] == (k == 0 || (len <= k < bit))
    {
      bits := bits[bit := true];
      bit := bit + 1;
    }
  }

  lemma NamedLooks(N: nat, s: State, n: nat, parent: nat, e: nat, dp: Entry)
    requires EntryLooks(N, s, n, parent, e, dp) && !(IsDot(dp.name) || IsDotDot(dp.name))
    ensures e >= 2 && dp.name[0] != '\0' && !HasSlash(dp.name) && !s.inodeMap[dp.inum]
  {
  }

  lemma NotVisited(dev: seq<Block>, N: nat, s: State, t: Node, n: nat, parent: nat, z: nat)
    requires Arrives(dev, N, s, t, n, parent, z)
    ensures n < |s.inodeMap| && !s.inodeMap[n] && 1 <= n <= N && First(N) <= |dev|
  {
    hide View, NodeAt;
    FreeBit(n, N + 1);
  }

  lemma InodeIs(dev: seq<Block>, N: nat, n: nat)
    requires First(N) <= |dev| && 1 <= n <= N
    ensures var b := SUPER_BLOCK + 1 + 1 + 1 + (n - 1) / INODES_PER_BLOCK;
      b < |dev| && AsInodes(dev[b])[(n - 1) % INODES_PER_BLOCK] == View(dev, N).tab[n]
  {
    ViewAt(dev, N, n);
  }

  lemma InodeOfIs(dev: seq<Block>, N: nat, n: nat)
    requires First(N) <= |dev| && n <= N
    ensures n < |View(dev, N).tab|
  {
  }

  lemma RootIsDir(dev: seq<Block>, N: nat, s0: State, t: Node, n: nat, parent: nat, z: nat)
    requires Arrives(dev, N, s0, t, n, parent, z)
    ensures First(N) <= |dev| && s0.count != [] && s0.clean && (n == ROOT_INODE ==> t.DirNode?) && (n == parent ==> t.DirNode?)
  {
  }

  lemma DirMapAside(dev: seq<Block>, N: nat, s0: State, s: State, s': State, t: Node, n: nat, parent: nat, z: nat)
    requires InDir(dev, N, s0, s, t, n, parent, z, 0, false) && s' == s.(dirMap := s'.dirMap)
    ensures InDir(dev, N, s0, s', t, n, parent, z, 0, false)
  {
  }

  /** Before the list of the inode's level-th indirect zone: either it is the indirect block's turn, or the file has ended. */
  lemma NextListIs(dev: seq<Block>, N: nat, s1: State, s: State, ip: Inode, z: nat, pos: nat, lists: nat)
    requires FileUnderway(dev, N, s1, s, ip.size, z, pos, lists)
    ensures lists == 1 && Blocks(ip.size) > NR_DZONE_NUM ==> Follows(OfIndirect(s1, Blocks(ip.size), z), dev, N, s, pos, 0)
    ensures !(lists == 1 && Blocks(ip.size) > NR_DZONE_NUM) ==> pos >= ip.size
  {
    hide InFile;
  }

  lemma ListDone(dev: seq<Block>, N: nat, s1: State, s: State, ip: Inode, z: nat, pos0: nat, pos: nat, lists: nat)
    requires 1 <= lists
    requires if lists == 1 && Blocks(ip.size) > NR_DZONE_NUM then Follows(OfIndirect(s1, Blocks(ip.size), z), dev, N, s, pos, 1)
             else pos == pos0 && FileUnderway(dev, N, s1, s, ip.size, z, pos, lists)
    ensures FileUnderway(dev, N, s1, s, ip.size, z, pos, lists + 1)
  {
    hide InFile;
  }

  /** fsck's pass over any device. When it ends with nothing to complain about, the file system is consistent; and on a consistent
      one with "." and ".." in place it does end so. */
  method FsckAny(dev: seq<Block>) returns (clean: bool)
    requires |dev| > SUPER_BLOCK && AsSuper(dev[SUPER_BLOCK]).logZoneSize == 0 && Words(AsSuper(dev[SUPER_BLOCK])) && AsSuper(dev[SUPER_BLOCK]).nzones <= |dev|
    ensures var sb := AsSuper(dev[SUPER_BLOCK]);
      && (clean ==> PlausibleSuper(sb) && FittingSuper(sb) && exists tr :: Consistent(dev, sb, tr))
      && (PlausibleSuper(sb) && FittingSuper(sb) && (exists rec :: Guide(dev, sb, rec)) ==> clean)
  {
    hide Consistent, Guide, FileSystem, Sound, PlausibleSuper, FittingSuper, Words, AsSuper;
    ghost var sb := AsSuper(dev[SUPER_BLOCK]);
    ghost var record := NO_TRACE;
    if exists rec :: Guide(dev, sb, rec) { record :| Guide(dev, sb, record); }
    var checker := new Checker(dev, record);
    var done := checker.ChkDev(0, DirNode(0, []));
    clean := done && checker.clean;
    if clean { assert Consistent(dev, sb, checker.trace); }
  }

  /** What mkfs builds from a tree that fits, fsck finds nothing wrong with exactly if the tree is sound. */
  method MkfsThenFsck(raw: seq<Block>, inodes: nat, t: Node) returns (built: bool, clean: bool)
    requires Geometry(inodes, |raw|) && t.DirNode?
    ensures built <==> MkfsTree.Fits(t, ROOT_INODE, First(inodes), inodes, |raw|)
    ensures built ==> (clean <==> Sound(t))
  {
    hide View, NodeAt, Sound, Consistent, FreeFrom, MapsAt, MkfsTree.Fits, TheSuper;
    var image;
    built, image := Build(raw, inodes, t);
    if !built { return false, false; }
    SuperOfMkfs(image, inodes, t);
    SuperPlain(inodes, |image|);
    var checker := new Checker(image, NO_TRACE);
    var done := checker.ChkDev(inodes, t);
    clean := done && checker.clean;
    if clean { BuiltIsSound(image, inodes, t, checker.trace); }
  }

  lemma SuperPlain(inodes: nat, blocks: nat)
    ensures TheSuper(inodes, blocks).logZoneSize == 0 && TheSuper(inodes, blocks).nzones == blocks
  {
  }
}
