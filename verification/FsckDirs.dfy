/** How directories hang together on any device: each is entered once, and the walk comes to it through that entry. */
module FsckDirs {
  import opened FsDisk
  import opened FsckState
  import opened FsckTrace

  ghost predicate IsDirectory(dev: seq<Block>, sb: Super, i: nat) { i >= 1 && InodeOn(dev, sb, i).kind == Directory }

  /** Among the first n links, the ordinary ones name inodes that have been met, none names the root, and no two name the same directory. */
  ghost predicate EnteredOnce(dev: seq<Block>, sb: Super, met: seq<nat>, links: seq<Link>, n: nat) {
    && n <= |links|
    && (forall i :: 0 <= i < n && links[i].plain ==> links[i].target in met && links[i].target != ROOT_INODE)
    && (forall i, j :: 0 <= i < j < n && links[i].plain && links[j].plain && links[i].target == links[j].target ==> !IsDirectory(dev, sb, links[i].target))
    && (ROOT_INODE in met ==> IsDirectory(dev, sb, ROOT_INODE))
  }

  /** The directories met are marked, but for inode x, which has only just been met. */
  ghost predicate DirsMarked(dev: seq<Block>, sb: Super, met: seq<nat>, dirMap: seq<bool>, x: nat) {
    forall i :: i in met && i != x && i < |dirMap| && IsDirectory(dev, sb, i) ==> dirMap[i]
  }

  /** Each directory being descended is entered in the one below it on the stack. */
  ghost predicate Nested(links: seq<Link>, open: seq<nat>) {
    forall k :: 0 <= k < |open| - 1 ==> NamedFrom(links, open[k], open[k + 1])
  }

  /** The links that are done with when the last one has been counted and its inode has not been met. */
  function Before(links: seq<Link>): nat { if links == [] then 0 else |links| - 1 }

  /** The walk is about to come to inode ino, which the last link names, or to the root. */
  ghost predicate Awaited(links: seq<Link>, ino: nat) {
    if links == [] then ino == ROOT_INODE else links[|links|-1].plain && links[|links|-1].target == ino
  }

  lemma NothingEntered(dev: seq<Block>, sb: Super, dirMap: seq<bool>)
    ensures EnteredOnce(dev, sb, [], [], 0) && DirsMarked(dev, sb, [], dirMap, 0) && Nested([], [])
  {
  }

  /** An entry is counted; "." and ".." are done with. */
  lemma OneMoreEntered(dev: seq<Block>, sb: Super, met: seq<nat>, links: seq<Link>, l: Link)
    requires EnteredOnce(dev, sb, met, links, |links|)
    ensures EnteredOnce(dev, sb, met, links + [l], |links|)
    ensures !l.plain ==> EnteredOnce(dev, sb, met, links + [l], |links| + 1)
  {
    hide IsDirectory;
  }

  lemma StillNested(links: seq<Link>, links': seq<Link>, open: seq<nat>)
    requires links <= links' && Nested(links, open)
    ensures Nested(links', open)
  {
    hide NamedFrom;
    forall k | 0 <= k < |open| - 1 ensures NamedFrom(links', open[k], open[k + 1]) { StillNamed(links, links', open[k], open[k + 1]); }
  }

  /** descendtree() */
  lemma OneMoreNested(links: seq<Link>, ino: nat, stack: seq<Frame>)
    requires Nested(links, Inums(stack)) && Awaited(links, ino)
    requires stack != [] ==> links != [] && links[|links|-1].dir == stack[0].inum
    ensures Nested(links, [ino] + Inums(stack))
  {
    if stack != [] { assert NamedFrom(links, ino, Inums(stack)[0]); }
  }

  lemma OneLessNested(links: seq<Link>, ino: nat, open: seq<nat>)
    requires Nested(links, [ino] + open)
    ensures Nested(links, open)
  {
    hide NamedFrom;
    forall k | 0 <= k < |open| - 1 ensures NamedFrom(links, open[k], open[k + 1]) {
      assert ([ino] + open)[k + 1] == open[k] && ([ino] + open)[k + 2] == open[k + 1];
    }
  }

  lemma TopIsNested(links: seq<Link>, stack: seq<Frame>)
    requires |stack| >= 2 && Nested(links, Inums(stack))
    ensures NamedFrom(links, stack[0].inum, stack[1].inum)
  {
    assert Inums(stack) == [stack[0].inum] + Inums(stack[1..]);
    assert Inums(stack[1..]) == [stack[1].inum] + Inums(stack[1..][1..]);
    hide NamedFrom;
    assert NamedFrom(links, Inums(stack)[0], Inums(stack)[1]);
  }

  /** Whatever is met, the root is first. */
  lemma RootFirst(dev: seq<Block>, sb: Super, tr: Trace, inodeMap: seq<bool>, zoneMap: seq<bool>, count: seq<nat>)
    requires Honest(dev, sb, tr, inodeMap, zoneMap, count) && tr.links != []
    ensures ROOT_INODE in tr.met
  {
    hide InodeOn, TrueRef, AllOnce, MapsTell, CountsTell;
    assert TrueLink(dev, sb, tr, tr.links[0]);
    assert NamedBefore(tr, 0);
  }

  /** The walk comes to an inode that it has met, and that is not marked as a directory. */
  lemma VisitedEntered(dev: seq<Block>, sb: Super, tr: Trace, dirMap: seq<bool>, ino: nat, inodeMap: seq<bool>, zoneMap: seq<bool>, count: seq<nat>)
    requires Honest(dev, sb, tr, inodeMap, zoneMap, count) && EnteredOnce(dev, sb, tr.met, tr.links, Before(tr.links)) && Awaited(tr.links, ino)
    requires DirsMarked(dev, sb, tr.met, dirMap, 0) && 1 <= ino < |dirMap| && !dirMap[ino] && ino in tr.met
    ensures EnteredOnce(dev, sb, tr.met, tr.links, |tr.links|)
  {
    hide Honest, IsDirectory;
    if tr.links != [] {
      RootFirst(dev, sb, tr, inodeMap, zoneMap, count);
      assert !IsDirectory(dev, sb, ino);
    }
  }

  /** chkinode() */
  lemma MetEntered(dev: seq<Block>, sb: Super, tr: Trace, ino: nat, inodeMap: seq<bool>, zoneMap: seq<bool>, count: seq<nat>)
    requires Honest(dev, sb, tr, inodeMap, zoneMap, count) && EnteredOnce(dev, sb, tr.met, tr.links, Before(tr.links)) && Awaited(tr.links, ino)
    requires ino !in tr.met && (ino == ROOT_INODE ==> IsDirectory(dev, sb, ino))
    ensures EnteredOnce(dev, sb, tr.met + [ino], tr.links, |tr.links|)
  {
    hide Honest, IsDirectory;
    if tr.links != [] { RootFirst(dev, sb, tr, inodeMap, zoneMap, count); }
  }

  lemma MetMarked(dev: seq<Block>, sb: Super, met: seq<nat>, dirMap: seq<bool>, ino: nat)
    requires DirsMarked(dev, sb, met, dirMap, 0)
    ensures DirsMarked(dev, sb, met + [ino], dirMap, ino)
  {
    hide InodeOn;
  }

  /** chkdirectory() */
  lemma NowMarked(dev: seq<Block>, sb: Super, met: seq<nat>, dirMap: seq<bool>, ino: nat)
    requires DirsMarked(dev, sb, met, dirMap, ino) && ino < |dirMap|
    ensures DirsMarked(dev, sb, met, dirMap[ino := true], 0)
  {
    hide InodeOn;
  }

  lemma NotToBeMarked(dev: seq<Block>, sb: Super, met: seq<nat>, dirMap: seq<bool>, ino: nat)
    requires DirsMarked(dev, sb, met, dirMap, ino) && !IsDirectory(dev, sb, ino)
    ensures DirsMarked(dev, sb, met, dirMap, 0)
  {
    hide InodeOn;
  }

  lemma AwaitedIsNamed(dev: seq<Block>, sb: Super, tr: Trace, ino: nat, inodeMap: seq<bool>, zoneMap: seq<bool>, count: seq<nat>)
    requires Honest(dev, sb, tr, inodeMap, zoneMap, count) && Awaited(tr.links, ino)
    ensures ino == ROOT_INODE || NamedIn(tr, ino)
  {
    hide InodeOn, TrueRef, AllOnce, MapsTell, CountsTell, AllNamed;
    if tr.links != [] { assert TrueLink(dev, sb, tr, tr.links[|tr.links|-1]); }
  }
}
