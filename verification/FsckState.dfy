/** What fsck keeps while it walks a file system, and what it has to look like on a sound one. */
module FsckState {
  import opened FsDisk
  import opened FsTree
  import opened MkfsTree

  const LINK_MAX := 127

  /** struct stack: a directory being descended, and which of "." and ".." have been seen in it. */
  datatype Frame = Frame(inum: nat, dot: bool, dotdot: bool)

  /** The maps and counts that are rebuilt; `clean` until something is complained about. */
  datatype State = State(inodeMap: seq<bool>, zoneMap: seq<bool>, dirMap: seq<bool>, count: seq<nat>, stack: seq<Frame>, clean: bool)

  // ---------- The number of inodes not yet visited ----------

  function Unset(bits: seq<bool>): nat {
    if bits == [] then 0 else (if bits[0] then 0 else 1) + Unset(bits[1..])
  }

  lemma {:induction false} SetOne(bits: seq<bool>, i: nat)
    requires i < |bits| && !bits[i]
    ensures Unset(bits[i := true]) == Unset(bits) - 1
  {
    if i == 0 {
      assert bits[0 := true][1..] == bits[1..];
    } else {
      SetOne(bits[1..], i - 1);
      assert bits[i := true][1..] == bits[1..][i - 1 := true];
    }
  }

  // ---------- Sound trees ----------

  /** strcmp(name, ".") == 0 */
  predicate IsDot(name: Name) { name[0] == '.' && name[1] == '\0' }

  predicate IsDotDot(name: Name) { name[0] == '.' && name[1] == '.' && name[2] == '\0' }

  /** Is there a '/' before the first NUL? */
  predicate HasSlash(name: string) {
    name != [] && name[0] != '\0' && (name[0] == '/' || HasSlash(name[1..]))
  }

  predicate PlainName(name: Name) {
    name[0] != '\0' && !IsDot(name) && !IsDotDot(name) && !HasSlash(name)
  }

  /** No child is called "." or "..", none has a '/' in its name or no name, and no directory has
      more links than the limit. */
  predicate Sound(t: Node)
    decreases t, 1, 0
  {
    t.DirNode? ==> 2 + Subdirs(t, |t.kids|) <= LINK_MAX && SoundUpTo(t, |t.kids|)
  }

  predicate SoundUpTo(t: Node, k: nat)
    requires t.DirNode? && k <= |t.kids|
    decreases t, 0, k
  {
    k == 0 || (SoundUpTo(t, k - 1) && Sound(t.kids[k - 1].node) && PlainName(Pad(t.kids[k - 1].name)))
  }

  lemma {:induction false} SoundKid(t: Node, k: nat, i: nat)
    requires t.DirNode? && i < k <= |t.kids| && SoundUpTo(t, k)
    ensures Sound(t.kids[i].node) && PlainName(Pad(t.kids[i].name))
    decreases k
  {
    if i < k - 1 { SoundKid(t, k - 1, i); }
  }

  lemma DotNames()
    ensures IsDot(Pad(DOT)) && !IsDot(Pad(DOTDOT)) && IsDotDot(Pad(DOTDOT))
    ensures Pad(DOT)[1] == '\0' && Pad(DOTDOT)[1] != '\0'
  {
  }

  // ---------- Link counts ----------

  /** count[i]++ in an unsigned byte */
  function Bump(count: seq<nat>, i: nat): (r: seq<nat>)
    ensures |r| == |count|
  {
    if i < |count| then count[i := (count[i] + 1) % 256] else count
  }

  /** The counts once the inode of directory n, and e entries of it with all below them, are done. */
  function Mid(count: seq<nat>, t: Node, n: nat, parent: nat, e: nat): (r: seq<nat>)
    requires t.DirNode? && e <= |t.kids| + 2 && n < |count| && count[n] + 256 >= 2 + Subdirs(t, |t.kids|)
    ensures |r| == |count|
  {
    if e == 0 then count[n := (count[n] + 256 - (2 + Subdirs(t, |t.kids|))) % 256]
    else if e == 1 then Bump(Mid(count, t, n, parent, 0), n)
    else if e == 2 then Bump(Mid(count, t, n, parent, 1), parent)
    else if t.kids[e - 3].node.DirNode? then Bump(Mid(count, t, n, parent, e - 1), n)
    else Mid(count, t, n, parent, e - 1)
  }

  /** What has been added to the directory's own count after e entries. */
  function Gained(t: Node, n: nat, parent: nat, e: nat): nat
    requires t.DirNode? && e <= |t.kids| + 2
  {
    (if e >= 1 then 1 else 0) + (if e >= 2 && parent == n then 1 else 0) + if e >= 2 then Subdirs(t, e - 2) else 0
  }

  lemma {:induction false} MidAt(count: seq<nat>, t: Node, n: nat, parent: nat, e: nat, i: nat)
    requires t.DirNode? && e <= |t.kids| + 2 && n < |count| && parent < |count| && i < |count|
    requires count[n] <= 1 && 2 + Subdirs(t, |t.kids|) <= LINK_MAX
    requires forall j :: 0 <= j < |count| ==> count[j] < 256
    ensures Mid(count, t, n, parent, e)[i] ==
      if i == n then (count[n] + 256 - (2 + Subdirs(t, |t.kids|)) + Gained(t, n, parent, e)) % 256
      else if i == parent && e >= 2 then (count[parent] + 1) % 256
      else count[i]
    decreases e
  {
    if e > 0 {
      MidAt(count, t, n, parent, e - 1, i);
      Wraps(count[n] + 256 - (2 + Subdirs(t, |t.kids|)) + Gained(t, n, parent, e - 1));
      GainedMore(t, n, parent, e);
      hide Gained, Subdirs;
    }
  }

  lemma Wraps(x: nat)
    ensures (x % 256 + 1) % 256 == (x + 1) % 256
  {
  }

  lemma GainedMore(t: Node, n: nat, parent: nat, e: nat)
    requires t.DirNode? && 0 < e <= |t.kids| + 2
    ensures Gained(t, n, parent, e) == Gained(t, n, parent, e - 1) +
      if e == 1 || (e == 2 && parent == n) || (e > 2 && t.kids[e - 3].node.DirNode?) then 1 else 0
  {
  }

  lemma {:induction false} SubdirsMonotone(t: Node, i: nat, k: nat)
    requires t.DirNode? && i <= k <= |t.kids|
    ensures Subdirs(t, i) <= Subdirs(t, k)
    decreases k
  {
    if i < k { SubdirsMonotone(t, i, k - 1); }
  }

  lemma GainedAtMost(t: Node, n: nat, parent: nat, e: nat)
    requires t.DirNode? && e <= |t.kids| + 2
    ensures var all := Subdirs(t, |t.kids|) + if parent == n then 2 else 1;
      Gained(t, n, parent, e) <= all && (e == |t.kids| + 2 ==> Gained(t, n, parent, e) == all)
  {
    if e >= 2 { SubdirsMonotone(t, e - 2, |t.kids|); }
  }

  /** The directory's own count never looks like the limit before all is done, and ends at zero. */
  lemma OwnCount(count: seq<nat>, t: Node, n: nat, parent: nat, e: nat)
    requires t.DirNode? && e <= |t.kids| + 2 && n < |count| && parent < |count|
    requires count[n] == (if parent == n then 0 else 1) && 2 + Subdirs(t, |t.kids|) <= LINK_MAX
    requires forall j :: 0 <= j < |count| ==> count[j] < 256
    ensures Mid(count, t, n, parent, e)[n] != LINK_MAX
    ensures e == |t.kids| + 2 ==> Mid(count, t, n, parent, e)[n] == 0
  {
    hide Mid, Subdirs, Gained;
    MidAt(count, t, n, parent, e, n);
    GainedAtMost(t, n, parent, e);
  }

  /** The counts after a whole subtree. */
  function Tally(count: seq<nat>, t: Node, n: nat, parent: nat): (r: seq<nat>)
    requires n < |count|
    ensures |r| == |count|
  {
    var done := count[n := 0];
    if t.DirNode? && parent != n then Bump(done, parent) else done
  }

  lemma TallyIsMid(count: seq<nat>, t: Node, n: nat, parent: nat)
    requires t.DirNode? && n < |count| && parent < |count|
    requires count[n] == (if parent == n then 0 else 1) && 2 + Subdirs(t, |t.kids|) <= LINK_MAX
    requires forall j :: 0 <= j < |count| ==> count[j] < 256
    ensures Mid(count, t, n, parent, |t.kids| + 2) == Tally(count, t, n, parent)
  {
    var r := Mid(count, t, n, parent, |t.kids| + 2);
    OwnCount(count, t, n, parent, |t.kids| + 2);
    forall i | 0 <= i < |count| ensures r[i] == Tally(count, t, n, parent)[i] { MidAt(count, t, n, parent, |t.kids| + 2, i); }
  }
}
