/** ci and co: checking revisions in as a stack of reverse deltas and getting any of them back. */
module CiCo {
  import opened Text
  import opened Fix
  import opened Edits
  import opened Diff
  import opened SvcFile
  import opened Options

  // ---------- The programs ----------

  /** ci's main(): the new SVC file, line by line. */
  method Ci(svc: Option<seq<string>>, user: string, content: seq<string>, log: seq<string>, relock: seq<string>)
    returns (r: CheckIn)
    ensures r == CiOf(svc, user, content, log, relock)
    ensures svc.Some? && r.CheckedIn? ==> StoresDelta(svc.value, content, r.lines)
  {
    if svc.Some? && CiOf(svc, user, content, log, relock).CheckedIn? { DeltaIsStored(svc.value, user, content, log, relock); }
    hide Print, ReadRevision, LockCheck, Unlocked, UpTo, Behind, FileStart, DeltaLines, IsLock;
    if svc.None? {
      r := CheckedIn(FileStart(1, content) + (log + ([RM_LINE] + relock)));
      return;
    }
    var lines := svc.value;
    if lines == [] { return Rejected; }
    var header := ReadRevision(lines[0]);
    if header.None? { return Rejected; }
    var rev := header.value + 1;
    if !LockCheck(lines, user, rev) { return Rejected; }
    var pos := if |lines| < 2 then |lines| else 2;
    assert lines[pos..] == Drop(lines, 2);
    var original, rest := [], [];
    original, pos := CopyUpTo(lines, pos, MAIN_EOF);
    var script, diffs := Diff.Diff(content, original);   // rundiff()
    var whole := Size(original) <= Size(script);
    var d := Delta(rev, whole, if whole then original else script);
    rest := CopyUnlocked(lines, pos);
    r := CheckedIn(FileStart(rev, content) + (DeltaLines(d) + (log + (rest + relock))));
  }

  /** Behind the new revision stands the old one, to be moved into place, if it has no more bytes than diff's listing, and
      otherwise the listing, to be run by fix. */
  ghost predicate StoresDelta(was: seq<string>, content: seq<string>, lines: seq<string>) {
    was != [] && ReadRevision(was[0]).Some? &&
    var rev, original := ReadRevision(was[0]).value + 1, UpTo(Drop(was, 2), MAIN_EOF);
    var script := Print(EditsOf(content, original), 0, 0);
    FileStart(rev, content) + ([IfLine(rev)] +
      (if |Joined(original)| <= |Joined(script)| then original + [EofLine(rev), MV_LINE] else script + [EofLine(rev), FIX_LINE])) <= lines
  }

  lemma DeltaIsStored(was: seq<string>, user: string, content: seq<string>, log: seq<string>, relock: seq<string>)
    requires CiOf(Some(was), user, content, log, relock).CheckedIn?
    ensures StoresDelta(was, content, CiOf(Some(was), user, content, log, relock).lines)
  {
    hide ReadRevision, LockCheck, Unlocked, UpTo, Behind, FileStart, IfLine, EofLine, Joined, Print, EditsOf, DeltaFor;
    var rev, body := ReadRevision(was[0]).value + 1, Drop(was, 2);
    var original := UpTo(body, MAIN_EOF);
    DeltaIs(rev, content, original);
    var d, rest := DeltaFor(rev, content, original), log + (Unlocked(Behind(body, MAIN_EOF)) + relock);
    DeltaComesFirst(FileStart(rev, content), IfLine(rev), d.body, EofLine(rev), if d.whole then MV_LINE else FIX_LINE, rest);
  }

  lemma DeltaComesFirst(start: seq<string>, a: string, b: seq<string>, c: string, d: string, rest: seq<string>)
    ensures start + ([a] + (b + [c, d])) <= start + (([a] + (b + ([c] + [d]))) + rest)
  {
    assert start + (([a] + (b + ([c] + [d]))) + rest) == start + ([a] + (b + [c, d])) + rest;
  }

  /** The last copying loop of ci: up to a lock line. */
  method CopyUnlocked(lines: seq<string>, start: nat) returns (rest: seq<string>)
    requires start <= |lines|
    ensures rest == Unlocked(lines[start..])
  {
    hide IsLock;
    var pos := start;
    rest := [];
    while pos < |lines| && !IsLock(lines[pos])
      invariant start <= pos <= |lines| && rest + Unlocked(lines[pos..]) == Unlocked(lines[start..])
    {
      rest := rest + [lines[pos]];
      UnlockedStep(lines, pos);
      pos := pos + 1;
    }
    UnlockedStop(lines, pos);
  }

  lemma UnlockedStep(lines: seq<string>, pos: nat)
    requires pos < |lines| && !IsLock(lines[pos])
    ensures Unlocked(lines[pos..]) == [lines[pos]] + Unlocked(lines[pos + 1..])
  {
    assert lines[pos..][1..] == lines[pos + 1..];
  }

  lemma UnlockedStop(lines: seq<string>, pos: nat)
    requires pos <= |lines| && (pos < |lines| ==> IsLock(lines[pos]))
    ensures Unlocked(lines[pos..]) == []
  {
  }

  /** extract(): the newest revision, then one delta after the other. */
  method Extract(lines: seq<string>, rev: nat) returns (out: seq<string>)
    ensures out == CoOf(lines, rev)
  {
    hide KindOf, ReadTest, FixStep, EofLine;
    var pos := if |lines| < 2 then |lines| else 2;
    ghost var body := Drop(lines, 2);
    assert lines[pos..] == body;
    var text := [];
    text, pos := CopyUpTo(lines, pos, MAIN_EOF);
    var w := Work(text, [], 0);
    while pos < |lines|
      invariant pos <= |lines| && RunDeltas(lines[pos..], w, rev) == CoOf(lines, rev)
    {
      var line := lines[pos];
      assert lines[pos..][1..] == lines[pos + 1..];
      pos := pos + 1;
      match KindOf(line)
      case IfKind =>
        var t := ReadTest(line, w.testrev);
        if rev >= t { return w.out; }
        var fixfile;
        fixfile, pos := CopyUpTo(lines, pos, EofLine(t));
        w := Work(w.out, fixfile, t);
      case MvKind => w := w.(out := w.fixfile);
      case FixKind => w := FixStep(w);
      case Other =>
    }
    out := w.out;
  }

  /** The copying loops: fgets until the end or the marker. */
  method CopyUpTo(lines: seq<string>, start: nat, marker: string) returns (text: seq<string>, pos: nat)
    requires start <= |lines|
    ensures start <= pos <= |lines|
    ensures text == UpTo(lines[start..], marker) && lines[pos..] == Behind(lines[start..], marker)
  {
    text, pos := [], start;
    while pos < |lines| && lines[pos] != marker
      invariant start <= pos <= |lines|
      invariant text + UpTo(lines[pos..], marker) == UpTo(lines[start..], marker)
      invariant Behind(lines[pos..], marker) == Behind(lines[start..], marker)
    {
      text := text + [lines[pos]];
      assert lines[pos..][1..] == lines[pos + 1..];
      pos := pos + 1;
    }
    if pos < |lines| {
      assert lines[pos..][1..] == lines[pos + 1..];
      pos := pos + 1;
    }
  }

  // ---------- Histories ----------

  /** One check-in: the file and the log message. */
  datatype Commit = Commit(content: seq<string>, log: seq<string>)

  /** Everything behind the newest revision, oldest commit first in `h`. */
  function Stack(h: seq<Commit>): seq<string>
    requires h != []
  {
    var c := h[|h|-1];
    if |h| == 1 then c.log + [RM_LINE]
    else DeltaLines(DeltaAt(h, |h|)) + (c.log + Stack(h[..|h|-1]))
  }

  /** The delta from revision `k` to the one before. */
  function DeltaAt(h: seq<Commit>, k: nat): Delta
    requires 2 <= k <= |h|
  {
    DeltaFor(k, h[k-1].content, h[k-2].content)
  }

  /** The SVC file after the check-ins `h`, with the lock lines of ci -l and co -l behind it. */
  function SvcOf(h: seq<Commit>, locks: seq<string>): seq<string>
    requires h != []
  {
    FileStart(|h|, h[|h|-1].content) + (Stack(h) + locks)
  }

  /** No line of a file is mistaken for a marker or a lock. */
  ghost predicate Clean(content: seq<string>) {
    forall l :: l in content ==> !IsLock(l) && l != MAIN_EOF && !IsMarker(l)
  }

  ghost predicate IsMarker(l: string) { exists n: nat :: l == EofLine(n) }

  ghost predicate CleanHistory(h: seq<Commit>) {
    forall i :: 0 <= i < |h| ==> Clean(h[i].content) && forall l :: l in h[i].log ==> LOG_START <= l
  }

  ghost predicate AllLocks(locks: seq<string>) { forall l :: l in locks ==> IsLock(l) }

  // ---------- Which lines cannot be mistaken ----------

  lemma LineKinds()
    ensures !IsLock(MV_LINE) && !IsLock(FIX_LINE) && !IsLock(RM_LINE)
    ensures forall n: nat {:trigger EofLine(n)} :: !IsLock(EofLine(n))
    ensures forall n: nat {:trigger IfLine(n)} :: !IsLock(IfLine(n))
  {
    assert LOCK_START[0] == '#' && MV_LINE[0] == 'm' && FIX_LINE[0] == 'f' && RM_LINE[0] == 'r';
    forall n: nat ensures !IsLock(EofLine(n)) && !IsLock(IfLine(n)) {
      NotALock(EofLine(n), '*');
      assert IF_START[0] == 'i';
      assert IfLine(n)[0] == IF_START[0];
      NotALock(IfLine(n), 'i');
    }
  }

  lemma NotALock(l: string, c: char)
    requires l != [] && l[0] == c && c != '#'
    ensures !IsLock(l)
  {
    assert LOCK_START[0] == '#';
  }

  lemma LogLine(l: string)
    requires LOG_START <= l
    ensures !IsLock(l) && KindOf(l) == Other
  {
    assert LOG_START[0] == '#' && LOG_START[7] == '*' && LOCK_START[7] == 'L';
    assert l[0] == '#' && l[7] == '*';
  }

  lemma LockLine(l: string)
    requires IsLock(l)
    ensures KindOf(l) == Other
  {
    assert LOCK_START[0] == '#';
    assert l[0] == '#';
  }

  /** Listing lines start with a digit, '<', '>' or '-'. */
  predicate ListingLine(l: string) {
    l != [] && (IsDigit(l[0]) || l[0] in {'<', '>', '-'})
  }

  ghost predicate Listing(ls: seq<string>) {
    forall i :: 0 <= i < |ls| ==> ListingLine(ls[i])
  }

  lemma ListingConcat(a: seq<string>, b: seq<string>)
    requires Listing(a) && Listing(b)
    ensures Listing(a + b)
  {
    hide ListingLine;
  }

  lemma {:induction false} MarkedAreListing(mark: string, ls: seq<string>)
    requires mark != [] && mark[0] in {'<', '>'}
    ensures Listing(Marked(mark, ls))
  {
    if ls != [] {
      MarkedAreListing(mark, ls[1..]);
      assert ListingLine(mark + ls[0]);
      ListingConcat([mark + ls[0]], Marked(mark, ls[1..]));
    }
  }

  lemma BlockIsListing(a: nat, b: nat, del: seq<string>, ins: seq<string>)
    ensures Listing(Block(a, b, del, ins))
  {
    MarkedAreListing("< ", del);
    MarkedAreListing("> ", ins);
    HeaderIsListing(a, b, del, ins);
    hide Header, Marked;
    var sep := if del != [] && ins != [] then ["---\n"] else [];
    assert Listing(sep);
    ListingConcat([Header(a, b, del, ins)], Marked("< ", del));
    ListingConcat([Header(a, b, del, ins)] + Marked("< ", del), sep);
    ListingConcat([Header(a, b, del, ins)] + Marked("< ", del) + sep, Marked("> ", ins));
  }

  lemma HeaderIsListing(a: nat, b: nat, del: seq<string>, ins: seq<string>)
    ensures ListingLine(Header(a, b, del, ins))
  {
    hide Decimal;
    if del == [] {
      assert Header(a, b, del, ins)[0] == Decimal(a)[0];
    } else {
      assert Header(a, b, del, ins)[0] == RangeText(a + 1, a + |del|)[0] == Decimal(a + 1)[0];
    }
  }

  lemma {:induction false} PrintIsListing(es: seq<Edit>, a: nat, b: nat)
    ensures Listing(Print(es, a, b))
  {
    hide *;
    if es == [] {
      PrintNothing(a, b);
      NoListing();
    } else {
      var a', b': nat := a + |OldPart(es[0])|, b + |NewPart(es[0])|;
      PrintIsListing(es[1..], a', b');
      PrintOneIsListing(es[0], a, b);
      PrintUnfold(es, a, b);
      ListingConcat(PrintOne(es[0], a, b), Print(es[1..], a', b'));
    }
  }

  lemma PrintNothing(a: nat, b: nat)
    ensures Print([], a, b) == []
  {
  }

  lemma PrintOneIsListing(e: Edit, a: nat, b: nat)
    ensures Listing(PrintOne(e, a, b))
  {
    hide Block, Listing, ListingLine;
    if e.Change? { BlockIsListing(a, b, e.del, e.ins); } else { NoListing(); }
  }

  lemma NoListing()
    ensures Listing([])
  {
  }

  /** Neither a listing nor a clean file holds the end marker of its delta or a lock line. */
  lemma DeltaBodyIsClean(h: seq<Commit>, k: nat)
    requires CleanHistory(h) && 2 <= k <= |h|
    ensures var d := DeltaAt(h, k);
            d.rev == k && EofLine(k) !in d.body && forall l :: l in d.body ==> !IsLock(l)
  {
    var d := DeltaAt(h, k);
    if d.whole {
      assert Clean(h[k-2].content);
      assert IsMarker(EofLine(k));
    } else {
      PrintIsListing(EditsOf(h[k-1].content, h[k-2].content), 0, 0);
      assert EofLine(k)[0] == '*';
      forall l | l in d.body ensures !IsLock(l) { assert ListingLine(l); NotALock(l, l[0]); }
    }
  }

  lemma {:induction false} StackHasNoLocks(h: seq<Commit>)
    requires h != [] && CleanHistory(h)
    ensures forall l :: l in Stack(h) ==> !IsLock(l)
  {
    hide IsLock, EofLine, IfLine, DeltaFor;
    LineKinds();
    var c := h[|h|-1];
    forall l | l in c.log ensures !IsLock(l) { LogLine(l); }
    if |h| > 1 {
      DeltaBodyIsClean(h, |h|);
      PrefixIsClean(h);
      StackHasNoLocks(h[..|h|-1]);
    }
  }

  lemma PrefixIsClean(h: seq<Commit>)
    requires h != [] && CleanHistory(h)
    ensures CleanHistory(h[..|h|-1])
  {
  }

  // ---------- ci builds the stack ----------

  /** The first check-in. */
  lemma FirstCheckIn(user: string, c: Commit, relock: seq<string>)
    ensures CiOf(None, user, c.content, c.log, relock) == CheckedIn(SvcOf([c], relock))
  {
    hide FileStart;
    assert c.log + ([RM_LINE] + relock) == (c.log + [RM_LINE]) + relock;
  }

  /** Every further check-in puts its delta on top, whatever locks were taken in between,
      provided the last one is the user's for the new revision; otherwise nothing happens. */
  lemma NextCheckIn(h: seq<Commit>, locks: seq<string>, user: string, c: Commit, relock: seq<string>)
    requires h != [] && CleanHistory(h) && AllLocks(locks)
    ensures CiOf(Some(SvcOf(h, locks)), user, c.content, c.log, relock) ==
              if LockCheck(SvcOf(h, locks), user, |h| + 1) then CheckedIn(SvcOf(h + [c], relock)) else Rejected
  {
    hide LockCheck, HeaderLine, ReadRevision, DeltaFor, IsLock, Stack, DeltaLines;
    var lines := SvcOf(h, locks);
    var last := h[|h|-1].content;
    var tail := Stack(h) + locks;
    StartOfFile(|h|, last, tail);
    assert Clean(last);
    MarkerFound(last, MAIN_EOF, tail);
    StackHasNoLocks(h);
    UnlockedPart(Stack(h), locks);
    var g := h + [c];
    assert g[..|g|-1] == h;
    var d := DeltaFor(|g|, c.content, last);
    assert DeltaAt(g, |g|) == d;
    assert Stack(g) == DeltaLines(d) + (c.log + Stack(h)) by { StackUnfold(g); }
    Regrouped(DeltaLines(d), c.log, Stack(h), relock);
  }

  lemma StackUnfold(g: seq<Commit>)
    requires |g| > 1
    ensures Stack(g) == DeltaLines(DeltaAt(g, |g|)) + (g[|g|-1].log + Stack(g[..|g|-1]))
  {
  }

  lemma Regrouped(a: seq<string>, b: seq<string>, c: seq<string>, d: seq<string>)
    ensures (a + (b + c)) + d == a + (b + (c + d))
  {
  }

  lemma StartOfFile(rev: nat, content: seq<string>, tail: seq<string>)
    ensures var lines := FileStart(rev, content) + tail;
            && |lines| >= 2 && ReadRevision(lines[0]) == Some(rev)
            && Drop(lines, 2) == content + ([MAIN_EOF] + tail)
  {
    hide HeaderLine, ReadRevision;
    HeaderIsRead(rev);
    var lines := FileStart(rev, content) + tail;
    assert lines[0] == HeaderLine(rev);
    assert lines[2..] == content + ([MAIN_EOF] + tail);
  }

  // ---------- co walks down the stack ----------

  /** One step back from revision `d.rev`. */
  function StepBack(out: seq<string>, d: Delta): seq<string> {
    if d.whole then d.body else FixStep(Work(out, d.body, 0)).out
  }

  /** Revision `k` from the newest one, step by step. */
  function Recover(h: seq<Commit>, out: seq<string>, k: nat): seq<string>
    requires h != []
  {
    if k >= |h| || |h| == 1 then out
    else Recover(h[..|h|-1], StepBack(out, DeltaAt(h, |h|)), k)
  }

  lemma {:induction false} NothingToDo(lines: seq<string>, rest: seq<string>, w: Work, k: nat)
    requires forall l :: l in lines ==> KindOf(l) == Other
    ensures RunDeltas(lines + rest, w, k) == RunDeltas(rest, w, k)
  {
    hide KindOf;
    if lines == [] {
      assert lines + rest == rest;
    } else {
      assert (lines + rest)[1..] == lines[1..] + rest;
      NothingToDo(lines[1..], rest, w, k);
    }
  }

  /** The script of one delta is one step back, or the end if its revision is wanted. */
  lemma OneDelta(d: Delta, rest: seq<string>, w: Work, k: nat)
    requires EofLine(d.rev) !in d.body
    ensures k >= d.rev ==> RunDeltas(DeltaLines(d) + rest, w, k) == w.out
    ensures k < d.rev ==>
              exists v: Work :: v.out == StepBack(w.out, d) && RunDeltas(DeltaLines(d) + rest, w, k) == RunDeltas(rest, v, k)
  {
    hide KindOf, ReadTest, EofLine, IfLine, UpTo, Behind;
    TestIsRead(d.rev, w.testrev);
    FixedLines();
    var cmd := if d.whole then MV_LINE else FIX_LINE;
    var lines := DeltaLines(d) + rest;
    var inner := d.body + ([EofLine(d.rev)] + ([cmd] + rest));
    assert lines[0] == IfLine(d.rev) && lines[1..] == inner;
    if k < d.rev {
      MarkerFound(d.body, EofLine(d.rev), [cmd] + rest);
      var w1 := Work(w.out, d.body, d.rev);
      assert RunDeltas(lines, w, k) == RunDeltas([cmd] + rest, w1, k);
      var v := if d.whole then w1.(out := w1.fixfile) else FixStep(w1);
      OneCommand(cmd, rest, w1, k);
      assert v.out == StepBack(w.out, d);
      assert RunDeltas(lines, w, k) == RunDeltas(rest, v, k);
    }
  }

  lemma OneCommand(cmd: string, rest: seq<string>, w: Work, k: nat)
    ensures KindOf(cmd) == MvKind ==> RunDeltas([cmd] + rest, w, k) == RunDeltas(rest, w.(out := w.fixfile), k)
    ensures KindOf(cmd) == FixKind ==> RunDeltas([cmd] + rest, w, k) == RunDeltas(rest, FixStep(w), k)
  {
    hide KindOf, FixStep;
    assert ([cmd] + rest)[1..] == rest;
  }

  lemma {:induction false} CoWalks(h: seq<Commit>, locks: seq<string>, w: Work, k: nat)
    requires h != [] && CleanHistory(h) && AllLocks(locks)
    ensures RunDeltas(Stack(h) + locks, w, k) == Recover(h, w.out, k)
  {
    hide KindOf, RunDeltas, DeltaLines, DeltaFor, EofLine, StepBack;
    var c := h[|h|-1];
    forall l | l in c.log ensures KindOf(l) == Other { LogLine(l); }
    forall l | l in locks ensures KindOf(l) == Other { LockLine(l); }
    FixedLines();
    if |h| == 1 {
      OnlyNoise(c.log, locks, w, k);
    } else {
      var d := DeltaAt(h, |h|);
      DeltaBodyIsClean(h, |h|);
      PrefixIsClean(h);
      var rest := c.log + (Stack(h[..|h|-1]) + locks);
      StackUnfold(h);
      Regrouped(DeltaLines(d), c.log, Stack(h[..|h|-1]), locks);
      OneDelta(d, rest, w, k);
      if k < |h| {
        var v: Work :| v.out == StepBack(w.out, d) && RunDeltas(DeltaLines(d) + rest, w, k) == RunDeltas(rest, v, k);
        NothingToDo(c.log, Stack(h[..|h|-1]) + locks, v, k);
        CoWalks(h[..|h|-1], locks, v, k);
      }
    }
  }

  lemma OnlyNoise(log: seq<string>, locks: seq<string>, w: Work, k: nat)
    requires forall l :: l in log ==> KindOf(l) == Other
    requires forall l :: l in locks ==> KindOf(l) == Other
    ensures RunDeltas(log + [RM_LINE] + locks, w, k) == w.out
  {
    hide KindOf;
    FixedLines();
    var all := log + [RM_LINE] + locks;
    assert all + [] == all;
    NothingToDo(all, [], w, k);
  }

  /** co on the file that ci built. */
  lemma CoOnHistory(h: seq<Commit>, locks: seq<string>, k: nat)
    requires h != [] && CleanHistory(h) && AllLocks(locks)
    ensures CoOf(SvcOf(h, locks), k) == Recover(h, h[|h|-1].content, k)
  {
    hide RunDeltas, Stack, ReadRevision;
    var last := h[|h|-1].content;
    StartOfFile(|h|, last, Stack(h) + locks);
    assert Clean(last);
    MarkerFound(last, MAIN_EOF, Stack(h) + locks);
    CoWalks(h, locks, Work(last, [], 0), k);
  }

  // ---------- Which revisions come back ----------

  /** Revision k leads back to revision k-1: either that one has no more bytes than diff's listing from k to it, or the
      listing does not insert in front of line 1. */
  predicate Faithful(h: seq<Commit>, k: nat)
    requires 2 <= k <= |h|
  {
    var newer, older := h[k-1].content, h[k-2].content;
    NoLonger(newer, older) || !BeginsWithInsertionAtZero(DiffScript(newer, older))
  }

  lemma StepIsFaithful(h: seq<Commit>, k: nat)
    requires 2 <= k <= |h|
    ensures StepBack(h[k-1].content, DeltaAt(h, k)) == h[k-2].content <==> Faithful(h, k)
  {
    hide Print, FixOf, BeginsWithInsertionAtZero, EditsOf;
    var d := DeltaAt(h, k);
    var c, o := h[k-1].content, h[k-2].content;
    DeltaIs(k, c, o);
    if !d.whole {
      FixUndoesDiff(c, o);
    }
  }

  /** All deltas above revision `k` are faithful. */
  ghost predicate FaithfulAbove(h: seq<Commit>, k: nat)
    requires 1 <= k <= |h|
  {
    forall j :: k < j <= |h| ==> Faithful(h, j)
  }

  lemma {:induction false} RecoverDown(h: seq<Commit>, k: nat)
    requires 1 <= k <= |h| && FaithfulAbove(h, k)
    ensures Recover(h, h[|h|-1].content, k) == h[k-1].content
  {
    hide Recover, StepBack, FaithfulAbove, Faithful, DeltaAt;
    var out := h[|h|-1].content;
    if k < |h| {
      FaithfulBelow(h, k);
      StepIsFaithful(h, |h|);
      RecoverUnfold(h, out, k);
      RecoverDown(h[..|h|-1], k);
    } else {
      RecoverNewest(h, out, k);
    }
  }

  lemma RecoverNewest(h: seq<Commit>, out: seq<string>, k: nat)
    requires h != [] && k >= |h|
    ensures Recover(h, out, k) == out
  {
  }

  lemma RecoverUnfold(h: seq<Commit>, out: seq<string>, k: nat)
    requires 1 <= k < |h|
    ensures Recover(h, out, k) == Recover(h[..|h|-1], StepBack(out, DeltaAt(h, |h|)), k)
  {
    hide StepBack, DeltaFor;
  }

  lemma FaithfulPrefix(h: seq<Commit>, j: nat)
    requires 2 <= j < |h|
    ensures DeltaAt(h[..|h|-1], j) == DeltaAt(h, j) && Faithful(h[..|h|-1], j) == Faithful(h, j)
  {
    hide DeltaFor, BeginsWithInsertionAtZero;
  }

  lemma FaithfulBelow(h: seq<Commit>, k: nat)
    requires 1 <= k < |h| && FaithfulAbove(h, k)
    ensures Faithful(h, |h|) && FaithfulAbove(h[..|h|-1], k)
  {
    hide Faithful, DeltaFor;
    var g := h[..|h|-1];
    forall j | k < j <= |g| ensures Faithful(g, j) {
      FaithfulPrefix(h, j);
    }
  }

  /** The deltas from the newest down to `j` run in the way they do in the whole history. */
  lemma {:induction false} RecoverTo(h: seq<Commit>, j: nat)
    requires 2 <= j <= |h| && FaithfulAbove(h, j)
    ensures Recover(h, h[|h|-1].content, j - 1) ==
              StepBack(h[j-1].content, DeltaAt(h, j))
  {
    hide Recover, StepBack, DeltaAt, Faithful, FaithfulAbove;
    var out := h[|h|-1].content;
    RecoverUnfold(h, out, j - 1);
    if j == |h| {
      RecoverNewest(h[..|h|-1], StepBack(out, DeltaAt(h, j)), j - 1);
    } else {
      FaithfulBelow(h, j);
      StepIsFaithful(h, |h|);
      FaithfulPrefix(h, j);
      RecoverTo(h[..|h|-1], j);
    }
  }

  /** If some delta is not faithful, the revision below the newest such delta is not recovered. */
  lemma UnfaithfulShows(h: seq<Commit>, j: nat)
    requires 2 <= j <= |h| && !Faithful(h, j) && FaithfulAbove(h, j)
    ensures Recover(h, h[|h|-1].content, j - 1) != h[j-2].content
  {
    hide Recover, StepBack, DeltaFor, Faithful;
    RecoverTo(h, j);
    StepIsFaithful(h, j);
  }

  lemma {:induction false} NewestUnfaithful(h: seq<Commit>, n: nat) returns (j: nat)
    requires n <= |h| && exists i :: 2 <= i <= n && !Faithful(h, i)
    ensures 2 <= j <= n && !Faithful(h, j) && forall i :: j < i <= n ==> Faithful(h, i)
  {
    hide Faithful;
    j := n;
    while Faithful(h, j)
      invariant 2 <= j <= n && (forall i :: j < i <= n ==> Faithful(h, i))
      invariant exists i :: 2 <= i <= j && !Faithful(h, i)
      decreases j
    {
      j := j - 1;
    }
  }

  /** Walking down from the newest revision comes to revision k as it was checked in. */
  ghost predicate Recovers(h: seq<Commit>, k: int) {
    1 <= k <= |h| && Recover(h, h[|h|-1].content, k) == h[k-1].content
  }

  /** co on the SVC file gives back revision k as it was checked in. */
  ghost predicate ComesBack(h: seq<Commit>, locks: seq<string>, k: int) {
    1 <= k <= |h| && CoOf(SvcOf(h, locks), k) == h[k-1].content
  }

  /** For every history of check-ins, with any locks taken in between: co gives back every
      revision exactly as it was checked in if and only if every delta in the file is an old
      revision stored whole or a listing that does not insert in front of line 1. */
  lemma EveryRevisionComesBack(h: seq<Commit>, locks: seq<string>)
    requires h != [] && CleanHistory(h) && AllLocks(locks)
    ensures (forall k :: 1 <= k <= |h| ==> ComesBack(h, locks, k)) <==> FaithfulAbove(h, 1)
  {
    hide Recover, DeltaFor, Faithful, CoOf, SvcOf, CleanHistory, FaithfulAbove;
    forall k | 1 <= k <= |h| ensures ComesBack(h, locks, k) <==> Recovers(h, k) { CoOnHistory(h, locks, k); }
    RangeComesBack(h, 1);
  }

  /** The way down from the newest revision passes revision m, and what comes below depends on nothing else; a delta stored
      whole makes revision m right whatever has gone wrong above it. */
  lemma {:induction false} PassesThrough(h: seq<Commit>, out: seq<string>, m: nat, i: nat) returns (at: seq<string>)
    requires 1 <= i <= m <= |h|
    ensures Recover(h, out, i) == Recover(h[..m], at, i)
    ensures m == |h| ==> at == out
    ensures m < |h| && DeltaAt(h, m + 1).whole ==> at == h[m-1].content
    decreases |h|
  {
    hide Recover, DeltaFor, Faithful, StepBack;
    if m == |h| {
      at := out;
      assert h[..m] == h;
    } else {
      var n := |h| - 1;
      RecoverUnfold(h, out, i);
      at := PassesThrough(h[..n], StepBack(out, DeltaAt(h, |h|)), m, i);
      assert h[..n][..m] == h[..m];
      if m == n {
        WholeStep(h, out);
      } else {
        FaithfulPrefix(h, m + 1);
      }
    }
  }

  lemma WholeStep(h: seq<Commit>, out: seq<string>)
    requires |h| >= 2
    ensures DeltaAt(h, |h|).whole ==> StepBack(out, DeltaAt(h, |h|)) == h[|h|-2].content
  {
  }

  lemma {:induction false} SameDeltas(h: seq<Commit>, m: nat, j: nat)
    requires 2 <= j <= m <= |h|
    ensures Faithful(h[..m], j) == Faithful(h, j)
    decreases |h|
  {
    hide Faithful;
    if m == |h| {
      assert h[..m] == h;
    } else {
      FaithfulPrefix(h, j);
      assert h[..|h|-1][..m] == h[..m];
      SameDeltas(h[..|h|-1], m, j);
    }
  }

  /** The revisions from k on, of a history whose newest revision is at hand. */
  lemma RangeComesBack(h: seq<Commit>, k: nat)
    requires 1 <= k <= |h|
    ensures (forall i :: k <= i <= |h| ==> Recovers(h, i)) <==> FaithfulAbove(h, k)
  {
    hide Recover, DeltaFor, Faithful;
    if FaithfulAbove(h, k) {
      forall i | k <= i <= |h| ensures Recovers(h, i) {
        assert FaithfulAbove(h, i);
        RecoverDown(h, i);
      }
    } else {
      var j := NewestUnfaithful(h, |h|);
      UnfaithfulShows(h, j);
      assert !Recovers(h, j - 1);
    }
  }

  /** Where the newest revision is m, or the delta above revision m is stored whole: co gives back all revisions from k to m
      if and only if the deltas between them are faithful. Those above m do not matter. */
  lemma RevisionsComeBack(h: seq<Commit>, locks: seq<string>, k: nat, m: nat)
    requires CleanHistory(h) && AllLocks(locks) && 1 <= k <= m <= |h|
    requires m < |h| ==> NoLonger(h[m].content, h[m-1].content)
    ensures (forall i :: k <= i <= m ==> ComesBack(h, locks, i)) <==> (forall j :: k < j <= m ==> Faithful(h, j))
  {
    hide Recover, DeltaFor, Faithful, CoOf, SvcOf, CleanHistory;
    if m < |h| { DeltaIs(m + 1, h[m].content, h[m-1].content); }
    forall i | k <= i <= m ensures ComesBack(h, locks, i) <==> Recovers(h[..m], i) {
      CoOnHistory(h, locks, i);
      var at := PassesThrough(h, h[|h|-1].content, m, i);
    }
    forall j | k < j <= m ensures Faithful(h[..m], j) == Faithful(h, j) { SameDeltas(h, m, j); }
    RangeComesBack(h[..m], k);
  }

  // ---------- A whole history ----------

  /** A check-in: the locks taken since the last one, who checks in, what, and the lock left for the next revision. */
  datatype Visit = Visit(taken: seq<string>, user: string, commit: Commit, relock: seq<string>)

  function Commits(vs: seq<Visit>): (h: seq<Commit>)
    ensures |h| == |vs|
  {
    if vs == [] then [] else Commits(vs[..|vs|-1]) + [vs[|vs|-1].commit]
  }

  /** The SVC file after the check-ins, one after the other; locks are added at its end in between. */
  function AfterAll(vs: seq<Visit>): CheckIn
    requires vs != []
  {
    var v := vs[|vs|-1];
    if |vs| == 1 then CiOf(None, v.user, v.commit.content, v.commit.log, v.relock)
    else match AfterAll(vs[..|vs|-1])
      case Rejected => Rejected
      case CheckedIn(lines) => CiOf(Some(lines + v.taken), v.user, v.commit.content, v.commit.log, v.relock)
  }

  ghost predicate OnlyLocks(vs: seq<Visit>) {
    forall i :: 0 <= i < |vs| ==> AllLocks(vs[i].taken) && AllLocks(vs[i].relock)
  }

  lemma {:induction false} HistoryIsStacked(vs: seq<Visit>)
    requires vs != [] && OnlyLocks(vs) && CleanHistory(Commits(vs))
    ensures AfterAll(vs) == Rejected || AfterAll(vs) == CheckedIn(SvcOf(Commits(vs), vs[|vs|-1].relock))
  {
    hide CiOf, SvcOf;
    var v := vs[|vs|-1];
    if |vs| == 1 {
      assert Commits(vs[..0]) == [];
      assert Commits(vs) == [v.commit];
      FirstCheckIn(v.user, v.commit, v.relock);
    } else {
      var before, h := vs[..|vs|-1], Commits(vs[..|vs|-1]);
      assert Commits(vs)[..|vs|-1] == h;
      PrefixIsClean(Commits(vs));
      HistoryIsStacked(before);
      if AfterAll(before).CheckedIn? {
        var relock := before[|before|-1].relock;
        MoreLocks(h, relock, v.taken);
        NextCheckIn(h, relock + v.taken, v.user, v.commit, v.relock);
      }
    }
  }

  lemma MoreLocks(h: seq<Commit>, locks: seq<string>, more: seq<string>)
    requires h != []
    ensures SvcOf(h, locks) + more == SvcOf(h, locks + more)
  {
    hide Stack, FileStart;
    assert FileStart(|h|, h[|h|-1].content) + (Stack(h) + locks) + more == FileStart(|h|, h[|h|-1].content) + (Stack(h) + (locks + more));
  }

  /** ci for every check-in of a history and then co: when none was rejected, every revision comes back exactly as it was
      checked in if and only if every delta is a revision stored whole or does not insert in front of line 1. */
  lemma HistoryComesBack(vs: seq<Visit>)
    requires vs != [] && OnlyLocks(vs) && CleanHistory(Commits(vs)) && AfterAll(vs).CheckedIn?
    ensures (forall k :: 1 <= k <= |vs| ==> GivenBack(vs, AfterAll(vs).lines, k)) <==> FaithfulAbove(Commits(vs), 1)
  {
    hide *;
    LastLocks(vs);
    HistoryIsStacked(vs);
    var h, locks := Commits(vs), vs[|vs|-1].relock;
    EveryRevisionComesBack(h, locks);
    forall k | 1 <= k <= |vs| ensures GivenBack(vs, AfterAll(vs).lines, k) <==> ComesBack(h, locks, k) { SameRevision(vs, locks, k); }
  }

  lemma LastLocks(vs: seq<Visit>)
    requires vs != [] && OnlyLocks(vs)
    ensures AllLocks(vs[|vs|-1].relock)
  {
    hide AllLocks;
  }

  lemma SameRevision(vs: seq<Visit>, locks: seq<string>, k: nat)
    requires 1 <= k <= |vs| && AfterAll(vs) == CheckedIn(SvcOf(Commits(vs), locks))
    ensures GivenBack(vs, AfterAll(vs).lines, k) <==> ComesBack(Commits(vs), locks, k)
  {
    hide CoOf, SvcOf, AfterAll, Commits;
    CommitsAre(vs, k - 1);
  }

  ghost predicate GivenBack(vs: seq<Visit>, lines: seq<string>, k: int) {
    1 <= k <= |vs| && CoOf(lines, k) == vs[k-1].commit.content
  }

  lemma {:induction false} CommitsAre(vs: seq<Visit>, i: nat)
    requires i < |vs|
    ensures Commits(vs)[i] == vs[i].commit
  {
    if i < |vs| - 1 { CommitsAre(vs[..|vs|-1], i); }
  }

  /** A first line deleted by the second check-in: the first revision is lost. */
  lemma DeletedFirstLine()
    ensures var h := [Commit(["y\n", "xxxxxxxx\n"], []), Commit(["xxxxxxxx\n"], [])];
            !Faithful(h, 2) && CoOf(SvcOf(h, []), 1) != ["y\n", "xxxxxxxx\n"]
  {
    hide CoOf, SvcOf, Recover, EditsOf, FaithfulAbove;
    var x, y := "xxxxxxxx\n", "y\n";
    var h := [Commit([y, x], []), Commit([x], [])];
    assert y[0] != x[0];
    PrependedEdits(x, y);
    var script := DiffScript([x], [y, x]);
    ShortListing(x, y);
    SizeOfTwo(y, x);
    SizeIsLength([y, x]);
    SizeIsLength(script);
    assert !Faithful(h, 2);
    CleanLines(x, y);
    assert CleanHistory(h);
    assert FaithfulAbove(h, 2) by { NothingAbove(h); }
    CoOnHistory(h, [], 1);
    UnfaithfulShows(h, 2);
  }

  const SHORT_HISTORY: seq<Commit> := [Commit(["y\n", "x\n"], []), Commit(["x\n"], [])]

  /** With a shorter second line the first revision has four bytes and the listing eight; the revision is stored itself. */
  lemma ShortIsFaithful()
    ensures FaithfulAbove(SHORT_HISTORY, 1) && CleanHistory(SHORT_HISTORY)
  {
    hide EditsOf, Print, BeginsWithInsertionAtZero;
    var x, y := "x\n", "y\n";
    assert x[0] == 'x' && y[0] == 'y';
    PrependedEdits(x, y);
    ShortListing(x, y);
    SizeOfTwo(y, x);
    SizeIsLength([y, x]);
    SizeIsLength(DiffScript([x], [y, x]));
    CleanLines(x, y);
  }

  /** The two check-ins, and the first revision back. */
  method ShortRevisionComesBack() returns (out: seq<string>)
    ensures out == ["y\n", "x\n"]
  {
    hide CiOf, CoOf, SvcOf, Recover, FaithfulAbove, CleanHistory, Stack, StoresDelta;
    var h := SHORT_HISTORY;
    var lock := LockFor("u", 2);
    var r := Ci(None, "u", h[0].content, h[0].log, [lock]);
    FirstCheckIn("u", h[0], [lock]);
    assert r == CheckedIn(SvcOf([h[0]], [lock]));
    ShortIsFaithful();
    OneIsClean();
    LocksEnd([h[0]], "u", 2);
    NextCheckIn([h[0]], [lock], "u", h[1], []);
    r := Ci(Some(r.lines), "u", h[1].content, h[1].log, []);
    assert [h[0]] + [h[1]] == h;
    out := Extract(r.lines, 1);
    CoOnHistory(h, [], 1);
    RecoverDown(h, 1);
  }

  lemma OneIsClean()
    requires CleanHistory(SHORT_HISTORY)
    ensures CleanHistory([SHORT_HISTORY[0]])
  {
  }

  /** The lock line for a revision, at the end of the file, is the one that is asked for. */
  lemma LocksEnd(h: seq<Commit>, user: string, rev: nat)
    requires h != []
    ensures AllLocks([LockFor(user, rev)]) && LockCheck(SvcOf(h, [LockFor(user, rev)]), user, rev)
  {
    hide Stack, FileStart;
    var lock := LockFor(user, rev);
    var lines := FileStart(|h|, h[|h|-1].content) + (Stack(h) + [lock]);
    assert lines[|lines|-1] == lock;
    assert LOCK_START <= lock;
  }

  lemma NothingAbove(h: seq<Commit>)
    requires h != []
    ensures FaithfulAbove(h, |h|)
  {
  }

  lemma ShortListing(x: string, y: string)
    requires |y| == 2
    ensures var script := Print([Change([], [y]), Same(x)], 0, 0);
            BeginsWithInsertionAtZero(script) && Size(script) == 8
  {
    var es := [Change([], [y]), Same(x)];
    var script := Print(es, 0, 0);
    assert es[1..] == [Same(x)] && [Same(x)][1..] == [];
    assert Print(es[1..], 0, 1) == [];
    assert Decimal(0) == "0" && Decimal(1) == "1";
    assert Header(0, 0, [], [y]) == "0a1\n";
    assert [y][1..] == [];
    assert Marked("> ", [y]) == ["> " + y];
    assert script == ["0a1\n", "> " + y];
    SizeOfTwo("0a1\n", "> " + y);
  }

  lemma SizeOfTwo(a: string, b: string)
    ensures Size([a, b]) == |a| + |b|
  {
    assert [a, b][1..] == [b];
    assert [b][1..] == [];
    assert Size([b]) == |b|;
  }

  lemma MarkerStart(l: string)
    requires IsMarker(l)
    ensures l != [] && l[0] == '*'
  {
  }

  lemma CleanLines(x: string, y: string)
    requires x != [] && y != [] && x[0] == 'x' && y[0] == 'y'
    ensures Clean([y, x]) && Clean([x])
  {
    assert MAIN_EOF[0] == '*';
    forall l | l in [y, x] ensures !IsLock(l) && l != MAIN_EOF && !IsMarker(l) {
      NotALock(l, l[0]);
      if IsMarker(l) { MarkerStart(l); }
    }
  }
}
