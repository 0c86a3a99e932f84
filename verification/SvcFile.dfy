/** The SVC file that ci writes and co reads: the newest revision, then one reverse delta
    for each older one, as a shell script. */
module SvcFile {
  import opened Text
  import opened Fix
  import opened Edits
  import opened Options
  import Diff

  const MAIN_EOF: string := "***MAIN-eof***\n"
  const CAT_LINE: string := "cat <<***MAIN-eof*** >$1\n"
  const MV_LINE: string := "mv Fix.$1 $1\n"
  const FIX_LINE: string := "fix $1 Fix.$1 > New.$1; mv New.$1 $1\n"
  const RM_LINE: string := "rm -f Fix.$1\n"
  const IF_START: string := "if test $2 -ge "
  const LOCK_START: string := "#***SVCLOCK***"
  const LOG_START: string := "#***SVC*** "

  function HeaderLine(rev: nat): string { "# " + Decimal(rev) + "\n" }

  function EofLine(rev: nat): string { "***" + Decimal(rev) + "-eof***\n" }

  function IfLine(rev: nat): string {
    IF_START + (Decimal(rev) + (" ; then rm -f Fix.$1 ; exit 0 ; fi ; cat <<" + EofLine(rev)[..|EofLine(rev)| - 1] + " >Fix.$1\n"))
  }

  predicate IsLock(l: string) { LOCK_START <= l }

  function LockFor(user: string, rev: nat): string { LOCK_START + " " + user + " " + Decimal(rev) + "\n" }

  /** lockcheck(): the file ends with this user's lock for revision `rev`. */
  predicate LockCheck(lines: seq<string>, user: string, rev: nat) {
    lines != [] &&
    var l, lock := lines[|lines|-1], LockFor(user, rev);
    |lock| <= |l| && l[|l| - |lock|..] == lock
  }

  // ---------- Reading single lines ----------

  datatype Kind = IfKind | MvKind | FixKind | Other

  /** The tests of extract()'s loop. */
  function KindOf(l: string): Kind {
    if "if " <= l then IfKind
    else if "mv " <= l then MvKind
    else if "fix " <= l then FixKind
    else Other
  }

  /** sscanf(line, "# %d", ...): None when the line does not match. */
  function ReadRevision(l: string): Option<nat> {
    if "# " <= l && |l| > 2 && IsDigit(l[2]) then Some(ReadDigits(0, l[2..]).0) else None
  }

  /** sscanf(line, "if test $2 -ge %d", &testrev): testrev keeps its value on a mismatch. */
  function ReadTest(l: string, testrev: nat): nat {
    if IF_START <= l && |l| > |IF_START| && IsDigit(l[|IF_START|]) then ReadDigits(0, l[|IF_START|..]).0 else testrev
  }

  lemma HeaderIsRead(rev: nat)
    ensures ReadRevision(HeaderLine(rev)) == Some(rev)
  {
    var l := HeaderLine(rev);
    assert l[2..] == Decimal(rev) + "\n";
    assert l[2] == Decimal(rev)[0];
    ReadDecimal(rev, "\n");
  }

  lemma TestIsRead(rev: nat, testrev: nat)
    ensures ReadTest(IfLine(rev), testrev) == rev && KindOf(IfLine(rev)) == IfKind
  {
    var first := " ; then rm -f Fix.$1 ; exit 0 ; fi ; cat <<";
    var second := EofLine(rev)[..|EofLine(rev)| - 1] + " >Fix.$1\n";
    var tail := first + EofLine(rev)[..|EofLine(rev)| - 1] + " >Fix.$1\n";
    assert tail == first + second;
    PrefixOf(IF_START, Decimal(rev) + tail);
    PrefixOf(first, second);
    assert first[0] == ' ' && tail[0] == first[0];
    ReadDecimal(rev, tail);
    assert "if " <= IF_START;
    PrefixChain("if ", IF_START, IfLine(rev));
  }

  lemma PrefixOf(a: string, b: string)
    ensures a <= a + b && (a + b)[|a|..] == b && |a + b| == |a| + |b|
    ensures b != [] ==> (a + b)[|a|] == b[0]
  {
  }

  lemma PrefixChain(a: string, b: string, c: string)
    requires a <= b && b <= c
    ensures a <= c
  {
  }

  lemma FixedLines()
    ensures KindOf(MV_LINE) == MvKind && KindOf(FIX_LINE) == FixKind && KindOf(RM_LINE) == Other
    ensures MV_LINE != FIX_LINE
  {
    assert MV_LINE[0] == 'm' && FIX_LINE[0] == 'f' && RM_LINE[0] == 'r';
    assert MV_LINE[1] == 'v' && MV_LINE[2] == ' ';
    assert "mv " <= MV_LINE;
    assert FIX_LINE[1] == 'i' && FIX_LINE[2] == 'x' && FIX_LINE[3] == ' ';
    assert "fix " <= FIX_LINE;
  }

  // ---------- Lines up to a marker ----------

  function UpTo(lines: seq<string>, marker: string): seq<string> {
    if lines == [] || lines[0] == marker then [] else [lines[0]] + UpTo(lines[1..], marker)
  }

  function Behind(lines: seq<string>, marker: string): (r: seq<string>)
    ensures |r| <= |lines|
  {
    if lines == [] then [] else if lines[0] == marker then lines[1..] else Behind(lines[1..], marker)
  }

  lemma {:induction false} MarkerFound(c: seq<string>, marker: string, rest: seq<string>)
    requires marker !in c
    ensures UpTo(c + ([marker] + rest), marker) == c && Behind(c + ([marker] + rest), marker) == rest
  {
    var all := c + ([marker] + rest);
    if c == [] {
      assert all == [marker] + rest;
      assert all[1..] == rest;
    } else {
      assert all[1..] == c[1..] + ([marker] + rest);
      MarkerFound(c[1..], marker, rest);
    }
  }

  /** The lines in front of the first lock line. */
  function Unlocked(lines: seq<string>): seq<string> {
    if lines == [] || IsLock(lines[0]) then [] else [lines[0]] + Unlocked(lines[1..])
  }

  lemma {:induction false} UnlockedPart(c: seq<string>, locks: seq<string>)
    requires (forall l :: l in c ==> !IsLock(l)) && (locks != [] ==> IsLock(locks[0]))
    ensures Unlocked(c + locks) == c
  {
    if c == [] {
      assert c + locks == locks;
    } else {
      assert (c + locks)[1..] == c[1..] + locks;
      UnlockedPart(c[1..], locks);
    }
  }

  // ---------- Checking in ----------

  function DiffScript(file1: seq<string>, file2: seq<string>): seq<string> {
    Print(Diff.EditsOf(file1, file2), 0, 0)
  }

  /** st_size */
  function Size(lines: seq<string>): nat {
    if lines == [] then 0 else |lines[0]| + Size(lines[1..])
  }

  /** All bytes of a file. */
  function Joined(lines: seq<string>): string {
    if lines == [] then "" else lines[0] + Joined(lines[1..])
  }

  lemma {:induction false} SizeIsLength(lines: seq<string>)
    ensures Size(lines) == |Joined(lines)|
  {
    if lines != [] { SizeIsLength(lines[1..]); }
  }

  /** The old revision has no more bytes than the listing that leads from the new one to it. */
  predicate NoLonger(content: seq<string>, original: seq<string>) { |Joined(original)| <= |Joined(DiffScript(content, original))| }

  /** A reverse delta: how to get from revision `rev` to the one before. */
  datatype Delta = Delta(rev: nat, whole: bool, body: seq<string>)

  /** The old revision itself when it is not longer than the differences. */
  function DeltaFor(rev: nat, content: seq<string>, original: seq<string>): Delta {
    var script := DiffScript(content, original);
    if Size(original) <= Size(script) then Delta(rev, true, original) else Delta(rev, false, script)
  }

  lemma DeltaIs(rev: nat, content: seq<string>, original: seq<string>)
    ensures DeltaFor(rev, content, original) ==
      if NoLonger(content, original) then Delta(rev, true, original) else Delta(rev, false, DiffScript(content, original))
  {
    hide DiffScript, Size, Joined;
    SizeIsLength(original);
    SizeIsLength(DiffScript(content, original));
  }

  function DeltaLines(d: Delta): seq<string> {
    [IfLine(d.rev)] + (d.body + ([EofLine(d.rev)] + [if d.whole then MV_LINE else FIX_LINE]))
  }

  datatype CheckIn = Rejected | CheckedIn(lines: seq<string>)

  /** ci: the new SVC file, from the old one if there is one, the file to check in,
      the lines of the log message and the lock line for the next revision, if any. */
  function CiOf(svc: Option<seq<string>>, user: string, content: seq<string>, log: seq<string>,
                relock: seq<string>): CheckIn
  {
    match svc
    case None =>
      CheckedIn(FileStart(1, content) + (log + ([RM_LINE] + relock)))
    case Some(lines) =>
      if lines == [] || ReadRevision(lines[0]).None? then Rejected else
      var rev := ReadRevision(lines[0]).value + 1;
      if !LockCheck(lines, user, rev) then Rejected else
      var body := Drop(lines, 2);
      var d := DeltaFor(rev, content, UpTo(body, MAIN_EOF));
      CheckedIn(FileStart(rev, content) + (DeltaLines(d) + (log + (Unlocked(Behind(body, MAIN_EOF)) + relock))))
  }

  function Drop(lines: seq<string>, n: nat): seq<string> { if |lines| < n then [] else lines[n..] }

  function FileStart(rev: nat, content: seq<string>): seq<string> {
    [HeaderLine(rev), CAT_LINE] + (content + [MAIN_EOF])
  }

  // ---------- Checking out ----------

  /** extract()'s state: the revision built so far, the difference file, and the last revision tested. */
  datatype Work = Work(out: seq<string>, fixfile: seq<string>, testrev: nat)

  /** fix into a new file, which takes the old one's place whether fix has finished or given up. */
  function FixStep(w: Work): Work { w.(out := FixOf(w.out, w.fixfile).out) }

  function RunDeltas(lines: seq<string>, w: Work, rev: nat): seq<string>
    decreases |lines|
  {
    if lines == [] then w.out
    else match KindOf(lines[0])
      case IfKind =>
        var t := ReadTest(lines[0], w.testrev);
        if rev >= t then w.out
        else RunDeltas(Behind(lines[1..], EofLine(t)), Work(w.out, UpTo(lines[1..], EofLine(t)), t), rev)
      case MvKind => RunDeltas(lines[1..], w.(out := w.fixfile), rev)
      case FixKind => RunDeltas(lines[1..], FixStep(w), rev)
      case Other => RunDeltas(lines[1..], w, rev)
  }

  /** extract(): revision `rev` of an SVC file. */
  function CoOf(lines: seq<string>, rev: nat): seq<string> {
    var body := Drop(lines, 2);
    RunDeltas(Behind(body, MAIN_EOF), Work(UpTo(body, MAIN_EOF), [], 0), rev)
  }
}
