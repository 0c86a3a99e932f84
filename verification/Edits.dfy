/** Edit scripts, how diff prints them, and what fix makes of the print. */
module Edits {
  import opened Text
  import opened Fix

  /** A common line, or a block that replaces `del` by `ins`. */
  datatype Edit = Same(line: string) | Change(del: seq<string>, ins: seq<string>)

  function OldOf(es: seq<Edit>): seq<string> {
    if es == [] then []
    else OldPart(es[0]) + OldOf(es[1..])
  }

  function NewOf(es: seq<Edit>): seq<string> {
    if es == [] then []
    else NewPart(es[0]) + NewOf(es[1..])
  }

  /** Blocks change something and are followed by a common line. */
  ghost predicate Proper(es: seq<Edit>) {
    forall i :: 0 <= i < |es| && es[i].Change? ==>
      (es[i].del != [] || es[i].ins != []) && (i + 1 < |es| ==> es[i + 1].Same?)
  }

  /** Every block starts where the two files differ. */
  ghost predicate StartsAtDifferences(es: seq<Edit>, file1: seq<string>, file2: seq<string>) {
    forall i :: 0 <= i < |es| && es[i].Change? ==>
      Differ(file1, |OldOf(es[..i])|, file2, |NewOf(es[..i])|)
  }

  predicate Differ(file1: seq<string>, a: nat, file2: seq<string>, b: nat) {
    a >= |file1| || b >= |file2| || file1[a] != file2[b]
  }

  // ---------- Printing ----------

  /** range() of diff.c. */
  function RangeText(lo: nat, hi: nat): string {
    if lo == hi then Decimal(lo) else Decimal(lo) + "," + Decimal(hi)
  }

  /** A range of one line is a single number. */
  lemma OneNumber(lo: nat, hi: nat)
    ensures AllDigits(RangeText(lo, hi)) <==> lo == hi
  {
    if lo != hi { assert RangeText(lo, hi)[|Decimal(lo)|] == ','; }
  }

  /** The line that introduces a block behind `a` old and `b` new lines. */
  function Header(a: nat, b: nat, del: seq<string>, ins: seq<string>): string {
    (if del == [] then Decimal(a) + "a" + RangeText(b + 1, b + |ins|)
     else if ins == [] then RangeText(a + 1, a + |del|) + "d" + Decimal(b)
     else RangeText(a + 1, a + |del|) + "c" + RangeText(b + 1, b + |ins|)) + "\n"
  }

  function Marked(mark: string, ls: seq<string>): (r: seq<string>)
    ensures |r| == |ls|
  {
    if ls == [] then [] else [mark + ls[0]] + Marked(mark, ls[1..])
  }

  function Block(a: nat, b: nat, del: seq<string>, ins: seq<string>): seq<string> {
    [Header(a, b, del, ins)] + Marked("< ", del) +
    (if del != [] && ins != [] then ["---\n"] else []) + Marked("> ", ins)
  }

  /** What diff prints for the edits behind `a` old and `b` new lines. */
  function Print(es: seq<Edit>, a: nat, b: nat): seq<string> {
    if es == [] then []
    else PrintOne(es[0], a, b) + Print(es[1..], a + |OldPart(es[0])|, b + |NewPart(es[0])|)
  }

  function OldPart(e: Edit): seq<string> { if e.Same? then [e.line] else e.del }

  function NewPart(e: Edit): seq<string> { if e.Same? then [e.line] else e.ins }

  lemma {:induction false} OldAppend(es: seq<Edit>, fs: seq<Edit>)
    ensures OldOf(es + fs) == OldOf(es) + OldOf(fs)
  {
    if es == [] {
      assert es + fs == fs;
    } else {
      assert (es + fs)[1..] == es[1..] + fs;
      OldAppend(es[1..], fs);
      assert OldPart(es[0]) + (OldOf(es[1..]) + OldOf(fs)) == OldPart(es[0]) + OldOf(es[1..]) + OldOf(fs);
    }
  }

  lemma {:induction false} NewAppend(es: seq<Edit>, fs: seq<Edit>)
    ensures NewOf(es + fs) == NewOf(es) + NewOf(fs)
  {
    if es == [] {
      assert es + fs == fs;
    } else {
      assert (es + fs)[1..] == es[1..] + fs;
      NewAppend(es[1..], fs);
      assert NewPart(es[0]) + (NewOf(es[1..]) + NewOf(fs)) == NewPart(es[0]) + NewOf(es[1..]) + NewOf(fs);
    }
  }

  function PrintOne(e: Edit, a: nat, b: nat): seq<string> {
    if e.Same? then [] else Block(a, b, e.del, e.ins)
  }

  lemma Associate(x: seq<string>, y: seq<string>, z: seq<string>)
    ensures x + (y + z) == (x + y) + z
  {
  }

  lemma PrintUnfold(es: seq<Edit>, a: nat, b: nat)
    requires es != []
    ensures Print(es, a, b) == PrintOne(es[0], a, b) + Print(es[1..], a + |OldPart(es[0])|, b + |NewPart(es[0])|)
  {
    hide PrintOne, OldPart, NewPart;
  }

  lemma LengthUnfold(es: seq<Edit>)
    requires es != []
    ensures |OldOf(es)| == |OldPart(es[0])| + |OldOf(es[1..])| && |NewOf(es)| == |NewPart(es[0])| + |NewOf(es[1..])|
  {
    hide OldPart, NewPart;
  }

  lemma {:induction false} PrintAppend(es: seq<Edit>, fs: seq<Edit>, a: nat, b: nat)
    ensures Print(es + fs, a, b) == Print(es, a, b) + Print(fs, a + |OldOf(es)|, b + |NewOf(es)|)
    decreases |es|, 1
  {
    if es == [] {
      assert es + fs == fs;
      assert OldOf(es) == [] && NewOf(es) == [] && Print(es, a, b) == [];
      AddInFront(Print(fs, a, b));
    } else {
      PrintAppendStep(es, fs, a, b);
    }
  }

  lemma AddInFront(x: seq<string>)
    ensures [] + x == x
  {
  }

  lemma {:induction false} PrintAppendStep(es: seq<Edit>, fs: seq<Edit>, a: nat, b: nat)
    requires es != []
    ensures Print(es + fs, a, b) == Print(es, a, b) + Print(fs, a + |OldOf(es)|, b + |NewOf(es)|)
    decreases |es|, 0
  {
    hide Print, PrintOne, OldOf, NewOf, OldPart, NewPart;
    var e := es[0];
    var c, d := a + |OldPart(e)|, b + |NewPart(e)|;
    PrintAppend(es[1..], fs, c, d);
    LengthUnfold(es);
    var tail := Print(fs, a + |OldOf(es)|, b + |NewOf(es)|);
    assert Print(es[1..] + fs, c, d) == Print(es[1..], c, d) + tail;
    PrintUnfold(es, a, b);
    PrintUnfold(es + fs, a, b);
    TailOfAppend(es, fs);
    Associate(PrintOne(e, a, b), Print(es[1..], c, d), tail);
  }

  lemma TailOfAppend(es: seq<Edit>, fs: seq<Edit>)
    requires es != []
    ensures (es + fs)[0] == es[0] && (es + fs)[1..] == es[1..] + fs
  {
  }

  // ---------- Reading the print back ----------

  lemma ReadRangeText(lo: nat, hi: nat, rest: string)
    requires lo <= hi && rest != [] && !IsDigit(rest[0]) && rest[0] != ','
    ensures ReadRange(RangeText(lo, hi) + rest) == Range(lo, hi, rest)
  {
    if lo == hi {
      ReadDecimal(lo, rest);
    } else {
      var tail := "," + Decimal(hi) + rest;
      assert RangeText(lo, hi) + rest == Decimal(lo) + tail;
      ReadDecimal(lo, tail);
      assert tail[1..] == Decimal(hi) + rest;
      ReadDecimal(hi, rest);
    }
  }

  lemma ReadTwoRanges(x: nat, y: nat, cmd: char, u: nat, v: nat)
    requires x <= y && u <= v && cmd in {'a', 'c', 'd'}
    ensures ReadCommand(RangeText(x, y) + [cmd] + RangeText(u, v) + "\n") == Command(x, y, cmd, u, v)
  {
    hide ReadRange, RangeText;
    var tail := RangeText(u, v) + "\n";
    assert RangeText(x, y) + [cmd] + RangeText(u, v) + "\n" == RangeText(x, y) + ([cmd] + tail);
    ReadRangeText(x, y, [cmd] + tail);
    assert ([cmd] + tail)[1..] == tail;
    ReadRangeText(u, v, "\n");
  }

  /** The header of a block is read back as the block's numbers. */
  lemma ReadHeader(a: nat, b: nat, del: seq<string>, ins: seq<string>)
    requires del != [] || ins != []
    ensures ReadCommand(Header(a, b, del, ins)) ==
              if del == [] then Command(a, a, 'a', b + 1, b + |ins|)
              else if ins == [] then Command(a + 1, a + |del|, 'd', b, b)
              else Command(a + 1, a + |del|, 'c', b + 1, b + |ins|)
  {
    hide ReadCommand;
    assert RangeText(a, a) == Decimal(a) && RangeText(b, b) == Decimal(b);
    if del == [] {
      assert Header(a, b, del, ins) == RangeText(a, a) + ['a'] + RangeText(b + 1, b + |ins|) + "\n";
      ReadTwoRanges(a, a, 'a', b + 1, b + |ins|);
    } else if ins == [] {
      assert Header(a, b, del, ins) == RangeText(a + 1, a + |del|) + ['d'] + RangeText(b, b) + "\n";
      ReadTwoRanges(a + 1, a + |del|, 'd', b, b);
    } else {
      assert Header(a, b, del, ins) == RangeText(a + 1, a + |del|) + ['c'] + RangeText(b + 1, b + |ins|) + "\n";
      ReadTwoRanges(a + 1, a + |del|, 'c', b + 1, b + |ins|);
    }
  }

  // ---------- fix on the print ----------

  lemma {:induction false} CopiesTo(file: seq<string>, p: Progress, target: nat)
    requires p.At? && p.here <= target <= |file|
    ensures CopyTo(file, p, target) == At(target, p.used, p.out + file[p.here..target])
    decreases target - p.here
  {
    if p.here < target {
      CopiesTo(file, CopyOne(file, p), target);
      assert p.out + file[p.here..target] == (p.out + [file[p.here]]) + file[p.here + 1..target];
    } else {
      assert p.out + file[p.here..target] == p.out;
    }
  }

  lemma MarkedUnfold(mark: string, ls: seq<string>)
    requires ls != [] && |mark| == 2
    ensures Marked(mark, ls)[0] == mark + ls[0] && Marked(mark, ls)[1..] == Marked(mark, ls[1..])
    ensures Body(mark + ls[0]) == ls[0]
  {
  }

  /** The head and tail of a slice. */
  lemma SliceUnfold(s: seq<string>, k: nat, n: nat)
    requires n > 0 && k + n <= |s|
    ensures s[k..k + n][0] == s[k] && s[k..k + n][1..] == s[k + 1..k + n]
  {
  }

  lemma {:induction false} Deletes(file: seq<string>, script: seq<string>, p: Progress, count: nat)
    requires p.At? && p.here + count <= |file| && p.used + count <= |script|
    requires script[p.used..p.used + count] == Marked("< ", file[p.here..p.here + count])
    ensures Delete(file, script, p, count) == At(p.here + count, p.used + count, p.out)
    decreases count
  {
    if count > 0 {
      hide StrwEqual, Marked, Body;
      SliceUnfold(script, p.used, count);
      SliceUnfold(file, p.here, count);
      MarkedUnfold("< ", file[p.here..p.here + count]);
      StrwEqualMeans(file[p.here], file[p.here]);
      Deletes(file, script, At(p.here + 1, p.used + 1, p.out), count - 1);
    }
  }

  lemma {:induction false} Inserts(file: seq<string>, script: seq<string>, p: Progress, ins: seq<string>)
    requires p.At? && p.here <= |file| && p.used + |ins| <= |script|
    requires script[p.used..p.used + |ins|] == Marked("> ", ins)
    ensures Insert(file, script, p, |ins|) == At(p.here, p.used + |ins|, p.out + ins)
    decreases |ins|
  {
    if ins != [] {
      hide Marked, Body;
      SliceUnfold(script, p.used, |ins|);
      MarkedUnfold("> ", ins);
      Inserts(file, script, At(p.here, p.used + 1, p.out + [ins[0]]), ins[1..]);
      assert (p.out + [ins[0]]) + ins[1..] == p.out + ins;
    } else {
      AddNothing(p.out);
    }
  }

  /** Applying one printed block, with the lines in front of it still to be copied. */
  lemma BlockApplies(file: seq<string>, script: seq<string>, p: Progress, a: nat, b: nat,
                     del: seq<string>, ins: seq<string>)
    requires del != [] || ins != []
    requires p.At? && p.here <= a && a + |del| <= |file| && file[a..a + |del|] == del
    requires del == [] ==> p.here < a
    requires p.used <= |script| && Block(a, b, del, ins) <= script[p.used..]
    ensures InRange(file, script, p) && p.used < |script|
    ensures ReadCommand(script[p.used]).Command?
    ensures Apply(file, script, At(p.here, p.used + 1, p.out), ReadCommand(script[p.used])) ==
              At(a + |del|, p.used + |Block(a, b, del, ins)|, p.out + file[p.here..a] + ins)
  {
    hide ReadCommand, Header, Apply, Marked;
    var blk := Block(a, b, del, ins);
    var u := p.used;
    assert script[u] == blk[0] == Header(a, b, del, ins);
    ReadHeader(a, b, del, ins);
    var p0 := At(p.here, u + 1, p.out);
    if del == [] {
      BlockSlice(script, u, blk, 1, Marked("> ", ins));
      AppendApplies(file, script, p0, a, b, ins);
    } else if ins == [] {
      BlockSlice(script, u, blk, 1, Marked("< ", del));
      DeleteApplies(file, script, p0, a, b, |del|);
      AddNothing(p.out + file[p.here..a]);
    } else {
      ChangedSlices(script, u, a, b, del, ins);
      ChangeApplies(file, script, p0, a, b, del, ins);
    }
  }

  /** The three parts of a change behind its header, from line `used` of the listing on. */
  predicate ChangeText(script: seq<string>, used: nat, del: seq<string>, ins: seq<string>) {
    && used + |del| + 1 + |ins| <= |script|
    && script[used..used + |del|] == Marked("< ", del)
    && script[used + |del|] == "---\n"
    && script[used + |del| + 1..used + |del| + 1 + |ins|] == Marked("> ", ins)
  }

  lemma ChangedSlices(script: seq<string>, u: nat, a: nat, b: nat, del: seq<string>, ins: seq<string>)
    requires del != [] && ins != [] && u <= |script| && Block(a, b, del, ins) <= script[u..]
    ensures |Block(a, b, del, ins)| == 2 + |del| + |ins| && ChangeText(script, u + 1, del, ins)
  {
    hide Header, Marked;
    var blk := Block(a, b, del, ins);
    BlockSlice(script, u, blk, 1, Marked("< ", del));
    BlockSlice(script, u, blk, 1 + |del|, ["---\n"]);
    assert script[u + 1 + |del|] == script[u + 1 + |del|..u + 1 + |del| + 1][0];
    BlockSlice(script, u, blk, 2 + |del|, Marked("> ", ins));
  }

  lemma AddNothing(x: seq<string>)
    ensures x + [] == x
  {
  }

  /** A part of a block sits at the same place behind the block's start in the listing. */
  lemma BlockSlice(script: seq<string>, u: nat, blk: seq<string>, k: nat, part: seq<string>)
    requires u <= |script| && blk <= script[u..] && k + |part| <= |blk| && blk[k..k + |part|] == part
    ensures u + k + |part| <= |script| && script[u + k..u + k + |part|] == part
  {
    assert script[u..u + |blk|] == blk;
    assert script[u + k..u + k + |part|] == blk[k..k + |part|];
  }

  lemma ApplyAppend(file: seq<string>, script: seq<string>, p: Progress, a: nat, n1: nat, n2: nat)
    requires p.At? && InRange(file, script, p)
    ensures InRange(file, script, CopyOne(file, CopyTo(file, p, a - 1)))
    ensures CopyTo(file, p, a - 1).At? ==>
              Apply(file, script, p, Command(a, a, 'a', n1, n2)) ==
              Insert(file, script, CopyOne(file, CopyTo(file, p, a - 1)), n2 - n1 + 1)
  {
    hide Insert, CopyTo, Delete, Separator;
  }

  lemma ApplyDelete(file: seq<string>, script: seq<string>, p: Progress, a: nat, n: nat, b: nat)
    requires p.At? && InRange(file, script, p) && CopyTo(file, p, a).At?
    ensures Apply(file, script, p, Command(a + 1, a + n, 'd', b, b)) ==
              Delete(file, script, CopyTo(file, p, a), n)
  {
    hide Insert, CopyTo, Delete, Separator;
  }

  lemma ApplyChange(file: seq<string>, script: seq<string>, p: Progress, a: nat, n: nat, b: nat, m: nat)
    requires p.At? && InRange(file, script, p) && CopyTo(file, p, a).At?
    ensures InRange(file, script, Separator(script, Delete(file, script, CopyTo(file, p, a), n)))
    ensures Apply(file, script, p, Command(a + 1, a + n, 'c', b + 1, b + m)) ==
              Insert(file, script, Separator(script, Delete(file, script, CopyTo(file, p, a), n)), m)
  {
    hide Insert, CopyTo, Delete, StrwEqual;
  }

  lemma AppendApplies(file: seq<string>, script: seq<string>, p: Progress, a: nat, b: nat, ins: seq<string>)
    requires p.At? && p.here < a <= |file| && p.used + |ins| <= |script|
    requires script[p.used..p.used + |ins|] == Marked("> ", ins)
    ensures Apply(file, script, p, Command(a, a, 'a', b + 1, b + |ins|)) ==
              At(a, p.used + |ins|, p.out + file[p.here..a] + ins)
  {
    hide Insert, CopyTo, Marked, Apply;
    ApplyAppend(file, script, p, a, b + 1, b + |ins|);
    CopiesTo(file, p, a - 1);
    CopyOneMore(p.out, file, p.here, a);
    Inserts(file, script, At(a, p.used, p.out + file[p.here..a]), ins);
  }

  lemma CopyOneMore(out: seq<string>, file: seq<string>, here: nat, a: nat)
    requires here < a <= |file|
    ensures out + file[here..a - 1] + [file[a - 1]] == out + file[here..a]
  {
  }

  lemma DeleteApplies(file: seq<string>, script: seq<string>, p: Progress, a: nat, b: nat, n: nat)
    requires p.At? && p.here <= a && a + n <= |file| && p.used + n <= |script|
    requires script[p.used..p.used + n] == Marked("< ", file[a..a + n])
    ensures Apply(file, script, p, Command(a + 1, a + n, 'd', b, b)) ==
              At(a + n, p.used + n, p.out + file[p.here..a])
  {
    hide Insert, CopyTo, Marked, Delete, Separator, Apply;
    CopiesTo(file, p, a);
    ApplyDelete(file, script, p, a, n, b);
    Deletes(file, script, At(a, p.used, p.out + file[p.here..a]), n);
  }

  lemma ChangeApplies(file: seq<string>, script: seq<string>, p: Progress, a: nat, b: nat, del: seq<string>, ins: seq<string>)
    requires p.At? && p.here <= a && a + |del| <= |file| && file[a..a + |del|] == del
    requires p.used <= |script| && ChangeText(script, p.used, del, ins)
    ensures InRange(file, script, p)
    ensures Apply(file, script, p, Command(a + 1, a + |del|, 'c', b + 1, b + |ins|)) ==
              At(a + |del|, p.used + |del| + 1 + |ins|, p.out + file[p.here..a] + ins)
  {
    hide *;
    Placed(file, script, p);
    CopiesTo(file, p, a);
    ApplyChange(file, script, p, a, |del|, b, |ins|);
    Changes(file, script, At(a, p.used, p.out + file[p.here..a]), del, ins);
  }

  lemma Placed(file: seq<string>, script: seq<string>, p: Progress)
    requires p.At? && p.here <= |file| && p.used <= |script|
    ensures InRange(file, script, p)
  {
  }

  lemma Changes(file: seq<string>, script: seq<string>, p: Progress, del: seq<string>, ins: seq<string>)
    requires p.At? && p.here + |del| <= |file| && file[p.here..p.here + |del|] == del && ChangeText(script, p.used, del, ins)
    ensures InRange(file, script, p) && InRange(file, script, Separator(script, Delete(file, script, p, |del|)))
    ensures Insert(file, script, Separator(script, Delete(file, script, p, |del|)), |ins|) == At(p.here + |del|, p.used + |del| + 1 + |ins|, p.out + ins)
  {
    hide *;
    ChangeDeletes(file, script, p, del, ins);
    ChangeInserts(file, script, p, del, ins);
  }

  lemma ChangeDeletes(file: seq<string>, script: seq<string>, p: Progress, del: seq<string>, ins: seq<string>)
    requires p.At? && p.here + |del| <= |file| && file[p.here..p.here + |del|] == del && ChangeText(script, p.used, del, ins)
    ensures InRange(file, script, p) && Delete(file, script, p, |del|) == At(p.here + |del|, p.used + |del|, p.out)
  {
    hide Marked, Delete;
    Deletes(file, script, p, |del|);
  }

  lemma ChangeInserts(file: seq<string>, script: seq<string>, p: Progress, del: seq<string>, ins: seq<string>)
    requires p.At? && p.here + |del| <= |file| && ChangeText(script, p.used, del, ins)
    ensures InRange(file, script, Separator(script, At(p.here + |del|, p.used + |del|, p.out)))
    ensures Insert(file, script, Separator(script, At(p.here + |del|, p.used + |del|, p.out)), |ins|) ==
              At(p.here + |del|, p.used + |del| + 1 + |ins|, p.out + ins)
  {
    hide Insert, Marked, Separator;
    SeparatedInserts(file, script, At(p.here + |del|, p.used + |del|, p.out), ins);
  }

  lemma SeparatedInserts(file: seq<string>, script: seq<string>, p: Progress, ins: seq<string>)
    requires p.At? && p.here <= |file| && p.used + 1 + |ins| <= |script| && script[p.used] == "---\n"
    requires script[p.used + 1..p.used + 1 + |ins|] == Marked("> ", ins)
    ensures InRange(file, script, Separator(script, p))
    ensures Insert(file, script, Separator(script, p), |ins|) == At(p.here, p.used + 1 + |ins|, p.out + ins)
  {
    hide Insert, Marked, Separator;
    SeparatorRead(script, p);
    Inserts(file, script, At(p.here, p.used + 1, p.out), ins);
  }

  lemma SeparatorRead(script: seq<string>, p: Progress)
    requires p.At? && p.used < |script| && script[p.used] == "---\n"
    ensures Separator(script, p) == At(p.here, p.used + 1, p.out)
  {
    hide StrwEqual;
    StrwEqualMeans("---\n", "---\n");
  }

  /** fix on the rest of a listing: common lines wait to be copied until the next block. */
  lemma {:induction false} FixTail(file: seq<string>, script: seq<string>, p: Progress, es: seq<Edit>, a: nat, b: nat)
    requires p.At? && p.here <= a <= |file| && p.used <= |script|
    requires Proper(es) && file[a..] == OldOf(es) && script[p.used..] == Print(es, a, b)
    requires es != [] && es[0].Change? && es[0].del == [] ==> p.here < a
    ensures Run(file, script, p) == Done(p.out + file[p.here..a] + NewOf(es))
    decreases |es|
  {
    hide Block, Apply, ReadCommand, CopyTo, Run;
    if es == [] {
      FixEnd(file, script, p, a);
    } else if es[0].Same? {
      FixSame(file, script, p, es, a, b);
      FixTail(file, script, p, es[1..], a + 1, b + 1);
    } else {
      var del, ins := es[0].del, es[0].ins;
      FixBlock(file, script, p, es, a, b);
      var n := |Block(a, b, del, ins)|;
      var q := At(a + |del|, p.used + n, p.out + file[p.here..a] + ins);
      FixTail(file, script, q, es[1..], a + |del|, b + |ins|);
      assert file[q.here..a + |del|] == [];
      Regroup(p.out + file[p.here..a], ins, NewOf(es[1..]));
    }
  }

  lemma Regroup(x: seq<string>, y: seq<string>, z: seq<string>)
    ensures x + y + [] + z == x + (y + z)
  {
  }

  lemma FixEnd(file: seq<string>, script: seq<string>, p: Progress, a: nat)
    requires p.At? && p.here <= a <= |file| && p.used == |script| && file[a..] == []
    ensures Run(file, script, p) == Done(p.out + file[p.here..a] + [])
  {
    assert file[p.here..a] == file[p.here..];
  }

  lemma FixSame(file: seq<string>, script: seq<string>, p: Progress, es: seq<Edit>, a: nat, b: nat)
    requires p.At? && p.here <= a <= |file| && p.used <= |script|
    requires file[a..] == OldOf(es) && script[p.used..] == Print(es, a, b)
    requires es != [] && es[0].Same?
    ensures a + 1 <= |file| && file[a + 1..] == OldOf(es[1..])
    ensures script[p.used..] == Print(es[1..], a + 1, b + 1)
    ensures p.out + file[p.here..a + 1] + NewOf(es[1..]) == p.out + file[p.here..a] + NewOf(es)
  {
    hide Block;
    var l := es[0].line;
    assert OldOf(es) == [l] + OldOf(es[1..]) && NewOf(es) == [l] + NewOf(es[1..]);
    HeadOf(file, a, l, OldOf(es[1..]));
    assert Print(es, a, b) == [] + Print(es[1..], a + 1, b + 1);
    hide *;
    CopyLater(p.out, file, p.here, a, NewOf(es[1..]));
  }

  lemma HeadOf(file: seq<string>, a: nat, l: string, tail: seq<string>)
    requires a <= |file| && file[a..] == [l] + tail
    ensures a < |file| && file[a] == l && file[a + 1..] == tail
  {
    assert file[a] == file[a..][0];
    assert file[a + 1..] == file[a..][1..];
  }

  lemma CopyLater(out: seq<string>, file: seq<string>, here: nat, a: nat, rest: seq<string>)
    requires here <= a < |file|
    ensures out + file[here..a + 1] + rest == out + file[here..a] + ([file[a]] + rest)
  {
    assert file[here..a + 1] == file[here..a] + [file[a]];
  }

  lemma FixBlock(file: seq<string>, script: seq<string>, p: Progress, es: seq<Edit>, a: nat, b: nat)
    requires p.At? && p.here <= a <= |file| && p.used <= |script|
    requires Proper(es) && file[a..] == OldOf(es) && script[p.used..] == Print(es, a, b)
    requires es != [] && es[0].Change? && (es[0].del == [] ==> p.here < a)
    ensures var del, ins := es[0].del, es[0].ins;
            var n := |Block(a, b, del, ins)|;
            && a + |del| <= |file| && p.used + n <= |script|
            && file[a + |del|..] == OldOf(es[1..])
            && script[p.used + n..] == Print(es[1..], a + |del|, b + |ins|)
            && Run(file, script, p) ==
               Run(file, script, At(a + |del|, p.used + n, p.out + file[p.here..a] + ins))
  {
    hide Block, Apply, ReadCommand;
    var del, ins := es[0].del, es[0].ins;
    var blk := Block(a, b, del, ins);
    assert file[a..][..|del|] == del;
    assert file[a..a + |del|] == del;
    assert script[p.used..][..|blk|] == blk;
    BlockApplies(file, script, p, a, b, del, ins);
    assert file[a + |del|..] == file[a..][|del|..];
    assert script[p.used + |blk|..] == script[p.used..][|blk|..];
  }

  // ---------- The insertion in front of line 1 ----------

  /** Output is only ever added to. */
  lemma {:induction false} RunKeepsOutput(file: seq<string>, script: seq<string>, p: Progress)
    requires InRange(file, script, p)
    ensures p.out <= Run(file, script, p).out
    decreases if p.At? then |script| - p.used else -1
  {
    hide ReadCommand, Apply;
    if p.At? && p.used < |script| {
      var c := ReadCommand(script[p.used]);
      if c.Command? {
        RunKeepsOutput(file, script, Apply(file, script, At(p.here, p.used + 1, p.out), c));
        ApplyKeepsOutput(file, script, At(p.here, p.used + 1, p.out), c);
      }
    }
  }

  lemma ApplyKeepsOutput(file: seq<string>, script: seq<string>, p: Progress, c: Command)
    requires p.At? && c.Command? && InRange(file, script, p)
    ensures p.out <= Apply(file, script, p, c).out
  {
    hide StrwEqual, Delete, Insert, CopyTo;
    CopyKeepsOutput(file, p, c.o1 - 1);
    var p1 := CopyTo(file, p, c.o1 - 1);
    if c.cmd == 'd' {
      DeleteKeepsOutput(file, script, p1, c.o2 - c.o1 + 1);
    } else if c.cmd == 'c' {
      DeleteKeepsOutput(file, script, p1, c.o2 - c.o1 + 1);
      InsertKeepsOutput(file, script, Separator(script, Delete(file, script, p1, c.o2 - c.o1 + 1)), c.n2 - c.n1 + 1);
    } else if c.cmd == 'a' {
      InsertKeepsOutput(file, script, CopyOne(file, p1), c.n2 - c.n1 + 1);
    }
  }

  lemma {:induction false} CopyKeepsOutput(file: seq<string>, p: Progress, target: int)
    ensures p.out <= CopyTo(file, p, target).out
    decreases if p.At? then target - p.here else -1
  {
    if p.At? && p.here < target { CopyKeepsOutput(file, CopyOne(file, p), target); }
  }

  lemma {:induction false} DeleteKeepsOutput(file: seq<string>, script: seq<string>, p: Progress, count: int)
    requires InRange(file, script, p)
    ensures p.out == Delete(file, script, p, count).out
    decreases count
  {
    hide StrwEqual;
    if p.At? && count > 0 && p.here < |file| && p.used < |script| {
      DeleteKeepsOutput(file, script, At(p.here + 1, p.used + 1, p.out), count - 1);
    }
  }

  lemma {:induction false} InsertKeepsOutput(file: seq<string>, script: seq<string>, p: Progress, count: int)
    requires InRange(file, script, p)
    ensures p.out <= Insert(file, script, p, count).out
    decreases count
  {
    if p.At? && count > 0 && p.used < |script| {
      InsertKeepsOutput(file, script, At(p.here, p.used + 1, p.out + [Body(script[p.used])]), count - 1);
    }
  }

  /** The listing begins with an insertion in front of the first line. */
  predicate BeginsWithInsertionAtZero(script: seq<string>) {
    script != [] && "0a" <= script[0]
  }

  lemma {:induction false} DecimalOfPositive(n: nat)
    requires n > 0
    ensures Decimal(n)[0] != '0'
  {
    if n >= 10 { DecimalOfPositive(n / 10); }
  }

  lemma HeaderAtZero(a: nat, b: nat, del: seq<string>, ins: seq<string>)
    requires del != [] || ins != []
    ensures "0a" <= Header(a, b, del, ins) <==> a == 0 && del == []
  {
    var h := Header(a, b, del, ins);
    if del == [] {
      assert h[0] == Decimal(a)[0];
      if a == 0 { assert Decimal(0) == "0"; assert h[1] == 'a'; } else { DecimalOfPositive(a); }
    } else {
      assert h[0] == RangeText(a + 1, a + |del|)[0] == Decimal(a + 1)[0];
      DecimalOfPositive(a + 1);
    }
  }

  /** The print starts with "0a" exactly when the edits start with a pure insertion. */
  lemma {:induction false} PrintAtZero(es: seq<Edit>, a: nat, b: nat)
    requires Proper(es)
    ensures BeginsWithInsertionAtZero(Print(es, a, b)) <==>
              a == 0 && es != [] && es[0].Change? && es[0].del == []
  {
    if es != [] {
      if es[0].Same? {
        hide Header;
        PrintAtZero(es[1..], a + 1, b + 1);
      } else {
        hide Header;
        assert Print(es, a, b)[0] == Header(a, b, es[0].del, es[0].ins);
        HeaderAtZero(a, b, es[0].del, es[0].ins);
      }
    }
  }

  /** fix turns the old file into the new one exactly when the listing does not
      insert in front of line 1; then it copies a line first, or finds none to copy. */
  lemma FixUndoesPrint(es: seq<Edit>, file1: seq<string>, file2: seq<string>)
    requires Proper(es) && StartsAtDifferences(es, file1, file2)
    requires OldOf(es) == file1 && NewOf(es) == file2
    ensures FixOf(file1, Print(es, 0, 0)) == Done(file2) <==> !BeginsWithInsertionAtZero(Print(es, 0, 0))
    ensures FixOf(file1, Print(es, 0, 0)).out == file2 <==> !BeginsWithInsertionAtZero(Print(es, 0, 0))
  {
    hide Run, Block;
    var script := Print(es, 0, 0);
    PrintAtZero(es, 0, 0);
    if BeginsWithInsertionAtZero(script) {
      InsertionAtZeroFails(es, file1, file2);
    } else {
      assert file1[0..] == file1 && script[0..] == script;
      FixTail(file1, script, At(0, 0, []), es, 0, 0);
      assert [] + file1[0..0] + NewOf(es) == file2;
    }
  }

  lemma InsertionAtZeroFails(es: seq<Edit>, file1: seq<string>, file2: seq<string>)
    requires Proper(es) && StartsAtDifferences(es, file1, file2)
    requires OldOf(es) == file1 && NewOf(es) == file2
    requires es != [] && es[0].Change? && es[0].del == []
    ensures FixOf(file1, Print(es, 0, 0)).out != file2
  {
    hide ReadCommand, Insert, Header, Run, Apply, Print, StartsAtDifferences, OldOf, NewOf;
    var script := Print(es, 0, 0);
    var ins := es[0].ins;
    assert script[0] == Header(0, 0, [], ins) by { PrintUnfold(es, 0, 0); }
    ReadHeader(0, 0, [], ins);
    var c := Command(0, 0, 'a', 1, |ins|);
    var q := Apply(file1, script, At(0, 1, []), c);
    assert FixOf(file1, script) == Run(file1, script, q) by { FirstCommand(file1, script); }
    FirstLines(es, file1, file2);
    AppendFirst(file1, script, c);
    if file1 == [] {
      StoppedAtOnce(file1, script, q);
    } else {
      RunKeepsOutput(file1, script, q);
    }
  }

  lemma FirstLines(es: seq<Edit>, file1: seq<string>, file2: seq<string>)
    requires Proper(es) && StartsAtDifferences(es, file1, file2)
    requires NewOf(es) == file2 && es != [] && es[0].Change? && es[0].del == []
    ensures file2 != [] && (file1 != [] ==> file1[0] != file2[0])
  {
    assert es[..0] == [];
    assert Differ(file1, |OldOf(es[..0])|, file2, |NewOf(es[..0])|);
    assert NewOf(es) == es[0].ins + NewOf(es[1..]);
  }

  lemma FirstCommand(file: seq<string>, script: seq<string>)
    requires script != [] && ReadCommand(script[0]).Command?
    ensures FixOf(file, script) == Run(file, script, Apply(file, script, At(0, 1, []), ReadCommand(script[0])))
  {
    hide ReadCommand, Apply;
  }

  lemma StoppedAtOnce(file: seq<string>, script: seq<string>, q: Progress)
    requires q.Stop? && InRange(file, script, q)
    ensures Run(file, script, q).out == q.out
  {
  }

  /** An append command at address 0 first copies line 1. */
  lemma AppendFirst(file: seq<string>, script: seq<string>, c: Command)
    requires script != [] && c.Command? && c.cmd == 'a' && c.o1 == 0
    ensures var q := Apply(file, script, At(0, 1, []), c);
      if file == [] then q.Stop? && q.out == [] else c.o1 == c.o2 ==> [file[0]] <= q.out
  {
    hide Insert;
    InsertKeepsOutput(file, script, CopyOne(file, At(0, 1, [])), c.n2 - c.n1 + 1);
  }
}
