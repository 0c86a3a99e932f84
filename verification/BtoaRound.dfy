/** atob undoes btoa, and when a line's checksum character spoils that. */
module BtoaRound {
  import opened BitOps
  import opened BtoaWords
  import opened BtoaText
  import opened Btoa
  import opened Atob
  import opened Options
  import opened Stdio

  // ---------- Decoding the characters of a file ----------

  /** The state when a word is complete and its bytes wait. */
  ghost predicate Waiting(s: State, out: seq<Byte>, chs: seq<Byte>, sums: Sums) {
    s.bytecount == 5 && s.out == out && s.chs == chs && s.sums == sums
  }

  /** The state after k of a word's digits. */
  ghost predicate Partial(s: State, d: seq<nat>, k: nat, out: seq<Byte>, sums: Sums) {
    k <= |d| && s.bytecount == k && s.codeword == Value(d[..k]) && s.out == out && s.sums == sums
  }

  lemma FirstDigit(s: State, d: seq<nat>, isNew: bool)
    requires (s.bytecount == 0 || s.bytecount == 5) && |d| == 5 && d[0] < 85
    ensures Partial(Step(s, BANG + d[0], isNew), d, 1, Emit(s).out, Count(s, BANG + d[0], isNew).sums)
  {
    assert d[..1][..0] == [] && d[..1] == [d[0]];
    assert Value(d[..1]) == Wrap(Value([]) * 85 + d[0]) == d[0];
  }

  lemma NextDigit(s: State, d: seq<nat>, k: nat, out: seq<Byte>, sums: Sums, isNew: bool)
    requires |d| == 5 && 1 <= k < 4 && d[k] < 85 && Partial(s, d, k, out, sums)
    ensures Partial(Step(s, BANG + d[k], isNew), d, k + 1, out, if isNew then Update(sums, BANG + d[k]) else sums)
  {
    hide Update;
    assert d[..k+1][..k] == d[..k];
  }

  lemma LastDigit(s: State, d: seq<nat>, out: seq<Byte>, sums: Sums, isNew: bool)
    requires |d| == 5 && d[4] < 85 && Partial(s, d, 4, out, sums)
    ensures var b := BytesOf(Value(d));
      Waiting(Step(s, BANG + d[4], isNew), out, b, if isNew then Update(sums, BANG + d[4]) else Update4(sums, b))
  {
    hide Update, Update4, BytesOf;
    assert d[..5] == d && d[..4] == d[..5][..4];
  }

  function Update5(s: Sums, d: seq<nat>): Sums
    requires |d| == 5 && forall i :: 0 <= i < 5 ==> d[i] < 85
  {
    Update(Update(Update(Update(Update(s, BANG + d[0]), BANG + d[1]), BANG + d[2]), BANG + d[3]), BANG + d[4])
  }

  function Step5(s: State, d: seq<nat>, isNew: bool): State
    requires |d| == 5 && forall i :: 0 <= i < 5 ==> d[i] < 85
  {
    Step(Step(Step(Step(Step(s, BANG + d[0], isNew), BANG + d[1], isNew), BANG + d[2], isNew), BANG + d[3], isNew), BANG + d[4], isNew)
  }

  lemma FiveDigits(s: State, d: seq<nat>, isNew: bool)
    requires (s.bytecount == 0 || s.bytecount == 5) && |d| == 5 && forall i :: 0 <= i < 5 ==> d[i] < 85
    ensures var b := BytesOf(Value(d));
      Waiting(Step5(s, d, isNew), Emit(s).out, b, if isNew then Update5(s.sums, d) else Update4(s.sums, b))
  {
    hide Step, Update, Update4, BytesOf, Value, Partial, Waiting;
    var out := Emit(s).out;
    FirstDigit(s, d, isNew);
    var s1 := Step(s, BANG + d[0], isNew);
    var m1 := if isNew then Update(s.sums, BANG + d[0]) else s.sums;
    NextDigit(s1, d, 1, out, m1, isNew);
    var s2 := Step(s1, BANG + d[1], isNew);
    var m2 := if isNew then Update(m1, BANG + d[1]) else s.sums;
    NextDigit(s2, d, 2, out, m2, isNew);
    var s3 := Step(s2, BANG + d[2], isNew);
    var m3 := if isNew then Update(m2, BANG + d[2]) else s.sums;
    NextDigit(s3, d, 3, out, m3, isNew);
    var s4 := Step(s3, BANG + d[3], isNew);
    var m4 := if isNew then Update(m3, BANG + d[3]) else s.sums;
    LastDigit(s4, d, out, m4, isNew);
  }

  lemma RunOne(s: State, a: seq<Byte>, c: Byte, isNew: bool)
    ensures Run(s, a + [c], isNew) == Step(Run(s, a, isNew), c, isNew)
    ensures AllAllowed(s, a + [c], isNew) <==> AllAllowed(s, a, isNew) && Allowed(Run(s, a, isNew), c, isNew)
  {
    assert (a + [c])[..|a|] == a;
  }

  lemma RunFive(s: State, d: seq<nat>, isNew: bool)
    requires |d| == 5 && forall i :: 0 <= i < 5 ==> d[i] < 85
    ensures Run(s, DigitChars(d), isNew) == Step5(s, d, isNew) && AllAllowed(s, DigitChars(d), isNew)
    ensures UpdateAll(s.sums, DigitChars(d)) == Update5(s.sums, d)
  {
    hide Step, Update;
    var c0, c1, c2, c3, c4: Byte := BANG + d[0], BANG + d[1], BANG + d[2], BANG + d[3], BANG + d[4];
    assert DigitChars(d) == [] + [c0] + [c1] + [c2] + [c3] + [c4];
    RunOne(s, [], c0, isNew);
    RunOne(s, [] + [c0], c1, isNew);
    RunOne(s, [] + [c0] + [c1], c2, isNew);
    RunOne(s, [] + [c0] + [c1] + [c2], c3, isNew);
    RunOne(s, [] + [c0] + [c1] + [c2] + [c3], c4, isNew);
    UpdateOne(s.sums, [], c0);
    UpdateOne(s.sums, [] + [c0], c1);
    UpdateOne(s.sums, [] + [c0] + [c1], c2);
    UpdateOne(s.sums, [] + [c0] + [c1] + [c2], c3);
    UpdateOne(s.sums, [] + [c0] + [c1] + [c2] + [c3], c4);
  }

  /** The characters of a word, wherever they come, leave its bytes waiting. */
  lemma WordDecodes(s: State, b: seq<Byte>, isNew: bool)
    requires (s.bytecount == 0 || s.bytecount == 5) && |b| == 4
    ensures var chars := WordChars(WordOf(b), isNew);
      && AllAllowed(s, chars, isNew)
      && Waiting(Run(s, chars, isNew), Emit(s).out, b, if isNew then UpdateAll(s.sums, chars) else Update4(s.sums, b))
  {
    var u := WordOf(b);
    if u == 0 {
      ShortWord(s, b, CHAR_Z, isNew);
    } else if isNew && u == 0x20202020 {
      ShortWord(s, b, CHAR_Y, isNew);
    } else {
      hide WordOf, Step5, Update5, Run, AllAllowed, UpdateAll, Waiting, Value, BytesOf, Wrap;
      var d := Digits(u);
      ValueOfDigits(u);
      BytesBack(b);
      hide Digits;
      RunFive(s, d, isNew);
      FiveDigits(s, d, isNew);
    }
  }

  lemma ShortWord(s: State, b: seq<Byte>, ch: Byte, isNew: bool)
    requires (s.bytecount == 0 || s.bytecount == 5) && |b| == 4
    requires (ch == CHAR_Z && WordOf(b) == 0) || (isNew && ch == CHAR_Y && WordOf(b) == 0x20202020)
    ensures AllAllowed(s, [ch], isNew)
    ensures Waiting(Run(s, [ch], isNew), Emit(s).out, b, if isNew then UpdateAll(s.sums, [ch]) else Update4(s.sums, b))
  {
    var v: Byte := if ch == CHAR_Z then 0 else 32;
    SameBytes(b, [v, v, v, v]);
    RunOne(s, [], ch, isNew);
    UpdateOne(s.sums, [], ch);
    assert [] + [ch] == [ch];
    hide Update, WordOf;
  }

  lemma SameBytes(b: seq<Byte>, c: seq<Byte>)
    requires |b| == |c| == 4 && WordOf(b) == WordOf(c)
    ensures b == c
  {
    BytesBack(b);
    BytesBack(c);
  }

  /** The state after k groups. */
  ghost predicate AfterGroups(s: State, input: seq<Byte>, k: nat, isNew: bool) {
    if k == 0 then s == START
    else Waiting(s, GroupBytes(input, k - 1), Group(input, k - 1), SumsUpTo(input, k, isNew))
  }

  lemma {:induction false} GroupsDecode(input: seq<Byte>, k: nat, isNew: bool)
    ensures AllAllowed(START, Chars(input, k, isNew), isNew)
    ensures AfterGroups(Run(START, Chars(input, k, isNew), isNew), input, k, isNew)
  {
    hide *;
    if k == 0 {
      NoneDecoded(input, isNew);
    } else {
      GroupsDecode(input, k - 1, isNew);
      NextGroup(input, k - 1, isNew);
    }
  }

  lemma NoneDecoded(input: seq<Byte>, isNew: bool)
    ensures AllAllowed(START, Chars(input, 0, isNew), isNew)
    ensures AfterGroups(Run(START, Chars(input, 0, isNew), isNew), input, 0, isNew)
  {
  }

  lemma NextGroup(input: seq<Byte>, k: nat, isNew: bool)
    requires AllAllowed(START, Chars(input, k, isNew), isNew)
    requires AfterGroups(Run(START, Chars(input, k, isNew), isNew), input, k, isNew)
    ensures AllAllowed(START, Chars(input, k + 1, isNew), isNew)
    ensures AfterGroups(Run(START, Chars(input, k + 1, isNew), isNew), input, k + 1, isNew)
  {
    hide Run, AllAllowed, WordChars, WordOf, Group, GroupBytes, UpdateAll, Update, Update4, Emit, Chars, Waiting;
    var before, b := Chars(input, k, isNew), Group(input, k);
    var s, chars := Run(START, before, isNew), WordChars(WordOf(b), isNew);
    EmitGroups(s, input, k, isNew);
    WordDecodes(s, b, isNew);
    RunJoin(START, before, chars, isNew);
    OneGroup(input, k, isNew);
    if isNew { UpdateJoin(NO_SUMS, before, chars); } else { UpdateFour(SumsUpTo(input, k, isNew), b); }
  }

  lemma UpdateFour(s: Sums, b: seq<Byte>)
    requires |b| == 4
    ensures Update4(s, b) == Update(Update(Update(Update(s, b[0]), b[1]), b[2]), b[3])
  {
  }

  lemma EmitGroups(s: State, input: seq<Byte>, k: nat, isNew: bool)
    requires AfterGroups(s, input, k, isNew)
    ensures Emit(s).out == GroupBytes(input, k) && s.sums == SumsUpTo(input, k, isNew) && (s.bytecount == 0 || s.bytecount == 5)
  {
    NoGroups(input, isNew);
    hide Group, Update, Chars;
  }

  // ---------- Reading the lines of an archive ----------

  const CHAR_X: Byte := 120
  const BUFSIZE: nat := 100

  /** readbuffer() */
  method ReadBuffer(body: seq<Byte>, p: nat) returns (line: seq<Byte>, p': nat)
    requires p < |body|
    ensures p' == LineEnd(body, p, p, BUFSIZE) > p && line == body[p..p']
  {
    line, p' := Fgets(body, p, BUFSIZE);
  }

  /** One line of new_decodefile(); false when something is wrong with it. A line without characters is taken as wrong. */
  method NewLine(d: Decoder, body: seq<Byte>, line: seq<Byte>, p': nat) returns (ok: bool)
    requires d.isNew && d.bytecount <= 5 && line != [] && p' <= |body|
    modifies d
    ensures d.bytecount <= 5
    ensures ok <==> NewLineFine(old(d.Now()), body, line, p')
    ensures ok ==> d.Now() == Run(old(d.Now()), DataOf(line, true), true)
  {
    hide Run, Acceptable, StrLen, Remainder85, Signed;
    var length := StrLen(line) - 1;
    if length < 0 || line[0] == CHAR_X { return false; }
    if length != MAXPERLINE || line[length] != NL {
      if line[length] != NL { return false; }
      if length > MAXPERLINE || NextByte(body, p') != CHAR_X { return false; }
    }
    if length < 1 { return false; }
    var bad := d.DecodeLine(line[..length - 1]);
    var ch := line[length - 1];
    ok := !bad && Signed(ch) == BANG + Remainder85(d.sums.sum);
  }

  /** The byte at p; behind the body stands the last line of the archive. */
  function NextByte(body: seq<Byte>, p: nat): Byte { if p < |body| then body[p] else CHAR_X }

  /** The length of a line is right, or it is the last one and shorter. */
  predicate ShapeOk(body: seq<Byte>, line: seq<Byte>, p': nat) {
    line != [] && line[0] != CHAR_X && StrLen(line) >= 2 && line[StrLen(line) - 1] == NL &&
    (StrLen(line) == MAXPERLINE + 1 || (StrLen(line) <= MAXPERLINE + 1 && NextByte(body, p') == CHAR_X))
  }

  /** The characters of a line that are decoded: all before the line end, and in the new format before the checksum. */
  function DataOf(line: seq<Byte>, isNew: bool): seq<Byte> {
    var rest := if isNew then 2 else 1;
    if StrLen(line) >= rest then line[..StrLen(line) - rest] else []
  }

  /** A line that decodes, and whose checksum is that of the characters so far. */
  predicate NewLineFine(s: State, body: seq<Byte>, line: seq<Byte>, p': nat) {
    && ShapeOk(body, line, p') && Acceptable(s, DataOf(line, true), true)
    && Signed(line[StrLen(line) - 2]) == BANG + Remainder85(Run(s, DataOf(line, true), true).sums.sum)
  }

  predicate OldLineFine(s: State, line: seq<Byte>) {
    line != [] && line[0] != CHAR_X && StrLen(line) >= 1 && line[StrLen(line) - 1] == NL && Acceptable(s, DataOf(line, false), false)
  }

  /** One line of old_decodefile(). */
  method OldLine(d: Decoder, line: seq<Byte>) returns (ok: bool)
    requires !d.isNew && d.bytecount <= 5 && line != []
    modifies d
    ensures d.bytecount <= 5
    ensures ok <==> OldLineFine(old(d.Now()), line)
    ensures ok ==> d.Now() == Run(old(d.Now()), DataOf(line, false), false)
  {
    hide Run, Acceptable, StrLen;
    var length := StrLen(line) - 1;
    if length < 0 || line[0] == CHAR_X { return false; }
    if line[length] != NL { return false; }
    var bad := d.DecodeLine(line[..length]);
    ok := !bad;
  }

  // ---------- The lines of any archive ----------

  function LineAfter(body: seq<Byte>, p: nat): (q: nat)
    requires p < |body|
    ensures p < q <= |body|
  {
    LineAdvances(body, p);
    LineEnd(body, p, p, BUFSIZE)
  }

  lemma LineAdvances(body: seq<Byte>, p: nat)
    requires p < |body|
    ensures p < LineEnd(body, p, p, BUFSIZE)
  {
  }

  predicate LineFine(s: State, body: seq<Byte>, p: nat, isNew: bool)
    requires p < |body|
  {
    var q := LineAfter(body, p);
    if isNew then NewLineFine(s, body, body[p..q], q) else OldLineFine(s, body[p..q])
  }

  /** The state once all lines from p on are read, if nothing is wrong with them. */
  function BodyState(s: State, body: seq<Byte>, p: nat, isNew: bool): Option<State>
    requires p <= |body|
    decreases |body| - p
  {
    if p == |body| then Some(s)
    else if !LineFine(s, body, p, isNew) then None
    else
      var q := LineAfter(body, p);
      BodyState(Run(s, DataOf(body[p..q], isNew), isNew), body, q, isNew)
  }

  /** The characters of all lines from p on. */
  function DataFrom(body: seq<Byte>, p: nat, isNew: bool): seq<Byte>
    requires p <= |body|
    decreases |body| - p
  {
    if p == |body| then [] else
    var q := LineAfter(body, p);
    DataOf(body[p..q], isNew) + DataFrom(body, q, isNew)
  }

  /** All bytes of a state: those put out and those that wait. */
  function AllBytes(s: State): seq<Byte> { if s.bytecount == 5 then s.out + s.chs else s.out }

  lemma {:induction false} BodyRuns(s: State, body: seq<Byte>, p: nat, isNew: bool)
    requires p <= |body| && BodyState(s, body, p, isNew).Some?
    ensures BodyState(s, body, p, isNew).value == Run(s, DataFrom(body, p, isNew), isNew)
    decreases |body| - p
  {
    hide Run, LineFine;
    if p < |body| {
      var q := LineAfter(body, p);
      var data := DataOf(body[p..q], isNew);
      BodyRuns(Run(s, data, isNew), body, q, isNew);
      RunJoin(s, data, DataFrom(body, q, isNew), isNew);
    } else {
      RunNothing(s, isNew);
    }
  }

  lemma RunNothing(s: State, isNew: bool)
    ensures Run(s, [], isNew) == s
  {
  }

  /** The sums of the old format are over the bytes. */
  lemma {:induction false} OldSums(chars: seq<Byte>)
    ensures var s := Run(START, chars, false); s.sums == UpdateAll(NO_SUMS, AllBytes(s)) && |s.chs| == 4 && s.bytecount <= 5
  {
    if chars != [] {
      hide Update, Update4, BytesOf, Wrap, UpdateAll, Run;
      OldSums(chars[..|chars|-1]);
      var s, c := Run(START, chars[..|chars|-1], false), chars[|chars|-1];
      LastStep(chars, false);
      OldStepSums(s, c);
    } else {
      RunNothing(START, false);
    }
  }

  lemma LastStep(chars: seq<Byte>, isNew: bool)
    requires chars != []
    ensures Run(START, chars, isNew) == Step(Run(START, chars[..|chars|-1], isNew), chars[|chars|-1], isNew)
  {
  }

  lemma OldStepSums(s: State, c: Byte)
    requires s.sums == UpdateAll(NO_SUMS, AllBytes(s)) && |s.chs| == 4 && s.bytecount <= 5
    ensures var t := Step(s, c, false); t.sums == UpdateAll(NO_SUMS, AllBytes(t)) && |t.chs| == 4 && t.bytecount <= 5
  {
    hide Update, BytesOf, Wrap;
    var t := Step(s, c, false);
    assert AllBytes(Emit(s)) == AllBytes(s);
    if t.bytecount == 5 { FourMore(s.sums, AllBytes(s), t.chs); }
  }

  lemma FourMore(sums: Sums, out: seq<Byte>, b: seq<Byte>)
    requires |b| == 4 && sums == UpdateAll(NO_SUMS, out)
    ensures UpdateAll(NO_SUMS, out + b) == Update4(sums, b)
  {
    hide Update;
    UpdateOne(NO_SUMS, out, b[0]);
    UpdateOne(NO_SUMS, out + [b[0]], b[1]);
    UpdateOne(NO_SUMS, out + [b[0]] + [b[1]], b[2]);
    UpdateOne(NO_SUMS, out + [b[0]] + [b[1]] + [b[2]], b[3]);
    assert out + b == out + [b[0]] + [b[1]] + [b[2]] + [b[3]];
  }

  // ---------- The lines of an encoded file ----------

  /** The characters of words: never a line end, a NUL or an 'x'. */
  predicate Printable(c: Byte) { IsDigit(c) || c == CHAR_Y || c == CHAR_Z }

  ghost predicate AllPrintable(s: seq<Byte>) { forall i :: 0 <= i < |s| ==> Printable(s[i]) }

  lemma {:induction false} CharsPrintable(input: seq<Byte>, k: nat, isNew: bool)
    ensures AllPrintable(Chars(input, k, isNew))
  {
    if k > 0 {
      CharsPrintable(input, k - 1, isNew);
      hide WordOf, Group, Digits;
    }
  }

  /** What stands at p and behind it. */
  ghost predicate Follows(body: seq<Byte>, p: nat, piece: seq<Byte>) {
    p + |piece| <= |body| && body[p..p + |piece|] == piece
  }

  lemma {:induction false} BodyFollows(chars: seq<Byte>, isNew: bool, k: nat, n: nat)
    requires k < n && Start(isNew, n - 1) <= |chars|
    ensures Start(isNew, k) <= |chars|
    ensures Follows(Body(chars, isNew, n), |Body(chars, isNew, k)|, Written(LineAt(chars, isNew, k), isNew, SumAt(chars, isNew, k)))
    ensures |Body(chars, isNew, k + 1)| == |Body(chars, isNew, k)| + |Written(LineAt(chars, isNew, k), isNew, SumAt(chars, isNew, k))| <= |Body(chars, isNew, n)|
    decreases n
  {
    hide Written, LineAt, SumAt;
    if k < n - 1 {
      BodyFollows(chars, isNew, k, n - 1);
      Deeper(Body(chars, isNew, n - 1), Written(LineAt(chars, isNew, n - 1), isNew, SumAt(chars, isNew, n - 1)), |Body(chars, isNew, k)|,
             Written(LineAt(chars, isNew, k), isNew, SumAt(chars, isNew, k)));
    }
  }

  lemma Deeper(a: seq<Byte>, b: seq<Byte>, p: nat, piece: seq<Byte>)
    requires Follows(a, p, piece)
    ensures Follows(a + b, p, piece)
  {
    assert (a + b)[p..p + |piece|] == a[p..p + |piece|];
  }

  lemma NulAt(s: seq<Byte>, n: nat)
    requires n < |s| && s[n] == 0 && forall i :: 0 <= i < n ==> s[i] != 0
    ensures StrLen(s) == n
  {
  }

  /** The checksum characters that break a line: the line end itself, and the end of a C string. */
  predicate Harmless(sum: int) { Check(sum) != NL && Check(sum) != 0 }

  /** The bytes behind p are those of the piece. */
  ghost predicate Holds(body: seq<Byte>, p: nat, piece: seq<Byte>) {
    p + |piece| <= |body| && forall i :: p <= i < p + |piece| ==> body[i] == piece[i - p]
  }

  lemma HoldsWritten(body: seq<Byte>, p: nat, data: seq<Byte>, isNew: bool, sum: int)
    requires Follows(body, p, Written(data, isNew, sum)) && AllPrintable(data)
    ensures Holds(body, p, data) && p + |data| < |body| && body[p..p + |data|] == data
    ensures forall i :: p <= i < p + |data| ==> body[i] != NL && body[i] != 0 && body[i] != CHAR_X
    ensures body[p + |data|] == if isNew then Check(sum) else NL
    ensures isNew ==> p + |data| + 1 < |body| && body[p + |data| + 1] == NL
  {
    hide Check;
    var piece := Written(data, isNew, sum);
    forall i | p <= i < p + |piece| ensures body[i] == piece[i - p] { assert body[p..p + |piece|][i - p] == piece[i - p]; }
  }

  /** A line of the new format as it is read back. */
  lemma NewLineRead(body: seq<Byte>, p: nat, data: seq<Byte>, sum: int)
    requires Follows(body, p, Written(data, true, sum)) && AllPrintable(data) && 1 <= |data| <= MAXPERLINE - 1
    requires |data| < MAXPERLINE - 1 ==> p + |data| + 2 == |body|
    ensures var q := LineEnd(body, p, p, BUFSIZE); var line := body[p..q];
      && line != []
      && (Harmless(sum) ==> q == p + |data| + 2 && StrLen(line) == |data| + 2 && line[..|data|] == data && line[|data|] == Check(sum) && ShapeOk(body, line, q))
      && (!Harmless(sum) ==> !ShapeOk(body, line, q))
  {
    hide Follows, Written, AllPrintable, Holds, Check, LineEnd;
    HoldsWritten(body, p, data, true, sum);
    var n := |data|;
    if Check(sum) == NL {
      EndFound(body, p, p, p + n, BUFSIZE);
      NoNul(body[p..p + n + 1]);
    } else {
      EndFound(body, p, p, p + n + 1, BUFSIZE);
      var line := body[p..p + n + 2];
      assert line[..n] == body[p..p + n];
      if Check(sum) == 0 { NulAt(line, n); } else { NoNul(line); }
    }
  }

  /** A line of the old format as it is read back. */
  lemma OldLineRead(body: seq<Byte>, p: nat, data: seq<Byte>, sum: int)
    requires Follows(body, p, Written(data, false, sum)) && AllPrintable(data) && 1 <= |data| <= MAXPERLINE
    ensures var q := LineEnd(body, p, p, BUFSIZE); var line := body[p..q];
      line != [] && q == p + |data| + 1 && StrLen(line) == |data| + 1 && line[..|data|] == data && line[|data|] == NL && line[0] != CHAR_X
  {
    hide Follows, Written, AllPrintable, Holds, Check, LineEnd;
    HoldsWritten(body, p, data, false, sum);
    var n := |data|;
    EndFound(body, p, p, p + n, BUFSIZE);
    var line := body[p..p + n + 1];
    assert line[..n] == body[p..p + n];
    NoNul(line);
  }

  // ---------- Whole archives ----------

  lemma {:induction false} NewSums(s: State, chars: seq<Byte>)
    ensures Run(s, chars, true).sums == UpdateAll(s.sums, chars)
  {
    if chars != [] {
      hide Update, BytesOf;
      NewSums(s, chars[..|chars|-1]);
    }
  }

  /** How much of the characters k lines hold. */
  function Upto(chars: seq<Byte>, isNew: bool, k: nat): seq<Byte> { chars[..Min(Start(isNew, k), |chars|)] }

  lemma LineFits(n: nat, isNew: bool, k: nat)
    requires k < Lines(n, isNew)
    ensures Start(isNew, k) < n && Start(isNew, Lines(n, isNew) - 1) <= n
    ensures var m := Min(Start(isNew, k + 1), n) - Start(isNew, k);
      1 <= m <= Start(isNew, 1) && (m < Start(isNew, 1) ==> k + 1 == Lines(n, isNew))
  {
  }

  lemma LineRuns(chars: seq<Byte>, isNew: bool, k: nat)
    requires Start(isNew, k) <= |chars| && AllAllowed(START, chars, isNew)
    ensures var data := LineAt(chars, isNew, k);
      && AllAllowed(Run(START, Upto(chars, isNew, k), isNew), data, isNew)
      && Run(START, Upto(chars, isNew, k + 1), isNew) == Run(Run(START, Upto(chars, isNew, k), isNew), data, isNew)
  {
    hide Run, AllAllowed;
    AllowedSoFar(START, chars, Min(Start(isNew, k + 1), |chars|), isNew);
    RunJoin(START, Upto(chars, isNew, k), LineAt(chars, isNew, k), isNew);
    assert Upto(chars, isNew, k) + LineAt(chars, isNew, k) == Upto(chars, isNew, k + 1);
  }

  /** The next line, before it is read. */
  ghost predicate AtLine(body: seq<Byte>, p: nat, s: State, chars: seq<Byte>, isNew: bool, k: nat) {
    && body == Body(chars, isNew, Lines(|chars|, isNew)) && AllPrintable(chars) && AllAllowed(START, chars, isNew)
    && k <= Lines(|chars|, isNew) && (k > 0 ==> Start(isNew, k - 1) <= |chars|)
    && p == |Body(chars, isNew, k)| && s == Run(START, Upto(chars, isNew, k), isNew)
  }

  lemma LinesBegin(chars: seq<Byte>, isNew: bool)
    requires AllPrintable(chars) && AllAllowed(START, chars, isNew)
    requires Lines(|chars|, isNew) > 0 ==> Start(isNew, Lines(|chars|, isNew) - 1) <= |chars|
    ensures AtLine(Body(chars, isNew, Lines(|chars|, isNew)), 0, START, chars, isNew, 0)
  {
  }

  /** A line that decodes, with the right checksum, and behind which the next line stands. */
  ghost predicate GoodLine(body: seq<Byte>, line: seq<Byte>, q: nat, s: State, chars: seq<Byte>, k: nat) {
    var sum := SumAt(chars, true, k);
    ShapeOk(body, line, q) &&
    var data := line[..StrLen(line) - 2];
    && AllAllowed(s, data, true) && Run(s, data, true).sums.sum == sum
    && Signed(line[StrLen(line) - 2]) == BANG + Remainder85(sum)
    && AtLine(body, q, Run(s, data, true), chars, true, k + 1)
  }

  lemma AtLineParts(body: seq<Byte>, p: nat, s: State, chars: seq<Byte>, isNew: bool, k: nat)
    requires AtLine(body, p, s, chars, isNew, k) && p < |body|
    ensures var n := Lines(|chars|, isNew);
      && k < n && Start(isNew, n - 1) <= |chars| && Start(isNew, k) < |chars| && body == Body(chars, isNew, n)
      && AllPrintable(chars) && AllAllowed(START, chars, isNew)
      && p == |Body(chars, isNew, k)| && s == Run(START, Upto(chars, isNew, k), isNew)
  {
    hide Body, Run, AllAllowed, Upto, Lines, Start;
    if k < Lines(|chars|, isNew) { LineFits(|chars|, isNew, k); }
  }

  lemma AtNextLine(body: seq<Byte>, q: nat, s: State, chars: seq<Byte>, isNew: bool, k: nat)
    requires var n := Lines(|chars|, isNew); k < n && Start(isNew, n - 1) <= |chars| && body == Body(chars, isNew, n)
    requires AllPrintable(chars) && AllAllowed(START, chars, isNew) && Start(isNew, k) <= |chars|
    requires q == |Body(chars, isNew, k + 1)| && s == Run(START, Upto(chars, isNew, k + 1), isNew)
    ensures AtLine(body, q, s, chars, isNew, k + 1)
  {
    hide Body, Run, AllAllowed, Upto, Lines, Start, AllPrintable;
  }

  /** What the next line of a new archive turns out to be. */
  lemma NewLineIs(body: seq<Byte>, p: nat, s: State, chars: seq<Byte>, k: nat)
    requires AtLine(body, p, s, chars, true, k) && p < |body|
    ensures k < Lines(|chars|, true) && Start(true, k) < |chars|
    ensures var q := LineEnd(body, p, p, BUFSIZE); var line, sum := body[p..q], SumAt(chars, true, k);
      && line != []
      && (!Harmless(sum) ==> !ShapeOk(body, line, q))
      && (Harmless(sum) ==> GoodLine(body, line, q, s, chars, k))
  {
    hide *;
    AtLineParts(body, p, s, chars, true, k);
    var data, sum := LineAt(chars, true, k), SumAt(chars, true, k);
    var q := LineEnd(body, p, p, BUFSIZE);
    LineOnDisk(body, p, chars, k);
    if Harmless(sum) {
      LineRuns(chars, true, k);
      LineIsGood(body, body[p..q], q, s, chars, k);
    }
  }

  lemma LineOnDisk(body: seq<Byte>, p: nat, chars: seq<Byte>, k: nat)
    requires var n := Lines(|chars|, true);
      k < n && Start(true, n - 1) <= |chars| && Start(true, k) < |chars| && body == Body(chars, true, n) && AllPrintable(chars) && p == |Body(chars, true, k)| && p <= |body|
    ensures var q := LineEnd(body, p, p, BUFSIZE); var line, data, sum := body[p..q], LineAt(chars, true, k), SumAt(chars, true, k);
      && line != []
      && (Harmless(sum) ==> q == |Body(chars, true, k + 1)| && StrLen(line) == |data| + 2 && line[..|data|] == data && line[|data|] == Check(sum) && ShapeOk(body, line, q))
      && (!Harmless(sum) ==> !ShapeOk(body, line, q))
  {
    hide Body, Written, Check, LineEnd, ShapeOk, Lines, StrLen, Follows, LineAt, SumAt, Printable, Harmless;
    LineFits(|chars|, true, k);
    LineFacts(chars, true, k);
    BodyFollows(chars, true, k, Lines(|chars|, true));
    var data, sum := LineAt(chars, true, k), SumAt(chars, true, k);
    WrittenLength(data, true, sum);
    NewLineRead(body, p, data, sum);
  }

  lemma LineIsGood(body: seq<Byte>, line: seq<Byte>, q: nat, s: State, chars: seq<Byte>, k: nat)
    requires var n := Lines(|chars|, true);
      k < n && Start(true, n - 1) <= |chars| && Start(true, k) <= |chars| && body == Body(chars, true, n) && AllPrintable(chars) && AllAllowed(START, chars, true)
    requires ShapeOk(body, line, q) && q == |Body(chars, true, k + 1)| && StrLen(line) == |LineAt(chars, true, k)| + 2
    requires line[..|LineAt(chars, true, k)|] == LineAt(chars, true, k) && line[|LineAt(chars, true, k)|] == Check(SumAt(chars, true, k))
    requires AllAllowed(s, LineAt(chars, true, k), true) && Run(START, Upto(chars, true, k + 1), true) == Run(s, LineAt(chars, true, k), true)
    ensures GoodLine(body, line, q, s, chars, k)
  {
    hide Body, Run, AllAllowed, Upto, Lines, Start, AllPrintable, ShapeOk, StrLen, LineAt, SumAt, Check, Signed, Remainder85, AtLine;
    AtNextLine(body, q, Run(s, LineAt(chars, true, k), true), chars, true, k);
    SumIs(chars, k);
    NewSums(START, Upto(chars, true, k + 1));
    CheckIsRead(SumAt(chars, true, k));
  }

  lemma WrittenLength(data: seq<Byte>, isNew: bool, sum: int)
    ensures |Written(data, isNew, sum)| == |data| + if isNew then 2 else 1
  {
  }

  lemma SumIs(chars: seq<Byte>, k: nat)
    ensures SumAt(chars, true, k) == UpdateAll(NO_SUMS, Upto(chars, true, k + 1)).sum
  {
  }

  lemma LineFacts(chars: seq<Byte>, isNew: bool, k: nat)
    requires AllPrintable(chars) && Start(isNew, k) <= |chars|
    ensures AllPrintable(LineAt(chars, isNew, k)) && |LineAt(chars, isNew, k)| == Min(Start(isNew, k + 1), |chars|) - Start(isNew, k)
  {
  }

  lemma OldLineIs(body: seq<Byte>, p: nat, s: State, chars: seq<Byte>, k: nat)
    requires AtLine(body, p, s, chars, false, k) && p < |body|
    ensures k < Lines(|chars|, false)
    ensures var q := LineEnd(body, p, p, BUFSIZE); var line := body[p..q];
      && line != [] && line[0] != CHAR_X && StrLen(line) >= 1 && line[StrLen(line) - 1] == NL
      && var data := line[..StrLen(line) - 1];
        AllAllowed(s, data, false) && AtLine(body, q, Run(s, data, false), chars, false, k + 1)
  {
    hide *;
    AtLineParts(body, p, s, chars, false, k);
    OldLineOnDisk(body, p, chars, k);
    LineRuns(chars, false, k);
    AtNextLine(body, LineEnd(body, p, p, BUFSIZE), Run(s, LineAt(chars, false, k), false), chars, false, k);
  }

  lemma OldLineOnDisk(body: seq<Byte>, p: nat, chars: seq<Byte>, k: nat)
    requires var n := Lines(|chars|, false);
      k < n && Start(false, n - 1) <= |chars| && Start(false, k) < |chars| && body == Body(chars, false, n) && AllPrintable(chars) && p == |Body(chars, false, k)| && p <= |body|
    ensures var q := LineEnd(body, p, p, BUFSIZE); var line, data := body[p..q], LineAt(chars, false, k);
      && line != [] && line[0] != CHAR_X && StrLen(line) == |data| + 1 && line[|data|] == NL && line[..|data|] == data
      && q == |Body(chars, false, k + 1)|
  {
    hide Body, Written, LineEnd, Lines, StrLen, Follows, LineAt, SumAt, Printable;
    LineFits(|chars|, false, k);
    LineFacts(chars, false, k);
    BodyFollows(chars, false, k, Lines(|chars|, false));
    var data, sum := LineAt(chars, false, k), SumAt(chars, false, k);
    WrittenLength(data, false, sum);
    OldLineRead(body, p, data, sum);
  }

  /** No line of the archive ends in a checksum character that breaks it. */
  ghost predicate AllHarmless(chars: seq<Byte>, k: nat) {
    forall i :: 0 <= i < k ==> Harmless(SumAt(chars, true, i))
  }

  /** new_decodefile(), as far as the first line with something wrong. */
  method NewDecode(d: Decoder, body: seq<Byte>) returns (ok: bool)
    requires d.isNew && d.bytecount <= 5
    modifies d
    ensures d.bytecount <= 5
    ensures old(BodyState(d.Now(), body, 0, true)) == if ok then Some(d.Now()) else None
  {
    hide Run, NewLineFine;
    var p := 0;
    while p < |body|
      invariant p <= |body| && d.bytecount <= 5
      invariant old(BodyState(d.Now(), body, 0, true)) == BodyState(d.Now(), body, p, true)
      decreases |body| - p
    {
      var line, q := ReadBuffer(body, p);
      ok := NewLine(d, body, line, q);
      if !ok { return; }
      p := q;
    }
    ok := true;
  }

  lemma AtEnd(body: seq<Byte>, p: nat, s: State, chars: seq<Byte>, isNew: bool, k: nat)
    requires AtLine(body, p, s, chars, isNew, k) && p == |body|
    ensures k == Lines(|chars|, isNew) && s == Run(START, chars, isNew)
  {
    hide Run, AllAllowed, Written, LineAt, SumAt;
    if k < Lines(|chars|, isNew) {
      LineFits(|chars|, isNew, k);
      BodyFollows(chars, isNew, k, Lines(|chars|, isNew));
      WrittenLength(LineAt(chars, isNew, k), isNew, SumAt(chars, isNew, k));
    } else {
      AllTaken(chars, isNew);
    }
  }

  lemma AllTaken(chars: seq<Byte>, isNew: bool)
    ensures Upto(chars, isNew, Lines(|chars|, isNew)) == chars
  {
    assert Start(isNew, Lines(|chars|, isNew)) >= |chars|;
  }

  /** old_decodefile() */
  method OldDecode(d: Decoder, body: seq<Byte>) returns (ok: bool)
    requires !d.isNew && d.bytecount <= 5
    modifies d
    ensures d.bytecount <= 5
    ensures old(BodyState(d.Now(), body, 0, false)) == if ok then Some(d.Now()) else None
  {
    hide Run, OldLineFine;
    var p := 0;
    while p < |body|
      invariant p <= |body| && d.bytecount <= 5
      invariant old(BodyState(d.Now(), body, 0, false)) == BodyState(d.Now(), body, p, false)
      decreases |body| - p
    {
      var line, q := ReadBuffer(body, p);
      ok := OldLine(d, line);
      if !ok { return; }
      p := q;
    }
    ok := true;
  }

  /** What btoa has written is read line by line as far as the first check character that is not harmless. */
  lemma {:induction false} LinesDecode(body: seq<Byte>, p: nat, s: State, chars: seq<Byte>, isNew: bool, k: nat)
    requires p <= |body| && AtLine(body, p, s, chars, isNew, k)
    ensures BodyState(s, body, p, isNew) ==
      if isNew ==> HarmlessFrom(chars, k) then Some(Run(START, chars, isNew)) else None
    decreases |body| - p
  {
    hide Run, AtLine, AllAllowed, Body, SumAt, Harmless, Lines;
    if p == |body| {
      AtEnd(body, p, s, chars, isNew, k);
    } else {
      OneLineDecodes(body, p, s, chars, isNew, k);
      if LineFine(s, body, p, isNew) {
        LinesDecode(body, LineAfter(body, p), Run(s, DataOf(body[p..LineAfter(body, p)], isNew), isNew), chars, isNew, k + 1);
      }
    }
  }

  ghost predicate HarmlessFrom(chars: seq<Byte>, k: nat) { forall i :: k <= i < Lines(|chars|, true) ==> Harmless(SumAt(chars, true, i)) }

  lemma OneLineDecodes(body: seq<Byte>, p: nat, s: State, chars: seq<Byte>, isNew: bool, k: nat)
    requires p < |body| && AtLine(body, p, s, chars, isNew, k)
    ensures k < Lines(|chars|, isNew)
    ensures LineFine(s, body, p, isNew) <==> (isNew ==> Harmless(SumAt(chars, true, k)))
    ensures LineFine(s, body, p, isNew) ==> var q := LineAfter(body, p); AtLine(body, q, Run(s, DataOf(body[p..q], isNew), isNew), chars, isNew, k + 1)
  {
    hide Run, AtLine, AllAllowed, Body, SumAt, Harmless, Lines, Acceptable, StrLen, Signed, Remainder85, LineEnd;
    if isNew {
      NewLineIs(body, p, s, chars, k);
      if Harmless(SumAt(chars, true, k)) { AllowedIsAcceptable(s, DataOf(body[p..LineAfter(body, p)], true), true); }
    } else {
      OldLineIs(body, p, s, chars, k);
      AllowedIsAcceptable(s, DataOf(body[p..LineAfter(body, p)], false), false);
    }
  }

  /** The bytes of the word that still waits, as far as they belong to the file. */
  function Cut(s: State, size: nat): seq<Byte> {
    if s.bytecount > 0 && |s.chs| == 4 then s.out + s.chs[..(size + 3) % 4 + 1] else s.out
  }

  /** decode_line(NULL, ...) */
  method FlushLast(d: Decoder, size: nat) returns (out: seq<Byte>)
    ensures out == Cut(d.Now(), size)
  {
    out := d.out;
    if d.bytecount > 0 {
      var length := (size + 3) % 4;
      out := out + [d.ch1];
      if length > 0 { out := out + [d.ch2]; }
      if length > 1 { out := out + [d.ch3]; }
      if length > 2 { out := out + [d.ch4]; }
    }
  }

  /** No line of the file's new archive ends in a checksum character that breaks it. */
  ghost predicate Readable(input: seq<Byte>) {
    var chars := Chars(input, Groups(|input|), true);
    AllHarmless(chars, Lines(|chars|, true))
  }

  /** Nothing is wrong with the lines, and the three sums in the last line are those of what has been decoded: of the
      characters in the new format, of the bytes in the old one. */
  predicate Sound(a: Archive) {
    var s := BodyState(START, a.body, 0, a.isNew);
    s.Some? && a.sums == UpdateAll(NO_SUMS, if a.isNew then DataFrom(a.body, 0, true) else AllBytes(s.value))
  }

  /** What comes out of a sound archive. */
  function Contents(a: Archive): seq<Byte>
    requires Sound(a)
  {
    Cut(Run(START, DataFrom(a.body, 0, a.isNew), a.isNew), a.size)
  }

  lemma SumsOfState(a: Archive)
    requires BodyState(START, a.body, 0, a.isNew).Some?
    ensures var s := BodyState(START, a.body, 0, a.isNew).value;
      && s.sums == UpdateAll(NO_SUMS, if a.isNew then DataFrom(a.body, 0, true) else AllBytes(s))
      && s == Run(START, DataFrom(a.body, 0, a.isNew), a.isNew)
  {
    hide Run, DataFrom, BodyState, UpdateAll;
    BodyRuns(START, a.body, 0, a.isNew);
    if a.isNew { NewSums(START, DataFrom(a.body, 0, true)); } else { OldSums(DataFrom(a.body, 0, false)); }
  }

  /** atob(), behind the header, for any archive: None when an error is reported. */
  method Decode(a: Archive) returns (r: Option<seq<Byte>>)
    ensures r == if Sound(a) then Some(Contents(a)) else None
  {
    hide Run, Cut, BodyState, DataFrom, UpdateAll;
    var d := new Decoder(a.isNew);
    var ok;
    if a.isNew { ok := NewDecode(d, a.body); } else { ok := OldDecode(d, a.body); }
    if ok { SumsOfState(a); }
    if !ok || d.sums != a.sums { return None; }
    var out := FlushLast(d, a.size);
    r := Some(out);
  }

  /** What btoa made of a file is sound, except that in the new format the checksum characters of its lines must not be
      line ends or NULs. */
  lemma EncodedIsSound(input: seq<Byte>, isNew: bool)
    ensures var a := Encoded(input, isNew);
      && (Sound(a) <==> (isNew ==> Readable(input)))
      && (Sound(a) ==> Contents(a) == input)
  {
    hide Run, AtLine, Body, Cut, Encoded, BodyState, DataFrom, UpdateAll, Harmless, Lines, Chars;
    var a := Encoded(input, isNew);
    EncodedFormat(input, isNew);
    ArchiveBegins(a, input);
    LinesDecode(a.body, 0, START, Chars(input, Groups(|input|), isNew), isNew, 0);
    if isNew ==> Readable(input) {
      SumsOfState(a);
      AllDecoded(a, input, Run(START, Chars(input, Groups(|input|), isNew), isNew));
    }
  }

  lemma ArchiveBegins(a: Archive, input: seq<Byte>)
    requires a == Encoded(input, a.isNew)
    ensures AtLine(a.body, 0, START, Chars(input, Groups(|input|), a.isNew), a.isNew, 0)
  {
    hide *;
    var chars := Chars(input, Groups(|input|), a.isNew);
    CharsPrintable(input, Groups(|input|), a.isNew);
    GroupsDecode(input, Groups(|input|), a.isNew);
    LastStart(|chars|, a.isNew);
    LinesBegin(chars, a.isNew);
    EncodedParts(input, a.isNew);
  }

  lemma LastStart(n: nat, isNew: bool)
    ensures Lines(n, isNew) > 0 ==> Start(isNew, Lines(n, isNew) - 1) <= n
  {
  }

  lemma EncodedParts(input: seq<Byte>, isNew: bool)
    ensures var a, chars := Encoded(input, isNew), Chars(input, Groups(|input|), isNew);
      && (Lines(|chars|, isNew) > 0 ==> Start(isNew, Lines(|chars|, isNew) - 1) <= |chars|)
      && a.body == Body(chars, isNew, Lines(|chars|, isNew))
      && a.isNew == isNew && a.size == |input| && a.sums == SumsUpTo(input, Groups(|input|), isNew)
  {
    hide Chars, Run, AllAllowed, Body, SumsUpTo, Lines, Start;
    LastStart(|Chars(input, Groups(|input|), isNew)|, isNew);
  }

  lemma AllDecoded(a: Archive, input: seq<Byte>, s: State)
    requires a == Encoded(input, a.isNew) && s == Run(START, Chars(input, Groups(|input|), a.isNew), a.isNew)
    ensures s.sums == a.sums && Cut(s, a.size) == input
  {
    hide *;
    EncodedParts(input, a.isNew);
    GroupsDecode(input, Groups(|input|), a.isNew);
    CutRight(input, s, a.isNew);
  }

  lemma CutRight(input: seq<Byte>, s: State, isNew: bool)
    requires AfterGroups(s, input, Groups(|input|), isNew)
    ensures s.sums == SumsUpTo(input, Groups(|input|), isNew) && Cut(s, |input|) == input
  {
    hide GroupBytes, Group, SumsUpTo, Chars, Cut;
    if |input| == 0 {
      NoGroups(input, isNew);
      CutNothing(input);
    } else {
      var k, length := LastGroup(|input|);
      CutLast(input, s, k, length);
    }
  }

  lemma CutNothing(input: seq<Byte>)
    requires |input| == 0
    ensures Cut(START, 0) == input
  {
  }

  lemma CutLast(input: seq<Byte>, s: State, k: nat, length: nat)
    requires |input| == 4 * k + length && 1 <= length <= 4 && (|input| + 3) % 4 + 1 == length
    requires s.bytecount == 5 && s.out == GroupBytes(input, k) && s.chs == Group(input, k)
    ensures Cut(s, |input|) == input
  {
    hide *;
    GroupBytesAre(input, k);
    LastBytes(input, k, length);
    CutIs(input, s, k, length);
  }

  lemma LastGroup(n: nat) returns (k: nat, length: nat)
    requires n > 0
    ensures Groups(n) - 1 == k && n == 4 * k + length && 1 <= length <= 4 && (n + 3) % 4 + 1 == length
  {
    k := Groups(n) - 1;
    length := n - 4 * k;
  }

  lemma CutIs(input: seq<Byte>, s: State, k: nat, length: nat)
    requires |input| == 4 * k + length && 1 <= length <= 4 && (|input| + 3) % 4 + 1 == length
    requires s.bytecount == 5 && |s.chs| == 4 && s.out == input[..4 * k] && s.chs[..length] == input[4 * k..]
    ensures Cut(s, |input|) == input
  {
    assert input == input[..4 * k] + input[4 * k..];
  }

  lemma LastBytes(input: seq<Byte>, k: nat, length: nat)
    requires 4 * k + length == |input| && length <= 4
    ensures Group(input, k)[..length] == input[4 * k..]
  {
  }

  /** btoa and atob, one after the other. */
  method EncodeThenDecode(input: seq<Byte>, isNew: bool) returns (r: Option<seq<Byte>>)
    ensures isNew ==> (r == Some(input) <==> Readable(input))
    ensures !isNew ==> r == Some(input)
  {
    hide Encoded, Readable, Sound, Contents;
    var e := new Encoder(isNew);
    var a := e.Encode(input);
    EncodedIsSound(input, isNew);
    r := Decode(a);
  }

  lemma EncodedFormat(input: seq<Byte>, isNew: bool)
    ensures Encoded(input, isNew).isNew == isNew
  {
  }
}
