/** What the sums in the last line of an archive find in the old format, where lines have no checksums. */
module BtoaDamage {
  import opened BitOps
  import opened Gf2
  import opened BtoaWords
  import opened BtoaText
  import opened Atob
  import opened BtoaRound
  import opened BtoaCheck
  import opened Options
  import opened Stdio

  // ---------- The same lines ----------

  /** The same characters but for digits. */
  ghost predicate Alike(a: seq<Byte>, b: seq<Byte>) {
    |a| == |b| && forall i :: 0 <= i < |a| ==> a[i] == b[i] || (IsDigit(a[i]) && IsDigit(b[i]))
  }

  lemma {:induction false} SameEnd(a: seq<Byte>, b: seq<Byte>, p: nat, from: nat, size: nat)
    requires Alike(a, b) && from <= p <= |a|
    ensures LineEnd(a, p, from, size) == LineEnd(b, p, from, size)
    decreases |a| - p
  {
    if p < |a| { SameEnd(a, b, p + 1, from, size); }
  }

  lemma {:induction false} SameStrLen(a: seq<Byte>, b: seq<Byte>)
    requires Alike(a, b)
    ensures StrLen(a) == StrLen(b)
  {
    if a != [] {
      AlikePart(a, b, 1, |a|);
      SameStrLen(a[1..], b[1..]);
    }
  }

  lemma AlikePart(a: seq<Byte>, b: seq<Byte>, i: nat, j: nat)
    requires Alike(a, b) && i <= j <= |a|
    ensures Alike(a[i..j], b[i..j])
  {
  }

  lemma SameLine(a: seq<Byte>, b: seq<Byte>, p: nat)
    requires Alike(a, b) && p < |a|
    ensures LineAfter(a, p) == LineAfter(b, p)
    ensures var q := LineAfter(a, p); Alike(a[p..q], b[p..q]) && StrLen(a[p..q]) == StrLen(b[p..q]) && Alike(DataOf(a[p..q], false), DataOf(b[p..q], false))
  {
    SameEnd(a, b, p, p, BUFSIZE);
    var q := LineAfter(a, p);
    AlikePart(a, b, p, q);
    SameStrLen(a[p..q], b[p..q]);
    hide StrLen;
    if StrLen(a[p..q]) >= 1 { AlikePart(a[p..q], b[p..q], 0, StrLen(a[p..q]) - 1); }
  }

  /** Whether characters are right depends on how many digits there are, not on which. */
  lemma {:induction false} SameCounts(s: State, t: State, a: seq<Byte>, b: seq<Byte>)
    requires Alike(a, b) && s.bytecount == t.bytecount
    ensures Run(s, a, false).bytecount == Run(t, b, false).bytecount
    decreases |a|
  {
    if a != [] {
      hide Update4, BytesOf, Wrap;
      AlikePart(a, b, 0, |a| - 1);
      SameCounts(s, t, a[..|a|-1], b[..|a|-1]);
    }
  }

  lemma SameAcceptable(s: State, t: State, a: seq<Byte>, b: seq<Byte>)
    requires Alike(a, b) && s.bytecount == t.bytecount
    ensures Acceptable(s, a, false) <==> Acceptable(t, b, false)
  {
    hide Run;
    forall i | 0 <= i < |a| ensures CharOk(s, a, i, false) <==> CharOk(t, b, i, false) {
      AlikePart(a, b, 0, i);
      SameCounts(s, t, a[..i], b[..i]);
    }
  }

  lemma {:induction false} SameLines(s: State, t: State, a: seq<Byte>, b: seq<Byte>, p: nat)
    requires Alike(a, b) && p <= |a| && s.bytecount == t.bytecount
    ensures BodyState(s, a, p, false).Some? <==> BodyState(t, b, p, false).Some?
    decreases |a| - p
  {
    if p < |a| {
      hide Run, Acceptable, StrLen, Alike;
      SameLine(a, b, p);
      var q := LineAfter(a, p);
      var d, e := DataOf(a[p..q], false), DataOf(b[p..q], false);
      SameAcceptable(s, t, d, e);
      SameFine(s, t, a, b, p);
      SameCounts(s, t, d, e);
      AlikeLength(a, b);
      SameLines(Run(s, d, false), Run(t, e, false), a, b, q);
    }
  }

  lemma AlikeLength(a: seq<Byte>, b: seq<Byte>)
    requires Alike(a, b)
    ensures |a| == |b|
  {
  }

  lemma SameFine(s: State, t: State, a: seq<Byte>, b: seq<Byte>, p: nat)
    requires Alike(a, b) && p < |a| && LineAfter(a, p) == LineAfter(b, p)
    requires var q := LineAfter(a, p); StrLen(a[p..q]) == StrLen(b[p..q]) && (Acceptable(s, DataOf(a[p..q], false), false) <==> Acceptable(t, DataOf(b[p..q], false), false))
    ensures LineFine(s, a, p, false) <==> LineFine(t, b, p, false)
  {
    hide Acceptable, StrLen;
  }

  // ---------- One digit among the characters ----------

  /** A line end is the last character of a line. */
  lemma {:induction false} EndIsLast(file: seq<Byte>, p: nat, from: nat, size: nat, i: nat)
    requires from <= p <= |file| && p <= i < LineEnd(file, p, from, size) - 1
    ensures file[i] != NL
    decreases |file| - p
  {
    if p < i { EndIsLast(file, p + 1, from, size, i); }
  }

  lemma DataIsAllBefore(s: State, body: seq<Byte>, p: nat)
    requires p < |body| && LineFine(s, body, p, false)
    ensures var q := LineAfter(body, p); DataOf(body[p..q], false) == body[p..q - 1] && body[q - 1] == NL
  {
    hide Acceptable, LineEnd;
    var q := LineAfter(body, p);
    var n := StrLen(body[p..q]);
    if n < q - p { EndIsLast(body, p, p, BUFSIZE, p + n - 1); }
    assert n == q - p;
    assert body[p..q][..n - 1] == body[p..q - 1];
  }

  lemma ReplacedHere(d: seq<Byte>, e: seq<Byte>, rest: seq<Byte>, k: nat)
    requires OneDigitReplaced(d, e, k)
    ensures OneDigitReplaced(d + rest, e + rest, k)
  {
  }

  lemma ReplacedBehind(before: seq<Byte>, d: seq<Byte>, e: seq<Byte>, k: nat)
    requires OneDigitReplaced(d, e, k)
    ensures OneDigitReplaced(before + d, before + e, |before| + k)
  {
    var a, b := before + d, before + e;
    forall j | 0 <= j < |a| && j != |before| + k ensures a[j] == b[j] {
      if j >= |before| { assert a[j] == d[j - |before|] && b[j] == e[j - |before|]; }
    }
  }

  /** The characters of the line at p, without the line end, and then those of the other lines. */
  lemma FirstLine(s: State, body: seq<Byte>, i: nat, c: Byte, p: nat)
    requires p < |body| && i < |body| && IsDigit(body[i]) && IsDigit(c) && BodyState(s, body, p, false).Some?
    ensures var b, q := body[i := c], LineAfter(body, p);
      && body[q - 1] == NL && LineAfter(b, p) == q
      && DataFrom(body, p, false) == body[p..q - 1] + DataFrom(body, q, false) && DataFrom(b, p, false) == b[p..q - 1] + DataFrom(b, q, false)
      && BodyState(Run(s, body[p..q - 1], false), body, q, false).Some?
  {
    hide Run, LineEnd, StrLen, LineFine;
    var b := body[i := c];
    SameLine(body, b, p);
    DataIsAllBefore(s, body, p);
    DataIsAllBeforeToo(body, b, p, LineAfter(body, p));
  }

  /** The digit's place among the characters of all lines. */
  lemma {:induction false} DigitInData(s: State, body: seq<Byte>, p: nat, i: nat, c: Byte) returns (k: nat)
    requires p <= i < |body| && IsDigit(body[i]) && IsDigit(c) && body[i] != c && BodyState(s, body, p, false).Some?
    ensures OneDigitReplaced(DataFrom(body, p, false), DataFrom(body[i := c], p, false), k)
    decreases |body| - p
  {
    hide Run, BodyState, DataFrom, LineAfter, OneDigitReplaced;
    var b, q := body[i := c], LineAfter(body, p);
    FirstLine(s, body, i, c, p);
    if i < q {
      k := i - p;
      DataBehind(body, b, q, i);
      DigitOfLine(body, p, q, i, c);
      ReplacedHere(body[p..q - 1], b[p..q - 1], DataFrom(body, q, false), k);
    } else {
      k := DigitInData(Run(s, body[p..q - 1], false), body, q, i, c);
      assert b[p..q - 1] == body[p..q - 1];
      ReplacedBehind(body[p..q - 1], DataFrom(body, q, false), DataFrom(b, q, false), k);
      k := |body[p..q - 1]| + k;
    }
  }

  lemma DigitOfLine(body: seq<Byte>, p: nat, q: nat, i: nat, c: Byte)
    requires p <= i < q <= |body| && IsDigit(body[i]) && IsDigit(c) && body[i] != c && body[q - 1] == NL
    ensures OneDigitReplaced(body[p..q - 1], body[i := c][p..q - 1], i - p)
  {
  }

  lemma DataIsAllBeforeToo(a: seq<Byte>, b: seq<Byte>, p: nat, q: nat)
    requires p < q <= |a| == |b| && StrLen(a[p..q]) == StrLen(b[p..q]) && DataOf(a[p..q], false) == a[p..q - 1]
    ensures DataOf(b[p..q], false) == b[p..q - 1]
  {
    hide StrLen;
    assert |DataOf(a[p..q], false)| == q - 1 - p;
    assert |DataOf(b[p..q], false)| == |DataOf(a[p..q], false)|;
    assert b[p..q][..q - 1 - p] == b[p..q - 1];
  }

  lemma {:induction false} DataBehind(a: seq<Byte>, b: seq<Byte>, p: nat, i: nat)
    requires |a| == |b| && i < p <= |a| && forall j :: i < j < |a| ==> a[j] == b[j]
    ensures DataFrom(a, p, false) == DataFrom(b, p, false)
    decreases |a| - p
  {
    if p < |a| {
      hide LineEnd, StrLen;
      SameEndBehind(a, b, p, p, BUFSIZE);
      var q := LineAfter(a, p);
      assert a[p..q] == b[p..q];
      DataBehind(a, b, q, i);
    }
  }

  lemma {:induction false} SameEndBehind(a: seq<Byte>, b: seq<Byte>, p: nat, from: nat, size: nat)
    requires |a| == |b| && from <= p <= |a| && forall j :: p <= j < |a| ==> a[j] == b[j]
    ensures LineEnd(a, p, from, size) == LineEnd(b, p, from, size)
    decreases |a| - p
  {
    if p < |a| { SameEndBehind(a, b, p + 1, from, size); }
  }

  // ---------- What follows a word does not put its sums right ----------

  predicate SumsOk(s: Sums) { -TWO31 <= s.sum < TWO31 && s.rot < TWO32 }

  lemma UpdateKeepsApart(s: Sums, t: Sums, c: Byte)
    requires SumsOk(s) && SumsOk(t)
    ensures SumsOk(Update(s, c)) && SumsOk(Update(t, c))
    ensures Update(s, c) == Update(t, c) <==> s == t
  {
    XorApart(s.eor, t.eor, c);
    SumApart(s.sum, t.sum, c as int + 1);
    RotApart(s.rot, t.rot, c);
    hide Xor, Wrap;
  }

  lemma XorApart(x: nat, y: nat, c: nat)
    ensures Xor(x, c) == Xor(y, c) <==> x == y
  {
    hide Xor;
    XorSwap(x, c);
    XorSwap(y, c);
    XorBack(c, x);
    XorBack(c, y);
  }

  lemma SumApart(x: int, y: int, c: int)
    requires -TWO31 <= x < TWO31 && -TWO31 <= y < TWO31
    ensures Wrap(x + c) == Wrap(y + c) <==> x == y
  {
    WrapTwice(x + c, -c);
    WrapTwice(y + c, -c);
  }

  function Rotated(rot: nat): nat { (2 * rot + if rot >= TWO31 then 1 else 0) % TWO32 }

  lemma RotIs(rot: nat, c: Byte)
    requires rot < TWO32
    ensures (2 * rot + (if rot >= TWO31 then 1 else 0) + c) % TWO32 == (Rotated(rot) + c) % TWO32
  {
  }

  lemma RotApart(x: nat, y: nat, c: Byte)
    requires x < TWO32 && y < TWO32
    ensures (2 * x + (if x >= TWO31 then 1 else 0) + c) % TWO32 == (2 * y + (if y >= TWO31 then 1 else 0) + c) % TWO32 <==> x == y
  {
    RotIs(x, c);
    RotIs(y, c);
    RotatedApart(x, y);
    AddedApart(Rotated(x), Rotated(y), c);
  }

  lemma RotatedApart(x: nat, y: nat)
    requires x < TWO32 && y < TWO32
    ensures Rotated(x) == Rotated(y) <==> x == y
  {
  }

  lemma AddedApart(x: nat, y: nat, c: Byte)
    requires x < TWO32 && y < TWO32
    ensures (x + c) % TWO32 == (y + c) % TWO32 <==> x == y
  {
  }

  lemma Update4KeepsApart(s: Sums, t: Sums, b: seq<Byte>)
    requires SumsOk(s) && SumsOk(t) && |b| == 4
    ensures SumsOk(Update4(s, b)) && SumsOk(Update4(t, b))
    ensures Update4(s, b) == Update4(t, b) <==> s == t
  {
    hide Update, SumsOk;
    UpdateKeepsApart(s, t, b[0]);
    var s1, t1 := Update(s, b[0]), Update(t, b[0]);
    UpdateKeepsApart(s1, t1, b[1]);
    var s2, t2 := Update(s1, b[1]), Update(t1, b[1]);
    UpdateKeepsApart(s2, t2, b[2]);
    UpdateKeepsApart(Update(s2, b[2]), Update(t2, b[2]), b[3]);
  }

  /** States from which the same characters make the same words. */
  ghost predicate Parallel(s: State, t: State) {
    && s.bytecount == t.bytecount <= 5 && (1 <= s.bytecount <= 4 ==> s.codeword == t.codeword)
    && SumsOk(s.sums) && SumsOk(t.sums)
  }

  lemma ParallelStep(s: State, t: State, c: Byte)
    requires Parallel(s, t)
    ensures Parallel(Step(s, c, false), Step(t, c, false))
    ensures Step(s, c, false).sums == Step(t, c, false).sums <==> s.sums == t.sums
  {
    hide Update4, Wrap, SumsOk;
    var s', t' := Step(s, c, false), Step(t, c, false);
    if s'.bytecount == 5 { Update4KeepsApart(s.sums, t.sums, s'.chs); }
  }

  lemma {:induction false} ParallelRun(s: State, t: State, chars: seq<Byte>)
    requires Parallel(s, t)
    ensures Parallel(Run(s, chars, false), Run(t, chars, false))
    ensures Run(s, chars, false).sums == Run(t, chars, false).sums <==> s.sums == t.sums
  {
    if chars != [] {
      hide Step, Parallel;
      ParallelRun(s, t, chars[..|chars|-1]);
      ParallelStep(Run(s, chars[..|chars|-1], false), Run(t, chars[..|chars|-1], false), chars[|chars|-1]);
    }
  }

  lemma {:induction false} SumsStayOk(chars: seq<Byte>)
    ensures SumsOk(Run(START, chars, false).sums) && Run(START, chars, false).bytecount <= 5
  {
    ParallelRun(START, START, chars);
  }

  // ---------- The word a digit is in ----------

  /** The state before the character at i. */
  function Before(data: seq<Byte>, i: nat): State
    requires i <= |data|
  {
    Run(START, data[..i], false)
  }

  /** How many digits of the word stand before the one at k. */
  function DigitsBefore(data: seq<Byte>, k: nat): nat
    requires k <= |data|
  {
    Emit(Before(data, k)).bytecount
  }

  lemma BeforeNext(data: seq<Byte>, i: nat)
    requires i < |data|
    ensures Before(data, i + 1) == Step(Before(data, i), data[i], false)
  {
    hide Step;
    OneStep(START, data, i, false);
  }

  lemma {:induction false} WordBegins(data: seq<Byte>, k: nat)
    requires k <= |data|
    ensures var c := DigitsBefore(data, k); c <= 4 && c <= k && DigitsBefore(data, k - c) == 0 && (c > 0 ==> IsDigit(data[k - c]))
  {
    hide Run, Step, SumsOk;
    SumsStayOk(data[..k]);
    if DigitsBefore(data, k) > 0 {
      NotAtStart(data, k);
      SumsStayOk(data[..k - 1]);
      OneDigitBack(data, k);
      WordBegins(data, k - 1);
    }
  }

  lemma NotAtStart(data: seq<Byte>, k: nat)
    requires k <= |data| && DigitsBefore(data, k) > 0
    ensures k > 0
  {
    hide Step;
    if k == 0 { RunNothing(START, false); }
  }

  lemma OneDigitBack(data: seq<Byte>, k: nat)
    requires 0 < k <= |data| && DigitsBefore(data, k) > 0 && Before(data, k - 1).bytecount <= 5
    ensures DigitsBefore(data, k) == DigitsBefore(data, k - 1) + 1 && (DigitsBefore(data, k - 1) == 0 ==> IsDigit(data[k - 1]))
  {
    hide Before, BytesOf, Wrap, Update4;
    BeforeNext(data, k - 1);
  }

  /** What the decoder makes of the characters of a word. */
  function WordValue(u: seq<Byte>): int {
    if u == [] then 0 else Wrap(WordValue(u[..|u|-1]) * 85 + (u[|u|-1] - BANG))
  }

  /** The word from m on. */
  ghost predicate WordAt(data: seq<Byte>, m: nat) { m < |data| && DigitsBefore(data, m) == 0 && IsDigit(data[m]) }

  /** The beginning of a word. */
  lemma {:induction false} InsideWord(data: seq<Byte>, m: nat, j: nat)
    requires WordAt(data, m) && 1 <= j <= 4 && m + j <= |data|
    ensures var s, t := Before(data, m), Before(data, m + j);
      t.bytecount == j && t.sums == s.sums && t.chs == s.chs && t.out == Emit(s).out && t.codeword == WordValue(data[m..m + j])
  {
    hide Run, BytesOf, Update4;
    BeforeNext(data, m + j - 1);
    assert data[m..m + j][..j - 1] == data[m..m + j - 1];
    if j > 1 {
      InsideWord(data, m, j - 1);
    } else {
      assert data[m..m] == [];
    }
  }

  lemma WordEnds(data: seq<Byte>, m: nat)
    requires WordAt(data, m) && m + 5 <= |data|
    ensures var t := Before(data, m + 5);
      t.bytecount == 5 && t.chs == BytesOf(WordValue(data[m..m + 5])) && t.sums == Update4(Before(data, m).sums, t.chs)
  {
    hide Run, BytesOf, Update4, Wrap;
    InsideWord(data, m, 4);
    BeforeNext(data, m + 4);
    assert data[m..m + 5][..4] == data[m..m + 4];
  }

  /** The word in which the digit at k stands begins here. */
  function WordStart(data: seq<Byte>, k: nat): int
    requires k <= |data|
  {
    k - DigitsBefore(data, k)
  }

  lemma StartOfBoth(data: seq<Byte>, data': seq<Byte>, k: nat)
    requires OneDigitReplaced(data, data', k)
    ensures var m := WordStart(data, k); 0 <= m <= k <= m + 4 && WordAt(data, m) && WordAt(data', m) && Before(data', m) == Before(data, m)
  {
    hide Run;
    WordBegins(data, k);
    var m := WordStart(data, k);
    assert data'[..m] == data[..m];
  }

  /** A word that ends: the sums of the files are the same exactly if the sums behind the word are. */
  lemma EndedWord(data: seq<Byte>, data': seq<Byte>, k: nat)
    requires OneDigitReplaced(data, data', k) && WordStart(data, k) + 5 <= |data|
    ensures var m, b, b' := WordStart(data, k), WordBytes(data, k), WordBytes(data', k);
      && WordStart(data', k) == m >= 0
      && (Run(START, data, false).sums == Run(START, data', false).sums <==>
            Update4(Before(data, m).sums, b) == Update4(Before(data, m).sums, b'))
  {
    hide Run, BytesOf, Update4, WordValue, DigitsBefore;
    StartOfBoth(data, data', k);
    SameStart(data, data', k);
    var m := WordStart(data, k);
    WordEnds(data, m);
    WordEnds(data', m);
    SumsStayOk(data[..m + 5]);
    SumsStayOk(data'[..m + 5]);
    ParallelRun(Before(data, m + 5), Before(data', m + 5), data[m + 5..]);
    RunJoin(START, data[..m + 5], data[m + 5..], false);
    RunJoin(START, data'[..m + 5], data'[m + 5..], false);
    assert data[..m + 5] + data[m + 5..] == data && data'[..m + 5] + data'[m + 5..] == data' && data'[m + 5..] == data[m + 5..];
  }

  lemma SameStart(data: seq<Byte>, data': seq<Byte>, k: nat)
    requires OneDigitReplaced(data, data', k)
    ensures WordStart(data', k) == WordStart(data, k)
  {
    assert data'[..k] == data[..k];
  }

  /** The four bytes of the word in which the character at k stands. */
  function WordBytes(data: seq<Byte>, k: nat): seq<Byte>
    requires k <= |data|
  {
    var m := WordStart(data, k);
    if 0 <= m && m + 5 <= |data| then BytesOf(WordValue(data[m..m + 5])) else []
  }

  /** A word that does not end leaves no trace. */
  lemma OpenWord(data: seq<Byte>, data': seq<Byte>, k: nat, size: nat)
    requires OneDigitReplaced(data, data', k) && WordStart(data, k) + 5 > |data|
    ensures var s, t := Run(START, data, false), Run(START, data', false); s.sums == t.sums && AllBytes(s) == AllBytes(t) && Cut(s, size) == Cut(t, size)
  {
    hide Run, BytesOf, Update4, WordValue, DigitsBefore;
    StartOfBoth(data, data', k);
    var m := WordStart(data, k);
    InsideWord(data, m, |data| - m);
    InsideWord(data', m, |data| - m);
    assert data[..|data|] == data && data'[..|data'|] == data';
  }

  // ---------- One digit and four bytes ----------

  function Power85(e: nat): nat { if e == 0 then 1 else 85 * Power85(e - 1) }

  /** The value of a word moves by the difference of the digits, in its place, in 32 bits. */
  lemma {:induction false} ValueMoves(u: seq<Byte>, u': seq<Byte>, i: nat) returns (q: int)
    requires OneDigitReplaced(u, u', i)
    ensures WordValue(u') == WordValue(u) + Moved(u, u', i) * Power85(|u| - 1 - i) + TWO32 * q
    decreases |u|
  {
    var n := |u| - 1;
    var x, x' := WordValue(u[..n]) * 85 + (u[n] - BANG), WordValue(u'[..n]) * 85 + (u'[n] - BANG);
    var p := Multiple(x);
    var p' := Multiple(x');
    if i < n {
      var q0 := ValueMoves(u[..n], u'[..n], i);
      var d := Moved(u, u', i);
      assert d * Power85(n - i) == 85 * (d * Power85(n - 1 - i)) by { Reorder(d, Power85(n - 1 - i)); }
      q := 85 * q0 + p' - p;
    } else {
      assert u'[..n] == u[..n];
      q := p' - p;
    }
  }

  lemma Reorder(d: int, p: nat)
    ensures d * (85 * p) == 85 * (d * p)
  {
  }

  lemma Multiple(x: int) returns (p: int)
    ensures Wrap(x) == x + TWO32 * p
  {
    WrapIs(x);
    p :| Wrap(x) == x + TWO32 * p;
  }

  lemma BytesAre(x: int) returns (q: int)
    ensures WordOf(BytesOf(x)) == x + TWO32 * q
  {
    q := -(x / 256 / 256 / 256 / 256);
    hide WordOf;
    var y, z, w := x / 256, x / 256 / 256, x / 256 / 256 / 256;
    assert x == 256 * y + LowByte(x) && y == 256 * z + LowByte(y) && z == 256 * w + LowByte(z) && w == 256 * (w / 256) + LowByte(w);
    WordIs(BytesOf(x));
  }

  lemma WordIs(b: seq<Byte>)
    requires |b| == 4
    ensures WordOf(b) == 0x100_0000 * (b[0] as int) + 0x1_0000 * (b[1] as int) + 0x100 * (b[2] as int) + b[3]
  {
  }

  /** Adding c to the rotated checksum goes over 32 bits. */
  predicate Carries(rot: nat, c: Byte) { Rotated(rot) + c >= TWO32 }

  /** None of four bytes makes it do so. */
  predicate NoCarry(s: Sums, b: seq<Byte>)
    requires |b| == 4
  {
    && !Carries(s.rot, b[0]) && !Carries(Update(s, b[0]).rot, b[1])
    && !Carries(Update(Update(s, b[0]), b[1]).rot, b[2]) && !Carries(Update(Update(Update(s, b[0]), b[1]), b[2]).rot, b[3])
  }

  function Top(rot: nat): nat { if rot >= TWO31 then 1 else 0 }

  lemma RotWithoutCarry(s: Sums, c: Byte)
    requires s.rot < TWO32 && !Carries(s.rot, c)
    ensures Update(s, c).rot == 2 * s.rot + c - (TWO32 - 1) * Top(s.rot) < TWO32
  {
    hide Xor;
    RotIs(s.rot, c);
  }

  lemma RotOfFour(s: Sums, b: seq<Byte>) returns (k: nat)
    requires s.rot < TWO32 && |b| == 4 && NoCarry(s, b)
    ensures k <= 15 && Update4(s, b).rot == 16 * s.rot + 8 * (b[0] as int) + 4 * (b[1] as int) + 2 * (b[2] as int) + b[3] - (TWO32 - 1) * k
  {
    hide Update, Carries;
    var s1 := Update(s, b[0]);
    var s2 := Update(s1, b[1]);
    var s3 := Update(s2, b[2]);
    RotWithoutCarry(s, b[0]);
    RotWithoutCarry(s1, b[1]);
    RotWithoutCarry(s2, b[2]);
    RotWithoutCarry(s3, b[3]);
    k := 8 * Top(s.rot) + 4 * Top(s1.rot) + 2 * Top(s2.rot) + Top(s3.rot);
  }

  lemma SumOfFour(s: Sums, b: seq<Byte>)
    requires |b| == 4
    ensures Update4(s, b).sum == Wrap(s.sum + (b[0] as int) + b[1] + b[2] + b[3] + 4)
  {
    hide Xor, Wrap;
    var x0: int, x1: int, x2: int, x3: int := b[0], b[1], b[2], b[3];
    WrapTwice(s.sum + x0 + 1, x1 + 1);
    WrapTwice(s.sum + x0 + 1 + x1 + 1, x2 + 1);
    WrapTwice(s.sum + x0 + 1 + x1 + 1 + x2 + 1, x3 + 1);
  }

  lemma CloseSums(x: int, d: int)
    requires Wrap(x) == Wrap(x + d) && -TWO31 < d < TWO31
    ensures d == 0
  {
    var p := Multiple(x);
    var q := Multiple(x + d);
  }

  lemma {:induction false} NoFactor127(k: int, d: int, e: nat)
    requires 127 * k == d * Power85(e) && -85 < d < 85
    ensures d == 0
    decreases e
  {
    if e > 0 {
      var y := d * Power85(e - 1);
      Reorder(d, Power85(e - 1));
      assert y == 127 * (3 * k - 2 * y);
      NoFactor127(3 * k - 2 * y, d, e - 1);
    }
  }

  lemma PowersOf85(e: nat)
    requires e <= 4
    ensures 1 <= Power85(e) <= 52200625
  {
    assert Power85(1) == 85 && Power85(2) == 7225 && Power85(3) == 614125;
  }

  lemma SmallProduct(d: int, p: nat)
    requires -85 < d < 85 && p <= 52200625
    ensures -4384852500 <= d * p <= 4384852500
  {
  }

  /** No number d * 85^e, with |d| below 85, is a multiple of 254 * 255 in 32 bits, but 0. */
  lemma NoSuchDigit(m: int, d: int, e: nat, q: int)
    requires 64770 * m == d * Power85(e) + TWO32 * q && -TWO32 < 64770 * m < TWO32
    requires -85 < d < 85 && e <= 4
    ensures d == 0
  {
    hide Power85;
    PowersOf85(e);
    SmallProduct(d, Power85(e));
    assert -3 < q < 3;
    if e == 0 {
      WithoutPower(m, d, q);
    } else {
      WithPower(m, d, e, q);
    }
  }

  lemma WithoutPower(m: int, d: int, q: int)
    requires 64770 * m == d * Power85(0) + TWO32 * q && -85 < d < 85 && -3 < q < 3
    ensures d == 0
  {
    assert 64770 * (m - 66311 * q) == d + 3826 * q;
  }

  lemma WithPower(m: int, d: int, e: nat, q: int)
    requires e > 0 && 64770 * m == d * Power85(e) + TWO32 * q && -85 < d < 85 && -3 < q < 3
    ensures d == 0
  {
    var t := d * Power85(e - 1);
    Reorder(d, Power85(e - 1));
    assert 5 * (12954 * m - 17 * t - 858993459 * q) == q;
    NoFactor127(510 * m, d, e);
  }

  /** Two words that differ in a digit do not have the same sums, as long as nothing is carried out of 32 bits: the sum of
      the bytes and the rotated sum would make the difference a multiple of 254 * 255. */
  lemma NotCarriedIsNoticed(s: Sums, u: seq<Byte>, u': seq<Byte>, i: nat)
    requires SumsOk(s) && |u| == 5 && OneDigitReplaced(u, u', i)
    requires NoCarry(s, BytesOf(WordValue(u))) && NoCarry(s, BytesOf(WordValue(u')))
    ensures Update4(s, BytesOf(WordValue(u))) != Update4(s, BytesOf(WordValue(u')))
  {
    hide WordOf, BytesOf, Update4, WordValue, NoCarry, Wrap;
    var b, b' := BytesOf(WordValue(u)), BytesOf(WordValue(u'));
    if Update4(s, b) == Update4(s, b') {
      var q := ValueMoves(u, u', i);
      var p := BytesAre(WordValue(u));
      var p' := BytesAre(WordValue(u'));
      SumOfFour(s, b);
      SumOfFour(s, b');
      var k := RotOfFour(s, b);
      var k' := RotOfFour(s, b');
      WordIs(b);
      WordIs(b');
      var d0: int, d1: int, d2: int, d3: int := b'[0] as int - b[0], b'[1] as int - b[1], b'[2] as int - b[2], b'[3] as int - b[3];
      CloseSums(s.sum + (b[0] as int) + b[1] + b[2] + b[3] + 4, d0 + d1 + d2 + d3);
      assert 8 * d0 + 4 * d1 + 2 * d2 + d3 == (TWO32 - 1) * (k' - k);
      assert k' == k;
      assert WordOf(b') - WordOf(b) == 64770 * (259 * d0 + d1);
      NoSuchDigit(259 * d0 + d1, Moved(u, u', i), 4 - i, q + p' - p);
    }
  }

  // ---------- Damaged archives ----------

  /** A digit of an archive of the old format replaced by another.  If its word never ends, nothing changes.  Otherwise it is
      reported exactly if the sums behind that word are not the same; and they never are if nothing is carried out of the
      rotated sum's 32 bits within the word. */
  method ReplacedDigit(a: Archive, i: nat, c: Byte) returns (was: Option<seq<Byte>>, now: Option<seq<Byte>>, ghost k: nat)
    requires !a.isNew && i < |a.body| && IsDigit(a.body[i]) && IsDigit(c) && c != a.body[i]
    ensures var data, data' := DataFrom(a.body, 0, false), DataFrom(a.body[i := c], 0, false);
      was.Some? ==>
        && OneDigitReplaced(data, data', k)
        && if WordStart(data, k) + 5 > |data| then now == was
           else now == None <==> !SameWordSums(data, data', k)
  {
    hide Sound, Contents, DataFrom, SameWordSums, WordStart;
    k := 0;
    was := Decode(a);
    var b := a.(body := a.body[i := c]);
    now := Decode(b);
    if was.Some? { k := DamageIs(a, i, c); }
  }

  /** Behind the word at k the sums of both are the same. */
  predicate SameWordSums(data: seq<Byte>, data': seq<Byte>, k: nat)
    requires k <= |data| && k <= |data'|
  {
    var m, b, b' := WordStart(data, k), WordBytes(data, k), WordBytes(data', k);
    m >= 0 && |b| == |b'| == 4 && Update4(Before(data, m).sums, b) == Update4(Before(data, m).sums, b')
  }

  lemma DamageIs(a: Archive, i: nat, c: Byte) returns (k: nat)
    requires !a.isNew && i < |a.body| && IsDigit(a.body[i]) && IsDigit(c) && c != a.body[i] && Sound(a)
    ensures var b := a.(body := a.body[i := c]); var data, data' := DataFrom(a.body, 0, false), DataFrom(b.body, 0, false);
      && OneDigitReplaced(data, data', k)
      && if WordStart(data, k) + 5 > |data| then Sound(b) && Contents(b) == Contents(a)
         else Sound(b) <==> SameWordSums(data, data', k)
  {
    hide Run, BodyState, DataFrom, UpdateAll, Update4, DigitsBefore, Cut, AllBytes, WordValue, BytesOf, OneDigitReplaced;
    var b := a.(body := a.body[i := c]);
    k := DigitInData(START, a.body, 0, i, c);
    SameLines(START, START, a.body, b.body, 0);
    SumsOfState(a);
    SumsOfState(b);
    var data, data' := DataFrom(a.body, 0, false), DataFrom(b.body, 0, false);
    IsInside(data, data', k);
    if WordStart(data, k) + 5 > |data| {
      OpenWord(data, data', k, a.size);
    } else {
      EndedWord(data, data', k);
    }
  }

  lemma IsInside(data: seq<Byte>, data': seq<Byte>, k: nat)
    requires OneDigitReplaced(data, data', k)
    ensures k < |data| == |data'|
  {
  }

  /** Where nothing is carried, the digit is noticed. */
  lemma SmallSumsDiffer(data: seq<Byte>, data': seq<Byte>, k: nat)
    requires OneDigitReplaced(data, data', k) && 0 <= WordStart(data, k) && WordStart(data, k) + 5 <= |data|
    requires |WordBytes(data, k)| == 4 && NoCarry(Before(data, WordStart(data, k)).sums, WordBytes(data, k))
    requires |WordBytes(data', k)| == 4 && NoCarry(Before(data, WordStart(data, k)).sums, WordBytes(data', k))
    ensures !SameWordSums(data, data', k)
  {
    hide Run, BytesOf, Update4, WordValue, DigitsBefore, NoCarry;
    StartOfBoth(data, data', k);
    SameStart(data, data', k);
    var m := WordStart(data, k);
    SumsStayOk(data[..m]);
    assert OneDigitReplaced(data[m..m + 5], data'[m..m + 5], k - m);
    NotCarriedIsNoticed(Before(data, m).sums, data[m..m + 5], data'[m..m + 5], k - m);
  }
}
