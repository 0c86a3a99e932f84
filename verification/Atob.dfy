/** atob: decoding with output delayed by one word. */
module Atob {
  import opened BitOps
  import opened BtoaWords
  import opened BtoaText
  import opened Options
  import opened Stdio

  /** What decode_line() keeps from character to character: the word so far, the four bytes that are
      still to be put out, and how many digits of the next word there are, 5 meaning that bytes wait. */
  datatype State = State(codeword: int, chs: seq<Byte>, bytecount: nat, out: seq<Byte>, sums: Sums)

  const START := State(0, [0, 0, 0, 0], 0, [], NO_SUMS)

  predicate IsDigit(ch: Byte) { BANG <= ch < BANG + 85 }

  predicate IsShort(ch: Byte, isNew: bool) { ch == CHAR_Z || (isNew && ch == CHAR_Y) }

  /** Delayed output. */
  function Emit(s: State): State {
    if s.bytecount == 5 then s.(out := s.out + s.chs, bytecount := 0) else s
  }

  function Count(s: State, ch: Byte, isNew: bool): State {
    if isNew then s.(sums := Update(s.sums, ch)) else s
  }

  /** One more digit. */
  function Shift(s: State, ch: Byte): State {
    s.(codeword := if s.bytecount == 0 then ch - BANG else Wrap(s.codeword * 85 + (ch - BANG)), bytecount := s.bytecount + 1)
  }

  function Update4(s: Sums, b: seq<Byte>): Sums
    requires |b| == 4
  {
    Update(Update(Update(Update(s, b[0]), b[1]), b[2]), b[3])
  }

  /** The bytes of a word that has all its digits. */
  function Finish(s: State, isNew: bool): State {
    if s.bytecount == 5 then
      var b := BytesOf(s.codeword);
      s.(chs := b, sums := if isNew then s.sums else Update4(s.sums, b))
    else s
  }

  /** The bytes of a word written as one character. */
  function Shortcut(s: State, ch: Byte, isNew: bool): State {
    var v: Byte := if ch == CHAR_Z then 0 else 32;
    var b := [v, v, v, v];
    s.(chs := b, bytecount := 5, sums := if isNew then s.sums else Update4(s.sums, b))
  }

  function Step(s: State, ch: Byte, isNew: bool): State {
    var s1 := Count(Emit(s), ch, isNew);
    if IsDigit(ch) || s1.bytecount != 0 then Finish(Shift(s1, ch), isNew) else Shortcut(s1, ch, isNew)
  }

  /** Is the character one that may stand here? */
  predicate Allowed(s: State, ch: Byte, isNew: bool) {
    IsDigit(ch) || (IsShort(ch, isNew) && Emit(s).bytecount == 0)
  }

  function Run(s: State, chars: seq<Byte>, isNew: bool): State {
    if chars == [] then s else Step(Run(s, chars[..|chars|-1], isNew), chars[|chars|-1], isNew)
  }

  predicate AllAllowed(s: State, chars: seq<Byte>, isNew: bool) {
    chars == [] ||
    (AllAllowed(s, chars[..|chars|-1], isNew) && Allowed(Run(s, chars[..|chars|-1], isNew), chars[|chars|-1], isNew))
  }

  lemma {:induction false} RunJoin(s: State, a: seq<Byte>, b: seq<Byte>, isNew: bool)
    ensures Run(s, a + b, isNew) == Run(Run(s, a, isNew), b, isNew)
    ensures AllAllowed(s, a + b, isNew) <==> AllAllowed(s, a, isNew) && AllAllowed(Run(s, a, isNew), b, isNew)
  {
    if b == [] {
      assert a + b == a;
    } else {
      assert (a + b)[..|a + b|-1] == a + b[..|b|-1];
      RunJoin(s, a, b[..|b|-1], isNew);
    }
  }

  lemma OneStep(s: State, line: seq<Byte>, i: nat, isNew: bool)
    requires i < |line|
    ensures Run(s, line[..i+1], isNew) == Step(Run(s, line[..i], isNew), line[i], isNew)
    ensures AllAllowed(s, line[..i+1], isNew) <==> AllAllowed(s, line[..i], isNew) && Allowed(Run(s, line[..i], isNew), line[i], isNew)
  {
    assert line[..i+1][..i] == line[..i];
  }

  lemma {:induction false} AllowedSoFar(s: State, line: seq<Byte>, i: nat, isNew: bool)
    requires AllAllowed(s, line, isNew) && i <= |line|
    ensures AllAllowed(s, line[..i], isNew)
    decreases |line| - i
  {
    if i == |line| {
      assert line[..i] == line;
    } else {
      AllowedSoFar(s, line, i + 1, isNew);
      OneStep(s, line, i, isNew);
    }
  }

  // ---------- Lines with any characters ----------

  /** Does decode_line() look at the character at i of a line of n, when the word has c digits already?  It does at the first
      of a word's characters on the line, and at all of them if the word does not end on the line. */
  predicate Looked(n: nat, i: nat, c: nat) { i == 0 || c == 0 || n - i < 5 - c }

  predicate CharOk(s: State, line: seq<Byte>, i: nat, isNew: bool)
    requires i < |line|
  {
    var t := Run(s, line[..i], isNew);
    Looked(|line|, i, Emit(t).bytecount) ==> Allowed(t, line[i], isNew)
  }

  /** No character that is looked at is wrong. */
  predicate Acceptable(s: State, line: seq<Byte>, isNew: bool) { forall i :: 0 <= i < |line| ==> CharOk(s, line, i, isNew) }

  lemma {:induction false} AllowedAt(s: State, line: seq<Byte>, i: nat, isNew: bool)
    requires AllAllowed(s, line, isNew) && i < |line|
    ensures Allowed(Run(s, line[..i], isNew), line[i], isNew)
  {
    AllowedSoFar(s, line, i + 1, isNew);
    OneStep(s, line, i, isNew);
  }

  lemma AllowedIsAcceptable(s: State, line: seq<Byte>, isNew: bool)
    requires AllAllowed(s, line, isNew)
    ensures Acceptable(s, line, isNew)
  {
    hide Run, AllAllowed, Allowed;
    forall i | 0 <= i < |line| ensures CharOk(s, line, i, isNew) { AllowedAt(s, line, i, isNew); }
  }

  lemma {:induction false} FewDigits(s: State, chars: seq<Byte>, isNew: bool)
    requires s.bytecount <= 5
    ensures Run(s, chars, isNew).bytecount <= 5
  {
    if chars != [] {
      hide Update, Update4, BytesOf, Wrap;
      FewDigits(s, chars[..|chars|-1], isNew);
    }
  }

  class Decoder {
    const isNew: bool
    var codeword: int
    var ch1: Byte
    var ch2: Byte
    var ch3: Byte
    var ch4: Byte
    var bytecount: nat
    var sums: Sums
    var out: seq<Byte>

    ghost function Now(): State
      reads this
    {
      State(codeword, [ch1, ch2, ch3, ch4], bytecount, out, sums)
    }

    constructor (isNew: bool)
      ensures Now() == START && this.isNew == isNew
    {
      this.isNew := isNew;
      codeword, bytecount, sums, out := 0, 0, NO_SUMS, [];
      ch1, ch2, ch3, ch4 := 0, 0, 0, 0;
    }

    /** decode_line(): when the rest of a word is on the line its digits are taken without looking at them. */
    method DecodeLine(line: seq<Byte>) returns (error: bool)
      requires bytecount <= 5
      modifies this
      ensures bytecount <= 5
      ensures !error <==> Acceptable(old(Now()), line, isNew)
      ensures !error ==> Now() == Run(old(Now()), line, isNew)
    {
      hide Update, Update4, BytesOf, Wrap, Run, CharOk, Acceptable, OkBefore;
      error := false;
      ghost var s0 := Now();
      Nothing(s0, line, isNew);
      NoneWrong(s0, line, isNew);
      var i := 0;
      while i < |line|
        invariant 0 <= i <= |line| && bytecount <= 5
        invariant error ==> !Acceptable(s0, line, isNew)
        invariant !error ==> Now() == Run(s0, line[..i], isNew) && OkBefore(s0, line, i, isNew)
        invariant !error && i < |line| ==> Looked(|line|, i, Emit(Now()).bytecount)
      {
        ghost var s, i0 := Now(), i;
        if !error { LookedAt(s0, line, i0, isNew); }
        var ch := line[i];
        i := i + 1;
        Output();
        if isNew { sums := Update(sums, ch); }
        if IsDigit(ch) {
          if |line| - i >= 4 - bytecount {
            i := TakeWord(line, i, ch, s0);
            if !error { WordIsOk(s0, line, i0, isNew); }
          } else {
            Take(ch);
          }
          FinishWord();
        } else if IsShort(ch, isNew) {
          if bytecount != 0 {
            error := true;
          } else {
            TakeShort(ch);
          }
        } else {
          error := true;
        }
      }
      assert line[..|line|] == line;
      if !error { AllOk(s0, line, isNew); }
    }

    /** The delayed output of decode_line(). */
    method Output()
      modifies this`out, this`bytecount
      ensures Now() == Emit(old(Now()))
    {
      if bytecount == 5 {
        out := out + [ch1];
        out := out + [ch2];
        out := out + [ch3];
        out := out + [ch4];
        bytecount := 0;
      }
    }

    method Take(ch: Byte)
      modifies this`codeword, this`bytecount
      ensures Now() == Shift(old(Now()), ch)
    {
      if bytecount == 0 {
        codeword := ch - BANG;
        bytecount := 1;
      } else {
        codeword := Wrap(codeword * 85 + (ch - BANG));
        bytecount := bytecount + 1;
      }
    }

    /** All digits that are missing: ch and the next ones of the line. */
    method TakeWord(line: seq<Byte>, i0: nat, ch: Byte, ghost s0: State) returns (i: nat)
      requires 0 < i0 <= |line| && bytecount < 5 && |line| - i0 >= 4 - bytecount && ch == line[i0-1]
      modifies this`codeword, this`bytecount, this`sums
      ensures i == i0 + 4 - old(bytecount) && bytecount == 5
      ensures Finish(Shift(old(Now()), ch), isNew) == Run(s0, line[..i0], isNew) ==> Finish(Now(), isNew) == Run(s0, line[..i], isNew)
    {
      hide Update, Update4, BytesOf, Wrap, Run;
      ghost var expected := Finish(Shift(Now(), ch), isNew) == Run(s0, line[..i0], isNew);
      Take(ch);
      i := i0;
      while bytecount < 5
        invariant i0 <= i <= |line| && 1 <= bytecount <= 5 && i - i0 == bytecount - old(bytecount) - 1
        invariant expected ==> Finish(Now(), isNew) == Run(s0, line[..i], isNew)
        decreases 5 - bytecount
      {
        OneStep(s0, line, i, isNew);
        if isNew { sums := Update(sums, line[i]); }
        codeword := Wrap(codeword * 85 + (line[i] - BANG));
        i := i + 1;
        bytecount := bytecount + 1;
      }
    }

    method FinishWord()
      modifies this`ch1, this`ch2, this`ch3, this`ch4, this`sums
      ensures Now() == Finish(old(Now()), isNew)
    {
      if bytecount == 5 {
        var tmp := codeword;
        ch4 := LowByte(tmp);
        tmp := tmp / 256;
        ch3 := LowByte(tmp);
        tmp := tmp / 256;
        ch2 := LowByte(tmp);
        ch1 := LowByte(tmp / 256);
        if !isNew {
          sums := Update(sums, ch1);
          sums := Update(sums, ch2);
          sums := Update(sums, ch3);
          sums := Update(sums, ch4);
        }
      }
    }

    method TakeShort(ch: Byte)
      requires bytecount == 0
      modifies this`ch1, this`ch2, this`ch3, this`ch4, this`bytecount, this`sums
      ensures Now() == Shortcut(old(Now()), ch, isNew)
    {
      var v: Byte := if ch == CHAR_Z then 0 else 32;
      ch1, ch2, ch3, ch4 := v, v, v, v;
      if !isNew {
        sums := Update(sums, ch1);
        sums := Update(sums, ch1);
        sums := Update(sums, ch1);
        sums := Update(sums, ch1);
      }
      bytecount := 5;
    }
  }

  lemma Nothing(s: State, line: seq<Byte>, isNew: bool)
    ensures Run(s, line[..0], isNew) == s
  {
  }

  predicate OkBefore(s: State, line: seq<Byte>, i: nat, isNew: bool) { i <= |line| && forall j :: 0 <= j < i ==> CharOk(s, line, j, isNew) }

  lemma NoneWrong(s: State, line: seq<Byte>, isNew: bool)
    ensures OkBefore(s, line, 0, isNew)
  {
  }

  lemma AllOk(s: State, line: seq<Byte>, isNew: bool)
    requires OkBefore(s, line, |line|, isNew)
    ensures Acceptable(s, line, isNew)
  {
  }

  /** A character that is looked at: all is well so far, or the line is not acceptable. */
  lemma LookedAt(s: State, line: seq<Byte>, i: nat, isNew: bool)
    requires i < |line| && OkBefore(s, line, i, isNew) && Looked(|line|, i, Emit(Run(s, line[..i], isNew)).bytecount)
    ensures Run(s, line[..i+1], isNew) == Step(Run(s, line[..i], isNew), line[i], isNew)
    ensures if Allowed(Run(s, line[..i], isNew), line[i], isNew) then OkBefore(s, line, i + 1, isNew) else !Acceptable(s, line, isNew)
  {
    hide Run, Step;
    OneStep(s, line, i, isNew);
    assert CharOk(s, line, i, isNew) <==> Allowed(Run(s, line[..i], isNew), line[i], isNew);
  }

  /** The digits of a word are counted. */
  lemma {:induction false} CountsUp(s: State, line: seq<Byte>, i: nat, j: nat, isNew: bool)
    requires i < j <= |line| && IsDigit(line[i])
    requires var c := Emit(Run(s, line[..i], isNew)).bytecount; c <= 4 && j <= i + 5 - c
    ensures Run(s, line[..j], isNew).bytecount == Emit(Run(s, line[..i], isNew)).bytecount + j - i
    decreases j
  {
    hide Update, Update4, BytesOf, Wrap, Run;
    OneStep(s, line, j - 1, isNew);
    if i + 1 < j { CountsUp(s, line, i, j - 1, isNew); }
  }

  /** Behind the first digit of a word that ends on the line nothing is looked at. */
  lemma WordIsOk(s: State, line: seq<Byte>, i: nat, isNew: bool)
    requires i < |line| && OkBefore(s, line, i + 1, isNew) && IsDigit(line[i])
    requires var c := Emit(Run(s, line[..i], isNew)).bytecount; c <= 4 && i + 5 - c <= |line|
    ensures OkBefore(s, line, i + 5 - Emit(Run(s, line[..i], isNew)).bytecount, isNew)
  {
    hide Run, Allowed;
    var c := Emit(Run(s, line[..i], isNew)).bytecount;
    forall j | i < j < i + 5 - c ensures CharOk(s, line, j, isNew) { CountsUp(s, line, i, j, isNew); }
  }
}
