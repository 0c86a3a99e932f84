/** btoa and atob. */
module Btoa {
  import opened BitOps
  import opened BtoaWords
  import opened BtoaText
  import opened Options
  import opened Stdio

  // ---------- Encoding ----------

  class Encoder {
    const isNew: bool
    var linepos: nat
    var sums: Sums
    var out: seq<Byte>
    ghost var chars: seq<Byte>
    ghost var full: nat

    ghost predicate Valid()
      reads this
    {
      Laid(chars, isNew, full, linepos, out) && (isNew ==> sums == UpdateAll(NO_SUMS, chars))
    }

    constructor (isNew: bool)
      ensures Valid() && this.isNew == isNew && chars == [] && sums == NO_SUMS
    {
      this.isNew := isNew;
      linepos, sums, out, chars, full := 0, NO_SUMS, [], [], 0;
    }

    /** asciiout(): a line is ended as soon as it is full. */
    method AsciiOut(ch: Byte)
      requires Valid()
      modifies this
      ensures Valid() && chars == old(chars) + [ch]
      ensures !isNew ==> sums == old(sums)
    {
      hide Laid, UpdateAll, Update, Check;
      AddChar(chars, ch, isNew, full, linepos, out);
      out := out + [ch];
      linepos := linepos + 1;
      chars := chars + [ch];
      if isNew {
        sums := Update(sums, ch);
        if linepos >= MAXPERLINE - 1 {
          EndLine(chars, isNew, full, out, sums.sum);
          out := out + [Check(sums.sum)];
          out := out + [NL];
          linepos := 0;
          full := full + 1;
        }
      } else if linepos >= MAXPERLINE {
        EndLine(chars, isNew, full, out, 0);
        out := out + [NL];
        linepos := 0;
        full := full + 1;
      }
    }

    /** asciiout(EOF) */
    method Flush()
      requires Valid()
      modifies this
      ensures out == Body(chars, isNew, Lines(|chars|, isNew)) && sums == old(sums) && chars == old(chars)
    {
      hide UpdateAll, Check, Body;
      LineCount(|chars|, isNew, full, linepos);
      if linepos != 0 {
        EndLine(chars, isNew, full, out, sums.sum);
        if isNew { out := out + [Check(sums.sum)]; }
        out := out + [NL];
      }
    }

    /** wordout() */
    method WordOut(codeword: int)
      requires Valid() && -TWO31 <= codeword < TWO31
      modifies this
      ensures Valid() && chars == old(chars) + WordChars(codeword % TWO32, isNew)
      ensures !isNew ==> sums == old(sums)
    {
      WordCases(codeword, isNew);
      hide WordChars, Laid, UpdateAll, Digits;
      if codeword == 0 {
        AsciiOut(CHAR_Z);
      } else if isNew && codeword == 0x20202020 {
        AsciiOut(CHAR_Y);
      } else {
        var digits := DigitsOf(codeword);
        DigitsOut(digits);
      }
    }

    /** The five digits of wordout(). */
    method DigitsOut(digits: seq<nat>)
      requires Valid() && |digits| == 5 && forall i :: 0 <= i < 5 ==> digits[i] < 85
      modifies this
      ensures Valid() && chars == old(chars) + DigitChars(digits)
      ensures !isNew ==> sums == old(sums)
    {
      hide Laid, UpdateAll;
      var i := 0;
      while i < 5
        invariant 0 <= i <= 5 && Valid() && (!isNew ==> sums == old(sums))
        invariant chars == old(chars) + DigitChars(digits)[..i]
      {
        AsciiOut(BANG + digits[i]);
        i := i + 1;
      }
      assert DigitChars(digits)[..5] == DigitChars(digits);
    }

    /** btoa(): a group of four bytes at a time, the last one filled up with zeros. */
    method Encode(input: seq<Byte>) returns (a: Archive)
      requires Valid() && chars == [] && sums == NO_SUMS
      modifies this
      ensures a == Encoded(input, isNew)
    {
      hide Laid, UpdateAll, Group, WordChars, Chars, Update, Body, GroupBytes;
      var filesize, readbytes := 0, 4;
      ghost var k := 0;
      NoGroups(input, isNew);
      while readbytes == 4
        invariant Valid() && 0 <= filesize <= |input| && 0 <= readbytes <= 4 && k == Groups(filesize)
        invariant if readbytes == 4 then filesize == 4 * k else filesize == |input|
        invariant chars == Chars(input, k, isNew) && sums == SumsUpTo(input, k, isNew)
        decreases |input| - filesize, readbytes
      {
        readbytes := if |input| - filesize < 4 then |input| - filesize else 4;
        if readbytes > 0 {
          GroupOut(input, k, filesize, readbytes);
          filesize := filesize + readbytes;
          k := k + 1;
        }
      }
      Flush();
      a := Archive(isNew, out, filesize, sums);
    }

    /** One round of btoa()'s loop that reads something. */
    method GroupOut(input: seq<Byte>, ghost k: nat, filesize: nat, readbytes: nat)
      requires Valid() && filesize == 4 * k && filesize + readbytes <= |input| && 0 < readbytes <= 4
      requires readbytes < 4 ==> filesize + readbytes == |input|
      requires chars == Chars(input, k, isNew) && sums == SumsUpTo(input, k, isNew)
      modifies this
      ensures Valid() && chars == Chars(input, k + 1, isNew) && sums == SumsUpTo(input, k + 1, isNew)
    {
      hide Laid, UpdateAll, WordChars, Chars, Update, WordOf, GroupBytes, SumsUpTo;
      var ch1: Byte := input[filesize];
      var ch2: Byte := if readbytes > 1 then input[filesize + 1] else 0;
      var ch3: Byte := if readbytes > 2 then input[filesize + 2] else 0;
      var ch4: Byte := if readbytes < 4 then 0 else input[filesize + 3];
      assert [ch1, ch2, ch3, ch4] == Group(input, k);
      OneGroup(input, k, isNew);
      if !isNew {
        sums := Update(sums, ch1);
        sums := Update(sums, ch2);
        sums := Update(sums, ch3);
        sums := Update(sums, ch4);
      }
      WordFits([ch1, ch2, ch3, ch4]);
      var codeword := Wrap(WordOf([ch1, ch2, ch3, ch4]));
      WordOut(codeword);
      if isNew { SumsAreOfChars(input, k + 1); }
    }

    lemma SumsAreOfChars(input: seq<Byte>, k: nat)
      requires Valid() && isNew && chars == Chars(input, k, isNew)
      ensures sums == SumsUpTo(input, k, isNew)
    {
    }
  }

  lemma NoGroups(input: seq<Byte>, isNew: bool)
    ensures Chars(input, 0, isNew) == [] && SumsUpTo(input, 0, isNew) == NO_SUMS
  {
  }

  lemma WordFits(b: seq<Byte>)
    requires |b| == 4
    ensures Wrap(WordOf(b)) % TWO32 == WordOf(b)
  {
  }

  lemma OneGroup(input: seq<Byte>, k: nat, isNew: bool)
    ensures Chars(input, k + 1, isNew) == Chars(input, k, isNew) + WordChars(WordOf(Group(input, k)), isNew)
    ensures var b := Group(input, k);
      !isNew ==> SumsUpTo(input, k + 1, isNew) == Update(Update(Update(Update(SumsUpTo(input, k, isNew), b[0]), b[1]), b[2]), b[3])
  {
    if !isNew { FourUpdates(NO_SUMS, GroupBytes(input, k), Group(input, k)); }
  }

  lemma FourUpdates(s: Sums, a: seq<Byte>, b: seq<Byte>)
    requires |b| == 4
    ensures UpdateAll(s, a + b) == Update(Update(Update(Update(UpdateAll(s, a), b[0]), b[1]), b[2]), b[3])
  {
    hide Update;
    UpdateOne(s, a, b[0]);
    UpdateOne(s, a + [b[0]], b[1]);
    UpdateOne(s, a + [b[0]] + [b[1]], b[2]);
    UpdateOne(s, a + [b[0]] + [b[1]] + [b[2]], b[3]);
    assert a + [b[0]] + [b[1]] + [b[2]] + [b[3]] == a + b;
  }

  lemma UpdateOne(s: Sums, a: seq<Byte>, c: Byte)
    ensures UpdateAll(s, a + [c]) == Update(UpdateAll(s, a), c)
  {
    assert (a + [c])[..|a|] == a;
  }

  lemma WordCases(codeword: int, isNew: bool)
    requires -TWO31 <= codeword < TWO31
    ensures var u := codeword % TWO32; var chars := WordChars(u, isNew);
      chars == if codeword == 0 then [CHAR_Z] else if isNew && codeword == 0x20202020 then [CHAR_Y] else DigitChars(Digits(u))
  {
    NotShort(codeword);
    hide Digits, DigitChars;
  }

  lemma NotShort(codeword: int)
    requires -TWO31 <= codeword < TWO31
    ensures codeword == 0 <==> codeword % TWO32 == 0
    ensures codeword == 0x20202020 <==> codeword % TWO32 == 0x20202020
  {
  }

  /** `full` lines are written out with their ends, and the next one as far as it goes. */
  ghost predicate Laid(chars: seq<Byte>, isNew: bool, full: nat, linepos: nat, out: seq<Byte>) {
    Start(isNew, full) + linepos == |chars| && linepos < Start(isNew, 1) &&
    out == Body(chars, isNew, full) + chars[Start(isNew, full)..]
  }

  /** The same with the line full, but not ended. */
  ghost predicate Ending(chars: seq<Byte>, isNew: bool, full: nat, out: seq<Byte>) {
    Start(isNew, full) <= |chars| <= Start(isNew, full + 1) &&
    out == Body(chars, isNew, full) + chars[Start(isNew, full)..]
  }

  lemma AddChar(was: seq<Byte>, ch: Byte, isNew: bool, full: nat, linepos: nat, out: seq<Byte>)
    requires Laid(was, isNew, full, linepos, out)
    ensures var chars := was + [ch];
      && UpdateAll(NO_SUMS, chars) == Update(UpdateAll(NO_SUMS, was), ch)
      && (linepos + 1 < Start(isNew, 1) ==> Laid(chars, isNew, full, linepos + 1, out + [ch]))
      && Ending(chars, isNew, full, out + [ch]) && |chars| == Start(isNew, full) + linepos + 1 && linepos < Start(isNew, 1)
  {
    hide Body, UpdateAll, Update;
    var chars := was + [ch];
    OneUpdate(was, ch);
    BodyStays(was, ch, isNew, full);
    assert chars[Start(isNew, full)..] == was[Start(isNew, full)..] + [ch];
  }

  lemma OneUpdate(was: seq<Byte>, ch: Byte)
    ensures UpdateAll(NO_SUMS, was + [ch]) == Update(UpdateAll(NO_SUMS, was), ch)
  {
    assert (was + [ch])[..|was|] == was;
  }

  lemma EndLine(chars: seq<Byte>, isNew: bool, full: nat, out: seq<Byte>, sum: int)
    requires Ending(chars, isNew, full, out) && (isNew ==> sum == UpdateAll(NO_SUMS, chars).sum)
    ensures var now := out + (if isNew then [Check(sum)] else []) + [NL];
      && now == Body(chars, isNew, full + 1)
      && (isNew ==> now == out + [Check(sum)] + [NL]) && (!isNew ==> now == out + [NL])
      && (|chars| == Start(isNew, full + 1) ==> Laid(chars, isNew, full + 1, 0, now))
  {
    hide UpdateAll, Check;
    assert chars[..|chars|] == chars && Min(Start(isNew, full + 1), |chars|) == |chars|;
    assert LineAt(chars, isNew, full) == chars[Start(isNew, full)..];
    var end := (if isNew then [Check(SumAt(chars, isNew, full))] else []) + [NL];
    assert Written(LineAt(chars, isNew, full), isNew, SumAt(chars, isNew, full)) == chars[Start(isNew, full)..] + end;
    assert out + end == Body(chars, isNew, full + 1);
    assert !isNew ==> out + [] + [NL] == out + [NL];
    if |chars| == Start(isNew, full + 1) { assert chars[Start(isNew, full + 1)..] == []; }
  }

  lemma LineCount(n: nat, isNew: bool, full: nat, linepos: nat)
    requires n == Start(isNew, full) + linepos && linepos < Start(isNew, 1)
    ensures Lines(n, isNew) == if linepos == 0 then full else full + 1
  {
  }
}
