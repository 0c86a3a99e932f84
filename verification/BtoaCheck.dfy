/** What the line checksums of the new format find, and when they cannot be read back. */
module BtoaCheck {
  import opened BitOps
  import opened BtoaWords
  import opened BtoaText
  import opened Btoa
  import opened Atob
  import opened BtoaRound
  import opened Stdio

  // ---------- Replaced digits ----------

  /** Two lines that differ in the digit at i. */
  predicate OneDigitReplaced(data: seq<Byte>, data': seq<Byte>, i: nat) {
    && i < |data| == |data'| && IsDigit(data[i]) && IsDigit(data'[i]) && data[i] != data'[i]
    && forall j :: 0 <= j < |data| && j != i ==> data[j] == data'[j]
  }

  function Moved(data: seq<Byte>, data': seq<Byte>, i: nat): int
    requires i < |data| == |data'|
  {
    var now: int, was: int := data'[i], data[i];
    now - was
  }

  function Plus1(c: Byte): int { c as int + 1 }

  /** The sum moves by the difference of the digits, in 32 bits. */
  lemma {:induction false} SumMoves(s: Sums, data: seq<Byte>, data': seq<Byte>, i: nat)
    requires OneDigitReplaced(data, data', i)
    ensures UpdateAll(s, data').sum == Wrap(UpdateAll(s, data).sum + Moved(data, data', i))
    ensures UpdateAll(s, data).sum == Wrap(UpdateAll(s, data).sum)
    decreases |data|
  {
    var n := |data| - 1;
    if i < n {
      SumMoves(s, data[..n], data'[..n], i);
      WrapMoves(UpdateAll(s, data[..n]).sum, Plus1(data[n]), Moved(data, data', i));
    } else {
      assert data[..n] == data'[..n];
      WrapTwice(UpdateAll(s, data[..n]).sum + data[n] + 1, Moved(data, data', n));
    }
  }

  lemma WrapTwice(x: int, d: int)
    ensures Wrap(Wrap(x) + d) == Wrap(x + d) && Wrap(Wrap(x)) == Wrap(x)
  {
    WrapIs(x);
    var k: int :| Wrap(x) == x + TWO32 * k;
    WrapSame(Wrap(x) + d, x + d, k);
    WrapSame(Wrap(x), x, k);
  }

  lemma WrapMoves(x: int, c: int, d: int)
    ensures Wrap(Wrap(x + d) + c) == Wrap(Wrap(x + c) + d)
    ensures Wrap(Wrap(x + c)) == Wrap(x + c)
  {
    WrapTwice(x + d, c);
    WrapTwice(x + c, d);
  }

  /** Sums that differ by less than 85 in 32 bits have different remainders, even where the sum changes its sign:
      the remainders could only both be 0 there, and neither end of the 32-bit range is a multiple of 85. */
  lemma RemaindersDiffer(x: int, d: int)
    requires -TWO31 <= x < TWO31 && -85 < d < 85 && d != 0
    ensures Remainder85(Wrap(x + d)) != Remainder85(x)
  {
    Remainder85Is(x);
    Remainder85Is(Wrap(x + d));
    if x + d >= TWO31 {
      assert Wrap(x + d) == x + d - TWO32;
    } else if x + d < -TWO31 {
      assert Wrap(x + d) == x + d + TWO32;
    } else {
      assert Wrap(x + d) == x + d;
    }
  }

  lemma Remainder85Is(x: int)
    ensures exists k: int :: x == 85 * k + Remainder85(x)
  {
    if x >= 0 {
      assert x == 85 * (x / 85) + Remainder85(x);
    } else {
      assert x == 85 * (-((-x) / 85)) + Remainder85(x);
    }
  }

  /** Replacing one base-85 digit by another leaves the line's characters acceptable and makes its checksum wrong. */
  lemma ReplacedDigitFails(s: State, data: seq<Byte>, data': seq<Byte>, i: nat, check: Byte)
    requires OneDigitReplaced(data, data', i)
    requires Signed(check) == BANG + Remainder85(Run(s, data, true).sums.sum)
    ensures Signed(check) != BANG + Remainder85(Run(s, data', true).sums.sum)
    ensures AllAllowed(s, data, true) <==> AllAllowed(s, data', true)
  {
    hide Run, AllAllowed, UpdateAll, Remainder85, Wrap, Signed;
    NewSums(s, data);
    NewSums(s, data');
    SumMoves(s.sums, data, data', i);
    RemaindersDiffer(UpdateAll(s.sums, data).sum, Moved(data, data', i));
    StillAllowed(s, data, data', i);
  }

  /** How many digits of a word there are does not depend on which digits they are. */
  lemma {:induction false} StillAllowed(s: State, data: seq<Byte>, data': seq<Byte>, i: nat)
    requires |data| == |data'| && (i < |data| ==> IsDigit(data[i]) && IsDigit(data'[i]))
    requires forall j :: 0 <= j < |data| && j != i ==> data[j] == data'[j]
    ensures AllAllowed(s, data, true) <==> AllAllowed(s, data', true)
    ensures Run(s, data, true).bytecount == Run(s, data', true).bytecount
    decreases |data|
  {
    hide Update, BytesOf, Wrap;
    if data != [] {
      var n := |data| - 1;
      StillAllowed(s, data[..n], data'[..n], i);
    }
  }

  /** A line of the new format with one digit replaced is reported. */
  method DamagedLine(d: Decoder, body: seq<Byte>, line: seq<Byte>, p': nat, ghost data: seq<Byte>, ghost i: nat) returns (ok: bool)
    requires d.isNew && d.bytecount <= 5 && line != [] && p' <= |body|
    requires ShapeOk(body, line, p') && AllAllowed(d.Now(), data, true)
    requires Signed(line[StrLen(line) - 2]) == BANG + Remainder85(Run(d.Now(), data, true).sums.sum)
    requires OneDigitReplaced(data, line[..StrLen(line) - 2], i)
    modifies d
    ensures !ok
  {
    hide Run, AllAllowed, Remainder85, Signed, StrLen, OneDigitReplaced;
    ReplacedDigitFails(d.Now(), data, line[..StrLen(line) - 2], i, line[StrLen(line) - 2]);
    ok := NewLine(d, body, line, p');
  }

  // ---------- Sums that cannot be read back ----------

  /** While the sum has not reached the sign bit, it is the sum of the characters, and its check character is printable. */
  lemma {:induction false} SmallSum(chars: seq<Byte>)
    requires AllPrintable(chars) && 123 * |chars| < TWO31
    ensures 0 <= UpdateAll(NO_SUMS, chars).sum <= 123 * |chars|
  {
    if chars != [] {
      hide UpdateAll, Wrap, Xor;
      var last := chars[|chars|-1];
      SmallSum(chars[..|chars|-1]);
      LastUpdate(chars);
      assert 123 * |chars| == 123 * (|chars| - 1) + 123;
      SmallWrap(UpdateAll(NO_SUMS, chars[..|chars|-1]).sum, last as int + 1);
    }
  }

  lemma LastUpdate(chars: seq<Byte>)
    requires chars != []
    ensures UpdateAll(NO_SUMS, chars) == Update(UpdateAll(NO_SUMS, chars[..|chars|-1]), chars[|chars|-1])
  {
  }

  lemma SmallWrap(x: int, d: int)
    requires 0 <= x && 0 <= d && x + d < TWO31
    ensures Wrap(x + d) == x + d
  {
  }

  lemma {:induction false} FewChars(input: seq<Byte>, k: nat, isNew: bool)
    ensures |Chars(input, k, isNew)| <= 5 * k
  {
    if k > 0 {
      FewChars(input, k - 1, isNew);
      hide WordOf, Group, Digits;
    }
  }

  /** A file of less than 13 million bytes always comes back. */
  lemma SmallFilesAreReadable(input: seq<Byte>)
    requires |input| <= 13_000_000
    ensures Readable(input)
  {
    hide Chars, Lines, UpdateAll, Printable;
    var chars := Chars(input, Groups(|input|), true);
    FewChars(input, Groups(|input|), true);
    CharsPrintable(input, Groups(|input|), true);
    forall i | 0 <= i < Lines(|chars|, true) ensures Harmless(SumAt(chars, true, i)) {
      SmallSum(chars[..Min(Start(true, i + 1), |chars|)]);
      assert SumAt(chars, true, i) >= 0;
    }
  }

  function ManyZ(n: nat): seq<Byte> { seq(n, i => CHAR_Z) }

  lemma {:induction false} ZerosAreZ(input: seq<Byte>, k: nat)
    requires 4 * k <= |input| && forall i :: 0 <= i < |input| ==> input[i] == 0
    ensures Chars(input, k, true) == ManyZ(k)
    decreases k
  {
    if k > 0 {
      ZerosAreZ(input, k - 1);
      assert Group(input, k - 1) == [0, 0, 0, 0];
      assert WordOf([0, 0, 0, 0]) == 0;
    }
  }

  lemma {:induction false} SumOfZ(n: nat)
    ensures UpdateAll(NO_SUMS, ManyZ(n)).sum == Wrap(123 * n)
  {
    if n > 0 {
      SumOfZ(n - 1);
      assert ManyZ(n)[..n - 1] == ManyZ(n - 1);
      WrapTwice(123 * (n - 1), 123);
    }
  }

  const ZEROS := 69_855_324

  /** A file of 69855324 zero bytes does not come back: the sum is negative at the end of line 226803, the remainder is
      -23, and the check character is a line end. */
  lemma ZerosAreUnreadable(input: seq<Byte>)
    requires |input| == ZEROS && forall i :: 0 <= i < |input| ==> input[i] == 0
    ensures !Readable(input)
  {
    hide Chars, UpdateAll, Wrap;
    ZerosAreZ(input, ZEROS / 4);
    var chars, i := ManyZ(ZEROS / 4), 226802;
    SumOfZ(ZEROS / 4);
    assert chars[..Min(Start(true, i + 1), |chars|)] == chars;
    assert i < Lines(|chars|, true);
    TheSum();
    assert !Harmless(SumAt(chars, true, i));
  }

  lemma TheSum()
    ensures Check(Wrap(123 * (ZEROS / 4))) == NL
  {
    assert Wrap(123 * (ZEROS / 4)) == 2_148_051_213 - TWO32;
  }
}
