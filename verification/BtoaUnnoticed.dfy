/** Two files of twenty-eight bytes whose archives differ in one digit and have the same sums. */
module BtoaUnnoticed {
  import opened BitOps
  import opened Gf2
  import opened BtoaWords
  import opened BtoaText
  import opened Btoa
  import opened Atob
  import opened BtoaRound
  import opened BtoaCheck
  import opened BtoaDamage
  import opened Options
  import opened Stdio

  const BEGIN: seq<Byte> := [0, 2, 254, 254, 254, 254, 254, 254, 254, 254, 254, 254, 254, 254, 254, 254, 255, 254, 255, 255, 255, 255, 254, 255, 2, 255]
  const FILE: seq<Byte> := BEGIN + [0, 1]
  const OTHER: seq<Byte> := BEGIN + [1, 0]

  /** The rotated sum alone. */
  function RotAll(chars: seq<Byte>): nat {
    if chars == [] then 0 else (2 * RotAll(chars[..|chars|-1]) + Top(RotAll(chars[..|chars|-1])) + chars[|chars|-1]) % TWO32
  }

  lemma {:induction false} RotOfAll(chars: seq<Byte>)
    ensures UpdateAll(NO_SUMS, chars).rot == RotAll(chars)
  {
    if chars != [] {
      hide Xor, Wrap;
      RotOfAll(chars[..|chars|-1]);
    }
  }

  lemma OneRot(before: seq<Byte>, c: Byte, rot: nat)
    requires RotAll(before) == rot
    ensures RotAll(before + [c]) == (2 * rot + Top(rot) + c) % TWO32
  {
    assert (before + [c])[..|before|] == before;
  }

  function Many(n: nat): seq<Byte> { seq(n, _ => 254) }

  lemma {:induction false} Doubling(n: nat)
    requires n <= 14
    ensures RotAll([0, 2] + Many(n)) == 256 * Pow2(n) - 254
  {
    hide RotAll, Pow2;
    if n == 0 {
      FirstTwo();
    } else {
      Doubling(n - 1);
      assert [0, 2] + Many(n) == [0, 2] + Many(n - 1) + [254];
      NoTop(n - 1);
      OneRot([0, 2] + Many(n - 1), 254, 256 * Pow2(n - 1) - 254);
    }
  }

  lemma FirstTwo()
    ensures RotAll([0, 2] + Many(0)) == 256 * Pow2(0) - 254
  {
    assert [0, 2] + Many(0) == [0, 2];
    assert [0, 2][..1] == [0] && [0][..0] == [];
  }

  lemma PowersSmall()
    ensures Pow2(14) == 16384
  {
    assert Pow2(4) == 16 && Pow2(8) == 256 && Pow2(12) == 4096;
  }

  lemma {:induction false} NoTop(n: nat)
    requires n <= 14
    ensures 1 <= Pow2(n) <= 16384 && Pow2(n + 1) == 2 * Pow2(n)
  {
    PowersSmall();
    assert Pow2(4) == 16 && Pow2(8) == 256 && Pow2(12) == 4096;
  }

  lemma NextRot(n: nat, c: Byte, rot: nat)
    requires n < |BEGIN| && BEGIN[n] == c && RotAll(BEGIN[..n]) == rot
    ensures RotAll(BEGIN[..n + 1]) == (2 * rot + Top(rot) + c) % TWO32
  {
    hide RotAll, BEGIN;
    assert BEGIN[..n + 1] == BEGIN[..n] + [c];
    OneRot(BEGIN[..n], c, rot);
  }

  lemma BeginIs()
    ensures |BEGIN| == 26 && BEGIN[..16] == [0, 2] + Many(14)
    ensures BEGIN[16] == 255 && BEGIN[17] == 254 && BEGIN[18] == 255 && BEGIN[19] == 255 && BEGIN[20] == 255
    ensures BEGIN[21] == 255 && BEGIN[22] == 254 && BEGIN[23] == 255 && BEGIN[24] == 2 && BEGIN[25] == 255
  {
  }

  /** All bits of the rotated sum are set when the two bytes come. */
  lemma AllBitsSet()
    ensures RotAll(BEGIN) == TWO32 - 1
  {
    hide RotAll, Pow2, BEGIN, Many;
    PowersSmall();
    Doubling(14);
    BeginIs();
    NextRot(16, 255, 4194050);
    NextRot(17, 254, 8388355);
    NextRot(18, 255, 16776964);
    NextRot(19, 255, 33554183);
    NextRot(20, 255, 67108621);
    NextRot(21, 255, 134217497);
    NextRot(22, 254, 268435249);
    NextRot(23, 255, 536870752);
    NextRot(24, 2, 1073741759);
    NextRot(25, 255, 2147483520);
    assert BEGIN[..26] == BEGIN;
  }

  /** Then 0 and 1 and the other way round have the same sums. */
  lemma SameSums()
    ensures UpdateAll(NO_SUMS, FILE) == UpdateAll(NO_SUMS, OTHER)
  {
    AllBitsSet();
    RotOfAll(BEGIN);
    var s := UpdateAll(NO_SUMS, BEGIN);
    UpdateOne(NO_SUMS, BEGIN, 0);
    UpdateOne(NO_SUMS, BEGIN + [0], 1);
    UpdateOne(NO_SUMS, BEGIN, 1);
    UpdateOne(NO_SUMS, BEGIN + [1], 0);
    assert FILE == BEGIN + [0] + [1] && OTHER == BEGIN + [1] + [0];
    hide UpdateAll, BEGIN, RotAll;
    TwoUpdates(s);
  }

  lemma TwoUpdates(s: Sums)
    requires s.rot == TWO32 - 1
    ensures Update(Update(s, 0), 1) == Update(Update(s, 1), 0)
  {
    XorSwap(s.eor, 0);
    XorSwap(s.eor, 1);
    XorSwap(Xor(s.eor, 1), 0);
    hide Xor;
    WrapTwice(s.sum + 1, 2);
    WrapTwice(s.sum + 2, 1);
  }

  // ---------- The archives ----------

  /** The first six words are the same, and have five digits each. */
  lemma {:induction false} SameWords(k: nat)
    requires k <= 6
    ensures Chars(FILE, k, false) == Chars(OTHER, k, false) && |Chars(FILE, k, false)| == 5 * k
  {
    if k > 0 {
      SameWords(k - 1);
      SameGroup(k - 1);
      hide Group, WordOf, Digits, FILE, OTHER;
    }
  }

  lemma SameGroup(k: nat)
    requires k < 6
    ensures Group(FILE, k) == Group(OTHER, k) && WordOf(Group(FILE, k)) > 0
  {
    assert FILE[1] == 2 && FILE[4 * k + 2] > 0;
    assert forall i :: 0 <= i < 24 ==> FILE[i] == OTHER[i];
  }

  /** In the seventh word, one digit is not the same. */
  lemma LastWords()
    ensures WordChars(WordOf(Group(FILE, 6)), false) == DigitChars([0, 81, 72, 21, 3])
    ensures WordChars(WordOf(Group(OTHER, 6)), false) == DigitChars([0, 81, 72, 24, 3])
  {
    assert Group(FILE, 6) == [2, 255, 0, 1] && Group(OTHER, 6) == [2, 255, 1, 0];
    assert WordOf([2, 255, 0, 1]) == 50266113 && WordOf([2, 255, 1, 0]) == 50266368;
    assert Digits(50266113) == [0, 81, 72, 21, 3] && Digits(50266368) == [0, 81, 72, 24, 3];
  }

  lemma OneLine(input: seq<Byte>)
    requires |input| == 28 && |Chars(input, 7, false)| == 35
    ensures Encoded(input, false) == Archive(false, Chars(input, 7, false) + [NL], 28, UpdateAll(NO_SUMS, input))
  {
    hide Chars, UpdateAll, GroupBytes;
    var chars := Chars(input, 7, false);
    assert Groups(28) == 7 && Lines(35, false) == 1 && LineAt(chars, false, 0) == chars;
    assert Body(chars, false, 1) == Body(chars, false, 0) + (chars + [] + [NL]);
    GroupBytesAre(input, 7);
    assert input[..28] == input;
  }

  const NEW_DIGIT: Byte := BANG + 24

  /** The archive of one file with a digit replaced is the archive of the other. */
  lemma OneArchive()
    ensures var a, b := Encoded(FILE, false), Encoded(OTHER, false);
      |a.body| == 36 && IsDigit(a.body[33]) && a.body[33] != NEW_DIGIT && a.(body := a.body[33 := NEW_DIGIT]) == b
  {
    SameWords(6);
    LastWords();
    SameSums();
    var x := Chars(FILE, 6, false);
    assert Chars(FILE, 7, false) == x + DigitChars([0, 81, 72, 21, 3]) && Chars(OTHER, 7, false) == x + DigitChars([0, 81, 72, 24, 3]);
    hide Chars, UpdateAll, Encoded, Group, WordOf, Digits;
    OneLine(FILE);
    OneLine(OTHER);
    Replaced(x);
  }

  lemma Replaced(x: seq<Byte>)
    requires |x| == 30
    ensures var u, v := x + DigitChars([0, 81, 72, 21, 3]) + [NL], x + DigitChars([0, 81, 72, 24, 3]) + [NL];
      |u| == 36 && u[33] == BANG + 21 && u[33 := NEW_DIGIT] == v
  {
  }

  /** One digit of an archive is replaced, and atob gives the other file without a word. */
  method UnnoticedDigit() returns (was: Option<seq<Byte>>, now: Option<seq<Byte>>)
    ensures was == Some(FILE) && now == Some(OTHER) && FILE != OTHER
  {
    hide Encoded, Sound, Contents;
    var e := new Btoa.Encoder(false);
    var a := e.Encode(FILE);
    OneArchive();
    EncodedIsSound(FILE, false);
    EncodedIsSound(OTHER, false);
    assert FILE[26] != OTHER[26];
    was := Decode(a);
    now := Decode(a.(body := a.body[33 := NEW_DIGIT]));
  }
}
