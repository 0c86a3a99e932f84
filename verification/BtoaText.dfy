/** What a btoa archive looks like: characters, checksums and lines. */
module BtoaText {
  import opened BitOps
  import opened BtoaWords
  import opened Options
  import opened Stdio

  const MAXPERLINE := 78
  const BANG := 33
  const CHAR_Y: Byte := 121
  const CHAR_Z: Byte := 122

  // ---------- Checksums ----------

  /** Ceor, Csum and Crot. */
  datatype Sums = Sums(eor: nat, sum: int, rot: nat)

  const NO_SUMS := Sums(0, 0, 0)

  /** calcchecksum() */
  function Update(s: Sums, ch: Byte): Sums {
    Sums(Xor(s.eor, ch), Wrap(s.sum + ch + 1), (2 * s.rot + (if s.rot >= TWO31 then 1 else 0) + ch) % TWO32)
  }

  function UpdateAll(s: Sums, chars: seq<Byte>): Sums {
    if chars == [] then s else Update(UpdateAll(s, chars[..|chars|-1]), chars[|chars|-1])
  }

  lemma {:induction false} UpdateJoin(s: Sums, a: seq<Byte>, b: seq<Byte>)
    ensures UpdateAll(s, a + b) == UpdateAll(UpdateAll(s, a), b)
  {
    if b == [] {
      assert a + b == a;
    } else {
      assert (a + b)[..|a + b|-1] == a + b[..|b|-1];
      UpdateJoin(s, a, b[..|b|-1]);
    }
  }

  /** The checksum character of a line, as a byte. */
  function Check(sum: int): Byte { (BANG + Remainder85(sum)) % 256 }

  /** A byte read into a signed char. */
  function Signed(b: Byte): int { if b >= 128 then b - 256 else b }

  lemma CheckIsRead(sum: int)
    ensures Signed(Check(sum)) == BANG + Remainder85(sum)
  {
  }

  // ---------- Words ----------

  function WordOf(b: seq<Byte>): (u: nat)
    requires |b| == 4
    ensures u < TWO32
  {
    var b1: int, b2: int, b3: int, b4: int := b[0], b[1], b[2], b[3];
    ((b1 * 256 + b2) * 256 + b3) * 256 + b4
  }

  function LowByte(x: int): Byte { x % 256 }

  /** The four bytes of a signed word, as decode_line() takes them out: `>> 8` rounds down. */
  function BytesOf(codeword: int): (r: seq<Byte>)
    ensures |r| == 4
  {
    [LowByte(codeword / 256 / 256 / 256), LowByte(codeword / 256 / 256), LowByte(codeword / 256), LowByte(codeword)]
  }

  lemma BytesBack(b: seq<Byte>)
    requires |b| == 4
    ensures BytesOf(Wrap(WordOf(b))) == b
  {
    var b1: int, b2: int, b3: int, b4: int := b[0], b[1], b[2], b[3];
    Shifted((b1 * 256 + b2) * 256 + b3, b4);
    Shifted(b1 * 256 + b2, b3);
    Shifted(b1, b2);
    Unsigned(b, b1, b2, b3, b4);
    hide WordOf, BytesOf;
    if WordOf(b) >= TWO31 { SignedBytes(WordOf(b)); } else { assert Wrap(WordOf(b)) == WordOf(b); }
  }

  lemma Unsigned(b: seq<Byte>, b1: int, b2: int, b3: int, b4: int)
    requires |b| == 4 && b1 == b[0] && b2 == b[1] && b3 == b[2] && b4 == b[3]
    requires ((b1 * 256 + b2) * 256 + b3) * 256 + b4 == WordOf(b)
    requires WordOf(b) / 256 == (b1 * 256 + b2) * 256 + b3 && LowByte(WordOf(b)) == b4
    requires WordOf(b) / 256 / 256 == b1 * 256 + b2 && LowByte(WordOf(b) / 256) == b3
    requires WordOf(b) / 256 / 256 / 256 == b1 && LowByte(WordOf(b) / 256 / 256) == b2
    ensures BytesOf(WordOf(b)) == b
  {
    hide WordOf;
  }

  lemma Shifted(x: int, d: int)
    requires 0 <= d < 256
    ensures (x * 256 + d) / 256 == x && LowByte(x * 256 + d) == d
  {
  }

  lemma SignedBytes(u: nat)
    requires TWO31 <= u < TWO32
    ensures BytesOf(u - TWO32) == BytesOf(u) && Wrap(u) == u - TWO32
  {
    assert (u - TWO32) / 256 == u / 256 - 0x100_0000;
    assert (u / 256 - 0x100_0000) / 256 == u / 256 / 256 - 0x1_0000;
    assert (u / 256 / 256 - 0x1_0000) / 256 == u / 256 / 256 / 256 - 0x100;
  }

  /** The characters wordout() writes for a word. */
  function WordChars(u: nat, isNew: bool): (r: seq<Byte>)
    requires u < TWO32
  {
    if u == 0 then [CHAR_Z]
    else if isNew && u == 0x20202020 then [CHAR_Y]
    else DigitChars(Digits(u))
  }

  function DigitChars(d: seq<nat>): seq<Byte>
    requires forall i :: 0 <= i < |d| ==> d[i] < 85
  {
    seq(|d|, i requires 0 <= i < |d| => BANG + d[i])
  }

  /** The k-th group of four bytes, the last filled up with zeros. */
  function Group(input: seq<Byte>, k: nat): (r: seq<Byte>)
    ensures |r| == 4
  {
    [At(input, 4 * k), At(input, 4 * k + 1), At(input, 4 * k + 2), At(input, 4 * k + 3)]
  }

  function At(input: seq<Byte>, i: nat): Byte { if i < |input| then input[i] else 0 }

  function Groups(n: nat): nat { (n + 3) / 4 }

  /** The characters of the first k groups. */
  function Chars(input: seq<Byte>, k: nat, isNew: bool): seq<Byte> {
    if k == 0 then [] else Chars(input, k - 1, isNew) + WordChars(WordOf(Group(input, k - 1)), isNew)
  }

  /** The bytes of the first k groups. */
  function GroupBytes(input: seq<Byte>, k: nat): (r: seq<Byte>)
    ensures |r| == 4 * k
  {
    if k == 0 then [] else GroupBytes(input, k - 1) + Group(input, k - 1)
  }

  lemma {:induction false} GroupBytesAre(input: seq<Byte>, k: nat)
    requires 4 * k <= |input|
    ensures GroupBytes(input, k) == input[..4 * k]
    decreases k
  {
    if k > 0 { GroupBytesAre(input, k - 1); }
  }

  // ---------- Lines ----------

  /** How many characters stand before line i. */
  function Start(isNew: bool, i: nat): nat { if isNew then (MAXPERLINE - 1) * i else MAXPERLINE * i }

  function Min(a: nat, b: nat): nat { if a < b then a else b }

  /** The i-th line's characters. */
  function LineAt(chars: seq<Byte>, isNew: bool, i: nat): seq<Byte>
    requires Start(isNew, i) <= |chars|
  {
    chars[Start(isNew, i)..Min(Start(isNew, i + 1), |chars|)]
  }

  /** The running sum at the end of line i. */
  function SumAt(chars: seq<Byte>, isNew: bool, i: nat): int {
    UpdateAll(NO_SUMS, chars[..Min(Start(isNew, i + 1), |chars|)]).sum
  }

  /** A line as it is written, given the sum at its end. */
  function Written(line: seq<Byte>, isNew: bool, sum: int): seq<Byte> {
    line + (if isNew then [Check(sum)] else []) + [NL]
  }

  /** The first k lines of the archive for these characters. */
  function Body(chars: seq<Byte>, isNew: bool, k: nat): seq<Byte>
    requires k > 0 ==> Start(isNew, k - 1) <= |chars|
  {
    if k == 0 then [] else Body(chars, isNew, k - 1) + Written(LineAt(chars, isNew, k - 1), isNew, SumAt(chars, isNew, k - 1))
  }

  function Lines(n: nat, isNew: bool): nat {
    if isNew then (n + MAXPERLINE - 2) / (MAXPERLINE - 1) else (n + MAXPERLINE - 1) / MAXPERLINE
  }

  lemma {:induction false} BodyStays(chars: seq<Byte>, c: Byte, isNew: bool, k: nat)
    requires Start(isNew, k) <= |chars|
    ensures Body(chars + [c], isNew, k) == Body(chars, isNew, k)
    decreases k
  {
    if k > 0 {
      hide Written, LineAt, SumAt, UpdateAll;
      BodyStays(chars, c, isNew, k - 1);
      LineStays(chars, c, isNew, k - 1);
    }
  }

  lemma LineStays(chars: seq<Byte>, c: Byte, isNew: bool, i: nat)
    requires Start(isNew, i + 1) <= |chars|
    ensures LineAt(chars + [c], isNew, i) == LineAt(chars, isNew, i) && SumAt(chars + [c], isNew, i) == SumAt(chars, isNew, i)
  {
    assert (chars + [c])[..Start(isNew, i + 1)] == chars[..Start(isNew, i + 1)];
  }

  /** The archive: what is between its header and its last line, and the numbers of its last line. */
  datatype Archive = Archive(isNew: bool, body: seq<Byte>, size: nat, sums: Sums)

  /** The archive of a file. */
  function Encoded(input: seq<Byte>, isNew: bool): Archive {
    var chars := Chars(input, Groups(|input|), isNew);
    Archive(isNew, Body(chars, isNew, Lines(|chars|, isNew)), |input|, SumsUpTo(input, Groups(|input|), isNew))
  }

  /** The checksums after k groups: over the characters in the new format, over the bytes in the old. */
  function SumsUpTo(input: seq<Byte>, k: nat, isNew: bool): Sums {
    UpdateAll(NO_SUMS, if isNew then Chars(input, k, isNew) else GroupBytes(input, k))
  }
}
