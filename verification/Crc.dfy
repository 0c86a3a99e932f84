/** crc: the table-driven checksum is the remainder of the message's polynomial. */
module Crc {
  import opened BitOps
  import opened Gf2
  import opened CrcTable
  import opened Stdio

  /** x^16 + x^12 + x^5 + 1 */
  const GENERATOR: nat := 0x11021

  /** The message as a polynomial, its first bit the highest coefficient. */
  function Poly(msg: seq<Byte>): nat {
    if msg == [] then 0 else 256 * Poly(msg[..|msg|-1]) + msg[|msg|-1]
  }

  /** updcrc */
  function Updated(c: Byte, crc: nat): nat
    requires crc < TOP
  {
    Xor(Xor(Table(crc / 256 % 256), crc * 256 % TOP), c)
  }

  function Checksum(msg: seq<Byte>): (r: nat)
    ensures r < TOP
  {
    if msg == [] then 0 else
    var crc := Checksum(msg[..|msg|-1]);
    UpdatedFits(msg[|msg|-1], crc);
    Updated(msg[|msg|-1], crc)
  }

  ghost predicate IsRemainder(m: nat, r: nat) { r < TOP && Congruent(m, r, GENERATOR) }

  // ---------- The table ----------

  lemma Powers()
    ensures Pow2(0) == 1 && Pow2(5) == 32 && Pow2(8) == 256 && Pow2(12) == 4096 && Pow2(15) == 0x8000 && Pow2(16) == TOP
  {
    assert Pow2(4) == 16 && Pow2(10) == 1024;
  }

  lemma TableFits(i: nat)
    requires i < 256
    ensures Table(i) < TOP
  {
    hide Table;
    TableDoubles(i / 2);
  }

  lemma UpdatedFits(c: Byte, crc: nat)
    requires crc < TOP
    ensures Updated(c, crc) < TOP
  {
    hide Table, Xor, Pow2;
    Powers();
    TableFits(crc / 256 % 256);
    XorBound(Table(crc / 256 % 256), crc * 256 % TOP, 16);
    XorBound(Xor(Table(crc / 256 % 256), crc * 256 % TOP), c, 16);
  }

  /** One bit of a small number. */
  lemma {:induction false} BitIs(x: nat, k: nat)
    ensures BitAt(x, k) <==> x / Pow2(k) % 2 == 1
  {
    if k > 0 {
      BitIs(x / 2, k - 1);
      HalfFirst(x, Pow2(k - 1));
    }
  }

  lemma HalfFirst(x: nat, p: nat)
    requires p > 0
    ensures x / 2 / p == x / (2 * p)
  {
    var q := x / (2 * p);
    var r := x % (2 * p);
    assert x == 2 * (p * q) + r by { assert x == (2 * p) * q + r; assert (2 * p) * q == 2 * (p * q); }
    assert x / 2 == p * q + r / 2 && r / 2 < p;
    QuotientIs(x / 2, p, q, r / 2);
  }

  lemma QuotientIs(x: nat, p: nat, q: nat, r: nat)
    requires x == p * q + r && r < p
    ensures x / p == q
  {
    if x / p < q {
      Grows(p, x / p + 1, q);
    } else if x / p > q {
      Grows(p, q + 1, x / p);
    }
    assert x == p * (x / p) + x % p;
  }

  lemma Grows(p: nat, a: nat, b: nat)
    requires a <= b
    ensures p * a <= p * b
  {
  }

  const LOW: nat := 0x1021

  /** The three flips add the generator's low terms. */
  lemma PlusIsXor(r: nat)
    ensures Plus(r) >= 0 && Plus(r) == Xor(r, LOW)
  {
    hide Xor, BitAt, Pow2;
    Powers();
    XorBit(r, 12);
    BitIs(r, 12);
    var a: nat := Flip12(r);
    assert a == Xor(r, 4096);
    XorBit(a, 5);
    BitIs(a, 5);
    var b: nat := Flip5(a);
    assert b == Xor(a, 32);
    XorBit(b, 0);
    BitIs(b, 0);
    XorJoin(r, 4096, 32);
    XorJoin(r, Xor(4096, 32), 1);
    LowTerms();
  }

  lemma LowTerms()
    ensures Xor(Xor(4096, 32), 1) == LOW
  {
    Powers();
    XorIsSum(128, 32, 5 + 1);
    XorIsSum(4128, 1, 0 + 1);
  }

  lemma GeneratorIs(r: nat)
    requires r < TOP
    ensures Xor(TOP + r, GENERATOR) == Xor(r, LOW)
    ensures Congruent(TOP, LOW, GENERATOR)
  {
    hide Xor, Pow2;
    Powers();
    XorIsSum(1, r, 16);
    XorIsSum(1, LOW, 16);
    XorSwap(TOP, r);
    XorFour(r, TOP, TOP, LOW);
    XorFour(TOP, r, TOP, LOW);
    XorSelf(TOP);
    ZeroFirst(Xor(r, LOW));
    CongruentTop();
  }

  lemma ZeroFirst(x: nat)
    ensures Xor(0, x) == x && Xor(x, 0) == x
  {
  }

  lemma CongruentTop()
    requires Xor(TOP, LOW) == GENERATOR
    ensures Congruent(TOP, LOW, GENERATOR)
  {
    hide Xor;
    TimesOne();
    XorSwap(GENERATOR, LOW);
    XorSwap(TOP, LOW);
    XorBack(LOW, TOP);
    assert TOP == Xor(Times(1, GENERATOR), LOW);
  }

  lemma TimesOne()
    ensures Times(1, GENERATOR) == GENERATOR
  {
    assert Times(0, GENERATOR) == 0;
  }

  /** Doubling and reducing. */
  lemma ShiftedIsCongruent(r: nat)
    requires r < TOP
    ensures Shifted(r) >= 0 && Congruent(2 * r, Shifted(r), GENERATOR)
  {
    hide Xor, Plus, Congruent, Pow2;
    if r < 0x8000 {
      CongruentSelf(2 * r, GENERATOR);
    } else {
      var s := 2 * r - TOP;
      PlusIsXor(s);
      GeneratorIs(s);
      Powers();
      XorIsSum(1, s, 16);
      CongruentPlus(TOP, LOW, s, GENERATOR);
      XorSwap(LOW, s);
    }
  }

  /** Each entry of the table is the remainder of its place shifted by sixteen. */
  lemma {:induction false} TableRight(i: nat)
    requires i < 256
    ensures IsRemainder(TOP * i, Table(i))
    decreases i
  {
    hide *;
    if i == 0 {
      FirstEntry();
    } else {
      TableRight(i / 2);
      NextEntries(i / 2);
      assert i == 2 * (i / 2) || i == 2 * (i / 2) + 1;
    }
  }

  lemma FirstEntry()
    ensures IsRemainder(TOP * 0, Table(0))
  {
    CongruentSelf(0, GENERATOR);
  }

  lemma NextEntries(j: nat)
    requires j < 128 && IsRemainder(TOP * j, Table(j))
    ensures IsRemainder(TOP * (2 * j), Table(2 * j)) && IsRemainder(TOP * (2 * j + 1), Table(2 * j + 1))
  {
    hide Table, Congruent, Shifted, Plus, Pow2;
    TableDoubles(j);
    ShiftedIsCongruent(Table(j));
    CongruentDouble(TOP * j, Table(j), GENERATOR);
    CongruentTrans(2 * (TOP * j), 2 * Table(j), Table(2 * j), GENERATOR);
    OddEntry(j);
  }

  lemma OddEntry(j: nat)
    requires j < 128 && Congruent(2 * (TOP * j), Table(2 * j), GENERATOR) && Table(2 * j + 1) == Plus(Table(2 * j))
    ensures Congruent(TOP * (2 * j + 1), Table(2 * j + 1), GENERATOR)
  {
    hide Table, Congruent, Plus, Xor, Pow2;
    PlusIsXor(Table(2 * j));
    GeneratorIs(0);
    CongruentSum(2 * (TOP * j), Table(2 * j), TOP, LOW, GENERATOR);
    Powers();
    OnePower(16);
    XorIsSum(j, TOP, 17);
    assert Pow2(17) * j == 2 * (TOP * j);
  }

  lemma OnePower(k: nat)
    ensures Pow2(k + 1) == 2 * Pow2(k)
  {
  }

  // ---------- Messages ----------

  /** One byte more. */
  lemma UpdatedRight(m: nat, crc: nat, c: Byte)
    requires IsRemainder(m, crc)
    ensures IsRemainder(256 * m + c, Updated(c, crc))
  {
    hide Table, Congruent, Xor, Pow2;
    UpdatedFits(c, crc);
    CongruentByte(m, crc);
    Split(crc);
    var h, low: nat := crc / 256, crc * 256 % TOP;
    TableRight(h);
    CongruentPlus(TOP * h, Table(h), low, GENERATOR);
    CongruentTrans(256 * m, 256 * crc, Xor(Table(h), low), GENERATOR);
    CongruentPlus(256 * m, Xor(Table(h), low), c, GENERATOR);
    Powers();
    XorIsSum(m, c, 8);
  }

  lemma CongruentByte(m: nat, r: nat)
    requires Congruent(m, r, GENERATOR)
    ensures Congruent(256 * m, 256 * r, GENERATOR)
  {
    hide Congruent;
    CongruentDouble(m, r, GENERATOR);
    CongruentDouble(2 * m, 2 * r, GENERATOR);
    CongruentDouble(4 * m, 4 * r, GENERATOR);
    CongruentDouble(8 * m, 8 * r, GENERATOR);
    CongruentDouble(16 * m, 16 * r, GENERATOR);
    CongruentDouble(32 * m, 32 * r, GENERATOR);
    CongruentDouble(64 * m, 64 * r, GENERATOR);
    CongruentDouble(128 * m, 128 * r, GENERATOR);
  }

  lemma Split(crc: nat)
    requires crc < TOP
    ensures crc / 256 < 256 && 256 * crc == Xor(TOP * (crc / 256), crc * 256 % TOP)
  {
    hide Xor, Pow2;
    Powers();
    assert 256 * crc == TOP * (crc / 256) + crc * 256 % TOP;
    XorIsSum(crc / 256, crc * 256 % TOP, 16);
  }

  lemma {:induction false} ChecksumIsRemainder(msg: seq<Byte>)
    ensures IsRemainder(Poly(msg), Checksum(msg))
  {
    if msg == [] {
      CongruentSelf(0, GENERATOR);
    } else {
      hide Congruent, Updated;
      ChecksumIsRemainder(msg[..|msg|-1]);
      UpdatedRight(Poly(msg[..|msg|-1]), Checksum(msg[..|msg|-1]), msg[|msg|-1]);
    }
  }

  /** crc(): the remainder of the file's polynomial, and its length. */
  method Crc(file: seq<Byte>) returns (crc: nat, len: nat)
    ensures IsRemainder(Poly(file), crc) && crc == Checksum(file) && len == |file|
  {
    hide Updated, IsRemainder;
    crc, len := 0, 0;
    while len < |file|
      invariant 0 <= len <= |file| && crc < TOP && crc == Checksum(file[..len])
    {
      var c := file[len];
      UpdatedFits(c, crc);
      assert file[..len + 1][..len] == file[..len];
      len := len + 1;
      crc := Updated(c, crc);
    }
    assert file[..len] == file;
    ChecksumIsRemainder(file);
  }

  /** There is only one remainder. */
  lemma OnlyChecksum(msg: seq<Byte>, r: nat)
    ensures IsRemainder(Poly(msg), r) <==> r == Checksum(msg)
  {
    hide Congruent, Checksum, Poly, Pow2;
    ChecksumIsRemainder(msg);
    Powers();
    if IsRemainder(Poly(msg), r) { RemainderUnique(Poly(msg), r, Checksum(msg), GENERATOR, 16); }
  }

  // ---------- Two messages ----------

  function XorAll(a: seq<Byte>, b: seq<Byte>): (r: seq<Byte>)
    requires |a| == |b|
    ensures |r| == |a|
  {
    if a == [] then [] else
    XorByte(a[|a|-1], b[|a|-1]);
    XorAll(a[..|a|-1], b[..|a|-1]) + [Xor(a[|a|-1], b[|a|-1])]
  }

  lemma XorByte(x: Byte, y: Byte)
    ensures Xor(x, y) < 256
  {
    hide Xor, Pow2;
    Powers();
    XorBound(x, y, 8);
  }

  lemma {:induction false} PolyAdds(a: seq<Byte>, b: seq<Byte>)
    requires |a| == |b|
    ensures Poly(XorAll(a, b)) == Xor(Poly(a), Poly(b))
  {
    hide *;
    if a == [] {
      NothingAdded();
    } else {
      var n := |a| - 1;
      PolyAdds(a[..n], b[..n]);
      OneByteAdded(a, b);
      AddBytes(Poly(a[..n]), Poly(b[..n]), a[n], b[n]);
    }
  }

  lemma NothingAdded()
    ensures Poly(XorAll([], [])) == Xor(Poly([]), Poly([]))
  {
  }

  lemma OneByteAdded(a: seq<Byte>, b: seq<Byte>)
    requires |a| == |b| > 0
    ensures var n := |a| - 1;
      && Poly(a) == 256 * Poly(a[..n]) + a[n] && Poly(b) == 256 * Poly(b[..n]) + b[n]
      && Poly(XorAll(a, b)) == 256 * Poly(XorAll(a[..n], b[..n])) + Xor(a[n], b[n])
  {
    hide Xor;
    var n := |a| - 1;
    XorByte(a[n], b[n]);
    var s := XorAll(a[..n], b[..n]);
    assert (s + [XorAll(a, b)[n]])[..n] == s;
  }

  lemma AddBytes(p: nat, q: nat, x: Byte, y: Byte)
    ensures Xor(256 * p + x, 256 * q + y) == 256 * Xor(p, q) + Xor(x, y)
  {
    hide Xor, Pow2;
    Powers();
    XorByte(x, y);
    XorIsSum(p, x, 8);
    XorIsSum(q, y, 8);
    XorIsSum(Xor(p, q), Xor(x, y), 8);
    XorFour(256 * p, x, 256 * q, y);
    XorDouble(p, q);
    XorDouble(2 * p, 2 * q);
    XorDouble(4 * p, 4 * q);
    XorDouble(8 * p, 8 * q);
    XorDouble(16 * p, 16 * q);
    XorDouble(32 * p, 32 * q);
    XorDouble(64 * p, 64 * q);
    XorDouble(128 * p, 128 * q);
  }

  /** The checksum of a sum is the sum of the checksums. */
  lemma Linear(a: seq<Byte>, b: seq<Byte>)
    requires |a| == |b|
    ensures Checksum(XorAll(a, b)) == Xor(Checksum(a), Checksum(b))
  {
    hide Congruent, Checksum, Poly, XorAll, Pow2, Xor;
    ChecksumIsRemainder(a);
    ChecksumIsRemainder(b);
    PolyAdds(a, b);
    CongruentSum(Poly(a), Checksum(a), Poly(b), Checksum(b), GENERATOR);
    Powers();
    XorBound(Checksum(a), Checksum(b), 16);
    OnlyChecksum(XorAll(a, b), Xor(Checksum(a), Checksum(b)));
  }

  /** Exactly the multiples of the generator are differences that the checksum does not show, whatever the lengths. */
  lemma SameChecksum(a: seq<Byte>, b: seq<Byte>)
    ensures Checksum(a) == Checksum(b) <==> Congruent(Xor(Poly(a), Poly(b)), 0, GENERATOR)
  {
    hide Congruent, Checksum, Poly, Pow2, Xor;
    ChecksumIsRemainder(a);
    ChecksumIsRemainder(b);
    CongruentSum(Poly(a), Checksum(a), Poly(b), Checksum(b), GENERATOR);
    DifferenceOfSums(Checksum(a), Checksum(b), Xor(Poly(a), Poly(b)));
  }

  lemma DifferenceOfSums(x: nat, y: nat, d: nat)
    requires x < TOP && y < TOP && Congruent(d, Xor(x, y), GENERATOR)
    ensures x == y <==> Congruent(d, 0, GENERATOR)
  {
    hide Congruent, Pow2, Xor;
    Powers();
    XorBound(x, y, 16);
    XorSelf(x);
    if Congruent(d, 0, GENERATOR) {
      RemainderUnique(d, Xor(x, y), 0, GENERATOR, 16);
      XorIsZero(x, y);
    }
  }

  /** Zero bytes at the front are not noticed. */
  lemma {:induction false} LeadingZeros(n: nat, msg: seq<Byte>)
    ensures Checksum(seq(n, _ => 0) + msg) == Checksum(msg)
  {
    hide Checksum, Congruent;
    PolyOfZeros(n, msg);
    ChecksumIsRemainder(msg);
    OnlyChecksum(seq(n, _ => 0) + msg, Checksum(msg));
  }

  lemma {:induction false} PolyOfZeros(n: nat, msg: seq<Byte>)
    ensures Poly(seq(n, _ => 0) + msg) == Poly(msg)
    decreases n + |msg|
  {
    var zeros := seq(n, _ => 0);
    if msg != [] {
      PolyOfZeros(n, msg[..|msg|-1]);
      assert (zeros + msg)[..n + |msg| - 1] == zeros + msg[..|msg|-1];
    } else if n > 0 {
      PolyOfZeros(n - 1, []);
      assert (zeros + msg)[..n - 1] == seq(n - 1, _ => 0) + [];
    }
  }

  lemma {:induction false} PolyInjective(a: seq<Byte>, b: seq<Byte>)
    requires |a| == |b| && Poly(a) == Poly(b)
    ensures a == b
  {
    if a != [] {
      var n := |a| - 1;
      PolyInjective(a[..n], b[..n]);
      assert a == a[..n] + [a[n]] && b == b[..n] + [b[n]];
    }
  }

  /** The messages differ, and only in the sixteen bits from k on. */
  ghost predicate Burst(a: seq<Byte>, b: seq<Byte>, k: nat) {
    a != b && forall i: nat :: BitAt(Poly(a), i) != BitAt(Poly(b), i) ==> k <= i < k + 16
  }

  lemma {:induction false} BelowSomePower(x: nat)
    ensures exists w: nat :: x < Pow2(w)
  {
    if x == 0 {
      assert 0 < Pow2(0);
    } else {
      BelowSomePower(x - 1);
      var w: nat :| x - 1 < Pow2(w);
      assert x < Pow2(w + 1);
    }
  }

  lemma {:induction false} PowerGrows(k: nat, w: nat)
    requires k <= w
    ensures Pow2(k) <= Pow2(w)
  {
    if k < w { PowerGrows(k, w - 1); }
  }

  /** A number whose bits are all among sixteen is small and shifted. */
  lemma OnlySixteen(d: nat, k: nat)
    requires forall i: nat :: BitAt(d, i) ==> k <= i < k + 16
    ensures Shr(d, k) < TOP && d == Shl(Shr(d, k), k)
  {
    hide BitAt, Pow2, Shr, Shl;
    var e := Shr(d, k);
    SmallBits(e, d, k);
    Powers();
    BelowSomePower(d);
    var w: nat :| d < Pow2(w);
    ShlBound(e, k, 16);
    PowerGrows(w, w + k + 16);
    PowerGrows(k + 16, w + k + 16);
    forall i: nat | i < w + k + 16 ensures BitAt(d, i) == BitAt(Shl(e, k), i) {
      BitOfShl(e, k, i);
      if k <= i { BitOfShr(d, k, i - k); }
    }
    BitsDetermine(d, Shl(e, k), w + k + 16);
  }

  lemma SmallBits(e: nat, d: nat, k: nat)
    requires e == Shr(d, k) && forall i: nat :: BitAt(d, i) ==> k <= i < k + 16
    ensures e < Pow2(16)
  {
    hide BitAt, Pow2, Shr, Shl;
    BelowSomePower(e);
    var w: nat :| e < Pow2(w);
    LowBits(e, 16);
    PowerGrows(w, w + 16);
    PowerGrows(16, w + 16);
    var low := e % Pow2(16);
    forall i: nat | i < w + 16 ensures BitAt(e, i) == BitAt(low, i) {
      BitOfShr(d, k, i);
      if i >= 16 { HighBitsClear(low, 16, i); }
    }
    BitsDetermine(e, low, w + 16);
  }

  lemma {:induction false} LowBits(e: nat, k: nat)
    ensures e % Pow2(k) < Pow2(k) && forall i: nat :: i < k ==> BitAt(e % Pow2(k), i) == BitAt(e, i)
  {
    if k > 0 {
      var p := Pow2(k - 1);
      LowBits(e / 2, k - 1);
      Remainders(e, p);
      forall i: nat | i < k ensures BitAt(e % Pow2(k), i) == BitAt(e, i) {
        if i > 0 { assert BitAt(e / 2 % p, i - 1) == BitAt(e / 2, i - 1); }
      }
    }
  }

  lemma Remainders(e: nat, p: nat)
    requires p > 0
    ensures e % (2 * p) / 2 == e / 2 % p && e % (2 * p) % 2 == e % 2
  {
    HalfFirst(e, p);
    var q, r := e / (2 * p), e % (2 * p);
    assert e == (2 * p) * q + r;
    assert (2 * p) * q == 2 * (p * q);
    assert e / 2 == p * (e / 2 / p) + e / 2 % p;
  }

  /** A burst of at most sixteen bits changes the checksum. */
  lemma BurstIsNoticed(a: seq<Byte>, b: seq<Byte>, k: nat)
    requires |a| == |b| && Burst(a, b, k)
    ensures Checksum(a) != Checksum(b)
  {
    hide Checksum, Poly, BitAt, Pow2, Xor, Shl, Shr, Times;
    var d := Xor(Poly(a), Poly(b));
    forall i: nat | BitAt(d, i) ensures k <= i < k + 16 { BitOfXor(Poly(a), Poly(b), i); }
    OnlySixteen(d, k);
    SameChecksum(a, b);
    if Checksum(a) == Checksum(b) {
      var e := Shr(d, k);
      ShiftIsDivided(e, k, GENERATOR);
      CongruentSelf(e, GENERATOR);
      Powers();
      RemainderUnique(e, e, 0, GENERATOR, 16);
      ShlZero(k);
      XorIsZero(Poly(a), Poly(b));
      PolyInjective(a, b);
    }
  }

  lemma {:induction false} ShlZero(k: nat)
    ensures Shl(0, k) == 0
  {
    if k > 0 { ShlZero(k - 1); }
  }

  /** Seventeen bits are too many: where two messages differ in the bits of the generator, at any place, it is not noticed. */
  lemma LongBurstIsLost(a: seq<Byte>, b: seq<Byte>, k: nat)
    requires Xor(Poly(a), Poly(b)) == Shl(GENERATOR, k)
    ensures Checksum(a) == Checksum(b)
  {
    hide *;
    ShiftedGenerator(k);
    SameChecksum(a, b);
  }

  lemma {:induction false} ShiftedGenerator(k: nat)
    ensures Congruent(Shl(GENERATOR, k), 0, GENERATOR)
  {
    hide Congruent;
    if k == 0 {
      GeneratorDividesItself();
    } else {
      ShiftedGenerator(k - 1);
      CongruentDouble(Shl(GENERATOR, k - 1), 0, GENERATOR);
    }
  }

  /** Two files of three bytes for which crc prints the same line. */
  lemma ThreeBytes()
    ensures Checksum([1, 0x10, 0x21]) == Checksum([0, 0, 0]) == 0
  {
    hide Congruent, Checksum, Pow2, Xor;
    var a: seq<Byte>, b: seq<Byte> := [1, 0x10, 0x21], [0, 0, 0];
    assert a[..2] == [1, 0x10] && a[..2][..1] == [1] && a[..1][..0] == [] && b[..2] == [0, 0] && b[..2][..1] == [0];
    assert Poly([1]) == 1 && Poly([1, 0x10]) == 0x110 && Poly(a) == GENERATOR;
    assert Poly([0]) == 0 && Poly([0, 0]) == 0 && Poly(b) == 0;
    GeneratorDividesItself();
    CongruentSelf(0, GENERATOR);
    OnlyChecksum(a, 0);
    OnlyChecksum(b, 0);
  }

  lemma GeneratorDividesItself()
    ensures Congruent(GENERATOR, 0, GENERATOR)
  {
    hide Xor;
    TimesOne();
    ZeroFirst(GENERATOR);
    assert GENERATOR == Xor(Times(1, GENERATOR), 0);
  }
}
