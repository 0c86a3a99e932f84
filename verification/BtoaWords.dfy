/** btoa's code words: four bytes as five base-85 digits, computed with signed 32-bit numbers. */
module BtoaWords {
  import opened BitOps
  import opened Stdio

  const TWO31 := 0x8000_0000
  const TWO32 := 0x1_0000_0000
  const P1 := 85
  const P2 := 7225
  const P3 := 614125
  const P4 := 52200625
  const SHIFT := 1670420000

  /** What a 32-bit signed variable holds after x has been assigned to it. */
  function Wrap(x: int): (r: int)
    ensures -TWO31 <= r < TWO31
  {
    (x + TWO31) % TWO32 - TWO31
  }

  /** C's % 85 on a signed number: the sign is that of the number. */
  function Remainder85(x: int): (r: int)
    ensures -85 < r < 85 && (x >= 0 ==> r >= 0) && (x <= 0 ==> r <= 0)
  {
    if x >= 0 then x % 85 else -((-x) % 85)
  }

  lemma WrapSame(x: int, y: int, k: int)
    requires x == y + TWO32 * k
    ensures Wrap(x) == Wrap(y)
  {
  }

  lemma WrapIs(x: int)
    ensures exists k: int :: Wrap(x) == x + TWO32 * k
  {
    var k := -((x + TWO31) / TWO32);
    assert Wrap(x) == x + TWO32 * k;
  }

  // ---------- The five digits ----------

  /** The digits of an unsigned 32-bit number, most significant first. */
  function Digits(u: nat): (r: seq<nat>)
    requires u < TWO32
    ensures |r| == 5 && forall i :: 0 <= i < 5 ==> r[i] < 85
  {
    [u / P4, u / P3 % 85, u / P2 % 85, u / P1 % 85, u % 85]
  }

  /** What the decoder makes of k digits. */
  function Value(d: seq<nat>): int {
    if d == [] then 0 else Wrap(Value(d[..|d|-1]) * 85 + d[|d|-1])
  }

  /** The beginning of wordout(): a word with the sign bit set is made smaller until it is not negative. */
  method WithoutSign(codeword0: int) returns (codeword: nat, tmp: nat)
    requires -TWO31 <= codeword0 < TWO31
    ensures codeword == codeword0 % TWO32 - tmp * P4
  {
    var c: int := codeword0;
    tmp := 0;
    if c < 0 {
      tmp := 32;
      c := Wrap(c - SHIFT);
    }
    if c < 0 {
      tmp := 64;
      c := Wrap(c - SHIFT);
    }
    codeword := c;
  }

  /** The digits wordout() finds for a signed number are those of the unsigned one with the same bits. */
  method DigitsOf(codeword0: int) returns (digits: seq<nat>)
    requires -TWO31 <= codeword0 < TWO31
    ensures digits == Digits(codeword0 % TWO32)
  {
    ghost var u := codeword0 % TWO32;
    var codeword, tmp := WithoutSign(codeword0);
    ghost var a, b, c, d, e := Split(u);
    TopDigit(u, tmp);
    var d0 := codeword / P4 + tmp;
    codeword := codeword - codeword / P4 * P4;
    Place(b, P3, c * P2 + d * P1 + e);
    var d1 := codeword / P3;
    codeword := codeword - d1 * P3;
    Place(c, P2, d * P1 + e);
    var d2 := codeword / P2;
    codeword := codeword - d2 * P2;
    Place(d, 85, e);
    var d3 := codeword / 85;
    codeword := codeword - d3 * 85;
    digits := [d0, d1, d2, d3, codeword];
  }

  lemma Place(q: nat, m: nat, r: nat)
    requires r < m
    ensures (q * m + r) / m == q
  {
    var x := q * m + r;
    assert x == m * (x / m) + x % m;
    if x / m < q {
      Bigger(m, x / m + 1, q);
    } else if x / m > q {
      Bigger(m, q + 1, x / m);
    }
  }

  lemma Bigger(m: nat, x: nat, y: nat)
    requires x <= y
    ensures m * x <= m * y
  {
  }

  lemma TopDigit(u: nat, tmp: nat)
    requires u < TWO32 && tmp * P4 <= u
    ensures (u - tmp * P4) / P4 + tmp == u / P4
    ensures (u - tmp * P4) - (u - tmp * P4) / P4 * P4 == u % P4
  {
  }

  /** Every number below 85^5 is made up of five digits in one way. */
  lemma Split(u: nat) returns (a: nat, b: nat, c: nat, d: nat, e: nat)
    requires u < TWO32
    ensures u == a * P4 + b * P3 + c * P2 + d * P1 + e && a < 85 && b < 85 && c < 85 && d < 85 && e < 85
    ensures u / P4 == a && u / P3 % 85 == b && u / P2 % 85 == c && u / P1 % 85 == d && u % 85 == e
    ensures u % P4 == b * P3 + c * P2 + d * P1 + e
  {
    e := u % 85;
    var u1 := u / 85;
    d := u1 % 85;
    var u2 := u1 / 85;
    c := u2 % 85;
    var u3 := u2 / 85;
    b := u3 % 85;
    a := u3 / 85;
    assert u == u1 * 85 + e && u1 == u2 * 85 + d && u2 == u3 * 85 + c && u3 == a * 85 + b;
    assert u == a * P4 + b * P3 + c * P2 + d * P1 + e;
  }

  /** The digits of a word have its value. */
  lemma ValueOfDigits(u: nat)
    requires u < TWO32
    ensures Value(Digits(u)) == Wrap(u)
  {
    var a, b, c, d, e := Split(u);
    Horner(a, b);
    Horner(a * 85 + b, c);
    Horner((a * 85 + b) * 85 + c, d);
    Horner(((a * 85 + b) * 85 + c) * 85 + d, e);
    ValueOfFive(a, b, c, d, e);
  }

  lemma ValueOfFive(a: nat, b: nat, c: nat, d: nat, e: nat)
    ensures Value([a, b, c, d, e]) == Wrap(Wrap(Wrap(Wrap(Wrap(a) * 85 + b) * 85 + c) * 85 + d) * 85 + e)
  {
    hide Wrap;
    OneDigit([a, b, c, d], e);
    OneDigit([a, b, c], d);
    OneDigit([a, b], c);
    OneDigit([a], b);
    OneDigit([], a);
    assert [] + [a] == [a] && [a] + [b] == [a, b] && [a, b] + [c] == [a, b, c] && [a, b, c] + [d] == [a, b, c, d] && [a, b, c, d] + [e] == [a, b, c, d, e];
  }

  lemma OneDigit(s: seq<nat>, d: nat)
    ensures Value(s + [d]) == Wrap(Value(s) * 85 + d)
  {
    assert (s + [d])[..|s|] == s;
  }

  lemma Horner(x: int, d: int)
    ensures Wrap(Wrap(x) * 85 + d) == Wrap(x * 85 + d)
  {
    WrapIs(x);
    var k: int :| Wrap(x) == x + TWO32 * k;
    WrapSame(Wrap(x) * 85 + d, x * 85 + d, k * 85);
  }
}
