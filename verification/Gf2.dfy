/** Polynomials over the field of two elements, as numbers whose bits are the coefficients. */
module Gf2 {
  import opened BitOps

  /** The product of two polynomials. */
  function Times(q: nat, g: nat): nat {
    if q == 0 then 0 else Xor(if q % 2 == 1 then g else 0, 2 * Times(q / 2, g))
  }

  /** m and r leave the same remainder. */
  ghost predicate Congruent(m: nat, r: nat, g: nat) {
    exists q: nat :: m == Xor(Times(q, g), r)
  }

  // ---------- Sums ----------

  lemma XorParts(x: nat, y: nat)
    ensures Xor(x, y) / 2 == Xor(x / 2, y / 2)
    ensures Xor(x, y) % 2 == if x % 2 != y % 2 then 1 else 0
  {
  }

  lemma {:induction false} XorSelf(x: nat)
    ensures Xor(x, x) == 0
  {
    if x > 0 { XorSelf(x / 2); }
  }

  lemma {:induction false} XorSwap(x: nat, y: nat)
    ensures Xor(x, y) == Xor(y, x)
  {
    if x > 0 && y > 0 { XorSwap(x / 2, y / 2); }
  }

  lemma {:induction false} XorJoin(x: nat, y: nat, z: nat)
    ensures Xor(Xor(x, y), z) == Xor(x, Xor(y, z))
    decreases x + y + z
  {
    if x > 0 && y > 0 && z > 0 {
      XorParts(x, y);
      XorParts(y, z);
      XorJoin(x / 2, y / 2, z / 2);
      var a, b := Xor(Xor(x, y), z), Xor(x, Xor(y, z));
      XorParts(Xor(x, y), z);
      XorParts(x, Xor(y, z));
      assert a / 2 == b / 2 && a % 2 == b % 2;
    }
  }

  lemma XorDouble(x: nat, y: nat)
    ensures 2 * Xor(x, y) == Xor(2 * x, 2 * y)
  {
    XorParts(2 * x, 2 * y);
  }

  /** What is added twice is gone. */
  lemma XorBack(x: nat, y: nat)
    ensures Xor(x, Xor(x, y)) == y
  {
    XorJoin(x, x, y);
    XorSelf(x);
  }

  lemma XorIsZero(x: nat, y: nat)
    requires Xor(x, y) == 0
    ensures x == y
  {
    XorBack(x, y);
  }

  /** Four summands in another order. */
  lemma XorFour(a: nat, b: nat, c: nat, d: nat)
    ensures Xor(Xor(a, b), Xor(c, d)) == Xor(Xor(a, c), Xor(b, d))
  {
    XorJoin(a, b, Xor(c, d));
    XorJoin(b, c, d);
    XorSwap(b, c);
    XorJoin(c, b, d);
    XorJoin(a, c, Xor(b, d));
  }

  /** Numbers without common bits. */
  lemma {:induction false} XorIsSum(x: nat, y: nat, k: nat)
    requires y < Pow2(k)
    ensures Xor(Pow2(k) * x, y) == Pow2(k) * x + y
    decreases k
  {
    hide Xor;
    if k == 0 {
      XorZero(x);
    } else {
      var p := Pow2(k - 1);
      Doubled(p, x);
      XorIsSum(x, y / 2, k - 1);
      XorParts(2 * (p * x), y);
      FromHalves(Xor(2 * (p * x), y), p * x, y);
    }
  }

  lemma XorZero(x: nat)
    ensures Xor(x, 0) == x
  {
  }

  lemma FromHalves(s: nat, h: nat, y: nat)
    requires s / 2 == h + y / 2 && s % 2 == y % 2
    ensures s == 2 * h + y
  {
  }

  lemma Doubled(p: nat, x: nat)
    ensures p * x >= 0 && 2 * p * x == 2 * (p * x)
  {
  }

  /** One bit turned over. */
  lemma {:induction false} XorBit(x: nat, k: nat)
    ensures Xor(x, Pow2(k)) == if BitAt(x, k) then x - Pow2(k) else x + Pow2(k)
    ensures BitAt(x, k) ==> x >= Pow2(k)
  {
    if k == 0 {
      XorParts(x, 1);
    } else {
      XorBit(x / 2, k - 1);
      XorParts(x, Pow2(k));
      assert Pow2(k) / 2 == Pow2(k - 1);
    }
  }

  // ---------- Products ----------

  lemma {:induction false} TimesAdds(p: nat, q: nat, g: nat)
    ensures Times(Xor(p, q), g) == Xor(Times(p, g), Times(q, g))
    decreases p + q
  {
    if p > 0 && q > 0 {
      XorParts(p, q);
      TimesAdds(p / 2, q / 2, g);
      var a, b := if p % 2 == 1 then g else 0, if q % 2 == 1 then g else 0;
      XorFour(a, 2 * Times(p / 2, g), b, 2 * Times(q / 2, g));
      XorDouble(Times(p / 2, g), Times(q / 2, g));
      XorSelf(g);
      assert Xor(a, b) == if Xor(p, q) % 2 == 1 then g else 0;
    }
  }

  lemma TimesDouble(q: nat, g: nat)
    ensures Times(2 * q, g) == 2 * Times(q, g)
  {
  }

  // ---------- Congruence ----------

  lemma CongruentSelf(m: nat, g: nat)
    ensures Congruent(m, m, g)
  {
    assert m == Xor(Times(0, g), m);
  }

  lemma CongruentDouble(m: nat, r: nat, g: nat)
    requires Congruent(m, r, g)
    ensures Congruent(2 * m, 2 * r, g)
  {
    var q: nat :| m == Xor(Times(q, g), r);
    XorDouble(Times(q, g), r);
    TimesDouble(q, g);
    assert 2 * m == Xor(Times(2 * q, g), 2 * r);
  }

  lemma CongruentPlus(m: nat, r: nat, c: nat, g: nat)
    requires Congruent(m, r, g)
    ensures Congruent(Xor(m, c), Xor(r, c), g)
  {
    var q: nat :| m == Xor(Times(q, g), r);
    XorJoin(Times(q, g), r, c);
    assert Xor(m, c) == Xor(Times(q, g), Xor(r, c));
  }

  lemma CongruentTrans(m: nat, r: nat, s: nat, g: nat)
    requires Congruent(m, r, g) && Congruent(r, s, g)
    ensures Congruent(m, s, g)
  {
    var q: nat :| m == Xor(Times(q, g), r);
    var p: nat :| r == Xor(Times(p, g), s);
    XorJoin(Times(q, g), Times(p, g), s);
    TimesAdds(q, p, g);
    assert m == Xor(Times(Xor(q, p), g), s);
  }

  lemma CongruentSum(m: nat, r: nat, n: nat, s: nat, g: nat)
    requires Congruent(m, r, g) && Congruent(n, s, g)
    ensures Congruent(Xor(m, n), Xor(r, s), g)
  {
    CongruentPlus(m, r, n, g);
    CongruentPlus(n, s, r, g);
    XorSwap(n, r);
    XorSwap(s, r);
    CongruentTrans(Xor(m, n), Xor(r, n), Xor(r, s), g);
  }

  /** A polynomial of the generator's degree divides nothing of a smaller degree but zero. */
  lemma {:induction false} DividesNothingSmall(q: nat, g: nat, k: nat)
    requires Pow2(k) <= g < 2 * Pow2(k) && Times(q, g) < Pow2(k)
    ensures q == 0
  {
    if q > 0 { ProductIsLarge(q, g, k); }
  }

  lemma {:induction false} ProductIsLarge(q: nat, g: nat, k: nat)
    requires Pow2(k) <= g < 2 * Pow2(k) && q > 0
    ensures Times(q, g) >= Pow2(k)
    ensures q > 1 ==> Times(q, g) >= 2 * Pow2(k)
  {
    if q > 1 {
      ProductIsLarge(q / 2, g, k);
      if q % 2 == 1 { LargerStays(2 * Times(q / 2, g), g, k); }
    }
  }

  /** A term of a higher degree is not cancelled. */
  lemma LargerStays(x: nat, g: nat, k: nat)
    requires x >= 2 * Pow2(k) && g < 2 * Pow2(k)
    ensures Xor(g, x) >= 2 * Pow2(k)
  {
    if Xor(g, x) < Pow2(k + 1) {
      XorBound(Xor(g, x), g, k + 1);
      XorSwap(Xor(g, x), g);
      XorBack(g, x);
    }
  }

  /** Remainders are unique. */
  lemma RemainderUnique(m: nat, r: nat, s: nat, g: nat, k: nat)
    requires Pow2(k) <= g < 2 * Pow2(k) && r < Pow2(k) && s < Pow2(k)
    requires Congruent(m, r, g) && Congruent(m, s, g)
    ensures r == s
  {
    CongruentSum(m, r, m, s, g);
    XorSelf(m);
    XorBound(r, s, k);
    var q: nat :| 0 == Xor(Times(q, g), Xor(r, s));
    XorIsZero(Times(q, g), Xor(r, s));
    DividesNothingSmall(q, g, k);
    XorIsZero(r, s);
  }

  /** A generator with a constant term divides a shifted polynomial only if it divides the polynomial. */
  lemma {:induction false} ShiftIsDivided(e: nat, k: nat, g: nat)
    requires g % 2 == 1 && Congruent(Shl(e, k), 0, g)
    ensures Congruent(e, 0, g)
  {
    if k > 0 {
      var q: nat :| Shl(e, k) == Xor(Times(q, g), 0);
      XorSwap(Times(q, g), 0);
      assert Times(q, g) == 2 * Shl(e, k - 1);
      if q % 2 == 1 {
        XorParts(g, 2 * Times(q / 2, g));
      } else {
        assert Shl(e, k - 1) == Xor(Times(q / 2, g), 0);
        ShiftIsDivided(e, k - 1, g);
      }
    }
  }
}
