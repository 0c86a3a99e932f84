/** C's bitwise operators on non-negative integers, each characterised bit by bit. */
module BitOps {

  /** Bit `i` of `x`, least significant first. */
  predicate BitAt(x: nat, i: nat) {
    if i == 0 then x % 2 == 1 else BitAt(x / 2, i - 1)
  }

  function Shl(x: nat, k: nat): nat {
    if k == 0 then x else 2 * Shl(x, k - 1)
  }

  function Shr(x: nat, k: nat): nat {
    if k == 0 then x else Shr(x / 2, k - 1)
  }

  function And(x: nat, y: nat): nat {
    if x == 0 || y == 0 then 0
    else (if x % 2 == 1 && y % 2 == 1 then 1 else 0) + 2 * And(x / 2, y / 2)
  }

  function Or(x: nat, y: nat): nat {
    if x == 0 then y else if y == 0 then x
    else (if x % 2 == 1 || y % 2 == 1 then 1 else 0) + 2 * Or(x / 2, y / 2)
  }

  function Xor(x: nat, y: nat): nat {
    if x == 0 then y else if y == 0 then x
    else (if x % 2 != y % 2 then 1 else 0) + 2 * Xor(x / 2, y / 2)
  }

  /** 2 to the power `k`. */
  function Pow2(k: nat): (r: nat)
    ensures r >= 1
  {
    if k == 0 then 1 else 2 * Pow2(k - 1)
  }

  lemma {:induction false} BitOfZero(i: nat)
    ensures !BitAt(0, i)
  {
    if i > 0 { BitOfZero(i - 1); }
  }

  lemma {:induction false} BitOfAnd(x: nat, y: nat, i: nat)
    ensures BitAt(And(x, y), i) <==> BitAt(x, i) && BitAt(y, i)
  {
    if x == 0 || y == 0 {
      BitOfZero(i);
    } else {
      var z := And(x / 2, y / 2);
      assert And(x, y) / 2 == z;
      if i > 0 { BitOfAnd(x / 2, y / 2, i - 1); }
    }
  }

  lemma {:induction false} BitOfOr(x: nat, y: nat, i: nat)
    ensures BitAt(Or(x, y), i) <==> BitAt(x, i) || BitAt(y, i)
  {
    if x == 0 || y == 0 {
      BitOfZero(i);
    } else {
      var z := Or(x / 2, y / 2);
      assert Or(x, y) / 2 == z;
      if i > 0 { BitOfOr(x / 2, y / 2, i - 1); }
    }
  }

  lemma {:induction false} BitOfXor(x: nat, y: nat, i: nat)
    ensures BitAt(Xor(x, y), i) <==> BitAt(x, i) != BitAt(y, i)
  {
    if x == 0 || y == 0 {
      BitOfZero(i);
    } else {
      var z := Xor(x / 2, y / 2);
      assert Xor(x, y) / 2 == z;
      if i > 0 { BitOfXor(x / 2, y / 2, i - 1); }
    }
  }

  lemma {:induction false} BitOfShl(x: nat, k: nat, i: nat)
    ensures BitAt(Shl(x, k), i) <==> k <= i && BitAt(x, i - k)
  {
    if k > 0 {
      assert Shl(x, k) / 2 == Shl(x, k - 1);
      if i > 0 { BitOfShl(x, k - 1, i - 1); }
    }
  }

  lemma {:induction false} BitOfShr(x: nat, k: nat, i: nat)
    ensures BitAt(Shr(x, k), i) <==> BitAt(x, i + k)
  {
    if k > 0 { BitOfShr(x / 2, k - 1, i); }
  }

  /** Numbers below 2^w that agree on their low w bits are equal. */
  lemma {:induction false} BitsDetermine(x: nat, y: nat, w: nat)
    requires x < Pow2(w) && y < Pow2(w)
    requires forall i: nat :: i < w ==> BitAt(x, i) == BitAt(y, i)
    ensures x == y
  {
    if w > 0 {
      assert BitAt(x, 0) == BitAt(y, 0);
      forall i: nat | i < w - 1 ensures BitAt(x / 2, i) == BitAt(y / 2, i) {
        assert BitAt(x, i + 1) == BitAt(y, i + 1);
      }
      BitsDetermine(x / 2, y / 2, w - 1);
    }
  }

  /** A number below 2^w has no bit at or above w. */
  lemma {:induction false} HighBitsClear(x: nat, w: nat, i: nat)
    requires x < Pow2(w) && w <= i
    ensures !BitAt(x, i)
  {
    if w == 0 { BitOfZero(i); } else { HighBitsClear(x / 2, w - 1, i - 1); }
  }

  lemma {:induction false} XorBound(x: nat, y: nat, w: nat)
    requires x < Pow2(w) && y < Pow2(w)
    ensures Xor(x, y) < Pow2(w)
  {
    if w > 0 { XorBound(x / 2, y / 2, w - 1); }
  }

  lemma {:induction false} OrBound(x: nat, y: nat, w: nat)
    requires x < Pow2(w) && y < Pow2(w)
    ensures Or(x, y) < Pow2(w)
  {
    if w > 0 { OrBound(x / 2, y / 2, w - 1); }
  }

  lemma {:induction false} AndBound(x: nat, y: nat, w: nat)
    requires y < Pow2(w)
    ensures And(x, y) < Pow2(w)
  {
    if w > 0 { AndBound(x / 2, y / 2, w - 1); }
  }

  lemma {:induction false} ShrBound(x: nat, k: nat, w: nat)
    requires x < Pow2(k + w)
    ensures Shr(x, k) < Pow2(w)
  {
    if k > 0 { ShrBound(x / 2, k - 1, w); }
  }

  lemma {:induction false} ShlBound(x: nat, k: nat, w: nat)
    requires x < Pow2(w)
    ensures Shl(x, k) < Pow2(k + w)
  {
    if k > 0 { ShlBound(x, k - 1, w); }
  }

  /** The mask with its low `w` bits set. */
  lemma {:induction false} BitOfMask(w: nat, i: nat)
    ensures BitAt(Pow2(w) - 1, i) <==> i < w
  {
    if w == 0 {
      BitOfZero(i);
    } else {
      assert (Pow2(w) - 1) / 2 == Pow2(w - 1) - 1;
      if i > 0 { BitOfMask(w - 1, i - 1); }
    }
  }
}
