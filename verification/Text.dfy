/** Decimal numbers as printf("%d") writes them and the tools read them back. */
module Text {

  predicate IsDigit(c: char) { '0' <= c <= '9' }

  function Digit(d: nat): (c: char)
    requires d < 10
    ensures IsDigit(c)
  {
    '0' + d as char
  }

  function DigitValue(c: char): nat
    requires IsDigit(c)
  {
    (c - '0') as nat
  }

  predicate AllDigits(s: string) { forall i :: 0 <= i < |s| ==> IsDigit(s[i]) }

  /** printf("%d") of a natural number. */
  function Decimal(n: nat): (s: string)
    ensures s != [] && AllDigits(s)
  {
    if n < 10 then [Digit(n)] else Decimal(n / 10) + [Digit(n % 10)]
  }

  /** The loop `while (isdigit(*s)) v = 10 * v + *s++ - '0'`: the value and what is left. */
  function ReadDigits(v: nat, s: string): (nat, string)
    decreases |s|
  {
    if s == [] || !IsDigit(s[0]) then (v, s)
    else ReadDigits(10 * v + DigitValue(s[0]), s[1..])
  }

  function Value(v: nat, s: string): nat
    requires AllDigits(s)
    decreases |s|
  {
    if s == [] then v else Value(10 * v + DigitValue(s[0]), s[1..])
  }

  lemma {:induction false} ValueSnoc(v: nat, s: string, c: char)
    requires AllDigits(s) && IsDigit(c)
    ensures Value(v, s + [c]) == 10 * Value(v, s) + DigitValue(c)
    decreases |s|
  {
    if s == [] {
      assert [c][1..] == [];
    } else {
      assert (s + [c])[1..] == s[1..] + [c];
      ValueSnoc(10 * v + DigitValue(s[0]), s[1..], c);
    }
  }

  lemma {:induction false} ValueOfDecimal(n: nat)
    ensures Value(0, Decimal(n)) == n
  {
    if n < 10 {
      assert Decimal(n)[1..] == [];
    } else {
      ValueOfDecimal(n / 10);
      ValueSnoc(0, Decimal(n / 10), Digit(n % 10));
    }
  }

  lemma {:induction false} ReadIsValue(v: nat, s: string, rest: string)
    requires AllDigits(s) && (rest == [] || !IsDigit(rest[0]))
    ensures ReadDigits(v, s + rest) == (Value(v, s), rest)
    decreases |s|
  {
    if s == [] {
      assert s + rest == rest;
    } else {
      assert (s + rest)[1..] == s[1..] + rest;
      ReadIsValue(10 * v + DigitValue(s[0]), s[1..], rest);
    }
  }

  /** Reading back a printed number, whatever non-digit follows. */
  lemma ReadDecimal(n: nat, rest: string)
    requires rest == [] || !IsDigit(rest[0])
    ensures ReadDigits(0, Decimal(n) + rest) == (n, rest)
  {
    ReadIsValue(0, Decimal(n), rest);
    ValueOfDecimal(n);
  }
}
