/** Bytes and lines as the C library reads them. */
module Stdio {
  type Byte = x: int | 0 <= x < 256

  const NL: Byte := 10

  /** Where fgets() stops when it has begun at `from` and has come to p: behind a line end, or when the buffer is full. */
  function LineEnd(file: seq<Byte>, p: nat, from: nat, size: nat): (q: nat)
    requires from <= p <= |file|
    ensures p <= q <= |file|
    decreases |file| - p
  {
    if p == |file| || p - from >= size - 1 then p
    else if file[p] == NL then p + 1 else LineEnd(file, p + 1, from, size)
  }

  lemma {:induction false} EndFound(file: seq<Byte>, p: nat, from: nat, q: nat, size: nat)
    requires from <= p <= q < |file| && q - from < size - 1 && file[q] == NL && forall i :: p <= i < q ==> file[i] != NL
    ensures LineEnd(file, p, from, size) == q + 1
    decreases q - p
  {
    if p < q { EndFound(file, p + 1, from, q, size); }
  }

  /** fgets(): an empty line is the end of the file. */
  method Fgets(file: seq<Byte>, p: nat, size: nat) returns (line: seq<Byte>, p': nat)
    requires p <= |file| && size >= 2
    ensures p' == LineEnd(file, p, p, size) && line == file[p..p']
    ensures p < |file| ==> p < p'
  {
    p' := p;
    var n := 0;
    while p' < |file| && n < size - 1 && (n == 0 || file[p' - 1] != NL)
      invariant p <= p' <= |file| && n == p' - p && n <= size - 1
      invariant n > 0 && file[p' - 1] == NL ==> LineEnd(file, p, p, size) == p'
      invariant n == 0 || file[p' - 1] != NL ==> LineEnd(file, p, p, size) == LineEnd(file, p', p, size)
      decreases |file| - p'
    {
      p' := p' + 1;
      n := n + 1;
    }
    line := file[p..p'];
  }

  /** strlen(): as far as the first NUL. */
  function StrLen(line: seq<Byte>): (n: nat)
    ensures n <= |line| && (n < |line| ==> line[n] == 0) && forall i :: 0 <= i < n ==> line[i] != 0
  {
    if line == [] || line[0] == 0 then 0 else 1 + StrLen(line[1..])
  }

  lemma {:induction false} NoNul(s: seq<Byte>)
    requires forall i :: 0 <= i < |s| ==> s[i] != 0
    ensures StrLen(s) == |s|
  {
    if s != [] { NoNul(s[1..]); }
  }
}
