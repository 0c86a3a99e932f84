/** The open-addressing table compress() looks prefixes up in. */
module LzwHash {
  import opened BitOps
  import opened LzwStream
  import opened Options
  import opened Stdio

  const HSIZE: nat := 9001
  const HSHIFT: nat := 5  // 8 minus the doublings that take 9001 to 65536 or more

  // ---------- The probe sequence visits every slot ----------

  predicate NoDivisor(n: nat, lo: nat, hi: nat)
    decreases hi - lo
  {
    lo >= hi || (lo > 0 && n % lo != 0 && NoDivisor(n, lo + 1, hi))
  }

  lemma {:induction false} NoDivisorMeans(n: nat, lo: nat, hi: nat, d: nat)
    requires NoDivisor(n, lo, hi) && 0 < lo <= d < hi
    ensures n % d != 0
    decreases hi - lo
  {
    if lo < d { NoDivisorMeans(n, lo + 1, hi, d); }
  }

  ghost predicate IsPrime(p: nat) {
    2 <= p && forall d: nat :: 2 <= d < p ==> p % d != 0
  }

  /** Division with remainder has one answer. */
  lemma OneQuotient(a: nat, k: int, m: nat, l: int, n: nat)
    requires k * a + m == l * a + n && m < a && n < a
    ensures k == l && m == n
  {
    if k < l { SmallGap(a, k, l); }
    if l < k { SmallGap(a, l, k); }
  }

  lemma SmallGap(a: nat, k: int, l: int)
    requires k < l
    ensures k * a + a <= l * a
  {
    Distribute(k, l - k, a);
    AtLeastOnce(l - k, a);
  }

  lemma Distribute(x: int, y: int, a: int)
    ensures (x + y) * a == x * a + y * a
  {
  }

  lemma AtLeastOnce(t: int, a: nat)
    requires t >= 1
    ensures t * a >= a
  {
  }

  lemma MultipleModZero(q: nat, d: nat)
    requires q > 0
    ensures (d * q) % q == 0
  {
    var x := d * q;
    assert x == (x / q) * q + x % q;
    OneQuotient(q, x / q, x % q, d, 0);
  }

  lemma QuotientSmall(n: nat, q: nat, d: nat)
    requires q * d == n && 95 <= d < n < 95 * 95
    ensures 2 <= q < 95
  {
  }

  lemma HsizeIsPrime()
    ensures IsPrime(HSIZE)
  {
    assert NoDivisor(9001, 89, 95);
    assert NoDivisor(9001, 83, 95);
    assert NoDivisor(9001, 77, 95);
    assert NoDivisor(9001, 71, 95);
    assert NoDivisor(9001, 65, 95);
    assert NoDivisor(9001, 59, 95);
    assert NoDivisor(9001, 53, 95);
    assert NoDivisor(9001, 47, 95);
    assert NoDivisor(9001, 41, 95);
    assert NoDivisor(9001, 35, 95);
    assert NoDivisor(9001, 29, 95);
    assert NoDivisor(9001, 23, 95);
    assert NoDivisor(9001, 17, 95);
    assert NoDivisor(9001, 11, 95);
    assert NoDivisor(9001, 5, 95);
    assert NoDivisor(9001, 2, 95);
    forall d: nat | 2 <= d < HSIZE ensures HSIZE % d != 0 {
      if d < 95 {
        NoDivisorMeans(HSIZE, 2, 95, d);
      } else if HSIZE % d == 0 {
        var q := HSIZE / d;
        assert q * d == HSIZE;
        assert d * q == HSIZE;
        QuotientSmall(HSIZE, q, d);
        MultipleModZero(q, d);
        NoDivisorMeans(HSIZE, 2, 95, q);
      }
    }
  }

  /** Euclid: a prime that divides a*b, with 0 < a < p, divides b. */
  lemma {:induction false} Euclid(p: nat, a: nat, b: int, k: int)
    requires IsPrime(p) && 0 < a < p && a * b == k * p
    ensures exists m: int :: b == m * p
    decreases a
  {
    if a == 1 {
      assert b == k * p;
    } else {
      var q, r := p / a, p % a;
      assert p == q * a + r;
      assert r > 0;
      calc {
        r * b;
        (p - q * a) * b;
        p * b - q * (a * b);
        p * b - q * (k * p);
        (b - q * k) * p;
      }
      Euclid(p, r, b, b - q * k);
    }
  }

  predicate ProbeStart(i0: nat, disp: nat) {
    i0 < HSIZE && 0 < disp < HSIZE
  }

  /** The j-th slot probed. */
  function Slot(i0: nat, disp: nat, j: nat): (i: nat)
    requires ProbeStart(i0, disp)
    ensures i < HSIZE
  {
    if j == 0 then i0
    else
      var p := Slot(i0, disp, j - 1);
      if p < disp then p - disp + HSIZE else p - disp
  }

  ghost function Wraps(i0: nat, disp: nat, j: nat): (w: nat)
    requires ProbeStart(i0, disp)
    ensures Slot(i0, disp, j) == i0 - j * disp + w * HSIZE
  {
    if j == 0 then 0
    else
      assert j * disp == (j - 1) * disp + disp;
      var w := Wraps(i0, disp, j - 1);
      if Slot(i0, disp, j - 1) < disp then w + 1 else w
  }

  /** No slot comes up twice within one sweep of the table. */
  lemma SlotsDiffer(i0: nat, disp: nat, j: nat, k: nat)
    requires ProbeStart(i0, disp) && j < k < HSIZE
    ensures Slot(i0, disp, j) != Slot(i0, disp, k)
  {
    if Slot(i0, disp, j) == Slot(i0, disp, k) {
      var d := Wraps(i0, disp, k) - Wraps(i0, disp, j);
      assert (k - j) * disp == d * HSIZE by {
        assert (k - j) * disp == k * disp - j * disp;
      }
      HsizeIsPrime();
      Euclid(HSIZE, k - j, disp, d);
      assert false;
    }
  }

  // ---------- The table ----------

  /** fcode: the key of a prefix code and the letter behind it. */
  function Key(cfg: Config, e: Entry): nat { Shl(e.suffix, cfg.maxbits) + e.prefix }

  lemma {:induction false} ShlGrows(a: nat, b: nat, k: nat)
    requires a < b
    ensures Shl(a, k) + Pow2(k) <= Shl(b, k)
  {
    if k > 0 { ShlGrows(a, b, k - 1); }
  }

  lemma KeyInjective(cfg: Config, d: Entry, e: Entry)
    requires d.prefix < cfg.Limit() && e.prefix < cfg.Limit() && Key(cfg, d) == Key(cfg, e)
    ensures d == e
  {
    if d.suffix < e.suffix { ShlGrows(d.suffix, e.suffix, cfg.maxbits); }
    if e.suffix < d.suffix { ShlGrows(e.suffix, d.suffix, cfg.maxbits); }
  }

  lemma {:induction false} ShlPositive(a: nat, k: nat)
    requires a > 0
    ensures Shl(a, k) > 0
  {
    if k > 0 { ShlPositive(a, k - 1); }
  }

  lemma ZeroKey(cfg: Config, e: Entry)
    requires Key(cfg, e) == 0
    ensures e == Entry(0, 0)
  {
    if e.suffix > 0 { ShlPositive(e.suffix, cfg.maxbits); }
  }

  function Home(e: Entry): nat { Xor(Shl(e.suffix, HSHIFT), e.prefix) }

  function Stride(i0: nat): nat
    requires i0 < HSIZE
  {
    if i0 == 0 then 1 else HSIZE - i0
  }

  lemma HomeInRange(e: Entry)
    requires e.prefix < Pow2(BITS)
    ensures Home(e) < HSIZE && ProbeStart(Home(e), Stride(Home(e)))
  {
    Powers();
    ShlBound(e.suffix, HSHIFT, 8);
    XorBound(Shl(e.suffix, HSHIFT), e.prefix, BITS);
  }

  ghost predicate Prefixes(cfg: Config, dict: seq<Entry>) {
    cfg.Valid() && forall k :: 0 <= k < |dict| ==> dict[k].prefix < cfg.Limit()
  }

  lemma LimitBound(cfg: Config)
    requires cfg.Valid()
    ensures 512 <= cfg.Limit() <= Pow2(BITS) == 8192
  {
    Powers();
  }

  /** An occupied slot holds the key and the code of one dictionary entry. */
  ghost predicate SlotOk(cfg: Config, dict: seq<Entry>, htab: seq<int>, codetab: seq<nat>, i: nat)
    requires |htab| == |codetab| == HSIZE && i < HSIZE
  {
    htab[i] == -1 ||
    (cfg.First() <= codetab[i] < cfg.First() + |dict| &&
     htab[i] == Key(cfg, dict[codetab[i] - cfg.First()]))
  }

  /** `e` is stored in the j-th slot of its probe sequence, and nothing before it stops the search. */
  ghost predicate Reached(htab: seq<int>, e: Entry, i: nat, j: nat)
    requires |htab| == HSIZE
  {
    var i0 := Home(e);
    i0 < HSIZE && j < HSIZE && i == Slot(i0, Stride(i0), j) &&
    (0 < j ==> htab[i0] >= 0) &&
    forall k: nat :: 0 < k < j ==> htab[Slot(i0, Stride(i0), k)] > 0
  }

  ghost predicate Findable(htab: seq<int>, e: Entry, i: nat)
    requires |htab| == HSIZE
  {
    exists j: nat :: Reached(htab, e, i, j)
  }

  /** Some slot holds the `k`-th dictionary entry. */
  ghost predicate Stored(cfg: Config, dict: seq<Entry>, htab: seq<int>, codetab: seq<nat>, k: nat)
    requires |htab| == |codetab| == HSIZE && k < |dict|
  {
    exists i: nat :: i < HSIZE && htab[i] == Key(cfg, dict[k]) && codetab[i] == cfg.First() + k
  }

  function Occupied(htab: seq<int>): set<nat> {
    set i: nat | i < |htab| && htab[i] >= 0
  }

  ghost predicate TableOk(cfg: Config, dict: seq<Entry>, htab: seq<int>, codetab: seq<nat>) {
    && |htab| == |codetab| == HSIZE
    && Prefixes(cfg, dict)
    && cfg.First() + |dict| <= cfg.Limit()
    && |Occupied(htab)| <= |dict|
    && (forall i: nat :: i < HSIZE ==> SlotOk(cfg, dict, htab, codetab, i))
    && (forall i: nat :: i < HSIZE && htab[i] > 0 ==>
          cfg.First() <= codetab[i] < cfg.First() + |dict| &&
          Findable(htab, dict[codetab[i] - cfg.First()], i))
    && (forall k: nat :: k < |dict| && Key(cfg, dict[k]) > 0 ==> Stored(cfg, dict, htab, codetab, k))
  }

  lemma EmptyTableOk(cfg: Config, htab: seq<int>, codetab: seq<nat>)
    requires cfg.Valid() && |htab| == |codetab| == HSIZE && forall i :: 0 <= i < HSIZE ==> htab[i] == -1
    ensures TableOk(cfg, [], htab, codetab)
  {
    LimitBound(cfg);
    assert Occupied(htab) == {};
  }

  /** Where the search for `e` ends without a hit: the slot `i` is the j-th probed. */
  ghost predicate Missed(htab: seq<int>, e: Entry, i: nat, j: nat)
    requires |htab| == HSIZE
  {
    var i0 := Home(e);
    i0 < HSIZE && Reached(htab, e, i, j) &&
    (if j == 0 then htab[i] < 0 else htab[i] <= 0)
  }

  /** A miss is exact for every key but the all-zero one. */
  lemma MissIsExact(cfg: Config, dict: seq<Entry>, htab: seq<int>, codetab: seq<nat>, e: Entry, i: nat, j: nat)
    requires TableOk(cfg, dict, htab, codetab) && e.prefix < cfg.Limit()
    requires Missed(htab, e, i, j)
    requires forall k: nat :: k <= j ==> htab[Slot(Home(e), Stride(Home(e)), k)] != Key(cfg, e)
    ensures e == Entry(0, 0) || e !in dict
  {
    if e in dict && e != Entry(0, 0) {
      var n: nat :| n < |dict| && dict[n] == e;
      StoredIsSeen(cfg, dict, htab, codetab, e, i, j, n);
    }
  }

  lemma StoredIsSeen(cfg: Config, dict: seq<Entry>, htab: seq<int>, codetab: seq<nat>, e: Entry, i: nat, j: nat, n: nat)
    requires TableOk(cfg, dict, htab, codetab) && n < |dict| && dict[n] == e && e != Entry(0, 0)
    requires Missed(htab, e, i, j)
    ensures exists k: nat :: k <= j && htab[Slot(Home(e), Stride(Home(e)), k)] == Key(cfg, e)
  {
    hide Shl, Xor, Pow2, Stride, Home, SlotOk, Key;
    if Key(cfg, e) == 0 { ZeroKey(cfg, e); }
    assert Stored(cfg, dict, htab, codetab, n);
    var q: nat :| q < HSIZE && htab[q] == Key(cfg, dict[n]) && codetab[q] == cfg.First() + n;
    assert Findable(htab, e, q);
    var jq: nat :| Reached(htab, e, q, jq);
    assert jq <= j;
  }

  /** Storing a new entry where the search for it ended keeps the table in order. */
  lemma InsertKeepsOrder(cfg: Config, dict: seq<Entry>, htab: seq<int>, codetab: seq<nat>, e: Entry, i: nat, j: nat)
    requires TableOk(cfg, dict, htab, codetab) && e.prefix < cfg.Limit()
    requires cfg.First() + |dict| < cfg.Limit()
    requires Missed(htab, e, i, j)
    ensures TableOk(cfg, dict + [e], htab[i := Key(cfg, e)], codetab[i := cfg.First() + |dict|])
  {
    hide Shl, Xor, Pow2, Slot, Stride, Home, Key, SlotOk, Findable, Stored;
    var d, h, c := dict + [e], htab[i := Key(cfg, e)], codetab[i := cfg.First() + |dict|];
    assert Occupied(h) <= Occupied(htab) + {i};
    CardinalityOfUnion(Occupied(h), Occupied(htab), i);
    forall q: nat | q < HSIZE ensures SlotOk(cfg, d, h, c, q) {
      InsertSlotOk(cfg, dict, htab, codetab, e, i, q);
    }
    forall q: nat | q < HSIZE && h[q] > 0
      ensures cfg.First() <= c[q] < cfg.First() + |d| && Findable(h, d[c[q] - cfg.First()], q)
    {
      if q != i { InsertFindable(htab, dict[codetab[q] - cfg.First()], q, e, i, j, Key(cfg, e)); }
      else { NewFindable(htab, e, i, j, Key(cfg, e)); }
    }
    forall k: nat | k < |d| && Key(cfg, d[k]) > 0 ensures Stored(cfg, d, h, c, k) {
      InsertStored(cfg, dict, htab, codetab, e, i, j, k);
    }
  }

  lemma InsertSlotOk(cfg: Config, dict: seq<Entry>, htab: seq<int>, codetab: seq<nat>, e: Entry, i: nat, q: nat)
    requires |htab| == |codetab| == HSIZE && i < HSIZE && q < HSIZE && SlotOk(cfg, dict, htab, codetab, q)
    ensures SlotOk(cfg, dict + [e], htab[i := Key(cfg, e)], codetab[i := cfg.First() + |dict|], q)
  {
    hide Key;
  }

  /** Filling a slot that was not positive cannot hide another entry. */
  lemma InsertFindable(htab: seq<int>, f: Entry, q: nat, e: Entry, i: nat, j: nat, key: nat)
    requires |htab| == HSIZE && Findable(htab, f, q) && Missed(htab, e, i, j)
    ensures Findable(htab[i := key], f, q)
  {
    hide Slot, Home, Stride;
    var jq: nat :| Reached(htab, f, q, jq);
    assert Reached(htab[i := key], f, q, jq);
  }

  lemma NewFindable(htab: seq<int>, e: Entry, i: nat, j: nat, key: nat)
    requires |htab| == HSIZE && Missed(htab, e, i, j)
    ensures Findable(htab[i := key], e, i)
  {
    hide Slot, Home, Stride;
    assert Reached(htab[i := key], e, i, j);
  }

  lemma InsertStored(cfg: Config, dict: seq<Entry>, htab: seq<int>, codetab: seq<nat>, e: Entry, i: nat, j: nat, k: nat)
    requires |htab| == |codetab| == HSIZE && Missed(htab, e, i, j) && k <= |dict|
    requires Key(cfg, (dict + [e])[k]) > 0
    requires k < |dict| ==> Stored(cfg, dict, htab, codetab, k)
    ensures Stored(cfg, dict + [e], htab[i := Key(cfg, e)], codetab[i := cfg.First() + |dict|], k)
  {
    hide Slot, Home, Stride, Key;
    var d, h, c := dict + [e], htab[i := Key(cfg, e)], codetab[i := cfg.First() + |dict|];
    if k == |dict| {
      assert h[i] == Key(cfg, d[k]) && c[i] == cfg.First() + k;
    } else {
      var q: nat :| q < HSIZE && htab[q] == Key(cfg, dict[k]) && codetab[q] == cfg.First() + k;
      assert h[q] == Key(cfg, d[k]) && c[q] == cfg.First() + k;
    }
  }

  lemma TableFacts(cfg: Config, dict: seq<Entry>, htab: seq<int>, codetab: seq<nat>, i: nat)
    requires TableOk(cfg, dict, htab, codetab) && i < HSIZE
    ensures cfg.Valid() && |htab| == |codetab| == HSIZE
    ensures SlotOk(cfg, dict, htab, codetab, i)
    ensures htab[i] == -1 || dict[codetab[i] - cfg.First()].prefix < cfg.Limit()
    ensures |Occupied(htab)| <= cfg.Limit() - 256 <= 7936
  {
    LimitBound(cfg);
  }

  lemma CardinalityOfUnion(a: set<nat>, b: set<nat>, x: nat)
    requires a <= b + {x}
    ensures |a| <= |b| + 1
  {
    SubsetCardinality(a, b + {x});
    assert |b + {x}| <= |b| + 1;
  }

  lemma {:induction false} SubsetCardinality(a: set<nat>, b: set<nat>)
    requires a <= b
    ensures |a| <= |b|
    decreases |b|
  {
    if a != {} {
      var x :| x in a;
      SubsetCardinality(a - {x}, b - {x});
    }
  }

  ghost predicate SlotBefore(i0: nat, disp: nat, x: nat, j: nat)
    requires ProbeStart(i0, disp)
  {
    exists k: nat :: k <= j && Slot(i0, disp, k) == x
  }

  lemma FirstSlot(i0: nat, disp: nat)
    requires ProbeStart(i0, disp)
    ensures SlotBefore(i0, disp, i0, 0)
  {
    assert Slot(i0, disp, 0) == i0;
  }

  /** The next slot probed is a new one. */
  lemma NewSlot(i0: nat, disp: nat, seen: set<nat>, j: nat)
    requires ProbeStart(i0, disp) && 0 < j < HSIZE
    requires forall x :: x in seen ==> SlotBefore(i0, disp, x, j - 1)
    ensures Slot(i0, disp, j) !in seen
    ensures forall x :: x in seen + {Slot(i0, disp, j)} ==> SlotBefore(i0, disp, x, j)
  {
    forall k: nat | k < j ensures Slot(i0, disp, k) != Slot(i0, disp, j) {
      SlotsDiffer(i0, disp, k, j);
    }
  }

  lemma MissedAt(htab: seq<int>, e: Entry, i: nat, j: nat)
    requires |htab| == HSIZE && Home(e) < HSIZE && j < HSIZE && i == Slot(Home(e), Stride(Home(e)), j)
    requires j > 0 ==> htab[Home(e)] >= 0 && htab[i] <= 0
    requires j == 0 ==> htab[i] < 0
    requires forall k: nat :: 0 < k < j ==> htab[Slot(Home(e), Stride(Home(e)), k)] > 0
    ensures Missed(htab, e, i, j)
  {
  }

  /** The search: `hit` with the entry's code in codetab[i], or a miss that ends at slot `i`. */
  method Probe(cfg: Config, htab: array<int>, codetab: array<nat>, ghost dict: seq<Entry>, c: Byte, ent: nat)
    returns (i: nat, hit: bool, ghost j: nat)
    requires TableOk(cfg, dict, htab[..], codetab[..]) && ent < cfg.Limit()
    ensures i < HSIZE
    ensures hit ==> cfg.First() <= codetab[i] < cfg.First() + |dict| &&
                    dict[codetab[i] - cfg.First()] == Entry(ent, c)
    ensures !hit ==> Missed(htab[..], Entry(ent, c), i, j)
    ensures !hit ==> Entry(ent, c) == Entry(0, 0) || Entry(ent, c) !in dict
  {
    hide Shl, Xor, Pow2, TableOk, Reached, Missed, SlotBefore, SlotOk, Key, Home, Occupied, Slot;
    ghost var e := Entry(ent, c);
    ghost var h, ct := htab[..], codetab[..];
    TableFacts(cfg, dict, h, ct, 0);
    LimitBound(cfg);
    HomeInRange(e);
    var fcode := Shl(c, cfg.maxbits) + ent;
    assert fcode == Key(cfg, e) by { KeyOf(cfg, ent, c); }
    i := Xor(Shl(c, HSHIFT), ent);
    assert i == Home(e) by { HomeOf(ent, c); }
    hit := false;
    j := 0;
    TableFacts(cfg, dict, h, ct, i);
    if htab[i] == fcode {
      HitMeans(cfg, dict, h, ct, e, i);
      hit := true;
      return;
    }
    if htab[i] < 0 {
      FirstMiss(cfg, dict, h, ct, e);
      return;
    }
    var disp := if i == 0 then 1 else HSIZE - i;
    ghost var i0 := i;
    FirstSlot(i0, disp);
    InOccupied(h, i);
    ghost var seen := {i};
    while true
      invariant j < HSIZE && i == Slot(i0, disp, j)
      invariant |seen| == j + 1 && seen <= Occupied(h)
      invariant forall x :: x in seen ==> SlotBefore(i0, disp, x, j)
      invariant forall k: nat :: 0 < k <= j ==> h[Slot(i0, disp, k)] > 0
      invariant forall k: nat :: k <= j ==> h[Slot(i0, disp, k)] != fcode
      decreases HSIZE - j
    {
      SubsetCardinality(seen, Occupied(h));
      NextSlot(i0, disp, j);
      i := if i < disp then i - disp + HSIZE else i - disp;
      j := j + 1;
      TableFacts(cfg, dict, h, ct, i);
      if htab[i] == fcode {
        HitMeans(cfg, dict, h, ct, e, i);
        hit := true;
        return;
      }
      if htab[i] <= 0 {
        MissedAt(h, e, i, j);
        MissIsExact(cfg, dict, h, ct, e, i, j);
        return;
      }
      NewSlot(i0, disp, seen, j);
      InOccupied(h, i);
      seen := seen + {i};
    }
  }

  lemma KeyOf(cfg: Config, ent: nat, c: Byte)
    ensures Key(cfg, Entry(ent, c)) == Shl(c, cfg.maxbits) + ent
  {
  }

  lemma HomeOf(ent: nat, c: Byte)
    ensures Home(Entry(ent, c)) == Xor(Shl(c, HSHIFT), ent)
  {
  }

  lemma NextSlot(i0: nat, disp: nat, j: nat)
    requires ProbeStart(i0, disp)
    ensures var p := Slot(i0, disp, j);
            Slot(i0, disp, j + 1) == if p < disp then p - disp + HSIZE else p - disp
  {
  }

  lemma InOccupied(htab: seq<int>, i: nat)
    requires i < |htab| && htab[i] >= 0
    ensures i in Occupied(htab)
  {
  }

  lemma HitMeans(cfg: Config, dict: seq<Entry>, htab: seq<int>, codetab: seq<nat>, e: Entry, i: nat)
    requires TableOk(cfg, dict, htab, codetab) && i < HSIZE && e.prefix < cfg.Limit()
    requires htab[i] == Key(cfg, e)
    ensures cfg.First() <= codetab[i] < cfg.First() + |dict| && dict[codetab[i] - cfg.First()] == e
  {
    hide Findable, Stored, Key;
    assert SlotOk(cfg, dict, htab, codetab, i);
    KeyInjective(cfg, dict[codetab[i] - cfg.First()], e);
  }

  lemma FirstMiss(cfg: Config, dict: seq<Entry>, htab: seq<int>, codetab: seq<nat>, e: Entry)
    requires TableOk(cfg, dict, htab, codetab) && e.prefix < cfg.Limit()
    requires |htab| == HSIZE && Home(e) < HSIZE && htab[Home(e)] < 0
    ensures Missed(htab, e, Home(e), 0)
    ensures e == Entry(0, 0) || e !in dict
  {
    hide TableOk, Home, Key;
    assert ProbeStart(Home(e), Stride(Home(e)));
    assert Slot(Home(e), Stride(Home(e)), 0) == Home(e);
    MissedAt(htab, e, Home(e), 0);
    MissIsExact(cfg, dict, htab, codetab, e, Home(e), 0);
  }
}
