/** readfs's block caches: five buffers each, of which the least recently used one is reused. */
module LruCache {
  import opened FsDisk
  import opened Options

  const NR_CBLOCKS := 5

  // ---------- The blocks most recently requested ----------

  function Without(s: seq<nat>, x: nat): seq<nat> {
    if s == [] then [] else (if s[0] == x then [] else [s[0]]) + Without(s[1..], x)
  }

  predicate Distinct(s: seq<nat>) { forall i, j :: 0 <= i < j < |s| ==> s[i] != s[j] }

  /** The different blocks requested, the latest first. */
  function Latest(requests: seq<nat>): seq<nat> {
    if requests == [] then []
    else
      var last := requests[|requests|-1];
      [last] + Without(Latest(requests[..|requests|-1]), last)
  }

  function Front(s: seq<nat>): seq<nat> { if |s| <= NR_CBLOCKS then s else s[..NR_CBLOCKS] }

  /** When block b was last requested. */
  function LastRequest(requests: seq<nat>, b: nat): (r: nat)
    requires b in requests
    ensures r < |requests| && requests[r] == b && b !in requests[r+1..]
  {
    if requests[|requests|-1] == b then |requests| - 1
    else
      assert requests == requests[..|requests|-1] + [requests[|requests|-1]];
      var r := LastRequest(requests[..|requests|-1], b);
      assert requests[r+1..] == requests[..|requests|-1][r+1..] + [requests[|requests|-1]];
      r
  }

  lemma {:induction false} WithoutAbsent(s: seq<nat>, x: nat)
    requires x !in s
    ensures Without(s, x) == s
  {
    if s != [] {
      assert s == [s[0]] + s[1..];
      WithoutAbsent(s[1..], x);
    }
  }

  lemma {:induction false} WithoutAt(s: seq<nat>, k: nat)
    requires Distinct(s) && k < |s|
    ensures Without(s, s[k]) == s[..k] + s[k+1..]
  {
    if k == 0 {
      WithoutAbsent(s[1..], s[0]);
    } else {
      WithoutAt(s[1..], k - 1);
      assert s[1..][k-1] == s[k];
      assert s[..k] + s[k+1..] == [s[0]] + (s[1..][..k-1] + s[1..][k..]);
    }
  }

  ghost predicate ByLastRequest(requests: seq<nat>, s: seq<nat>) {
    && (forall b :: b in s <==> b in requests)
    && (forall i, j :: 0 <= i < j < |s| ==>
          s[i] in requests && s[j] in requests && LastRequest(requests, s[i]) > LastRequest(requests, s[j]))
  }

  lemma ByLastDistinct(requests: seq<nat>, s: seq<nat>)
    requires ByLastRequest(requests, s)
    ensures Distinct(s)
  {
    forall i, j | 0 <= i < j < |s| ensures s[i] != s[j] {
      assert LastRequest(requests, s[i]) > LastRequest(requests, s[j]);
    }
  }

  lemma RequestedBefore(requests: seq<nat>, last: nat, b: nat)
    requires b in requests && b != last
    ensures b in requests + [last] && LastRequest(requests + [last], b) == LastRequest(requests, b)
  {
    assert (requests + [last])[..|requests|] == requests;
  }

  /** The list names exactly the blocks requested, each once, in the order of their last requests. */
  lemma {:induction false} LatestIsByLastRequest(requests: seq<nat>)
    ensures ByLastRequest(requests, Latest(requests)) && Distinct(Latest(requests))
  {
    if requests != [] {
      var before, last := requests[..|requests|-1], requests[|requests|-1];
      assert requests == before + [last];
      LatestIsByLastRequest(before);
      var t := Latest(before);
      if last in t {
        var k :| 0 <= k < |t| && t[k] == last;
        WithoutAt(t, k);
        OneLater(before, last, t, k);
        assert Latest(requests) == Moved(t, k);
      } else {
        WithoutAbsent(t, last);
        NewLater(before, last, t);
      }
      ByLastDistinct(requests, Latest(requests));
    }
  }

  lemma NewLater(before: seq<nat>, last: nat, t: seq<nat>)
    requires ByLastRequest(before, t) && last !in t
    ensures ByLastRequest(before + [last], [last] + t)
  {
    var s, requests := [last] + t, before + [last];
    forall i, j | 0 <= i < j < |s|
      ensures s[i] in requests && s[j] in requests && LastRequest(requests, s[i]) > LastRequest(requests, s[j])
    {
      RequestedBefore(before, last, s[j]);
      if i > 0 { RequestedBefore(before, last, s[i]); }
    }
  }

  /** Where element i of the list stood before the k-th was moved to the front. */
  function Before(k: nat, i: nat): nat { if i == 0 then k else if i <= k then i - 1 else i }

  function Moved(s: seq<nat>, k: nat): (r: seq<nat>)
    requires k < |s|
    ensures |r| == |s|
  {
    [s[k]] + (s[..k] + s[k+1..])
  }

  lemma MovedAt(s: seq<nat>, k: nat, i: nat)
    requires k < |s| && i < |s|
    ensures Moved(s, k)[i] == s[Before(k, i)]
  {
  }

  lemma MovedSame(s: seq<nat>, k: nat, x: nat)
    requires k < |s|
    ensures x in Moved(s, k) <==> x in s
  {
    assert s == s[..k] + [s[k]] + s[k+1..];
  }

  lemma OneLater(before: seq<nat>, last: nat, t: seq<nat>, k: nat)
    requires ByLastRequest(before, t) && k < |t| && t[k] == last && Distinct(t)
    ensures ByLastRequest(before + [last], Moved(t, k))
  {
    hide LastRequest;
    var s, requests := Moved(t, k), before + [last];
    forall b ensures b in s <==> b in requests { MovedSame(t, k, b); }
    forall i, j | 0 <= i < j < |s|
      ensures s[i] in requests && s[j] in requests && LastRequest(requests, s[i]) > LastRequest(requests, s[j])
    {
      LaterStays(before, last, t, k, i, j);
    }
  }

  lemma LaterStays(before: seq<nat>, last: nat, t: seq<nat>, k: nat, i: nat, j: nat)
    requires ByLastRequest(before, t) && k < |t| && t[k] == last && Distinct(t) && i < j < |t|
    ensures var s, requests := Moved(t, k), before + [last];
      s[i] in requests && s[j] in requests && LastRequest(requests, s[i]) > LastRequest(requests, s[j])
  {
    MovedAt(t, k, i);
    MovedAt(t, k, j);
    var a, b := t[Before(k, i)], t[Before(k, j)];
    RequestedBefore(before, last, b);
    if i > 0 {
      RequestedBefore(before, last, a);
    } else {
      assert (before + [last])[|before|] == last;
    }
  }

  /** Keeping the front of the list is enough to know the front after the next request. */
  lemma FrontOfNext(requests: seq<nat>, b: nat)
    ensures Front(Latest(requests + [b])) == Front([b] + Without(Front(Latest(requests)), b))
  {
    assert (requests + [b])[..|requests|] == requests;
    LatestIsByLastRequest(requests);
    FrontOfTouched(Latest(requests), b);
  }

  lemma FrontMoved(s: seq<nat>, k: nat, b: nat)
    requires k < |Front(s)|
    ensures Front([b] + (s[..k] + s[k+1..])) == Front([b] + (Front(s)[..k] + Front(s)[k+1..]))
  {
    var f, r := Front(s), [b] + (s[..k] + s[k+1..]);
    if |s| > NR_CBLOCKS {
      assert f[..k] == s[..k] && f[k+1..] == s[k+1..NR_CBLOCKS];
      assert s[k+1..] == s[k+1..NR_CBLOCKS] + s[NR_CBLOCKS..];
      assert r == ([b] + (f[..k] + f[k+1..])) + s[NR_CBLOCKS..];
    }
  }

  lemma FrontOfTouched(s: seq<nat>, b: nat)
    requires Distinct(s)
    ensures Front([b] + Without(s, b)) == Front([b] + Without(Front(s), b))
  {
    var f := Front(s);
    if b in s {
      var k :| 0 <= k < |s| && s[k] == b;
      WithoutAt(s, k);
      if k < |f| {
        assert f[k] == b;
        WithoutAt(f, k);
        FrontMoved(s, k, b);
      } else {
        assert b !in f;
        WithoutAbsent(f, b);
      }
    } else {
      WithoutAbsent(s, b);
      WithoutAbsent(f, b);
    }
  }

  // ---------- The cache ----------

  datatype CacheBlock = CacheBlock(block: nat, access: nat, buf: Block)

  const EMPTY := CacheBlock(0, 0, Zero)

  /** `order` lists slots, the latest access first. */
  ghost predicate Falling(slots: seq<CacheBlock>, order: seq<nat>, counter: nat) {
    && (forall i :: 0 <= i < |order| ==> order[i] < |slots| && 1 <= slots[order[i]].access <= counter)
    && (forall i, j :: 0 <= i < j < |order| ==> slots[order[i]].access > slots[order[j]].access)
  }

  /** The slots not listed have not been used yet. */
  ghost predicate Others(slots: seq<CacheBlock>, order: seq<nat>) {
    forall i :: 0 <= i < |slots| && i !in order ==> slots[i] == EMPTY
  }

  ghost predicate Lists(slots: seq<CacheBlock>, order: seq<nat>, blocks: seq<nat>) {
    |order| == |blocks| && forall i :: 0 <= i < |order| ==> order[i] < |slots| && slots[order[i]].block == blocks[i] != 0
  }

  ghost predicate Mirrors(slots: seq<CacheBlock>, dev: seq<Block>) {
    forall i :: 0 <= i < |slots| && slots[i].block != 0 ==> slots[i].block < |dev| && slots[i].buf == dev[slots[i].block]
  }

  /** The slots buffer exactly `blocks`, listed by access. */
  ghost predicate Good(slots: seq<CacheBlock>, order: seq<nat>, counter: nat, blocks: seq<nat>, dev: seq<Block>) {
    |slots| == NR_CBLOCKS && Distinct(order) && Distinct(blocks) &&
    Falling(slots, order, counter) && Others(slots, order) && Lists(slots, order, blocks) && Mirrors(slots, dev)
  }

  lemma {:induction false} DistinctBound(s: seq<nat>, n: nat)
    requires Distinct(s) && forall i :: 0 <= i < |s| ==> s[i] < n
    ensures |s| <= n
  {
    if s != [] {
      assert s[0] < n;
      var k := n - 1;
      if k in s {
        var i :| 0 <= i < |s| && s[i] == k;
        DistinctBound(s[..i] + s[i+1..], n - 1);
      } else {
        DistinctBound(s, n - 1);
      }
    }
  }

  lemma {:induction false} SetFits(order: seq<nat>, s: set<nat>)
    requires forall x :: x in s ==> x in order
    ensures |s| <= |order|
  {
    if order != [] {
      var x := order[0];
      forall y | y in s - {x} ensures y in order[1..] { }
      SetFits(order[1..], s - {x});
    } else {
      assert s == {};
    }
  }

  lemma DistinctMoved(s: seq<nat>, k: nat)
    requires Distinct(s) && k < |s|
    ensures Distinct(Moved(s, k))
  {
    forall i, j | 0 <= i < j < |s| ensures Moved(s, k)[i] != Moved(s, k)[j] {
      MovedAt(s, k, i);
      MovedAt(s, k, j);
    }
  }

  lemma FallingMoved(slots: seq<CacheBlock>, order: seq<nat>, counter: nat, k: nat, slot: CacheBlock)
    requires Falling(slots, order, counter) && Distinct(order) && k < |order| && slot.access == counter + 1
    ensures Falling(slots[order[k] := slot], Moved(order, k), counter + 1)
  {
    var slots', order' := slots[order[k] := slot], Moved(order, k);
    forall i | 0 <= i < |order'| ensures order'[i] < |slots| && 1 <= slots'[order'[i]].access <= counter + 1 {
      MovedAt(order, k, i);
    }
    forall i, j | 0 <= i < j < |order'| ensures slots'[order'[i]].access > slots'[order'[j]].access {
      MovedAt(order, k, i);
      MovedAt(order, k, j);
      var a, b := Before(k, i), Before(k, j);
      assert order[b] != order[k] && slots'[order'[j]] == slots[order[b]];
      if i > 0 { assert order[a] != order[k] && slots'[order'[i]] == slots[order[a]]; }
    }
  }

  lemma OthersMoved(slots: seq<CacheBlock>, order: seq<nat>, k: nat, slot: CacheBlock)
    requires Others(slots, order) && k < |order| && order[k] < |slots|
    ensures Others(slots[order[k] := slot], Moved(order, k))
  {
    forall i: nat | 0 <= i < |slots| && i !in Moved(order, k) ensures slots[order[k] := slot][i] == EMPTY {
      MovedSame(order, k, i);
    }
  }

  lemma ListsMoved(slots: seq<CacheBlock>, order: seq<nat>, blocks: seq<nat>, k: nat, slot: CacheBlock)
    requires Lists(slots, order, blocks) && Distinct(order) && k < |order| && slot.block != 0
    ensures Lists(slots[order[k] := slot], Moved(order, k), [slot.block] + (blocks[..k] + blocks[k+1..]))
  {
    var slots', order', blocks' := slots[order[k] := slot], Moved(order, k), [slot.block] + (blocks[..k] + blocks[k+1..]);
    forall i | 0 <= i < |order'| ensures order'[i] < |slots'| && slots'[order'[i]].block == blocks'[i] != 0 {
      MovedAt(order, k, i);
      if i > 0 { assert order[Before(k, i)] != order[k] && blocks'[i] == blocks[Before(k, i)]; }
    }
  }

  lemma Added(slots: seq<CacheBlock>, order: seq<nat>, counter: nat, blocks: seq<nat>, dev: seq<Block>, cp: nat, slot: CacheBlock)
    requires Good(slots, order, counter, blocks, dev) && cp < |slots| && cp !in order
    requires slot.access == counter + 1 && slot.block != 0 && slot.block !in blocks && slot.block < |dev| && slot.buf == dev[slot.block]
    ensures Good(slots[cp := slot], [cp] + order, counter + 1, [slot.block] + blocks, dev)
  {
    var slots', order', blocks' := slots[cp := slot], [cp] + order, [slot.block] + blocks;
    forall i | 0 <= i < |order'| ensures order'[i] < |slots'| && slots'[order'[i]].block == blocks'[i] != 0 {
      if i > 0 { assert order'[i] == order[i-1] != cp; }
    }
    AddedFalls(slots, order, counter, cp, slot);
  }

  lemma AddedFalls(slots: seq<CacheBlock>, order: seq<nat>, counter: nat, cp: nat, slot: CacheBlock)
    requires Falling(slots, order, counter) && cp < |slots| && cp !in order && slot.access == counter + 1
    ensures Falling(slots[cp := slot], [cp] + order, counter + 1)
  {
    var slots', order' := slots[cp := slot], [cp] + order;
    forall i | 0 < i < |order'| ensures slots'[order'[i]] == slots[order[i-1]] && order'[i] == order[i-1] { assert order[i-1] != cp; }
  }

  lemma MirrorsStill(slots: seq<CacheBlock>, dev: seq<Block>, cp: nat, slot: CacheBlock)
    requires Mirrors(slots, dev) && cp < |slots| && slot.block < |dev| && slot.buf == dev[slot.block]
    ensures Mirrors(slots[cp := slot], dev)
  {
  }

  /** The block in slot order[k] is asked for again, or its slot, the last of five, is reused. */
  lemma Replaced(slots: seq<CacheBlock>, order: seq<nat>, counter: nat, blocks: seq<nat>, dev: seq<Block>, k: nat, slot: CacheBlock)
    requires Good(slots, order, counter, blocks, dev) && k < |order|
    requires slot.access == counter + 1 && slot.block != 0 && slot.block < |dev| && slot.buf == dev[slot.block]
    requires Distinct([slot.block] + (blocks[..k] + blocks[k+1..]))
    ensures Good(slots[order[k] := slot], Moved(order, k), counter + 1, [slot.block] + (blocks[..k] + blocks[k+1..]), dev)
  {
    DistinctMoved(order, k);
    FallingMoved(slots, order, counter, k, slot);
    OthersMoved(slots, order, k, slot);
    ListsMoved(slots, order, blocks, k, slot);
    MirrorsStill(slots, dev, order[k], slot);
  }

  lemma UsedInOrder(slots: seq<CacheBlock>, order: seq<nat>, i: nat)
    requires Others(slots, order) && i < |slots| && slots[i] != EMPTY
    ensures i in order
  {
  }

  lemma LastIsOldest(slots: seq<CacheBlock>, order: seq<nat>, counter: nat, k: nat)
    requires Falling(slots, order, counter) && k < |order|
    ensures slots[order[k]].access >= 1
    ensures k < |order| - 1 ==> slots[order[k]].access > slots[order[|order|-1]].access
  {
  }

  /** The oldest slot is listed last, unless there is one never used. */
  lemma OldestIsLast(slots: seq<CacheBlock>, order: seq<nat>, counter: nat, blocks: seq<nat>, dev: seq<Block>, cp: nat)
    requires Good(slots, order, counter, blocks, dev) && cp < NR_CBLOCKS
    requires forall i :: 0 <= i < NR_CBLOCKS ==> slots[cp].access <= slots[i].access
    ensures cp !in order ==> |order| < NR_CBLOCKS
    ensures cp in order ==> |order| == NR_CBLOCKS && order[NR_CBLOCKS-1] == cp
  {
    DistinctBound(order, NR_CBLOCKS);
    if cp !in order {
      DistinctBound([cp] + order, NR_CBLOCKS);
    } else {
      var k :| 0 <= k < |order| && order[k] == cp;
      LastIsOldest(slots, order, counter, k);
      forall i: nat | 0 <= i < NR_CBLOCKS ensures i in order {
        assert slots[i].access >= slots[cp].access;
        UsedInOrder(slots, order, i);
      }
      SetFits(order, {0, 1, 2, 3, 4});
    }
  }

  /** After a request: the order of the slots, and the blocks they buffer. */
  function NewOrder(order: seq<nat>, cp: nat): seq<nat> { [cp] + Without(order, cp) }

  function NewFront(blocks: seq<nat>, block: nat): seq<nat> { Front([block] + Without(blocks, block)) }

  lemma Hit(slots: seq<CacheBlock>, order: seq<nat>, counter: nat, blocks: seq<nat>, dev: seq<Block>, cp: nat)
    requires Good(slots, order, counter, blocks, dev) && cp < NR_CBLOCKS && slots[cp].block != 0
    ensures slots[cp].block < |dev| && slots[cp].buf == dev[slots[cp].block]
    ensures Good(slots[cp := slots[cp].(access := counter + 1)], NewOrder(order, cp), counter + 1, NewFront(blocks, slots[cp].block), dev)
  {
    UsedInOrder(slots, order, cp);
    var k: nat :| 0 <= k < |order| && order[k] == cp;
    WithoutAt(order, k);
    WithoutAt(blocks, k);
    DistinctBound(order, NR_CBLOCKS) by { assert Falling(slots, order, counter); }
    DistinctMoved(blocks, k);
    Replaced(slots, order, counter, blocks, dev, k, slots[cp].(access := counter + 1));
  }

  ghost predicate Absent(slots: seq<CacheBlock>, block: nat) {
    forall i :: 0 <= i < |slots| ==> slots[i].block != block
  }

  ghost predicate IsOldest(slots: seq<CacheBlock>, cp: nat) {
    cp < |slots| && forall i :: 0 <= i < |slots| ==> slots[cp].access <= slots[i].access
  }

  lemma Miss(slots: seq<CacheBlock>, order: seq<nat>, counter: nat, blocks: seq<nat>, dev: seq<Block>, cp: nat, block: nat)
    requires Good(slots, order, counter, blocks, dev) && cp < NR_CBLOCKS && 0 < block < |dev|
    requires Absent(slots, block) && IsOldest(slots, cp)
    ensures Good(slots[cp := CacheBlock(block, counter + 1, dev[block])], NewOrder(order, cp), counter + 1, NewFront(blocks, block), dev)
  {
    NotListed(slots, order, blocks, block);
    OldestIsLast(slots, order, counter, blocks, dev, cp);
    hide Good, Without, Distinct, Lists, Absent, IsOldest, NewOrder, NewFront;
    if cp in order {
      MissFull(slots, order, counter, blocks, dev, block);
    } else {
      MissFree(slots, order, counter, blocks, dev, cp, block);
    }
  }

  lemma NotListed(slots: seq<CacheBlock>, order: seq<nat>, blocks: seq<nat>, block: nat)
    requires Lists(slots, order, blocks) && Absent(slots, block)
    ensures block !in blocks
  {
  }

  lemma FullFront(blocks: seq<nat>, block: nat)
    requires Distinct(blocks) && |blocks| == NR_CBLOCKS && block !in blocks
    ensures var k := NR_CBLOCKS - 1; var kept := [block] + (blocks[..k] + blocks[k+1..]);
      Front([block] + blocks) == kept && Distinct(kept)
  {
    var k := NR_CBLOCKS - 1;
    var kept := [block] + (blocks[..k] + blocks[k+1..]);
    assert blocks[k+1..] == [];
    assert ([block] + blocks)[..NR_CBLOCKS] == kept;
    forall i, j | 0 <= i < j < |kept| ensures kept[i] != kept[j] {
      assert kept[j] == blocks[j-1];
      if i > 0 { assert kept[i] == blocks[i-1]; }
    }
  }

  lemma MissFull(slots: seq<CacheBlock>, order: seq<nat>, counter: nat, blocks: seq<nat>, dev: seq<Block>, block: nat)
    requires Good(slots, order, counter, blocks, dev) && 0 < block < |dev| && block !in blocks && |order| == NR_CBLOCKS
    ensures var cp := order[NR_CBLOCKS - 1];
      Good(slots[cp := CacheBlock(block, counter + 1, dev[block])], NewOrder(order, cp), counter + 1, NewFront(blocks, block), dev)
  {
    var k := NR_CBLOCKS - 1;
    WithoutAbsent(blocks, block);
    WithoutAt(order, k);
    FullFront(blocks, block);
    hide Good, Without, Distinct, Lists;
    Replaced(slots, order, counter, blocks, dev, k, CacheBlock(block, counter + 1, dev[block]));
  }

  lemma MissFree(slots: seq<CacheBlock>, order: seq<nat>, counter: nat, blocks: seq<nat>, dev: seq<Block>, cp: nat, block: nat)
    requires Good(slots, order, counter, blocks, dev) && 0 < block < |dev| && block !in blocks
    requires cp < NR_CBLOCKS && cp !in order && |order| < NR_CBLOCKS
    ensures Good(slots[cp := CacheBlock(block, counter + 1, dev[block])], NewOrder(order, cp), counter + 1, NewFront(blocks, block), dev)
  {
    WithoutAbsent(blocks, block);
    WithoutAbsent(order, cp);
    assert |blocks| == |order| && |slots| == NR_CBLOCKS;
    hide Good, Without, Distinct, Lists;
    Added(slots, order, counter, blocks, dev, cp, CacheBlock(block, counter + 1, dev[block]));
  }

  lemma NextFront(requests: seq<nat>, block: nat)
    ensures Front(Latest(requests + [block])) == NewFront(Front(Latest(requests)), block)
  {
    FrontOfNext(requests, block);
  }

  lemma GoodSize(slots: seq<CacheBlock>, order: seq<nat>, counter: nat, blocks: seq<nat>, dev: seq<Block>)
    requires Good(slots, order, counter, blocks, dev)
    ensures |slots| == NR_CBLOCKS
  {
  }

  class Cache {
    const slots: array<CacheBlock>
    const dev: seq<Block>
    ghost var order: seq<nat>
    ghost var requests: seq<nat>

    ghost predicate Valid(counter: nat)
      reads this, slots
    {
      Good(slots[..], order, counter, Front(Latest(requests)), dev)
    }

    constructor (dev: seq<Block>)
      ensures Valid(0) && this.dev == dev && requests == [] && fresh(slots)
    {
      this.dev := dev;
      slots := new CacheBlock[NR_CBLOCKS](_ => EMPTY);
      order, requests := [], [];
    }

    /** get_block() for a type that has a cache; None when the device cannot be read there. */
    method GetBlock(block: nat, counter: nat) returns (r: Option<Block>, counter': nat)
      requires Valid(counter) && block != 0
      modifies this, slots
      ensures Valid(counter')
      ensures r == if block < |dev| then Some(dev[block]) else None
      ensures requests == if r.Some? then old(requests) + [block] else old(requests)
      ensures counter' == if r.Some? then counter + 1 else counter
    {
      hide Good, Latest, Front, Without, NewOrder, NewFront, Absent, IsOldest;
      counter' := counter;
      ghost var was, recent := slots[..], Front(Latest(requests));
      NextFront(requests, block);
      GoodSize(was, order, counter, recent, dev);
      var hit, cp := Find(block);
      if !hit {
        cp := Oldest();
        if block >= |dev| { return None, counter; }
        Miss(was, order, counter, recent, dev, cp, block);
        slots[cp] := slots[cp].(buf := dev[block]);
      } else {
        Hit(was, order, counter, recent, dev, cp);
      }
      counter' := counter + 1;
      slots[cp] := slots[cp].(access := counter', block := block);
      assert slots[..] == was[cp := slots[cp]];
      order := NewOrder(order, cp);
      requests := requests + [block];
      r := Some(slots[cp].buf);
    }

    method Find(block: nat) returns (hit: bool, cp: nat)
      requires slots.Length == NR_CBLOCKS
      ensures hit ==> cp < NR_CBLOCKS && slots[cp].block == block
      ensures !hit ==> Absent(slots[..], block)
    {
      cp := 0;
      while cp < NR_CBLOCKS
        invariant cp <= NR_CBLOCKS && forall i :: 0 <= i < cp ==> slots[i].block != block
      {
        if slots[cp].block == block { return true, cp; }
        cp := cp + 1;
      }
      hit := false;
    }

    /** The slot with the smallest access counter. */
    method Oldest() returns (cp: nat)
      requires slots.Length == NR_CBLOCKS
      ensures IsOldest(slots[..], cp)
    {
      cp := 0;
      var i := 0;
      while i < NR_CBLOCKS
        invariant i <= NR_CBLOCKS && cp < NR_CBLOCKS && forall j :: 0 <= j < i ==> slots[cp].access <= slots[j].access
      {
        if slots[i].access < slots[cp].access { cp := i; }
        i := i + 1;
      }
    }

    /** What the cache buffers: the five different blocks most recently requested. */
    lemma Buffers(counter: nat, b: nat)
      requires Valid(counter) && b != 0
      ensures b in Front(Latest(requests)) <==> exists i :: 0 <= i < slots.Length && slots[i].block == b
    {
      var blocks := Front(Latest(requests));
      if b in blocks {
        var k :| 0 <= k < |blocks| && blocks[k] == b;
        assert slots[order[k]].block == b;
      }
      if i: nat :| 0 <= i < slots.Length && slots[i].block == b {
        UsedInOrder(slots[..], order, i);
        var k :| 0 <= k < |order| && order[k] == i;
        assert blocks[k] == b;
      }
    }

    /** The counter is shared, and moves when the other cache is used. */
    lemma CounterMoves(counter: nat, later: nat)
      requires Valid(counter) && counter <= later
      ensures Valid(later)
    {
    }
  }
}
