/** mkfs's write-back cache of 20 block buffers, in front of the device. */
module BlockCache {
  import opened FsDisk

  const CACHE_SIZE := 20

  datatype Slot = Slot(block: Block, num: int, dirty: bool, usecnt: nat)

  /** The slots hold different blocks, and a clean slot what the device holds. */
  ghost predicate Slots(slots: seq<Slot>, disk: seq<Block>) {
    && (forall i :: 0 <= i < |slots| ==> -1 <= slots[i].num < |disk|)
    && (forall i :: 0 <= i < |slots| && slots[i].num == -1 ==> !slots[i].dirty)
    && (forall i, j :: 0 <= i < j < |slots| && slots[i].num == slots[j].num ==> slots[i].num == -1)
    && (forall i :: 0 <= i < |slots| && slots[i].num >= 0 && !slots[i].dirty ==> slots[i].block == disk[slots[i].num])
  }

  /** The blocks as the cache's users see them: a buffered block hides the device's. */
  ghost predicate IsView(view: seq<Block>, slots: seq<Slot>, disk: seq<Block>)
    requires Slots(slots, disk)
  {
    && |view| == |disk|
    && (forall i :: 0 <= i < |slots| && slots[i].num >= 0 ==> view[slots[i].num] == slots[i].block)
    && (forall n :: 0 <= n < |disk| && (forall i :: 0 <= i < |slots| ==> slots[i].num != n) ==> view[n] == disk[n])
  }

  ghost predicate Absent(slots: seq<Slot>, n: nat) {
    forall i :: 0 <= i < |slots| ==> slots[i].num != n
  }

  /** The clean slot used least; -1 when all are dirty. */
  ghost predicate LeastUsedClean(slots: seq<Slot>, fp: int) {
    if 0 <= fp < |slots| then
      !slots[fp].dirty && forall i :: 0 <= i < |slots| && !slots[i].dirty ==> slots[fp].usecnt <= slots[i].usecnt
    else
      forall i :: 0 <= i < |slots| ==> slots[i].dirty
  }

  ghost predicate LeastUsed(slots: seq<Slot>, fp: nat) {
    fp < |slots| && forall i :: 0 <= i < |slots| ==> slots[fp].usecnt <= slots[i].usecnt
  }

  /** What the slot buffers is on the device too, so the slot may be reused. */
  ghost predicate Stored(slots: seq<Slot>, disk: seq<Block>, fp: nat) {
    fp < |slots| && (0 <= slots[fp].num < |disk| ==> disk[slots[fp].num] == slots[fp].block)
  }

  class Cache {
    const slots: array<Slot>
    const umap: array<bool>
    const disk: array<Block>
    ghost var view: seq<Block>

    ghost predicate Valid()
      reads this, slots, umap, disk
    {
      && slots.Length == CACHE_SIZE && umap.Length == disk.Length
      && Slots(slots[..], disk[..]) && IsView(view, slots[..], disk[..])
    }

    /** cache_init() over a device that already holds `raw`. */
    constructor (raw: seq<Block>)
      ensures Valid() && fresh(slots) && fresh(umap) && fresh(disk)
      ensures view == raw && umap[..] == seq(|raw|, _ => false)
    {
      view := raw;
      slots := new Slot[CACHE_SIZE](_ => Slot(Zero, -1, false, 0));
      umap := new bool[|raw|](_ => false);
      disk := new Block[|raw|](i requires 0 <= i < |raw| => raw[i]);
      new;
      assert disk[..] == raw;
      assert umap[..] == seq(|raw|, _ => false);
    }

    /** read_and_set(): has block n been accessed before? */
    method ReadAndSet(n: nat) returns (r: bool)
      requires n < umap.Length
      modifies umap
      ensures r == old(umap[n]) && umap[..] == old(umap[..])[n := true]
    {
      r := umap[n];
      umap[n] := true;
    }

    /** The scan both get_block() and put_block() start with: the slot holding block n, or else the
        clean slot used least. */
    method Look(n: nat) returns (hit: int, fp: int)
      requires Valid()
      ensures -1 <= hit < CACHE_SIZE && -1 <= fp < CACHE_SIZE
      ensures hit >= 0 ==> slots[hit].num == n
      ensures hit < 0 ==> Absent(slots[..], n) && LeastUsedClean(slots[..], fp)
    {
      fp := -1;
      var bp := 0;
      while bp < CACHE_SIZE
        invariant 0 <= bp <= CACHE_SIZE && -1 <= fp < bp
        invariant forall i :: 0 <= i < bp ==> slots[i].num != n
        invariant fp >= 0 ==> !slots[fp].dirty && forall i :: 0 <= i < bp && !slots[i].dirty ==> slots[fp].usecnt <= slots[i].usecnt
        invariant fp < 0 ==> forall i :: 0 <= i < bp ==> slots[i].dirty
      {
        if slots[bp].num == n { return bp, fp; }
        if !slots[bp].dirty {
          if fp >= 0 {
            if slots[fp].usecnt > slots[bp].usecnt { fp := bp; }
          } else {
            fp := bp;
          }
        }
        bp := bp + 1;
      }
      hit := -1;
    }

    /** The slot to reuse: the clean one found, or else the slot used least, written back. */
    method MakeRoom(clean: int) returns (fp: nat)
      requires Valid() && -1 <= clean < CACHE_SIZE && LeastUsedClean(slots[..], clean)
      modifies disk
      ensures Valid() && fp < CACHE_SIZE && Stored(slots[..], disk[..], fp)
      ensures clean >= 0 ==> fp == clean && disk[..] == old(disk[..])
      ensures clean < 0 ==> LeastUsed(slots[..], fp)
    {
      if clean >= 0 { return clean; }
      fp := 0;
      var bp := 0;
      while bp < CACHE_SIZE
        invariant 0 <= bp <= CACHE_SIZE && fp < CACHE_SIZE
        invariant forall i :: 0 <= i < bp ==> slots[fp].usecnt <= slots[i].usecnt
      {
        if slots[fp].usecnt > slots[bp].usecnt { fp := bp; }
        bp := bp + 1;
      }
      SlotFreed(slots[..], disk[..], view, fp);
      hide Slots, IsView;
      disk[slots[fp].num] := slots[fp].block;
      assert disk[..] == old(disk[..])[slots[fp].num := slots[fp].block];
    }

    /** get_block() */
    method GetBlock(n: nat) returns (buf: Block)
      requires Valid() && n < disk.Length
      modifies slots, umap, disk
      ensures Valid() && view == old(view)
      ensures umap[..] == old(umap[..])[n := true]
      ensures buf == if old(umap[n]) then view[n] else Zero
    {
      var seen := ReadAndSet(n);
      if !seen { return Zero; }
      var hit, fp := Look(n);
      hide Slots, IsView, Absent, LeastUsedClean, LeastUsed, Stored;
      if hit >= 0 {
        slots[hit] := slots[hit].(usecnt := slots[hit].usecnt + 1);
        SlotTouched(old(slots[..]), slots[..], disk[..], view, hit);
        return slots[hit].block;
      }
      fp := MakeRoom(fp);
      slots[fp] := Slot(disk[n], n, false, 0);
      assert slots[..] == old(slots[..])[fp := slots[fp]];
      SlotFilled(old(slots[..]), disk[..], view, fp, slots[fp]);
      buf := slots[fp].block;
    }

    /** put_block() */
    method PutBlock(n: nat, buf: Block)
      requires Valid() && n < disk.Length
      modifies this`view, slots, umap, disk
      ensures Valid() && view == old(view)[n := buf]
      ensures umap[..] == old(umap[..])[n := true]
    {
      var _ := ReadAndSet(n);
      var hit, fp := Look(n);
      hide Slots, IsView, Absent, LeastUsedClean, LeastUsed, Stored;
      if hit >= 0 {
        view := view[n := buf];
        slots[hit] := slots[hit].(block := buf, dirty := true);
        assert slots[..] == old(slots[..])[hit := slots[hit]];
        SlotOverwritten(old(slots[..]), disk[..], old(view), hit, slots[hit]);
        return;
      }
      fp := MakeRoom(fp);
      view := view[n := buf];
      slots[fp] := Slot(buf, n, true, 1);
      assert slots[..] == old(slots[..])[fp := slots[fp]];
      SlotWritten(old(slots[..]), disk[..], old(view), fp, slots[fp]);
    }

    /** flush() */
    method Flush()
      requires Valid()
      modifies slots, disk
      ensures Valid() && disk[..] == view
      ensures forall i :: 0 <= i < CACHE_SIZE ==> !slots[i].dirty
    {
      var bp := 0;
      while bp < CACHE_SIZE
        invariant 0 <= bp <= CACHE_SIZE
        invariant Valid()
        invariant forall i :: 0 <= i < bp ==> !slots[i].dirty
      {
        if slots[bp].dirty {
          ghost var was, wasDisk := slots[..], disk[..];
          disk[slots[bp].num] := slots[bp].block;
          slots[bp] := slots[bp].(dirty := false);
          assert slots[..] == was[bp := was[bp].(dirty := false)];
          assert disk[..] == wasDisk[was[bp].num := was[bp].block];
          SlotCleaned(was, wasDisk, view, bp);
        }
        bp := bp + 1;
      }
      AllClean(view, slots[..], disk[..]);
    }
  }

  // ---------- What each step does to slots, device and view ----------

  lemma SlotTouched(slots: seq<Slot>, after: seq<Slot>, disk: seq<Block>, view: seq<Block>, i: nat)
    requires Slots(slots, disk) && IsView(view, slots, disk) && i < |slots|
    requires after == slots[i := slots[i].(usecnt := slots[i].usecnt + 1)]
    ensures Slots(after, disk) && IsView(view, after, disk)
  {
    assert forall j :: 0 <= j < |slots| ==> after[j].num == slots[j].num;
  }

  /** Writing back a slot changes no view: what the device then holds elsewhere is what it held. */
  lemma SlotFreed(slots: seq<Slot>, disk: seq<Block>, view: seq<Block>, fp: nat)
    requires Slots(slots, disk) && IsView(view, slots, disk) && fp < |slots| && slots[fp].num >= 0
    ensures var now := disk[slots[fp].num := slots[fp].block]; Slots(slots, now) && IsView(view, slots, now)
  {
  }

  lemma SlotFilled(slots: seq<Slot>, disk: seq<Block>, view: seq<Block>, fp: nat, slot: Slot)
    requires Slots(slots, disk) && IsView(view, slots, disk) && Stored(slots, disk, fp)
    requires 0 <= slot.num < |disk| && !slot.dirty && slot.block == disk[slot.num]
    requires Absent(slots, slot.num)
    ensures Slots(slots[fp := slot], disk) && IsView(view, slots[fp := slot], disk)
  {
    var after := slots[fp := slot];
    assert forall i :: 0 <= i < |slots| && i != fp ==> after[i] == slots[i];
    forall n | 0 <= n < |disk| && (forall i :: 0 <= i < |after| ==> after[i].num != n)
      ensures view[n] == disk[n]
    {
      assert after[fp].num != n;
      if n != slots[fp].num {
        assert forall i :: 0 <= i < |slots| && i != fp ==> slots[i].num == after[i].num;
      }
    }
  }

  lemma SlotWritten(slots: seq<Slot>, disk: seq<Block>, view: seq<Block>, fp: nat, slot: Slot)
    requires Slots(slots, disk) && IsView(view, slots, disk) && Stored(slots, disk, fp)
    requires 0 <= slot.num < |disk| && slot.dirty
    requires Absent(slots, slot.num)
    ensures Slots(slots[fp := slot], disk) && IsView(view[slot.num := slot.block], slots[fp := slot], disk)
  {
    var after := slots[fp := slot];
    assert forall i :: 0 <= i < |slots| && i != fp ==> after[i] == slots[i];
    forall n | 0 <= n < |disk| && (forall i :: 0 <= i < |after| ==> after[i].num != n)
      ensures view[slot.num := slot.block][n] == disk[n]
    {
      assert after[fp].num != n;
      if n != slots[fp].num {
        assert forall i :: 0 <= i < |slots| && i != fp ==> slots[i].num == after[i].num;
      }
    }
  }

  lemma SlotOverwritten(slots: seq<Slot>, disk: seq<Block>, view: seq<Block>, hit: nat, slot: Slot)
    requires Slots(slots, disk) && IsView(view, slots, disk) && hit < |slots|
    requires slot.num == slots[hit].num >= 0 && slot.dirty
    ensures Slots(slots[hit := slot], disk) && IsView(view[slot.num := slot.block], slots[hit := slot], disk)
  {
    var after := slots[hit := slot];
    assert forall i :: 0 <= i < |slots| ==> after[i].num == slots[i].num;
  }

  lemma SlotCleaned(slots: seq<Slot>, disk: seq<Block>, view: seq<Block>, i: nat)
    requires Slots(slots, disk) && IsView(view, slots, disk) && i < |slots| && slots[i].dirty
    ensures var after, now := slots[i := slots[i].(dirty := false)], disk[slots[i].num := slots[i].block];
      Slots(after, now) && IsView(view, after, now)
  {
    var after := slots[i := slots[i].(dirty := false)];
    assert forall j :: 0 <= j < |slots| ==> after[j].num == slots[j].num;
  }

  lemma AllClean(view: seq<Block>, slots: seq<Slot>, disk: seq<Block>)
    requires Slots(slots, disk) && IsView(view, slots, disk)
    requires forall i :: 0 <= i < |slots| ==> !slots[i].dirty
    ensures disk == view
  {
    forall n | 0 <= n < |disk| ensures view[n] == disk[n] {
      if i :| 0 <= i < |slots| && slots[i].num == n {
        assert view[slots[i].num] == slots[i].block;
      }
    }
  }

  // ---------- Whole runs ----------

  datatype Call = Get(n: nat) | Put(n: nat, buf: Block)

  /** Has block n been accessed in these calls? */
  predicate Accessed(calls: seq<Call>, n: nat) {
    exists i :: 0 <= i < |calls| && calls[i].n == n
  }

  /** The last value put into block n, or what the device held to begin with. */
  function LastPut(calls: seq<Call>, raw: seq<Block>, n: nat): Block
    requires n < |raw|
  {
    if calls == [] then raw[n]
    else
      var last := calls[|calls|-1];
      if last.Put? && last.n == n then last.buf else LastPut(calls[..|calls|-1], raw, n)
  }

  /** What get_block(n) has to return after these calls. */
  function Answer(calls: seq<Call>, raw: seq<Block>, n: nat): Block
    requires n < |raw|
  {
    if Accessed(calls, n) then LastPut(calls, raw, n) else Zero
  }

  /** The cache after these calls: every block as last put, and a mark on those accessed. */
  ghost predicate InStep(calls: seq<Call>, raw: seq<Block>, view: seq<Block>, umap: seq<bool>) {
    && |view| == |umap| == |raw|
    && (forall n :: 0 <= n < |raw| ==> view[n] == LastPut(calls, raw, n))
    && (forall n :: 0 <= n < |raw| ==> umap[n] == Accessed(calls, n))
  }

  lemma StartInStep(raw: seq<Block>)
    ensures InStep([], raw, raw, seq(|raw|, _ => false))
  {
  }

  lemma OneMore(calls: seq<Call>, call: Call, raw: seq<Block>, view: seq<Block>, umap: seq<bool>)
    requires call.n < |raw| && InStep(calls, raw, view, umap)
    ensures InStep(calls + [call], raw, if call.Put? then view[call.n := call.buf] else view, umap[call.n := true])
  {
    var more := calls + [call];
    assert more[..|calls|] == calls;
    forall n | 0 <= n < |raw| ensures umap[call.n := true][n] == Accessed(more, n) {
      if n == call.n { assert more[|calls|].n == n; }
      if umap[n] {
        var i :| 0 <= i < |calls| && calls[i].n == n;
        assert more[i].n == n;
      }
    }
  }

  lemma InStepAnswers(calls: seq<Call>, raw: seq<Block>, view: seq<Block>, umap: seq<bool>, n: nat)
    requires n < |raw| && InStep(calls, raw, view, umap)
    ensures Answer(calls, raw, n) == if umap[n] then view[n] else Zero
  {
  }

  /** Each answer is the one the calls before it ask for. */
  ghost predicate Answered(calls: seq<Call>, raw: seq<Block>, answers: seq<Block>) {
    |answers| <= |calls| &&
    forall i :: 0 <= i < |answers| && calls[i].Get? && calls[i].n < |raw| ==> answers[i] == Answer(calls[..i], raw, calls[i].n)
  }

  /** One call, made in a cache that is in step with the calls before it. */
  method Step(c: Cache, ghost calls: seq<Call>, ghost raw: seq<Block>, call: Call) returns (answer: Block)
    requires c.Valid() && InStep(calls, raw, c.view, c.umap[..]) && call.n < c.disk.Length
    modifies c, c.slots, c.umap, c.disk
    ensures c.Valid() && InStep(calls + [call], raw, c.view, c.umap[..])
    ensures call.Get? && call.n < |raw| ==> answer == Answer(calls, raw, call.n)
  {
    Sizes(c, calls, raw);
    OneMore(calls, call, raw, c.view, c.umap[..]);
    hide *;
    match call {
      case Get(n) =>
        InStepAnswers(calls, raw, c.view, c.umap[..], n);
        answer := c.GetBlock(n);
      case Put(n, buf) =>
        c.PutBlock(n, buf);
        answer := Zero;
    }
  }

  /** Any run of get_block() and put_block(), then flush(). */
  method Run(raw: seq<Block>, calls: seq<Call>) returns (answers: seq<Block>, disk: seq<Block>)
    requires forall i :: 0 <= i < |calls| ==> calls[i].n < |raw|
    ensures |answers| == |calls| && Answered(calls, raw, answers)
    ensures |disk| == |raw| && forall n :: 0 <= n < |raw| ==> disk[n] == LastPut(calls, raw, n)
  {
    var c := new Cache(raw);
    answers := [];
    StartInStep(raw);
    for j := 0 to |calls|
      invariant c.Valid() && fresh(c.slots) && fresh(c.umap) && fresh(c.disk)
      invariant |answers| == j && InStep(calls[..j], raw, c.view, c.umap[..]) && Answered(calls, raw, answers)
    {
      hide *;
      Sizes(c, calls[..j], raw);
      var answer := Step(c, calls[..j], raw, calls[j]);
      assert calls[..j+1] == calls[..j] + [calls[j]];
      OneAnswer(calls, raw, answers, answer);
      answers := answers + [answer];
    }
    assert calls[..|calls|] == calls;
    c.Flush();
    disk := c.disk[..];
  }

  lemma OneAnswer(calls: seq<Call>, raw: seq<Block>, answers: seq<Block>, buf: Block)
    requires |answers| < |calls| && Answered(calls, raw, answers)
    requires var c := calls[|answers|]; c.Get? && c.n < |raw| ==> buf == Answer(calls[..|answers|], raw, c.n)
    ensures Answered(calls, raw, answers + [buf])
  {
  }

  lemma Sizes(c: Cache, calls: seq<Call>, raw: seq<Block>)
    requires c.Valid() && InStep(calls, raw, c.view, c.umap[..])
    ensures |raw| == c.umap.Length == c.disk.Length
  {
  }
}
