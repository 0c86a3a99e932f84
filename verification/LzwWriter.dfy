/** compress's code output: packing codes of the current width into the buffer, and the
    write-outs at full buffers, width changes, clears and the end of the input. */
module LzwWriter {
  import opened BitOps
  import opened LzwStream
  import opened Stdio

  const LMASK: seq<nat> := [0xff, 0xfe, 0xfc, 0xf8, 0xf0, 0xe0, 0xc0, 0x80, 0x00]
  const RMASK: seq<nat> := [0x00, 0x01, 0x03, 0x07, 0x0f, 0x1f, 0x3f, 0x7f, 0xff]

  lemma MaskBits(r: nat, i: nat)
    requires r <= 8 && i < 8
    ensures BitAt(RMASK[r], i) <==> i < r
    ensures BitAt(LMASK[r], i) <==> r <= i
  {
    Powers();
    assert Pow2(4) == 16;
    var m := Pow2(r) - 1;
    assert RMASK[r] == m;
    BitOfMask(r, i);
    LMaskBits(r, i);
  }

  lemma LMaskBits(r: nat, i: nat)
    requires r <= 8 && i < 8
    ensures BitAt(LMASK[r], i) <==> r <= i
  {
    assert LMASK[r] == Shl(Pow2(8 - r) - 1, r) by { assert Pow2(4) == 16; ShlMask(r); }
    BitOfShl(Pow2(8 - r) - 1, r, i);
    if r <= i { BitOfMask(8 - r, i - r); }
  }

  lemma ShlMask(r: nat)
    requires r <= 8
    ensures LMASK[r] == Shl(Pow2(8 - r) - 1, r)
  {
    Powers();
    assert Pow2(4) == 16 && Pow2(5) == 32 && Pow2(6) == 64 && Pow2(7) == 128;
    assert Shl(255, 0) == 255 && Shl(127, 1) == 254 && Shl(63, 2) == 252 && Shl(31, 3) == 248;
    assert Shl(15, 4) == 240 && Shl(7, 5) == 224 && Shl(3, 6) == 192 && Shl(1, 7) == 128;
    ShlZero(8);
  }

  lemma {:induction false} ShlZero(k: nat)
    ensures Shl(0, k) == 0
  {
    if k > 0 { ShlZero(k - 1); }
  }

  /** `buf` agrees with `was` below bit `off`, and its next `done` bits are the low bits of `code`. */
  ghost predicate Placed(was: seq<Byte>, buf: seq<Byte>, off: nat, code: nat, done: nat) {
    && |was| == |buf| && off + done <= 8 * |buf|
    && (forall p: nat :: p < off ==> StreamBit(buf, p) == StreamBit(was, p))
    && (forall k: nat :: k < done ==> StreamBit(buf, off + k) == BitAt(code, k))
  }

  /** The byte the first part of a code shares with the code before it. */
  lemma FirstByte(was: seq<Byte>, off: nat, code: nat, v: nat)
    requires off < 8 * |was|
    requires v == Or(And(was[off / 8], RMASK[off % 8]), And(Shl(code, off % 8), LMASK[off % 8]))
    ensures v < 256
    ensures Placed(was, was[off / 8 := v], off, code, 8 - off % 8)
  {
    var q, r := off / 8, off % 8;
    Powers();
    AndBound(was[q], RMASK[r], 8);
    AndBound(Shl(code, r), LMASK[r], 8);
    OrBound(And(was[q], RMASK[r]), And(Shl(code, r), LMASK[r]), 8);
    forall i: nat | i < 8 ensures BitAt(v, i) == if i < r then BitAt(was[q], i) else BitAt(code, i - r) {
      BitOfOr(And(was[q], RMASK[r]), And(Shl(code, r), LMASK[r]), i);
      BitOfAnd(was[q], RMASK[r], i);
      BitOfAnd(Shl(code, r), LMASK[r], i);
      BitOfShl(code, r, i);
      MaskBits(r, i);
    }
    var buf := was[q := v];
    forall p: nat | p < off ensures StreamBit(buf, p) == StreamBit(was, p) {
      if p / 8 == q { assert p % 8 < r; }
    }
    forall k: nat | k < 8 - r ensures StreamBit(buf, off + k) == BitAt(code, k) {
      assert (off + k) / 8 == q && (off + k) % 8 == r + k;
      assert BitAt(v, r + k) == BitAt(code, k);
    }
  }

  /** A further byte filled with the next bits of the code; `rest` is what is left of it. */
  lemma NextByte(was: seq<Byte>, buf: seq<Byte>, off: nat, code: nat, done: nat, rest: nat, more: nat)
    requires Placed(was, buf, off, code, done)
    requires (off + done) % 8 == 0 && (off + done) / 8 < |buf| && more <= 8
    requires rest == Shr(code, done)
    ensures And(rest, 0xff) < 256
    ensures Placed(was, buf[(off + done) / 8 := And(rest, 0xff)], off, code, done + more)
  {
    var q := (off + done) / 8;
    var v := And(rest, 0xff);
    Powers();
    AndBound(rest, 0xff, 8);
    forall i: nat | i < 8 ensures BitAt(v, i) == BitAt(code, i + done) {
      BitOfAnd(rest, 0xff, i);
      MaskBits(8, i);
      BitOfShr(code, done, i);
    }
    var new_ := buf[q := v];
    forall p: nat | p < off ensures StreamBit(new_, p) == StreamBit(was, p) {
      assert p / 8 < q;
    }
    forall k: nat | k < done + more ensures StreamBit(new_, off + k) == BitAt(code, k) {
      var p := off + k;
      if k < done {
        assert p / 8 < q;
        assert StreamBit(buf, p) == BitAt(code, k);
      } else {
        assert p / 8 == q && p % 8 == k - done;
      }
    }
  }

  lemma {:induction false} ShrShr(x: nat, a: nat, b: nat)
    ensures Shr(Shr(x, a), b) == Shr(x, a + b)
  {
    if a > 0 { ShrShr(x / 2, a - 1, b); }
  }

  /** Codes survive any change of the bytes that keeps their bits. */
  lemma {:induction false} HoldsFrame(was: seq<Byte>, buf: seq<Byte>, n: nat, group: seq<nat>)
    requires Holds(was, n, group)
    requires Bits(|group|, n) <= 8 * |buf| && Bits(|group|, n) <= 8 * |was|
    requires forall p: nat :: p < Bits(|group|, n) ==> StreamBit(buf, p) == StreamBit(was, p)
    ensures Holds(buf, n, group)
  {
    if group != [] {
      var m := |group| - 1;
      assert Bits(|group|, n) == Bits(m, n) + n;
      HoldsFrame(was, buf, n, group[..m]);
      forall k: nat | k < n ensures BitAt(group[m], k) == StreamBit(buf, Bits(m, n) + k) {
        assert StreamBit(buf, Bits(m, n) + k) == StreamBit(was, Bits(m, n) + k);
      }
    }
  }

  lemma PlacedHolds(was: seq<Byte>, buf: seq<Byte>, n: nat, group: seq<nat>, code: nat)
    requires Holds(was, n, group) && Placed(was, buf, Bits(|group|, n), code, n)
    ensures Holds(buf, n, group + [code])
  {
    HoldsFrame(was, buf, n, group);
    var g := group + [code];
    assert g[..|g|-1] == group;
    forall k: nat | k < n ensures BitAt(code, k) == StreamBit(buf, Bits(|group|, n) + k) {
    }
  }

  /** The writer's fields are those of the stream after `evs`. */
  ghost predicate InState(cfg: Config, evs: seq<Event>, nbits: nat, maxcode: nat, offset: nat,
                          out: seq<Byte>, buf: seq<Byte>) {
    var s := After(cfg, evs);
    && Legal(cfg, evs)
    && nbits == s.nbits && maxcode == s.maxcode && offset == Bits(|s.group|, s.nbits)
    && Framed(cfg, evs, out)
    && Holds(buf, s.nbits, s.group)
  }

  /** Numbers output() relies on before it writes a code. */
  lemma BeforeCode(cfg: Config, evs: seq<Event>, nbits: nat, maxcode: nat, offset: nat,
                   out: seq<Byte>, buf: seq<Byte>)
    requires cfg.Valid() && InState(cfg, evs, nbits, maxcode, offset, out, buf)
    ensures var s := After(cfg, evs);
            && |s.group| <= 7 && INIT_BITS <= nbits <= BITS
            && nbits == s.nbits && maxcode == s.maxcode && offset == Bits(|s.group|, nbits)
            && Bits(|s.group| + 1, nbits) == offset + nbits
            && offset + nbits <= 8 * nbits && (offset + nbits == 8 * nbits <==> |s.group| == 7)
            && (offset + 7) / 8 <= nbits
            && |out| == s.flushed
            && Holds(buf, nbits, s.group)
  {
    hide Framed, Holds, After;
    var s := After(cfg, evs);
    LegalIsOk(cfg, evs);
    BitsFacts(|s.group|, s.nbits);
    BitsFacts(|s.group| + 1, s.nbits);
    TailFits(|s.group|, s.nbits);
    FramedLength(cfg, evs, out);
  }

  lemma FramedLength(cfg: Config, evs: seq<Event>, out: seq<Byte>)
    requires Framed(cfg, evs, out)
    ensures |out| == After(cfg, evs).flushed
  {
  }

  /** The bookkeeping of output() is one step of the stream. */
  lemma AfterCode(cfg: Config, evs: seq<Event>, ev: Event, nbits: nat, maxcode: nat, offset: nat,
                  out: seq<Byte>, chunk: seq<Byte>, buf: seq<Byte>)
    requires cfg.Valid() && Legal(cfg, evs) && Framed(cfg, evs, out)
    requires var s := After(cfg, evs);
             var t := Step(cfg, s, ev);
             && |s.group| <= 7 && INIT_BITS <= s.nbits <= |buf|
             && Fits(cfg, s, ev)
             && nbits == t.nbits && maxcode == t.maxcode && offset == Bits(|t.group|, t.nbits)
             && chunk == (if Flushes(cfg, s, ev) then buf[..s.nbits] else [])
             && Holds(buf, s.nbits, s.group + [CodeOf(ev)])
    ensures InState(cfg, evs + [ev], nbits, maxcode, offset, out + chunk, buf)
  {
    hide Framed, Legal, After, Fits;
    var s := After(cfg, evs);
    AfterSnoc(cfg, evs, ev);
    if Flushes(cfg, s, ev) {
      PrefixHolds(buf, s.nbits, s.group + [CodeOf(ev)]);
    }
    FramedSnoc(cfg, evs, ev, out, chunk);
  }

  lemma PrefixHolds(buf: seq<Byte>, n: nat, group: seq<nat>)
    requires Holds(buf, n, group) && 0 < |group| <= 8 && 0 < n <= |buf|
    ensures Holds(buf[..n], n, group)
  {
    BitsFacts(|group|, n);
    HoldsFrame(buf, buf[..n], n, group);
  }

  /** The last write: the used bytes of the buffer. */
  lemma AfterLast(cfg: Config, evs: seq<Event>, nbits: nat, maxcode: nat, offset: nat,
                  out: seq<Byte>, buf: seq<Byte>)
    requires cfg.Valid() && InState(cfg, evs, nbits, maxcode, offset, out, buf) && |buf| == BITS
    ensures (offset + 7) / 8 <= BITS
    ensures Written(cfg, evs, out + buf[..(offset + 7) / 8])
  {
    hide Framed, Holds, After, Bits, Legal;
    BeforeCode(cfg, evs, nbits, maxcode, offset, out, buf);
    var s := After(cfg, evs);
    var tail := buf[..(offset + 7) / 8];
    HoldsFrame(buf, tail, nbits, s.group);
    assert (out + tail)[..s.flushed] == out;
    assert (out + tail)[s.flushed..] == tail;
  }

  class Writer {
    const cfg: Config
    var nbits: nat
    var maxcode: nat
    var freeEnt: nat
    var clearFlg: bool
    var offset: nat
    const buf: array<Byte>
    var out: seq<Byte>
    ghost var evs: seq<Event>

    /** All fields but free_ent and clear_flg, which compress() sets before output() tests them. */
    ghost predicate Consistent()
      reads this, buf
    {
      cfg.Valid() && buf.Length == BITS && InState(cfg, evs, nbits, maxcode, offset, out, buf[..])
    }

    constructor (cfg: Config)
      requires cfg.Valid()
      ensures this.cfg == cfg && Consistent() && evs == [] && out == []
      ensures freeEnt == cfg.First() && !clearFlg
      ensures fresh(buf)
    {
      this.cfg := cfg;
      offset := 0;
      clearFlg := false;
      nbits := INIT_BITS;
      maxcode := MaxCode(INIT_BITS);
      freeEnt := cfg.First();
      buf := new Byte[BITS](_ => 0);
      out := [];
      evs := [];
    }

    /** The bit-insertion part of output(): `code` goes to bit `offset` of the buffer. */
    method Insert(code: nat)
      requires buf.Length == BITS && INIT_BITS <= nbits <= BITS && offset + nbits <= 8 * nbits
      modifies buf
      ensures Placed(old(buf[..]), buf[..], offset, code, nbits)
    {
      hide Placed, Or, And, Shl, Shr, StreamBit, BitAt;
      var rOff, bits, bp, c := offset, nbits as int, 0, code;
      bp := bp + rOff / 8;
      rOff := rOff % 8;
      ghost var was := buf[..];
      FirstByte(was, offset, code, Or(And(buf[bp], RMASK[rOff]), And(Shl(c, rOff), LMASK[rOff])));
      buf[bp] := Or(And(buf[bp], RMASK[rOff]), And(Shl(c, rOff), LMASK[rOff]));
      assert buf[..] == was[offset / 8 := buf[offset / 8]];
      bp := bp + 1;
      bits := bits - (8 - rOff);
      c := Shr(c, 8 - rOff);
      ghost var done := 8 - rOff;
      if bits >= 8 {
        NextByte(was, buf[..], offset, code, done, c, 8);
        ghost var before := buf[..];
        buf[bp] := And(c, 0xff);
        assert buf[..] == before[bp := buf[bp]];
        bp := bp + 1;
        ShrShr(code, done, 8);
        c := Shr(c, 8);
        bits := bits - 8;
        done := done + 8;
      }
      if bits != 0 {
        NextByte(was, buf[..], offset, code, done, c, bits);
        ghost var before := buf[..];
        buf[bp] := And(c, 0xff);
        assert buf[..] == before[bp := buf[bp]];
      }
    }

    /** output() on a real code: the free_ent it tests is the one behind this event. */
    method Output(code: nat, ghost ev: Event)
      requires Consistent() && clearFlg == ev.Reset?
      requires Fits(cfg, After(cfg, evs), ev) && code == CodeOf(ev)
      requires ev.Emit? ==> freeEnt == cfg.First() + |DictAfter(cfg, After(cfg, evs), ev)|
      modifies this`nbits, this`maxcode, this`clearFlg, this`offset, this`out, this`evs, buf
      ensures Consistent() && evs == old(evs) + [ev] && !clearFlg
    {
      hide Bits, Holds, Framed, Legal, Placed, After, Fits, DictAfter, Pow2;
      ghost var s := After(cfg, evs);
      BeforeCode(cfg, evs, nbits, maxcode, offset, out, buf[..]);
      ghost var was := buf[..];
      Insert(code);
      PlacedHolds(was, buf[..], nbits, s.group, code);
      ghost var chunk := [];
      offset := offset + nbits;
      if offset == 8 * nbits {
        out := out + buf[..nbits];
        chunk := buf[..nbits];
        offset := 0;
      }
      if freeEnt > maxcode || clearFlg {
        if offset > 0 {
          out := out + buf[..nbits];
          chunk := buf[..nbits];
        }
        offset := 0;
        if clearFlg {
          nbits := INIT_BITS;
          maxcode := MaxCode(INIT_BITS);
          clearFlg := false;
        } else {
          nbits := nbits + 1;
          maxcode := if nbits == cfg.maxbits then cfg.Limit() else MaxCode(nbits);
        }
      }
      BitsFacts(0, nbits);
      AfterCode(cfg, evs, ev, nbits, maxcode, offset, old(out), chunk, buf[..]);
      assert out == old(out) + chunk;
      evs := evs + [ev];
    }

    /** output() on -1: the used part of the buffer goes out. */
    method Finish()
      requires Consistent()
      modifies this`out, this`offset
      ensures Written(cfg, evs, out)
    {
      AfterLast(cfg, evs, nbits, maxcode, offset, out, buf[..]);
      if offset > 0 {
        out := out + buf[..(offset + 7) / 8];
      }
      offset := 0;
      assert out == old(out) + buf[..(old(offset) + 7) / 8];
    }
  }
}
