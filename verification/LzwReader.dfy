/** decompress's code input: reading whole buffers and taking codes of the current width from them. */
module LzwReader {
  import opened BitOps
  import opened LzwStream
  import opened LzwWriter
  import opened Stdio

  /** The low `got` bits of `code` are the bits at `off`. */
  ghost predicate Gathered(buf: seq<Byte>, off: nat, code: nat, got: nat) {
    && code < Pow2(got) && off + got <= 8 * |buf|
    && forall k: nat :: k < got ==> BitAt(code, k) == StreamBit(buf, off + k)
  }

  lemma GatherFirst(buf: seq<Byte>, off: nat)
    requires off < 8 * |buf|
    ensures Gathered(buf, off, Shr(buf[off / 8], off % 8), 8 - off % 8)
  {
    Powers();
    var b, r := buf[off / 8], off % 8;
    ShrBound(b, r, 8 - r);
    forall k: nat | k < 8 - r ensures BitAt(Shr(b, r), k) == StreamBit(buf, off + k) {
      BitOfShr(b, r, k);
      assert (off + k) / 8 == off / 8 && (off + k) % 8 == r + k;
    }
  }

  lemma GatherMore(buf: seq<Byte>, off: nat, code: nat, got: nat, more: nat)
    requires Gathered(buf, off, code, got) && more <= 8
    requires (off + got) % 8 == 0 && (off + got) / 8 < |buf|
    ensures Gathered(buf, off, Or(code, Shl(And(buf[(off + got) / 8], RMASK[more]), got)), got + more)
  {
    var b := buf[(off + got) / 8];
    var x := And(b, RMASK[more]);
    var z := Or(code, Shl(x, got));
    Powers();
    assert Pow2(4) == 16;
    AndBound(b, RMASK[more], more);
    ShlBound(x, got, more);
    Pow2Mono(got, got + more);
    OrBound(code, Shl(x, got), got + more);
    forall k: nat | k < got + more ensures BitAt(z, k) == StreamBit(buf, off + k) {
      BitOfOr(code, Shl(x, got), k);
      BitOfShl(x, got, k);
      if k >= got {
        HighBitsClear(code, got, k);
        BitOfAnd(b, RMASK[more], k - got);
        MaskBits(more, k - got);
        assert (off + k) / 8 == (off + got) / 8 && (off + k) % 8 == k - got;
      }
    }
  }

  lemma {:induction false} Pow2Mono(a: nat, b: nat)
    requires a <= b
    ensures Pow2(a) <= Pow2(b)
    decreases b
  {
    if a < b { Pow2Mono(a, b - 1); }
  }

  /** Masking a byte with all ones keeps it. */
  lemma FullMask(b: Byte)
    ensures And(b, RMASK[8]) == b
  {
    Powers();
    AndBound(b, RMASK[8], 8);
    forall i: nat | i < 8 ensures BitAt(And(b, RMASK[8]), i) == BitAt(b, i) {
      BitOfAnd(b, RMASK[8], i);
      MaskBits(8, i);
    }
    BitsDetermine(And(b, RMASK[8]), b, 8);
  }

  lemma GatheredIsCode(buf: seq<Byte>, off: nat, code: nat, n: nat, c: nat)
    requires Gathered(buf, off, code, n) && CodeAt(buf, off, n, c) && c < Pow2(n)
    ensures code == c
  {
    forall i: nat | i < n ensures BitAt(code, i) == BitAt(c, i) {
      assert BitAt(code, i) == StreamBit(buf, off + i);
    }
    BitsDetermine(code, c, n);
  }

  /** The reader has taken the codes of the first `i` events. */
  ghost predicate ReadState(cfg: Config, evs: seq<Event>, src: seq<Byte>, i: nat,
                            nbits: nat, maxcode: nat, offset: nat, size: int, pos: nat, buf: seq<Byte>) {
    && cfg.Valid() && i <= |evs| && Legal(cfg, evs) && Written(cfg, evs, src) && pos <= |src|
    && if i == 0 then
         nbits == INIT_BITS && maxcode == MaxCode(INIT_BITS) && offset == 0 && size == 0 && pos == 0
       else
         InGroup(cfg, evs, src, i, nbits, maxcode, offset, size, pos, buf)
  }

  ghost predicate InGroup(cfg: Config, evs: seq<Event>, src: seq<Byte>, i: nat,
                          nbits: nat, maxcode: nat, offset: nat, size: int, pos: nat, buf: seq<Byte>)
    requires 0 < i <= |evs|
  {
    var s := After(cfg, evs[..i-1]);
    && s.flushed <= |src|
    && nbits == s.nbits && maxcode == s.maxcode
    && offset == Bits(|s.group| + 1, nbits)
    && var chunk := Chunk(cfg, evs, src, i - 1);
    && pos == s.flushed + |chunk| && size == 8 * |chunk| - (nbits - 1)
    && chunk <= buf
  }

  /** decompress() keeps free_ent where the writer had it, one event behind;
      after the clear code it is one less. */
  ghost predicate FreeEntOk(cfg: Config, evs: seq<Event>, i: nat, freeEnt: nat, clearFlg: bool)
    requires i <= |evs|
  {
    clearFlg == (i > 0 && evs[i-1].Reset?) &&
    freeEnt == if clearFlg then CLEAR else cfg.First() + |After(cfg, evs[..i]).dict|
  }

  /** getcode()'s test for a new buffer, and what it finds either way. */
  ghost predicate RefillOk(cfg: Config, evs: seq<Event>, src: seq<Byte>, i: nat, nbits: nat, maxcode: nat,
                           offset: nat, size: int, pos: nat, buf: seq<Byte>, freeEnt: nat, clearFlg: bool)
    requires i <= |evs|
  {
    var s := After(cfg, evs[..i]);
    if clearFlg || offset >= size || freeEnt > maxcode then
      && (clearFlg ==> freeEnt <= maxcode)
      && (i == |evs| ==> pos == |src|)
      && (i < |evs| ==> pos == s.flushed && s.group == [])
      && (i < |evs| ==> s.nbits == NextBits(nbits, maxcode, freeEnt, clearFlg))
      && (i < |evs| ==> s.maxcode == NextMaxcode(cfg, nbits, maxcode, freeEnt, clearFlg))
    else
      && 0 < i < |evs| && s.nbits == nbits && s.maxcode == maxcode
      && offset == Bits(|s.group|, nbits) && s.flushed <= |src|
      && var chunk := Chunk(cfg, evs, src, i);
      && chunk <= buf && pos == s.flushed + |chunk| && size == 8 * |chunk| - (nbits - 1)
  }

  function NextBits(nbits: nat, maxcode: nat, freeEnt: nat, clearFlg: bool): nat {
    if clearFlg then INIT_BITS else if freeEnt > maxcode then nbits + 1 else nbits
  }

  function NextMaxcode(cfg: Config, nbits: nat, maxcode: nat, freeEnt: nat, clearFlg: bool): nat {
    if clearFlg then MaxCode(INIT_BITS)
    else if freeEnt <= maxcode then maxcode
    else if nbits + 1 == cfg.maxbits then cfg.Limit()
    else MaxCode(nbits + 1)
  }

  /** The reader starts a new buffer exactly where the writer did, or at the end. */
  lemma RefillIsRight(cfg: Config, evs: seq<Event>, src: seq<Byte>, i: nat, nbits: nat, maxcode: nat,
                      offset: nat, size: int, pos: nat, buf: seq<Byte>, freeEnt: nat, clearFlg: bool)
    requires ReadState(cfg, evs, src, i, nbits, maxcode, offset, size, pos, buf)
    requires FreeEntOk(cfg, evs, i, freeEnt, clearFlg)
    ensures RefillOk(cfg, evs, src, i, nbits, maxcode, offset, size, pos, buf, freeEnt, clearFlg)
    ensures var s := After(cfg, evs[..i]); INIT_BITS <= s.nbits <= BITS && |s.group| <= 7
  {
    hide Framed, Holds, Legal;
    LegalPrefix(cfg, evs, i);
    LegalIsOk(cfg, evs[..i]);
    Powers();
    if i == 0 {
      assert evs[..i] == [];
      if evs == [] { EmptyIsEmpty(cfg, src); }
    } else {
      LegalPrefix(cfg, evs, i - 1);
      RefillLater(cfg, evs, src, i, nbits, maxcode, offset, size, pos, buf, freeEnt, clearFlg);
    }
  }

  lemma EmptyIsEmpty(cfg: Config, src: seq<Byte>)
    requires Written(cfg, [], src)
    ensures src == []
  {
  }

  lemma RefillLater(cfg: Config, evs: seq<Event>, src: seq<Byte>, i: nat, nbits: nat, maxcode: nat,
                    offset: nat, size: int, pos: nat, buf: seq<Byte>, freeEnt: nat, clearFlg: bool)
    requires 0 < i <= |evs| && cfg.Valid() && Legal(cfg, evs) && Legal(cfg, evs[..i-1]) && Written(cfg, evs, src)
    requires InGroup(cfg, evs, src, i, nbits, maxcode, offset, size, pos, buf)
    requires FreeEntOk(cfg, evs, i, freeEnt, clearFlg)
    ensures RefillOk(cfg, evs, src, i, nbits, maxcode, offset, size, pos, buf, freeEnt, clearFlg)
  {
    hide Framed, Holds, Legal, Bits, After, Pow2, DictAfter;
    var s0, e := After(cfg, evs[..i-1]), evs[i-1];
    StepOfPrefix(cfg, evs, i - 1);
    LegalIsOk(cfg, evs[..i-1]);
    AtLeast256(cfg, s0);
    var s := After(cfg, evs[..i]);
    var chunk := Chunk(cfg, evs, src, i - 1);
    BitsFacts(|s0.group|, nbits);
    BitsFacts(|s0.group| + 1, nbits);
    if Flushes(cfg, s0, e) {
      FlushedChunkIsFull(cfg, evs, src, i - 1);
      if i == |evs| { assert evs[..i] == evs; NothingLeft(cfg, evs, src); }
    } else if i < |evs| {
      ChunkHolds(cfg, evs, src, i);
      HoldsElement(Chunk(cfg, evs, src, i), nbits, s.group + [CodeOf(evs[i])], |s.group|);
    } else {
      assert evs[..i] == evs;
      TailFits(|s.group|, s.nbits);
    }
  }

  lemma AtLeast256(cfg: Config, s: Stream)
    requires cfg.Valid() && StreamOk(cfg, s)
    ensures s.maxcode >= 256 && INIT_BITS <= s.nbits <= BITS && |s.group| < 8
  {
    Powers();
  }

  lemma NothingLeft(cfg: Config, evs: seq<Event>, src: seq<Byte>)
    requires Written(cfg, evs, src) && After(cfg, evs).group == []
    ensures |src| == After(cfg, evs).flushed
  {
  }

  lemma FlushedChunkIsFull(cfg: Config, evs: seq<Event>, src: seq<Byte>, i: nat)
    requires i < |evs| && Legal(cfg, evs) && Written(cfg, evs, src)
    requires After(cfg, evs[..i]).flushed <= |src|
    requires Flushes(cfg, After(cfg, evs[..i]), evs[i])
    ensures |Chunk(cfg, evs, src, i)| == After(cfg, evs[..i]).nbits
  {
    hide Framed, Holds, Legal, Flushes;
    StepOfPrefix(cfg, evs, i);
    FramedPrefix(cfg, evs, src[..After(cfg, evs).flushed], i + 1);
  }

  /** The state behind the code of event `i`. */
  lemma NextState(cfg: Config, evs: seq<Event>, src: seq<Byte>, i: nat,
                  nbits: nat, maxcode: nat, offset: nat, size: int, pos: nat, buf: seq<Byte>)
    requires cfg.Valid() && i < |evs| && Legal(cfg, evs) && Written(cfg, evs, src) && pos <= |src|
    requires var s := After(cfg, evs[..i]);
             && s.flushed <= |src| && nbits == s.nbits && maxcode == s.maxcode
             && offset == Bits(|s.group| + 1, nbits)
             && var chunk := Chunk(cfg, evs, src, i);
             && chunk <= buf && pos == s.flushed + |chunk| && size == 8 * |chunk| - (nbits - 1)
    ensures ReadState(cfg, evs, src, i + 1, nbits, maxcode, offset, size, pos, buf)
  {
    hide Framed, Holds, Legal, Bits, After, Written;
    assert evs[..(i + 1) - 1] == evs[..i];
  }

  /** The buffer of event `i` is in place and the offset is that of its code. */
  ghost predicate Ready(cfg: Config, evs: seq<Event>, src: seq<Byte>, i: nat,
                        nbits: nat, maxcode: nat, offset: nat, size: int, pos: nat, buf: seq<Byte>) {
    i < |evs| && pos <= |src| &&
    var s := After(cfg, evs[..i]);
    && s.flushed <= |src| && nbits == s.nbits && maxcode == s.maxcode
    && offset == Bits(|s.group|, nbits)
    && var chunk := Chunk(cfg, evs, src, i);
    && chunk <= buf && pos == s.flushed + |chunk| && size == 8 * |chunk| - (nbits - 1)
  }

  lemma BytesAhead(cfg: Config, evs: seq<Event>, src: seq<Byte>, i: nat)
    requires cfg.Valid() && i < |evs| && Legal(cfg, evs) && Written(cfg, evs, src)
    ensures After(cfg, evs[..i]).flushed < |src|
  {
    hide Framed, Legal, Written, After, Holds;
    ChunkHolds(cfg, evs, src, i);
    var s := After(cfg, evs[..i]);
    HoldsElement(Chunk(cfg, evs, src, i), s.nbits, s.group + [CodeOf(evs[i])], |s.group|);
    BitsInBuffer(cfg, evs, i);
  }

  /** What fread returns is the chunk. */
  lemma ChunkRead(cfg: Config, evs: seq<Event>, src: seq<Byte>, i: nat, from: nat, got: nat)
    requires i <= |evs| && from == After(cfg, evs[..i]).flushed <= |src|
    requires var n := After(cfg, evs[..i]).nbits; got == if |src| - from < n then |src| - from else n
    ensures src[from..from + got] == Chunk(cfg, evs, src, i)
  {
  }

  /** What the buffer holds at the reader's offset. */
  lemma CodeIsThere(cfg: Config, evs: seq<Event>, src: seq<Byte>, i: nat, buf: seq<Byte>)
    requires cfg.Valid() && i < |evs| && Legal(cfg, evs) && Written(cfg, evs, src)
    requires After(cfg, evs[..i]).flushed <= |src| && Chunk(cfg, evs, src, i) <= buf
    ensures var s := After(cfg, evs[..i]);
            && CodeAt(buf, Bits(|s.group|, s.nbits), s.nbits, CodeOf(evs[i]))
            && CodeOf(evs[i]) < Pow2(s.nbits)
            && Bits(|s.group|, s.nbits) + s.nbits == Bits(|s.group| + 1, s.nbits) <= 8 * |Chunk(cfg, evs, src, i)|
            && |Chunk(cfg, evs, src, i)| <= s.nbits
  {
    hide Framed, Legal, Written, Fits;
    ChunkHolds(cfg, evs, src, i);
    var s := After(cfg, evs[..i]);
    HoldsElement(Chunk(cfg, evs, src, i), s.nbits, s.group + [CodeOf(evs[i])], |s.group|);
    LegalPrefix(cfg, evs, i);
    LegalPrefix(cfg, evs, i + 1);
    StepOfPrefix(cfg, evs, i);
    LegalIsOk(cfg, evs[..i]);
    CodeFits(cfg, s, evs[i]);
    BitsFacts(|s.group|, s.nbits);
    LongerBuffer(Chunk(cfg, evs, src, i), buf, Bits(|s.group|, s.nbits), s.nbits, CodeOf(evs[i]));
  }

  lemma LongerBuffer(chunk: seq<Byte>, buf: seq<Byte>, off: nat, n: nat, c: nat)
    requires chunk <= buf && CodeAt(chunk, off, n, c)
    ensures CodeAt(buf, off, n, c)
  {
    forall k: nat | k < n ensures BitAt(c, k) == StreamBit(buf, off + k) {
      assert StreamBit(chunk, off + k) == StreamBit(buf, off + k);
    }
  }

  class Reader {
    const cfg: Config
    const src: seq<Byte>
    var pos: nat
    var nbits: nat
    var maxcode: nat
    var freeEnt: nat
    var clearFlg: bool
    var offset: nat
    var size: int
    const buf: array<Byte>
    ghost const evs: seq<Event>
    ghost var i: nat

    ghost predicate Valid()
      reads this, buf
    {
      buf.Length == BITS && ReadState(cfg, evs, src, i, nbits, maxcode, offset, size, pos, buf[..])
    }

    constructor (cfg: Config, src: seq<Byte>, ghost evs: seq<Event>)
      requires cfg.Valid() && Legal(cfg, evs) && Written(cfg, evs, src)
      ensures this.cfg == cfg && this.src == src && this.evs == evs && Valid() && i == 0
      ensures freeEnt == cfg.First() && !clearFlg && fresh(buf)
    {
      hide Legal, Written, Framed, Holds, Pow2;
      this.cfg := cfg;
      this.src := src;
      this.evs := evs;
      i := 0;
      nbits := INIT_BITS;
      maxcode := MaxCode(INIT_BITS);
      freeEnt := cfg.First();
      clearFlg := false;
      offset := 0;
      size := 0;
      pos := 0;
      buf := new Byte[BITS](_ => 0);
    }

    /** fread: copy up to `n` bytes into the buffer. */
    method Fill(n: nat) returns (got: nat)
      requires n <= buf.Length == BITS && pos <= |src|
      modifies this`pos, buf
      ensures got == if |src| - old(pos) < n then |src| - old(pos) else n
      ensures pos == old(pos) + got && src[old(pos)..pos] <= buf[..]
    {
      got := 0;
      while got < n && pos < |src|
        invariant got <= n && pos == old(pos) + got && pos <= |src|
        invariant forall k :: 0 <= k < got ==> buf[k] == src[old(pos) + k]
      {
        buf[got] := src[pos];
        got := got + 1;
        pos := pos + 1;
      }
    }

    /** The first half of getcode(): a new buffer when this one has no further code. */
    method Refill() returns (eof: bool)
      requires Valid() && FreeEntOk(cfg, evs, i, freeEnt, clearFlg)
      modifies this`pos, this`nbits, this`maxcode, this`clearFlg, this`offset, this`size, buf
      ensures eof == (i == |evs|)
      ensures !eof ==> !clearFlg && Ready(cfg, evs, src, i, nbits, maxcode, offset, size, pos, buf[..])
    {
      hide Framed, Holds, Legal, Bits, Written, After, CodeAt, InGroup, Pow2, Fits, Chunk, FreeEntOk;
      RefillIsRight(cfg, evs, src, i, nbits, maxcode, offset, size, pos, buf[..], freeEnt, clearFlg);
      if clearFlg || offset >= size || freeEnt > maxcode {
        if freeEnt > maxcode {
          nbits := nbits + 1;
          maxcode := if nbits == cfg.maxbits then cfg.Limit() else MaxCode(nbits);
        }
        if clearFlg {
          nbits := INIT_BITS;
          maxcode := MaxCode(INIT_BITS);
          clearFlg := false;
        }
        if i < |evs| { BytesAhead(cfg, evs, src, i); }
        if pos == |src| {   // fread returns nothing
          return true;
        }
        ghost var from := pos;
        size := Fill(nbits);
        offset := 0;
        ChunkRead(cfg, evs, src, i, from, size);
        size := 8 * size - (nbits - 1);
        BitsFacts(0, nbits);
      }
      return false;
    }

    /** getcode(): the code of the next event, or -1 behind the last one. */
    method GetCode() returns (code: int)
      requires Valid() && FreeEntOk(cfg, evs, i, freeEnt, clearFlg)
      modifies this`pos, this`nbits, this`maxcode, this`clearFlg, this`offset, this`size, this`i, buf
      ensures old(i) == |evs| ==> code == -1
      ensures old(i) < |evs| ==> code == CodeOf(evs[old(i)]) && i == old(i) + 1 && Valid() && !clearFlg
    {
      hide Framed, Holds, Legal, Bits, Written, After, CodeAt, InGroup, Pow2, Fits, Chunk, FreeEntOk;
      var eof := Refill();
      if eof { return -1; }
      CodeIsThere(cfg, evs, src, i, buf[..]);
      BitsInBuffer(cfg, evs, i);
      code := Extract(CodeOf(evs[i]));
      offset := offset + nbits;
      NextState(cfg, evs, src, i, nbits, maxcode, offset, size, pos, buf[..]);
      i := i + 1;
    }

    /** The bit-extraction part of getcode(). */
    method Extract(ghost c: nat) returns (code: nat)
      requires buf.Length == BITS && INIT_BITS <= nbits <= BITS && offset + nbits <= 8 * nbits
      requires CodeAt(buf[..], offset, nbits, c) && c < Pow2(nbits)
      ensures code == c
    {
      hide CodeAt, Gathered, Or, And, Shl, Shr, Pow2, StreamBit;
      var rOff, bits, bp := offset, nbits as int, 0;
      bp := bp + rOff / 8;
      rOff := rOff % 8;
      code := Shr(buf[bp], rOff);
      GatherFirst(buf[..], offset);
      bp := bp + 1;
      bits := bits - (8 - rOff);
      rOff := 8 - rOff;
      if bits >= 8 {
        GatherMore(buf[..], offset, code, rOff, 8);
        FullMask(buf[bp]);
        code := Or(code, Shl(buf[bp], rOff));
        bp := bp + 1;
        rOff := rOff + 8;
        bits := bits - 8;
      }
      if bits > 0 {   // with no bits left the mask is 0 and the byte is not used
        GatherMore(buf[..], offset, code, rOff, bits);
        code := Or(code, Shl(And(buf[bp], RMASK[bits]), rOff));
      }
      GatheredIsCode(buf[..], offset, code, nbits, c);
    }
  }

  lemma BitsInBuffer(cfg: Config, evs: seq<Event>, i: nat)
    requires i <= |evs| && cfg.Valid() && Legal(cfg, evs)
    ensures var s := After(cfg, evs[..i]);
            INIT_BITS <= s.nbits <= BITS && Bits(|s.group|, s.nbits) + s.nbits <= 8 * s.nbits
  {
    LegalPrefix(cfg, evs, i);
    LegalIsOk(cfg, evs[..i]);
    var s := After(cfg, evs[..i]);
    BitsFacts(|s.group|, s.nbits);
  }
}
