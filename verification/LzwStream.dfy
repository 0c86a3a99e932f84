/** What a stream written by compress means: which dictionary each code is read in, how wide it is,
    and where in the bytes it sits.  Both directions of the program are proved against this. */
module LzwStream {
  import opened BitOps
  import opened Stdio
  import opened Options

  const INIT_BITS: nat := 9
  const BITS: nat := 13
  const CLEAR: nat := 256

  /** maxbits and block_compress, as recorded in the third header byte. */
  datatype Config = Config(maxbits: nat, block: bool) {
    predicate Valid() { INIT_BITS <= maxbits <= BITS }

    /** The first code that is free for a string. */
    function First(): nat { if block then 257 else 256 }

    /** maxmaxcode: one more than the largest code. */
    function Limit(): nat { Pow2(maxbits) }
  }

  /** MAXCODE: the largest code that fits in `n` bits. */
  function MaxCode(n: nat): nat { Pow2(n) - 1 }

  datatype Entry = Entry(prefix: nat, suffix: Byte)

  predicate Known(cfg: Config, dict: seq<Entry>, code: nat) {
    code < 256 || cfg.First() <= code < cfg.First() + |dict|
  }

  /** Every entry extends a code that was known before it. */
  ghost predicate WellFounded(cfg: Config, dict: seq<Entry>) {
    forall k :: 0 <= k < |dict| ==>
      dict[k].prefix < 256 || cfg.First() <= dict[k].prefix < cfg.First() + k
  }

  /** The string a code stands for. */
  ghost function Expand(cfg: Config, dict: seq<Entry>, code: nat): (w: seq<Byte>)
    requires WellFounded(cfg, dict) && Known(cfg, dict, code)
    ensures 0 < |w| <= |dict| + 1
    ensures code >= 256 ==> |w| <= code - cfg.First() + 2
    decreases code
  {
    if code < 256 then [code]
    else
      var e := dict[code - cfg.First()];
      Expand(cfg, dict, e.prefix) + [e.suffix]
  }

  /** A code together with the piece of input it covers, or the clear code. */
  datatype Event = Emit(code: nat, word: seq<Byte>) | Reset

  function CodeOf(ev: Event): nat { if ev.Emit? then ev.code else CLEAR }

  /** The state shared by both directions after some events.
      `dict` lacks the entry that the first letter of the next word will complete;
      `group` holds the codes of the current buffer; `flushed` counts bytes of full buffers. */
  datatype Stream = Stream(
    dict: seq<Entry>, prev: Option<nat>, text: seq<Byte>,
    nbits: nat, maxcode: nat, group: seq<nat>, flushed: nat)

  ghost function Start(): Stream {
    Stream([], None, [], INIT_BITS, MaxCode(INIT_BITS), [], 0)
  }

  /** The dictionary once the letter after the previous word is known. */
  ghost function Grow(cfg: Config, s: Stream, b: Byte): seq<Entry> {
    if s.prev.Some? && cfg.First() + |s.dict| < cfg.Limit()
    then s.dict + [Entry(s.prev.value, b)]
    else s.dict
  }

  /** `ev` may follow: a word is what its code means in the writer's dictionary,
      and the table is only cleared in block mode once it is full. */
  ghost predicate Fits(cfg: Config, s: Stream, ev: Event) {
    match ev
    case Emit(code, word) =>
      word != [] &&
      var d := Grow(cfg, s, word[0]);
      WellFounded(cfg, d) && Known(cfg, d, code) && Expand(cfg, d, code) == word
    case Reset =>
      cfg.block && s.prev.Some? && cfg.First() + |s.dict| == cfg.Limit()
  }

  ghost function DictAfter(cfg: Config, s: Stream, ev: Event): seq<Entry> {
    if ev.Emit? && ev.word != [] then Grow(cfg, s, ev.word[0]) else []
  }

  /** The code width changes behind this event. */
  ghost predicate Resizes(cfg: Config, s: Stream, ev: Event) {
    ev.Reset? || cfg.First() + |DictAfter(cfg, s, ev)| > s.maxcode
  }

  /** The buffer is written out behind this event. */
  ghost predicate Flushes(cfg: Config, s: Stream, ev: Event) {
    |s.group| == 7 || Resizes(cfg, s, ev)
  }

  ghost function Step(cfg: Config, s: Stream, ev: Event): Stream {
    Stream(
      DictAfter(cfg, s, ev),
      if ev.Emit? then Some(ev.code) else None,
      if ev.Emit? then s.text + ev.word else s.text,
      if ev.Reset? then INIT_BITS else if Resizes(cfg, s, ev) then s.nbits + 1 else s.nbits,
      if ev.Reset? then MaxCode(INIT_BITS)
      else if !Resizes(cfg, s, ev) then s.maxcode
      else if s.nbits + 1 == cfg.maxbits then cfg.Limit()
      else MaxCode(s.nbits + 1),
      if Flushes(cfg, s, ev) then [] else s.group + [CodeOf(ev)],
      if Flushes(cfg, s, ev) then s.flushed + s.nbits else s.flushed)
  }

  ghost function After(cfg: Config, evs: seq<Event>): Stream {
    if evs == [] then Start() else Step(cfg, After(cfg, evs[..|evs|-1]), evs[|evs|-1])
  }

  ghost predicate Legal(cfg: Config, evs: seq<Event>) {
    evs == [] ||
    (Legal(cfg, evs[..|evs|-1]) && Fits(cfg, After(cfg, evs[..|evs|-1]), evs[|evs|-1]))
  }

  /** Bit `p` of a byte string, low bit of each byte first. */
  predicate StreamBit(bytes: seq<Byte>, p: nat)
    requires p < 8 * |bytes|
  {
    BitAt(bytes[p / 8], p % 8)
  }

  /** The n-bit code `c` sits at bit offset `off`. */
  ghost predicate CodeAt(bytes: seq<Byte>, off: nat, n: nat, c: nat) {
    off + n <= 8 * |bytes| &&
    forall k: nat :: k < n ==> BitAt(c, k) == StreamBit(bytes, off + k)
  }

  /** The length in bits of `k` codes of width `n`. */
  function Bits(k: nat, n: nat): nat { k * n }

  lemma BitsFacts(k: nat, n: nat)
    requires k <= 8 && n > 0
    ensures Bits(0, n) == 0 && Bits(k + 1, n) == Bits(k, n) + n
    ensures Bits(k, n) <= 8 * n && (Bits(k, n) == 8 * n <==> k == 8)
    ensures k < 8 ==> Bits(k, n) + n <= 8 * n
    ensures k > 0 ==> Bits(k, n) >= n
  {
  }

  /** The codes of one buffer sit one after the other. */
  ghost predicate Holds(bytes: seq<Byte>, n: nat, group: seq<nat>) {
    group == [] ||
    (Holds(bytes, n, group[..|group|-1]) && CodeAt(bytes, Bits(|group| - 1, n), n, group[|group|-1]))
  }

  /** `bytes` are the full buffers written for `evs`. */
  ghost predicate Framed(cfg: Config, evs: seq<Event>, bytes: seq<Byte>) {
    |bytes| == After(cfg, evs).flushed &&
    (evs == [] ||
     var s0 := After(cfg, evs[..|evs|-1]);
     s0.flushed <= |bytes| &&
     Framed(cfg, evs[..|evs|-1], bytes[..s0.flushed]) &&
     (Flushes(cfg, s0, evs[|evs|-1]) ==>
        Holds(bytes[s0.flushed..], s0.nbits, s0.group + [CodeOf(evs[|evs|-1])])))
  }

  /** `bytes` are everything written for `evs`: full buffers, then the rest of the last one. */
  ghost predicate Written(cfg: Config, evs: seq<Event>, bytes: seq<Byte>) {
    var s := After(cfg, evs);
    |bytes| == s.flushed + (Bits(|s.group|, s.nbits) + 7) / 8 &&
    Framed(cfg, evs, bytes[..s.flushed]) &&
    Holds(bytes[s.flushed..], s.nbits, s.group)
  }

  /** `bytes` (behind the header) is a compressed form of `input`. */
  ghost predicate Compressed(cfg: Config, input: seq<Byte>, bytes: seq<Byte>) {
    exists evs :: CompressedBy(cfg, input, bytes, evs)
  }

  ghost predicate CompressedBy(cfg: Config, input: seq<Byte>, bytes: seq<Byte>, evs: seq<Event>) {
    Legal(cfg, evs) && (evs == [] || evs[|evs|-1].Emit?) &&
    After(cfg, evs).text == input && Written(cfg, evs, bytes)
  }

  // ---------- Facts about every legal stream ----------

  lemma Powers()
    ensures Pow2(8) == 256 && Pow2(9) == 512 && Pow2(10) == 1024 && Pow2(11) == 2048
    ensures Pow2(12) == 4096 && Pow2(13) == 8192
  {
    assert Pow2(4) == 16;
    assert Pow2(8) == 256;
    assert Pow2(12) == 4096;
  }

  /** The width always has room for every code the dictionary can produce next. */
  ghost predicate WidthOk(cfg: Config, s: Stream) {
    && INIT_BITS <= s.nbits <= BITS
    && (s.nbits == cfg.maxbits && s.nbits > INIT_BITS ==> s.maxcode == cfg.Limit())
    && (s.nbits == INIT_BITS || s.nbits != cfg.maxbits ==> s.maxcode == MaxCode(s.nbits))
    && (s.nbits > cfg.maxbits ==> s.nbits == INIT_BITS + 1)
    && cfg.First() + |s.dict| <= s.maxcode
    && cfg.First() + |s.dict| <= cfg.Limit()
    && |s.group| < 8
  }

  ghost predicate StreamOk(cfg: Config, s: Stream) {
    && WidthOk(cfg, s)
    && WellFounded(cfg, s.dict)
    && (s.prev.Some? ==> Known(cfg, s.dict, s.prev.value))
  }

  lemma GrowIsWellFounded(cfg: Config, s: Stream, b: Byte)
    requires StreamOk(cfg, s)
    ensures WellFounded(cfg, Grow(cfg, s, b)) && s.dict <= Grow(cfg, s, b)
    ensures cfg.First() + |Grow(cfg, s, b)| <= cfg.Limit()
  {
  }

  lemma {:induction false} LegalIsOk(cfg: Config, evs: seq<Event>)
    requires cfg.Valid() && Legal(cfg, evs)
    ensures StreamOk(cfg, After(cfg, evs))
  {
    Powers();
    if evs != [] {
      LegalIsOk(cfg, evs[..|evs|-1]);
      StepIsOk(cfg, After(cfg, evs[..|evs|-1]), evs[|evs|-1]);
    }
  }

  lemma StepIsOk(cfg: Config, s: Stream, ev: Event)
    requires cfg.Valid() && StreamOk(cfg, s) && Fits(cfg, s, ev)
    ensures StreamOk(cfg, Step(cfg, s, ev))
  {
    Powers();
    if ev.Emit? {
      GrowIsWellFounded(cfg, s, ev.word[0]);
    }
  }

  /** Every code written fits in the width it is written with. */
  lemma CodeFits(cfg: Config, s: Stream, ev: Event)
    requires cfg.Valid() && StreamOk(cfg, s) && Fits(cfg, s, ev)
    ensures CodeOf(ev) < Pow2(s.nbits)
  {
    Powers();
  }

  /** Expanding a code does not look past the entry it names. */
  lemma {:induction false} ExpandFrame(cfg: Config, d: seq<Entry>, e: seq<Entry>, code: nat)
    requires WellFounded(cfg, d) && WellFounded(cfg, e) && d <= e && Known(cfg, d, code)
    ensures Known(cfg, e, code) && Expand(cfg, d, code) == Expand(cfg, e, code)
    decreases code
  {
    if code >= 256 {
      var k := code - cfg.First();
      assert d[k] == e[k];
      ExpandFrame(cfg, d, e, d[k].prefix);
    }
  }

  /** The reader lags one entry behind, yet knows every word: either the code is in its
      dictionary, or the code names the missing entry and the word is the previous word
      followed by its own first letter. */
  lemma ReaderKnowsWord(cfg: Config, s: Stream, code: nat, word: seq<Byte>)
    requires cfg.Valid() && StreamOk(cfg, s) && Fits(cfg, s, Emit(code, word))
    ensures code < 256 || cfg.First() <= code <= cfg.First() + |s.dict|
    ensures Known(cfg, s.dict, code) ==> word == Expand(cfg, s.dict, code)
    ensures !Known(cfg, s.dict, code) ==>
              s.prev.Some? &&
              var w := Expand(cfg, s.dict, s.prev.value);
              word == w + [w[0]]
  {
    var d := Grow(cfg, s, word[0]);
    GrowIsWellFounded(cfg, s, word[0]);
    if Known(cfg, s.dict, code) {
      ExpandFrame(cfg, s.dict, d, code);
    } else {
      ExpandFrame(cfg, s.dict, d, s.prev.value);
      assert d[|s.dict|] == Entry(s.prev.value, word[0]);
    }
  }

  // ---------- Finding a code in the bytes ----------

  lemma {:induction false} HoldsElement(bytes: seq<Byte>, n: nat, group: seq<nat>, j: nat)
    requires Holds(bytes, n, group) && j < |group|
    ensures CodeAt(bytes, Bits(j, n), n, group[j])
  {
    if j < |group| - 1 { HoldsElement(bytes, n, group[..|group|-1], j); }
  }

  lemma {:induction false} HoldsFromElements(bytes: seq<Byte>, n: nat, group: seq<nat>)
    requires forall j: nat :: j < |group| ==> CodeAt(bytes, Bits(j, n), n, group[j])
    ensures Holds(bytes, n, group)
  {
    if group != [] {
      var init := group[..|group|-1];
      forall j: nat | j < |init| ensures CodeAt(bytes, Bits(j, n), n, init[j]) {
        assert CodeAt(bytes, Bits(j, n), n, group[j]);
      }
      HoldsFromElements(bytes, n, init);
      assert CodeAt(bytes, Bits(|group| - 1, n), n, group[|group|-1]);
    }
  }

  lemma {:induction false} LegalPrefix(cfg: Config, evs: seq<Event>, i: nat)
    requires i <= |evs| && Legal(cfg, evs)
    ensures Legal(cfg, evs[..i])
  {
    if i == |evs| {
      assert evs[..i] == evs;
    } else {
      var init := evs[..|evs|-1];
      LegalPrefix(cfg, init, i);
      assert init[..i] == evs[..i];
    }
  }

  /** Prefixes of a well framed run are well framed. */
  lemma {:induction false} FramedPrefix(cfg: Config, evs: seq<Event>, bytes: seq<Byte>, i: nat)
    requires i <= |evs| && Framed(cfg, evs, bytes)
    ensures After(cfg, evs[..i]).flushed <= |bytes|
    ensures Framed(cfg, evs[..i], bytes[..After(cfg, evs[..i]).flushed])
  {
    var g := After(cfg, evs[..i]).flushed;
    if i == |evs| {
      assert evs[..i] == evs;
      assert bytes[..g] == bytes;
    } else {
      var init := evs[..|evs|-1];
      assert init[..i] == evs[..i];
      var f := After(cfg, init).flushed;
      var head := bytes[..f];
      assert Framed(cfg, init, head);
      FramedPrefix(cfg, init, head, i);
      assert head[..g] == bytes[..g];
    }
  }

  lemma StepOfPrefix(cfg: Config, evs: seq<Event>, i: nat)
    requires i < |evs|
    ensures After(cfg, evs[..i+1]) == Step(cfg, After(cfg, evs[..i]), evs[i])
    ensures Legal(cfg, evs[..i+1]) ==> Legal(cfg, evs[..i]) && Fits(cfg, After(cfg, evs[..i]), evs[i])
  {
    assert evs[..i+1][..i] == evs[..i];
  }

  /** The bytes fread would return for the buffer that holds event `i`. */
  ghost function Chunk(cfg: Config, evs: seq<Event>, bytes: seq<Byte>, i: nat): seq<Byte>
    requires i <= |evs| && After(cfg, evs[..i]).flushed <= |bytes|
  {
    var s := After(cfg, evs[..i]);
    bytes[s.flushed..if s.flushed + s.nbits <= |bytes| then s.flushed + s.nbits else |bytes|]
  }

  /** The buffer that is current before event `i` holds the codes so far and that of event `i`. */
  lemma {:induction false} ChunkHolds(cfg: Config, evs: seq<Event>, bytes: seq<Byte>, i: nat)
    requires cfg.Valid() && Legal(cfg, evs) && Written(cfg, evs, bytes) && i < |evs|
    ensures After(cfg, evs[..i]).flushed <= |bytes|
    ensures var s := After(cfg, evs[..i]);
            Holds(Chunk(cfg, evs, bytes, i), s.nbits, s.group + [CodeOf(evs[i])])
    decreases |evs| - i
  {
    hide Framed, Holds, After, Step, Legal, WellFounded, Flushes, Chunk;
    var full := bytes[..After(cfg, evs).flushed];
    LegalPrefix(cfg, evs, i);
    LegalIsOk(cfg, evs[..i]);
    FramedPrefix(cfg, evs, full, i);
    StepOfPrefix(cfg, evs, i);
    var s := After(cfg, evs[..i]);
    if Flushes(cfg, s, evs[i]) {
      FramedPrefix(cfg, evs, full, i + 1);
      var g := After(cfg, evs[..i+1]).flushed;
      assert full[..g] == bytes[..g];
      FlushedChunkHolds(cfg, evs, bytes, i);
    } else if i + 1 == |evs| {
      assert evs[..|evs|-1] == evs[..i];
      LastChunkHolds(cfg, evs, bytes);
    } else {
      ChunkHolds(cfg, evs, bytes, i + 1);
      EarlierChunkHolds(cfg, evs, bytes, i);
    }
  }

  lemma LastChunkHolds(cfg: Config, evs: seq<Event>, bytes: seq<Byte>)
    requires evs != [] && Written(cfg, evs, bytes)
    requires var s := After(cfg, evs[..|evs|-1]);
             !Flushes(cfg, s, evs[|evs|-1]) && INIT_BITS <= s.nbits && |s.group| < 8
    ensures After(cfg, evs[..|evs|-1]).flushed <= |bytes|
    ensures var s := After(cfg, evs[..|evs|-1]);
            Holds(Chunk(cfg, evs, bytes, |evs| - 1), s.nbits, s.group + [CodeOf(evs[|evs|-1])])
  {
    hide Framed;
    hide Holds;
    var s := After(cfg, evs[..|evs|-1]);
    var t := Step(cfg, s, evs[|evs|-1]);
    assert After(cfg, evs) == t;
    TailFits(|t.group|, t.nbits);
    assert bytes[t.flushed..] == Chunk(cfg, evs, bytes, |evs| - 1);
  }

  lemma TailFits(k: nat, n: nat)
    requires k <= 7 && 7 <= n
    ensures (Bits(k, n) + 7) / 8 <= n
  {
    assert k * n <= 7 * n;
  }

  lemma EarlierChunkHolds(cfg: Config, evs: seq<Event>, bytes: seq<Byte>, i: nat)
    requires i + 1 < |evs| && !Flushes(cfg, After(cfg, evs[..i]), evs[i])
    requires var t := After(cfg, evs[..i+1]);
             t.flushed <= |bytes| &&
             Holds(Chunk(cfg, evs, bytes, i + 1), t.nbits, t.group + [CodeOf(evs[i+1])])
    ensures After(cfg, evs[..i]).flushed <= |bytes|
    ensures var s := After(cfg, evs[..i]);
            Holds(Chunk(cfg, evs, bytes, i), s.nbits, s.group + [CodeOf(evs[i])])
  {
    StepOfPrefix(cfg, evs, i);
    var s := After(cfg, evs[..i]);
    var t := Step(cfg, s, evs[i]);
    var more := t.group + [CodeOf(evs[i+1])];
    assert more[..|more|-1] == s.group + [CodeOf(evs[i])];
  }

  lemma FlushedChunkHolds(cfg: Config, evs: seq<Event>, bytes: seq<Byte>, i: nat)
    requires i < |evs| && Flushes(cfg, After(cfg, evs[..i]), evs[i])
    requires After(cfg, evs).flushed <= |bytes|
    requires var g := After(cfg, evs[..i+1]).flushed;
             g <= After(cfg, evs).flushed && Framed(cfg, evs[..i+1], bytes[..g])
    ensures After(cfg, evs[..i]).flushed <= |bytes|
    ensures var s := After(cfg, evs[..i]);
            Holds(Chunk(cfg, evs, bytes, i), s.nbits, s.group + [CodeOf(evs[i])])
  {
    StepOfPrefix(cfg, evs, i);
    var e := evs[..i+1];
    assert e[..|e|-1] == evs[..i];
    var s := After(cfg, evs[..i]);
    var g := After(cfg, e).flushed;
    assert bytes[..g][s.flushed..] == Chunk(cfg, evs, bytes, i);
  }

  // ---------- One more event ----------

  lemma AfterSnoc(cfg: Config, evs: seq<Event>, ev: Event)
    ensures After(cfg, evs + [ev]) == Step(cfg, After(cfg, evs), ev)
    ensures Legal(cfg, evs + [ev]) <==> Legal(cfg, evs) && Fits(cfg, After(cfg, evs), ev)
  {
    assert (evs + [ev])[..|evs|] == evs;
  }

  lemma FramedSnoc(cfg: Config, evs: seq<Event>, ev: Event, bytes: seq<Byte>, chunk: seq<Byte>)
    requires Framed(cfg, evs, bytes)
    requires var s := After(cfg, evs);
             if Flushes(cfg, s, ev) then |chunk| == s.nbits && Holds(chunk, s.nbits, s.group + [CodeOf(ev)])
             else chunk == []
    ensures Framed(cfg, evs + [ev], bytes + chunk)
  {
    AfterSnoc(cfg, evs, ev);
    var s := After(cfg, evs);
    var e := evs + [ev];
    var b := bytes + chunk;
    assert e[..|e|-1] == evs;
    assert b[..s.flushed] == bytes;
    assert b[s.flushed..] == chunk;
  }
}
