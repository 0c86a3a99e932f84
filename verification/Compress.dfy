/** compress() and decompress(): adaptive LZW and the theorem that one undoes the other. */
module Compress {
  import opened BitOps
  import opened LzwStream
  import opened LzwGreedy
  import opened LzwHash
  import opened LzwWriter
  import opened LzwReader
  import opened Options
  import opened Stdio

  // ---------- Compression ----------

  /** cl_hash(): every slot is emptied. */
  method ClearHash(htab: array<int>)
    modifies htab
    ensures forall k :: 0 <= k < htab.Length ==> htab[k] == -1
  {
    var k := 0;
    while k < htab.Length
      invariant 0 <= k <= htab.Length
      invariant forall m :: 0 <= m < k ==> htab[m] == -1
    {
      htab[k] := -1;
      k := k + 1;
    }
  }

  /** The prefix being matched: `ent` is the code of `word` in the table built so far. */
  ghost predicate Matching(cfg: Config, evs: seq<Event>, dict: seq<Entry>, ent: nat, word: seq<Byte>) {
    && word != [] && Legal(cfg, evs)
    && dict == Grow(cfg, After(cfg, evs), word[0])
    && WellFounded(cfg, dict) && Known(cfg, dict, ent) && Expand(cfg, dict, ent) == word
  }

  lemma MatchStarts(cfg: Config, b: Byte)
    requires cfg.Valid()
    ensures Matching(cfg, [], [], b, [b])
  {
  }

  /** A hit lengthens the match by one letter. */
  lemma MatchGrows(cfg: Config, evs: seq<Event>, dict: seq<Entry>, ent: nat, word: seq<Byte>, code: nat, c: Byte)
    requires Matching(cfg, evs, dict, ent, word)
    requires cfg.First() <= code < cfg.First() + |dict| && dict[code - cfg.First()] == Entry(ent, c)
    ensures Matching(cfg, evs, dict, code, word + [c])
  {
    assert Expand(cfg, dict, code) == word + [c];
  }

  lemma MatchFits(cfg: Config, evs: seq<Event>, dict: seq<Entry>, ent: nat, word: seq<Byte>)
    requires cfg.Valid() && Matching(cfg, evs, dict, ent, word)
    ensures Fits(cfg, After(cfg, evs), Emit(ent, word))
    ensures DictAfter(cfg, After(cfg, evs), Emit(ent, word)) == dict
    ensures ent < cfg.Limit() && cfg.First() + |dict| <= cfg.Limit()
  {
    Powers();
    LegalIsOk(cfg, evs);
    GrowIsWellFounded(cfg, After(cfg, evs), word[0]);
  }

  /** Behind a code the match restarts with the letter that ended it. */
  lemma MatchRestarts(cfg: Config, evs: seq<Event>, dict: seq<Entry>, ent: nat, word: seq<Byte>, c: Byte)
    requires cfg.Valid() && Matching(cfg, evs, dict, ent, word)
    ensures var evs' := evs + [Emit(ent, word)];
            && After(cfg, evs').text == After(cfg, evs).text + word
            && After(cfg, evs').dict == dict && After(cfg, evs').prev == Some(ent)
            && Matching(cfg, evs', if cfg.First() + |dict| < cfg.Limit() then dict + [Entry(ent, c)] else dict, c, [c])
  {
    MatchFits(cfg, evs, dict, ent, word);
    AfterSnoc(cfg, evs, Emit(ent, word));
    LegalIsOk(cfg, evs + [Emit(ent, word)]);
    GrowIsWellFounded(cfg, After(cfg, evs + [Emit(ent, word)]), c);
  }

  lemma MatchAfterReset(cfg: Config, evs: seq<Event>, c: Byte)
    requires cfg.Valid() && Legal(cfg, evs) && Fits(cfg, After(cfg, evs), Reset)
    ensures Matching(cfg, evs + [Reset], [], c, [c])
    ensures After(cfg, evs + [Reset]).text == After(cfg, evs).text
  {
    AfterSnoc(cfg, evs, Reset);
  }

  /** What holds between letters: `done` is the input read, `ent` the code of its unwritten end. */
  ghost predicate Compressing(w: Writer, htab: array<int>, codetab: array<nat>, dict: seq<Entry>,
                              ent: nat, word: seq<Byte>, done: seq<Byte>)
    reads w, w.buf, htab, codetab
  {
    && htab.Length == codetab.Length == HSIZE && w.buf as object != htab as object
    && w.Consistent() && !w.clearFlg
    && Matching(w.cfg, w.evs, dict, ent, word)
    && w.freeEnt == w.cfg.First() + |dict|
    && TableOk(w.cfg, dict, htab[..], codetab[..])
    && After(w.cfg, w.evs).text + word == done
  }

  /** cl_block() when it decides to clear. */
  method ClearBlock(w: Writer, htab: array<int>, codetab: array<nat>, ghost dict: seq<Entry>, c: Byte,
                    ghost done: seq<Byte>)
    requires Compressing(w, htab, codetab, dict, c, [c], done)
    requires w.cfg.block && w.freeEnt == w.cfg.Limit()
    requires After(w.cfg, w.evs).dict == dict && After(w.cfg, w.evs).prev.Some?
    modifies w, w.buf, htab
    ensures Compressing(w, htab, codetab, [], c, [c], done) && w.evs == old(w.evs) + [Reset]
  {
    hide Framed, Holds, Legal, After, Matching, TableOk, Written, Bits, Fits, DictAfter, Expand, Pow2, InState;
    ConsistentIsLegal(w);
    CanReset(w.cfg, w.evs, dict);
    MatchAfterReset(w.cfg, w.evs, c);
    ClearHash(htab);
    EmptyTableOk(w.cfg, htab[..], codetab[..]);
    w.freeEnt := 257;
    w.clearFlg := true;
    w.Output(CLEAR, Reset);
  }

  /** The letter `c` ends the match: its code goes out and the string it would have made is entered. */
  method NoMatch(w: Writer, htab: array<int>, codetab: array<nat>, i: nat, ghost j: nat, ent: nat, c: Byte,
                 ghost dict: seq<Entry>, ghost word: seq<Byte>, ghost done: seq<Byte>)
    returns (ghost dict': seq<Entry>)
    requires Compressing(w, htab, codetab, dict, ent, word, done)
    requires Missed(htab[..], Entry(ent, c), i, j) && i < HSIZE
    modifies w, w.buf, htab, codetab
    ensures Compressing(w, htab, codetab, dict', c, [c], done + [c])
    ensures var evs := old(w.evs) + [Emit(ent, word)]; w.evs == evs || w.evs == evs + [Reset]
  {
    hide Framed, Holds, Legal, After, Matching, TableOk, Written, Bits, Missed, Fits, DictAfter, Expand, Pow2, InState;
    MatchFits(w.cfg, w.evs, dict, ent, word);
    MatchRestarts(w.cfg, w.evs, dict, ent, word, c);
    ghost var h, ct := htab[..], codetab[..];
    w.Output(ent, Emit(ent, word));
    assert htab[..] == h && codetab[..] == ct;
    dict' := dict;
    if w.freeEnt < w.cfg.Limit() {
      InsertKeepsOrder(w.cfg, dict, h, ct, Entry(ent, c), i, j);
      KeyOf(w.cfg, ent, c);
      dict' := dict + [Entry(ent, c)];
      codetab[i] := w.freeEnt;
      w.freeEnt := w.freeEnt + 1;
      htab[i] := Shl(c, w.cfg.maxbits) + ent;
      assert htab[..] == h[i := htab[i]] && codetab[..] == ct[i := codetab[i]];
    } else if w.cfg.block {
      var clear: bool := *;   // the ratio test at a checkpoint
      if clear {
        ClearBlock(w, htab, codetab, dict, c, done + [c]);
        dict' := [];
      }
    }
  }

  /** A search without a hit: the word is the longest that the input goes on with. */
  lemma MissIsLongest(cfg: Config, evs: seq<Event>, dict: seq<Entry>, ent: nat, word: seq<Byte>, c: Byte, input: seq<Byte>)
    requires cfg.Valid() && Matching(cfg, evs, dict, ent, word) && Greedy(cfg, evs, input)
    requires var n := |After(cfg, evs).text + word|; n < |input| ==> input[n] == c
    requires Entry(ent, c) == ZERO_PAIR || Entry(ent, c) !in dict || |After(cfg, evs).text + word| >= |input|
    ensures Greedy(cfg, evs + [Emit(ent, word)], input) && Greedy(cfg, evs + [Emit(ent, word)] + [Reset], input)
  {
    hide Matching, After, Greedy;
    MatchRestarts(cfg, evs, dict, ent, word, c);
    assert (evs + [Emit(ent, word)])[..|evs| + 1] == evs + [Emit(ent, word)];
    GreedySnoc(cfg, evs, Emit(ent, word), input);
    GreedySnoc(cfg, evs + [Emit(ent, word)], Reset, input);
  }

  /** One letter of the input: it lengthens the match or ends it. */
  method NextLetter(w: Writer, htab: array<int>, codetab: array<nat>, c: Byte, ent0: nat, ghost dict0: seq<Entry>, ghost word0: seq<Byte>,
                    ghost done: seq<Byte>, ghost input: seq<Byte>)
    returns (ent: nat, ghost dict: seq<Entry>, ghost word: seq<Byte>)
    requires Compressing(w, htab, codetab, dict0, ent0, word0, done)
    requires Greedy(w.cfg, w.evs, input) && |done| < |input| && input[|done|] == c
    modifies w, w.buf, htab, codetab
    ensures Compressing(w, htab, codetab, dict, ent, word, done + [c]) && Greedy(w.cfg, w.evs, input)
  {
    hide Framed, Holds, Legal, After, Matching, TableOk, Written, Bits, Missed, Fits, DictAfter, Expand, Pow2, InState, Greedy;
    MatchFits(w.cfg, w.evs, dict0, ent0, word0);
    var i, hit, j := Probe(w.cfg, htab, codetab, dict0, c, ent0);
    if hit {
      MatchGrows(w.cfg, w.evs, dict0, ent0, word0, codetab[i], c);
      ent, dict, word := codetab[i], dict0, word0 + [c];
    } else {
      MissIsLongest(w.cfg, w.evs, dict0, ent0, word0, c, input);
      dict := NoMatch(w, htab, codetab, i, j, ent0, c, dict0, word0, done);
      ent, word := c, [c];
    }
  }

  /** compress(), without the header.  Whether a full table is cleared is left open. */
  method Squeeze(cfg: Config, input: seq<Byte>) returns (bytes: seq<Byte>)
    requires cfg.Valid()
    ensures GreedilyCompressed(cfg, input, bytes) && Compressed(cfg, input, bytes)
  {
    hide Framed, Holds, Legal, After, Matching, TableOk, Written, Bits, Missed, Fits, DictAfter, Expand, Pow2, InState, Greedy, Compressed, GreedilyBy, GreedilyCompressed;
    var w := new Writer(cfg);
    var htab := new int[HSIZE];
    var codetab := new nat[HSIZE](_ => 0);
    ClearHash(htab);
    EmptyTableOk(cfg, htab[..], codetab[..]);
    StartText(cfg);
    if input == [] {
      w.Finish();
      bytes := w.out;
      NothingToCompress(cfg, bytes);
      GreedyIsCompressed(cfg, input, bytes);
      return;
    }
    var ent: nat := input[0];
    ghost var word, dict := [input[0]], [];
    MatchStarts(cfg, input[0]);
    NothingIsGreedy(cfg, input);
    var inPos := 1;
    while inPos < |input|
      invariant 1 <= inPos <= |input|
      invariant fresh(w) && fresh(w.buf) && fresh(htab) && fresh(codetab) && w.cfg == cfg
      invariant Compressing(w, htab, codetab, dict, ent, word, input[..inPos]) && Greedy(cfg, w.evs, input)
    {
      assert input[..inPos] + [input[inPos]] == input[..inPos + 1];
      ent, dict, word := NextLetter(w, htab, codetab, input[inPos], ent, dict, word, input[..inPos], input);
      inPos := inPos + 1;
    }
    MatchFits(cfg, w.evs, dict, ent, word);
    MatchRestarts(cfg, w.evs, dict, ent, word, 0);
    MissIsLongest(cfg, w.evs, dict, ent, word, 0, input);
    w.Output(ent, Emit(ent, word));
    ConsistentIsLegal(w);
    w.Finish();
    bytes := w.out;
    assert input[..inPos] == input;
    EndIsGreedy(cfg, input, bytes, w.evs);
  }

  lemma StartText(cfg: Config)
    ensures After(cfg, []).text == []
  {
  }

  lemma NothingToCompress(cfg: Config, bytes: seq<Byte>)
    requires Written(cfg, [], bytes)
    ensures GreedilyBy(cfg, [], bytes, []) && GreedilyCompressed(cfg, [], bytes)
  {
    assert GreedilyBy(cfg, [], bytes, []);
  }

  lemma EndIsGreedy(cfg: Config, input: seq<Byte>, bytes: seq<Byte>, evs: seq<Event>)
    requires Legal(cfg, evs) && evs != [] && evs[|evs|-1].Emit? && After(cfg, evs).text == input
    requires Greedy(cfg, evs, input) && Written(cfg, evs, bytes)
    ensures GreedilyCompressed(cfg, input, bytes) && Compressed(cfg, input, bytes)
  {
    hide Legal, After, Greedy, Written, Compressed;
    assert GreedilyBy(cfg, input, bytes, evs);
    GreedyIsCompressed(cfg, input, bytes);
  }

  lemma CanReset(cfg: Config, evs: seq<Event>, dict: seq<Entry>)
    requires cfg.block && After(cfg, evs).dict == dict && After(cfg, evs).prev.Some?
    requires cfg.First() + |dict| == cfg.Limit()
    ensures Fits(cfg, After(cfg, evs), Reset)
  {
  }

  lemma ConsistentIsLegal(w: Writer)
    requires w.Consistent()
    ensures Legal(w.cfg, w.evs)
  {
  }

  // ---------- Decompression ----------

  const TABSIZE: nat := 8192     // 1 << BITS
  const STACKSIZE: nat := 27812  // what is left of htab behind the suffix table

  /** tab_prefix and tab_suffix hold the dictionary. */
  ghost predicate TabsOk(cfg: Config, dict: seq<Entry>, prefix: seq<nat>, suffix: seq<Byte>) {
    && cfg.Valid() && |prefix| == |suffix| == TABSIZE
    && cfg.First() + |dict| <= cfg.Limit()
    && (forall c :: 0 <= c < 256 ==> suffix[c] == c)
    && (forall k :: 0 <= k < |dict| ==>
          cfg.First() + k < TABSIZE &&
          prefix[cfg.First() + k] == dict[k].prefix && suffix[cfg.First() + k] == dict[k].suffix)
  }

  lemma TabsAppend(cfg: Config, dict: seq<Entry>, prefix: seq<nat>, suffix: seq<Byte>, e: Entry)
    requires TabsOk(cfg, dict, prefix, suffix) && cfg.First() + |dict| < cfg.Limit()
    ensures cfg.First() + |dict| < TABSIZE
    ensures TabsOk(cfg, dict + [e], prefix[cfg.First() + |dict| := e.prefix], suffix[cfg.First() + |dict| := e.suffix])
  {
    LimitBound(cfg);
  }

  /** The entry the reader makes for code 256 behind a clear is in no one's way. */
  lemma TabsDummy(cfg: Config, prefix: seq<nat>, suffix: seq<Byte>, p: nat, b: Byte)
    requires TabsOk(cfg, [], prefix, suffix)
    ensures TabsOk(cfg, [], prefix[CLEAR := p], suffix[CLEAR := b])
  {
  }

  function Reversed(s: seq<Byte>): seq<Byte> {
    if s == [] then [] else [s[|s|-1]] + Reversed(s[..|s|-1])
  }

  lemma ReversedSnoc(s: seq<Byte>, b: Byte)
    ensures Reversed(s + [b]) == [b] + Reversed(s)
  {
    assert (s + [b])[..|s|] == s;
  }

  lemma TabsLookup(cfg: Config, dict: seq<Entry>, prefix: seq<nat>, suffix: seq<Byte>, code: nat)
    requires TabsOk(cfg, dict, prefix, suffix) && WellFounded(cfg, dict) && Known(cfg, dict, code)
    ensures |prefix| == |suffix| == TABSIZE && code < TABSIZE && cfg.First() + |dict| <= TABSIZE
    ensures code < 256 ==> Expand(cfg, dict, code) == [suffix[code]]
    ensures code >= 256 ==> prefix[code] < code && Known(cfg, dict, prefix[code]) &&
                            Expand(cfg, dict, code) == Expand(cfg, dict, prefix[code]) + [suffix[code]]
  {
    LimitBound(cfg);
    if code >= 256 {
      var k := code - cfg.First();
      assert prefix[cfg.First() + k] == dict[k].prefix;
    }
  }

  /** The letters of `code`, last one first, on top of what is on the stack. */
  method Unwind(cfg: Config, ghost dict: seq<Entry>, prefix: array<nat>, suffix: array<Byte>,
                stack: array<Byte>, sp0: nat, code0: nat) returns (sp: nat, finchar: Byte)
    requires TabsOk(cfg, dict, prefix[..], suffix[..]) && WellFounded(cfg, dict) && Known(cfg, dict, code0)
    requires stack.Length == STACKSIZE && sp0 <= 1 && stack != suffix && stack as object != prefix as object
    modifies stack
    ensures sp <= stack.Length && Reversed(stack[..sp]) == Expand(cfg, dict, code0) + old(Reversed(stack[..sp0]))
    ensures sp > 0 && finchar == Expand(cfg, dict, code0)[0]
  {
    hide Reversed, WellFounded, Pow2, Expand, TabsOk;
    ghost var p, x := prefix[..], suffix[..];
    TabsLookup(cfg, dict, p, x, code0);
    var code: nat := code0;
    sp := sp0;
    ghost var below := Reversed(stack[..sp0]);
    while code >= 256
      invariant Known(cfg, dict, code) && sp <= STACKSIZE
      invariant prefix[..] == p && suffix[..] == x
      invariant sp + |Expand(cfg, dict, code)| == sp0 + |Expand(cfg, dict, code0)|
      invariant Expand(cfg, dict, code) + Reversed(stack[..sp]) == Expand(cfg, dict, code0) + below
      decreases code
    {
      TabsLookup(cfg, dict, p, x, code);
      ReversedSnoc(stack[..sp], suffix[code]);
      stack[sp] := suffix[code];
      sp := sp + 1;
      assert stack[..sp] == stack[..sp - 1] + [suffix[code]];
      code := prefix[code];
    }
    TabsLookup(cfg, dict, p, x, code);
    finchar := suffix[code];
    ReversedSnoc(stack[..sp], finchar);
    stack[sp] := finchar;
    sp := sp + 1;
    assert stack[..sp] == stack[..sp - 1] + [finchar];
    assert (Expand(cfg, dict, code0) + below)[0] == finchar;
  }

  /** decompress()'s variables before a word, for the stream state `s` behind the last code. */
  ghost predicate Expecting(cfg: Config, s: Stream, prefix: seq<nat>, suffix: seq<Byte>,
                            oldcode: nat, finchar: Byte, freeEnt: nat, out: seq<Byte>) {
    && StreamOk(cfg, s) && TabsOk(cfg, s.dict, prefix, suffix) && out == s.text
    && if s.prev.Some? then
         s.prev.value == oldcode && freeEnt == cfg.First() + |s.dict| &&
         Expand(cfg, s.dict, oldcode)[0] == finchar
       else
         cfg.block && s.dict == [] && freeEnt == 256
  }

  /** One word: found, written, and entered behind the previous one. */
  method Word(cfg: Config, prefix: array<nat>, suffix: array<Byte>, stack: array<Byte>, code0: nat,
              oldcode: nat, finchar0: Byte, freeEnt0: nat, out0: seq<Byte>, ghost s: Stream, ghost word: seq<Byte>)
    returns (finchar: Byte, freeEnt: nat, out: seq<Byte>)
    requires Expecting(cfg, s, prefix[..], suffix[..], oldcode, finchar0, freeEnt0, out0)
    requires Fits(cfg, s, Emit(code0, word)) && (s.prev.None? ==> code0 < 256)
    requires stack.Length == STACKSIZE && stack != suffix
    requires stack as object != prefix as object && suffix as object != prefix as object
    modifies prefix, suffix, stack
    ensures Expecting(cfg, Step(cfg, s, Emit(code0, word)), prefix[..], suffix[..], code0, finchar, freeEnt, out)
    ensures freeEnt == cfg.First() + |Step(cfg, s, Emit(code0, word)).dict|
  {
    hide Expand, Pow2, Known, WellFounded, Reversed, Fits, TabsOk, StreamOk;
    ghost var p, x := prefix[..], suffix[..];
    WordFacts(cfg, s, p, x, code0, oldcode, finchar0, freeEnt0, word);
    var code, sp := code0, 0;
    NothingReversed();
    assert stack[..0] == [];
    if code >= freeEnt0 {
      stack[sp] := finchar0;
      OneReversed(finchar0);
      assert stack[..1] == [finchar0];
      sp := sp + 1;
      code := oldcode;
    }
    sp, finchar := Unwind(cfg, s.dict, prefix, suffix, stack, sp, code);
    assert Reversed(stack[..sp]) == word && finchar == word[0];
    out := out0;
    while sp > 0
      invariant prefix[..] == p && suffix[..] == x
      invariant sp <= stack.Length && out + Reversed(stack[..sp]) == out0 + word
    {
      LastReversed(stack[..sp]);
      sp := sp - 1;
      assert stack[..sp + 1][..sp] == stack[..sp];
      out := out + [stack[sp]];
    }
    assert stack[..0] == [];
    freeEnt := freeEnt0;
    if freeEnt < cfg.Limit() {
      EntryMade(cfg, s, p, x, oldcode, finchar, freeEnt, word);
      prefix[freeEnt] := oldcode;
      suffix[freeEnt] := finchar;
      assert prefix[..] == p[freeEnt := oldcode] && suffix[..] == x[freeEnt := finchar];
      freeEnt := freeEnt + 1;
    }
    WordStep(cfg, s, code0, word);
    ghost var t := Step(cfg, s, Emit(code0, word));
    assert out == t.text;
    assert TabsOk(cfg, t.dict, prefix[..], suffix[..]);
    assert freeEnt == cfg.First() + |t.dict|;
  }

  lemma NothingReversed()
    ensures Reversed([]) == []
  {
  }

  lemma OneReversed(b: Byte)
    ensures Reversed([b]) == [b]
  {
    assert [b] == [] + [b];
    ReversedSnoc([], b);
  }

  lemma LastReversed(s: seq<Byte>)
    requires s != []
    ensures Reversed(s) == [s[|s|-1]] + Reversed(s[..|s|-1])
  {
  }

  /** Which code the reader unwinds, and from what. */
  lemma WordFacts(cfg: Config, s: Stream, prefix: seq<nat>, suffix: seq<Byte>, code: nat,
                  oldcode: nat, finchar: Byte, freeEnt: nat, word: seq<Byte>)
    requires Expecting(cfg, s, prefix, suffix, oldcode, finchar, freeEnt, s.text)
    requires Fits(cfg, s, Emit(code, word)) && (s.prev.None? ==> code < 256)
    ensures cfg.Valid() && WellFounded(cfg, s.dict) && word != [] && |prefix| == |suffix| == TABSIZE
    ensures code < freeEnt ==> Known(cfg, s.dict, code) && Expand(cfg, s.dict, code) == word
    ensures code >= freeEnt ==> Known(cfg, s.dict, oldcode) && Expand(cfg, s.dict, oldcode) + [finchar] == word
    ensures freeEnt < cfg.Limit() ==> freeEnt < TABSIZE
    ensures freeEnt >= cfg.Limit() ==> Grow(cfg, s, word[0]) == s.dict
    ensures s.prev.None? ==> freeEnt < cfg.Limit()
  {
    LimitBound(cfg);
    ReaderKnowsWord(cfg, s, code, word);
  }

  lemma EntryMade(cfg: Config, s: Stream, prefix: seq<nat>, suffix: seq<Byte>,
                  oldcode: nat, finchar: Byte, freeEnt: nat, word: seq<Byte>)
    requires TabsOk(cfg, s.dict, prefix, suffix) && word != [] && finchar == word[0]
    requires freeEnt < cfg.Limit() && freeEnt < TABSIZE
    requires if s.prev.Some? then s.prev.value == oldcode && freeEnt == cfg.First() + |s.dict|
             else cfg.block && s.dict == [] && freeEnt == 256
    ensures TabsOk(cfg, Grow(cfg, s, word[0]), prefix[freeEnt := oldcode], suffix[freeEnt := finchar])
  {
    if s.prev.Some? {
      TabsAppend(cfg, s.dict, prefix, suffix, Entry(oldcode, finchar));
    } else {
      TabsDummy(cfg, prefix, suffix, oldcode, finchar);
    }
  }

  lemma WordStep(cfg: Config, s: Stream, code: nat, word: seq<Byte>)
    requires cfg.Valid() && StreamOk(cfg, s) && Fits(cfg, s, Emit(code, word))
    ensures var t := Step(cfg, s, Emit(code, word));
            && StreamOk(cfg, t) && t.dict == Grow(cfg, s, word[0])
            && Expand(cfg, t.dict, code) == word
  {
    StepIsOk(cfg, s, Emit(code, word));
  }

  /** The first code is a letter. */
  lemma FirstWord(cfg: Config, evs: seq<Event>, prefix: seq<nat>, suffix: seq<Byte>)
    requires cfg.Valid() && Legal(cfg, evs) && evs != [] && TabsOk(cfg, [], prefix, suffix)
    ensures var s := After(cfg, evs[..1]);
            && evs[0].Emit? && evs[0].code < 256
            && Expecting(cfg, s, prefix, suffix, evs[0].code, evs[0].code, cfg.First(), [evs[0].code])
            && cfg.First() == cfg.First() + |s.dict|
  {
    LegalPrefix(cfg, evs, 1);
    StepOfPrefix(cfg, evs, 0);
    assert evs[..0] == [];
    LegalIsOk(cfg, evs[..1]);
  }

  /** What the next event is and does to the stream. */
  lemma NextEvent(cfg: Config, evs: seq<Event>, i: nat)
    requires cfg.Valid() && Legal(cfg, evs) && i < |evs|
    ensures Fits(cfg, After(cfg, evs[..i]), evs[i])
    ensures After(cfg, evs[..i+1]) == Step(cfg, After(cfg, evs[..i]), evs[i])
    ensures evs[i].Reset? ==> cfg.block
    ensures evs[i].Emit? ==> cfg.block ==> evs[i].code != CLEAR
    ensures After(cfg, evs[..i]).prev.None? && After(cfg, evs[..i]).dict == [] ==>
              evs[i].Emit? && (evs[i].code < 256 || cfg.First() == 256)
  {
    LegalPrefix(cfg, evs, i + 1);
    StepOfPrefix(cfg, evs, i);
  }

  /** Behind a clear code the reader's tables stand for the empty dictionary. */
  lemma AfterClear(cfg: Config, s: Stream, prefix: seq<nat>, suffix: seq<Byte>, p: seq<nat>,
                   oldcode: nat, finchar: Byte, freeEnt: nat, out: seq<Byte>)
    requires Expecting(cfg, s, prefix, suffix, oldcode, finchar, freeEnt, out)
    requires cfg.block && Fits(cfg, s, Reset) && |p| == TABSIZE
    ensures Expecting(cfg, Step(cfg, s, Reset), p, suffix, oldcode, finchar, 256, out)
  {
    StepIsOk(cfg, s, Reset);
  }

  /** decompress()'s loop state behind `r.i` events. */
  ghost predicate Decoding(r: Reader, prefix: array<nat>, suffix: array<Byte>, stack: array<Byte>,
                           oldcode: nat, finchar: Byte, out: seq<Byte>)
    reads r, r.buf, prefix, suffix
  {
    && r.buf != suffix && r.buf != stack && stack != suffix && stack.Length == STACKSIZE
    && stack as object != prefix as object && suffix as object != prefix as object
    && r.buf as object != prefix as object && prefix.Length == TABSIZE
    && r.Valid() && 0 < r.i <= |r.evs|
    && After(r.cfg, r.evs[..r.i]).prev.Some?
    && FreeEntOk(r.cfg, r.evs, r.i, r.freeEnt, r.clearFlg)
    && Expecting(r.cfg, After(r.cfg, r.evs[..r.i]), prefix[..], suffix[..], oldcode, finchar, r.freeEnt, out)
  }

  /** The clear code: prefixes reset, widths reset, and the code behind it. */
  method Cleared(r: Reader, prefix: array<nat>, suffix: array<Byte>, ghost oldcode: nat, ghost finchar: Byte,
                 ghost out: seq<Byte>) returns (code: int)
    requires r.Valid() && 0 < r.i <= |r.evs| && r.evs[r.i - 1] == Reset && r.cfg.block
    requires r.buf != suffix && r.buf as object != prefix as object && suffix as object != prefix as object
    requires Expecting(r.cfg, After(r.cfg, r.evs[..r.i - 1]), prefix[..], suffix[..], oldcode, finchar, r.freeEnt, out)
    requires Fits(r.cfg, After(r.cfg, r.evs[..r.i - 1]), Reset) && prefix.Length == TABSIZE
    modifies r, r.buf, prefix
    ensures old(r.i) == |r.evs| ==> code == -1
    ensures old(r.i) < |r.evs| ==>
              code == CodeOf(r.evs[old(r.i)]) && r.i == old(r.i) + 1 && r.Valid() && !r.clearFlg &&
              Expecting(r.cfg, After(r.cfg, r.evs[..old(r.i)]), prefix[..], suffix[..], oldcode, finchar, r.freeEnt, out)
  {
    hide Framed, Holds, Legal, After, TabsOk, Written, Bits, Fits, DictAfter, Expand, Pow2, ReadState, WellFounded,
      StreamOk, Known, Expecting, Step, Grow, FreeEntOk;
    ghost var i, p, x, free := r.i, prefix[..], suffix[..], r.freeEnt;
    var k := 255;
    while k >= 0
      invariant -1 <= k <= 255 && r.Valid()
      modifies prefix
    {
      prefix[k] := 0;
      k := k - 1;
    }
    assert suffix[..] == x;
    StepOfPrefix(r.cfg, r.evs, i - 1);
    AfterClear(r.cfg, After(r.cfg, r.evs[..i - 1]), p, x, prefix[..], oldcode, finchar, free, out);
    ghost var q := prefix[..];
    r.clearFlg := true;
    r.freeEnt := CLEAR;
    FreeAfterClear(r.cfg, r.evs, i);
    code := r.GetCode();
    assert prefix[..] == q && suffix[..] == x;
  }

  /** decompress(), behind the header. */
  method Unsqueeze(cfg: Config, src: seq<Byte>, ghost input: seq<Byte>) returns (out: seq<Byte>)
    requires cfg.Valid() && Compressed(cfg, input, src)
    ensures out == input
  {
    hide Framed, Holds, Legal, After, TabsOk, Written, Bits, Fits, DictAfter, Expand, Pow2, ReadState, WellFounded,
      StreamOk, Known, Expecting, Step, Grow, FreeEntOk;
    ghost var evs: seq<Event> :| CompressedBy(cfg, input, src, evs);
    var r := new Reader(cfg, src, evs);
    var prefix := new nat[TABSIZE](_ => 0);
    var suffix := new Byte[TABSIZE](k => if 0 <= k < 256 then k else 0);
    var stack := new Byte[STACKSIZE](_ => 0);
    FreshTabs(cfg, prefix[..], suffix[..]);
    ghost var p, x := prefix[..], suffix[..];
    out := [];
    FirstFree(cfg, evs);
    var code := r.GetCode();
    if code == -1 {
      StartText(cfg);
      return;
    }
    assert prefix[..] == p && suffix[..] == x;
    FirstWord(cfg, evs, p, x);
    var oldcode: nat, finchar: Byte := code, code;
    out := out + [finchar];
    assert out == [finchar];
    FreeAfterWord(cfg, evs, r.i, r.freeEnt);
    var more := true;
    while more
      invariant fresh(r) && fresh(r.buf) && fresh(prefix) && fresh(suffix) && fresh(stack)
      invariant r.cfg == cfg && r.evs == evs
      invariant if more then Decoding(r, prefix, suffix, stack, oldcode, finchar, out) else out == input
      decreases if more then 1 + |evs| - r.i else 0
    {
      more, oldcode, finchar, out := NextWord(r, prefix, suffix, stack, oldcode, finchar, out);
      TheEnd(cfg, input, src, evs);
    }
  }

  lemma TheEnd(cfg: Config, input: seq<Byte>, src: seq<Byte>, evs: seq<Event>)
    requires CompressedBy(cfg, input, src, evs)
    ensures After(cfg, evs).text == input && (evs == [] || evs[|evs|-1].Emit?)
  {
  }

  /** One round of decompress()'s loop; `more` is false when the codes ran out. */
  method NextWord(r: Reader, prefix: array<nat>, suffix: array<Byte>, stack: array<Byte>,
                  oldcode0: nat, finchar0: Byte, out0: seq<Byte>)
    returns (more: bool, oldcode: nat, finchar: Byte, out: seq<Byte>)
    requires Decoding(r, prefix, suffix, stack, oldcode0, finchar0, out0)
    requires Legal(r.cfg, r.evs) && r.cfg.Valid() && r.evs[|r.evs| - 1].Emit?
    modifies r, r.buf, prefix, suffix, stack
    ensures more ==> Decoding(r, prefix, suffix, stack, oldcode, finchar, out) && r.i > old(r.i)
    ensures !more ==> out == After(r.cfg, r.evs).text
  {
    hide Framed, Holds, Legal, After, TabsOk, Written, Bits, Fits, DictAfter, Expand, Pow2, ReadState, WellFounded,
      StreamOk, Known, Expecting, Step, Grow, FreeEntOk;
    ghost var i, p, x := r.i, prefix[..], suffix[..];
    oldcode, finchar, out := oldcode0, finchar0, out0;
    var code := r.GetCode();
    if code <= -1 {
      assert r.evs[..i] == r.evs;
      TextSoFar(r.cfg, After(r.cfg, r.evs), p, x, oldcode, finchar, r.freeEnt, out);
      return false, oldcode, finchar, out;
    }
    NextEvent(r.cfg, r.evs, i);
    assert prefix[..] == p && suffix[..] == x;
    if code == CLEAR && r.cfg.block {
      code := Cleared(r, prefix, suffix, oldcode, finchar, out);
      NothingEntered(r.cfg, After(r.cfg, r.evs[..i]));
      i := i + 1;
      NextEvent(r.cfg, r.evs, i);
    }
    var freeEnt;
    ghost var s := After(r.cfg, r.evs[..i]);
    finchar, freeEnt, out :=
      Word(r.cfg, prefix, suffix, stack, code, oldcode, finchar, r.freeEnt, out, s, r.evs[i].word);
    r.freeEnt := freeEnt;
    oldcode := code;
    FreeAfterWord(r.cfg, r.evs, i + 1, freeEnt);
    more := true;
  }

  lemma TextSoFar(cfg: Config, s: Stream, prefix: seq<nat>, suffix: seq<Byte>,
                  oldcode: nat, finchar: Byte, freeEnt: nat, out: seq<Byte>)
    requires Expecting(cfg, s, prefix, suffix, oldcode, finchar, freeEnt, out)
    ensures out == s.text
  {
  }

  lemma NothingEntered(cfg: Config, s: Stream)
    ensures Step(cfg, s, Reset).prev == None && Step(cfg, s, Reset).dict == []
  {
  }

  lemma FreeAfterWord(cfg: Config, evs: seq<Event>, i: nat, freeEnt: nat)
    requires 0 < i <= |evs| && evs[i-1].Emit? && freeEnt == cfg.First() + |After(cfg, evs[..i]).dict|
    ensures FreeEntOk(cfg, evs, i, freeEnt, false)
    ensures After(cfg, evs[..i]).prev.Some?
  {
    StepOfPrefix(cfg, evs, i - 1);
  }

  lemma FreeAfterClear(cfg: Config, evs: seq<Event>, i: nat)
    requires 0 < i <= |evs| && evs[i-1].Reset?
    ensures FreeEntOk(cfg, evs, i, CLEAR, true)
  {
  }

  lemma FreshTabs(cfg: Config, prefix: seq<nat>, suffix: seq<Byte>)
    requires cfg.Valid() && |prefix| == |suffix| == TABSIZE && forall c :: 0 <= c < 256 ==> suffix[c] == c
    ensures TabsOk(cfg, [], prefix, suffix)
  {
    LimitBound(cfg);
  }

  lemma FirstFree(cfg: Config, evs: seq<Event>)
    ensures FreeEntOk(cfg, evs, 0, cfg.First(), false)
  {
    assert evs[..0] == [];
  }

  // ---------- The whole file, header included ----------

  datatype Outcome = Text(text: seq<Byte>) | NotCompressed | TooManyBits(maxbits: nat)

  const BIT_MASK: nat := 0x1f
  const BLOCK_MASK: nat := 0x80

  /** The third byte: maxbits and the block flag share it without touching each other. */
  lemma HeaderByte(cfg: Config)
    requires cfg.Valid()
    ensures var h := Or(cfg.maxbits, if cfg.block then BLOCK_MASK else 0);
            && h < 256 && And(h, BIT_MASK) == cfg.maxbits && (And(h, BLOCK_MASK) != 0 <==> cfg.block)
  {
    hide And;
    OrOnce(cfg.maxbits);
  }

  lemma OrOnce(m: nat)
    requires m < 32
    ensures Or(m, 128) == m + 128 && And(m + 128, 31) == m && And(m + 128, 128) == 128
    ensures And(m, 31) == m && And(m, 128) == 0
  {
    hide Or, And;
    assert Pow2(7) == 128 && Pow2(5) == 32 by { assert Pow2(4) == 16; }
    OrHigh(m, 7, 5);
    AndLow(m, 7, 5);
    AndHigh(m, 7, 5);
  }

  /** A number below 2^b beside a single bit at a >= b. */
  lemma {:induction false} OrHigh(m: nat, a: nat, b: nat)
    requires b <= a && m < Pow2(b)
    ensures Or(m, Pow2(a)) == m + Pow2(a)
  {
    if b > 0 { OrHigh(m / 2, a - 1, b - 1); }
  }

  lemma {:induction false} AndLow(m: nat, a: nat, b: nat)
    requires b <= a && m < Pow2(b)
    ensures And(m + Pow2(a), Pow2(b) - 1) == m && And(m, Pow2(b) - 1) == m
  {
    if b > 0 {
      assert (m + Pow2(a)) / 2 == m / 2 + Pow2(a - 1);
      assert (Pow2(b) - 1) / 2 == Pow2(b - 1) - 1;
      AndLow(m / 2, a - 1, b - 1);
    }
  }

  lemma {:induction false} AndHigh(m: nat, a: nat, b: nat)
    requires b <= a && m < Pow2(b)
    ensures And(m + Pow2(a), Pow2(a)) == Pow2(a) && And(m, Pow2(a)) == 0
  {
    if b == 0 {
      AndSelf(Pow2(a));
    } else {
      assert (m + Pow2(a)) / 2 == m / 2 + Pow2(a - 1);
      AndHigh(m / 2, a - 1, b - 1);
    }
  }

  lemma {:induction false} AndSelf(x: nat)
    ensures And(x, x) == x
  {
    if x > 0 { AndSelf(x / 2); }
  }

  /** A compressed file: magic, parameters, codes. */
  ghost predicate IsCompressedFile(cfg: Config, input: seq<Byte>, file: seq<Byte>) {
    |file| >= 3 && file[0] == 0x1f && file[1] == 0x9d &&
    file[2] == Or(cfg.maxbits, if cfg.block then BLOCK_MASK else 0) &&
    Compressed(cfg, input, file[3..])
  }

  method CompressFile(cfg: Config, input: seq<Byte>) returns (file: seq<Byte>)
    requires cfg.Valid()
    ensures IsCompressedFile(cfg, input, file) && GreedilyCompressed(cfg, input, file[3..])
  {
    hide And, Or, Compressed, GreedilyCompressed;
    HeaderByte(cfg);
    var body := Squeeze(cfg, input);
    file := [0x1f, 0x9d, Or(cfg.maxbits, if cfg.block then BLOCK_MASK else 0)] + body;
    assert file[3..] == body;
  }

  /** In block mode, the same letter six times becomes three codes. */
  method SixLettersFile(cfg: Config) returns (file: seq<Byte>)
    requires cfg.Valid() && cfg.block
    ensures |file| >= 3 && Written(cfg, SIX_RUN, file[3..])
  {
    hide And, Or, Written, Legal, After, Greedy, Compressed;
    file := CompressFile(cfg, SIX);
    ghost var evs :| GreedilyBy(cfg, SIX, file[3..], evs);
    SixLetters(cfg, evs);
  }

  /** Settings come from the file, as in main(). */
  method DecompressFile(file: seq<Byte>, ghost cfg0: Config, ghost input: seq<Byte>) returns (r: Outcome)
    requires |file| >= 2 && file[0] == 0x1f && file[1] == 0x9d ==>
               cfg0.Valid() && IsCompressedFile(cfg0, input, file)
    ensures r == if |file| >= 2 && file[0] == 0x1f && file[1] == 0x9d then Text(input) else NotCompressed
  {
    hide And, Or, Compressed;
    if |file| < 2 || file[0] != 0x1f || file[1] != 0x9d { return NotCompressed; }
    HeaderByte(cfg0);
    var cfg := Config(And(file[2], BIT_MASK), And(file[2], BLOCK_MASK) != 0);
    if cfg.maxbits > BITS { return TooManyBits(cfg.maxbits); }
    var out := Unsqueeze(cfg, file[3..], input);
    r := Text(out);
  }

  /** For every input, every maxbits from 9 to 13, both block modes and every choice of
      clear points, decompressing what compress wrote gives the input back. */
  method RoundTrip(cfg: Config, input: seq<Byte>) returns (r: Outcome)
    requires cfg.Valid()
    ensures r == Text(input)
  {
    var file := CompressFile(cfg, input);
    r := DecompressFile(file, cfg, input);
  }
}
