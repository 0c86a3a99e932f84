/** Which of the legal runs compress writes: each code is the longest word of the table that the input goes on with. */
module LzwGreedy {
  import opened BitOps
  import opened LzwStream
  import opened Options
  import opened Stdio

  const ZERO_PAIR := Entry(0, 0)

  /** The word of event k cannot go on: its code and the next letter of the input are no entry.  The pair with key 0
      may be overlooked. */
  ghost predicate Longest(cfg: Config, evs: seq<Event>, k: nat, input: seq<Byte>)
    requires k < |evs| && evs[k].Emit?
  {
    var s := After(cfg, evs[..k + 1]);
    |s.text| < |input| ==>
      var e := Entry(evs[k].code, input[|s.text|]);
      e == ZERO_PAIR || e !in s.dict
  }

  ghost predicate Greedy(cfg: Config, evs: seq<Event>, input: seq<Byte>) {
    forall k :: 0 <= k < |evs| && evs[k].Emit? ==> Longest(cfg, evs, k, input)
  }

  /** A run that writes the whole input. */
  ghost predicate Whole(cfg: Config, evs: seq<Event>, input: seq<Byte>) {
    Legal(cfg, evs) && (evs == [] || evs[|evs|-1].Emit?) && After(cfg, evs).text == input
  }

  /** What compress writes. */
  ghost predicate GreedilyCompressed(cfg: Config, input: seq<Byte>, bytes: seq<Byte>) {
    exists evs :: GreedilyBy(cfg, input, bytes, evs)
  }

  ghost predicate GreedilyBy(cfg: Config, input: seq<Byte>, bytes: seq<Byte>, evs: seq<Event>) {
    Whole(cfg, evs, input) && Greedy(cfg, evs, input) && Written(cfg, evs, bytes)
  }

  lemma GreedyIsCompressed(cfg: Config, input: seq<Byte>, bytes: seq<Byte>)
    requires GreedilyCompressed(cfg, input, bytes)
    ensures Compressed(cfg, input, bytes)
  {
    hide Legal, After, Written, Greedy;
    var evs :| GreedilyBy(cfg, input, bytes, evs);
    assert CompressedBy(cfg, input, bytes, evs);
  }

  lemma NothingIsGreedy(cfg: Config, input: seq<Byte>)
    ensures Greedy(cfg, [], input)
  {
  }

  lemma GreedySnoc(cfg: Config, evs: seq<Event>, ev: Event, input: seq<Byte>)
    requires Greedy(cfg, evs, input) && (ev.Emit? ==> Longest(cfg, evs + [ev], |evs|, input))
    ensures Greedy(cfg, evs + [ev], input)
  {
    hide After;
    forall k | 0 <= k < |evs| && evs[k].Emit? ensures Longest(cfg, evs + [ev], k, input) {
      assert (evs + [ev])[..k + 1] == evs[..k + 1];
      assert Longest(cfg, evs, k, input);
    }
  }

  // ---------- Words in a table without double entries ----------

  ghost predicate Distinct(dict: seq<Entry>) { forall i, j :: 0 <= i < j < |dict| ==> dict[i] != dict[j] }

  lemma {:induction false} SameWord(cfg: Config, dict: seq<Entry>, a: nat, b: nat)
    requires WellFounded(cfg, dict) && Distinct(dict) && Known(cfg, dict, a) && Known(cfg, dict, b)
    requires Expand(cfg, dict, a) == Expand(cfg, dict, b)
    ensures a == b
    decreases a
  {
    if a >= 256 && b >= 256 {
      var d, e := dict[a - cfg.First()], dict[b - cfg.First()];
      var v, w := Expand(cfg, dict, d.prefix), Expand(cfg, dict, e.prefix);
      assert (v + [d.suffix])[..|v|] == v && (w + [e.suffix])[..|w|] == w;
      assert |v + [d.suffix]| == |w + [e.suffix]|;
      assert (v + [d.suffix])[|v|] == d.suffix && (w + [e.suffix])[|w|] == e.suffix;
      SameWord(cfg, dict, d.prefix, e.prefix);
    }
  }

  /** An entry that begins a longer word at length m. */
  ghost predicate GoesOn(cfg: Config, dict: seq<Entry>, k: nat, word: seq<Byte>, m: nat)
    requires WellFounded(cfg, dict) && m < |word|
  {
    k < |dict| && Expand(cfg, dict, dict[k].prefix) == word[..m] && dict[k].suffix == word[m]
  }

  lemma {:induction false} Ancestor(cfg: Config, dict: seq<Entry>, b: nat, m: nat) returns (k: nat)
    requires WellFounded(cfg, dict) && Known(cfg, dict, b) && 0 < m < |Expand(cfg, dict, b)|
    ensures GoesOn(cfg, dict, k, Expand(cfg, dict, b), m)
    decreases b
  {
    var e := dict[b - cfg.First()];
    var v := Expand(cfg, dict, e.prefix);
    assert Expand(cfg, dict, b) == v + [e.suffix];
    if m == |v| {
      k := b - cfg.First();
      assert (v + [e.suffix])[..m] == v;
    } else {
      k := Ancestor(cfg, dict, e.prefix, m);
      assert (v + [e.suffix])[..m] == v[..m];
    }
  }

  /** A code that cannot go on with c is no shorter than any word that the input goes on with. */
  lemma NoLonger(cfg: Config, dict: seq<Entry>, a: nat, b: nat, rest: seq<Byte>)
    requires WellFounded(cfg, dict) && Distinct(dict) && Known(cfg, dict, a) && Known(cfg, dict, b)
    requires Expand(cfg, dict, a) <= rest && Expand(cfg, dict, b) <= rest
    requires |Expand(cfg, dict, a)| < |rest| ==> Entry(a, rest[|Expand(cfg, dict, a)|]) !in dict
    ensures |Expand(cfg, dict, b)| <= |Expand(cfg, dict, a)|
  {
    hide WellFounded, Expand, Distinct;
    var v, w := Expand(cfg, dict, a), Expand(cfg, dict, b);
    if |v| < |w| {
      var k := Ancestor(cfg, dict, b, |v|);
      EntryIsKnown(cfg, dict, k);
      assert w[..|v|] == v && w[|v|] == rest[|v|];
      SameWord(cfg, dict, dict[k].prefix, a);
    }
  }

  lemma EntryIsKnown(cfg: Config, dict: seq<Entry>, k: nat)
    requires WellFounded(cfg, dict) && k < |dict|
    ensures Known(cfg, dict, dict[k].prefix)
  {
  }

  // ---------- One run for each input and choice of clear points ----------

  /** No two zero bytes stand side by side. */
  predicate NoZeroPair(input: seq<Byte>) { forall i :: 0 <= i < |input| - 1 ==> input[i] != 0 || input[i + 1] != 0 }

  /** The state of a run that has written the beginning of the input. */
  ghost predicate Underway(cfg: Config, evs: seq<Event>, input: seq<Byte>) {
    cfg.Valid() && Legal(cfg, evs) && Greedy(cfg, evs, input) && NoZeroPair(input) && After(cfg, evs).text <= input
  }

  lemma GreedyPrefix(cfg: Config, evs: seq<Event>, i: nat, input: seq<Byte>)
    requires Greedy(cfg, evs, input) && i <= |evs|
    ensures Greedy(cfg, evs[..i], input)
  {
    hide After;
    forall k | 0 <= k < i && evs[k].Emit? ensures Longest(cfg, evs[..i], k, input) {
      assert evs[..i][..k + 1] == evs[..k + 1];
      assert Longest(cfg, evs, k, input);
    }
  }

  lemma UnderwayBefore(cfg: Config, evs: seq<Event>, input: seq<Byte>)
    requires Underway(cfg, evs, input) && evs != []
    ensures var before := evs[..|evs|-1]; var ev := evs[|evs|-1];
      && Underway(cfg, before, input) && Fits(cfg, After(cfg, before), ev)
      && After(cfg, evs) == Step(cfg, After(cfg, before), ev)
      && (ev.Emit? ==> Longest(cfg, evs, |evs| - 1, input) && ev.word != [] && ev.word <= input[|After(cfg, before).text|..])
  {
    hide Longest, Greedy, NoZeroPair, Grow;
    GreedyPrefix(cfg, evs, |evs| - 1, input);
    if evs[|evs|-1].Emit? { LastIsLongest(cfg, evs, input); }
    var before, ev := evs[..|evs|-1], evs[|evs|-1];
    var t := After(cfg, before).text;
    if ev.Emit? {
      assert t + ev.word <= input;
      assert input[|t|..][..|ev.word|] == ev.word;
    }
  }

  lemma LastIsLongest(cfg: Config, evs: seq<Event>, input: seq<Byte>)
    requires Greedy(cfg, evs, input) && evs != [] && evs[|evs|-1].Emit?
    ensures Longest(cfg, evs, |evs| - 1, input)
  {
    hide Longest;
  }

  /** Then no pair is entered twice. */
  lemma {:induction false} TableIsDistinct(cfg: Config, evs: seq<Event>, input: seq<Byte>)
    requires Underway(cfg, evs, input)
    ensures var s := After(cfg, evs); Distinct(s.dict) && (|s.text| < |input| ==> Distinct(Grow(cfg, s, input[|s.text|])))
    decreases |evs|
  {
    if evs != [] {
      hide Underway, Greedy, Legal, After, Longest, Grow, Fits;
      var before, ev := evs[..|evs|-1], evs[|evs|-1];
      UnderwayBefore(cfg, evs, input);
      TableIsDistinct(cfg, before, input);
      TableStaysDistinct(cfg, evs, input);
    }
  }

  lemma TableStaysDistinct(cfg: Config, evs: seq<Event>, input: seq<Byte>)
    requires Underway(cfg, evs, input) && evs != []
    requires var s0 := After(cfg, evs[..|evs|-1]); Distinct(s0.dict) && (|s0.text| < |input| ==> Distinct(Grow(cfg, s0, input[|s0.text|])))
    ensures var s := After(cfg, evs); Distinct(s.dict) && (|s.text| < |input| ==> Distinct(Grow(cfg, s, input[|s.text|])))
  {
    hide Legal, Greedy, Expand, WellFounded;
    var before, ev := evs[..|evs|-1], evs[|evs|-1];
    var s0, s := After(cfg, before), After(cfg, evs);
    UnderwayBefore(cfg, evs, input);
    assert evs[..|evs| - 1 + 1] == evs;
    if ev.Emit? {
      assert ev.word[0] == input[|s0.text|];
      if |s.text| < |input| { NotTheZeroPair(cfg, Grow(cfg, s0, ev.word[0]), ev.code, ev.word, s0.text, input); }
    }
  }

  /** In an input without two zero bytes side by side, a word and the next letter are not the pair with key 0. */
  lemma NotTheZeroPair(cfg: Config, dict: seq<Entry>, code: nat, word: seq<Byte>, text: seq<Byte>, input: seq<Byte>)
    requires WellFounded(cfg, dict) && Known(cfg, dict, code) && Expand(cfg, dict, code) == word
    requires text + word <= input && |text + word| < |input| && NoZeroPair(input)
    ensures Entry(code, input[|text + word|]) != ZERO_PAIR
  {
    if code == 0 {
      assert word == [0];
      assert input[|text|] == (text + word)[|text|] == 0;
    }
  }

  /** What a word and its end mean: no code of the table stands for the word and the next letter. */
  lemma LongestWord(cfg: Config, evs: seq<Event>, input: seq<Byte>, b: nat)
    requires Underway(cfg, evs, input) && evs != [] && evs[|evs|-1].Emit? && |After(cfg, evs).text| < |input|
    requires WellFounded(cfg, After(cfg, evs).dict) && Known(cfg, After(cfg, evs).dict, b)
    ensures Expand(cfg, After(cfg, evs).dict, b) != evs[|evs|-1].word + [input[|After(cfg, evs).text|]]
  {
    hide Underway, Legal, Greedy, WellFounded, Expand;
    var before, ev := evs[..|evs|-1], evs[|evs|-1];
    var s0, s := After(cfg, before), After(cfg, evs);
    UnderwayBefore(cfg, evs, input);
    TableIsDistinct(cfg, evs, input);
    UnderwayIs(cfg, evs, input);
    assert evs[..|evs| - 1 + 1] == evs;
    NotTheZeroPair(cfg, s.dict, ev.code, ev.word, s0.text, input);
    if Expand(cfg, s.dict, b) == ev.word + [input[|s.text|]] {
      NoLonger(cfg, s.dict, ev.code, b, ev.word + [input[|s.text|]]);
    }
  }

  lemma UnderwayIs(cfg: Config, evs: seq<Event>, input: seq<Byte>)
    requires Underway(cfg, evs, input)
    ensures After(cfg, evs).text <= input && NoZeroPair(input) && Legal(cfg, evs) && cfg.Valid()
  {
  }

  /** Two runs that have come to the same state go on with the same word. */
  lemma SameNext(cfg: Config, before: seq<Event>, e: Event, f: Event, input: seq<Byte>)
    requires Underway(cfg, before + [e], input) && Underway(cfg, before + [f], input) && e.Emit? && f.Emit?
    ensures e == f
  {
    hide Underway, Legal, Greedy, Expand;
    NextWord(cfg, before, e, input);
    NextWord(cfg, before, f, input);
    var s := After(cfg, before);
    var rest := input[|s.text|..];
    var d := Grow(cfg, s, input[|s.text|]);
    NoLonger(cfg, d, e.code, f.code, rest);
    NoLonger(cfg, d, f.code, e.code, rest);
    SameWord(cfg, d, e.code, f.code);
  }

  lemma NextWord(cfg: Config, before: seq<Event>, e: Event, input: seq<Byte>)
    requires Underway(cfg, before + [e], input) && e.Emit?
    ensures var s := After(cfg, before);
      |s.text| < |input| &&
      var d, rest := Grow(cfg, s, input[|s.text|]), input[|s.text|..];
      && WellFounded(cfg, d) && Distinct(d) && Known(cfg, d, e.code) && Expand(cfg, d, e.code) == e.word <= rest
      && (|e.word| < |rest| ==> Entry(e.code, rest[|e.word|]) !in d)
  {
    hide Legal, Greedy, Expand, Grow, Underway, Distinct;
    var evs := before + [e];
    assert evs[..|evs|-1] == before && evs[|evs|-1] == e && evs[..|evs| - 1 + 1] == evs;
    UnderwayBefore(cfg, evs, input);
    UnderwayIs(cfg, evs, input);
    TableIsDistinct(cfg, before, input);
    var s := After(cfg, before);
    assert After(cfg, evs).text == s.text + e.word;
    assert e.word[0] == input[|s.text|];
    if |s.text + e.word| < |input| { NotTheZeroPair(cfg, Grow(cfg, s, e.word[0]), e.code, e.word, s.text, input); }
  }

  /** The clear points are the same. */
  ghost predicate SameClears(a: seq<Event>, b: seq<Event>) { forall k :: 0 <= k < |a| && k < |b| ==> (a[k].Reset? <==> b[k].Reset?) }

  lemma PrefixUnderway(cfg: Config, evs: seq<Event>, n: nat, input: seq<Byte>)
    requires Underway(cfg, evs, input) && n <= |evs|
    ensures Underway(cfg, evs[..n], input)
    decreases |evs|
  {
    hide Underway;
    if n < |evs| {
      UnderwayBefore(cfg, evs, input);
      assert evs[..|evs|-1][..n] == evs[..n];
      PrefixUnderway(cfg, evs[..|evs|-1], n, input);
    } else {
      assert evs[..n] == evs;
    }
  }

  lemma {:induction false} SameSoFar(cfg: Config, a: seq<Event>, b: seq<Event>, n: nat, input: seq<Byte>)
    requires Underway(cfg, a, input) && Underway(cfg, b, input) && SameClears(a, b) && n <= |a| && n <= |b|
    ensures a[..n] == b[..n]
  {
    hide Underway;
    if n > 0 {
      SameSoFar(cfg, a, b, n - 1, input);
      PrefixUnderway(cfg, a, n, input);
      PrefixUnderway(cfg, b, n, input);
      assert a[..n] == a[..n-1] + [a[n-1]] && b[..n] == b[..n-1] + [b[n-1]];
      if a[n-1].Emit? { SameNext(cfg, a[..n-1], a[n-1], b[n-1], input); }
    }
  }

  /** A run is at its end when it has written the input. */
  lemma WholeIsAll(cfg: Config, evs: seq<Event>, n: nat, input: seq<Byte>)
    requires Underway(cfg, evs, input) && Whole(cfg, evs, input) && n <= |evs| && After(cfg, evs[..n]).text == input
    ensures n == |evs|
  {
    if n < |evs| {
      hide Underway, Legal;
      var before := evs[..|evs|-1];
      UnderwayBefore(cfg, evs, input);
      assert before[..n] == evs[..n];
      TextGrows(cfg, before, n);
    }
  }

  lemma {:induction false} TextGrows(cfg: Config, evs: seq<Event>, n: nat)
    requires n <= |evs|
    ensures |After(cfg, evs[..n]).text| <= |After(cfg, evs).text|
  {
    if n < |evs| {
      assert evs[..|evs|-1][..n] == evs[..n];
      TextGrows(cfg, evs[..|evs|-1], n);
    } else {
      assert evs[..n] == evs;
    }
  }

  /** The codes are determined by the input and the clear points. */
  lemma OneGreedyRun(cfg: Config, a: seq<Event>, b: seq<Event>, input: seq<Byte>)
    requires cfg.Valid() && NoZeroPair(input) && SameClears(a, b)
    requires Whole(cfg, a, input) && Greedy(cfg, a, input) && Whole(cfg, b, input) && Greedy(cfg, b, input)
    ensures a == b
  {
    hide Legal, After, Greedy, NoZeroPair;
    if |a| <= |b| {
      SameSoFar(cfg, a, b, |a|, input);
      assert a[..|a|] == a;
      WholeIsAll(cfg, b, |a|, input);
      assert b[..|b|] == b;
    } else {
      SameSoFar(cfg, b, a, |b|, input);
      assert b[..|b|] == b;
      WholeIsAll(cfg, a, |b|, input);
    }
  }

  // ---------- Six letters ----------

  const SIX: seq<Byte> := [97, 97, 97, 97, 97, 97]
  const SIX_RUN: seq<Event> := [Emit(97, [97]), Emit(257, [97, 97]), Emit(258, [97, 97, 97])]

  /** In block mode the same letter six times is written as the codes 97, 257 and 258. */
  lemma SixLetters(cfg: Config, evs: seq<Event>)
    requires cfg.Valid() && cfg.block && Whole(cfg, evs, SIX) && Greedy(cfg, evs, SIX)
    ensures evs == SIX_RUN
  {
    hide Legal, After, Greedy, SIX_RUN, SIX;
    SixRunIsGreedy(cfg);
    NoClears(cfg, evs);
    OneGreedyRun(cfg, evs, SIX_RUN, SIX);
  }

  lemma SixRunIsGreedy(cfg: Config)
    requires cfg.Valid() && cfg.block
    ensures Whole(cfg, SIX_RUN, SIX) && Greedy(cfg, SIX_RUN, SIX) && NoZeroPair(SIX)
  {
    hide Legal, After, Expand;
    SixBegins(cfg);
    SixGoesOn(cfg);
    SixEnds(cfg);
    NothingIsGreedy(cfg, SIX);
    assert [] + [SIX_RUN[0]] == SIX_RUN[..1] && SIX_RUN[..1] + [SIX_RUN[1]] == SIX_RUN[..2] && SIX_RUN[..2] + [SIX_RUN[2]] == SIX_RUN;
    assert SIX_RUN[..2][..1] == SIX_RUN[..1] && SIX_RUN[..3] == SIX_RUN;
    assert SIX_RUN[..1][..1] == SIX_RUN[..1] && SIX_RUN[..2][..2] == SIX_RUN[..2];
    GreedySnoc(cfg, [], SIX_RUN[0], SIX);
    GreedySnoc(cfg, SIX_RUN[..1], SIX_RUN[1], SIX);
    GreedySnoc(cfg, SIX_RUN[..2], SIX_RUN[2], SIX);
  }

  lemma SixBegins(cfg: Config)
    requires cfg.Valid() && cfg.block
    ensures Legal(cfg, SIX_RUN[..1])
    ensures var s := After(cfg, SIX_RUN[..1]); s.dict == [] && s.text == SIX[..1] && s.prev == Some(97)
  {
    hide Resizes, Flushes;
    assert SIX_RUN[..1] == [Emit(97, [97])] && [Emit(97, [97])][..0] == [];
    assert SIX[..1] == [97];
    assert Expand(cfg, [], 97) == [97];
  }

  lemma SixGoesOn(cfg: Config)
    requires cfg.Valid() && cfg.block
    ensures Legal(cfg, SIX_RUN[..2])
    ensures var s := After(cfg, SIX_RUN[..2]); s.dict == [Entry(97, 97)] && s.text == SIX[..3] && s.prev == Some(257)
  {
    hide Resizes, Flushes;
    SixBegins(cfg);
    LimitIsLarge(cfg);
    var d := [Entry(97, 97)];
    assert SIX_RUN[..2][..1] == SIX_RUN[..1] && SIX_RUN[..2][1] == Emit(257, [97, 97]);
    assert Expand(cfg, d, 97) == [97];
    assert Expand(cfg, d, 257) == [97, 97];
    assert SIX[..1] + [97, 97] == SIX[..3];
  }

  lemma SixEnds(cfg: Config)
    requires cfg.Valid() && cfg.block
    ensures Legal(cfg, SIX_RUN) && After(cfg, SIX_RUN).text == SIX
  {
    hide Resizes, Flushes;
    SixGoesOn(cfg);
    LimitIsLarge(cfg);
    var d := [Entry(97, 97), Entry(257, 97)];
    assert SIX_RUN[2] == Emit(258, [97, 97, 97]);
    assert Expand(cfg, d, 97) == [97];
    assert Expand(cfg, d, 257) == [97, 97];
    assert Expand(cfg, d, 258) == [97, 97, 97];
    assert SIX[..3] + [97, 97, 97] == SIX;
  }

  lemma LimitIsLarge(cfg: Config)
    requires cfg.Valid()
    ensures cfg.Limit() >= 512
  {
    Powers();
  }

  lemma NoClears(cfg: Config, evs: seq<Event>)
    requires cfg.Valid() && Legal(cfg, evs)
    ensures SameClears(evs, SIX_RUN)
  {
    hide Legal;
    forall k | 0 <= k < |evs| && k < |SIX_RUN| ensures evs[k].Emit? { FewCodes(cfg, evs, k); }
  }

  /** The table is not full after two codes. */
  lemma FewCodes(cfg: Config, evs: seq<Event>, k: nat)
    requires cfg.Valid() && Legal(cfg, evs) && k < |evs| && k < 3
    ensures evs[k].Emit?
  {
    hide Legal, After;
    LimitIsLarge(cfg);
    LegalPrefix(cfg, evs, k + 1);
    assert evs[..k + 1][..k] == evs[..k];
    TableIsSmall(cfg, evs[..k]);
    LastFits(cfg, evs[..k + 1]);
  }

  lemma LastFits(cfg: Config, evs: seq<Event>)
    requires Legal(cfg, evs) && evs != []
    ensures Fits(cfg, After(cfg, evs[..|evs|-1]), evs[|evs|-1])
  {
    hide After, Fits;
  }

  lemma {:induction false} TableIsSmall(cfg: Config, evs: seq<Event>)
    ensures |After(cfg, evs).dict| <= |evs|
  {
    if evs != [] { TableIsSmall(cfg, evs[..|evs|-1]); }
  }
}
