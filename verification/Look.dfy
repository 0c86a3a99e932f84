/** look: a binary search over the bytes of a sorted dictionary, and a scan from where it ends. */
module Look {
  import opened Stdio

  const MAX_WORD_LENGTH: nat := 80

  // ---------- Comparing ----------

  /** strcmp() */
  function Compare(a: seq<Byte>, b: seq<Byte>): int {
    if a == [] then (if b == [] then 0 else -1)
    else if b == [] then 1
    else if a[0] < b[0] then -1
    else if a[0] > b[0] then 1
    else Compare(a[1..], b[1..])
  }

  /** strncmp() with the prefix's length. */
  function CompareStart(prefix: seq<Byte>, word: seq<Byte>): int { Compare(prefix, Cut(word, |prefix|)) }

  function Cut(word: seq<Byte>, n: nat): seq<Byte> { if n <= |word| then word[..n] else word }

  predicate HasPrefix(word: seq<Byte>, prefix: seq<Byte>) { |prefix| <= |word| && word[..|prefix|] == prefix }

  predicate HasSuffix(word: seq<Byte>, suffix: seq<Byte>) { |suffix| <= |word| && word[|word| - |suffix|..] == suffix }

  lemma {:induction false} CompareEqual(a: seq<Byte>, b: seq<Byte>)
    ensures Compare(a, b) == 0 <==> a == b
  {
    if a != [] && b != [] {
      CompareEqual(a[1..], b[1..]);
      assert a == [a[0]] + a[1..] && b == [b[0]] + b[1..];
    }
  }

  lemma {:induction false} CompareFlip(a: seq<Byte>, b: seq<Byte>)
    ensures Compare(a, b) < 0 <==> Compare(b, a) > 0
  {
    if a != [] && b != [] { CompareFlip(a[1..], b[1..]); }
  }

  lemma {:induction false} CompareTrans(a: seq<Byte>, b: seq<Byte>, c: seq<Byte>)
    requires Compare(a, b) < 0 && Compare(b, c) < 0
    ensures Compare(a, c) < 0
  {
    if a != [] && b != [] && c != [] && a[0] == b[0] == c[0] { CompareTrans(a[1..], b[1..], c[1..]); }
  }

  lemma PrefixIsZero(prefix: seq<Byte>, word: seq<Byte>)
    ensures CompareStart(prefix, word) == 0 <==> HasPrefix(word, prefix)
  {
    CompareEqual(prefix, Cut(word, |prefix|));
  }

  lemma PrefixRest(word: seq<Byte>, prefix: seq<Byte>)
    requires word != [] && prefix != [] && HasPrefix(word, prefix)
    ensures HasPrefix(word[1..], prefix[1..])
  {
    assert word[1..][..|prefix| - 1] == word[..|prefix|][1..];
  }

  /** A word below the prefix does not begin with it. */
  lemma {:induction false} BelowPrefix(prefix: seq<Byte>, word: seq<Byte>)
    requires Compare(word, prefix) < 0
    ensures !HasPrefix(word, prefix)
    decreases |prefix|
  {
    if word != [] && word[0] == prefix[0] {
      BelowPrefix(prefix[1..], word[1..]);
      if HasPrefix(word, prefix) { PrefixRest(word, prefix); }
    }
  }

  /** A word whose beginning is above the prefix is followed by such words only. */
  lemma {:induction false} AbovePrefix(prefix: seq<Byte>, word: seq<Byte>, later: seq<Byte>)
    requires CompareStart(prefix, word) < 0 && Compare(word, later) < 0
    ensures CompareStart(prefix, later) < 0
    decreases |prefix|
  {
    if prefix != [] && word != [] && later != [] && prefix[0] == word[0] == later[0] {
      CutRest(word, |prefix|);
      CutRest(later, |prefix|);
      AbovePrefix(prefix[1..], word[1..], later[1..]);
    }
  }

  lemma CutRest(word: seq<Byte>, n: nat)
    requires word != [] && n > 0
    ensures Cut(word, n) != [] && Cut(word, n)[0] == word[0] && Cut(word, n)[1..] == Cut(word[1..], n - 1)
  {
  }

  // ---------- The dictionary ----------

  predicate IsWord(w: seq<Byte>) {
    |w| <= MAX_WORD_LENGTH - 2 && forall i :: 0 <= i < |w| ==> w[i] != NL && w[i] != 0
  }

  predicate Dictionary(words: seq<seq<Byte>>) {
    && (forall i :: 0 <= i < |words| ==> IsWord(words[i]))
    && forall i, j :: 0 <= i < j < |words| ==> Compare(words[i], words[j]) < 0
  }

  function Text(words: seq<seq<Byte>>): seq<Byte> {
    if words == [] then [] else Text(words[..|words|-1]) + words[|words|-1] + [NL]
  }

  /** Where word i begins. */
  function Offset(words: seq<seq<Byte>>, i: nat): nat
    requires i <= |words|
  {
    |Text(words[..i])|
  }

  lemma {:induction false} TextAt(words: seq<seq<Byte>>, i: nat)
    requires i < |words|
    ensures Offset(words, i + 1) == Offset(words, i) + |words[i]| + 1 <= |Text(words)|
    ensures Text(words)[Offset(words, i)..Offset(words, i + 1)] == words[i] + [NL]
    decreases |words|
  {
    var n := |words| - 1;
    assert words[..i + 1][..i] == words[..i];
    if i == n {
      assert words[..n + 1] == words;
    } else {
      TextAt(words[..n], i);
      assert words[..n][..i] == words[..i] && words[..n][..i + 1] == words[..i + 1];
    }
  }

  lemma OffsetOfAll(words: seq<seq<Byte>>)
    ensures Offset(words, |words|) == |Text(words)| && Offset(words, 0) == 0
  {
    assert words[..|words|] == words;
  }

  /** Reading from anywhere in a word ends behind it. */
  lemma ReadsOn(words: seq<seq<Byte>>, i: nat, p: nat)
    requires i < |words| && IsWord(words[i]) && Offset(words, i) <= p < Offset(words, i + 1)
    ensures p < |Text(words)| && LineEnd(Text(words), p, p, MAX_WORD_LENGTH) == Offset(words, i + 1)
  {
    TextAt(words, i);
    hide Text, LineEnd;
    var file, b, e := Text(words), Offset(words, i), Offset(words, i + 1);
    forall k | b <= k < e ensures file[k] == (words[i] + [NL])[k - b] { assert file[b..e][k - b] == file[k]; }
    EndFound(file, p, p, e - 1, MAX_WORD_LENGTH);
  }

  /** The word whose line p is in. */
  function WordAt(words: seq<seq<Byte>>, p: nat, n: nat): (i: nat)
    requires n <= |words| && p < Offset(words, n)
    ensures i < n && Offset(words, i) <= p < Offset(words, i + 1)
  {
    if p < Offset(words, n - 1) then WordAt(words, p, n - 1) else n - 1
  }

  lemma {:induction false} OffsetsGrow(words: seq<seq<Byte>>, i: nat, j: nat)
    requires i <= j <= |words|
    ensures Offset(words, i) + (j - i) <= Offset(words, j)
    decreases j
  {
    if i < j {
      OffsetsGrow(words, i, j - 1);
      TextAt(words, j - 1);
    }
  }

  // ---------- What should be printed ----------

  predicate Wanted(word: seq<Byte>, prefix: seq<Byte>, suffix: seq<Byte>) { HasPrefix(word, prefix) && HasSuffix(word, suffix) }

  function Selected(words: seq<seq<Byte>>, prefix: seq<Byte>, suffix: seq<Byte>): seq<seq<Byte>> {
    if words == [] then [] else
    var w := words[|words|-1];
    Selected(words[..|words|-1], prefix, suffix) + if Wanted(w, prefix, suffix) then [w] else []
  }

  /** Exactly the wanted words of a dictionary, each once and in order. */
  lemma {:induction false} SelectedIs(words: seq<seq<Byte>>, prefix: seq<Byte>, suffix: seq<Byte>)
    requires Dictionary(words)
    ensures var r := Selected(words, prefix, suffix);
      && (forall w :: w in r <==> w in words && Wanted(w, prefix, suffix))
      && forall i, j :: 0 <= i < j < |r| ==> Compare(r[i], r[j]) < 0
  {
    if words != [] {
      hide Compare, Wanted, IsWord;
      var n := |words| - 1;
      SelectedIs(words[..n], prefix, suffix);
      hide Selected;
      OneMoreSelected(words, words[n], Selected(words[..n], prefix, suffix), prefix, suffix);
      OneSelected(words, prefix, suffix, n);
      assert words[..n + 1] == words;
    }
  }

  lemma OneMoreSelected(words: seq<seq<Byte>>, w: seq<Byte>, r: seq<seq<Byte>>, prefix: seq<Byte>, suffix: seq<Byte>)
    requires Dictionary(words) && words != [] && w == words[|words|-1]
    requires forall v :: v in r <==> v in words[..|words|-1] && Wanted(v, prefix, suffix)
    ensures forall v :: v in (r + if Wanted(w, prefix, suffix) then [w] else []) <==> v in words && Wanted(v, prefix, suffix)
    ensures forall i :: 0 <= i < |r| ==> Compare(r[i], w) < 0
  {
    hide Compare, Wanted, IsWord;
    var n := |words| - 1;
    assert words == words[..n] + [words[n]];
    forall i | 0 <= i < |r| ensures Compare(r[i], w) < 0 {
      assert r[i] in r;
      var k :| 0 <= k < n && words[..n][k] == r[i];
    }
  }

  lemma {:induction false} NothingSelected(words: seq<seq<Byte>>, prefix: seq<Byte>, suffix: seq<Byte>, i: nat, j: nat)
    requires i <= j <= |words| && forall k :: i <= k < j ==> !HasPrefix(words[k], prefix)
    ensures Selected(words[..j], prefix, suffix) == Selected(words[..i], prefix, suffix)
    decreases j
  {
    if i < j {
      assert words[..j][..j - 1] == words[..j - 1];
      NothingSelected(words, prefix, suffix, i, j - 1);
    }
  }

  lemma OneSelected(words: seq<seq<Byte>>, prefix: seq<Byte>, suffix: seq<Byte>, i: nat)
    requires i < |words|
    ensures Selected(words[..i + 1], prefix, suffix) ==
      Selected(words[..i], prefix, suffix) + if Wanted(words[i], prefix, suffix) then [words[i]] else []
  {
    assert words[..i + 1][..i] == words[..i];
  }

  // ---------- The search ----------

  /** The word of a line: without its line end. */
  function Chopped(line: seq<Byte>): seq<Byte> { if StrLen(line) > 0 then line[..StrLen(line) - 1] else line }

  lemma WordRead(words: seq<seq<Byte>>, i: nat)
    requires i < |words| && IsWord(words[i])
    ensures var p, q := Offset(words, i), Offset(words, i + 1);
      && p < q <= |Text(words)| && LineEnd(Text(words), p, p, MAX_WORD_LENGTH) == q
      && Chopped(Text(words)[p..q]) == words[i]
  {
    TextAt(words, i);
    hide Text;
    ReadsOn(words, i, Offset(words, i));
    NoNul(words[i] + [NL]);
  }

  /** Behind the line that mid is in there is another one. */
  lemma ProbeFinds(words: seq<seq<Byte>>, mid: nat)
    requires Dictionary(words) && mid + MAX_WORD_LENGTH < |Text(words)|
    ensures mid < Offset(words, |words|)
    ensures var i := WordAt(words, mid, |words|) + 1;
      i < |words| && mid < Offset(words, i) < Offset(words, i + 1) <= mid + 2 * MAX_WORD_LENGTH && Offset(words, i + 1) <= |Text(words)|
  {
    hide Compare, Text, WordAt;
    OffsetOfAll(words);
    var k := WordAt(words, mid, |words|);
    TextAt(words, k);
    if k + 1 < |words| { TextAt(words, k + 1); }
  }

  /** A probe: the partial word at mid is skipped, and the next one is there and is read whole. */
  method Probe(file: seq<Byte>, mid: nat, ghost words: seq<seq<Byte>>) returns (word: seq<Byte>, next: nat, ghost i: nat)
    requires Dictionary(words) && file == Text(words) && mid + MAX_WORD_LENGTH < |file|
    ensures mid < Offset(words, |words|) && i == WordAt(words, mid, |words|) + 1
    ensures i < |words| && word == words[i] && next == Offset(words, i + 1)
    ensures mid < next <= mid + 2 * MAX_WORD_LENGTH && next <= |file|
  {
    hide Compare, LineEnd, Text, Chopped, WordAt;
    ProbeFinds(words, mid);
    i := WordAt(words, mid, |words|) + 1;
    ReadsOn(words, i - 1, mid);
    WordRead(words, i);
    var line, p := Fgets(file, mid, MAX_WORD_LENGTH);
    line, next := Fgets(file, p, MAX_WORD_LENGTH);
    word := Chopped(line);
  }

  /** Does a probe of the binary search meet the prefix itself? */
  function MeetsFrom(words: seq<seq<Byte>>, prefix: seq<Byte>, i: nat, tail: nat): bool
    requires Dictionary(words) && i <= |words| && tail <= |Text(words)|
    decreases tail - Offset(words, i)
  {
    if Offset(words, i) + 512 < tail then
      var mid := (Offset(words, i) + tail) / 2;
      ProbeFinds(words, mid);
      var k := WordAt(words, mid, |words|) + 1;
      var cmp := Compare(prefix, words[k]);
      if cmp == 0 then true
      else if cmp < 0 then MeetsFrom(words, prefix, i, mid)
      else MeetsFrom(words, prefix, k + 1, tail)
    else false
  }

  function Meets(words: seq<seq<Byte>>, prefix: seq<Byte>): bool
    requires Dictionary(words)
  {
    MeetsFrom(words, prefix, 0, |Text(words)|)
  }

  /** The words before i are below the prefix, so a scan from there on misses none. */
  ghost predicate AllBelow(words: seq<seq<Byte>>, prefix: seq<Byte>, i: nat)
    requires i <= |words|
  {
    forall k :: 0 <= k < i ==> Compare(words[k], prefix) < 0
  }

  lemma BelowUpTo(words: seq<seq<Byte>>, prefix: seq<Byte>, i: nat)
    requires Dictionary(words) && i < |words| && Compare(prefix, words[i]) >= 0
    ensures AllBelow(words, prefix, i) && (Compare(prefix, words[i]) > 0 ==> AllBelow(words, prefix, i + 1))
  {
    hide Compare;
    CompareFlip(words[i], prefix);
    CompareEqual(prefix, words[i]);
    forall k | 0 <= k < i ensures Compare(words[k], prefix) < 0 {
      if Compare(prefix, words[i]) != 0 { CompareTrans(words[k], words[i], prefix); }
    }
  }

  /** The binary search: where the scan begins, and whether a probe has met the prefix itself, which is then printed. */
  method Search(file: seq<Byte>, prefix: seq<Byte>, ghost words: seq<seq<Byte>>) returns (head: nat, hit: bool, ghost i: nat)
    requires Dictionary(words) && file == Text(words)
    ensures i <= |words| && head == Offset(words, i) && head <= |file| && hit == Meets(words, prefix)
    ensures if hit then i > 0 && words[i - 1] == prefix && AllBelow(words, prefix, i - 1) else AllBelow(words, prefix, i)
  {
    hide Compare, Text, Dictionary, IsWord, WordAt, AllBelow, Offset;
    OffsetOfAll(words);
    NoneBelow(words, prefix);
    head, hit, i := 0, false, 0;
    var tail: nat := |file|;
    while head + 512 < tail
      invariant i <= |words| && head == Offset(words, i) && head <= |file| && tail <= |file|
      invariant AllBelow(words, prefix, i) && Meets(words, prefix) == MeetsFrom(words, prefix, i, tail)
      decreases tail - head
    {
      var mid := (head + tail) / 2;
      var word, next, k := Probe(file, mid, words);
      var cmp := Compare(prefix, word);
      if cmp >= 0 { BelowUpTo(words, prefix, k); }
      if cmp == 0 {
        CompareEqual(prefix, word);
        head, hit, i := next, true, k + 1;
        return;
      }
      if cmp < 0 {
        tail := mid;
      } else {
        head, i := next, k + 1;
      }
    }
  }

  lemma NoneBelow(words: seq<seq<Byte>>, prefix: seq<Byte>)
    ensures AllBelow(words, prefix, 0)
  {
  }

  /** The test of a word's end. */
  method EndsRight(word: seq<Byte>, suffix: seq<Byte>) returns (right: bool)
    ensures right <==> HasSuffix(word, suffix)
  {
    hide Compare;
    SuffixIsZero(word, suffix);
    right := |suffix| == 0 || (|word| >= |suffix| && Compare(suffix, word[|word| - |suffix|..]) == 0);
  }

  /** The scan: from word i on as long as the words do not stand behind all that begin with the prefix. */
  method Scan(file: seq<Byte>, head: nat, prefix: seq<Byte>, suffix: seq<Byte>, ghost words: seq<seq<Byte>>, ghost from: nat) returns (out: seq<seq<Byte>>)
    requires Dictionary(words) && file == Text(words) && from <= |words| && head == Offset(words, from) && head <= |file|
    ensures Selected(words[..from], prefix, suffix) + out == Selected(words, prefix, suffix)
  {
    hide Compare, CompareStart, Text, Dictionary, IsWord, Chopped, LineEnd, HasPrefix, HasSuffix, Wanted, Selected, Offset;
    ghost var before, i := Selected(words[..from], prefix, suffix), from;
    OffsetOfAll(words);
    out := [];
    var p := head;
    while true
      invariant i <= |words| && p == Offset(words, i) && p <= |file|
      invariant before + out == Selected(words[..i], prefix, suffix)
      decreases |file| - p
    {
      if i < |words| { ScanReads(words, i); } else { assert words[..i] == words; }
      var line, q := Fgets(file, p, MAX_WORD_LENGTH);
      if line == [] { break; }
      var word := Chopped(line);
      var cmp := CompareStart(prefix, word);
      if cmp < 0 {
        ScanEnds(words, prefix, suffix, i);
        break;
      }
      OneSelected(words, prefix, suffix, i);
      IsWanted(prefix, suffix, word);
      if cmp == 0 {
        var right := EndsRight(word, suffix);
        if right { out := out + [word]; }
      }
      p, i := q, i + 1;
    }
  }

  lemma IsWanted(prefix: seq<Byte>, suffix: seq<Byte>, word: seq<Byte>)
    ensures Wanted(word, prefix, suffix) <==> CompareStart(prefix, word) == 0 && HasSuffix(word, suffix)
  {
    hide CompareStart, HasPrefix, HasSuffix;
    PrefixIsZero(prefix, word);
  }

  /** look, without folding: the wanted words of the dictionary, each once and in order; but when the binary search meets the
      prefix itself it is printed whatever its end is. */
  method Look(file: seq<Byte>, prefix: seq<Byte>, suffix: seq<Byte>, ghost words: seq<seq<Byte>>) returns (out: seq<seq<Byte>>)
    requires Dictionary(words) && file == Text(words)
    ensures Meets(words, prefix) ==> prefix in words
    ensures out == Selected(words, prefix, suffix) <==> !Meets(words, prefix) || HasSuffix(prefix, suffix)
    ensures Meets(words, prefix) && !HasSuffix(prefix, suffix) ==> out == [prefix] + Selected(words, prefix, suffix)
  {
    hide *;
    var head, hit;
    ghost var i;
    head, hit, i := Search(file, prefix, words);
    ScanBegins(words, prefix, suffix, hit, i);
    var rest := Scan(file, head, prefix, suffix, words, i);
    out := (if hit then [prefix] else []) + rest;
  }

  lemma SuffixIsZero(word: seq<Byte>, suffix: seq<Byte>)
    ensures HasSuffix(word, suffix) <==> |suffix| == 0 || (|word| >= |suffix| && Compare(suffix, word[|word| - |suffix|..]) == 0)
  {
    hide Compare;
    if |word| >= |suffix| { CompareEqual(suffix, word[|word| - |suffix|..]); }
  }

  lemma ScanBegins(words: seq<seq<Byte>>, prefix: seq<Byte>, suffix: seq<Byte>, hit: bool, i: nat)
    requires i <= |words|
    requires if hit then i > 0 && words[i - 1] == prefix && AllBelow(words, prefix, i - 1) else AllBelow(words, prefix, i)
    ensures Selected(words[..i], prefix, suffix) == if hit && HasSuffix(prefix, suffix) then [prefix] else []
    ensures hit ==> prefix in words
  {
    hide Compare, HasPrefix, HasSuffix;
    var n := if hit then i - 1 else i;
    forall k | 0 <= k < n ensures !HasPrefix(words[k], prefix) { BelowPrefix(prefix, words[k]); }
    NothingSelected(words, prefix, suffix, 0, n);
    if hit {
      OneSelected(words, prefix, suffix, n);
      WholePrefix(prefix);
    }
  }

  lemma WholePrefix(prefix: seq<Byte>)
    ensures HasPrefix(prefix, prefix)
  {
  }

  lemma ScanReads(words: seq<seq<Byte>>, i: nat)
    requires Dictionary(words) && i < |words|
    ensures var p, q := Offset(words, i), Offset(words, i + 1);
      && p < q <= |Text(words)| && LineEnd(Text(words), p, p, MAX_WORD_LENGTH) == q
      && Chopped(Text(words)[p..q]) == words[i]
  {
    hide Text, Chopped, Compare;
    WordRead(words, i);
  }

  lemma ScanEnds(words: seq<seq<Byte>>, prefix: seq<Byte>, suffix: seq<Byte>, i: nat)
    requires Dictionary(words) && i < |words| && CompareStart(prefix, words[i]) < 0
    ensures Selected(words, prefix, suffix) == Selected(words[..i], prefix, suffix)
  {
    hide Compare, HasPrefix, CompareStart;
    forall k | i <= k < |words| ensures !HasPrefix(words[k], prefix) {
      if k > i { AbovePrefix(prefix, words[i], words[k]); }
      PrefixIsZero(prefix, words[k]);
    }
    NothingSelected(words, prefix, suffix, i, |words|);
    assert words[..|words|] == words;
  }

  /** With an empty suffix exactly the words with the prefix are printed. */
  method LookPrefix(file: seq<Byte>, prefix: seq<Byte>, ghost words: seq<seq<Byte>>) returns (out: seq<seq<Byte>>)
    requires Dictionary(words) && file == Text(words)
    ensures forall w :: w in out <==> w in words && HasPrefix(w, prefix)
    ensures forall i, j :: 0 <= i < j < |out| ==> Compare(out[i], out[j]) < 0
  {
    hide Compare, Dictionary, Text, HasPrefix;
    out := Look(file, prefix, [], words);
    EmptySuffix();
    SelectedIs(words, prefix, []);
  }

  lemma EmptySuffix()
    ensures forall w: seq<Byte> :: HasSuffix(w, [])
  {
  }

  // ---------- A word with the wrong end ----------

  /** The letter of the alphabet at i, 78 times. */
  function Letters(i: nat): (r: seq<Byte>)
    requires i < 26
    ensures |r| == 78
  {
    seq(78, k => 97 + i)
  }

  function NineWords(n: nat): (r: seq<seq<Byte>>)
    requires n <= 9
    ensures |r| == n && forall i :: 0 <= i < n ==> r[i] == Letters(i)
  {
    if n == 0 then [] else NineWords(n - 1) + [Letters(n - 1)]
  }

  lemma {:induction false} NineOffsets(n: nat)
    requires n <= 9
    ensures |Text(NineWords(n))| == 79 * n && forall i :: 0 <= i <= n ==> NineWords(n)[..i] == NineWords(i)
  {
    if n > 0 {
      NineOffsets(n - 1);
      assert NineWords(n)[..n - 1] == NineWords(n - 1);
    }
  }

  lemma NineWordsAreSorted()
    ensures Dictionary(NineWords(9))
  {
    hide NineWords;
    var words := NineWords(9);
    forall i, j | 0 <= i < j < 9 ensures Compare(words[i], words[j]) < 0 {
      assert words[i][0] == 97 + i && words[j][0] == 97 + j;
    }
  }

  lemma NineStarts(i: nat)
    requires i <= 9
    ensures Offset(NineWords(9), i) == 79 * i
  {
    NineOffsets(9);
    NineOffsets(i);
  }

  /** In 711 bytes the first probe is at 355. */
  lemma FirstProbe(words: seq<seq<Byte>>, k: nat)
    requires Dictionary(words) && |Text(words)| == 711 && Offset(words, |words|) == 711 && Offset(words, 0) == 0
    requires k < |words| && WordAt(words, 355, |words|) + 1 == k
    ensures Meets(words, words[k])
  {
    hide Dictionary, Compare, WordAt, Text, Offset;
    ProbeFinds(words, 355);
    CompareEqual(words[k], words[k]);
  }

  lemma FifthLine(words: seq<seq<Byte>>)
    requires |words| == 9 && Offset(words, 4) == 316 && Offset(words, 5) == 395 && Offset(words, 9) == 711
    ensures WordAt(words, 355, 9) == 4
  {
    hide Offset, WordAt;
    var k := WordAt(words, 355, 9);
    if k < 4 { OffsetsGrow(words, k + 1, 4); } else if k > 4 { OffsetsGrow(words, 5, k); }
  }

  /** The first probe into nine words of 78 letters each meets the sixth. */
  lemma SixthIsMet()
    ensures Dictionary(NineWords(9)) && Meets(NineWords(9), Letters(5))
  {
    hide NineWords, Text, Dictionary, Meets, WordAt, Offset, Letters;
    NineWordsAreSorted();
    NineStarts(0);
    NineStarts(4);
    NineStarts(5);
    NineStarts(9);
    OffsetOfAll(NineWords(9));
    FifthLine(NineWords(9));
    FirstProbe(NineWords(9), 5);
  }

  /** A word that ends in f is printed although words that end in z were asked for, and no word is to be printed. */
  method WrongWord() returns (out: seq<seq<Byte>>)
    ensures out == [Letters(5)] && !HasSuffix(Letters(5), [122])
  {
    SixthIsMet();
    NoSuffix(5);
    hide *;
    out := Look(Text(NineWords(9)), Letters(5), [122], NineWords(9));
    NoneEndsInZ(9);
  }

  lemma NoSuffix(i: nat)
    requires i < 25
    ensures !HasSuffix(Letters(i), [122])
  {
    assert Letters(i)[77..][0] == 97 + i;
  }

  lemma {:induction false} NoneEndsInZ(n: nat)
    requires n <= 9
    ensures Selected(NineWords(n), Letters(5), [122]) == []
  {
    if n > 0 {
      NoneEndsInZ(n - 1);
      NoSuffix(n - 1);
      assert NineWords(n)[..n - 1] == NineWords(n - 1);
    }
  }
}
