/** fgrep: searching with a table of skips for the line's character under the word's last letter. */
module Fgrep {
  import opened Stdio

  /** The word stands at o in the line. */
  ghost predicate OccursAt(line: seq<Byte>, word: seq<Byte>, o: int) {
    0 <= o && o + |word| <= |line| && line[o..o + |word|] == word
  }

  ghost predicate Occurs(line: seq<Byte>, word: seq<Byte>) { exists o :: OccursAt(line, word, o) }

  /** How far c is from the end of the word, where it is last; the whole length if it is not there. */
  function Skip(word: seq<Byte>, c: Byte): (r: nat)
    ensures r <= |word|
    ensures r < |word| ==> word[|word| - 1 - r] == c
    ensures forall i :: |word| - r <= i < |word| ==> word[i] != c
  {
    if word == [] || word[|word|-1] == c then 0 else 1 + Skip(word[..|word|-1], c)
  }

  ghost predicate IsTable(table: seq<Byte>, word: seq<Byte>) {
    |table| == 256 && forall c: Byte :: table[c] == Skip(word, c)
  }

  lemma SkipOfMore(word: seq<Byte>, x: Byte, c: Byte)
    ensures Skip(word + [x], c) == if c == x then 0 else Skip(word, c) + 1
  {
    assert (word + [x])[..|word|] == word;
  }

  /** setmem() */
  method SetMem(mem: array<Byte>, filler: Byte)
    modifies mem
    ensures forall i :: 0 <= i < mem.Length ==> mem[i] == filler
  {
    for i := 0 to mem.Length
      invariant forall k :: 0 <= k < i ==> mem[k] == filler
    {
      mem[i] := filler;
    }
  }

  /** maktbl() */
  method MakTbl(word: seq<Byte>, table: array<Byte>) returns (wordlen: nat)
    requires 1 <= |word| <= 255 && table.Length == 256
    modifies table
    ensures IsTable(table[..], word) && wordlen == |word|
  {
    wordlen := |word|;
    SetMem(table, wordlen);
    var i := 0;
    while i < wordlen
      invariant 0 <= i <= wordlen
      invariant forall c: Byte :: table[c] == Skip(word[..i], c) + (wordlen - i)
    {
      forall c: Byte ensures Skip(word[..i+1], c) == if c == word[i] then 0 else Skip(word[..i], c) + 1 {
        assert word[..i+1] == word[..i] + [word[i]];
        SkipOfMore(word[..i], word[i], c);
      }
      table[word[i]] := wordlen - i - 1;
      i := i + 1;
    }
    assert word[..i] == word;
  }

  lemma LetterThere(line: seq<Byte>, word: seq<Byte>, o: int, i: nat)
    requires OccursAt(line, word, o) && i < |word|
    ensures line[o + i] == word[i]
  {
    assert line[o..o + |word|][i] == word[i];
  }

  /** A skip is 0 only under the last letter, and passes no place where the word stands. */
  lemma NoSkipPasses(line: seq<Byte>, word: seq<Byte>, o: nat, p: int)
    requires word != [] && o + |word| <= |line| && OccursAt(line, word, p) && o <= p
    ensures p >= o + Skip(word, line[o + |word| - 1])
  {
    hide Skip, OccursAt;
    var c := line[o + |word| - 1];
    if p < o + Skip(word, c) {
      var i: nat := |word| - 1 - (p - o);
      assert word[i] != c;
      LetterThere(line, word, p, i);
    }
  }

  lemma LastLetter(word: seq<Byte>, c: Byte)
    requires word != []
    ensures Skip(word, c) == 0 <==> word[|word|-1] == c
  {
  }

  /** find(): whether the word occurs, and where first. */
  method Find(line: seq<Byte>, word: seq<Byte>, table: array<Byte>) returns (found: bool, offset: nat)
    requires word != [] && IsTable(table[..], word)
    ensures found <==> Occurs(line, word)
    ensures found ==> OccursAt(line, word, offset) && forall p :: p < offset ==> !OccursAt(line, word, p)
  {
    var boundary: int, lastletter := |line| - |word|, |word| - 1;
    offset := 0;
    while offset <= boundary
      invariant forall p :: p < offset ==> !OccursAt(line, word, p)
      decreases boundary - offset
    {
      var c := line[offset + lastletter];
      assert table[..][c] == Skip(word, c);
      var tmp := table[c];
      if tmp != 0 {
        forall p | p < offset + tmp ensures !OccursAt(line, word, p) {
          if OccursAt(line, word, p) && offset <= p { NoSkipPasses(line, word, offset, p); }
        }
        offset := offset + tmp;
      } else {
        LastLetter(word, c);
        var k: int := lastletter - 1;
        while k >= 0 && line[k + offset] == word[k]
          invariant -1 <= k < |word| - 1
          invariant forall i :: k < i < |word| ==> line[i + offset] == word[i]
        {
          k := k - 1;
        }
        if k < 0 {
          assert line[offset..offset + |word|] == word;
          assert OccursAt(line, word, offset);
          return true, offset;
        }
        if OccursAt(line, word, offset) { LetterThere(line, word, offset, k); }
        offset := offset + 1;
      }
    }
    found := false;
    assert forall p :: p > boundary ==> !OccursAt(line, word, p);
  }

  /** The search for one line: a line is taken when some word occurs in it, or with -v when some word does not. */
  method Selects(line: seq<Byte>, words: seq<seq<Byte>>, vflag: bool) returns (taken: bool)
    requires forall j :: 0 <= j < |words| ==> 1 <= |words[j]| <= 255
    ensures taken <==> exists j :: 0 <= j < |words| && Occurs(line, words[j]) != vflag
  {
    var j := 0;
    while j < |words|
      invariant 0 <= j <= |words|
      invariant forall i :: 0 <= i < j ==> Occurs(line, words[i]) == vflag
    {
      var table := new Byte[256];
      var wordlen := MakTbl(words[j], table);
      var found, offset := Find(line, words[j], table);
      if found != vflag { return true; }
      j := j + 1;
    }
    taken := false;
  }
}
