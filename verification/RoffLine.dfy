/** A line of text as words and the widths of the gaps between them. */
module RoffLine {

  predicate IsWord(w: string) { w != "" && ' ' !in w }

  ghost predicate IsLine(words: seq<string>, gaps: seq<nat>) {
    && |words| == |gaps| + 1
    && (forall i :: 0 <= i < |words| ==> IsWord(words[i]))
    && forall i :: 0 <= i < |gaps| ==> gaps[i] >= 1
  }

  function Spaces(n: nat): (r: string)
    ensures |r| == n && forall i :: 0 <= i < n ==> r[i] == ' '
  {
    seq(n, i => ' ')
  }

  function Render(words: seq<string>, gaps: seq<nat>): string
    requires |words| == |gaps| + 1
  {
    if gaps == [] then words[0]
    else Render(words[..|gaps|], gaps[..|gaps|-1]) + Spaces(gaps[|gaps|-1]) + words[|gaps|]
  }

  /** Where word k begins. */
  function Begin(words: seq<string>, gaps: seq<nat>, k: nat): nat
    requires |words| == |gaps| + 1 && k <= |gaps|
  {
    if k == 0 then 0 else Begin(words, gaps, k - 1) + |words[k-1]| + gaps[k-1]
  }

  lemma {:induction false} BeginOfPart(words: seq<string>, gaps: seq<nat>, k: nat)
    requires |words| == |gaps| + 1 && k < |gaps|
    ensures Begin(words[..|gaps|], gaps[..|gaps|-1], k) == Begin(words, gaps, k)
  {
    if k > 0 { BeginOfPart(words, gaps, k - 1); }
  }

  lemma {:induction false} RenderLength(words: seq<string>, gaps: seq<nat>)
    requires |words| == |gaps| + 1
    ensures |Render(words, gaps)| == Begin(words, gaps, |gaps|) + |words[|gaps|]|
    decreases |gaps|
  {
    if gaps != [] {
      var n := |gaps| - 1;
      RenderLength(words[..n+1], gaps[..n]);
      BeginOfPart(words, gaps, n);
    }
  }

  lemma {:induction false} BeginsGrow(words: seq<string>, gaps: seq<nat>, i: nat, k: nat)
    requires |words| == |gaps| + 1 && i <= k <= |gaps|
    ensures Begin(words, gaps, i) <= Begin(words, gaps, k)
  {
    if i < k { BeginsGrow(words, gaps, i, k - 1); }
  }

  /** The characters of word k. */
  lemma {:induction false} WordChar(words: seq<string>, gaps: seq<nat>, k: nat, t: nat)
    requires |words| == |gaps| + 1 && k <= |gaps| && t < |words[k]|
    ensures Begin(words, gaps, k) + t < |Render(words, gaps)| && Render(words, gaps)[Begin(words, gaps, k) + t] == words[k][t]
    decreases |gaps|
  {
    RenderLength(words, gaps);
    if gaps != [] {
      var n := |gaps| - 1;
      RenderLength(words[..n+1], gaps[..n]);
      BeginOfPart(words, gaps, n);
      if k <= n {
        WordChar(words[..n+1], gaps[..n], k, t);
        BeginOfPart(words, gaps, k);
      }
    }
  }

  /** The characters of gap k. */
  lemma {:induction false} GapChar(words: seq<string>, gaps: seq<nat>, k: nat, u: nat)
    requires |words| == |gaps| + 1 && k < |gaps| && u < gaps[k]
    ensures var p := Begin(words, gaps, k) + |words[k]| + u; p < |Render(words, gaps)| && Render(words, gaps)[p] == ' '
    decreases |gaps|
  {
    RenderLength(words, gaps);
    var n := |gaps| - 1;
    RenderLength(words[..n+1], gaps[..n]);
    BeginOfPart(words, gaps, n);
    if k < n {
      GapChar(words[..n+1], gaps[..n], k, u);
      BeginOfPart(words, gaps, k);
    }
  }

  /** One more space in gap k, put anywhere into it. */
  lemma {:induction false} Widened(words: seq<string>, gaps: seq<nat>, k: nat, u: nat)
    requires |words| == |gaps| + 1 && k < |gaps| && u <= gaps[k]
    ensures var r, p := Render(words, gaps), Begin(words, gaps, k) + |words[k]| + u;
      p <= |r| && Render(words, gaps[k := gaps[k] + 1]) == r[..p] + [' '] + r[p..]
    decreases |gaps|
  {
    hide Render, Begin;
    var n := |gaps| - 1;
    RenderLength(words[..n+1], gaps[..n]);
    BeginOfPart(words, gaps, n);
    if k < n {
      Widened(words[..n+1], gaps[..n], k, u);
      BeginOfPart(words, gaps, k);
      WidenedBefore(words, gaps, k, Begin(words, gaps, k) + |words[k]| + u);
    } else {
      WidenedEnd(words, gaps, Render(words[..n+1], gaps[..n]), u);
    }
  }

  lemma WidenedEnd(words: seq<string>, gaps: seq<nat>, part: string, u: nat)
    requires |words| == |gaps| + 1 && gaps != [] && u <= gaps[|gaps|-1] && part == Render(words[..|gaps|], gaps[..|gaps|-1])
    ensures var n := |gaps| - 1; var r, p := Render(words, gaps), |part| + u;
      p <= |r| && Render(words, gaps[n := gaps[n] + 1]) == r[..p] + [' '] + r[p..]
  {
    var n := |gaps| - 1;
    assert gaps[n := gaps[n] + 1][..n] == gaps[..n];
    WidenedLast(part, gaps[n], u, words[n+1]);
  }

  lemma WidenedBefore(words: seq<string>, gaps: seq<nat>, k: nat, p: nat)
    requires |words| == |gaps| + 1 && k < |gaps| - 1
    requires var n := |gaps| - 1; var r := Render(words[..n+1], gaps[..n]);
      p <= |r| && Render(words[..n+1], gaps[..n][k := gaps[k] + 1]) == r[..p] + [' '] + r[p..]
    ensures var r := Render(words, gaps); p <= |r| && Render(words, gaps[k := gaps[k] + 1]) == r[..p] + [' '] + r[p..]
  {
    var n := |gaps| - 1;
    var gaps' := gaps[k := gaps[k] + 1];
    assert gaps'[..n] == gaps[..n][k := gaps[k] + 1];
    var part, part', tail := Render(words[..n+1], gaps[..n]), Render(words[..n+1], gaps'[..n]), Spaces(gaps[n]) + words[n+1];
    assert Render(words, gaps) == part + tail;
    assert Render(words, gaps') == part' + tail;
    hide Render;
    WidenedInside(part, tail, p);
  }

  lemma WidenedInside(a: string, b: string, p: nat)
    requires p <= |a|
    ensures (a + b)[..p] + [' '] + (a + b)[p..] == a[..p] + [' '] + a[p..] + b
  {
  }

  lemma WidenedLast(a: string, n: nat, u: nat, w: string)
    requires u <= n
    ensures var r, p := a + Spaces(n) + w, |a| + u; a + Spaces(n + 1) + w == r[..p] + [' '] + r[p..]
  {
  }

  lemma {:induction false} BeginWidened(words: seq<string>, gaps: seq<nat>, k: nat, i: nat)
    requires |words| == |gaps| + 1 && k < |gaps| && i <= |gaps|
    ensures Begin(words, gaps[k := gaps[k] + 1], i) == Begin(words, gaps, i) + if i <= k then 0 else 1
  {
    if i > 0 { BeginWidened(words, gaps, k, i - 1); }
  }

  // ---------- Lines and their words ----------

  /** What a line of output looks like: it starts and ends with something else than a space. */
  predicate Trimmed(line: string) { line != "" && line[0] != ' ' && line[|line|-1] != ' ' }

  /** The words of a line. */
  function WordsOf(line: string): seq<string> {
    if line == "" then [] else
    var n := |line| - 1;
    var r := WordsOf(line[..n]);
    if line[n] == ' ' then r
    else if n == 0 || line[n-1] == ' ' || r == [] then r + [[line[n]]]
    else r[..|r|-1] + [r[|r|-1] + [line[n]]]
  }

  lemma {:induction false} WordsOfSpaces(line: string, n: nat)
    ensures WordsOf(line + Spaces(n)) == WordsOf(line)
  {
    if n == 0 {
      assert line + Spaces(0) == line;
    } else {
      assert (line + Spaces(n))[..|line| + n - 1] == line + Spaces(n - 1);
      WordsOfSpaces(line, n - 1);
    }
  }

  lemma WordsOfChar(line: string, c: char)
    requires c != ' '
    ensures WordsOf(line + [c]) ==
      if line == "" || line[|line|-1] == ' ' || WordsOf(line) == [] then WordsOf(line) + [[c]]
      else WordsOf(line)[..|WordsOf(line)|-1] + [WordsOf(line)[|WordsOf(line)|-1] + [c]]
  {
    assert (line + [c])[..|line|] == line;
  }

  lemma {:induction false} WordsOfWord(line: string, w: string)
    requires IsWord(w) && (line == "" || line[|line|-1] == ' ')
    ensures WordsOf(line + w) == WordsOf(line) + [w]
  {
    hide WordsOf;
    var n := |w| - 1;
    assert w == w[..n] + [w[n]];
    if n == 0 {
      assert w[..n] == "" && line + w[..n] == line && w == [w[0]];
      WordsOfChar(line, w[0]);
    } else {
      WordsOfWord(line, w[..n]);
      assert line + w == (line + w[..n]) + [w[n]];
      WordsOfChar(line + w[..n], w[n]);
    }
  }

  lemma {:induction false} WordsOfRender(words: seq<string>, gaps: seq<nat>)
    requires IsLine(words, gaps)
    ensures WordsOf(Render(words, gaps)) == words
    decreases |gaps|
  {
    if gaps == [] {
      WordsOfWord("", words[0]);
      assert "" + words[0] == words[0] && words == [words[0]];
    } else {
      var n := |gaps| - 1;
      var part := Render(words[..n+1], gaps[..n]);
      WordsOfRender(words[..n+1], gaps[..n]);
      WordsOfSpaces(part, gaps[n]);
      WordsOfWord(part + Spaces(gaps[n]), words[n+1]);
      assert words == words[..n+1] + [words[n+1]];
    }
  }

  /** Every trimmed line is made of words and gaps. */
  lemma {:induction false} Parsed(line: string) returns (words: seq<string>, gaps: seq<nat>)
    requires Trimmed(line)
    ensures IsLine(words, gaps) && line == Render(words, gaps)
    ensures gaps == [] <==> ' ' !in line
    decreases |line|
  {
    var k := LastSpace(line);
    if k < 0 {
      words, gaps := [line], [];
    } else {
      var g := LastWordChar(line[..k+1]);
      var rest, rests := Parsed(line[..g+1]);
      words, gaps := rest + [line[k+1..]], rests + [k - g];
      assert words[..|rests|+1] == rest && gaps[..|rests|] == rests;
      assert line == line[..g+1] + Spaces(k - g) + line[k+1..];
    }
  }

  lemma {:induction false} LastSpace(line: string) returns (k: int)
    ensures -1 <= k < |line| && (k >= 0 ==> line[k] == ' ') && forall i :: k < i < |line| ==> line[i] != ' '
  {
    if line == "" { k := -1; }
    else if line[|line|-1] == ' ' { k := |line| - 1; }
    else { k := LastSpace(line[..|line|-1]); }
  }

  lemma {:induction false} LastWordChar(line: string) returns (g: nat)
    requires line != "" && line[0] != ' '
    ensures g < |line| && line[g] != ' ' && forall i :: g < i < |line| ==> line[i] == ' '
  {
    if line[|line|-1] != ' ' { g := |line| - 1; } else { g := LastWordChar(line[..|line|-1]); }
  }
}
