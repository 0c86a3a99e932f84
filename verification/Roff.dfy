/** roff's justification of a line: spaces are put into its gaps, pass by pass, until it is as long as it should be. */
module Roff {
  import opened RoffLine

  // ---------- What justification does to the gaps ----------

  function Max(a: nat, b: nat): nat { if a < b then b else a }

  /** The gaps from lo to hi are at least j wide, the others at least j - 1. */
  function Raised(gaps: seq<nat>, j: nat, lo: nat, hi: nat): (r: seq<nat>)
    requires j >= 1
    ensures |r| == |gaps|
  {
    seq(|gaps|, i requires 0 <= i < |gaps| => if lo <= i < hi then Max(gaps[i], j) else Max(gaps[i], j - 1))
  }

  /** The gaps filled up to one level, and from the left or from the right one higher. */
  ghost predicate Leveled(gaps: seq<nat>, wide: seq<nat>, forward: bool) {
    exists j: nat, k: nat {:trigger Reaches(gaps, wide, forward, j, k)} :: j >= 2 && k <= |gaps| && Reaches(gaps, wide, forward, j, k)
  }

  ghost predicate Reaches(gaps: seq<nat>, wide: seq<nat>, forward: bool, j: nat, k: nat)
    requires j >= 2
  {
    wide == if forward then Raised(gaps, j, 0, k) else Raised(gaps, j, k, |gaps|)
  }

  /** No gap gets narrower, and one that gets wider ends at most one wider than any other. */
  lemma LeveledIsEven(gaps: seq<nat>, wide: seq<nat>, forward: bool)
    requires Leveled(gaps, wide, forward)
    ensures |wide| == |gaps| && forall i :: 0 <= i < |gaps| ==> wide[i] >= gaps[i]
    ensures forall i, l :: 0 <= i < |gaps| && 0 <= l < |gaps| && wide[i] > gaps[i] ==> wide[i] <= wide[l] + 1
  {
    var j: nat, k: nat :| j >= 2 && k <= |gaps| && Reaches(gaps, wide, forward, j, k);
  }

  /** When all gaps are single spaces the widths differ by at most one, the wider ones on the side where the scan starts. */
  lemma SinglesStayEven(gaps: seq<nat>, wide: seq<nat>, forward: bool)
    requires Leveled(gaps, wide, forward) && forall i :: 0 <= i < |gaps| ==> gaps[i] == 1
    ensures |wide| == |gaps| && forall i, l :: 0 <= i < l < |gaps| ==>
      if forward then wide[l] <= wide[i] <= wide[l] + 1 else wide[i] <= wide[l] <= wide[i] + 1
  {
    var j: nat, k: nat :| j >= 2 && k <= |gaps| && Reaches(gaps, wide, forward, j, k);
  }

  lemma RaisedIsLine(words: seq<string>, gaps: seq<nat>, j: nat, lo: nat, hi: nat)
    requires IsLine(words, gaps) && j >= 1
    ensures IsLine(words, Raised(gaps, j, lo, hi))
  {
  }

  /** A pass has raised every gap when the next one begins. */
  lemma NextLevel(gaps: seq<nat>, j: nat)
    requires j >= 1
    ensures Raised(gaps, j, 0, |gaps|) == Raised(gaps, j + 1, 0, 0)
    ensures Raised(gaps, j + 1, |gaps|, |gaps|) == Raised(gaps, j + 1, 0, 0)
  {
  }

  lemma FirstLevel(words: seq<string>, gaps: seq<nat>)
    requires IsLine(words, gaps)
    ensures Raised(gaps, 2, 0, 0) == gaps
  {
  }

  /** A gap narrower than j gets one space, and a wider one is left alone. */
  lemma RaisedOne(gaps: seq<nat>, j: nat, lo: nat, hi: nat, k: nat)
    requires j >= 1 && k < |gaps| && lo <= hi && (k == hi || k + 1 == lo)
    ensures var cur := Raised(gaps, j, lo, hi); var lo', hi' := if k == hi then lo else k, if k == hi then k + 1 else hi;
      && (cur[k] < j <==> gaps[k] < j)
      && (k == hi || hi == |gaps| ==> Raised(gaps, j, lo', hi') == if cur[k] < j then cur[k := cur[k] + 1] else cur)
  {
    var cur := Raised(gaps, j, lo, hi);
    var lo', hi' := if k == hi then lo else k, if k == hi then k + 1 else hi;
    var next := Raised(gaps, j, lo', hi');
    if cur[k] < j {
      assert forall i :: 0 <= i < |gaps| ==> next[i] == cur[k := cur[k] + 1][i];
    } else {
      assert forall i :: 0 <= i < |gaps| ==> next[i] == cur[i];
    }
  }

  // ---------- Where a scan is ----------

  /** What a scan that has come to word k has made of the gaps. */
  function Scanned(gaps: seq<nat>, j: nat, forward: bool, k: nat): (r: seq<nat>)
    requires j >= 1
    ensures |r| == |gaps|
  {
    if forward then Raised(gaps, j, 0, k) else Raised(gaps, j, k, |gaps|)
  }

  /** The scan stands at s, in word k or in the gap behind it, as seen in the direction of the scan. */
  ghost predicate At(words: seq<string>, cur: seq<nat>, forward: bool, k: nat, s: int, spaces: nat)
    requires |words| == |cur| + 1
  {
    && k <= |cur|
    && var t := if forward then s - Begin(words, cur, k) else Begin(words, cur, k) + |words[k]| - 1 - s;
      && 0 <= t <= |words[k]| + GapWidth(cur, forward, k)
      && spaces == if t <= |words[k]| then 0 else t - |words[k]|
  }

  function GapWidth(cur: seq<nat>, forward: bool, k: nat): nat
    requires k <= |cur|
  {
    if forward then (if k < |cur| then cur[k] else 0) else (if k > 0 then cur[k-1] else 0)
  }

  lemma ScanStarts(words: seq<string>, cur: seq<nat>, forward: bool)
    requires IsLine(words, cur)
    ensures At(words, cur, forward, if forward then 0 else |cur|, if forward then 0 else |Render(words, cur)| - 1, 0)
  {
    RenderLength(words, cur);
  }

  lemma InRange(words: seq<string>, cur: seq<nat>, forward: bool, k: nat, s: int, spaces: nat)
    requires IsLine(words, cur) && At(words, cur, forward, k, s, spaces)
    ensures -1 <= s <= |Render(words, cur)|
    ensures forward ==> s >= 0 && (s == |Render(words, cur)| ==> k == |cur|)
    ensures !forward ==> s < |Render(words, cur)| && (s == -1 ==> k == 0)
  {
    RenderLength(words, cur);
    BeginsGrow(words, cur, k, |cur|);
    if k < |cur| { BeginsGrow(words, cur, k + 1, |cur|); }
    if !forward && k > 0 { BeginsGrow(words, cur, 0, k - 1); }
  }

  /** The character at s, and what it means for the scan. */
  lemma CharSeen(words: seq<string>, cur: seq<nat>, forward: bool, k: nat, s: int, spaces: nat)
    requires IsLine(words, cur) && At(words, cur, forward, k, s, spaces) && 0 <= s < |Render(words, cur)|
    ensures var inc := if forward then 1 else -1;
      if Render(words, cur)[s] == ' ' then At(words, cur, forward, k, s + inc, spaces + 1)
      else if spaces == 0 then At(words, cur, forward, k, s + inc, 0)
      else GapEnds(words, cur, forward, k, s, spaces)
  {
    if forward { SeenForward(words, cur, k, s, spaces); } else { SeenBackward(words, cur, k, s, spaces); }
  }

  /** The scan has come over a whole gap to the next word. */
  ghost predicate GapEnds(words: seq<string>, cur: seq<nat>, forward: bool, k: nat, s: int, spaces: nat)
    requires |words| == |cur| + 1
  {
    && k <= |cur| && spaces == GapWidth(cur, forward, k) > 0
    && s == if forward then Begin(words, cur, k + 1) else Begin(words, cur, k - 1) + |words[k-1]| - 1
  }

  lemma SeenForward(words: seq<string>, cur: seq<nat>, k: nat, s: int, spaces: nat)
    requires IsLine(words, cur) && At(words, cur, true, k, s, spaces) && 0 <= s < |Render(words, cur)|
    ensures if Render(words, cur)[s] == ' ' then At(words, cur, true, k, s + 1, spaces + 1)
      else if spaces == 0 then At(words, cur, true, k, s + 1, 0)
      else GapEnds(words, cur, true, k, s, spaces)
  {
    hide Render;
    var t := s - Begin(words, cur, k);
    RenderLength(words, cur);
    if t < |words[k]| {
      WordChar(words, cur, k, t);
    } else if k < |cur| {
      if t < |words[k]| + cur[k] {
        GapChar(words, cur, k, t - |words[k]|);
      } else {
        WordChar(words, cur, k + 1, 0);
      }
    }
  }

  lemma SeenBackward(words: seq<string>, cur: seq<nat>, k: nat, s: int, spaces: nat)
    requires IsLine(words, cur) && At(words, cur, false, k, s, spaces) && 0 <= s < |Render(words, cur)|
    ensures if Render(words, cur)[s] == ' ' then At(words, cur, false, k, s - 1, spaces + 1)
      else if spaces == 0 then At(words, cur, false, k, s - 1, 0)
      else GapEnds(words, cur, false, k, s, spaces)
  {
    hide Render;
    var t := Begin(words, cur, k) + |words[k]| - 1 - s;
    RenderLength(words, cur);
    if t < |words[k]| {
      WordChar(words, cur, k, |words[k]| - 1 - t);
    } else if k > 0 {
      if t < |words[k]| + cur[k-1] {
        GapChar(words, cur, k - 1, cur[k-1] - 1 - (t - |words[k]|));
      } else {
        WordChar(words, cur, k - 1, |words[k-1]| - 1);
      }
    }
  }

  /** A gap that is wide enough is left alone. */
  lemma GapKept(words: seq<string>, cur: seq<nat>, forward: bool, k: nat, s: int, spaces: nat)
    requires IsLine(words, cur) && GapEnds(words, cur, forward, k, s, spaces)
    ensures At(words, cur, forward, if forward then k + 1 else k - 1, if forward then s + 1 else s - 1, 0)
  {
  }

  /** A gap that gets one more space, by doubling the one next to the word where the scan stands. */
  lemma GapWidened(words: seq<string>, cur: seq<nat>, forward: bool, k: nat, s: int, spaces: nat)
    requires IsLine(words, cur) && GapEnds(words, cur, forward, k, s, spaces)
    ensures var g := if forward then k else k - 1; var p := if forward then s - 1 else s + 1;
      var r, cur' := Render(words, cur), cur[g := cur[g] + 1];
      && 0 <= p < |r| && Render(words, cur') == r[..p + 1] + r[p..]
      && At(words, cur', forward, if forward then k + 1 else k - 1, if forward then s + 2 else s - 1, 0)
  {
    hide Render;
    var g := if forward then k else k - 1;
    var p := if forward then s - 1 else s + 1;
    var u := if forward then cur[g] - 1 else 0;
    assert p == Begin(words, cur, g) + |words[g]| + u;
    GapChar(words, cur, g, u);
    Widened(words, cur, g, u + 1);
    var r := Render(words, cur);
    assert r[p..] == [' '] + r[p + 1..];
    BeginWidened(words, cur, g, g);
    BeginWidened(words, cur, g, g + 1);
  }

  /** What becomes of a gap that the scan has come over. */
  lemma GapScanned(words: seq<string>, gaps: seq<nat>, j: nat, forward: bool, k: nat, s: int, spaces: nat)
    requires IsLine(words, gaps) && j >= 2 && k <= |gaps| && GapEnds(words, Scanned(gaps, j, forward, k), forward, k, s, spaces)
    ensures var cur, k' := Scanned(gaps, j, forward, k), if forward then k + 1 else k - 1;
      var p := if forward then s - 1 else s + 1; var r := Render(words, cur);
      && 0 <= k' <= |gaps| && 0 <= (if forward then k else k - 1) < |gaps| && IsLine(words, Scanned(gaps, j, forward, k'))
      && (spaces < j <==> gaps[if forward then k else k - 1] < j)
      && (spaces < j ==> 0 <= p < |r| && Render(words, Scanned(gaps, j, forward, k')) == r[..p + 1] + r[p..])
      && (spaces < j ==> At(words, Scanned(gaps, j, forward, k'), forward, k', if forward then s + 2 else s - 1, 0))
      && (spaces >= j && AllWide(gaps, j, forward, k) ==> AllWide(gaps, j, forward, k'))
      && (spaces >= j ==> Scanned(gaps, j, forward, k') == cur && At(words, cur, forward, k', if forward then s + 1 else s - 1, 0))
  {
    hide Render, At, Begin;
    var g, k' := if forward then k else k - 1, if forward then k + 1 else k - 1;
    RaisedIsLine(words, gaps, j, if forward then 0 else k, if forward then k else |gaps|);
    RaisedIsLine(words, gaps, j, if forward then 0 else k', if forward then k' else |gaps|);
    RaisedOne(gaps, j, if forward then 0 else k, if forward then k else |gaps|, g);
    hide Raised, IsLine, GapEnds;
    GapFacts(words, Scanned(gaps, j, forward, k), forward, k, s, spaces);
    if spaces < j {
      GapWidened(words, Scanned(gaps, j, forward, k), forward, k, s, spaces);
    } else {
      GapKept(words, Scanned(gaps, j, forward, k), forward, k, s, spaces);
    }
  }

  lemma GapFacts(words: seq<string>, cur: seq<nat>, forward: bool, k: nat, s: int, spaces: nat)
    requires |words| == |cur| + 1 && GapEnds(words, cur, forward, k, s, spaces)
    ensures var g := if forward then k else k - 1; 0 <= g < |cur| && spaces == cur[g]
  {
  }

  /** Where a scan for the width j stands in a line. */
  ghost predicate Stands(line: string, words: seq<string>, gaps: seq<nat>, j: nat, forward: bool, k: nat, s: int, spaces: nat)
    requires j >= 2
  {
    && k <= |gaps| && IsLine(words, gaps) && IsLine(words, Scanned(gaps, j, forward, k))
    && line == Render(words, Scanned(gaps, j, forward, k)) && At(words, Scanned(gaps, j, forward, k), forward, k, s, spaces)
  }

  /** The gaps that the scan has come over were as wide as j before. */
  ghost predicate AllWide(gaps: seq<nat>, j: nat, forward: bool, k: nat) {
    forall i :: 0 <= i < |gaps| && (if forward then i < k else k <= i) ==> gaps[i] >= j
  }

  lemma WideThroughout(gaps: seq<nat>, j: nat, forward: bool)
    ensures AllWide(gaps, j, forward, if forward then |gaps| else 0) ==> forall i :: 0 <= i < |gaps| ==> gaps[i] >= j
  {
  }

  /** What the next character does to the scan; at the end of a gap that is too narrow a space is to be put in. */
  lemma OneChar(line: string, words: seq<string>, gaps: seq<nat>, j: nat, forward: bool, k: nat, s: int, spaces: nat)
    requires j >= 2 && Stands(line, words, gaps, j, forward, k, s, spaces) && 0 <= s < |line|
    ensures line[s] == ' ' ==> Stands(line, words, gaps, j, forward, k, if forward then s + 1 else s - 1, spaces + 1)
    ensures line[s] != ' ' && spaces == 0 ==> Stands(line, words, gaps, j, forward, k, if forward then s + 1 else s - 1, 0)
    ensures line[s] != ' ' && spaces > 0 ==> AtGapEnd(line, words, gaps, j, forward, k, s, spaces)
  {
    hide IsLine, Render, At, GapEnds, Scanned;
    ScannedWords(words, gaps, j, forward, k);
    CharSeen(words, Scanned(gaps, j, forward, k), forward, k, s, spaces);
    if line[s] != ' ' && spaces > 0 { GapScanned(words, gaps, j, forward, k, s, spaces); }
  }

  lemma ScannedWords(words: seq<string>, gaps: seq<nat>, j: nat, forward: bool, k: nat)
    requires j >= 2 && k <= |gaps| && IsLine(words, gaps)
    ensures |words| == |gaps| + 1 == |Scanned(gaps, j, forward, k)| + 1
  {
  }

  ghost predicate AtGapEnd(line: string, words: seq<string>, gaps: seq<nat>, j: nat, forward: bool, k: nat, s: int, spaces: nat)
    requires j >= 2
  {
    var k', p := if forward then k + 1 else k - 1, if forward then s - 1 else s + 1;
    && 0 <= k' <= |gaps|
    && (if spaces < j
        then 0 <= p < |line| && Stands(line[..p + 1] + line[p..], words, gaps, j, forward, k', if forward then s + 2 else s - 1, 0)
        else Stands(line, words, gaps, j, forward, k', if forward then s + 1 else s - 1, 0) && (AllWide(gaps, j, forward, k) ==> AllWide(gaps, j, forward, k')))
  }

  lemma StandsHolds(line: string, words: seq<string>, gaps: seq<nat>, j: nat, forward: bool, k: nat, s: int, spaces: nat)
    requires j >= 2 && Stands(line, words, gaps, j, forward, k, s, spaces)
    ensures |words| == |gaps| + 1 && k <= |gaps| && IsLine(words, Scanned(gaps, j, forward, k)) && line == Render(words, Scanned(gaps, j, forward, k))
    ensures !(0 <= s < |line|) ==> k == if forward then |gaps| else 0
  {
    hide Render, At;
    InRange(words, Scanned(gaps, j, forward, k), forward, k, s, spaces);
  }

  class Filler {
    const assyline: array<char>
    var assylen: nat
    var adjtoggle: bool

    constructor (size: nat)
      ensures fresh(assyline) && assyline.Length == size && assylen == 0 && !adjtoggle
    {
      assyline := new char[size](i => ' ');
      assylen, adjtoggle := 0, false;
    }

    ghost predicate Holds(words: seq<string>, gaps: seq<nat>)
      reads this`assylen, assyline
    {
      assylen <= assyline.Length && IsLine(words, gaps) && assyline[..assylen] == Render(words, gaps)
    }

    /** insrt(): the character at p is doubled. */
    method Insrt(p: nat)
      requires p < assylen < assyline.Length
      modifies this`assylen, assyline
      ensures assylen == old(assylen) + 1
      ensures assyline[..assylen] == old(assyline[..assylen])[..p + 1] + old(assyline[..assylen])[p..]
    {
      var i := assylen;
      while i > p
        invariant p <= i <= assylen == old(assylen)
        invariant forall q :: 0 <= q <= i && q < assylen ==> assyline[q] == old(assyline[q])
        invariant forall q :: i < q <= assylen ==> assyline[q] == old(assyline[q - 1])
      {
        assyline[i] := assyline[i - 1];
        i := i - 1;
      }
      assylen := assylen + 1;
    }

    /** The scan has come over a gap: a space is put into it when it is narrower than j. */
    method OverGap(j: nat, s0: nat, spaces: nat, excess0: nat, ghost words: seq<string>, ghost gaps: seq<nat>, ghost k0: nat)
      returns (s: nat, excess: nat, ghost k: nat)
      requires j >= 2 && s0 < assylen && excess0 > 0 && assylen + excess0 <= assyline.Length
      requires AtGapEnd(assyline[..assylen], words, gaps, j, adjtoggle, k0, s0, spaces)
      modifies this`assylen, assyline
      ensures assylen + excess == old(assylen) + excess0 && excess <= excess0 && k <= |gaps|
      ensures Stands(assyline[..assylen], words, gaps, j, adjtoggle, k, if adjtoggle then s + 1 else s - 1, 0)
      ensures if adjtoggle then assylen - s == old(assylen) - s0 else s == s0
      ensures excess == excess0 && AllWide(gaps, j, adjtoggle, k0) ==> AllWide(gaps, j, adjtoggle, k)
    {
      hide Stands, AllWide;
      s, excess := s0, excess0;
      k := if adjtoggle then k0 + 1 else k0 - 1;
      if spaces < j {
        Insrt(if adjtoggle then s - 1 else s + 1);
        if adjtoggle { s := s + 1; }
        excess := excess - 1;
      }
    }

    /** The scan looks at one character. */
    method Look(j: nat, s0: nat, spaces0: nat, excess0: nat, ghost words: seq<string>, ghost gaps: seq<nat>, ghost k0: nat)
      returns (s: int, spaces: nat, excess: nat, ghost k: nat)
      requires j >= 2 && s0 < assylen && excess0 > 0 && assylen + excess0 <= assyline.Length && k0 <= |gaps|
      requires Stands(assyline[..assylen], words, gaps, j, adjtoggle, k0, s0, spaces0)
      modifies this`assylen, assyline
      ensures assylen + excess == old(assylen) + excess0 && excess <= excess0 && k <= |gaps|
      ensures Stands(assyline[..assylen], words, gaps, j, adjtoggle, k, s, spaces)
      ensures if adjtoggle then assylen - s < old(assylen) - s0 else s < s0
      ensures excess == excess0 && AllWide(gaps, j, adjtoggle, k0) ==> AllWide(gaps, j, adjtoggle, k)
    {
      hide Stands, AllWide, AtGapEnd;
      OneChar(assyline[..assylen], words, gaps, j, adjtoggle, k0, s0, spaces0);
      s, spaces, excess, k := s0, spaces0, excess0, k0;
      var inc := if adjtoggle then 1 else -1;
      if assyline[s] == ' ' {
        spaces := spaces + 1;
      } else {
        if 0 < spaces { s, excess, k := OverGap(j, s, spaces, excess, words, gaps, k); }
        spaces := 0;
      }
      s := s + inc;
    }

    /** One scan over the line, for the gap width j. It stops where the excess is used up. */
    method Pass(j: nat, excess0: nat, ghost words: seq<string>, ghost gaps: seq<nat>) returns (excess: nat, ghost k: nat)
      requires j >= 2 && IsLine(words, gaps) && Holds(words, Raised(gaps, j, 0, 0))
      requires excess0 > 0 && assylen + excess0 <= assyline.Length
      modifies this`assylen, assyline
      ensures assylen + excess == old(assylen) + excess0 && excess <= excess0
      ensures k <= |gaps| && Holds(words, Scanned(gaps, j, adjtoggle, k))
      ensures excess > 0 ==> k == if adjtoggle then |gaps| else 0
      ensures excess == excess0 ==> forall i :: 0 <= i < |gaps| ==> gaps[i] >= j
    {
      excess := excess0;
      k := if adjtoggle then 0 else |gaps|;
      ScanOf(words, gaps, j, adjtoggle);
      hide IsLine, Render, Raised, Scanned, Stands, AllWide;
      var s: int := if adjtoggle then 0 else assylen - 1;
      var spaces := 0;
      while 0 <= s < assylen && excess > 0
        invariant excess <= excess0 && assylen + excess == old(assylen) + excess0 && k <= |gaps|
        invariant Stands(assyline[..assylen], words, gaps, j, adjtoggle, k, s, spaces)
        invariant excess == excess0 ==> AllWide(gaps, j, adjtoggle, k)
        decreases if adjtoggle then assylen - s else s + 1
      {
        s, spaces, excess, k := Look(j, s, spaces, excess, words, gaps, k);
      }
      StandsHolds(assyline[..assylen], words, gaps, j, adjtoggle, k, s, spaces);
      if excess == excess0 { WideThroughout(gaps, j, adjtoggle); }
    }

    /** fillline() for a line that has a gap or needs no space: false is the error exit for a line that is too long. The
        ghost results are the words, the widths of the gaps before and those after. */
    method FillLine(width: int) returns (ok: bool, ghost words: seq<string>, ghost gaps: seq<nat>, ghost wide: seq<nat>)
      requires assylen <= assyline.Length && Trimmed(assyline[..assylen]) && width <= assyline.Length
      requires assylen < width ==> ' ' in assyline[..assylen]
      modifies this`adjtoggle, this`assylen, assyline
      ensures adjtoggle == !old(adjtoggle)
      ensures ok <==> old(assylen) <= width
      ensures !ok ==> assylen == old(assylen) && assyline[..] == old(assyline[..])
      ensures ok ==> assylen == width <= assyline.Length && WordsOf(assyline[..assylen]) == words == WordsOf(old(assyline[..assylen]))
      ensures IsLine(words, gaps) && old(assyline[..assylen]) == Render(words, gaps)
      ensures ok ==> IsLine(words, wide) && assyline[..assylen] == Render(words, wide) && Leveled(gaps, wide, adjtoggle)
      ensures ok && old(assylen) == width ==> wide == gaps && assyline[..] == old(assyline[..])
    {
      hide IsLine, Render, Raised, WordsOf, Leveled, Trimmed;
      adjtoggle := !adjtoggle;
      words, gaps := Parsed(assyline[..assylen]);
      wide := gaps;
      WordsOfRender(words, gaps);
      var excess: int := width - assylen;
      if excess == 0 {
        NothingLeveled(words, gaps, adjtoggle);
        return true, words, gaps, wide;
      }
      if excess < 0 { return false, words, gaps, wide; }
      FirstLevel(words, gaps);
      var j := 2;
      ghost var k := 0;
      assert gaps != [];
      while true
        invariant adjtoggle == !old(adjtoggle)
        invariant j >= 2 && 0 < excess && assylen + excess == width && Holds(words, Raised(gaps, j, 0, 0))
        decreases excess, if gaps != [] && gaps[0] >= j then gaps[0] - j + 1 else 0
      {
        ghost var before := excess;
        excess, k := Pass(j, excess, words, gaps);
        if excess == 0 {
          wide := Scanned(gaps, j, adjtoggle, k);
          WordsOfRender(words, wide);
          IsLeveled(gaps, wide, adjtoggle, j, k);
          return true, words, gaps, wide;
        }
        NextLevel(gaps, j);
        LastScan(gaps, j, adjtoggle);
        j := j + 1;
      }
    }

    /** A line without a gap that is too short is the same after any number of passes, and the excess is never used up:
        the loop of fillline(), which only ends when it is, does not end. */
    method Endless(width: nat, passes: nat) returns (excess: nat)
      requires assylen < width <= assyline.Length && Trimmed(assyline[..assylen]) && ' ' !in assyline[..assylen]
      modifies this`assylen, assyline
      ensures excess == width - old(assylen) > 0
      ensures assylen == old(assylen) && assyline[..assylen] == old(assyline[..assylen])
    {
      hide IsLine, Render, Trimmed;
      ghost var words, gaps := Parsed(assyline[..assylen]);
      excess := width - assylen;
      for j := 2 to passes + 2
        invariant excess == width - old(assylen) && assylen == old(assylen) && assyline[..assylen] == old(assyline[..assylen])
      {
        assert Raised(gaps, j, 0, 0) == [];
        ghost var k;
        excess, k := Pass(j, excess, words, gaps);
        assert Scanned(gaps, j, adjtoggle, k) == [];
      }
    }
  }

  lemma ScanOf(words: seq<string>, gaps: seq<nat>, j: nat, forward: bool)
    requires j >= 2 && IsLine(words, Raised(gaps, j, 0, 0))
    requires IsLine(words, gaps)
    ensures var k, line := if forward then 0 else |gaps|, Render(words, Raised(gaps, j, 0, 0));
      && Stands(line, words, gaps, j, forward, k, if forward then 0 else |line| - 1, 0) && AllWide(gaps, j, forward, k)
  {
    hide At, Render;
    var k := if forward then 0 else |gaps|;
    assert Scanned(gaps, j, forward, k) == Raised(gaps, j, 0, 0);
    ScanStarts(words, Raised(gaps, j, 0, 0), forward);
  }

  lemma LastScan(gaps: seq<nat>, j: nat, forward: bool)
    requires j >= 2
    ensures Scanned(gaps, j, forward, if forward then |gaps| else 0) == Raised(gaps, j, 0, |gaps|)
  {
  }

  lemma IsLeveled(gaps: seq<nat>, wide: seq<nat>, forward: bool, j: nat, k: nat)
    requires j >= 2 && k <= |gaps| && wide == Scanned(gaps, j, forward, k)
    ensures Leveled(gaps, wide, forward)
  {
    assert Reaches(gaps, wide, forward, j, k);
  }

  lemma NothingLeveled(words: seq<string>, gaps: seq<nat>, forward: bool)
    requires IsLine(words, gaps)
    ensures Leveled(gaps, gaps, forward)
  {
    FirstLevel(words, gaps);
    NextLevel(gaps, 1);
    IsLeveled(gaps, gaps, forward, 2, if forward then 0 else |gaps|);
  }
}
