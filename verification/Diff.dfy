/** diff: a search through two growing windows of lines, with push-back. */
module Diff {
  import opened Text
  import opened Fix
  import opened Edits
  import opened Options

  /** A line in a window, or the mark behind the last one. */
  datatype Item = Text(s: string) | Eof

  /** The k-th line of what is left of a file. */
  function ItemAt(rest: seq<string>, k: nat): Item {
    if k < |rest| then Item.Text(rest[k]) else Eof
  }

  predicate IsView(items: seq<Item>, rest: seq<string>, from: nat) {
    from + |items| <= |rest| + 1 &&
    forall k :: 0 <= k < |items| ==> items[k] == ItemAt(rest, from + k)
  }

  /** struct f: the window f_bwin..f_ewin, the lines put aside, and the unread part of the file. */
  class Window {
    var win: seq<Item>
    var aside: seq<Item>
    var linecnt: nat
    var unread: seq<string>
    ghost var rest: seq<string>

    /** Window, lines put aside and unread lines follow one another in what is left of the file. */
    ghost predicate Valid()
      reads this
    {
      var m := |win| + |aside|;
      IsView(win, rest, 0) && IsView(aside, rest, |win|) &&
      unread == if m <= |rest| then rest[m..] else []
    }

    constructor (file: seq<string>)
      ensures Valid() && rest == file && win == [] && linecnt == 0
    {
      win, aside, linecnt := [], [], 0;
      unread, rest := file, file;
    }

    /** read_line() */
    method ReadLine() returns (l: Item)
      modifies this`unread
      ensures old(unread) == [] ==> l == Eof && unread == []
      ensures old(unread) != [] ==> l == Item.Text(old(unread)[0]) && unread == old(unread)[1..]
    {
      if unread == [] { return Eof; }
      l := Item.Text(unread[0]);
      unread := unread[1..];
    }

    /** next(): one more line in the window, unless it already ends with the end mark. */
    method Next()
      requires Valid()
      modifies this`win, this`aside, this`unread
      ensures Valid()
      ensures |win| == if |old(win)| <= |rest| then |old(win)| + 1 else |old(win)|
    {
      NextFacts(win, aside, rest);
      hide ItemAt, IsView;
      var l;
      if aside != [] {
        l := aside[0];
        aside := aside[1..];
      } else {
        l := ReadLine();
      }
      if win != [] && win[|win| - 1].Eof? && l.Eof? { return; }
      win := win + [l];
    }

    /** advance(): the first line leaves the window and is counted. */
    method Advance()
      requires Valid() && win != []
      modifies this`win, this`linecnt, this`rest
      ensures Valid() && win == old(win)[1..] && linecnt == old(linecnt) + 1
      ensures rest == if old(rest) == [] then [] else old(rest)[1..]
    {
      win := win[1..];
      linecnt := linecnt + 1;
      rest := if rest == [] then [] else rest[1..];
    }

    /** aside(): lines behind the k-th go back in front of the unread ones. */
    method Aside(k: nat)
      requires Valid() && k < |win|
      modifies this`win, this`aside
      ensures Valid() && win == old(win)[..k + 1]
    {
      aside := win[k + 1..] + aside;
      win := win[..k + 1];
    }

    /** update(): the lines in front of the window's last are printed and dropped. */
    method Update(mark: string) returns (out: seq<string>)
      requires Valid() && win != [] && |win| <= |rest| + 1
      modifies this`win, this`linecnt, this`rest
      ensures Valid() && |win| == 1
      ensures linecnt == old(linecnt) + |old(win)| - 1
      ensures rest == old(rest)[|old(win)| - 1..]
      ensures out == Marked(mark, old(rest)[..|old(win)| - 1])
    {
      out := [];
      ghost var n := 0;
      while |win| > 1
        invariant 0 <= n && |win| == |old(win)| - n >= 1 && Valid()
        invariant linecnt == old(linecnt) + n && n <= |old(rest)| && rest == old(rest)[n..]
        invariant out == Marked(mark, old(rest)[..n])
        decreases |win|
      {
        assert win[0] == ItemAt(rest, 0);
        out := out + [mark + (if win[0].Text? then win[0].s else "")];
        MarkedSnoc(mark, old(rest)[..n], old(rest)[n]);
        assert old(rest)[..n + 1] == old(rest)[..n] + [old(rest)[n]];
        Advance();
        n := n + 1;
      }
    }
  }

  /** What next() finds: the first line put aside, the next unread line, or the end mark. */
  lemma NextFacts(win: seq<Item>, aside: seq<Item>, rest: seq<string>)
    requires IsView(win, rest, 0) && IsView(aside, rest, |win|)
    ensures win != [] ==> (win[|win| - 1].Eof? <==> |win| == |rest| + 1)
    ensures aside != [] ==> |win| <= |rest| && aside[0] == ItemAt(rest, |win|) && IsView(win + [aside[0]], rest, 0) &&
                            IsView(aside[1..], rest, |win| + 1)
    ensures |win| < |rest| ==> IsView(win + [Item.Text(rest[|win|])], rest, 0)
    ensures |win| == |rest| ==> IsView(win + [Eof], rest, 0)
    ensures |win| <= |rest| ==> IsView([], rest, |win| + 1)
    ensures |win| <= |rest| + 1 && |win| + |aside| <= |rest| + 1
    ensures aside != [] ==> (aside[0].Eof? <==> |win| == |rest|)
  {
  }

  lemma {:induction false} MarkedSnoc(mark: string, ls: seq<string>, l: string)
    ensures Marked(mark, ls + [l]) == Marked(mark, ls) + [mark + l]
  {
    if ls != [] {
      assert (ls + [l])[1..] == ls[1..] + [l];
      MarkedSnoc(mark, ls[1..], l);
    } else {
      assert [l][1..] == [];
    }
  }

  // ---------- Comparing ----------

  /** stepup(): the end mark is its own successor; `|win|` stands for the null pointer. */
  function StepUp(win: seq<Item>, k: nat): nat {
    if k < |win| && win[k].Text? then k + 1 else k
  }

  /** equal_line(): lines that are there and equal, or two end marks. */
  predicate EqualLine(win1: seq<Item>, i: nat, win2: seq<Item>, j: nat) {
    i < |win1| && j < |win2| && win1[i] == win2[j]
  }

  predicate EqualN(win1: seq<Item>, i: nat, win2: seq<Item>, j: nat, n: nat)
    decreases n
  {
    n == 0 || (EqualLine(win1, i, win2, j) && EqualN(win1, StepUp(win1, i), win2, StepUp(win2, j), n - 1))
  }

  /** equal_3() */
  method Equal3(win1: seq<Item>, i: nat, win2: seq<Item>, j: nat) returns (ansr: bool)
    ensures ansr == EqualN(win1, i, win2, j, 3)
  {
    ansr := true;
    var l1, l2, n := i, j, 0;
    while n < 3
      invariant 0 <= n <= 3 && EqualN(win1, l1, win2, l2, 3 - n) == EqualN(win1, i, win2, j, 3)
    {
      if !EqualLine(win1, l1, win2, l2) { return false; }
      l1, l2, n := StepUp(win1, l1), StepUp(win2, l2), n + 1;
    }
  }


  /** The first position at or behind `k` in `win1` from which three lines agree with those at `j`. */
  function FirstEqual(win1: seq<Item>, win2: seq<Item>, j: nat, k: nat): (r: Option<nat>)
    ensures r.Some? ==> k <= r.value < |win1| && j < |win2| && EqualN(win1, r.value, win2, j, 3)
    ensures r.Some? ==> forall i: nat :: k <= i < r.value ==> !EqualN(win1, i, win2, j, 3)
    ensures r.None? ==> forall i: nat :: k <= i ==> !EqualN(win1, i, win2, j, 3)
    decreases |win1| - k
  {
    if k >= |win1| then None
    else if EqualN(win1, k, win2, j, 3) then Some(k)
    else FirstEqual(win1, win2, j, k + 1)
  }

  /** The do loop of diff(): the first position in `win1` from which three lines agree. */
  method Scan(win1: seq<Item>, win2: seq<Item>, j: nat) returns (found: bool, ll: nat)
    requires win1 != [] && forall k :: 0 <= k < |win1| - 1 ==> win1[k].Text?
    ensures found ==> FirstEqual(win1, win2, j, 0) == Some(ll)
    ensures !found ==> FirstEqual(win1, win2, j, 0) == None
  {
    hide EqualN;
    ll := 0;
    while ll < |win1|
      invariant ll <= |win1| && FirstEqual(win1, win2, j, ll) == FirstEqual(win1, win2, j, 0)
    {
      var eq := Equal3(win1, ll, win2, j);
      if eq { return true, ll; }
      if win1[ll].Eof? { return false, ll; }
      ll := StepUp(win1, ll);
    }
    found := false;
  }

  lemma {:induction false} EqualNSymmetric(win1: seq<Item>, i: nat, win2: seq<Item>, j: nat, n: nat)
    ensures EqualN(win1, i, win2, j, n) == EqualN(win2, j, win1, i, n)
    decreases n
  {
    if n > 0 { EqualNSymmetric(win1, StepUp(win1, i), win2, StepUp(win2, j), n - 1); }
  }

  /** Two end marks agree on all three lines. */
  lemma EndsAgree(win1: seq<Item>, i: nat, win2: seq<Item>, j: nat, n: nat)
    requires i < |win1| && j < |win2| && win1[i] == win2[j] == Eof
    ensures EqualN(win1, i, win2, j, n)
  {
  }

  // ---------- The difference listing ----------

  /** differ(): prints the block in front of the last lines of both windows and drops it. */
  method PrintBlock(f1: Window, f2: Window) returns (out: seq<string>)
    requires f1 != f2 && f1.Valid() && f2.Valid() && f1.win != [] && f2.win != []
    requires |f1.win| > 1 || |f2.win| > 1
    modifies f1`win, f1`linecnt, f1`rest, f2`win, f2`linecnt, f2`rest
    ensures f1.Valid() && f2.Valid() && |f1.win| == |f2.win| == 1
    ensures var len1, len2 := |old(f1.win)| - 1, |old(f2.win)| - 1;
            && len1 <= |old(f1.rest)| && len2 <= |old(f2.rest)|
            && f1.rest == old(f1.rest)[len1..] && f2.rest == old(f2.rest)[len2..]
            && f1.linecnt == old(f1.linecnt) + len1 && f2.linecnt == old(f2.linecnt) + len2
            && out == Block(old(f1.linecnt), old(f2.linecnt), old(f1.rest)[..len1], old(f2.rest)[..len2])
  {
    hide Decimal, RangeText, Marked;
    ghost var rest1, rest2 := f1.rest, f2.rest;
    var cnt1, cnt2 := f1.linecnt, f2.linecnt;
    var len1, len2 := |f1.win| - 1, |f2.win| - 1;   // wlen()
    var head;
    if len1 == 0 {
      head := Decimal(cnt1) + "a" + RangeText(cnt2 + 1, cnt2 + len2);
    } else if len2 == 0 {
      head := RangeText(cnt1 + 1, cnt1 + len1) + "d" + Decimal(cnt2);
    } else {
      head := RangeText(cnt1 + 1, cnt1 + len1) + "c" + RangeText(cnt2 + 1, cnt2 + len2);
    }
    var lines1, lines2 := [], [];
    MarkedNothing("< ");
    MarkedNothing("> ");
    if len1 > 0 { lines1 := f1.Update("< "); }
    if len2 > 0 { lines2 := f2.Update("> "); }
    assert len1 == 0 ==> rest1[..len1] == [] && rest1[len1..] == rest1;
    assert len2 == 0 ==> rest2[..len2] == [] && rest2[len2..] == rest2;
    out := [head + "\n"] + lines1 + (if len1 > 0 && len2 > 0 then ["---\n"] else []) + lines2;
  }

  lemma MarkedNothing(mark: string)
    ensures Marked(mark, []) == []
  {
  }

  // ---------- The search ----------

  /** The number of blocks, diff's count of differences. */
  function Blocks(es: seq<Edit>): nat {
    if es == [] then 0 else (if es[0].Change? then 1 else 0) + Blocks(es[1..])
  }

  lemma {:induction false} BlocksAppend(es: seq<Edit>, e: Edit)
    ensures Blocks(es + [e]) == Blocks(es) + if e.Change? then 1 else 0
  {
    if es == [] {
      assert [e][1..] == [];
    } else {
      assert (es + [e])[1..] == es[1..] + [e];
      BlocksAppend(es[1..], e);
    }
  }

  /** One more edit at the end. */
  lemma AddEdit(es: seq<Edit>, e: Edit)
    ensures Print(es + [e], 0, 0) == Print(es, 0, 0) + PrintOne(e, |OldOf(es)|, |NewOf(es)|)
    ensures |OldOf(es + [e])| == |OldOf(es)| + |OldPart(e)| && |NewOf(es + [e])| == |NewOf(es)| + |NewPart(e)|
    ensures Blocks(es + [e]) == Blocks(es) + if e.Change? then 1 else 0
  {
    hide PrintOne, OldOf, NewOf, Print, OldPart, NewPart;
    OldAppend(es, [e]);
    NewAppend(es, [e]);
    PrintAppend(es, [e], 0, 0);
    OneEdit(e, |OldOf(es)|, |NewOf(es)|);
    BlocksAppend(es, e);
  }

  lemma OneEdit(e: Edit, a: nat, b: nat)
    ensures OldOf([e]) == OldPart(e) && NewOf([e]) == NewPart(e) && Print([e], a, b) == PrintOne(e, a, b)
  {
    assert [e][1..] == [];
  }

  /** The window of `m` lines on what is left of a file, the end mark counting as one. */
  function View(rest: seq<string>, m: nat): (w: seq<Item>)
    ensures |w| == Min(m, |rest| + 1)
  {
    seq(Min(m, |rest| + 1), k requires 0 <= k => ItemAt(rest, k))
  }

  /** Where the search of diff() ends, from round `t` on: both windows grow by a line a round,
      and the t-th line of each is looked for in the other. */
  function MatchFrom(rest1: seq<string>, rest2: seq<string>, t: nat): (m: (nat, nat))
    ensures m.0 <= |rest1| && m.1 <= |rest2|
    decreases |rest1| + |rest2| + 1 - t
  {
    if t > |rest1| + |rest2| then (|rest1|, |rest2|) else
    var r := Half1(rest1, rest2, t);
    if r.Some? then (r.value, Min(t, |rest2|)) else
    var s := Half2(rest1, rest2, t);
    if s.Some? then (Min(t, |rest1|), s.value) else MatchFrom(rest1, rest2, t + 1)
  }

  /** The t-th line of the second file looked up in the first one's window. */
  function Half1(rest1: seq<string>, rest2: seq<string>, t: nat): (r: Option<nat>)
    ensures r.Some? ==> r.value <= |rest1|
  {
    FirstEqual(View(rest1, 3 + t), View(rest2, 4 + t), Min(t, |rest2|), 0)
  }

  /** The t-th line of the first file looked up in the second one's window. */
  function Half2(rest1: seq<string>, rest2: seq<string>, t: nat): (r: Option<nat>)
    ensures r.Some? ==> r.value <= |rest2|
  {
    FirstEqual(View(rest2, 4 + t), View(rest1, 4 + t), Min(t, |rest1|), 0)
  }

  /** The edits diff finds between what is left of two files. */
  function EditsOf(rest1: seq<string>, rest2: seq<string>): seq<Edit>
    decreases |rest1| + |rest2|
  {
    if rest1 == [] && rest2 == [] then []
    else if ItemAt(rest1, 0) == ItemAt(rest2, 0) then [Same(rest1[0])] + EditsOf(rest1[1..], rest2[1..])
    else
      var (p, q) := MatchFrom(rest1, rest2, 0);
      MatchAgrees(rest1, rest2, 0);
      [Change(rest1[..p], rest2[..q])] + EditsOf(rest1[p..], rest2[q..])
  }

  /** Half a round of the search: one more line for `fb`, then its b-th line is looked up in `fa`. */
  method LookUp(fa: Window, fb: Window, b: nat) returns (found: bool)
    requires fa != fb && fa.Valid() && fb.Valid() && fa.win != [] && b <= |fb.rest|
    modifies fa`win, fa`aside, fa`unread, fb`win, fb`aside, fb`unread
    ensures fa.Valid() && fb.Valid()
    ensures var r := FirstEqual(View(fa.rest, |old(fa.win)|), View(fb.rest, |old(fb.win)| + 1), b, 0);
            found == r.Some? && (found ==> |fa.win| == r.value + 1 && |fb.win| == b + 1)
    ensures !found ==> fa.win == old(fa.win)
    ensures !found ==> |fb.win| == Min(|old(fb.win)| + 1, |fb.rest| + 1)
  {
    hide EqualN, IsView, Window.Valid, FirstEqual;
    fb.Next();
    WindowIsView(fa);
    WindowIsView(fb);
    ViewCapped(fb.rest, |old(fb.win)| + 1);
    WindowFacts(fa);
    WindowFacts(fb);
    var ll;
    found, ll := Scan(fa.win, fb.win, b);
    if found {
      fa.Aside(ll);
      fb.Aside(b);
    }
  }

  lemma WindowIsView(f: Window)
    requires f.Valid()
    ensures f.win == View(f.rest, |f.win|)
  {
  }

  lemma ViewCapped(rest: seq<string>, m: nat)
    ensures View(rest, m) == View(rest, Min(m, |rest| + 1))
  {
  }

  lemma MatchStep(rest1: seq<string>, rest2: seq<string>, t: nat)
    requires t <= |rest1| + |rest2|
    ensures var r, s := Half1(rest1, rest2, t), Half2(rest1, rest2, t);
            MatchFrom(rest1, rest2, t) ==
              if r.Some? then (r.value, Min(t, |rest2|)) else
              if s.Some? then (Min(t, |rest1|), s.value) else MatchFrom(rest1, rest2, t + 1)
  {
  }

  /** Windows that stopped growing at the end mark are the views of that round. */
  lemma SameHalves(rest1: seq<string>, rest2: seq<string>, t: nat, m1: nat, m2: nat)
    requires m1 == Min(3 + t, |rest1| + 1) && m2 == Min(3 + t, |rest2| + 1)
    ensures Half1(rest1, rest2, t) == FirstEqual(View(rest1, m1), View(rest2, m2 + 1), Min(t, |rest2|), 0)
    ensures Half2(rest1, rest2, t) ==
              FirstEqual(View(rest2, Min(m2 + 1, |rest2| + 1)), View(rest1, m1 + 1), Min(t, |rest1|), 0)
  {
    hide FirstEqual;
    ViewCapped(rest1, 3 + t);
    ViewCapped(rest1, 4 + t);
    ViewCapped(rest2, 4 + t);
    ViewCapped(rest1, m1 + 1);
    ViewCapped(rest2, m2 + 1);
  }

  /** With both end marks in sight the search has ended. */
  lemma EndsMatch(rest1: seq<string>, rest2: seq<string>, t: nat)
    requires t >= |rest1| && t >= |rest2|
    ensures Half1(rest1, rest2, t).Some?
  {
    hide EqualN;
    EndsAgree(View(rest1, 3 + t), |rest1|, View(rest2, 4 + t), |rest2|, 3);
  }

  /** The last lines of the windows a match leaves are equal. */
  lemma MatchAgrees(rest1: seq<string>, rest2: seq<string>, t: nat)
    ensures var m := MatchFrom(rest1, rest2, t); ItemAt(rest1, m.0) == ItemAt(rest2, m.1)
    decreases |rest1| + |rest2| + 1 - t
  {
    if t <= |rest1| + |rest2| {
      hide EqualN, FirstEqual;
      var b1, b2 := Min(t, |rest1|), Min(t, |rest2|);
      var r, s := Half1(rest1, rest2, t), Half2(rest1, rest2, t);
      if r.Some? {
        FirstAgrees(View(rest1, 3 + t), r.value, View(rest2, 4 + t), b2);
      } else if s.Some? {
        FirstAgrees(View(rest2, 4 + t), s.value, View(rest1, 4 + t), b1);
      } else {
        MatchAgrees(rest1, rest2, t + 1);
      }
    }
  }

  /** The windows before round `t` of the search. */
  ghost predicate Round(f1: Window, f2: Window, t: nat, b1: nat, b2: nat)
    reads f1, f2
  {
    && f1 != f2 && f1.Valid() && f2.Valid() && t <= |f1.rest| + |f2.rest|
    && |f1.win| == Min(3 + t, |f1.rest| + 1) && |f2.win| == Min(3 + t, |f2.rest| + 1)
    && b1 == Min(t, |f1.rest|) && b2 == Min(t, |f2.rest|)
  }

  /** One round of the search. */
  method SearchRound(f1: Window, f2: Window, ghost t: nat, b1: nat, b2: nat)
    returns (found: bool, b1': nat, b2': nat)
    requires Round(f1, f2, t, b1, b2)
    modifies f1`win, f1`aside, f1`unread, f2`win, f2`aside, f2`unread
    ensures f1.Valid() && f2.Valid()
    ensures found ==> (|f1.win| - 1, |f2.win| - 1) == MatchFrom(f1.rest, f2.rest, t)
    ensures !found ==> Round(f1, f2, t + 1, b1', b2')
    ensures !found ==> MatchFrom(f1.rest, f2.rest, t + 1) == MatchFrom(f1.rest, f2.rest, t)
  {
    hide IsView, Window.Valid, StepUp, FirstEqual, View, Half1, Half2, MatchFrom;
    b1', b2' := b1, b2;
    SameHalves(f1.rest, f2.rest, t, |f1.win|, |f2.win|);
    MatchStep(f1.rest, f2.rest, t);
    if t >= |f1.rest| && t >= |f2.rest| { EndsMatch(f1.rest, f2.rest, t); }
    found := LookUp(f1, f2, b2);
    if found { return; }
    StepsUp(f2, b2);
    b2' := StepUp(f2.win, b2);
    found := LookUp(f2, f1, b1);
    if !found {
      StepsUp(f1, b1);
      b1' := StepUp(f1.win, b1);
    }
  }

  /** The search of diff(): it ends, at the latest where both files end, and leaves
      the windows cut off at the match. */
  method Search(f1: Window, f2: Window)
    requires f1 != f2 && f1.Valid() && f2.Valid() && |f1.win| == |f2.win| == 1
    modifies f1`win, f1`aside, f1`unread, f2`win, f2`aside, f2`unread
    ensures f1.Valid() && f2.Valid()
    ensures (|f1.win| - 1, |f2.win| - 1) == MatchFrom(f1.rest, f2.rest, 0)
  {
    hide IsView, Window.Valid, MatchFrom;
    var b1, b2, found := 0, 0, false;
    f1.Next();
    f1.Next();
    f2.Next();
    f2.Next();
    ghost var t := 0;
    while !found
      invariant f1.Valid() && f2.Valid()
      invariant !found ==> Round(f1, f2, t, b1, b2) && MatchFrom(f1.rest, f2.rest, t) == MatchFrom(f1.rest, f2.rest, 0)
      invariant found ==> (|f1.win| - 1, |f2.win| - 1) == MatchFrom(f1.rest, f2.rest, 0)
      decreases if found then 0 else |f1.rest| + |f2.rest| + 2 - t
    {
      found, b1, b2 := SearchRound(f1, f2, t, b1, b2);
      t := t + 1;
    }
  }

  function Min(a: nat, b: nat): nat { if a <= b then a else b }

  lemma StepsUp(f: Window, k: nat)
    requires f.Valid() && k < |f.win|
    ensures StepUp(f.win, k) == Min(k + 1, |f.rest|)
  {
  }

  lemma WindowFacts(f: Window)
    requires f.Valid()
    ensures |f.win| <= |f.rest| + 1 && forall k :: 0 <= k < |f.win| ==> f.win[k] == ItemAt(f.rest, k)
  {
  }

  lemma FirstAgrees(win1: seq<Item>, i: nat, win2: seq<Item>, j: nat)
    requires EqualN(win1, i, win2, j, 3)
    ensures EqualLine(win1, i, win2, j)
  {
  }

  /** Between two rounds of diff(): the windows hold one line each. */
  ghost predicate Between(file1: seq<string>, file2: seq<string>, f1: Window, f2: Window,
                          es: seq<Edit>, script: seq<string>, diffs: nat)
    reads f1, f2
  {
    && f1 != f2 && f1.Valid() && f2.Valid() && |f1.win| == |f2.win| == 1
    && script == Print(es, 0, 0) && diffs == Blocks(es)
    && (f1.rest != [] || f2.rest != [] ==> f1.linecnt == |OldOf(es)| && f2.linecnt == |NewOf(es)|)
    && es + EditsOf(f1.rest, f2.rest) == EditsOf(file1, file2)
  }

  /** A block: searched, printed, dropped. */
  method NextBlock(ghost file1: seq<string>, ghost file2: seq<string>, f1: Window, f2: Window,
                   ghost es0: seq<Edit>, script0: seq<string>, diffs0: nat)
    returns (ghost es: seq<Edit>, script: seq<string>, diffs: nat)
    requires Between(file1, file2, f1, f2, es0, script0, diffs0)
    requires f1.win[0] != f2.win[0]
    modifies f1, f2
    ensures Between(file1, file2, f1, f2, es, script, diffs) && f1.win[0] == f2.win[0]
    ensures |f1.rest| <= old(|f1.rest|) && |f2.rest| <= old(|f2.rest|)
  {
    hide Print, Block, IsView, Window.Valid, OldOf, NewOf, MatchFrom, EditsOf, ItemAt, Blocks;
    WindowFacts(f1);
    WindowFacts(f2);
    ghost var rest1, rest2 := f1.rest, f2.rest;
    Search(f1, f2);
    MatchMoves(rest1, rest2);
    ghost var len1, len2 := |f1.win| - 1, |f2.win| - 1;
    ghost var e := Change(rest1[..len1], rest2[..len2]);
    var block := PrintBlock(f1, f2);
    WindowFacts(f1);
    WindowFacts(f2);
    AddEdit(es0, e);
    es := es0 + [e];
    script := script0 + block;
    diffs := diffs0 + 1;
    EditsBlock(rest1, rest2);
    Associate(es0, [e], EditsOf(rest1[len1..], rest2[len2..]));
  }

  /** A match of differing files is not where they start, and its lines are equal. */
  lemma MatchMoves(rest1: seq<string>, rest2: seq<string>)
    requires ItemAt(rest1, 0) != ItemAt(rest2, 0)
    ensures var (p, q) := MatchFrom(rest1, rest2, 0);
            && p <= |rest1| && q <= |rest2| && p + q > 0
            && ItemAt(rest1[p..], 0) == ItemAt(rest2[q..], 0)
            && (rest1 != [] || rest2 != [])
  {
    hide MatchFrom;
    MatchAgrees(rest1, rest2, 0);
  }

  lemma EditsBlock(rest1: seq<string>, rest2: seq<string>)
    requires ItemAt(rest1, 0) != ItemAt(rest2, 0)
    ensures var (p, q) := MatchFrom(rest1, rest2, 0);
            EditsOf(rest1, rest2) == [Change(rest1[..p], rest2[..q])] + EditsOf(rest1[p..], rest2[q..])
  {
    hide MatchFrom;
  }

  lemma EditsSame(rest1: seq<string>, rest2: seq<string>)
    requires rest1 != [] && rest2 != [] && rest1[0] == rest2[0]
    ensures EditsOf(rest1, rest2) == [Same(rest1[0])] + EditsOf(rest1[1..], rest2[1..])
  {
    hide MatchFrom;
  }

  lemma EditsEnd()
    ensures EditsOf([], []) == []
  {
  }

  lemma Associate(a: seq<Edit>, b: seq<Edit>, c: seq<Edit>)
    ensures a + (b + c) == (a + b) + c
  {
  }

  /** The label `equal`: the equal lines leave both windows and the next ones enter. */
  method PassEqual(ghost file1: seq<string>, ghost file2: seq<string>, f1: Window, f2: Window,
                   ghost es0: seq<Edit>, ghost script: seq<string>, ghost diffs: nat)
    returns (ghost es: seq<Edit>)
    requires Between(file1, file2, f1, f2, es0, script, diffs) && f1.win[0] == f2.win[0]
    modifies f1, f2
    ensures Between(file1, file2, f1, f2, es, script, diffs)
    ensures old(f1.win[0].Text?) ==> |f1.rest| < old(|f1.rest|) && |f2.rest| < old(|f2.rest|)
    ensures old(f1.win[0].Eof?) ==> f1.rest == f2.rest == []
  {
    hide Print, IsView, Window.Valid, OldOf, NewOf, EditsOf, Blocks, Block;
    WindowFacts(f1);
    WindowFacts(f2);
    es := es0;
    if f1.rest != [] {
      ghost var e := Same(f1.rest[0]);
      AddEdit(es, e);
      EditsSame(f1.rest, f2.rest);
      Associate(es, [e], EditsOf(f1.rest[1..], f2.rest[1..]));
      es := es + [e];
    }
    f1.Advance();
    f2.Advance();
    f1.Next();
    f2.Next();
  }

  /** diff(): the listing of the edits between the files; the exit status says whether there are any. */
  method Diff(file1: seq<string>, file2: seq<string>) returns (script: seq<string>, diffs: nat)
    ensures script == Print(EditsOf(file1, file2), 0, 0)
    ensures diffs > 0 <==> file1 != file2
  {
    hide Print, IsView, Window.Valid, OldOf, NewOf, EditsOf, Blocks, Block;
    var f1 := new Window(file1);
    var f2 := new Window(file2);
    script, diffs := [], 0;
    ghost var es: seq<Edit> := [];
    NothingOf();
    f1.Next();
    f2.Next();
    while f1.win[0].Text? || f2.win[0].Text?
      invariant fresh(f1) && fresh(f2) && Between(file1, file2, f1, f2, es, script, diffs)
      decreases |f1.rest| + |f2.rest|, if f1.win[0].Text? || f2.win[0].Text? then 1 else 0
    {
      if f1.win[0] != f2.win[0] {
        es, script, diffs := NextBlock(file1, file2, f1, f2, es, script, diffs);
      }
      es := PassEqual(file1, file2, f1, f2, es, script, diffs);
      WindowFacts(f1);
      WindowFacts(f2);
    }
    WindowFacts(f1);
    WindowFacts(f2);
    EditsEnd();
    assert es + [] == es;
    NoBlocks(file1, file2);
  }

  // ---------- What the edits are ----------

  lemma {:induction false} NoBlocks(file1: seq<string>, file2: seq<string>)
    ensures Blocks(EditsOf(file1, file2)) == 0 <==> file1 == file2
    decreases |file1| + |file2|
  {
    hide EditsOf, MatchFrom;
    if file1 == [] && file2 == [] {
      EditsEnd();
    } else if ItemAt(file1, 0) == ItemAt(file2, 0) {
      EditsSame(file1, file2);
      NoBlocks(file1[1..], file2[1..]);
      assert file1 == [file1[0]] + file1[1..] && file2 == [file2[0]] + file2[1..];
    } else {
      EditsBlock(file1, file2);
    }
  }

  /** The edits take the first file to the second, and their blocks are apart and non-empty. */
  lemma {:induction false} EditsConnect(file1: seq<string>, file2: seq<string>)
    ensures OldOf(EditsOf(file1, file2)) == file1 && NewOf(EditsOf(file1, file2)) == file2
    ensures Proper(EditsOf(file1, file2))
    decreases |file1| + |file2|
  {
    hide EditsOf, MatchFrom, OldOf, NewOf;
    if file1 == [] && file2 == [] {
      EditsEnd();
      assert OldOf([]) == [] && NewOf([]) == [] by { NothingOf(); }
    } else if ItemAt(file1, 0) == ItemAt(file2, 0) {
      EditsSame(file1, file2);
      var es := EditsOf(file1[1..], file2[1..]);
      EditsConnect(file1[1..], file2[1..]);
      ConsOf(Same(file1[0]), es);
      ProperCons(Same(file1[0]), es);
    } else {
      EditsBlock(file1, file2);
      MatchMoves(file1, file2);
      var (p, q) := MatchFrom(file1, file2, 0);
      var es := EditsOf(file1[p..], file2[q..]);
      EditsConnect(file1[p..], file2[q..]);
      StartsWithSame(file1[p..], file2[q..]);
      ConsOf(Change(file1[..p], file2[..q]), es);
      ProperCons(Change(file1[..p], file2[..q]), es);
    }
  }

  lemma NothingOf()
    ensures OldOf([]) == [] && NewOf([]) == [] && Print([], 0, 0) == [] && Blocks([]) == 0
  {
  }

  lemma ConsOf(e: Edit, es: seq<Edit>)
    ensures OldOf([e] + es) == OldPart(e) + OldOf(es) && NewOf([e] + es) == NewPart(e) + NewOf(es)
  {
    hide OldPart, NewPart;
    assert ([e] + es)[1..] == es;
  }

  lemma ProperCons(e: Edit, es: seq<Edit>)
    requires Proper(es)
    requires e.Change? ==> (e.del != [] || e.ins != []) && (es != [] ==> es[0].Same?)
    ensures Proper([e] + es)
  {
  }

  lemma StartsWithSame(rest1: seq<string>, rest2: seq<string>)
    requires ItemAt(rest1, 0) == ItemAt(rest2, 0)
    ensures EditsOf(rest1, rest2) != [] ==> EditsOf(rest1, rest2)[0].Same?
  {
    hide MatchFrom;
    if rest1 == [] { EditsEnd(); } else { EditsSame(rest1, rest2); }
  }

  lemma {:induction false} EditsStartAtDifferences(file1: seq<string>, file2: seq<string>)
    ensures StartsAtDifferences(EditsOf(file1, file2), file1, file2)
    decreases |file1| + |file2|
  {
    hide EditsOf, MatchFrom, StartsAtDifferences;
    if file1 == [] && file2 == [] {
      EditsEnd();
      NoStarts(file1, file2);
    } else if ItemAt(file1, 0) == ItemAt(file2, 0) {
      EditsSame(file1, file2);
      EditsStartAtDifferences(file1[1..], file2[1..]);
      assert file1 == [file1[0]] + file1[1..] && file2 == [file2[0]] + file2[1..];
      StartsCons(Same(file1[0]), EditsOf(file1[1..], file2[1..]), file1[1..], file2[1..]);
    } else {
      EditsBlock(file1, file2);
      MatchMoves(file1, file2);
      var (p, q) := MatchFrom(file1, file2, 0);
      EditsStartAtDifferences(file1[p..], file2[q..]);
      assert file1 == file1[..p] + file1[p..] && file2 == file2[..q] + file2[q..];
      StartsCons(Change(file1[..p], file2[..q]), EditsOf(file1[p..], file2[q..]), file1[p..], file2[q..]);
    }
  }

  lemma NoStarts(file1: seq<string>, file2: seq<string>)
    ensures StartsAtDifferences([], file1, file2)
  {
  }

  lemma StartsCons(e: Edit, es: seq<Edit>, rest1: seq<string>, rest2: seq<string>)
    requires StartsAtDifferences(es, rest1, rest2)
    requires e.Change? ==> Differ(OldPart(e) + rest1, 0, NewPart(e) + rest2, 0)
    ensures StartsAtDifferences([e] + es, OldPart(e) + rest1, NewPart(e) + rest2)
  {
    hide OldPart, NewPart;
    var fs := [e] + es;
    forall i | 0 <= i < |fs| && fs[i].Change?
      ensures Differ(OldPart(e) + rest1, |OldOf(fs[..i])|, NewPart(e) + rest2, |NewOf(fs[..i])|)
    {
      if i == 0 {
        assert fs[..0] == [];
      } else {
        assert fs[..i] == [e] + es[..i - 1];
        ConsOf(e, es[..i - 1]);
        assert Differ(rest1, |OldOf(es[..i - 1])|, rest2, |NewOf(es[..i - 1])|);
      }
    }
  }

  // ---------- What a match is ----------

  /** `n` lines agree from `i` and `j` on, the end mark being its own successor. */
  predicate Agree(rest1: seq<string>, i: nat, rest2: seq<string>, j: nat, n: nat)
    decreases n
  {
    n == 0 || (ItemAt(rest1, i) == ItemAt(rest2, j) &&
               Agree(rest1, Min(i + 1, |rest1|), rest2, Min(j + 1, |rest2|), n - 1))
  }

  lemma {:induction false} EqualMeansAgree(rest1: seq<string>, m1: nat, i: nat, rest2: seq<string>, m2: nat, j: nat, n: nat)
    requires i <= |rest1| && j <= |rest2| && EqualN(View(rest1, m1), i, View(rest2, m2), j, n)
    ensures Agree(rest1, i, rest2, j, n)
    decreases n
  {
    if n > 0 { EqualMeansAgree(rest1, m1, Min(i + 1, |rest1|), rest2, m2, Min(j + 1, |rest2|), n - 1); }
  }

  lemma {:induction false} AgreeMeansEqual(rest1: seq<string>, m1: nat, i: nat, rest2: seq<string>, m2: nat, j: nat, n: nat)
    requires i <= |rest1| && j <= |rest2| && i + n <= m1 && j + n <= m2
    requires Agree(rest1, i, rest2, j, n)
    ensures EqualN(View(rest1, m1), i, View(rest2, m2), j, n)
    decreases n
  {
    if n > 0 { AgreeMeansEqual(rest1, m1, Min(i + 1, |rest1|), rest2, m2, Min(j + 1, |rest2|), n - 1); }
  }

  /** A block ends where three lines of both files agree. */
  lemma MatchAgreesOnThree(rest1: seq<string>, rest2: seq<string>, t: nat)
    ensures var m := MatchFrom(rest1, rest2, t); Agree(rest1, m.0, rest2, m.1, 3)
    decreases |rest1| + |rest2| + 1 - t
  {
    hide EqualN, FirstEqual, Agree, MatchFrom;
    if t > |rest1| + |rest2| {
      assert MatchFrom(rest1, rest2, t) == (|rest1|, |rest2|) by { MatchBeyond(rest1, rest2, t); }
      EndsAgreeOnThree(rest1, rest2);
    } else {
      MatchStep(rest1, rest2, t);
      var r, s := Half1(rest1, rest2, t), Half2(rest1, rest2, t);
      if r.Some? {
        EqualMeansAgree(rest1, 3 + t, r.value, rest2, 4 + t, Min(t, |rest2|), 3);
      } else if s.Some? {
        EqualNSymmetric(View(rest2, 4 + t), s.value, View(rest1, 4 + t), Min(t, |rest1|), 3);
        EqualMeansAgree(rest1, 4 + t, Min(t, |rest1|), rest2, 4 + t, s.value, 3);
      } else {
        MatchAgreesOnThree(rest1, rest2, t + 1);
      }
    }
  }

  lemma MatchBeyond(rest1: seq<string>, rest2: seq<string>, t: nat)
    requires t > |rest1| + |rest2|
    ensures MatchFrom(rest1, rest2, t) == (|rest1|, |rest2|)
  {
  }

  lemma EndsAgreeOnThree(rest1: seq<string>, rest2: seq<string>)
    ensures Agree(rest1, |rest1|, rest2, |rest2|, 3)
  {
  }

  /** No block is much longer than it need be: wherever three lines agree, the match
      found lies at most two lines further. */
  lemma {:induction false} MatchIsNear(rest1: seq<string>, rest2: seq<string>, t: nat, i: nat, j: nat)
    requires i <= |rest1| && j <= |rest2| && Agree(rest1, i, rest2, j, 3)
    requires t <= i || t <= j
    ensures var m, d := MatchFrom(rest1, rest2, t), if i < j then j else i;
            m.0 <= d + 2 && m.1 <= d + 2
    decreases |rest1| + |rest2| + 1 - t
  {
    hide EqualN, Agree, MatchFrom;
    MatchStep(rest1, rest2, t);
    var r, s := Half1(rest1, rest2, t), Half2(rest1, rest2, t);
    if r.Some? {
    } else if j == t && i <= t {
      AgreeMeansEqual(rest1, 3 + t, i, rest2, 4 + t, j, 3);
      assert false;
    } else if s.Some? {
      if i == t && j < t {
        AgreeMeansEqual(rest1, 4 + t, i, rest2, 4 + t, j, 3);
        EqualNSymmetric(View(rest1, 4 + t), i, View(rest2, 4 + t), j, 3);
        assert s.value <= j;
      }
    } else if i == t && j < t {
      AgreeMeansEqual(rest1, 4 + t, i, rest2, 4 + t, j, 3);
      EqualNSymmetric(View(rest1, 4 + t), i, View(rest2, 4 + t), j, 3);
      assert false;
    } else {
      MatchIsNear(rest1, rest2, t + 1, i, j);
    }
  }

  // ---------- diff and fix together ----------

  /** For all pairs of files: diff terminates, and fix on its listing prints exactly the new
      file if and only if the listing does not begin with an insertion in front of line 1. */
  method DiffThenFix(file1: seq<string>, file2: seq<string>) returns (script: seq<string>, r: FixResult)
    ensures script == Print(EditsOf(file1, file2), 0, 0)
    ensures r == Done(file2) <==> !BeginsWithInsertionAtZero(script)
    ensures r.out == file2 <==> !BeginsWithInsertionAtZero(script)
  {
    hide BeginsWithInsertionAtZero, Print, FixOf, EditsOf;
    var diffs;
    script, diffs := Diff(file1, file2);
    r := Fix.Fix(file1, script);
    FixUndoesDiff(file1, file2);
  }

  lemma FixUndoesDiff(file1: seq<string>, file2: seq<string>)
    ensures var script := Print(EditsOf(file1, file2), 0, 0);
      && (FixOf(file1, script) == Done(file2) <==> !BeginsWithInsertionAtZero(script))
      && (FixOf(file1, script).out == file2 <==> !BeginsWithInsertionAtZero(script))
  {
    hide BeginsWithInsertionAtZero, Print, FixOf, EditsOf;
    EditsConnect(file1, file2);
    EditsStartAtDifferences(file1, file2);
    FixUndoesPrint(EditsOf(file1, file2), file1, file2);
  }

  /** A line put in front of the only line of a file: fix copies that line before the new one. */
  lemma PrependedLine()
    ensures EditsOf(["x\n"], ["y\n", "x\n"]) == [Change([], ["y\n"]), Same("x\n")]
    ensures FixOf(["x\n"], Print([Change([], ["y\n"]), Same("x\n")], 0, 0)).out != ["y\n", "x\n"]
  {
    hide Print, BeginsWithInsertionAtZero;
    PrependedEdits("x\n", "y\n");
    EditsConnect(["x\n"], ["y\n", "x\n"]);
    PrintAtZero([Change([], ["y\n"]), Same("x\n")], 0, 0);
    FixUndoesDiff(["x\n"], ["y\n", "x\n"]);
  }

  lemma PrependedEdits(x: string, y: string)
    requires x != y
    ensures EditsOf([x], [y, x]) == [Change([], [y]), Same(x)]
  {
    var r1, r2 := [x], [y, x];
    var v1, v2 := View(r1, 4), View(r2, 4);
    ViewCapped(r1, 3);
    ViewCapped(r1, 4);
    assert v1 == [Item.Text(x), Eof] && v2 == [Item.Text(y), Item.Text(x), Eof];
    assert !EqualN(v1, 0, v2, 0, 3) && !EqualN(v1, 1, v2, 0, 3);
    assert FirstEqual(v1, v2, 0, 0) == None;
    assert !EqualN(v2, 0, v1, 0, 3);
    assert EqualN(v2, 2, v1, 1, 2);
    assert EqualN(v2, 1, v1, 0, 3);
    assert FirstEqual(v2, v1, 0, 0) == Some(1);
    hide EqualN, FirstEqual;
    assert MatchFrom(r1, r2, 0) == (0, 1) by { MatchStep(r1, r2, 0); }
    EditsBlock(r1, r2);
    assert r1[0..] == r1 && r2[1..] == [x] && r1[..0] == [] && r2[..1] == [y];
    EditsSame([x], [x]);
    assert [x][1..] == [];
    EditsEnd();
  }
}
