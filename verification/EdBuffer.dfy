/** ed's line buffer: a ring of lines around line0, changed by relinking. */
module EdBuffer {
  import opened Options
  import opened EdMatch

  class Line {
    var glob: bool
    var prev: Line
    var next: Line
    const buff: string

    constructor (buff: string)
      ensures this.buff == buff && !glob && prev == this && next == this
    {
      this.buff := buff;
      glob := false;
      prev, next := this, this;
    }
  }

  // ---------- Rings ----------

  function Succ(i: nat, n: nat): nat { if i + 1 >= n then 0 else i + 1 }

  /** The lines are different, and each is linked with the next, the last with the first. */
  ghost predicate Ring(lines: seq<Line>)
    reads lines`prev, lines`next
  {
    && Different(lines)
    && (forall i :: 0 <= i < |lines| ==> Linked(lines[i], lines[Succ(i, |lines|)]))
  }

  ghost predicate Different(lines: seq<Line>) {
    forall i, j :: 0 <= i < j < |lines| ==> lines[i] != lines[j]
  }

  lemma DifferentMore(lines: seq<Line>, c: nat, line: Line)
    requires Different(lines) && c <= |lines| && line !in lines
    ensures Different(lines[..c] + [line] + lines[c..])
  {
  }

  lemma DifferentLess(lines: seq<Line>, from: nat, to: nat)
    requires Different(lines) && from <= to <= |lines|
    ensures Different(lines[..from] + lines[to..])
  {
  }

  ghost predicate OneLiners(lines: seq<Line>) {
    forall i :: 0 <= i < |lines| ==> '\n' !in lines[i].buff
  }

  /** Each line but the last is linked with the next. */
  ghost predicate Chained(lines: seq<Line>)
    reads lines`prev, lines`next
  {
    forall i :: 0 <= i < |lines| - 1 ==> Linked(lines[i], lines[Succ(i, |lines|)])
  }

  lemma OneLinersMore(lines: seq<Line>, c: nat, block: seq<Line>)
    requires OneLiners(lines) && OneLiners(block) && c <= |lines|
    ensures OneLiners(lines[..c] + block + lines[c..])
  {
  }

  lemma OneLinersLess(lines: seq<Line>, from: nat, to: nat)
    requires OneLiners(lines) && from <= to <= |lines|
    ensures OneLiners(lines[..from] + lines[to..])
  {
  }

  lemma RingAt(lines: seq<Line>, i: nat)
    requires Ring(lines) && i < |lines|
    ensures Linked(lines[i], lines[Succ(i, |lines|)])
  {
  }

  ghost predicate Linked(a: Line, b: Line)
    reads a`next, b`prev
  {
    a.next == b && b.prev == a
  }

  function Texts(lines: seq<Line>): (r: seq<string>)
    ensures |r| == |lines|
  {
    seq(|lines|, i requires 0 <= i < |lines| => lines[i].buff)
  }

  lemma TextsJoin(a: seq<Line>, b: seq<Line>)
    ensures Texts(a + b) == Texts(a) + Texts(b)
  {
  }

  lemma TextsCut(s: seq<Line>, i: nat, j: nat)
    requires i <= j <= |s|
    ensures Texts(s[i..j]) == Texts(s)[i..j]
  {
  }

  /** The lines with those from `from` to `to` moved behind line num, which is none of them. */
  function Moved(c: seq<string>, from: nat, to: nat, num: nat): seq<string>
    requires 1 <= from <= to <= |c| && num <= |c| && !(from <= num <= to)
  {
    if num < from then c[..num] + c[from-1..to] + c[num..from-1] + c[to..]
    else c[..from-1] + c[to..num] + c[from-1..to] + c[num..]
  }

  /** The pieces of a text between its line ends. */
  function Pieces(str: string, piece: string): seq<string> {
    if str == [] then []
    else if str[0] == '\n' then [piece] + Pieces(str[1..], [])
    else Pieces(str[1..], piece + [str[0]])
  }

  class Buffer {
    const line0: Line
    var curln: nat
    var lastln: nat
    var line1: int
    var line2: int
    ghost var ring: seq<Line>

    ghost predicate Whole()
      reads this`ring, this`lastln, ring`prev, ring`next
    {
      |ring| == lastln + 1 && ring[0] == line0 && Ring(ring) && OneLiners(ring)
    }

    ghost predicate Valid()
      reads this`ring, this`lastln, this`curln, ring`prev, ring`next
    {
      Whole() && curln <= lastln
    }

    /** The lines of the text. */
    ghost function Text(): (r: seq<string>)
      reads this`ring
      ensures |r| == if ring == [] then 0 else |ring| - 1
    {
      if ring == [] then [] else Texts(ring[1..])
    }

    lemma RingSize()
      requires Whole()
      ensures |ring| == lastln + 1
    {
    }

    /** set_buf() */
    constructor ()
      ensures Valid() && Text() == [] && curln == 0 && fresh(ring)
    {
      var l := new Line("");
      line0, ring := l, [l];
      curln, lastln, line1, line2 := 0, 0, 0, 0;
    }

    function NextLn(l: nat): nat
      reads this
    {
      if l + 1 > lastln then 0 else l + 1
    }

    function PrevLn(l: nat): nat
      reads this
    {
      if l < 1 then lastln else l - 1
    }

    /** getptr(): forward or backward from line0, whichever is shorter. */
    method GetPtr(num: nat) returns (ptr: Line)
      requires Whole() && num <= lastln
      ensures ptr == ring[num]
    {
      if 2 * num > lastln && num <= lastln {
        ptr := line0.prev;
        RingAt(ring, lastln);
        var j := lastln;
        while j > num
          invariant num <= j <= lastln && ptr == ring[j]
        {
          RingAt(ring, j - 1);
          ptr := ptr.prev;
          j := j - 1;
        }
      } else {
        ptr := line0;
        var j := 0;
        while j < num
          invariant 0 <= j <= num && ptr == ring[j]
        {
          RingAt(ring, j);
          ptr := ptr.next;
          j := j + 1;
        }
      }
    }

    /** gettxt() */
    method GetTxt(num: nat) returns (text: string)
      requires Valid() && 1 <= num <= lastln
      ensures text == Text()[num-1] + "\n"
    {
      var lin := GetPtr(num);
      text := lin.buff + "\n";
    }

    /** The part of ins() that links in one line. */
    method InsertLine(buf: string)
      requires Valid() && '\n' !in buf
      modifies this`curln, this`lastln, this`ring, ring`prev, ring`next
      ensures Valid() && OnlyNew()
      ensures Text() == old(Text()[..curln]) + [buf] + old(Text()[curln..])
      ensures curln == old(curln) + 1 && lastln == old(lastln) + 1
    {
      hide Texts, Ring;
      var line := new Line(buf);
      LinkIn(line);
      TextGrows(old(ring), old(curln), line);
    }

    method LinkIn(line: Line)
      requires Valid() && line !in ring && OneLiners([line])
      modifies this`curln, this`lastln, this`ring, line`prev, line`next, ring`prev, ring`next
      ensures Valid() && ring == old(ring[..curln+1] + [line] + ring[curln+1..])
      ensures curln == old(curln) + 1
    {
      hide OneLiners;
      var cur := GetPtr(curln);
      var nxt := cur.next;
      RingAt(ring, curln);
      ghost var was := ring;
      DifferentMore(was, curln + 1, line);
      OneLinersMore(was, curln + 1, [line]);
      Relink(cur, line, line, nxt);
      Relink(line, nxt, cur, line);
      ring := was[..curln+1] + [line] + was[curln+1..];
      forall i | 0 <= i < |ring| ensures Linked(ring[i], ring[Succ(i, |ring|)]) {
        if i < curln {
          assert old(Linked(was[i], was[Succ(i, |was|)]));
        } else if i > curln + 1 {
          assert old(Linked(was[i-1], was[Succ(i - 1, |was|)]));
        }
      }
      lastln := lastln + 1;
      curln := curln + 1;
    }

    /** No line is in the ring that was not there, unless it is new and not marked. */
    twostate predicate OnlyNew()
      reads this`ring, ring`glob
    {
      forall i :: 0 <= i < |ring| ==> ring[i] in old(ring) || (fresh(ring[i]) && !ring[i].glob)
    }

    /** ins(): every line of the text, behind the current line. */
    method Ins(str: string)
      requires Valid() && str != [] && str[|str|-1] == '\n'
      modifies this`curln, this`lastln, this`ring, ring`prev, ring`next
      ensures Valid() && OnlyNew()
      ensures Text() == old(Text()[..curln]) + Pieces(str, []) + old(Text()[curln..])
      ensures curln == old(curln) + |Pieces(str, [])|
    {
      var p, buf := 0, [];
      ghost var c, cur, done := Text(), curln, [];
      assert str[0..] == str;
      while p < |str|
        invariant 0 <= p <= |str| && Valid() && OnlyNew()
        invariant (p == |str| ==> buf == []) && '\n' !in buf
        invariant Text() == c[..cur] + done + c[cur..] && curln == cur + |done|
        invariant Pieces(str, []) == done + Pieces(str[p..], buf)
      {
        assert str[p..][1..] == str[p+1..];
        if str[p] != '\n' {
          buf := buf + [str[p]];
          p := p + 1;
        } else {
          p := p + 1;
          InsertLine(buf);
          done := done + [buf];
          buf := [];
        }
      }
    }

    /** del() */
    method Del(from0: nat, to: nat)
      requires Valid() && from0 <= to + 1 <= lastln + 1
      modifies this`curln, this`lastln, this`ring, ring`prev, ring`next
      ensures Valid() && OnlyNew()
      ensures var from := if from0 < 1 then 1 else from0;
        Text() == old(Text())[..from-1] + old(Text())[to..] && curln == from - 1
    {
      hide Texts, Ring;
      var from := if from0 < 1 then 1 else from0;
      Unlink(from, to);
      TextShrinks(old(ring), from, to);
      curln := PrevLn(from);
    }

    method Unlink(from: nat, to: nat)
      requires Whole() && 1 <= from <= to + 1 <= lastln + 1
      modifies this`lastln, this`ring, {ring[from-1]}`next, {ring[Succ(to, |ring|)]}`prev
      ensures Whole() && ring == old(ring[..from] + ring[to+1..])
    {
      hide OneLiners;
      var first := GetPtr(PrevLn(from));
      var last := GetPtr(NextLn(to));
      ghost var was := ring;
      DifferentLess(was, from, to + 1);
      OneLinersLess(was, from, to + 1);
      Relink(first, last, first, last);
      ring := was[..from] + was[to+1..];
      forall i | 0 <= i < |ring| ensures Linked(ring[i], ring[Succ(i, |ring|)]) {
        if i < from - 1 {
          assert old(Linked(was[i], was[Succ(i, |was|)]));
        } else if i >= from {
          assert old(Linked(was[i + (to + 1 - from)], was[Succ(i + (to + 1 - from), |was|)]));
        }
      }
      lastln := lastln - (to - from + 1);
    }

    /** The second half of move(): the lines k1 to k2, linked in behind line num. */
    method LinkBlock(k1: Line, k2: Line, num: nat, ghost block: seq<Line>)
      requires Whole() && num <= lastln && block != [] && k1 == block[0] && k2 == block[|block|-1]
      requires Chained(block) && Different(block) && OneLiners(block) && forall l :: l in block ==> l !in ring
      modifies this`ring, ring`prev, ring`next, block`prev, block`next
      ensures ring == old(ring[..num+1]) + block + old(ring[num+1..])
      ensures lastln + |block| + 1 == |ring| && ring[0] == line0 && Ring(ring) && OneLiners(ring)
    {
      hide OneLiners;
      OneLinersMore(ring, num + 1, block);
      var k0 := GetPtr(num);
      var k3 := GetPtr(NextLn(num));
      RingAt(ring, num);
      ghost var was, n := ring, |block|;
      Relink(k0, k1, k2, k3);
      Relink(k2, k3, k0, k1);
      ring := was[..num+1] + block + was[num+1..];
      DifferentBlock(was, num + 1, block);
      assert k1 in block && k2 in block && k0 == was[num] && k3 == was[Succ(num, |was|)];
      forall i | 0 <= i < |was| && i != num ensures Linked(was[i], was[Succ(i, |was|)]) {
        assert old(Linked(was[i], was[Succ(i, |was|)]));
      }
      forall i | 0 <= i < n - 1 ensures Linked(block[i], block[Succ(i, n)]) {
        assert old(Linked(block[i], block[Succ(i, n)]));
        assert block[i] in block && block[i + 1] in block && k0 in was && k3 in was;
      }
      RingJoined(was, num, block);
    }

    /** move() */
    method Move(num0: nat) returns (ok: bool)
      requires Valid() && num0 <= lastln && line2 <= lastln
      modifies this`curln, this`lastln, this`ring, ring`prev, ring`next
      ensures ok <==> !(line1 <= 0 || line2 < line1 || line1 <= num0 <= line2)
      ensures Valid() && OnlyNew() && lastln == old(lastln)
      ensures !ok ==> Text() == old(Text()) && curln == old(curln)
      ensures ok ==> Text() == Moved(old(Text()), line1, line2, num0)
      ensures ok ==> curln == if num0 < line1 then num0 + (line2 - line1 + 1) else num0
    {
      if line1 <= 0 || line2 < line1 || (line1 <= num0 <= line2) { return false; }
      hide Texts, Ring, OneLiners, Moved, Whole, RingMoved;
      RingSize();
      MoveRing(line1, line2, num0);
      Rearranged(old(ring), line1, line2, num0);
      TextMoves(old(ring), line1, line2, num0);
      ok := true;
    }

    method MoveRing(from: nat, to: nat, num0: nat)
      requires Valid() && 1 <= from <= to <= lastln && num0 <= lastln && !(from <= num0 <= to)
      modifies this`curln, this`lastln, this`ring, ring`prev, ring`next
      ensures Valid() && lastln == old(lastln)
      ensures ring == RingMoved(old(ring), from, to, num0)
      ensures curln == if num0 < from then num0 + (to - from + 1) else num0
    {
      hide Ring, Different, OneLiners, Chained;
      var num, n := num0, to - from + 1;
      ghost var was, block := ring, ring[from..to+1];
      var k1, k2 := CutOut(from, to);
      if num > from { num := num - n; }
      curln := num + n;
      LinkBlock(k1, k2, num, block);
      lastln := lastln + n;
    }

    /** The first half of move(): the lines from `from` to `to` are taken out, still linked with each other. */
    method CutOut(from: nat, to: nat) returns (k1: Line, k2: Line)
      requires Whole() && 1 <= from <= to <= lastln
      modifies this`lastln, this`ring, ring`prev, ring`next
      ensures Whole() && ring == old(ring[..from] + ring[to+1..])
      ensures var block := old(ring[from..to+1]);
        && k1 == block[0] && k2 == block[to-from] && Chained(block) && Different(block) && OneLiners(block)
        && forall l :: l in block ==> l !in ring
    {
      hide Ring, Different, OneLiners, Chained;
      k1 := GetPtr(from);
      k2 := GetPtr(to);
      Apart(ring, from, to + 1);
      StillChained(ring, from, to + 1);
      Unlink(from, to);
    }

    /** transfer(): copies of the lines line1 to line2 behind line num, which may be one of them. */
    method Transfer(num: nat) returns (ok: bool)
      requires Valid() && num <= lastln && line2 <= lastln
      modifies this`curln, this`lastln, this`line2, this`ring, ring`prev, ring`next
      ensures ok <==> !(line1 <= 0 || line1 > old(line2))
      ensures Valid() && OnlyNew()
      ensures !ok ==> Text() == old(Text()) && curln == old(curln)
      ensures ok ==> Text() == Copied(old(Text()), num, line1, old(line2) + 1)
      ensures ok ==> curln == num + (old(line2) - line1 + 1)
    {
      if line1 <= 0 || line1 > line2 { return false; }
      hide Texts, Whole, Pieces, Copied;
      RingSize();
      ghost var c, l2 := Text(), line2;
      var mid: int := if num < line2 then num else line2;
      curln := num;
      NoneCopied(c, num, line1);
      var lin, ntrans := CopyFront(num, mid, c);
      ghost var q := lin;
      lin := lin + ntrans;
      line2 := line2 + ntrans;
      CopyBack(num, lin, c, q, l2);
      ok := true;
    }

    /** The first loop of transfer(): the lines before the place they are copied to. */
    method CopyFront(num: nat, mid: int, ghost c: seq<string>) returns (lin: nat, ntrans: nat)
      requires Valid() && 1 <= line1 <= line2 <= |c| && num <= |c| && mid == if num < line2 then num else line2
      requires Text() == Copied(c, num, line1, line1) && curln == num
      modifies this`curln, this`lastln, this`ring, ring`prev, ring`next
      ensures Valid() && OnlyNew()
      ensures lin == (if line1 <= mid then mid + 1 else line1) && ntrans == lin - line1
      ensures Text() == Copied(c, num, line1, lin) && curln == num + ntrans
    {
      hide Texts, Whole, Pieces, Copied;
      lin, ntrans := line1, 0;
      while lin <= mid
        invariant line1 <= lin && (lin <= mid + 1 || lin == line1) && ntrans == lin - line1
        invariant Valid() && OnlyNew()
        invariant Text() == Copied(c, num, line1, lin) && curln == num + ntrans
      {
        RingSize();
        CopiedOne(c, num, line1, lin);
        CopyLine(lin);
        lin := lin + 1;
        ntrans := ntrans + 1;
      }
    }

    /** The second loop of transfer(): the lines behind that place move on with every copy. */
    method CopyBack(num: nat, lin0: nat, ghost c: seq<string>, ghost q0: nat, ghost l2: nat)
      requires Valid() && 1 <= line1 <= q0 <= l2 + 1 && l2 <= |c| && num <= |c| && (q0 > num || q0 == l2 + 1)
      requires lin0 == q0 + (q0 - line1) && line2 == l2 + (q0 - line1)
      requires Text() == Copied(c, num, line1, q0) && curln == num + (q0 - line1)
      modifies this`curln, this`lastln, this`line2, this`ring, ring`prev, ring`next
      ensures Valid() && OnlyNew()
      ensures Text() == Copied(c, num, line1, l2 + 1) && curln == num + (l2 + 1 - line1)
    {
      hide Texts, Whole, Pieces, Copied;
      var lin := lin0;
      ghost var q := q0;
      while lin <= line2
        invariant line1 <= q <= l2 + 1 && (q > num || q == l2 + 1) && lin == q + (q - line1) && line2 == l2 + (q - line1)
        invariant Valid() && OnlyNew()
        invariant Text() == Copied(c, num, line1, q) && curln == num + (q - line1)
        decreases l2 + 1 - q
      {
        RingSize();
        CopiedOne(c, num, line1, q);
        CopyLine(lin);
        line2 := line2 + 1;
        lin := lin + 2;
        q := q + 1;
      }
    }

    /** ins(gettxt(lin)) */
    method CopyLine(lin: nat)
      requires Valid() && 1 <= lin <= lastln
      modifies this`curln, this`lastln, this`ring, ring`prev, ring`next
      ensures Valid() && OnlyNew()
      ensures Text() == old(Text()[..curln]) + [old(Text()[lin-1])] + old(Text()[curln..]) && curln == old(curln) + 1
    {
      OneLine(lin);
      var text := GetTxt(lin);
      OnePiece(Text()[lin-1], []);
      assert [] + Text()[lin-1] == Text()[lin-1];
      Ins(text);
    }

    lemma OneLine(lin: nat)
      requires Valid() && 1 <= lin <= lastln
      ensures '\n' !in Text()[lin-1]
    {
      assert Text()[lin-1] == ring[lin].buff;
    }

    // ---------- Global commands ----------

    /** The lines marked, line0 left aside. */
    ghost function Marked(): set<Line>
      reads this`ring, ring`glob
    {
      set i | 1 <= i < |ring| && ring[i].glob :: ring[i]
    }

    /** Is line num of the text, which is `text`, one that g (or with `invert` v) is to mark? */
    ghost predicate Wanted(num: nat, text: string, pat: seq<Token>, invert: bool)
      reads this`line1, this`line2
      requires WellFormed(pat)
    {
      line1 <= num <= line2 && (Found(text + "\n", pat) != invert)
    }

    /** ckglob(): marks the lines of the range that the pattern is found in, or with `invert` the others of the range. */
    method CkGlob(pat: seq<Token>, invert: bool)
      requires Valid() && WellFormed(pat)
      modifies ring`glob
      ensures Valid()
      ensures forall num :: 1 <= num <= lastln ==> (ring[num].glob <==> Wanted(num, Text()[num-1], pat, invert))
    {
      hide Wanted, Found, WellFormed, OneLiners;
      RingSize();
      var ptr := GetPtr(if lastln == 0 then 0 else 1);
      var num := 1;
      while num <= lastln
        invariant 1 <= num <= lastln + 1 && ptr == ring[if num <= lastln then num else 0]
        invariant forall i :: 1 <= i < num ==> (ring[i].glob <==> Wanted(i, ring[i].buff, pat, invert))
      {
        RingAt(ring, num);
        MarkLine(ptr, num, pat, invert);
        ptr := ptr.next;
        num := num + 1;
      }
    }

    method MarkLine(ptr: Line, num: nat, pat: seq<Token>, invert: bool)
      requires WellFormed(pat)
      modifies ptr`glob
      ensures ptr.glob <==> Wanted(num, ptr.buff, pat, invert)
    {
      ptr.glob := false;
      if line1 <= num <= line2 {
        var lin := ptr.buff + "\n";
        var r := Matchs(lin, pat, false);
        FoundIs(lin, pat, r.Some?);
        if r.Some? {
          if !invert { ptr.glob := true; }
        } else {
          if invert { ptr.glob := true; }
        }
      }
    }

    /** docmd() for one change of the buffer; its addresses are checked first. */
    method Change(e: Edit) returns (ok: bool)
      requires Valid()
      modifies this, ring`prev, ring`next
      ensures Valid() && OnlyNew()
    {
      hide Pieces, Texts, Ring, OneLiners, Moved, Copied;
      match e {
        case Insert(at, str) =>
          if at > lastln || str == [] || str[|str|-1] != '\n' { return false; }
          curln := at;
          Ins(str);
          ok := true;
        case Delete(from, to) =>
          if from < 1 || from > to || to > lastln { return false; }
          Del(from, to);
          ok := true;
        case MoveTo(from, to, num) =>
          if num > lastln || to > lastln { return false; }
          line1, line2 := from, to;
          ok := Move(num);
        case CopyTo(from, to, num) =>
          if num > lastln || to > lastln { return false; }
          line1, line2 := from, to;
          ok := Transfer(num);
      }
    }

    /** The command after g: any changes of the buffer. */
    method Command() returns (ok: bool)
      requires Valid()
      modifies this, ring`prev, ring`next
      ensures Valid() && OnlyNew()
    {
      hide Whole;
      var edits: seq<Edit> := *;
      ok := true;
      var i := 0;
      while i < |edits| && ok
        invariant 0 <= i <= |edits| && Valid() && OnlyNew()
      {
        ok := Change(edits[i]);
        i := i + 1;
      }
    }

    /** doglob(): whatever the command does, every round has one marked line less, so there are no more rounds than marks. */
    method DoGlob() returns (ok: bool, rounds: nat)
      requires Valid()
      modifies this, ring
      ensures Valid() && rounds <= |old(Marked())|
      ensures ok ==> Marked() == {}
    {
      hide Whole;
      ok, rounds := true, 0;
      while ok
        invariant Valid() && rounds + |Marked()| <= |old(Marked())|
        invariant forall i :: 0 <= i < |ring| ==> ring[i] in old(ring) || fresh(ring[i])
        decreases |Marked()|, ok
      {
        var found, lin := FirstMarked();
        if !found { return; }
        ok := Round(lin);
        rounds := rounds + 1;
      }
    }

    /** The scan of doglob() for a marked line. */
    method FirstMarked() returns (found: bool, lin: nat)
      requires Valid()
      ensures found ==> 1 <= lin <= lastln && |ring| == lastln + 1 && ring[lin].glob
      ensures !found ==> Marked() == {}
    {
      hide OneLiners, Different;
      RingSize();
      var ptr := GetPtr(if lastln == 0 then 0 else 1);
      lin := 1;
      while lin <= lastln
        invariant 1 <= lin <= lastln + 1 && ptr == ring[if lin <= lastln then lin else 0]
        invariant forall i :: 1 <= i < lin ==> !ring[i].glob
      {
        if ptr.glob { return true, lin; }
        RingAt(ring, lin);
        ptr := ptr.next;
        lin := lin + 1;
      }
      found := false;
    }

    /** One round of doglob(): the mark is taken off, then the command runs. */
    method Round(lin: nat) returns (ok: bool)
      requires Valid() && 1 <= lin <= lastln && |ring| == lastln + 1 && ring[lin].glob
      modifies this, ring
      ensures Valid() && |Marked()| < |old(Marked())|
      ensures forall i :: 0 <= i < |ring| ==> ring[i] in old(ring) || fresh(ring[i])
    {
      ghost var before := Marked();
      var ptr := GetPtr(lin);
      ptr.glob := false;
      Unmarked(before, lin);
      curln := lin;
      ghost var m, was := Marked(), ring;
      hide Ring, OneLiners;
      ok := Command();
      forall l | l in Marked() ensures l in m {
        var i :| 1 <= i < |ring| && ring[i].glob && ring[i] == l;
        NotLine0(i);
        assert l in was && l != was[0];
        var j :| 0 <= j < |was| && was[j] == l;
      }
      Fewer(Marked(), m);
    }

    lemma Unmarked(before: set<Line>, lin: nat)
      requires Whole() && 1 <= lin <= lastln && !ring[lin].glob && ring[lin] in before
      requires forall i :: 1 <= i <= lastln && i != lin ==> (ring[i] in before <==> ring[i].glob)
      requires forall l :: l in before ==> exists i :: 1 <= i <= lastln && ring[i] == l
      ensures |Marked()| < |before|
    {
      assert Marked() == before - {ring[lin]};
    }

    lemma NotLine0(i: nat)
      requires Whole() && 1 <= i < |ring|
      ensures ring[i] != ring[0] && ring[0] == line0
    {
    }
  }

  lemma Fewer(a: set<Line>, b: set<Line>)
    requires a <= b
    ensures |a| <= |b|
  {
    if !(b <= a) {
      assert b == a + (b - a);
    } else {
      assert a == b;
    }
  }

  /** Changes that commands make to the buffer. */
  datatype Edit = Insert(at: nat, str: string) | Delete(from: nat, to: nat) | MoveTo(from: nat, to: nat, num: nat) | CopyTo(from: nat, to: nat, num: nat)

  /** The pattern matches some stretch of the line. */
  ghost predicate Found(line: string, pat: seq<Token>) { pat != [] && exists p, j :: 0 <= p < |line| && Matches(line, p, pat, 0, j) }

  lemma FoundIs(line: string, pat: seq<Token>, found: bool)
    requires found ==> exists p, e :: FirstLongest(line, pat, p, e)
    requires !found ==> pat == [] || forall p, j :: 0 <= p < |line| ==> !Matches(line, p, pat, 0, j)
    ensures found <==> Found(line, pat)
  {
    if found {
      var p, e :| FirstLongest(line, pat, p, e);
      LongestMatches(line, p, pat, 0, e);
    } else {
      assert pat == [] || forall p, j :: 0 <= p < |line| ==> !Matches(line, p, pat, 0, j);
    }
  }

  lemma {:induction false} OnePiece(t: string, piece: string)
    requires '\n' !in t
    ensures Pieces(t + "\n", piece) == [piece + t]
  {
    if t == [] {
      assert (t + "\n")[1..] == [];
      assert piece + t == piece;
    } else {
      assert (t + "\n")[1..] == t[1..] + "\n";
      OnePiece(t[1..], piece + [t[0]]);
      assert piece + [t[0]] + t[1..] == piece + t;
    }
  }

  /** The lines line1 to q-1 of a text, copied behind line num. */
  function Copied(c: seq<string>, num: nat, line1: nat, q: nat): (r: seq<string>)
    requires num <= |c| && 1 <= line1 <= q <= |c| + 1
    ensures |r| == |c| + (q - line1)
  {
    c[..num] + c[line1-1..q-1] + c[num..]
  }

  lemma NoneCopied(c: seq<string>, num: nat, line1: nat)
    requires num <= |c| && 1 <= line1 <= |c| + 1
    ensures Copied(c, num, line1, line1) == c
  {
  }

  /** One more line copied: wherever its original stands by now, it is line q of the text there was. */
  lemma CopiedOne(c: seq<string>, num: nat, line1: nat, q: nat)
    requires num <= |c| && 1 <= line1 <= q <= |c|
    ensures var now, at := Copied(c, num, line1, q), num + (q - line1);
      && now[..at] + [c[q-1]] + now[at..] == Copied(c, num, line1, q + 1)
      && (q <= num ==> now[q-1] == c[q-1]) && (q > num ==> now[q-1 + (q - line1)] == c[q-1])
  {
    assert c[line1-1..q] == c[line1-1..q-1] + [c[q-1]];
  }

  /** The ring after a move. */
  ghost function RingMoved(ring: seq<Line>, from: nat, to: nat, num: nat): seq<Line>
    requires 1 <= from <= to < |ring| && num < |ring| && !(from <= num <= to)
  {
    var rest, block := ring[..from] + ring[to+1..], ring[from..to+1];
    var c := if num < from then num + 1 else num - (to - from);
    rest[..c] + block + rest[c..]
  }

  lemma Rearranged(ring: seq<Line>, from: nat, to: nat, num: nat)
    requires 1 <= from <= to < |ring| && num < |ring| && !(from <= num <= to)
    ensures var after := RingMoved(ring, from, to, num);
      |after| == |ring| && forall i :: 0 <= i < |after| ==> after[i] in ring
  {
    var rest, block, after := ring[..from] + ring[to+1..], ring[from..to+1], RingMoved(ring, from, to, num);
    var c := if num < from then num + 1 else num - (to - from);
    forall i | 0 <= i < |rest| ensures rest[i] in ring { assert rest[i] == ring[if i < from then i else i + (to + 1 - from)]; }
    forall i | 0 <= i < |after| ensures after[i] in ring {
      if i < c { assert after[i] == rest[i]; }
      else if i < c + |block| { assert after[i] == ring[from + (i - c)]; }
      else { assert after[i] == rest[i - |block|]; }
    }
  }

  lemma RingJoined(was: seq<Line>, num: nat, block: seq<Line>)
    requires num < |was| && block != [] && Different(was[..num+1] + block + was[num+1..])
    requires forall i :: 0 <= i < |was| && i != num ==> Linked(was[i], was[Succ(i, |was|)])
    requires forall i :: 0 <= i < |block| - 1 ==> Linked(block[i], block[Succ(i, |block|)])
    requires Linked(was[num], block[0]) && Linked(block[|block|-1], was[Succ(num, |was|)])
    ensures Ring(was[..num+1] + block + was[num+1..])
  {
    hide Different, Linked;
    var ring, n := was[..num+1] + block + was[num+1..], |block|;
    forall i | 0 <= i < |ring| ensures Linked(ring[i], ring[Succ(i, |ring|)]) {
      if i < num {
        assert Linked(was[i], was[Succ(i, |was|)]);
      } else if num < i < num + n {
        assert Linked(block[i - num - 1], block[Succ(i - num - 1, n)]);
      } else if i > num + n {
        assert Linked(was[i - n], was[Succ(i - n, |was|)]);
      }
    }
  }

  lemma DifferentBlock(lines: seq<Line>, c: nat, block: seq<Line>)
    requires Different(lines) && c <= |lines| && Different(block) && forall l :: l in block ==> l !in lines
    ensures Different(lines[..c] + block + lines[c..])
  {
    var all, n := lines[..c] + block + lines[c..], |block|;
    forall i, j | 0 <= i < j < |all| ensures all[i] != all[j] {
      assert i < c ==> all[i] == lines[i];
      assert c <= i < c + n ==> all[i] == block[i - c] && block[i - c] in block;
      assert i >= c + n ==> all[i] == lines[i - n];
      assert j < c ==> all[j] == lines[j];
      assert c <= j < c + n ==> all[j] == block[j - c] && block[j - c] in block;
      assert j >= c + n ==> all[j] == lines[j - n];
    }
  }

  lemma StillChained(lines: seq<Line>, from: nat, to: nat)
    requires Ring(lines) && from <= to <= |lines|
    ensures Chained(lines[from..to])
  {
    var block := lines[from..to];
    forall i | 0 <= i < |block| - 1 ensures Linked(block[i], block[Succ(i, |block|)]) { RingAt(lines, from + i); }
  }

  lemma Apart(lines: seq<Line>, from: nat, to: nat)
    requires 1 <= from <= to <= |lines| && Ring(lines) && OneLiners(lines)
    ensures Different(lines[from..to]) && OneLiners(lines[from..to])
    ensures forall l :: l in lines[from..to] ==> l !in lines[..from] + lines[to..]
    ensures lines[from-1] !in lines[from..to] && lines[Succ(to - 1, |lines|)] !in lines[from..to]
  {
  }

  lemma TextMoves(ring: seq<Line>, line1: nat, line2: nat, num: nat)
    requires 1 <= line1 <= line2 < |ring| && num < |ring| && !(line1 <= num <= line2)
    ensures |RingMoved(ring, line1, line2, num)| == |ring|
    ensures Texts(RingMoved(ring, line1, line2, num)[1..]) == Moved(Texts(ring[1..]), line1, line2, num)
  {
    hide Texts;
    if num < line1 { TextMovesUp(ring, line1, line2, num); } else { TextMovesDown(ring, line1, line2, num); }
  }

  lemma TextMovesUp(ring: seq<Line>, line1: nat, line2: nat, num: nat)
    requires 1 <= line1 <= line2 < |ring| && num < line1
    ensures var rest, block := ring[..line1] + ring[line2+1..], ring[line1..line2+1];
      Texts((rest[..num+1] + block + rest[num+1..])[1..]) == Moved(Texts(ring[1..]), line1, line2, num)
  {
    hide Texts;
    var rest, block, r := ring[..line1] + ring[line2+1..], ring[line1..line2+1], ring[1..];
    RestUp(ring, line1, line2, num);
    Shifted(ring, line1, line2 + 1);
    WithoutHead(ring[..num+1], block, r[num..line1-1] + r[line2..]);
    assert ring[..num+1][1..] == r[..num];
    assert r[..num] + block + (r[num..line1-1] + r[line2..]) == r[..num] + block + r[num..line1-1] + r[line2..];
    TextsOfFour(r[..num], block, r[num..line1-1], r[line2..]);
    AllCuts(r, line1, line2, num);
  }

  lemma RestUp(ring: seq<Line>, line1: nat, line2: nat, num: nat)
    requires 1 <= line1 <= line2 < |ring| && num < line1
    ensures var rest, r := ring[..line1] + ring[line2+1..], ring[1..];
      rest[..num+1] == ring[..num+1] && rest[num+1..] == r[num..line1-1] + r[line2..]
  {
    Shifted(ring, num + 1, line1);
    Shifted(ring, line2 + 1, |ring|);
  }

  lemma TextMovesDown(ring: seq<Line>, line1: nat, line2: nat, num: nat)
    requires 1 <= line1 <= line2 < num < |ring|
    ensures var n := line2 - line1 + 1;
      var rest, block := ring[..line1] + ring[line2+1..], ring[line1..line2+1];
      Texts((rest[..num-n+1] + block + rest[num-n+1..])[1..]) == Moved(Texts(ring[1..]), line1, line2, num)
  {
    hide Texts;
    var n, block, r := line2 - line1 + 1, ring[line1..line2+1], ring[1..];
    RestDown(ring, line1, line2, num);
    Shifted(ring, line1, line2 + 1);
    WithoutHead(ring[..line1] + r[line2..num], block, r[num..]);
    assert (ring[..line1] + r[line2..num])[1..] == r[..line1-1] + r[line2..num];
    TextsOfFour(r[..line1-1], r[line2..num], block, r[num..]);
    AllCuts(r, line1, line2, num);
  }

  lemma RestDown(ring: seq<Line>, line1: nat, line2: nat, num: nat)
    requires 1 <= line1 <= line2 < num < |ring|
    ensures var n := line2 - line1 + 1; var rest, r := ring[..line1] + ring[line2+1..], ring[1..];
      rest[..num-n+1] == ring[..line1] + r[line2..num] && rest[num-n+1..] == r[num..]
  {
    Shifted(ring, line2 + 1, num + 1);
    Shifted(ring, num + 1, |ring|);
  }

  lemma AllCuts(r: seq<Line>, line1: nat, line2: nat, num: nat)
    requires 1 <= line1 <= line2 <= |r| && num <= |r|
    ensures Texts(r[..num]) == Texts(r)[..num] && Texts(r[num..]) == Texts(r)[num..]
    ensures Texts(r[line1-1..line2]) == Texts(r)[line1-1..line2] && Texts(r[line2..]) == Texts(r)[line2..]
    ensures Texts(r[..line1-1]) == Texts(r)[..line1-1]
    ensures num < line1 ==> Texts(r[num..line1-1]) == Texts(r)[num..line1-1]
    ensures num > line2 ==> Texts(r[line2..num]) == Texts(r)[line2..num]
  {
    hide Texts;
    TextsTake(r, num);
    TextsDrop(r, num);
    TextsTake(r, line1 - 1);
    TextsDrop(r, line2);
    TextsCut(r, line1 - 1, line2);
    if num < line1 { TextsCut(r, num, line1 - 1); }
    if num > line2 { TextsCut(r, line2, num); }
  }

  lemma TextsTake(s: seq<Line>, n: nat)
    requires n <= |s|
    ensures Texts(s[..n]) == Texts(s)[..n]
  {
  }

  lemma TextsDrop(s: seq<Line>, n: nat)
    requires n <= |s|
    ensures Texts(s[n..]) == Texts(s)[n..]
  {
  }

  lemma WithoutHead(a: seq<Line>, b: seq<Line>, c: seq<Line>)
    requires a != []
    ensures (a + b + c)[1..] == a[1..] + b + c
  {
  }

  lemma Shifted(s: seq<Line>, a: nat, b: nat)
    requires 1 <= a <= b <= |s|
    ensures s[a..b] == s[1..][a-1..b-1]
  {
    forall i | 0 <= i < b - a ensures s[a..b][i] == s[1..][a-1..b-1][i] { }
  }

  lemma TextsOfFour(a: seq<Line>, b: seq<Line>, c: seq<Line>, d: seq<Line>)
    ensures Texts(a + b + c + d) == Texts(a) + Texts(b) + Texts(c) + Texts(d)
  {
    hide Texts;
    TextsJoin(a, b);
    TextsJoin(a + b, c);
    TextsJoin(a + b + c, d);
  }

  lemma TextShrinks(ring: seq<Line>, from: nat, to: nat)
    requires 1 <= from <= to + 1 <= |ring|
    ensures Texts((ring[..from] + ring[to+1..])[1..]) == Texts(ring[1..])[..from-1] + Texts(ring[1..])[to..]
  {
  }

  lemma TextGrows(ring: seq<Line>, c: nat, line: Line)
    requires c < |ring|
    ensures Texts((ring[..c+1] + [line] + ring[c+1..])[1..]) == Texts(ring[1..])[..c] + [line.buff] + Texts(ring[1..])[c..]
  {
  }

  /** relink() */
  method Relink(a: Line, x: Line, y: Line, b: Line)
    modifies x`prev, y`next
    ensures x.prev == a && y.next == b
  {
    x.prev := a;
    y.next := b;
  }
}
