/** ed's pattern matcher: closures are matched greedily and given back one character at a time. */
module EdMatch {
  import opened Options

  datatype Token =
    | LitChar(lchar: char)
    | Bol
    | Any
    | Eol
    | Class(members: set<char>)
    | NegClass(members: set<char>)
    | Closure

  /** Tokens that match exactly one character. */
  predicate Single(t: Token) { t.LitChar? || t.Any? || t.Class? || t.NegClass? }

  /** Every closure stands in front of the element it repeats. */
  predicate WellFormed(pat: seq<Token>) {
    pat == [] ||
    (if pat[0].Closure? then |pat| >= 2 && Single(pat[1]) && WellFormed(pat[2..]) else WellFormed(pat[1..]))
  }

  // ---------- The language of a pattern ----------

  predicate Takes(t: Token, c: char) {
    match t
    case LitChar(l) => c == l
    case Any => c != '\n'
    case Class(members) => c in members
    case NegClass(members) => c !in members
    case _ => false
  }

  /** All characters from i to k are taken by t. */
  predicate AllTaken(line: string, i: nat, k: nat, t: Token)
    requires k <= |line|
  {
    forall j :: i <= j < k ==> Takes(t, line[j])
  }

  /** line[i..j] is matched by the pattern, where `boln` is the beginning of the line. */
  ghost predicate Matches(line: string, i: nat, pat: seq<Token>, boln: nat, j: nat)
    decreases |pat|
  {
    if pat == [] then i == j <= |line|
    else if pat[0].Closure? && |pat| >= 2 then
      exists k :: i <= k <= |line| && AllTaken(line, i, k, pat[1]) && Matches(line, k, pat[2..], boln, j)
    else if i >= |line| then false
    else if pat[0].Bol? then i == boln && Matches(line, i, pat[1..], boln, j)
    else if pat[0].Eol? then line[i] == '\n' && Matches(line, i, pat[1..], boln, j)
    else Takes(pat[0], line[i]) && Matches(line, i + 1, pat[1..], boln, j)
  }

  /** The match that ed takes: each closure has the longest stretch from which the rest of the pattern matches anything. */
  ghost predicate Longest(line: string, i: nat, pat: seq<Token>, boln: nat, r: nat)
    decreases |pat|
  {
    if pat == [] then i == r <= |line|
    else if pat[0].Closure? && |pat| >= 2 then
      exists k :: i <= k <= |line| && AllTaken(line, i, k, pat[1]) && Longest(line, k, pat[2..], boln, r) && NoneBeyond(line, i, k, pat, boln)
    else if i >= |line| then false
    else if pat[0].Bol? then i == boln && Longest(line, i, pat[1..], boln, r)
    else if pat[0].Eol? then line[i] == '\n' && Longest(line, i, pat[1..], boln, r)
    else Takes(pat[0], line[i]) && Longest(line, i + 1, pat[1..], boln, r)
  }

  /** From the end of no stretch longer than up to k does the rest of the pattern match. */
  ghost predicate NoneBeyond(line: string, i: nat, k: nat, pat: seq<Token>, boln: nat)
    requires |pat| >= 2
  {
    forall m, j :: k < m <= |line| && AllTaken(line, i, m, pat[1]) ==> !Matches(line, m, pat[2..], boln, j)
  }

  lemma {:induction false} LongestMatches(line: string, i: nat, pat: seq<Token>, boln: nat, r: nat)
    requires Longest(line, i, pat, boln, r)
    ensures Matches(line, i, pat, boln, r)
    decreases |pat|
  {
    if pat == [] {
    } else if pat[0].Closure? && |pat| >= 2 {
      var k :| i <= k <= |line| && AllTaken(line, i, k, pat[1]) && Longest(line, k, pat[2..], boln, r);
      LongestMatches(line, k, pat[2..], boln, r);
    } else {
      LongestMatches(line, if pat[0].Bol? || pat[0].Eol? then i else i + 1, pat[1..], boln, r);
    }
  }

  /** There is only one such match. */
  lemma {:induction false} OneLongest(line: string, i: nat, pat: seq<Token>, boln: nat, r: nat, r': nat)
    requires Longest(line, i, pat, boln, r) && Longest(line, i, pat, boln, r')
    ensures r == r'
    decreases |pat|
  {
    if pat == [] {
    } else if pat[0].Closure? && |pat| >= 2 {
      var k :| i <= k <= |line| && AllTaken(line, i, k, pat[1]) && Longest(line, k, pat[2..], boln, r) && NoneBeyond(line, i, k, pat, boln);
      var k' :| i <= k' <= |line| && AllTaken(line, i, k', pat[1]) && Longest(line, k', pat[2..], boln, r') && NoneBeyond(line, i, k', pat, boln);
      LongestMatches(line, k, pat[2..], boln, r);
      LongestMatches(line, k', pat[2..], boln, r');
      OneLongest(line, k, pat[2..], boln, r, r');
    } else {
      OneLongest(line, if pat[0].Bol? || pat[0].Eol? then i else i + 1, pat[1..], boln, r, r');
    }
  }

  // ---------- The ends of the closures ----------

  /** line[i..j] is matched with the closures, one after the other, taking what goes up to `ends`. */
  ghost predicate Parses(line: string, i: nat, pat: seq<Token>, boln: nat, ends: seq<nat>, j: nat)
    decreases |pat|
  {
    if pat == [] then ends == [] && i == j <= |line|
    else if pat[0].Closure? && |pat| >= 2 then
      ends != [] && i <= ends[0] <= |line| && AllTaken(line, i, ends[0], pat[1]) && Parses(line, ends[0], pat[2..], boln, ends[1..], j)
    else if i >= |line| then false
    else if pat[0].Bol? then i == boln && Parses(line, i, pat[1..], boln, ends, j)
    else if pat[0].Eol? then line[i] == '\n' && Parses(line, i, pat[1..], boln, ends, j)
    else Takes(pat[0], line[i]) && Parses(line, i + 1, pat[1..], boln, ends, j)
  }

  /** The first difference is in favour of a. */
  predicate AtLeast(a: seq<nat>, b: seq<nat>) {
    |a| == |b| && (a == [] || a[0] > b[0] || (a[0] == b[0] && AtLeast(a[1..], b[1..])))
  }

  lemma {:induction false} ParsesMatches(line: string, i: nat, pat: seq<Token>, boln: nat, ends: seq<nat>, j: nat)
    requires Parses(line, i, pat, boln, ends, j)
    ensures Matches(line, i, pat, boln, j)
    decreases |pat|
  {
    if pat == [] {
    } else if pat[0].Closure? && |pat| >= 2 {
      ParsesMatches(line, ends[0], pat[2..], boln, ends[1..], j);
    } else {
      ParsesMatches(line, if pat[0].Bol? || pat[0].Eol? then i else i + 1, pat[1..], boln, ends, j);
    }
  }

  lemma {:induction false} SameCount(line: string, i: nat, i': nat, pat: seq<Token>, boln: nat, ends: seq<nat>, j: nat, ends': seq<nat>, j': nat)
    requires Parses(line, i, pat, boln, ends, j) && Parses(line, i', pat, boln, ends', j')
    ensures |ends| == |ends'|
    decreases |pat|
  {
    if pat == [] {
    } else if pat[0].Closure? && |pat| >= 2 {
      SameCount(line, ends[0], ends'[0], pat[2..], boln, ends[1..], j, ends'[1..], j');
    } else {
      var d := if pat[0].Bol? || pat[0].Eol? then 0 else 1;
      SameCount(line, i + d, i' + d, pat[1..], boln, ends, j, ends', j');
    }
  }

  /** Of all the ways to match, ed takes the one whose closures end last, the first of them first. */
  lemma {:induction false} LastEnds(line: string, i: nat, pat: seq<Token>, boln: nat, r: nat) returns (ends: seq<nat>)
    requires Longest(line, i, pat, boln, r)
    ensures Parses(line, i, pat, boln, ends, r)
    ensures forall ends', j :: Parses(line, i, pat, boln, ends', j) ==> AtLeast(ends, ends')
    decreases |pat|
  {
    if pat == [] {
      ends := [];
    } else if pat[0].Closure? && |pat| >= 2 {
      var k :| i <= k <= |line| && AllTaken(line, i, k, pat[1]) && Longest(line, k, pat[2..], boln, r) && NoneBeyond(line, i, k, pat, boln);
      var rest := LastEnds(line, k, pat[2..], boln, r);
      ends := [k] + rest;
      forall ends', j | Parses(line, i, pat, boln, ends', j) ensures AtLeast(ends, ends') {
        ParsesMatches(line, ends'[0], pat[2..], boln, ends'[1..], j);
        SameCount(line, k, ends'[0], pat[2..], boln, rest, r, ends'[1..], j);
      }
    } else {
      ends := LastEnds(line, if pat[0].Bol? || pat[0].Eol? then i else i + 1, pat[1..], boln, r);
    }
  }

  // ---------- What the matcher finds ----------

  /** omatch(): how far one element advances, or None. */
  function Step(line: string, i: nat, t: Token, boln: nat): Option<nat> {
    if i >= |line| then None
    else if t.Bol? then (if i == boln then Some(0) else None)
    else if t.Eol? then (if line[i] == '\n' then Some(0) else None)
    else if Takes(t, line[i]) then Some(1) else None
  }

  /** The end of the longest stretch from i on whose characters are all taken by t. */
  function RunEnd(line: string, i: nat, t: Token): (r: nat)
    requires i <= |line|
    ensures i <= r <= |line| && AllTaken(line, i, r, t) && (r < |line| ==> !Takes(t, line[r]))
    decreases |line| - i
  {
    if i < |line| && Takes(t, line[i]) then RunEnd(line, i + 1, t) else i
  }

  /** The end of the match found at i. */
  function Greedy(line: string, i: nat, pat: seq<Token>, boln: nat): (r: Option<nat>)
    requires i <= |line| && WellFormed(pat)
    ensures r.Some? ==> i <= r.value <= |line|
    decreases |pat|, 0
  {
    if pat == [] then Some(i)
    else if pat[0].Closure? then GiveBack(line, i, RunEnd(line, i, pat[1]), pat[2..], boln)
    else
      match Step(line, i, pat[0], boln)
      case None => None
      case Some(n) => Greedy(line, i + n, pat[1..], boln)
  }

  /** The rest of a pattern tried at `to`, and at every place before it back to `from`. */
  function GiveBack(line: string, from: nat, to: nat, pat: seq<Token>, boln: nat): (r: Option<nat>)
    requires from <= to <= |line| && WellFormed(pat)
    ensures r.Some? ==> from <= r.value <= |line|
    decreases |pat|, 1, to
  {
    var r := Greedy(line, to, pat, boln);
    if r.Some? || to == from then r else GiveBack(line, from, to - 1, pat, boln)
  }

  /** What is found is in the language, and something is found whenever there is anything. */
  lemma {:induction false} GreedyIsComplete(line: string, i: nat, pat: seq<Token>, boln: nat)
    requires i <= |line| && WellFormed(pat)
    ensures var r := Greedy(line, i, pat, boln);
      && (r.Some? ==> Matches(line, i, pat, boln, r.value))
      && (r.None? ==> forall j :: !Matches(line, i, pat, boln, j))
    decreases |pat|, 0
  {
    if pat == [] {
    } else if pat[0].Closure? {
      var end := RunEnd(line, i, pat[1]);
      GiveBackIsComplete(line, i, end, pat[2..], boln);
      var r := GiveBack(line, i, end, pat[2..], boln);
      if r.Some? {
        var k :| i <= k <= end && Matches(line, k, pat[2..], boln, r.value);
        assert AllTaken(line, i, k, pat[1]);
      } else {
        forall j ensures !Matches(line, i, pat, boln, j) {
          forall k | i <= k <= |line| && AllTaken(line, i, k, pat[1]) ensures !Matches(line, k, pat[2..], boln, j) {
            RunIsLongest(line, i, k, pat[1]);
          }
        }
      }
    } else {
      match Step(line, i, pat[0], boln)
      case None =>
      case Some(n) => GreedyIsComplete(line, i + n, pat[1..], boln);
    }
  }

  lemma {:induction false} RunIsLongest(line: string, i: nat, k: nat, t: Token)
    requires i <= k <= |line| && AllTaken(line, i, k, t)
    ensures k <= RunEnd(line, i, t)
    decreases k - i
  {
    if i < k { RunIsLongest(line, i + 1, k, t); }
  }

  lemma {:induction false} GiveBackIsComplete(line: string, from: nat, to: nat, pat: seq<Token>, boln: nat)
    requires from <= to <= |line| && WellFormed(pat)
    ensures var r := GiveBack(line, from, to, pat, boln);
      && (r.Some? ==> exists k :: from <= k <= to && Matches(line, k, pat, boln, r.value))
      && (r.None? ==> forall k, j :: from <= k <= to ==> !Matches(line, k, pat, boln, j))
    decreases |pat|, 1, to
  {
    GreedyIsComplete(line, to, pat, boln);
    if Greedy(line, to, pat, boln).None? && to > from { GiveBackIsComplete(line, from, to - 1, pat, boln); }
  }

  /** Every closure takes as much as it can. */
  lemma {:induction false} GreedyIsLongest(line: string, i: nat, pat: seq<Token>, boln: nat)
    requires i <= |line| && WellFormed(pat) && Greedy(line, i, pat, boln).Some?
    ensures Longest(line, i, pat, boln, Greedy(line, i, pat, boln).value)
    decreases |pat|, 0
  {
    if pat == [] {
    } else if pat[0].Closure? {
      var end := RunEnd(line, i, pat[1]);
      var k := GivenBackTo(line, i, end, pat[2..], boln);
      assert AllTaken(line, i, k, pat[1]);
      GreedyIsLongest(line, k, pat[2..], boln);
      forall m, j | k < m <= |line| && AllTaken(line, i, m, pat[1]) ensures !Matches(line, m, pat[2..], boln, j) {
        RunIsLongest(line, i, m, pat[1]);
        GreedyIsComplete(line, m, pat[2..], boln);
      }
    } else {
      GreedyIsLongest(line, i + Step(line, i, pat[0], boln).value, pat[1..], boln);
    }
  }

  lemma {:induction false} GivenBackTo(line: string, from: nat, to: nat, pat: seq<Token>, boln: nat) returns (k: nat)
    requires from <= to <= |line| && WellFormed(pat) && GiveBack(line, from, to, pat, boln).Some?
    ensures from <= k <= to && Greedy(line, k, pat, boln) == GiveBack(line, from, to, pat, boln)
    ensures forall m :: k < m <= to ==> Greedy(line, m, pat, boln).None?
    decreases |pat|, to
  {
    k := to;
    if Greedy(line, to, pat, boln).None? && from < to {
      k := GivenBackTo(line, from, to - 1, pat, boln);
    }
  }

  // ---------- The program ----------

  /** omatch(): whether the element matches, and the place behind it. */
  method Omatch(line: string, lin: nat, t: Token, boln: nat) returns (ok: bool, lin': nat)
    requires lin <= |line|
    ensures ok <==> Step(line, lin, t, boln).Some?
    ensures lin' == if ok then lin + Step(line, lin, t, boln).value else lin
  {
    var advance := -1;
    if lin < |line| {
      match t {
        case LitChar(c) => if line[lin] == c { advance := 1; }
        case Bol => if lin == boln { advance := 0; }
        case Any => if line[lin] != '\n' { advance := 1; }
        case Eol => if line[lin] == '\n' { advance := 0; }
        case Class(members) => if line[lin] in members { advance := 1; }
        case NegClass(members) => if line[lin] !in members { advance := 1; }
        case Closure =>
      }
    }
    lin' := if advance >= 0 then lin + advance else lin;
    ok := advance >= 0;
  }

  /** match(); a missing pattern matches nothing. */
  method Match(line: string, lin0: nat, pat0: seq<Token>, boln: nat) returns (r: Option<nat>)
    requires lin0 <= |line| && WellFormed(pat0)
    ensures r == if pat0 == [] then None else Greedy(line, lin0, pat0, boln)
    ensures r.Some? ==> Longest(line, lin0, pat0, boln, r.value)
    ensures r.None? ==> pat0 == [] || forall j :: !Matches(line, lin0, pat0, boln, j)
    decreases |pat0|, 0
  {
    if pat0 == [] { return None; }
    GreedyIsComplete(line, lin0, pat0, boln);
    if Greedy(line, lin0, pat0, boln).Some? { GreedyIsLongest(line, lin0, pat0, boln); }
    var lin, pat := lin0, pat0;
    while pat != []
      invariant lin0 <= lin <= |line| && WellFormed(pat) && |pat| <= |pat0|
      invariant Greedy(line, lin0, pat0, boln) == Greedy(line, lin, pat, boln)
      decreases |pat|
    {
      if pat[0].Closure? && |pat| > 1 {
        pat := pat[1..];
        var bocl := lin;
        lin := Repeat(line, lin, pat[0], boln);
        pat := pat[1..];
        if pat != [] {
          r := Retreat(line, bocl, lin, pat, boln);
          return;
        }
        assert Greedy(line, lin, pat, boln) == Some(lin);
      } else {
        var ok;
        ok, lin := Omatch(line, lin, pat[0], boln);
        if !ok { return None; }
        pat := pat[1..];
      }
    }
    r := Some(lin);
  }

  /** The loop of match() that takes as many characters as it can. */
  method Repeat(line: string, lin0: nat, t: Token, boln: nat) returns (lin: nat)
    requires lin0 <= |line| && Single(t)
    ensures lin == RunEnd(line, lin0, t)
  {
    lin := lin0;
    var more := lin < |line|;
    while more
      invariant lin0 <= lin <= |line| && RunEnd(line, lin, t) == RunEnd(line, lin0, t)
      invariant !more ==> RunEnd(line, lin, t) == lin
      decreases |line| - lin, more
    {
      more, lin := Omatch(line, lin, t, boln);
      more := more && lin < |line|;
    }
  }

  /** The loop of match() that gives them back. */
  method Retreat(line: string, bocl: nat, lin0: nat, pat: seq<Token>, boln: nat) returns (r: Option<nat>)
    requires bocl <= lin0 <= |line| && WellFormed(pat) && pat != []
    ensures r == GiveBack(line, bocl, lin0, pat, boln)
    decreases |pat|, 1
  {
    var lin: int := lin0;
    while bocl <= lin
      invariant bocl - 1 <= lin <= lin0
      invariant bocl <= lin ==> GiveBack(line, bocl, lin0, pat, boln) == GiveBack(line, bocl, lin, pat, boln)
      invariant bocl > lin ==> GiveBack(line, bocl, lin0, pat, boln) == None
      decreases lin - bocl
    {
      r := Match(line, lin, pat, boln);
      if r.Some? { return; }
      lin := lin - 1;
    }
    r := None;
  }

  // ---------- Searching a line ----------

  /** What amatch() finds at place p. */
  function At(line: string, p: nat, pat: seq<Token>): Option<nat>
    requires p <= |line| && WellFormed(pat)
  {
    if pat == [] then None else Greedy(line, p, pat, 0)
  }

  /** The first place before the end of the line where the plain matcher succeeds. */
  ghost predicate FirstMatch(line: string, pat: seq<Token>, p: nat)
    requires WellFormed(pat)
  {
    p < |line| && At(line, p, pat).Some? && forall q :: 0 <= q < p ==> At(line, q, pat).None?
  }

  /** Literal characters at the beginning of a pattern. */
  function Literals(pat: seq<Token>): (r: nat)
    ensures r <= |pat| && forall i :: 0 <= i < r ==> pat[i].LitChar?
    ensures r < |pat| ==> !pat[r].LitChar?
  {
    if pat != [] && pat[0].LitChar? then 1 + Literals(pat[1..]) else 0
  }

  /** The first n tokens, literal characters, stand at place p. */
  predicate LiteralsAt(line: string, p: nat, pat: seq<Token>, n: nat)
    requires n <= |pat|
  {
    p + n <= |line| && forall i :: 0 <= i < n ==> pat[i].LitChar? && line[p + i] == pat[i].lchar
  }

  lemma {:induction false} WellFormedTail(pat: seq<Token>, n: nat)
    requires WellFormed(pat) && n <= Literals(pat)
    ensures WellFormed(pat[n..])
    decreases n
  {
    if n > 0 {
      WellFormedTail(pat[1..], n - 1);
      assert pat[1..][n - 1..] == pat[n..];
    } else {
      assert pat[0..] == pat;
    }
  }

  /** The plain matcher passes the leading literal characters exactly when they are there. */
  lemma {:induction false} LiteralsFirst(line: string, p: nat, pat: seq<Token>, n: nat)
    requires p <= |line| && WellFormed(pat) && n <= Literals(pat)
    ensures WellFormed(pat[n..])
    ensures LiteralsAt(line, p, pat, n) ==> Greedy(line, p, pat, 0) == Greedy(line, p + n, pat[n..], 0)
    ensures !LiteralsAt(line, p, pat, n) ==> Greedy(line, p, pat, 0) == None
    decreases n
  {
    WellFormedTail(pat, n);
    if n == 0 {
      assert pat[0..] == pat;
    } else {
      assert pat[1..][n - 1..] == pat[n..];
      OneLiteral(line, p, pat, n);
      if p < |line| && line[p] == pat[0].lchar { LiteralsFirst(line, p + 1, pat[1..], n - 1); }
    }
  }

  lemma OneLiteral(line: string, p: nat, pat: seq<Token>, n: nat)
    requires 0 < n <= Literals(pat)
    ensures LiteralsAt(line, p, pat, n) <==> p < |line| && line[p] == pat[0].lchar && LiteralsAt(line, p + 1, pat[1..], n - 1)
  {
    if LiteralsAt(line, p, pat, n) {
      assert line[p + 0] == pat[0].lchar;
      forall i | 0 <= i < n - 1 ensures pat[1..][i].LitChar? && line[p + 1 + i] == pat[1..][i].lchar {
        assert line[p + (i + 1)] == pat[i + 1].lchar;
      }
    }
    if p < |line| && line[p] == pat[0].lchar && LiteralsAt(line, p + 1, pat[1..], n - 1) {
      forall i | 0 <= i < n ensures pat[i].LitChar? && line[p + i] == pat[i].lchar {
        if i > 0 { assert line[p + 1 + (i - 1)] == pat[1..][i - 1].lchar; }
      }
    }
  }

  /** What matchs() returns for a match at p that ends at e: its place, or its last character if it has one. */
  function Result(p: nat, e: nat, wantEnd: bool): nat {
    if wantEnd then (if e > p then e - 1 else p) else p
  }

  /** matchs(): the fast path looks for the leading literal characters before it calls the matcher. An
      empty line leaves the result undefined. */
  method Matchs(line0: string, pat: seq<Token>, wantEnd: bool) returns (r: Option<nat>)
    requires line0 != [] && WellFormed(pat)
    ensures r == None ==> pat == [] || forall p, j :: 0 <= p < |line0| ==> !Matches(line0, p, pat, 0, j)
    ensures r.Some? ==> exists p, e :: FirstLongest(line0, pat, p, e) && r == Some(Result(p, e, wantEnd))
  {
    hide Matches, Longest;
    r := Search(line0, pat, wantEnd);
    if pat != [] { NothingFound(line0, pat); }
    if r.Some? {
      ghost var p :| FirstMatch(line0, pat, p) && r == Some(Result(p, At(line0, p, pat).value, wantEnd));
      FirstIsLongest(line0, pat, p);
    }
  }

  /** The first place where the pattern matches, and the end of the match that ed takes there. */
  ghost predicate FirstLongest(line: string, pat: seq<Token>, p: nat, e: nat) {
    pat != [] && p < |line| && Longest(line, p, pat, 0, e) && forall q, j :: 0 <= q < p ==> !Matches(line, q, pat, 0, j)
  }

  lemma NothingFound(line: string, pat: seq<Token>)
    requires WellFormed(pat) && pat != []
    ensures forall p, j :: 0 <= p < |line| && At(line, p, pat).None? ==> !Matches(line, p, pat, 0, j)
  {
    forall p | 0 <= p < |line| ensures At(line, p, pat).None? ==> forall j :: !Matches(line, p, pat, 0, j) { GreedyIsComplete(line, p, pat, 0); }
  }

  lemma FirstIsLongest(line: string, pat: seq<Token>, p: nat)
    requires WellFormed(pat) && FirstMatch(line, pat, p)
    ensures FirstLongest(line, pat, p, At(line, p, pat).value)
  {
    hide Matches, Longest;
    NothingFound(line, pat);
    GreedyIsLongest(line, p, pat, 0);
  }

  /** The loop of matchs() */
  method Search(line0: string, pat: seq<Token>, wantEnd: bool) returns (r: Option<nat>)
    requires line0 != [] && WellFormed(pat)
    ensures r == None ==> forall p :: 0 <= p < |line0| ==> At(line0, p, pat).None?
    ensures r.Some? ==> exists p :: FirstMatch(line0, pat, p) && r == Some(Result(p, At(line0, p, pat).value, wantEnd))
  {
    var line := 0;
    r := None;
    while line < |line0|
      invariant 0 <= line <= |line0| && r == None
      invariant forall q :: 0 <= q < line ==> At(line0, q, pat).None?
    {
      var line2, pat2 := line, pat;
      if pat != [] && pat[0].LitChar? {
        line, line2, pat2 := FindLiterals(line0, line, pat);
        if line == |line0| { return None; }
        if pat2 == [] {
          assert FirstMatch(line0, pat, line);
          r := Some(if wantEnd then line2 - 1 else line);
          return;
        }
      }
      var rval := Match(line0, line2, pat2, 0);
      if rval.None? {
        if pat != [] && pat[0].Bol? {
          OnlyAtBeginning(line0, line, pat);
          return None;
        }
        line := line + 1;
      } else {
        var e := rval.value;
        assert FirstMatch(line0, pat, line);
        if e > 0 && e > line { e := e - 1; }
        r := Some(if wantEnd then e else line);
        return;
      }
    }
  }

  lemma OnlyAtBeginning(line0: string, line: nat, pat: seq<Token>)
    requires WellFormed(pat) && pat != [] && pat[0].Bol? && line < |line0| && At(line0, line, pat).None?
    requires forall q :: 0 <= q < line ==> At(line0, q, pat).None?
    ensures forall p :: 0 <= p < |line0| ==> At(line0, p, pat).None?
  {
  }

  /** The fast path of matchs(): the next place where the leading literal characters stand. */
  method FindLiterals(line0: string, line1: nat, pat: seq<Token>) returns (line: nat, line2: nat, pat2: seq<Token>)
    requires line1 <= |line0| && WellFormed(pat) && pat != [] && pat[0].LitChar?
    ensures line1 <= line <= |line0| && WellFormed(pat2)
    ensures forall q :: line1 <= q < line ==> At(line0, q, pat).None?
    ensures line < |line0| ==> line2 == line + Literals(pat) <= |line0| && pat2 == pat[Literals(pat)..] && At(line0, line, pat) == Greedy(line0, line2, pat2, 0)
  {
    line, line2, pat2 := line1, line1, pat;
    while line < |line0|
      invariant line1 <= line <= |line0|
      invariant forall q :: line1 <= q < line ==> At(line0, q, pat).None?
    {
      ghost var from := line;
      line := FindChar(line0, line, pat[0].lchar);
      forall q | from <= q < line ensures At(line0, q, pat).None? { }
      line2 := line;
      if line2 == |line0| { break; }
      var ok := true;
      line2 := line2 + 1;
      pat2 := pat[1..];
      ghost var n := 1;
      while pat2 != [] && pat2[0].LitChar?
        invariant 1 <= n <= Literals(pat) && pat2 == pat[n..] && line2 == line + n && LiteralsAt(line0, line, pat, n)
        decreases |pat2|
      {
        if line2 == |line0| || line0[line2] != pat2[0].lchar {
          ok := false;
          break;
        }
        line2 := line2 + 1;
        pat2 := pat2[1..];
        n := n + 1;
      }
      LiteralsFirst(line0, line, pat, n);
      if ok { return; }
      LiteralsFirst(line0, line, pat, n + 1);
      line := line + 1;
    }
    line, line2, pat2 := |line0|, |line0|, pat;
  }

  method FindChar(line: string, from: nat, c: char) returns (p: nat)
    requires from <= |line|
    ensures from <= p <= |line| && (p < |line| ==> line[p] == c) && forall q :: from <= q < p ==> line[q] != c
  {
    p := from;
    while p < |line| && line[p] != c
      invariant from <= p <= |line| && forall q :: from <= q < p ==> line[q] != c
    {
      p := p + 1;
    }
  }

  // ---------- A line ----------

  /** In "abab" the pattern .*b goes up to the last b. */
  method LastB() returns (r: Option<nat>)
    ensures r == Some(3)
  {
    var line, pat := "abab\n", [Closure, Any, LitChar('b')];
    r := Matchs(line, pat, true);
    LastBIsLongest();
    hide Matches, Longest;
    LongestMatches(line, 0, pat, 0, 4);
    assert pat != [] && |line| == 5;
    assert Matches(line, 0, pat, 0, 4);
    assert r != None;
    ghost var p, e :| FirstLongest(line, pat, p, e) && r == Some(Result(p, e, true));
    assert p == 0;
    OneLongest(line, 0, pat, 0, e, 4);
  }

  lemma LastBIsLongest()
    ensures WellFormed([Closure, Any, LitChar('b')]) && Longest("abab\n", 0, [Closure, Any, LitChar('b')], 0, 4)
  {
    var line, pat := "abab\n", [Closure, Any, LitChar('b')];
    var rest := [LitChar('b')];
    assert pat[2..] == rest && rest[1..] == [];
    assert Longest(line, 4, [], 0, 4);
    assert Longest(line, 3, rest, 0, 4);
    assert AllTaken(line, 0, 3, Any);
    forall m, j | 3 < m <= |line| && AllTaken(line, 0, m, Any) ensures !Matches(line, m, rest, 0, j) {
      assert !Takes(Any, line[4]);
    }
    assert NoneBeyond(line, 0, 3, pat, 0);
  }
}
