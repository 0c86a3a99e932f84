/** fix: applies a difference listing to the file it was made from. */
module Fix {
  import opened Text

  /** The messages fix gives up with. */
  datatype Reason =
    | UnexpectedEof | IllegalRange | IllegalCommand | ExtraCharacters
    | DeleteCountConflict | IllegalDeleteLine | DeleteLineConflict | IllegalSeparator
    | AppendCountConflict | IllegalAppendLine

  /** What fix has printed, all of it or as far as it came before it gave up. */
  datatype FixResult = Done(out: seq<string>) | Fatal(reason: Reason, out: seq<string>)

  // ---------- White-space insensitive comparison ----------

  predicate Whitespace(c: char) { c == ' ' || c == '\n' || c == '\r' || c == '\t' }

  function SkipSpace(s: string): (r: string)
    ensures |r| <= |s| && (r == [] || !Whitespace(r[0]))
  {
    if s != [] && Whitespace(s[0]) then SkipSpace(s[1..]) else s
  }

  /** Both strings behind their longest common start. */
  function SkipSame(s: string, t: string): (r: (string, string))
    ensures |r.0| <= |s| && |r.1| <= |t|
    ensures |r.0| == |s| ==> r == (s, t)
    ensures r.0 == [] || r.1 == [] || r.0[0] != r.1[0]
  {
    if s != [] && t != [] && s[0] == t[0] then SkipSame(s[1..], t[1..]) else (s, t)
  }

  /** strwcmp() == 0, behind the leading white space. */
  predicate SameText(s: string, t: string)
    decreases |s| + |t|
  {
    var (s1, t1) := SkipSame(s, t);
    var s2, t2 := SkipSpace(s1), SkipSpace(t1);
    if s2 != [] && t2 != [] && s2[0] == t2[0] then SameText(s2, t2)
    else s2 == [] && t2 == []
  }

  predicate StrwEqual(s: string, t: string) { SameText(SkipSpace(s), SkipSpace(t)) }

  function Strip(s: string): string {
    if s == [] then [] else if Whitespace(s[0]) then Strip(s[1..]) else [s[0]] + Strip(s[1..])
  }

  lemma {:induction false} StripSkipSpace(s: string)
    ensures Strip(SkipSpace(s)) == Strip(s)
  {
    if s != [] && Whitespace(s[0]) { StripSkipSpace(s[1..]); }
  }

  lemma {:induction false} StripSkipSame(s: string, t: string)
    ensures var r := SkipSame(s, t); Strip(s) == Strip(t) <==> Strip(r.0) == Strip(r.1)
  {
    if s != [] && t != [] && s[0] == t[0] {
      StripSkipSame(s[1..], t[1..]);
      if !Whitespace(s[0]) {
        assert Strip(s)[1..] == Strip(s[1..]) && Strip(t)[1..] == Strip(t[1..]);
      }
    }
  }

  lemma {:induction false} SameTextIsStripped(s: string, t: string)
    ensures SameText(s, t) <==> Strip(s) == Strip(t)
    decreases |s| + |t|
  {
    var (s1, t1) := SkipSame(s, t);
    var s2, t2 := SkipSpace(s1), SkipSpace(t1);
    StripSkipSame(s, t);
    StripSkipSpace(s1);
    StripSkipSpace(t1);
    if s2 != [] && t2 != [] && s2[0] == t2[0] {
      SameTextIsStripped(s2, t2);
    } else if s2 != [] && t2 != [] {
      assert Strip(s2)[0] == s2[0] && Strip(t2)[0] == t2[0];
    }
  }

  /** strwcmp() reports equality exactly when the texts agree but for white space. */
  lemma StrwEqualMeans(s: string, t: string)
    ensures StrwEqual(s, t) <==> Strip(s) == Strip(t)
  {
    SameTextIsStripped(SkipSpace(s), SkipSpace(t));
    StripSkipSpace(s);
    StripSkipSpace(t);
  }

  // ---------- Commands ----------

  datatype Range = BadRange | Range(lo: nat, hi: nat, rest: string)

  /** range(): a number, or two with a comma. */
  function ReadRange(s: string): (r: Range)
    ensures r.Range? ==> r.lo <= r.hi
  {
    var (v1, r1) := ReadDigits(0, s);
    if r1 != [] && r1[0] == ',' then
      var (v2, r2) := ReadDigits(0, r1[1..]);
      if v1 > v2 then BadRange else Range(v1, v2, r2)
    else Range(v1, v1, r1)
  }

  datatype Command = BadCommand(reason: Reason) | Command(o1: nat, o2: nat, cmd: char, n1: nat, n2: nat)

  /** getcommand() on the line it reads. */
  function ReadCommand(s: string): (c: Command)
    ensures c.Command? ==> c.cmd in {'a', 'c', 'd'} && c.o1 <= c.o2 && c.n1 <= c.n2
  {
    match ReadRange(s)
    case BadRange => BadCommand(IllegalRange)
    case Range(o1, o2, r) =>
      if r == [] || r[0] !in {'a', 'c', 'd'} then BadCommand(IllegalCommand) else
      match ReadRange(r[1..])
      case BadRange => BadCommand(IllegalRange)
      case Range(n1, n2, t) =>
        if (t == [] || t[0] != '\n') && |t| > 1 then BadCommand(ExtraCharacters)
        else Command(o1, o2, r[0], n1, n2)
  }

  // ---------- What applying a listing means ----------

  /** Progress: lines of the original read, listing lines read, lines printed. */
  datatype Progress = At(here: nat, used: nat, out: seq<string>) | Stop(reason: Reason, out: seq<string>)

  predicate InRange(file: seq<string>, script: seq<string>, p: Progress) {
    p.At? ==> p.here <= |file| && p.used <= |script|
  }

  /** Copies one line of the original. */
  function CopyOne(file: seq<string>, p: Progress): Progress {
    if p.Stop? then p
    else if p.here >= |file| then Stop(UnexpectedEof, p.out)
    else At(p.here + 1, p.used, p.out + [file[p.here]])
  }

  /** Copies lines of the original until `target` of them are read. */
  function CopyTo(file: seq<string>, p: Progress, target: int): (q: Progress)
    ensures q.At? ==> p.At? && q.used == p.used && (p.here <= |file| ==> q.here <= |file|)
    decreases if p.At? then target - p.here else -1
  {
    if p.Stop? || p.here >= target then p else CopyTo(file, CopyOne(file, p), target)
  }

  /** A listing line behind its two leading characters. */
  function Body(l: string): string { if |l| < 2 then [] else l[2..] }

  /** Checks and drops `count` lines of the original. */
  function Delete(file: seq<string>, script: seq<string>, p: Progress, count: int): (q: Progress)
    requires InRange(file, script, p)
    ensures q.At? ==> p.At? && q.used >= p.used && InRange(file, script, q)
    ensures p.Stop? ==> q == p
    decreases count
  {
    if p.Stop? || count <= 0 then p
    else if p.here >= |file| || p.used >= |script| then Stop(UnexpectedEof, p.out)
    else if script[p.used] == [] || script[p.used][0] != '<' then Stop(IllegalDeleteLine, p.out)
    else if !StrwEqual(file[p.here], Body(script[p.used])) then Stop(DeleteLineConflict, p.out)
    else Delete(file, script, At(p.here + 1, p.used + 1, p.out), count - 1)
  }

  /** Prints `count` lines of the listing. */
  function Insert(file: seq<string>, script: seq<string>, p: Progress, count: int): (q: Progress)
    requires InRange(file, script, p)
    ensures q.At? ==> p.At? && q.used >= p.used && InRange(file, script, q)
    ensures p.Stop? ==> q == p
    decreases count
  {
    if p.Stop? || count <= 0 then p
    else if p.used >= |script| then Stop(UnexpectedEof, p.out)
    else if script[p.used] == [] || script[p.used][0] != '>' then Stop(IllegalAppendLine, p.out)
    else Insert(file, script, At(p.here, p.used + 1, p.out + [Body(script[p.used])]), count - 1)
  }

  function Separator(script: seq<string>, p: Progress): (q: Progress) {
    if p.Stop? then p
    else if p.used >= |script| then Stop(UnexpectedEof, p.out)
    else if !StrwEqual(script[p.used], "---\n") then Stop(IllegalSeparator, p.out)
    else At(p.here, p.used + 1, p.out)
  }

  /** One command, its header line already counted as used. */
  function Apply(file: seq<string>, script: seq<string>, p: Progress, c: Command): (q: Progress)
    requires p.At? && c.Command? && InRange(file, script, p)
    ensures InRange(file, script, q) && (q.At? ==> q.used >= p.used)
  {
    var p1 := CopyTo(file, p, c.o1 - 1);
    match c.cmd
    case 'd' =>
      if p1.At? && c.n1 != c.n2 then Stop(DeleteCountConflict, p1.out)
      else Delete(file, script, p1, c.o2 - c.o1 + 1)
    case 'c' =>
      Insert(file, script, Separator(script, Delete(file, script, p1, c.o2 - c.o1 + 1)), c.n2 - c.n1 + 1)
    case 'a' =>
      if p1.At? && c.o1 != c.o2 then Stop(AppendCountConflict, p1.out)
      else Insert(file, script, CopyOne(file, p1), c.n2 - c.n1 + 1)
    case _ => p1
  }

  /** The output of fix from `p` on. */
  function Run(file: seq<string>, script: seq<string>, p: Progress): FixResult
    requires InRange(file, script, p)
    decreases if p.At? then |script| - p.used else -1
  {
    if p.Stop? then Fatal(p.reason, p.out)
    else if p.used == |script| then Done(p.out + file[p.here..])
    else
      var c := ReadCommand(script[p.used]);
      if c.BadCommand? then Fatal(c.reason, p.out)
      else Run(file, script, Apply(file, script, At(p.here, p.used + 1, p.out), c))
  }

  /** fix applied to a file and a listing. */
  function FixOf(file: seq<string>, script: seq<string>): FixResult {
    Run(file, script, At(0, 0, []))
  }

  /** The deletion loop: listing lines are checked against the original. */
  method DeleteLines(file: seq<string>, script: seq<string>, p: Progress, o1: int, o2: int) returns (q: Progress)
    requires p.At? && InRange(file, script, p)
    ensures q == Delete(file, script, p, o2 - o1 + 1)
  {
    hide StrwEqual, Body;
    var here, used, o := p.here, p.used, o1;
    while o <= o2
      invariant 0 <= here <= |file| && 0 <= used <= |script|
      invariant Delete(file, script, At(here, used, p.out), o2 - o + 1) == Delete(file, script, p, o2 - o1 + 1)
    {
      if here >= |file| || used >= |script| { return Stop(UnexpectedEof, p.out); }
      var fl, fd := file[here], script[used];
      here, used := here + 1, used + 1;
      if fd == [] || fd[0] != '<' { return Stop(IllegalDeleteLine, p.out); }
      if !StrwEqual(fl, Body(fd)) { return Stop(DeleteLineConflict, p.out); }
      o := o + 1;
    }
    q := At(here, used, p.out);
  }

  /** The insertion loop. */
  method InsertLines(file: seq<string>, script: seq<string>, p: Progress, n1: int, n2: int) returns (q: Progress)
    requires p.At? && InRange(file, script, p)
    ensures q == Insert(file, script, p, n2 - n1 + 1)
  {
    hide Body;
    var used, out, n := p.used, p.out, n1;
    while n <= n2
      invariant 0 <= used <= |script|
      invariant Insert(file, script, At(p.here, used, out), n2 - n + 1) == Insert(file, script, p, n2 - n1 + 1)
    {
      if used >= |script| { return Stop(UnexpectedEof, out); }
      var nbuf := script[used];
      used := used + 1;
      if nbuf == [] || nbuf[0] != '>' { return Stop(IllegalAppendLine, out); }
      out := out + [Body(nbuf)];
      n := n + 1;
    }
    q := At(p.here, used, out);
  }

  /** The body of main()'s loop, behind getcommand(). */
  method ApplyCommand(file: seq<string>, script: seq<string>, p: Progress, c: Command) returns (q: Progress)
    requires p.At? && c.Command? && c.cmd in {'a', 'c', 'd'} && InRange(file, script, p)
    ensures q == Apply(file, script, p, c)
  {
    hide StrwEqual, Delete, Insert;
    var here: nat, out, o1: int := p.here, p.out, c.o1;
    while here < o1 - 1
      invariant 0 <= here <= |file| && CopyTo(file, At(here, p.used, out), o1 - 1) == CopyTo(file, p, o1 - 1)
    {
      if here >= |file| { return Stop(UnexpectedEof, out); }
      out := out + [file[here]];
      here := here + 1;
    }
    q := At(here, p.used, out);
    if c.cmd == 'c' || c.cmd == 'd' {
      if c.cmd == 'd' && c.n1 != c.n2 { return Stop(DeleteCountConflict, out); }
      q := DeleteLines(file, script, q, c.o1, c.o2);
      if c.cmd == 'd' || q.Stop? { return; }
      q := Separator(script, q);
    } else {
      if c.o1 != c.o2 { return Stop(AppendCountConflict, out); }
      q := CopyOne(file, q);
    }
    if q.At? {
      q := InsertLines(file, script, q, c.n1, c.n2);
    }
  }

  /** main(): the file and the listing are read line by line. */
  method Fix(file: seq<string>, script: seq<string>) returns (r: FixResult)
    ensures r == FixOf(file, script)
  {
    hide ReadCommand, Apply;
    var p := At(0, 0, []);
    while p.used < |script|
      invariant p.At? && InRange(file, script, p) && Run(file, script, p) == FixOf(file, script)
    {
      var c := ReadCommand(script[p.used]);
      if c.BadCommand? { return Fatal(c.reason, p.out); }
      p := ApplyCommand(file, script, At(p.here, p.used + 1, p.out), c);
      if p.Stop? { return Fatal(p.reason, p.out); }
    }
    var here, out := p.here, p.out;
    while here < |file|
      invariant 0 <= here <= |file| && Done(out + file[here..]) == FixOf(file, script)
    {
      out := out + [file[here]];
      here := here + 1;
    }
    return Done(out);
  }
}
