/** What readfs makes of a tree, in the directory it is run in. */
module Extract {
  import opened FsDisk
  import opened FsTree

  /** A name as far as the first NUL. */
  function CString(name: string): string {
    if name == [] || name[0] == '\0' then [] else [name[0]] + CString(name[1..])
  }

  /** dump_dir()'s loop misses one entry for every full block it leaves with entries to come. */
  function Kept(kids: nat): (r: nat)
    ensures r <= kids
  {
    kids - (kids + 2) / 65
  }

  // ---------- Names ----------

  /** What mkdir(), or access() and creat(), make of a name. */
  datatype Fate = Made | Refused | Elsewhere

  /** The place of the first '/', or the length. */
  function Slash(name: string): (i: nat)
    ensures i <= |name|
  {
    if name == [] || name[0] == '/' then 0 else 1 + Slash(name[1..])
  }

  predicate Present(here: seq<Kid>, name: string) {
    exists i | 0 <= i < |here| :: here[i].name == name
  }

  predicate DirPresent(here: seq<Kid>, name: string) {
    exists i | 0 <= i < |here| :: here[i].name == name && here[i].node.DirNode?
  }

  /** In a directory that holds `here`. */
  function FateOf(name: string, here: seq<Kid>): Fate {
    var i := Slash(name);
    if i < |name| then PathFate(name[..i], name[i + 1..], here)
    else if name == [] || name == DOT || name == DOTDOT || Present(here, name) then Refused
    else Made
  }

  /** A path of several parts is refused if its first part is not a directory; where it leads otherwise is left open. */
  function PathFate(head: string, rest: string, here: seq<Kid>): Fate {
    if head == [] || head == DOT || head == DOTDOT || DirPresent(here, head) || (forall c :: c in rest ==> c == '/') then Elsewhere
    else Refused
  }

  // ---------- Trees ----------

  /** What a directory holds in the end, unless the program has left it by a path. */
  datatype Haul = Here(kids: seq<Kid>) | Astray

  /** Devices become empty files. */
  function AsFile(t: Node): Node
    requires !t.DirNode?
  {
    if t.FileNode? then t else FileNode(t.perms, [])
  }

  /** The entries of a directory, dumped into one that holds `here`. */
  function Extracted(t: Node, here: seq<Kid>): Haul
    requires t.DirNode?
    decreases t, 1, 0
  {
    ExtractedKids(t, Kept(|t.kids|), here)
  }

  function ExtractedKids(t: Node, k: nat, here: seq<Kid>): Haul
    requires t.DirNode? && k <= |t.kids|
    decreases t, 0, k
  {
    if k == 0 then Here(here) else
      var h := ExtractedKids(t, k - 1, here);
      if h.Astray? then Astray else Dumped(t.kids[k-1].node, CString(Pad(t.kids[k-1].name)), h.kids)
  }

  /** A file or a directory under its name; for the empty name no directory is made. */
  function Dumped(node: Node, name: string, here: seq<Kid>): Haul
    decreases node, 2, 0
  {
    if node.DirNode? && name == [] then Extracted(node, here)
    else
      match FateOf(name, here)
      case Elsewhere => Astray
      case Refused => Here(here)
      case Made =>
        if !node.DirNode? then Here(here + [Kid(name, AsFile(node))])
        else
          var h := Extracted(node, []);
          if h.Astray? then Astray else Here(here + [Kid(name, DirNode(node.perms, h.kids))])
  }

  // ---------- Which trees come back ----------

  /** A name that is not cut and makes one new entry. */
  predicate Proper(name: string) {
    |name| <= NAME_MAX && '\0' !in name && '/' !in name && name != [] && name != DOT && name != DOTDOT
  }

  /** The names are proper, and no two are equal. */
  ghost predicate Tidy(kids: seq<Kid>) {
    && (forall i :: 0 <= i < |kids| ==> Proper(kids[i].name))
    && forall i, j :: 0 <= i < j < |kids| ==> kids[i].name != kids[j].name
  }

  /** A tree of files and directories with proper names, different in each directory, and at most 62 entries in any. */
  ghost predicate Recoverable(t: Node) {
    match t
    case DirNode(_, kids) => |kids| <= NR_DIR_ENTRIES - 2 && Tidy(kids) && forall i :: 0 <= i < |kids| ==> Recoverable(kids[i].node)
    case FileNode(_, _) => true
    case DeviceNode(_, _, _, _) => false
  }

  lemma {:induction false} CStringIsPrefix(s: string)
    ensures |CString(s)| <= |s| && '\0' !in CString(s)
    ensures CString(s) == s <==> '\0' !in s
  {
    if s != [] && s[0] != '\0' {
      CStringIsPrefix(s[1..]);
      assert s == [s[0]] + s[1..];
    }
  }

  lemma {:induction false} CStringStops(s: string, t: string)
    requires '\0' !in s && (t == [] || t[0] == '\0')
    ensures CString(s + t) == s
  {
    if s == [] {
      assert s + t == t;
    } else {
      assert (s + t)[1..] == s[1..] + t;
      CStringStops(s[1..], t);
    }
  }

  lemma NameSurvives(name: string)
    ensures CString(Pad(name)) == name <==> |name| <= NAME_MAX && '\0' !in name
  {
    CStringIsPrefix(Pad(name));
    if |name| <= NAME_MAX && '\0' !in name {
      assert Pad(name) == name + seq(NAME_MAX - |name|, _ => '\0');
      CStringStops(name, seq(NAME_MAX - |name|, _ => '\0'));
    }
  }

  lemma {:induction false} SlashFound(name: string)
    ensures Slash(name) < |name| <==> '/' in name
  {
    if name != [] && name[0] != '/' {
      SlashFound(name[1..]);
      assert name == [name[0]] + name[1..];
    }
  }

  lemma MadeIsProper(name: string, here: seq<Kid>)
    requires |name| <= NAME_MAX && '\0' !in name
    ensures FateOf(name, here) == Made <==> Proper(name) && !Present(here, name)
  {
    SlashFound(name);
  }

  lemma OneMoreTidy(here: seq<Kid>, kid: Kid)
    requires Tidy(here) && Proper(kid.name) && !Present(here, kid.name)
    ensures Tidy(here + [kid])
  {
    hide Proper;
  }

  /** Only tidy directories are made. */
  lemma {:induction false} AlwaysTidy(t: Node, k: nat, here: seq<Kid>)
    requires t.DirNode? && k <= |t.kids| && Tidy(here)
    ensures ExtractedKids(t, k, here).Here? ==> Tidy(ExtractedKids(t, k, here).kids)
    decreases t, 0, k
  {
    hide Tidy, Pad, CString, FateOf;
    if k > 0 {
      AlwaysTidy(t, k - 1, here);
      var h := ExtractedKids(t, k - 1, here);
      if h.Here? { DumpedTidy(t.kids[k-1].node, t.kids[k-1].name, h.kids); }
    }
  }

  lemma {:induction false} DumpedTidy(node: Node, name: string, here: seq<Kid>)
    requires Tidy(here)
    ensures var h := Dumped(node, CString(Pad(name)), here); h.Here? ==> Tidy(h.kids)
    decreases node, 2, 0
  {
    var cut := CString(Pad(name));
    CStringIsPrefix(Pad(name));
    hide Tidy, Pad, CString, FateOf;
    if node.DirNode? && cut == [] {
      AlwaysTidy(node, Kept(|node.kids|), here);
    } else if FateOf(cut, here) == Made {
      MadeIsProper(cut, here);
      hide Proper, Present, Kept, ExtractedKids;
      var h := Dumped(node, cut, here);
      if h.Here? { OneMoreTidy(here, h.kids[|here|]); }
    }
  }

  /** The first k entries have come, under their names. */
  ghost predicate NamesCame(h: Haul, kids: seq<Kid>, k: nat)
    requires k <= |kids|
  {
    h.Here? ==> |h.kids| == k && forall i :: 0 <= i < k ==> h.kids[i].name == kids[i].name
  }

  lemma NameIsNew(here: seq<Kid>, kids: seq<Kid>, k: nat)
    requires k < |kids| && Tidy(kids) && NamesCame(Here(here), kids, k)
    ensures CString(Pad(kids[k].name)) == kids[k].name != [] && FateOf(kids[k].name, here) == Made
  {
    NameSurvives(kids[k].name);
    MadeIsProper(kids[k].name, here);
    hide Pad, CString, FateOf;
  }

  lemma LastMatters(a: seq<Kid>, x: Kid, b: seq<Kid>, y: Kid)
    requires |a| == |b|
    ensures a + [x] == b + [y] <==> a == b && x == y
  {
    if a + [x] == b + [y] {
      assert (a + [x])[..|a|] == a && (b + [y])[..|b|] == b;
      assert (a + [x])[|a|] == x;
    }
  }

  /** An entry with a name of its own comes, and is the same if it is recoverable. */
  lemma {:induction false} KidComes(kid: Kid, here: seq<Kid>, kids: seq<Kid>)
    requires kid.name != [] && FateOf(kid.name, here) == Made && |here| == |kids|
    ensures var h := Dumped(kid.node, kid.name, here);
      && (h.Here? ==> h.kids[..|here|] == here && |h.kids| == |here| + 1 && h.kids[|here|].name == kid.name)
      && (h == Here(kids + [kid]) <==> here == kids && Recoverable(kid.node))
    decreases kid.node, 2, 0
  {
    hide Tidy, FateOf, Extracted;
    if kid.node.DirNode? { RecoveredExactly(kid.node); }
    var h := Dumped(kid.node, kid.name, here);
    hide Recoverable;
    if h.Here? { LastMatters(here, h.kids[|here|], kids, kid); }
  }

  lemma {:induction false} KidsCome(t: Node, k: nat)
    requires t.DirNode? && k <= |t.kids| && Tidy(t.kids)
    ensures NamesCame(ExtractedKids(t, k, []), t.kids, k)
    ensures ExtractedKids(t, k, []) == Here(t.kids[..k]) <==> forall i :: 0 <= i < k ==> Recoverable(t.kids[i].node)
    decreases t, 0, k
  {
    hide Tidy, FateOf, Pad, CString, Recoverable, Dumped;
    if k > 0 {
      KidsCome(t, k - 1);
      var h := ExtractedKids(t, k - 1, []);
      assert t.kids[..k] == t.kids[..k-1] + [t.kids[k-1]];
      if h.Here? {
        NameIsNew(h.kids, t.kids, k - 1);
        KidComes(t.kids[k-1], h.kids, t.kids[..k-1]);
      }
    }
  }

  /** readfs gives back what mkfs was given exactly for the recoverable trees. */
  lemma {:induction false} RecoveredExactly(t: Node)
    requires t.DirNode?
    ensures Extracted(t, []) == Here(t.kids) <==> Recoverable(t)
    decreases t, 1, 0
  {
    var K := |t.kids|;
    hide ExtractedKids, Proper;
    assert K <= NR_DIR_ENTRIES - 2 <==> Kept(K) == K;
    AlwaysTidy(t, Kept(K), []);
    assert t.kids[..K] == t.kids;
    if Tidy(t.kids) { KidsCome(t, Kept(K)); }
  }
}
