/** Scripts of the stream editor, as far as jumps are concerned, and where each jump should lead. */
module SedScript {
  import opened Options

  /** One command of a script: what compile() has split off, with the label of a branch already read.
      `addressed` says that an address stands before a command that takes none. */
  datatype Item =
    | Open
    | Close(addressed: bool)
    | Label(name: string, addressed: bool)
    | Branch(target: Option<string>)
    | Restart
    | Plain

  /** Labels and right braces take no place among the compiled commands. */
  predicate TakesPlace(x: Item) { !x.Close? && !x.Label? }

  /** Where the next command goes: how many compiled commands the items make. */
  function Pos(items: seq<Item>): nat {
    if items == [] then 0 else Pos(items[..|items|-1]) + if TakesPlace(items[|items|-1]) then 1 else 0
  }

  /** How many braces are open; -1 when there has been a right brace too many. */
  function Depth(items: seq<Item>): (d: int)
    ensures d >= -1
  {
    if items == [] then 0 else
    var d := Depth(items[..|items|-1]);
    if d < 0 then -1
    else match items[|items|-1]
      case Open => d + 1
      case Close(_) => d - 1
      case _ => d
  }

  /** How deep the braces go at the deepest place. */
  function Deepest(items: seq<Item>): (d: int)
    ensures d >= Depth(items) && d >= 0
  {
    if items == [] then 0 else
    var d := Deepest(items[..|items|-1]);
    if Depth(items) > d then Depth(items) else d
  }

  /** All label names, of declarations and of branches. */
  function Names(items: seq<Item>): set<string> {
    if items == [] then {} else
    Names(items[..|items|-1]) +
    match items[|items|-1]
      case Label(name, _) => {name}
      case Branch(target) => if target.Some? then {target.value} else {}
      case _ => {}
  }

  const MAXCMDS := 500
  const MAXLABS := 50
  const MAXDEPTH: nat := 20

  predicate Declares(x: Item, name: string) { x.Label? && x.name == name }

  /** The scripts that compile. */
  ghost predicate Compiles(items: seq<Item>) {
    && AllUnaddressed(items) && NoDoubles(items)
    && BranchesDeclared(items)
    && Depth(items) == 0 && Deepest(items) <= MAXDEPTH
    && Pos(items) < MAXCMDS && |Names(items)| < MAXLABS - 1
  }

  ghost predicate AllUnaddressed(items: seq<Item>) { forall j :: 0 <= j < |items| ==> Unaddressed(items[j]) }

  /** Every label that is branched to is declared somewhere. */
  ghost predicate BranchesDeclared(items: seq<Item>) {
    forall j :: 0 <= j < |items| && items[j].Branch? && items[j].target.Some? ==> IsDeclared(items, items[j].target.value)
  }

  /** No label is declared twice. */
  ghost predicate NoDoubles(items: seq<Item>) {
    forall i, j :: 0 <= i < j < |items| && items[i].Label? && items[j].Label? ==> items[i].name != items[j].name
  }

  predicate Unaddressed(x: Item) { (x.Close? || x.Label?) ==> !x.addressed }

  ghost predicate IsDeclared(items: seq<Item>, name: string) {
    exists d :: 0 <= d < |items| && Declares(items[d], name)
  }

  /** Where the jump of item j leads. */
  ghost predicate LeadsRight(items: seq<Item>, j: nat, link: Option<nat>)
    requires j < |items|
  {
    match items[j]
    case Branch(None) => link == Some(Pos(items))
    case Branch(Some(name)) => exists d :: 0 <= d < |items| && Declares(items[d], name) && link == Some(Pos(items[..d]))
    case Open => exists m :: j < m < |items| && items[m].Close? && Depth(items[j+1..m]) == 0 && link == Some(Pos(items[..m]))
    case Restart => link == Some(0)
    case _ => link == None
  }

  /** Every jump of the compiled script leads where the script says. */
  ghost predicate AllLinked(items: seq<Item>, links: seq<Option<nat>>) {
    |links| == Pos(items) &&
    forall j :: 0 <= j < |items| && TakesPlace(items[j]) ==> Pos(items[..j]) < |links| && LeadsRight(items, j, links[Pos(items[..j])])
  }

  lemma {:induction false} PosGrows(items: seq<Item>, j: nat)
    requires j <= |items|
    ensures Pos(items[..j]) <= Pos(items)
    ensures j < |items| && TakesPlace(items[j]) ==> Pos(items[..j]) < Pos(items)
    decreases |items|
  {
    if j == |items| {
      assert items[..j] == items;
    } else {
      var n := |items| - 1;
      if j < n { PosGrows(items[..n], j); }
      assert items[..n][..j] == items[..j];
    }
  }

  // ---------- What is known about a part of a script ----------

  /** Where a label has been declared first. */
  function DeclaredAt(items: seq<Item>, name: string): Option<nat> {
    if items == [] then None else
    var init := items[..|items|-1];
    if DeclaredAt(init, name).Some? then DeclaredAt(init, name)
    else if Declares(items[|items|-1], name) then Some(Pos(init)) else None
  }

  /** The items of the left braces that are still open. */
  function Opened(items: seq<Item>): (r: seq<nat>)
    ensures forall l :: 0 <= l < |r| ==> r[l] < |items| && items[r[l]].Open?
  {
    if items == [] then [] else
    var n := |items| - 1;
    var r := Opened(items[..n]);
    match items[n]
    case Open => r + [n]
    case Close(_) => if r == [] then [] else r[..|r|-1]
    case _ => r
  }

  /** A link that is known, or that waits for a label or for the end of the script. */
  datatype Link = Fixed(to: Option<nat>) | Waiting(target: Option<string>)

  function AddressOf(items: seq<Item>, target: Option<string>): Option<nat> {
    if target.None? then None else DeclaredAt(items, target.value)
  }

  /** The links as they are known after part of a script. */
  function Known(items: seq<Item>): (r: seq<Link>)
    ensures |r| == Pos(items)
  {
    if items == [] then [] else
    var n := |items| - 1;
    var init := items[..n];
    var r := Known(init);
    match items[n]
    case Open => r + [Fixed(None)]
    case Close(_) =>
      var open := Opened(init);
      if open == [] then r else
      PosGrows(init, open[|open|-1]);
      r[Pos(init[..open[|open|-1]]) := Fixed(Some(Pos(init)))]
    case Label(_, _) => r
    case Branch(target) => r + [if AddressOf(init, target).Some? then Fixed(AddressOf(init, target)) else Waiting(target)]
    case Restart => r + [Fixed(Some(0))]
    case Plain => r + [Fixed(None)]
  }

  /** The commands that wait for a label, in order. */
  function Pending(items: seq<Item>, target: Option<string>): (r: seq<nat>)
  {
    if items == [] then [] else
    var n := |items| - 1;
    var init := items[..n];
    if items[n] == Branch(target) && AddressOf(init, target).None? then Pending(init, target) + [Pos(init)] else Pending(init, target)
  }

  lemma One(items: seq<Item>, x: Item)
    ensures (items + [x])[..|items|] == items && (items + [x])[|items|] == x && |items + [x]| == |items| + 1
  {
  }

  /** Left braces stay where no link waits. */
  lemma {:induction false} OpenedIsFixed(items: seq<Item>, l: nat)
    requires l < |Opened(items)|
    ensures Pos(items[..Opened(items)[l]]) < Pos(items) && Known(items)[Pos(items[..Opened(items)[l]])] == Fixed(None)
    decreases |items|
  {
    var n := |items| - 1;
    var init, o := items[..n], Opened(items)[l];
    if items[n].Open? && l == |Opened(items)| - 1 {
      assert items[..o] == init;
    } else {
      OpenedIsFixed(init, l);
      assert Opened(init)[l] == o && init[..o] == items[..o];
      StaysFixed(items, init, l, Pos(init[..o]));
    }
  }

  /** Everything but a right brace adds at most one link; a right brace sets that of the last left brace still open. */
  lemma KnownStays(items: seq<Item>)
    requires items != []
    ensures var init, x := items[..|items|-1], items[|items|-1]; var open := Opened(init);
      if x.Close? && open != [] then
        Pos(init[..open[|open|-1]]) < Pos(init) && Known(items) == Known(init)[Pos(init[..open[|open|-1]]) := Fixed(Some(Pos(init)))]
      else if TakesPlace(x) then Pos(items) == Pos(init) + 1 && Known(items) == Known(init) + [Known(items)[Pos(init)]]
      else Known(items) == Known(init)
  {
    hide AddressOf;
    var init, open := items[..|items|-1], Opened(items[..|items|-1]);
    if open != [] { PosGrows(init, open[|open|-1]); }
  }

  lemma StaysFixed(items: seq<Item>, init: seq<Item>, l: nat, p: nat)
    requires items != [] && init == items[..|items|-1] && l < |Opened(items)| && l < |Opened(init)|
    requires p == Pos(init[..Opened(init)[l]]) < Pos(init) && Known(init)[p] == Fixed(None)
    ensures p < Pos(items) && Known(items)[p] == Fixed(None)
  {
    hide *;
    KnownStays(items);
    if items[|items|-1].Close? {
      StillOpen(items);
      OpenedApart(init, l, |Opened(init)| - 1);
    }
  }

  lemma StillOpen(items: seq<Item>)
    requires items != [] && items[|items|-1].Close?
    ensures var open := Opened(items[..|items|-1]);
      Opened(items) == if open == [] then [] else open[..|open|-1]
  {
  }

  lemma {:induction false} OpenedApart(items: seq<Item>, l: nat, m: nat)
    requires l < m < |Opened(items)|
    ensures Opened(items)[l] < Opened(items)[m] && Pos(items[..Opened(items)[l]]) < Pos(items[..Opened(items)[m]])
    decreases |items|
  {
    var n := |items| - 1;
    var init, o, p := items[..n], Opened(items)[l], Opened(items)[m];
    if p < n {
      OpenedApart(init, l, m);
    }
    assert items[..p][..o] == items[..o];
    PosGrows(items[..p], o);
  }

  /** The commands whose links wait for the target. */
  ghost predicate AllOf(chain: seq<nat>, known: seq<Link>, target: Option<string>) {
    && (forall p :: p in chain <==> 0 <= p < |known| && known[p] == Waiting(target))
    && forall i, j :: 0 <= i < j < |chain| ==> chain[i] < chain[j]
  }

  lemma AllOfMore(chain: seq<nat>, known: seq<Link>, target: Option<string>, x: Link)
    requires AllOf(chain, known, target)
    ensures AllOf(if x == Waiting(target) then chain + [|known|] else chain, known + [x], target)
  {
    var chain' := if x == Waiting(target) then chain + [|known|] else chain;
    forall p ensures p in chain' <==> 0 <= p < |known + [x]| && (known + [x])[p] == Waiting(target) {
      assert p in chain' <==> p in chain || (x == Waiting(target) && p == |known|);
    }
    assert forall i :: 0 <= i < |chain| ==> chain[i] in chain;
  }

  lemma AllOfPatched(chain: seq<nat>, known: seq<Link>, target: Option<string>, p: nat, x: Link)
    requires AllOf(chain, known, target) && p < |known| && known[p].Fixed? && x.Fixed?
    ensures AllOf(chain, known[p := x], target)
  {
    forall q ensures q in chain <==> 0 <= q < |known| && known[p := x][q] == Waiting(target) {
      assert q in chain <==> 0 <= q < |known| && known[q] == Waiting(target);
    }
  }

  /** Exactly the commands whose links wait are pending, in increasing order. */
  lemma {:induction false} PendingIs(items: seq<Item>, target: Option<string>)
    ensures AllOf(Pending(items, target), Known(items), target)
  {
    if items != [] {
      hide AllOf;
      var n := |items| - 1;
      var init := items[..n];
      PendingIs(init, target);
      if TakesPlace(items[n]) {
        KnownWaits(items, target);
        hide Known;
        AllOfMore(Pending(init, target), Known(init), target, Known(items)[Pos(init)]);
      } else {
        var open := Opened(init);
        if items[n].Close? && open != [] {
          OpenedIsFixed(init, |open| - 1);
          AllOfPatched(Pending(init, target), Known(init), target, Pos(init[..open[|open|-1]]), Fixed(Some(Pos(init))));
        }
      }
    } else {
      Nobody(target);
    }
  }

  lemma Nobody(target: Option<string>)
    ensures AllOf([], [], target)
  {
  }

  lemma KnownWaits(items: seq<Item>, target: Option<string>)
    requires items != [] && TakesPlace(items[|items|-1])
    ensures var init, x := items[..|items|-1], items[|items|-1];
      && Known(items) == Known(init) + [Known(items)[Pos(init)]]
      && (Known(items)[Pos(init)] == Waiting(target) <==> x == Branch(target) && AddressOf(init, target).None?)
  {
    hide AddressOf;
  }

  // ---------- What is known is right ----------

  lemma {:induction false} DeclaredIs(items: seq<Item>, name: string)
    ensures DeclaredAt(items, name).Some? <==> IsDeclared(items, name)
    ensures DeclaredAt(items, name).Some? ==>
      exists d :: 0 <= d < |items| && Declares(items[d], name) && DeclaredAt(items, name) == Some(Pos(items[..d]))
  {
    if items != [] {
      var n := |items| - 1;
      DeclaredIs(items[..n], name);
      if IsDeclared(items, name) {
        var d :| 0 <= d < |items| && Declares(items[d], name);
        if d < n { assert Declares(items[..n][d], name); }
      }
      if DeclaredAt(items[..n], name).Some? {
        var d :| 0 <= d < n && Declares(items[..n][d], name) && DeclaredAt(items[..n], name) == Some(Pos(items[..n][..d]));
        assert items[..n][..d] == items[..d] && Declares(items[d], name);
      } else if Declares(items[n], name) {
        assert DeclaredAt(items, name) == Some(Pos(items[..n]));
      }
    }
  }

  lemma DepthMore(s: seq<Item>, x: Item)
    requires Depth(s) >= 0
    ensures Depth(s + [x]) == Depth(s) + if x.Open? then 1 else if x.Close? then -1 else 0
  {
    One(s, x);
  }

  /** Behind a left brace that is open, everything that has been opened since is open or closed. */
  lemma {:induction false} OpenedDepth(items: seq<Item>, l: nat)
    requires l < |Opened(items)|
    ensures Depth(items[Opened(items)[l]+1..]) == |Opened(items)| - 1 - l
    decreases |items|
  {
    var n, o := |items| - 1, Opened(items)[l];
    if items[n].Open? && l == |Opened(items)| - 1 {
      assert items[o+1..] == [];
    } else {
      OpenedDepth(items[..n], l);
      assert Opened(items[..n])[l] == o;
      hide Depth;
      OpenedBefore(items[..n], l);
      DepthStep(items, items[..n], o);
      HowManyOpen(items);
    }
  }

  lemma DepthStep(items: seq<Item>, init: seq<Item>, o: nat)
    requires items != [] && init == items[..|items|-1] && o < |init| && Depth(init[o+1..]) >= 0
    ensures var x := items[|items|-1];
      Depth(items[o+1..]) == Depth(init[o+1..]) + if x.Open? then 1 else if x.Close? then -1 else 0
  {
    Behind(items, init, o + 1);
    DepthMore(init[o+1..], items[|items|-1]);
  }

  lemma Behind(items: seq<Item>, init: seq<Item>, k: nat)
    requires items != [] && init == items[..|items|-1] && k <= |init|
    ensures items[k..] == init[k..] + [items[|items|-1]]
  {
  }

  lemma HowManyOpen(items: seq<Item>)
    requires items != []
    ensures var k, x := |Opened(items[..|items|-1])|, items[|items|-1];
      |Opened(items)| == if x.Open? then k + 1 else if x.Close? && k > 0 then k - 1 else k
  {
  }

  lemma OpenedBefore(items: seq<Item>, l: nat)
    requires l < |Opened(items)|
    ensures Opened(items)[l] < |items|
  {
  }

  lemma {:induction false} OpenedCount(items: seq<Item>)
    requires Depth(items) >= 0
    ensures |Opened(items)| == Depth(items)
  {
    if items != [] {
      OpenedCount(items[..|items|-1]);
    }
  }

  /** What is known of item j's link. */
  ghost predicate KnownRight(items: seq<Item>, j: nat, link: Link)
    requires j < |items|
  {
    match items[j]
    case Branch(target) => link == Waiting(target) || (AddressOf(items, target).Some? && link == Fixed(AddressOf(items, target)))
    case Open => if j in Opened(items) then link == Fixed(None) else ClosedAt(items, j, link)
    case Restart => link == Fixed(Some(0))
    case _ => link == Fixed(None)
  }

  ghost predicate ClosedAt(items: seq<Item>, j: nat, link: Link) {
    exists m :: j < m < |items| && items[m].Close? && Depth(items[j+1..m]) == 0 && link == Fixed(Some(Pos(items[..m])))
  }

  lemma ClosedStill(items: seq<Item>, j: nat, link: Link)
    requires items != [] && ClosedAt(items[..|items|-1], j, link)
    ensures ClosedAt(items, j, link)
  {
    var n := |items| - 1;
    var init := items[..n];
    var m :| j < m < |init| && init[m].Close? && Depth(init[j+1..m]) == 0 && link == Fixed(Some(Pos(init[..m])));
    assert init[..m] == items[..m] && init[j+1..m] == items[j+1..m] && items[m].Close?;
  }

  lemma {:induction false} AllKnown(items: seq<Item>, j: nat)
    requires j < |items| && TakesPlace(items[j])
    ensures Pos(items[..j]) < Pos(items) && KnownRight(items, j, Known(items)[Pos(items[..j])])
    decreases |items|
  {
    var n := |items| - 1;
    if j == n {
      LastKnown(items);
    } else {
      AllKnown(items[..n], j);
      assert items[..n][..j] == items[..j] && items[..n][j] == items[j];
      StillKnown(items, items[..n], j, Pos(items[..j]));
    }
  }

  lemma StillKnown(items: seq<Item>, init: seq<Item>, j: nat, p: nat)
    requires items != [] && init == items[..|items|-1] && j < |init| && TakesPlace(items[j])
    requires p == Pos(init[..j]) < Pos(init) && KnownRight(init, j, Known(init)[p])
    ensures p < Pos(items) && KnownRight(items, j, Known(items)[p])
  {
    hide Known, Pos, KnownRight, Depth;
    KnownStays(items);
    var open := Opened(init);
    if items[|items|-1].Close? && open != [] && open[|open|-1] == j {
      JustClosed(items, j);
    } else {
      if items[|items|-1].Close? && open != [] { Elsewhere(init, j, open[|open|-1]); }
      StaysRight(items, j, Known(init)[p]);
    }
  }

  lemma LastKnown(items: seq<Item>)
    requires items != [] && TakesPlace(items[|items|-1])
    ensures Pos(items[..|items|-1]) < Pos(items) && KnownRight(items, |items| - 1, Known(items)[Pos(items[..|items|-1])])
  {
  }

  lemma Elsewhere(items: seq<Item>, i: nat, j: nat)
    requires i < |items| && j < |items| && i != j && TakesPlace(items[i]) && TakesPlace(items[j])
    ensures Pos(items[..i]) != Pos(items[..j])
  {
    if i < j {
      assert items[..j][..i] == items[..i];
      PosGrows(items[..j], i);
    } else {
      assert items[..i][..j] == items[..j];
      PosGrows(items[..i], j);
    }
  }

  lemma JustClosed(items: seq<Item>, j: nat)
    requires items != [] && items[|items|-1].Close?
    requires var init := items[..|items|-1]; var open := Opened(init); open != [] && open[|open|-1] == j
    ensures j < |items| - 1 && items[j].Open? && KnownRight(items, j, Fixed(Some(Pos(items[..|items|-1]))))
  {
    hide Known, Pos, Opened, Depth, DeclaredAt;
    var n := |items| - 1;
    var init := items[..n];
    OpenedDepth(init, |Opened(init)| - 1);
    assert init[j+1..] == items[j+1..n];
    NotOpen(items, j);
    assert ClosedAt(items, j, Fixed(Some(Pos(items[..n]))));
  }

  lemma NotOpen(items: seq<Item>, j: nat)
    requires items != [] && items[|items|-1].Close?
    requires var init := items[..|items|-1]; var open := Opened(init); open != [] && open[|open|-1] == j
    ensures j !in Opened(items)
  {
    hide Opened, Pos;
    var init := items[..|items|-1];
    StillOpen(items);
    if j in Opened(items) {
      var l :| 0 <= l < |Opened(items)| && Opened(items)[l] == j;
      OpenedApart(init, l, |Opened(init)| - 1);
    }
  }

  lemma StaysRight(items: seq<Item>, j: nat, link: Link)
    requires j < |items| - 1 && KnownRight(items[..|items|-1], j, link)
    requires var init := items[..|items|-1]; items[|items|-1].Close? && Opened(init) != [] ==> j != Opened(init)[|Opened(init)|-1]
    ensures KnownRight(items, j, link)
  {
    hide Known, Pos, Depth;
    var init := items[..|items|-1];
    if items[j].Open? {
      if j in Opened(init) {
        var l :| 0 <= l < |Opened(init)| && Opened(init)[l] == j;
        assert j in Opened(items) by { assert Opened(items)[l] == j; }
      } else {
        ClosedStill(items, j, link);
        assert j !in Opened(items);
      }
    }
  }

  /** The link that an entry of the finished script gets. */
  function Resolved(items: seq<Item>, link: Link): Option<nat> {
    match link
    case Fixed(to) => to
    case Waiting(None) => Some(Pos(items))
    case Waiting(Some(name)) => DeclaredAt(items, name)
  }

  lemma LinkRight(items: seq<Item>, j: nat, link: Link)
    requires j < |items| && Compiles(items) && KnownRight(items, j, link)
    ensures TakesPlace(items[j]) ==> LeadsRight(items, j, Resolved(items, link))
  {
    hide Known, Pos, Names;
    match items[j]
    case Branch(target) =>
      if target.Some? { DeclaredIs(items, target.value); }
    case Open =>
      OpenedCount(items);
      hide Depth;
      var m :| j < m < |items| && items[m].Close? && Depth(items[j+1..m]) == 0 && link == Fixed(Some(Pos(items[..m])));
    case _ =>
  }

  /** When every link is resolved, every jump leads where the script says. */
  lemma ResolvedIsRight(items: seq<Item>, links: seq<Option<nat>>)
    requires Compiles(items) && |links| == Pos(items) && forall p :: 0 <= p < |links| ==> links[p] == Resolved(items, Known(items)[p])
    ensures AllLinked(items, links)
  {
    hide Known, LeadsRight, KnownRight, Compiles, Resolved;
    forall j | 0 <= j < |items| && TakesPlace(items[j])
      ensures Pos(items[..j]) < |links| && LeadsRight(items, j, links[Pos(items[..j])])
    {
      AllKnown(items, j);
      hide Pos;
      LinkRight(items, j, Known(items)[Pos(items[..j])]);
    }
  }
}
