/** The editor's one-pass compiler: pending branches are threaded through the command array and patched at the end. */
module SedCompile {
  import opened Options
  import opened SedScript

  /** A label: the first command that waits for it, and its address. The first entry is for the end of the script. */
  datatype Entry = Entry(name: Option<string>, last: Option<nat>, address: Option<nat>)

  // ---------- Chains ----------

  /** The links from `last` on lead through exactly the commands of the chain. */
  ghost predicate Chained(links: seq<Option<nat>>, last: Option<nat>, chain: seq<nat>) {
    && last == Next(chain, 0)
    && forall j :: 0 <= j < |chain| ==> chain[j] < |links| && links[chain[j]] == Next(chain, j + 1)
  }

  function Next(chain: seq<nat>, j: nat): Option<nat> { if j < |chain| then Some(chain[j]) else None }

  lemma ChainSame(links: seq<Option<nat>>, links': seq<Option<nat>>, last: Option<nat>, chain: seq<nat>)
    requires Chained(links, last, chain) && |links'| == |links| && forall p :: p in chain && p < |links| ==> links'[p] == links[p]
    ensures Chained(links', last, chain)
  {
    assert forall j :: 0 <= j < |chain| ==> chain[j] in chain;
  }

  lemma ChainLonger(links: seq<Option<nat>>, last: Option<nat>, chain: seq<nat>, p: nat)
    requires Chained(links, last, chain) && chain != [] && p < |links| && links[p] == None
    requires p !in chain && forall i, j :: 0 <= i < j < |chain| ==> chain[i] < chain[j]
    ensures Chained(links[chain[|chain|-1] := Some(p)], last, chain + [p])
  {
    var links', chain' := links[chain[|chain|-1] := Some(p)], chain + [p];
    forall j | 0 <= j < |chain'| ensures links'[chain'[j]] == Next(chain', j + 1) {
      if j < |chain| - 1 { assert chain[j] < chain[|chain|-1]; }
      if j == |chain| { assert chain[|chain|-1] in chain; }
    }
  }

  // ---------- What the compiler's tables hold ----------

  ghost predicate TableIs(items: seq<Item>, table: seq<Entry>) {
    && |table| == |Names(items)| + 1 && table[0].name == None
    && (forall i :: 1 <= i < |table| ==> table[i].name.Some? && table[i].name.value in Names(items))
    && (forall i, j :: 0 <= i < j < |table| ==> table[i].name != table[j].name)
    && (forall name :: name in Names(items) ==> exists i :: 1 <= i < |table| && table[i].name == Some(name))
    && (forall i :: 0 <= i < |table| ==> table[i].address == AddressOf(items, table[i].name))
  }

  ghost predicate ChainsAre(items: seq<Item>, links: seq<Option<nat>>, table: seq<Entry>) {
    forall i :: 0 <= i < |table| ==> Chained(links, table[i].last, Pending(items, table[i].name))
  }

  ghost predicate FixedAre(items: seq<Item>, links: seq<Option<nat>>) {
    && |links| == MAXCMDS + 1 && Pos(items) < MAXCMDS
    && (forall p :: 0 <= p < Pos(items) && Known(items)[p].Fixed? ==> links[p] == Known(items)[p].to)
    && forall p :: Pos(items) <= p < |links| ==> links[p] == None
  }

  ghost predicate StackIs(items: seq<Item>, stack: seq<nat>) {
    |stack| == |Opened(items)| && forall l :: 0 <= l < |stack| ==> stack[l] == Pos(items[..Opened(items)[l]])
  }

  ghost predicate Tables(items: seq<Item>, links: seq<Option<nat>>, table: seq<Entry>, stack: seq<nat>) {
    TableIs(items, table) && ChainsAre(items, links, table) && FixedAre(items, links) && StackIs(items, stack)
  }

  /** What can be said of a script while it is being read. */
  ghost predicate SoFar(items: seq<Item>) {
    && AllUnaddressed(items) && NoDoubles(items)
    && Depth(items) >= 0 && Deepest(items) <= MAXDEPTH && Pos(items) < MAXCMDS && |Names(items)| < MAXLABS - 1
  }

  lemma {:induction false} NamesGrow(items: seq<Item>, k: nat)
    requires k <= |items|
    ensures Names(items[..k]) <= Names(items) && |Names(items[..k])| <= |Names(items)|
    ensures Depth(items[..k]) < 0 ==> Depth(items) < 0
    ensures Deepest(items[..k]) <= Deepest(items)
    decreases |items|
  {
    if k == |items| {
      assert items[..k] == items;
    } else {
      var init := items[..|items|-1];
      assert init[..k] == items[..k];
      NamesGrow(init, k);
      Fewer(Names(init), Names(items));
    }
  }

  lemma {:induction false} Fewer(a: set<string>, b: set<string>)
    requires a <= b
    ensures |a| <= |b|
  {
    assert b == a + (b - a);
  }

  /** What can be said of a script can be said of each beginning. */
  lemma SoFarBack(items: seq<Item>, k: nat)
    requires k <= |items| && SoFar(items)
    ensures SoFar(items[..k])
  {
    hide Depth, Deepest, Names, Pos, AllUnaddressed, NoDoubles;
    NamesGrow(items, k);
    PosGrows(items, k);
    PartsGood(items, k);
  }

  /** A beginning that does not compile spoils the script. */
  lemma Spoiled(items: seq<Item>, k: nat)
    requires k <= |items| && !SoFar(items[..k])
    ensures !Compiles(items)
  {
    hide Depth, Deepest, Names, Pos, AllUnaddressed, NoDoubles, BranchesDeclared;
    if Compiles(items) { SoFarBack(items, k); }
  }

  lemma PartsGood(items: seq<Item>, k: nat)
    requires k <= |items| && AllUnaddressed(items) && NoDoubles(items)
    ensures AllUnaddressed(items[..k]) && NoDoubles(items[..k])
  {
  }

  lemma OneAddressed(items: seq<Item>, x: Item)
    ensures AllUnaddressed(items + [x]) <==> AllUnaddressed(items) && Unaddressed(x)
  {
    assert (items + [x])[|items|] == x;
    if AllUnaddressed(items + [x]) {
      forall j | 0 <= j < |items| ensures Unaddressed(items[j]) { assert (items + [x])[j] == items[j]; }
    }
  }

  lemma OneDouble(items: seq<Item>, x: Item)
    requires NoDoubles(items)
    ensures NoDoubles(items + [x]) <==> (x.Label? ==> DeclaredAt(items, x.name).None?)
  {
    hide DeclaredAt, IsDeclared;
    var items' := items + [x];
    if x.Label? {
      DeclaredIs(items, x.name);
      Doubled(items, x);
    }
  }

  lemma Doubled(items: seq<Item>, x: Item)
    requires NoDoubles(items) && x.Label?
    ensures NoDoubles(items + [x]) <==> !IsDeclared(items, x.name)
  {
    var items' := items + [x];
    if IsDeclared(items, x.name) {
      var d :| 0 <= d < |items| && Declares(items[d], x.name);
      assert items'[d].Label? && items'[|items|].Label?;
    } else {
      assert forall i :: 0 <= i < |items| ==> !Declares(items[i], x.name);
    }
  }

  lemma OneDeeper(items: seq<Item>, x: Item)
    requires Depth(items) >= 0
    ensures Depth(items + [x]) >= 0 <==> !(x.Close? && Opened(items) == [])
    ensures Deepest(items) <= MAXDEPTH ==> (Deepest(items + [x]) <= MAXDEPTH <==> (x.Open? ==> |Opened(items)| < MAXDEPTH))
    ensures Pos(items + [x]) == Pos(items) + if TakesPlace(x) then 1 else 0
  {
    One(items, x);
    OpenedCount(items);
  }

  /** What one more item asks for. */
  lemma OneMore(items: seq<Item>, x: Item)
    requires SoFar(items)
    ensures SoFar(items + [x]) <==>
      && Unaddressed(x) && (x.Label? ==> DeclaredAt(items, x.name).None?) && !(x.Close? && Opened(items) == [])
      && (x.Open? ==> |Opened(items)| < MAXDEPTH)
      && (TakesPlace(x) ==> Pos(items) + 1 < MAXCMDS) && |Names(items + [x])| < MAXLABS - 1
    ensures Pos(items + [x]) == Pos(items) + if TakesPlace(x) then 1 else 0
  {
    hide Names, Opened, Pos, Depth, Deepest, AllUnaddressed, NoDoubles, DeclaredAt, Unaddressed;
    OneAddressed(items, x);
    OneDouble(items, x);
    OneDeeper(items, x);
  }

  // ---------- What each command does to the tables ----------

  /** The pending commands of a target, once more has been read. */
  lemma PendingMore(items: seq<Item>, x: Item, target: Option<string>)
    ensures Pending(items + [x], target) ==
      if x == Branch(target) && AddressOf(items, target).None? then Pending(items, target) + [Pos(items)] else Pending(items, target)
  {
    hide AddressOf;
    One(items, x);
  }

  lemma AddressMore(items: seq<Item>, x: Item, target: Option<string>)
    ensures AddressOf(items + [x], target) ==
      if target.Some? && Declares(x, target.value) && AddressOf(items, target).None? then Some(Pos(items)) else AddressOf(items, target)
  {
    One(items, x);
  }

  lemma NamesMore(items: seq<Item>, x: Item)
    ensures Names(items + [x]) == Names(items) + NamesOf(x)
  {
    One(items, x);
  }

  function NamesOf(x: Item): set<string> {
    match x
    case Label(name, _) => {name}
    case Branch(target) => if target.Some? then {target.value} else {}
    case _ => {}
  }

  /** Items without names leave the table as it is, and right braces, plain commands and restarts the chains. */
  lemma TableKept(items: seq<Item>, x: Item, table: seq<Entry>)
    requires TableIs(items, table) && NamesOf(x) <= Names(items) && !x.Label?
    ensures TableIs(items + [x], table)
  {
    hide Pos, Names, AddressOf;
    NamesMore(items, x);
    assert Names(items) + NamesOf(x) == Names(items);
    forall i | 0 <= i < |table| ensures table[i].address == AddressOf(items + [x], table[i].name) { AddressMore(items, x, table[i].name); }
  }

  lemma ChainsKept(items: seq<Item>, x: Item, links: seq<Option<nat>>, links': seq<Option<nat>>, table: seq<Entry>)
    requires ChainsAre(items, links, table) && |links'| == |links|
    requires x.Branch? ==> AddressOf(items, x.target).Some?
    requires forall p :: 0 <= p < |links| && links'[p] != links[p] ==> Pos(items) <= p || Known(items)[p].Fixed?
    ensures ChainsAre(items + [x], links', table)
  {
    hide Pos, Known, AddressOf, Chained, Pending;
    forall i | 0 <= i < |table| ensures Chained(links', table[i].last, Pending(items + [x], table[i].name)) {
      PendingMore(items, x, table[i].name);
      PendingIs(items, table[i].name);
      ChainSame(links, links', table[i].last, Pending(items, table[i].name));
    }
  }

  lemma KnownMore(items: seq<Item>, x: Item)
    requires !x.Close?
    ensures Known(items + [x]) == Known(items) + Added(items, x) && Pos(items + [x]) == Pos(items) + |Added(items, x)|
  {
    hide AddressOf;
    One(items, x);
  }

  /** The link of one more command. */
  function Added(items: seq<Item>, x: Item): (r: seq<Link>)
    ensures |r| <= 1
  {
    match x
    case Branch(target) => [if AddressOf(items, target).Some? then Fixed(AddressOf(items, target)) else Waiting(target)]
    case Restart => [Fixed(Some(0))]
    case Label(_, _) => []
    case _ => [Fixed(None)]
  }

  /** The link of the new command is set, or it is left alone and waits; perhaps that of a waiting command is set. */
  lemma FixedMore(items: seq<Item>, x: Item, links: seq<Option<nat>>, links': seq<Option<nat>>)
    requires FixedAre(items, links) && !x.Close? && Pos(items) + |Added(items, x)| < MAXCMDS && |links'| == |links|
    requires forall p :: 0 <= p < Pos(items) && links'[p] != links[p] ==> Known(items)[p].Waiting?
    requires forall p :: Pos(items) < p < |links| ==> links'[p] == None
    requires if Added(items, x) != [] && Added(items, x)[0].Fixed? then links'[Pos(items)] == Added(items, x)[0].to else links'[Pos(items)] == None
    ensures FixedAre(items + [x], links')
  {
    hide Known, Pos, Added;
    KnownMore(items, x);
  }

  lemma StackMore(items: seq<Item>, x: Item, stack: seq<nat>)
    requires StackIs(items, stack) && !x.Close?
    ensures StackIs(items + [x], if x.Open? then stack + [Pos(items)] else stack)
  {
    One(items, x);
    hide Pos;
    forall l | 0 <= l < |stack| ensures (items + [x])[..Opened(items)[l]] == items[..Opened(items)[l]] { OpenedBefore(items, l); }
  }

  /** A right brace: the link of the last left brace is set. */
  lemma Closed(items: seq<Item>, x: Item, links: seq<Option<nat>>, table: seq<Entry>, stack: seq<nat>)
    requires x.Close? && Tables(items, links, table, stack) && stack != []
    ensures stack[|stack|-1] < |links|
    ensures Tables(items + [x], links[stack[|stack|-1] := Some(Pos(items))], table, stack[..|stack|-1])
  {
    hide TableIs, ChainsAre, Known, Opened, Pos, Names, AddressOf, Added;
    var q, l: nat := stack[|stack|-1], |stack| - 1;
    OpenedIsFixed(items, l);
    assert q == Pos(items[..Opened(items)[l]]);
    var links' := links[q := Some(Pos(items))];
    assert Known(items)[q].Fixed?;
    TableKept(items, x, table);
    ChainsKept(items, x, links, links', table);
    FixedClosed(items, x, links, q);
    StackClosed(items, x, stack);
  }

  lemma FixedClosed(items: seq<Item>, x: Item, links: seq<Option<nat>>, q: nat)
    requires x.Close? && FixedAre(items, links) && Opened(items) != []
    requires q == Pos(items[..Opened(items)[|Opened(items)|-1]])
    ensures q < |links| && FixedAre(items + [x], links[q := Some(Pos(items))])
  {
    One(items, x);
    hide Known, Pos, Opened;
    KnownStays(items + [x]);
    OpenedIsFixed(items, |Opened(items)| - 1);
  }

  lemma StackClosed(items: seq<Item>, x: Item, stack: seq<nat>)
    requires x.Close? && StackIs(items, stack) && stack != []
    ensures StackIs(items + [x], stack[..|stack|-1])
  {
    One(items, x);
    hide Pos;
    forall l | 0 <= l < |stack| ensures (items + [x])[..Opened(items)[l]] == items[..Opened(items)[l]] { OpenedBefore(items, l); }
  }

  // ---------- Labels ----------

  lemma {:induction false} OnlyNamed(items: seq<Item>, name: string)
    requires name !in Names(items)
    ensures Pending(items, Some(name)) == [] && DeclaredAt(items, name) == None
  {
    if items != [] {
      OnlyNamed(items[..|items|-1], name);
    }
  }

  lemma {:induction false} NamedWaits(items: seq<Item>, name: string)
    requires name in Names(items) && DeclaredAt(items, name) == None
    ensures Pending(items, Some(name)) != []
  {
    if items != [] {
      var init, x := items[..|items|-1], items[|items|-1];
      if name in Names(init) { NamedWaits(init, name); }
    }
  }

  /** A new label, waited for or declared. */
  ghost predicate NewEntry(items: seq<Item>, x: Item, name: string, e: Entry) {
    && e.name == Some(name) && name !in Names(items)
    && ((x == Branch(Some(name)) && e.last == Some(Pos(items)) && e.address == None) ||
        (x.Label? && x.name == name && e.last == None && e.address == Some(Pos(items))))
  }

  lemma TableMore(items: seq<Item>, x: Item, name: string, table: seq<Entry>, e: Entry)
    requires TableIs(items, table) && NewEntry(items, x, name, e)
    ensures TableIs(items + [x], table + [e])
  {
    hide Pos, Names, AddressOf;
    NamesMore(items, x);
    assert Names(items + [x]) == Names(items) + {name};
    OnlyNamed(items, name);
    var table' := table + [e];
    forall i | 0 <= i < |table'| ensures table'[i].address == AddressOf(items + [x], table'[i].name) {
      AddressMore(items, x, table'[i].name);
      AddressIs(items, table'[i].name);
    }
    forall n | n in Names(items + [x]) ensures exists i :: 1 <= i < |table'| && table'[i].name == Some(n) {
      if n == name {
        assert table'[|table|].name == Some(n);
      } else {
        var i :| 1 <= i < |table| && table[i].name == Some(n);
        assert table'[i].name == Some(n);
      }
    }
  }

  lemma AddressIs(items: seq<Item>, target: Option<string>)
    ensures AddressOf(items, target) == if target.None? then None else DeclaredAt(items, target.value)
  {
  }

  lemma ChainsMore(items: seq<Item>, x: Item, name: string, links: seq<Option<nat>>, table: seq<Entry>, e: Entry)
    requires ChainsAre(items, links, table) && FixedAre(items, links) && NewEntry(items, x, name, e)
    requires forall i :: 0 <= i < |table| ==> table[i].name != Some(name)
    ensures ChainsAre(items + [x], links, table + [e])
  {
    hide Known, AddressOf, Pending, Names;
    var table' := table + [e];
    OnlyNamed(items, name);
    AddressIs(items, Some(name));
    forall i | 0 <= i < |table'| ensures Chained(links, table'[i].last, Pending(items + [x], table'[i].name)) {
      PendingMore(items, x, table'[i].name);
    }
  }

  /** A label that has been waited for is declared. */
  lemma TableSet(items: seq<Item>, x: Item, table: seq<Entry>, i: nat)
    requires TableIs(items, table) && x.Label? && i < |table| && table[i].name == Some(x.name) && table[i].address == None
    ensures TableIs(items + [x], table[i := table[i].(address := Some(Pos(items)))])
  {
    hide Pos, Names, AddressOf;
    NamesMore(items, x);
    assert Names(items) + NamesOf(x) == Names(items);
    var table' := table[i := table[i].(address := Some(Pos(items)))];
    forall k | 0 <= k < |table| ensures table'[k].address == AddressOf(items + [x], table'[k].name) {
      AddressMore(items, x, table[k].name);
    }
    SameNames(table, table', Names(items));
  }

  lemma SameNames(table: seq<Entry>, table': seq<Entry>, names: set<string>)
    requires |table'| == |table| && forall k :: 0 <= k < |table| ==> table'[k].name == table[k].name
    requires forall name :: name in names ==> exists i :: 1 <= i < |table| && table[i].name == Some(name)
    ensures forall name :: name in names ==> exists i :: 1 <= i < |table| && table'[i].name == Some(name)
  {
    forall name | name in names ensures exists i :: 1 <= i < |table| && table'[i].name == Some(name) {
      var i :| 1 <= i < |table| && table[i].name == Some(name);
      assert table'[i].name == Some(name);
    }
  }

  lemma ChainsSet(items: seq<Item>, x: Item, links: seq<Option<nat>>, table: seq<Entry>, i: nat, a: Option<nat>)
    requires ChainsAre(items, links, table) && x.Label? && i < |table|
    ensures ChainsAre(items + [x], links, table[i := table[i].(address := a)])
  {
    hide Known, AddressOf, Pending, Names, Chained;
    forall k | 0 <= k < |table| ensures Pending(items + [x], table[k].name) == Pending(items, table[k].name) {
      PendingMore(items, x, table[k].name);
    }
  }

  /** A branch that has to wait, behind others. */
  lemma ChainsJoin(items: seq<Item>, target: Option<string>, links: seq<Option<nat>>, table: seq<Entry>, i: nat)
    requires TableIs(items, table) && ChainsAre(items, links, table) && FixedAre(items, links)
    requires i < |table| && table[i].name == target && table[i].address == None && Pending(items, target) != []
    ensures var q := Pending(items, target)[|Pending(items, target)|-1];
      && q < Pos(items) && Known(items)[q].Waiting?
      && ChainsAre(items + [Branch(target)], links[q := Some(Pos(items))], table)
  {
    hide Known, AddressOf, Pending, Names, Chained, Pos;
    var chain, x := Pending(items, target), Branch(target);
    var q := chain[|chain|-1];
    assert q in chain;
    PendingIs(items, target);
    var links' := links[q := Some(Pos(items))];
    forall k | 0 <= k < |table| ensures Chained(links', table[k].last, Pending(items + [x], table[k].name)) {
      PendingMore(items, x, table[k].name);
      PendingIs(items, table[k].name);
      if k == i {
        ChainLonger(links, table[i].last, chain, Pos(items));
      } else {
        ChainSame(links, links', table[k].last, Pending(items, table[k].name));
      }
    }
  }

  /** The first branch to the end of the script. */
  lemma ChainsFirst(items: seq<Item>, links: seq<Option<nat>>, table: seq<Entry>)
    requires TableIs(items, table) && ChainsAre(items, links, table) && FixedAre(items, links) && table[0].last == None
    ensures ChainsAre(items + [Branch(None)], links, table[0 := table[0].(last := Some(Pos(items)))])
    ensures TableIs(items + [Branch(None)], table[0 := table[0].(last := Some(Pos(items)))])
  {
    hide Known, AddressOf, Pending, Names, Pos;
    var x: Item := Branch(None);
    var table' := table[0 := table[0].(last := Some(Pos(items)))];
    AddressIs(items, None);
    forall k | 0 <= k < |table| ensures Chained(links, table'[k].last, Pending(items + [x], table'[k].name)) {
      PendingMore(items, x, table[k].name);
    }
    TableKept(items, x, table);
    NamesMore(items, x);
    SameNames(table, table', Names(items + [x]));
  }

  lemma Beginning(links: seq<Option<nat>>, table: seq<Entry>)
    requires |links| == MAXCMDS + 1 && (forall p :: 0 <= p < |links| ==> links[p] == None) && table == [Entry(None, None, None)]
    ensures SoFar([]) && Tables([], links, table, [])
  {
  }

  class Compiler {
    const links: array<Option<nat>>
    const labels: array<Entry>
    var lab: nat
    var cmdp: nat
    const cmpstk: array<nat>
    var bdepth: nat

    /** What the tables hold after part of a script. */
    ghost predicate Valid(items: seq<Item>)
      reads this, links, labels, cmpstk
    {
      && cmpstk.Length == MAXDEPTH && bdepth <= MAXDEPTH && links.Length == MAXCMDS + 1 && labels.Length == MAXLABS && lab == |Names(items)| + 1 < MAXLABS && cmdp == Pos(items)
      && SoFar(items) && Tables(items, links[..], labels[..lab], cmpstk[..bdepth])
    }

    constructor ()
      ensures Valid([]) && fresh(links) && fresh(labels) && fresh(cmpstk)
    {
      links := new Option<nat>[MAXCMDS + 1](i => None);
      labels := new Entry[MAXLABS](i => Entry(None, None, None));
      cmpstk := new nat[MAXDEPTH];
      lab, cmdp, bdepth := 1, 0, 0;
      new;
      Beginning(links[..], labels[..lab]);
    }

    /** search() */
    method Search(name: string) returns (rp: nat)
      requires lab <= labels.Length
      ensures rp <= lab && (rp < lab ==> labels[rp].name == Some(name))
      ensures rp == lab ==> forall i :: 0 <= i < lab ==> labels[i].name != Some(name)
    {
      rp := 0;
      while rp < lab && labels[rp].name != Some(name)
        invariant 0 <= rp <= lab && forall i :: 0 <= i < rp ==> labels[i].name != Some(name)
      {
        rp := rp + 1;
      }
    }

    /** To the end of a chain. */
    method Tail(last: nat, ghost chain: seq<nat>) returns (sp1: nat)
      requires Chained(links[..], Some(last), chain)
      ensures chain != [] && sp1 == chain[|chain|-1] < links.Length
    {
      sp1 := last;
      ghost var j := 0;
      while links[sp1].Some?
        invariant 0 <= j < |chain| && sp1 == chain[j] < links.Length
        decreases |chain| - j
      {
        sp1 := links[sp1].value;
        j := j + 1;
      }
    }

    /** A command without a jump, or `D`. */
    method Simple(x: Item, ghost items: seq<Item>) returns (ok: bool)
      requires Valid(items) && (x.Plain? || x.Restart?)
      modifies this, links
      ensures ok <==> SoFar(items + [x])
      ensures ok ==> Valid(items + [x])
    {
      hide TableIs, ChainsAre, FixedAre, StackIs, SoFar, Pos, Names, Known;
      OneMore(items, x);
      NamesMore(items, x);
      FixedRoom(items, links[..]);
      ghost var links0 := links[..];
      if x.Restart? { links[cmdp] := Some(0); }
      assert Names(items) + NamesOf(x) == Names(items);
      cmdp := cmdp + 1;
      ok := cmdp < MAXCMDS;
      if ok {
        KnownMore(items, x);
        TableKept(items, x, labels[..lab]);
        ChainsKept(items, x, links0, links[..], labels[..lab]);
        FixedMore(items, x, links0, links[..]);
        StackMore(items, x, cmpstk[..bdepth]);
      }
    }

    /** `{`: the place of its link is put on the stack, which is not asked whether it is full. */
    method OpenBrace(ghost items: seq<Item>) returns (ok: bool)
      requires Valid(items) && bdepth < MAXDEPTH
      modifies this, cmpstk
      ensures ok <==> SoFar(items + [Open])
      ensures ok ==> Valid(items + [Open])
    {
      hide TableIs, ChainsAre, FixedAre, StackIs, SoFar, Pos, Names, Known;
      ghost var x: Item := Open;
      OneMore(items, x);
      NamesMore(items, x);
      FixedRoom(items, links[..]);
      assert Names(items) + NamesOf(x) == Names(items);
      ghost var stack := cmpstk[..bdepth];
      StackSize(items, stack);
      cmpstk[bdepth] := cmdp;
      bdepth := bdepth + 1;
      assert cmpstk[..bdepth] == stack + [cmdp];
      cmdp := cmdp + 1;
      ok := cmdp < MAXCMDS;
      if ok {
        KnownMore(items, x);
        TableKept(items, x, labels[..lab]);
        ChainsKept(items, x, links[..], links[..], labels[..lab]);
        FixedMore(items, x, links[..], links[..]);
        StackMore(items, x, stack);
      }
    }

    /** `}` */
    method CloseBrace(x: Item, ghost items: seq<Item>) returns (ok: bool)
      requires Valid(items) && x.Close?
      modifies this, links
      ensures ok <==> SoFar(items + [x])
      ensures ok ==> Valid(items + [x])
    {
      hide TableIs, ChainsAre, FixedAre, SoFar, Pos, Names, Known, Opened;
      OneMore(items, x);
      NamesMore(items, x);
      assert Names(items) + NamesOf(x) == Names(items);
      if x.addressed || bdepth == 0 { return false; }
      hide StackIs;
      ghost var stack := cmpstk[..bdepth];
      Closed(items, x, links[..], labels[..lab], stack);
      bdepth := bdepth - 1;
      links[cmpstk[bdepth]] := Some(cmdp);
      assert cmpstk[..bdepth] == stack[..|stack| - 1];
      ok := true;
    }

    /** `:` */
    method Declare(x: Item, ghost items: seq<Item>) returns (ok: bool)
      requires Valid(items) && x.Label?
      modifies this, labels
      ensures ok <==> SoFar(items + [x])
      ensures ok ==> Valid(items + [x])
    {
      hide TableIs, ChainsAre, FixedAre, StackIs, SoFar, Pos, Names, Known, DeclaredAt;
      ghost var table := labels[..lab];
      OneMore(items, x);
      NamesMore(items, x);
      EntryFor(items, table, x.name);
      FixedRoom(items, links[..]);
      if x.addressed { return false; }
      var lpt := Search(x.name);
      StackMore(items, x, cmpstk[..bdepth]);
      FixedMore(items, x, links[..], links[..]);
      if lpt < lab {
        EntryIs(items, table, lpt);
        if labels[lpt].address.Some? { return false; }
        assert Names(items) + {x.name} == Names(items);
        TableSet(items, x, table, lpt);
        ChainsSet(items, x, links[..], table, lpt, Some(cmdp));
        labels[lpt] := labels[lpt].(address := Some(cmdp));
        assert labels[..lab] == table[lpt := table[lpt].(address := Some(cmdp))];
        ok := true;
      } else {
        OnlyNamed(items, x.name);
        OneName(Names(items), x.name);
        labels[lab] := Entry(Some(x.name), None, None);
        lab := lab + 1;
        ok := lab < MAXLABS;
        if ok {
          labels[lpt] := labels[lpt].(address := Some(cmdp));
          ghost var e := Entry(Some(x.name), None, Some(cmdp));
          TableMore(items, x, x.name, table, e);
          ChainsMore(items, x, x.name, links[..], table, e);
          assert labels[..lab] == table + [e];
        }
      }
    }

    /** `b`, `t` and `T` */
    method Jump(target: Option<string>, ghost items: seq<Item>) returns (ok: bool)
      requires Valid(items)
      modifies this, links, labels
      ensures ok <==> SoFar(items + [Branch(target)])
      ensures ok ==> Valid(items + [Branch(target)])
    {
      hide TableIs, ChainsAre, FixedAre, StackIs, SoFar, Pos, Names, Known, DeclaredAt;
      ghost var x: Item := Branch(target);
      OneMore(items, x);
      StackMore(items, x, cmpstk[..bdepth]);
      FixedRoom(items, links[..]);
      if target.None? {
        ToEnd(items);
      } else {
        ok := ToLabel(target.value, items);
        if !ok { return; }
      }
      cmdp := cmdp + 1;
      ok := cmdp < MAXCMDS;
    }

    /** The tables when a command that jumps has been entered, but not counted yet. */
    ghost predicate Entered(items: seq<Item>, x: Item)
      reads this`lab, links, labels
    {
      && links.Length == MAXCMDS + 1 && labels.Length == MAXLABS && lab == |Names(items + [x])| + 1 < MAXLABS
      && TableIs(items + [x], labels[..lab]) && ChainsAre(items + [x], links[..], labels[..lab])
      && (Pos(items) + 1 < MAXCMDS ==> FixedAre(items + [x], links[..]))
    }

    method ToEnd(ghost items: seq<Item>)
      requires Valid(items)
      modifies links, labels
      ensures Entered(items, Branch(None))
    {
      hide TableIs, ChainsAre, FixedAre, StackIs, SoFar, Pos, Names, Known, DeclaredAt, Chained, Pending;
      ghost var x: Item := Branch(None);
      ghost var table, links0 := labels[..lab], links[..];
      NamesMore(items, x);
      assert Names(items) + NamesOf(x) == Names(items);
      EntryIs(items, table, 0);
      ChainIs(items, links0, table, 0);
      FixedRoom(items, links[..]);
      if labels[0].last.Some? {
        JoinFixed(items, None, links0, table, 0);
        var sp1 := Tail(labels[0].last.value, Pending(items, None));
        links[sp1] := Some(cmdp);
        TableKept(items, x, table);
      } else {
        ChainsFirst(items, links0, table);
        labels[0] := labels[0].(last := Some(cmdp));
        assert labels[..lab] == table[0 := table[0].(last := Some(cmdp))];
        if cmdp + 1 < MAXCMDS { FixedMore(items, x, links0, links0); }
      }
    }

    method ToLabel(name: string, ghost items: seq<Item>) returns (ok: bool)
      requires Valid(items)
      modifies this`lab, links, labels
      ensures ok <==> |Names(items + [Branch(Some(name))])| < MAXLABS - 1
      ensures ok ==> Entered(items, Branch(Some(name)))
    {
      hide TableIs, ChainsAre, FixedAre, StackIs, SoFar, Pos, Names, Known, DeclaredAt, Chained, Pending;
      ghost var x: Item := Branch(Some(name));
      ghost var table, links0 := labels[..lab], links[..];
      NamesMore(items, x);
      EntryFor(items, table, name);
      FixedRoom(items, links[..]);
      var lpt := Search(name);
      if lpt < lab {
        EntryIs(items, table, lpt);
        assert Names(items) + {name} == Names(items);
        TableKept(items, x, table);
        if labels[lpt].address.Some? {
          links[cmdp] := labels[lpt].address;
          ChainsKept(items, x, links0, links[..], table);
          if cmdp + 1 < MAXCMDS { FixedMore(items, x, links0, links[..]); }
        } else {
          NamedWaits(items, name);
          ChainIs(items, links0, table, lpt);
          JoinFixed(items, Some(name), links0, table, lpt);
          var sp1 := Tail(labels[lpt].last.value, Pending(items, Some(name)));
          links[sp1] := Some(cmdp);
        }
        ok := true;
      } else {
        OnlyNamed(items, name);
        OneName(Names(items), name);
        labels[lab] := Entry(Some(name), Some(cmdp), None);
        lab := lab + 1;
        ok := lab < MAXLABS;
        if ok {
          ghost var e := labels[lab - 1];
          TableMore(items, x, name, table, e);
          ChainsMore(items, x, name, links[..], table, e);
          assert labels[..lab] == table + [e];
          if cmdp + 1 < MAXCMDS { FixedMore(items, x, links0, links0); }
        }
      }
    }

    /** One command of compile(). */
    method Command(x: Item, ghost items: seq<Item>) returns (ok: bool)
      requires Valid(items) && (x.Open? ==> bdepth < MAXDEPTH)
      modifies this, links, labels, cmpstk
      ensures ok <==> SoFar(items + [x])
      ensures ok ==> Valid(items + [x])
    {
      hide SoFar, Tables;
      match x {
        case Open => ok := OpenBrace(items);
        case Close(_) => ok := CloseBrace(x, items);
        case Label(_, _) => ok := Declare(x, items);
        case Branch(target) => ok := Jump(target, items);
        case _ => ok := Simple(x, items);
      }
    }

    /** The links of one label's commands are set to its address. */
    method Patch(last: nat, address: nat, ghost chain: seq<nat>)
      requires Chained(links[..], Some(last), chain) && forall i, j :: 0 <= i < j < |chain| ==> chain[i] < chain[j]
      modifies links
      ensures forall p :: 0 <= p < links.Length ==> links[p] == if p in chain then Some(address) else old(links[p])
    {
      var rptr := last;
      ghost var j := 0;
      while links[rptr].Some?
        invariant 0 <= j < |chain| && rptr == chain[j] < links.Length
        invariant forall p :: 0 <= p < links.Length && p !in chain ==> links[p] == old(links[p])
        invariant forall i :: 0 <= i < |chain| ==> chain[i] < links.Length && links[chain[i]] == if i < j then Some(address) else Next(chain, i + 1)
        decreases |chain| - j
      {
        var trptr := links[rptr].value;
        links[rptr] := Some(address);
        rptr := trptr;
        j := j + 1;
      }
      links[rptr] := Some(address);
      assert forall i :: 0 <= i < |chain| ==> links[chain[i]] == Some(address);
    }

    /** resolve(), after the end of the script has become the address of the first label. */
    method Resolve(ghost items: seq<Item>) returns (ok: bool)
      requires Valid(items)
      modifies links, labels
      ensures ok <==> forall name :: name in Names(items) ==> DeclaredAt(items, name).Some?
      ensures ok ==> links.Length > Pos(items) && forall p :: 0 <= p < Pos(items) ==> links[p] == Resolved(items, Known(items)[p])
    {
      hide TableIs, ChainsAre, FixedAre, StackIs, SoFar, Pos, Names, Known, DeclaredAt, Chained, Pending, AddressOf, Resolved, Patched;
      ghost var table, links0 := labels[..lab], links[..];
      FixedRoom(items, links0);
      EntryIs(items, table, 0);
      labels[0] := labels[0].(address := Some(cmdp));
      var lptr := 0;
      PatchedFirst(items, table, links0);
      while lptr < lab
        invariant 0 <= lptr <= lab && links.Length == |links0| && labels[..lab] == table[0 := table[0].(address := Some(cmdp))]
        invariant Patched(items, table, lptr, links0, links[..])
        invariant forall i :: 1 <= i < lptr ==> table[i].address.Some?
      {
        if labels[lptr].address.None? {
          Undeclared(items, table, lptr);
          return false;
        }
        ChainIs(items, links0, table, lptr);
        FinalAddress(items, table, lptr, labels[lptr]);
        if labels[lptr].last.Some? {
          ghost var chain := Pending(items, table[lptr].name);
          assert labels[lptr].last == table[lptr].last;
          PatchedApart(items, table, lptr, links0, links[..]);
          PendingIs(items, table[lptr].name);
          ghost var before := links[..];
          Patch(labels[lptr].last.value, labels[lptr].address.value, chain);
          PatchedMore(items, table, lptr, links0, before, links[..], labels[lptr].address);
        } else {
          PatchedNone(items, table, lptr, links0, links[..]);
        }
        lptr := lptr + 1;
      }
      AllDeclared(items, table);
      AllPatched(items, table, links0, links[..]);
      ok := true;
    }
  }

  // ---------- Resolving ----------

  /** The commands that waited for the target have its address. */
  ghost predicate Done(items: seq<Item>, target: Option<string>, links: seq<Option<nat>>) {
    forall p :: p in Pending(items, target) ==> p < |links| && links[p] == Resolved(items, Waiting(target))
  }

  ghost predicate Untouched(items: seq<Item>, table: seq<Entry>, k: nat, p: nat)
    requires k <= |table|
  {
    forall i :: 0 <= i < k ==> p !in Pending(items, table[i].name)
  }

  /** The chains of the first k labels are gone, and nothing else has changed. */
  ghost predicate Patched(items: seq<Item>, table: seq<Entry>, k: nat, links0: seq<Option<nat>>, links: seq<Option<nat>>) {
    && k <= |table| && |links| == |links0|
    && (forall i :: 0 <= i < k ==> Done(items, table[i].name, links))
    && forall p :: 0 <= p < |links| && Untouched(items, table, k, p) ==> links[p] == links0[p]
  }

  lemma Apart(items: seq<Item>, table: seq<Entry>, i: nat, k: nat, p: nat)
    requires TableIs(items, table) && i < |table| && k < |table| && i != k && p in Pending(items, table[i].name)
    ensures p !in Pending(items, table[k].name)
  {
    hide Pending, Known, Names, Pos, AddressOf;
    PendingIs(items, table[i].name);
    PendingIs(items, table[k].name);
  }

  lemma PatchedApart(items: seq<Item>, table: seq<Entry>, k: nat, links0: seq<Option<nat>>, links: seq<Option<nat>>)
    requires TableIs(items, table) && ChainsAre(items, links0, table) && Patched(items, table, k, links0, links) && k < |table|
    ensures Chained(links, table[k].last, Pending(items, table[k].name))
  {
    hide Pending, TableIs, Done, Chained;
    var chain := Pending(items, table[k].name);
    forall p | p in chain && p < |links0| ensures links[p] == links0[p] {
      forall i | 0 <= i < k ensures p !in Pending(items, table[i].name) { Apart(items, table, k, i, p); }
      assert Untouched(items, table, k, p);
    }
    ChainSame(links0, links, table[k].last, chain);
  }

  lemma PatchedMore(items: seq<Item>, table: seq<Entry>, k: nat, links0: seq<Option<nat>>, before: seq<Option<nat>>, links: seq<Option<nat>>, address: Option<nat>)
    requires TableIs(items, table) && Patched(items, table, k, links0, before) && k < |table| && |links| == |before|
    requires address == Resolved(items, Waiting(table[k].name))
    requires forall p :: p in Pending(items, table[k].name) ==> p < |links|
    requires forall p :: 0 <= p < |links| ==> links[p] == if p in Pending(items, table[k].name) then address else before[p]
    ensures Patched(items, table, k + 1, links0, links)
  {
    hide Pending, TableIs, Resolved;
    forall i | 0 <= i < k ensures Done(items, table[i].name, links) {
      forall p | p in Pending(items, table[i].name) ensures p < |links| && links[p] == Resolved(items, Waiting(table[i].name)) {
        assert Done(items, table[i].name, before);
        Apart(items, table, i, k, p);
      }
    }
    forall p: nat | p < |links| && Untouched(items, table, k + 1, p) ensures links[p] == links0[p] {
      assert p !in Pending(items, table[k].name);
      assert Untouched(items, table, k, p);
    }
  }

  lemma PatchedNone(items: seq<Item>, table: seq<Entry>, k: nat, links0: seq<Option<nat>>, links: seq<Option<nat>>)
    requires Patched(items, table, k, links0, links) && k < |table| && Pending(items, table[k].name) == []
    ensures Patched(items, table, k + 1, links0, links)
  {
    hide Pending, Resolved;
    assert Done(items, table[k].name, links);
    forall p: nat | p < |links| && Untouched(items, table, k + 1, p) ensures links[p] == links0[p] {
      assert Untouched(items, table, k, p);
    }
  }

  lemma FinalAddress(items: seq<Item>, table: seq<Entry>, i: nat, e: Entry)
    requires TableIs(items, table) && i < |table| && e == if i == 0 then table[0].(address := Some(Pos(items))) else table[i]
    ensures e.last == table[i].last && e.address == Resolved(items, Waiting(table[i].name))
  {
    hide Names, DeclaredAt, Pos;
  }

  lemma AllDeclared(items: seq<Item>, table: seq<Entry>)
    requires TableIs(items, table) && forall i :: 1 <= i < |table| ==> table[i].address.Some?
    ensures forall name :: name in Names(items) ==> DeclaredAt(items, name).Some?
  {
    hide Names, DeclaredAt;
    forall name | name in Names(items) ensures DeclaredAt(items, name).Some? {
      var i :| 1 <= i < |table| && table[i].name == Some(name);
    }
  }

  lemma Undeclared(items: seq<Item>, table: seq<Entry>, i: nat)
    requires TableIs(items, table) && 1 <= i < |table| && table[i].address.None?
    ensures exists name :: name in Names(items) && DeclaredAt(items, name).None?
  {
    hide Names, DeclaredAt;
    assert table[i].name.value in Names(items);
  }

  lemma WaitsForEntry(items: seq<Item>, table: seq<Entry>, target: Option<string>)
    requires TableIs(items, table) && Pending(items, target) != []
    ensures exists i :: 0 <= i < |table| && table[i].name == target
  {
    hide Names, DeclaredAt, Pending;
    if target.None? {
      assert table[0].name == target;
    } else {
      if target.value !in Names(items) { OnlyNamed(items, target.value); }
      var i :| 1 <= i < |table| && table[i].name == Some(target.value);
      assert table[i].name == target;
    }
  }

  lemma OnePatched(items: seq<Item>, table: seq<Entry>, links0: seq<Option<nat>>, links: seq<Option<nat>>, p: nat)
    requires TableIs(items, table) && FixedAre(items, links0) && Patched(items, table, |table|, links0, links) && p < Pos(items)
    ensures links[p] == Resolved(items, Known(items)[p])
  {
    hide Names, AddressOf, Pending, Known, Pos, TableIs;
    var target := if Known(items)[p].Waiting? then Known(items)[p].target else None;
    PendingIs(items, target);
    if Known(items)[p].Waiting? {
      WaitsForEntry(items, table, target);
      var i :| 0 <= i < |table| && table[i].name == target;
      assert Done(items, table[i].name, links);
    } else {
      forall i | 0 <= i < |table| ensures p !in Pending(items, table[i].name) { PendingIs(items, table[i].name); }
      assert Untouched(items, table, |table|, p);
    }
  }

  lemma AllPatched(items: seq<Item>, table: seq<Entry>, links0: seq<Option<nat>>, links: seq<Option<nat>>)
    requires TableIs(items, table) && FixedAre(items, links0) && Patched(items, table, |table|, links0, links)
    ensures |links| > Pos(items) && forall p :: 0 <= p < Pos(items) ==> links[p] == Resolved(items, Known(items)[p])
  {
    hide TableIs, Patched, Resolved, Known, Pos;
    FixedRoom(items, links0);
    PatchedLength(items, table, links0, links);
    forall p: nat | p < Pos(items) ensures links[p] == Resolved(items, Known(items)[p]) { OnePatched(items, table, links0, links, p); }
  }

  lemma PatchedFirst(items: seq<Item>, table: seq<Entry>, links0: seq<Option<nat>>)
    ensures Patched(items, table, 0, links0, links0)
  {
  }

  lemma PatchedLength(items: seq<Item>, table: seq<Entry>, links0: seq<Option<nat>>, links: seq<Option<nat>>)
    requires Patched(items, table, |table|, links0, links)
    ensures |links| == |links0|
  {
  }

  lemma EntryFor(items: seq<Item>, table: seq<Entry>, name: string)
    requires TableIs(items, table)
    ensures name in Names(items) <==> exists i :: 0 <= i < |table| && table[i].name == Some(name)
  {
    hide Names, AddressOf;
    if name in Names(items) {
      var i :| 1 <= i < |table| && table[i].name == Some(name);
      assert table[i].name == Some(name);
    }
  }

  lemma EntryIs(items: seq<Item>, table: seq<Entry>, i: nat)
    requires TableIs(items, table) && i < |table|
    ensures table[i].address == AddressOf(items, table[i].name)
    ensures if i == 0 then table[i].name == None else table[i].name.Some? && table[i].name.value in Names(items)
  {
    hide Names, AddressOf;
  }

  lemma ChainIs(items: seq<Item>, links: seq<Option<nat>>, table: seq<Entry>, i: nat)
    requires ChainsAre(items, links, table) && i < |table|
    ensures Chained(links, table[i].last, Pending(items, table[i].name))
    ensures table[i].last.Some? <==> Pending(items, table[i].name) != []
  {
    hide Pending;
  }

  lemma JoinFixed(items: seq<Item>, target: Option<string>, links: seq<Option<nat>>, table: seq<Entry>, i: nat)
    requires TableIs(items, table) && ChainsAre(items, links, table) && FixedAre(items, links)
    requires i < |table| && table[i].name == target && table[i].address == None && Pending(items, target) != []
    ensures var q := Pending(items, target)[|Pending(items, target)|-1];
      && q < |links| && ChainsAre(items + [Branch(target)], links[q := Some(Pos(items))], table)
      && (Pos(items) + 1 < MAXCMDS ==> FixedAre(items + [Branch(target)], links[q := Some(Pos(items))]))
  {
    hide TableIs, ChainsAre, FixedAre, Known, Pos, Names, DeclaredAt, Pending;
    FixedRoom(items, links);
    ChainsJoin(items, target, links, table, i);
    EntryIs(items, table, i);
    var q := Pending(items, target)[|Pending(items, target)|-1];
    if Pos(items) + 1 < MAXCMDS { FixedMore(items, Branch(target), links, links[q := Some(Pos(items))]); }
  }

  lemma OneName(names: set<string>, name: string)
    requires name !in names
    ensures |names + {name}| == |names| + 1
  {
  }

  lemma StackSize(items: seq<Item>, stack: seq<nat>)
    requires StackIs(items, stack)
    ensures |stack| == |Opened(items)|
  {
  }

  lemma FixedRoom(items: seq<Item>, links: seq<Option<nat>>)
    requires FixedAre(items, links)
    ensures |links| == MAXCMDS + 1 && Pos(items) < MAXCMDS && forall p :: Pos(items) <= p < |links| ==> links[p] == None
  {
  }

  /** Does every branch find its label? */
  lemma AllNamesDeclared(items: seq<Item>)
    requires SoFar(items)
    ensures Compiles(items) <==> Depth(items) == 0 && forall name :: name in Names(items) ==> DeclaredAt(items, name).Some?
  {
    hide *;
    forall name ensures DeclaredAt(items, name).Some? <==> IsDeclared(items, name) { DeclaredIs(items, name); }
    NamesDeclared(items);
    LastChecks(items);
  }

  lemma LastChecks(items: seq<Item>)
    requires SoFar(items)
    ensures Compiles(items) <==> Depth(items) == 0 && BranchesDeclared(items)
  {
    hide Depth, Pos, Names, AllUnaddressed, NoDoubles, BranchesDeclared;
  }

  lemma NamesDeclared(items: seq<Item>)
    ensures BranchesDeclared(items) <==> forall name :: name in Names(items) ==> IsDeclared(items, name)
  {
    hide Names;
    forall name ensures name in Names(items) <==> Mentioned(items, name) { NamesAre(items, name); }
    if BranchesDeclared(items) {
      forall name | name in Names(items) ensures IsDeclared(items, name) { MentionedIsDeclared(items, name); }
    } else {
      hide IsDeclared;
      var j :| 0 <= j < |items| && items[j].Branch? && items[j].target.Some? && !IsDeclared(items, items[j].target.value);
      assert Mentions(items[j], items[j].target.value);
    }
  }

  predicate Mentions(x: Item, name: string) { Declares(x, name) || x == Branch(Some(name)) }

  ghost predicate Mentioned(items: seq<Item>, name: string) { exists j :: 0 <= j < |items| && Mentions(items[j], name) }

  lemma MentionedIsDeclared(items: seq<Item>, name: string)
    requires BranchesDeclared(items) && Mentioned(items, name)
    ensures IsDeclared(items, name)
  {
    var j :| 0 <= j < |items| && Mentions(items[j], name);
  }

  lemma {:induction false} NamesAre(items: seq<Item>, name: string)
    ensures name in Names(items) <==> Mentioned(items, name)
  {
    if items != [] {
      var n := |items| - 1;
      NamesAre(items[..n], name);
      if Mentioned(items[..n], name) {
        var j :| 0 <= j < n && Mentions(items[..n][j], name);
        assert Mentions(items[j], name);
      }
      if Mentioned(items, name) {
        var j :| 0 <= j < |items| && Mentions(items[j], name);
        if j < n { assert Mentions(items[..n][j], name); }
      }
      assert name in NamesOf(items[n]) <==> Mentions(items[n], name);
    }
  }

  /** What comes of a script. */
  datatype Outcome = Compiled(links: seq<Option<nat>>) | Aborted | Overrun

  /** After a beginning with nothing wrong in it there is a left brace when twenty are open. */
  ghost predicate Overruns(items: seq<Item>) {
    exists k :: OverrunAt(items, k)
  }

  ghost predicate OverrunAt(items: seq<Item>, k: int) {
    0 <= k < |items| && items[k].Open? && SoFar(items[..k]) && Depth(items[..k]) == MAXDEPTH
  }

  /** compile() and resolve(): a script compiles exactly when it should, and then every jump leads where the script says.
      A left brace too many inside others is written behind the stack of pending braces; what happens then is left open. */
  method Compile(items: seq<Item>) returns (r: Outcome)
    ensures r.Compiled? <==> Compiles(items)
    ensures r.Overrun? <==> Overruns(items)
    ensures r.Compiled? ==> AllLinked(items, r.links)
  {
    hide SoFar, Compiles, Tables, AllLinked, Depth, Deepest, Pos, Names, Known, DeclaredAt, Resolved, Overruns;
    var c := new Compiler();
    var i := 0;
    assert items[..0] == [];
    while i < |items|
      invariant 0 <= i <= |items| && c.Valid(items[..i]) && fresh(c) && fresh(c.links) && fresh(c.labels) && fresh(c.cmpstk)
    {
      assert items[..i + 1] == items[..i] + [items[i]];
      BracesLeft(items[..i], c.links[..], c.labels[..c.lab], c.cmpstk[..c.bdepth]);
      if items[i].Open? && c.bdepth == MAXDEPTH {
        OverrunHere(items, i);
        return Overrun;
      }
      var ok := c.Command(items[i], items[..i]);
      if !ok {
        Spoiled(items, i + 1);
        StopsBefore(items, i);
        return Aborted;
      }
      i := i + 1;
    }
    assert items[..i] == items;
    NeverOverruns(items);
    AllNamesDeclared(items);
    BracesLeft(items, c.links[..], c.labels[..c.lab], c.cmpstk[..c.bdepth]);
    if c.bdepth > 0 { return Aborted; }
    var ok := c.Resolve(items);
    if !ok { return Aborted; }
    var links := c.links[..c.cmdp];
    ResolvedIsRight(items, links);
    r := Compiled(links);
  }

  lemma BracesLeft(items: seq<Item>, links: seq<Option<nat>>, table: seq<Entry>, stack: seq<nat>)
    requires SoFar(items) && Tables(items, links, table, stack)
    ensures |stack| == Depth(items)
  {
    hide Depth, Deepest, Names, Pos, TableIs, ChainsAre, FixedAre, Opened;
    OpenedCount(items);
  }

  lemma OverrunHere(items: seq<Item>, i: nat)
    requires OverrunAt(items, i)
    ensures Overruns(items) && !Compiles(items)
  {
    hide SoFar, Depth, Compiles;
    TooDeep(items, i);
    Spoiled(items, i + 1);
  }

  lemma TooDeep(items: seq<Item>, k: nat)
    requires OverrunAt(items, k)
    ensures !SoFar(items[..k + 1])
  {
    hide Names, Pos, AllUnaddressed, NoDoubles;
    assert items[..k + 1] == items[..k] + [items[k]];
    One(items[..k], items[k]);
  }

  lemma StopsBefore(items: seq<Item>, i: nat)
    requires i < |items| && SoFar(items[..i]) && !SoFar(items[..i + 1]) && !OverrunAt(items, i)
    ensures !Overruns(items)
  {
    hide SoFar, Depth;
    if Overruns(items) {
      var k :| OverrunAt(items, k);
      if k < i {
        TooDeep(items, k);
        assert items[..i][..k + 1] == items[..k + 1];
        SoFarBack(items[..i], k + 1);
      } else {
        assert items[..k][..i + 1] == items[..i + 1];
        SoFarBack(items[..k], i + 1);
      }
    }
  }

  lemma NeverOverruns(items: seq<Item>)
    requires SoFar(items)
    ensures !Overruns(items)
  {
    hide SoFar, Depth;
    if Overruns(items) {
      var k :| OverrunAt(items, k);
      TooDeep(items, k);
      SoFarBack(items, k + 1);
    }
  }

  // ---------- Twenty-one braces ----------

  function Opens(n: nat): (r: seq<Item>)
    ensures |r| == n
  {
    seq(n, i => Open)
  }

  function Closes(n: nat): (r: seq<Item>)
    ensures |r| == n
  {
    seq(n, i => Close(false))
  }

  lemma {:induction false} OpensAre(n: nat)
    ensures Depth(Opens(n)) == n && Deepest(Opens(n)) == n && Pos(Opens(n)) == n && Names(Opens(n)) == {}
  {
    if n > 0 {
      assert Opens(n)[..n - 1] == Opens(n - 1);
      OpensAre(n - 1);
    }
  }

  lemma {:induction false} ClosesAre(m: nat, n: nat)
    requires n <= m
    ensures var s := Opens(m) + Closes(n); Depth(s) == m - n && Deepest(s) == m && Pos(s) == m && Names(s) == {}
  {
    if n == 0 {
      assert Opens(m) + Closes(0) == Opens(m);
      OpensAre(m);
    } else {
      assert (Opens(m) + Closes(n))[..m + n - 1] == Opens(m) + Closes(n - 1);
      ClosesAre(m, n - 1);
    }
  }

  /** Twenty-one left braces and as many right ones: nothing else is wrong with the script, and it runs over the stack. */
  lemma TwentyOneBraces()
    ensures var s := Opens(21) + Closes(21);
      && AllUnaddressed(s) && NoDoubles(s) && BranchesDeclared(s) && Depth(s) == 0 && Pos(s) < MAXCMDS && |Names(s)| < MAXLABS - 1
      && Overruns(s) && !Compiles(s)
  {
    var s := Opens(21) + Closes(21);
    hide Depth, Deepest, Pos, Names, SoFar, Compiles;
    ClosesAre(21, 21);
    OpensAre(20);
    assert s[..20] == Opens(20);
    TwentyAreFine();
    OverrunHere(s, 20);
  }

  lemma TwentyAreFine()
    ensures SoFar(Opens(20))
  {
    hide Depth, Deepest, Pos, Names;
    OpensAre(20);
  }
}
