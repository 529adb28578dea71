/** Optimizer state saved under parameter names and loaded into another grouping. */
module FlatOptimizers {
  import opened DottedNames
  import opened FlatSections
  import opened StateTrees
  import opened Wrappers

  /** What belongs to one parameter: its state and its group's hyperparameters. */
  datatype Param<V> = Param(state: State<V>, hyper: map<string, V>)

  type World<V> = map<string, Param<V>>

  /** A param group: its parameters are numbered consecutively across the groups;
      `param_names`, when there, lists their names in the same order. */
  datatype Group<V> = Group(params: nat, names: Option<seq<string>>, hyper: map<string, V>)

  /** The native state dict, keyed by parameter number. */
  datatype Optim<V> = Optim(state: map<nat, State<V>>, groups: seq<Group<V>>)

  datatype Error = NoParamNames | UnknownParamId(id: nat) | MissingGroupKey(key: string, name: string)

  datatype Entry<V> = Entry(name: string, hyper: map<string, V>)

  ghost predicate Named<V>(groups: seq<Group<V>>) {
    forall g | 0 <= g < |groups| :: groups[g].names.Some? && |groups[g].names.value| == groups[g].params
  }

  function Members<V>(names: seq<string>, hyper: map<string, V>): (r: seq<Entry<V>>)
    ensures |r| == |names| && forall j | 0 <= j < |names| :: r[j] == Entry(names[j], hyper)
  {
    seq(|names|, j requires 0 <= j < |names| => Entry(names[j], hyper))
  }

  /** All parameters in the order of their numbers. */
  function Roster<V>(groups: seq<Group<V>>): seq<Entry<V>> {
    if groups == [] then [] else Roster(groups[..|groups| - 1]) + GroupRoster(groups[|groups| - 1])
  }

  function GroupRoster<V>(g: Group<V>): seq<Entry<V>> {
    if g.names.None? then [] else Members(g.names.value, g.hyper)
  }

  function StateAt<V>(state: map<nat, State<V>>, id: nat): State<V> {
    if id in state then state[id] else map[]
  }

  /** The world an optimizer's state dict describes. */
  ghost predicate IsWorld<V>(w: World<V>, roster: seq<Entry<V>>, state: map<nat, State<V>>) {
    && (forall i: nat | i < |roster| :: HasParam(w, roster[i], StateAt(state, i)))
    && forall f | f in w :: exists i :: 0 <= i < |roster| && roster[i].name == f
  }

  ghost predicate HasParam<V>(w: World<V>, e: Entry<V>, s: State<V>) {
    e.name in w && w[e.name] == Param(s, e.hyper)
  }

  ghost predicate Distinct<V>(roster: seq<Entry<V>>) {
    forall i, j | 0 <= i < j < |roster| :: roster[i].name != roster[j].name
  }

  /** Tidy state and dot-free group keys. */
  ghost predicate Plain<V>(w: World<V>) {
    forall f | f in w :: TidyEntries(w[f].state) && forall k | k in w[f].hyper :: DotFree(k)
  }

  /** And no name is a dotted prefix of another. */
  ghost predicate Good<V>(w: World<V>) {
    Plain(w) && forall f, g | f in w && g in w && f != g :: Apart(f, g)
  }

  // ----- sections of a world -----

  function Leaves<V>(hyper: map<string, V>): State<V> {
    map k | k in hyper :: Leaf(hyper[k])
  }

  function Prefixes(head: string, names: set<string>): set<string> {
    set f | f in names :: Under(head, f)
  }

  function StateSections<V>(w: World<V>, names: set<string>): Sections<V>
    requires names <= w.Keys
  {
    map p | p in Prefixes("state", names) :: w[RestOf("state", p)].state
  }

  function HyperSections<V>(w: World<V>, names: set<string>): Sections<V>
    requires names <= w.Keys
  {
    map p | p in Prefixes("param_groups", names) :: Leaves(w[RestOf("param_groups", p)].hyper)
  }

  function SectionsOf<V>(w: World<V>, names: set<string>): Sections<V>
    requires names <= w.Keys
  {
    StateSections(w, w.Keys) + HyperSections(w, names)
  }

  lemma SameHeadApart(head: string, f: string, g: string)
    ensures Apart(Under(head, f), Under(head, g)) <==> Apart(f, g)
  {
    StripHead(head, f, g);
    StripHead(head, g, f);
  }

  lemma StripHead(head: string, f: string, g: string)
    ensures IsUnder(Under(head, f), Under(head, g)) <==> IsUnder(f, g)
  {
    var x, y := Under(head, f) + ".", Under(head, g);
    var n := |head| + 1;
    assert x == head + "." + (f + ".") && y == head + "." + g;
    assert x[n..] == f + "." && y[n..] == g;
    assert x[..n] == y[..n];
    if f + "." <= g {
      assert y == x[..n] + g;
      assert x == x[..n] + (f + ".");
    }
    if x <= y {
      assert x[n..] <= y[n..];
    }
  }

  lemma Heads()
    ensures forall f :: Under("state", f)[0] == 's'
    ensures forall f :: Under("param_groups", f)[0] == 'p'
  {
  }

  lemma HeadsApart(f: string, g: string)
    ensures Apart(Under("state", f), Under("param_groups", g))
  {
    Heads();
  }

  lemma SectionNames<V>(w: World<V>, names: set<string>, f: string)
    requires names <= w.Keys
    ensures Under("state", f) in SectionsOf(w, names) <==> f in w
    ensures f in w ==> SectionsOf(w, names)[Under("state", f)] == w[f].state
    ensures Under("param_groups", f) in SectionsOf(w, names) <==> f in names
    ensures f in names ==> SectionsOf(w, names)[Under("param_groups", f)] == Leaves(w[f].hyper)
  {
    Heads();
    UnderRest("state", f);
    UnderRest("param_groups", f);
    assert f in w ==> Under("state", f) in Prefixes("state", w.Keys);
    assert f in names ==> Under("param_groups", f) in Prefixes("param_groups", names);
    forall g
      ensures Under("state", g) == Under("state", f) ==> g == f
      ensures Under("param_groups", g) == Under("param_groups", f) ==> g == f
    {
      UnderRest("state", g);
      UnderRest("param_groups", g);
    }
    assert Under("state", f) !in Prefixes("param_groups", names);
    assert Under("param_groups", f) !in Prefixes("state", w.Keys);
  }

  /** The sections of a good world never share a key. */
  lemma SectionsApart<V>(w: World<V>, names: set<string>)
    requires Good(w) && names <= w.Keys
    ensures AllApart(SectionsOf(w, names))
  {
    var s := SectionsOf(w, names);
    forall p, q | p in s && q in s && p != q
      ensures Apart(p, q)
    {
      var f := NameOf(w, names, p);
      var g := NameOf(w, names, q);
      SameHeadApart("state", f, g);
      SameHeadApart("param_groups", f, g);
      HeadsApart(f, g);
      HeadsApart(g, f);
    }
  }

  lemma NameOf<V>(w: World<V>, names: set<string>, p: string) returns (f: string)
    requires names <= w.Keys && p in SectionsOf(w, names)
    ensures f in w && (p == Under("state", f) || p == Under("param_groups", f))
  {
    if p in Prefixes("state", w.Keys) {
      f :| f in w && Under("state", f) == p;
    } else {
      f :| f in names && Under("param_groups", f) == p;
    }
  }
}
