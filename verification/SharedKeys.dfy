/** When two parameters of one flat dict claim the same key, and when a dict can hold both. */
module SharedKeys {
  import opened DottedNames
  import opened FlatOptimizerDicts
  import opened FlatOptimizers
  import opened FlatSections
  import opened StateTrees
  import opened Wrappers

  /** Name g is f followed by r, and f's state stores below r what g's stores at path q. */
  ghost predicate Inside<V>(s: State<V>, f: string, t: State<V>, g: string, r: seq<string>, q: seq<string>) {
    && r != [] && Split(g) == Split(f) + r
    && Lookup(Dict(s), r + q).Some? && Lookup(Dict(t), q).Some?
  }

  ghost predicate LeadsInto<V>(s: State<V>, f: string, t: State<V>, g: string) {
    exists r, q :: Inside(s, f, t, g, r, q)
  }

  ghost predicate BothStore<V>(s: State<V>, f: string, t: State<V>, g: string, key: string) {
    At(s, f, key).Some? && At(t, g, key).Some?
  }

  /** The dotted key of a path, and what is stored there. */
  lemma KeyOf<V>(m: State<V>, f: string, p: seq<string>) returns (key: string)
    requires p != [] && AllDotFree(p)
    ensures At(m, f, key) == Lookup(Dict(m), p) && Split(key) == Split(f) + p
  {
    key := Under(f, Join(p));
    UnderRest(f, Join(p));
    SplitJoin(p);
    SplitAtDot(f, Join(p));
  }

  lemma PathOf(f: string, key: string)
    requires IsUnder(f, key)
    ensures Split(key) == Split(f) + Split(RestOf(f, key))
  {
    UnderRest(f, key);
    SplitAtDot(f, RestOf(f, key));
  }

  lemma StoredDotFree<V>(m: State<V>, p: seq<string>)
    requires TidyEntries(m) && Lookup(Dict(m), p).Some?
    ensures p != [] && AllDotFree(p)
  {
    LookupDotFree(m[p[0]], p[1..]);
    assert p == [p[0]] + p[1..];
  }

  lemma SameParts(a: string, b: string)
    requires Split(a) == Split(b)
    ensures a == b
  {
    JoinSplit(a);
    JoinSplit(b);
  }

  /** One name inside the other: the shared key. */
  lemma InsideShares<V>(s: State<V>, f: string, t: State<V>, g: string, r: seq<string>, q: seq<string>)
    returns (key: string)
    requires TidyEntries(s) && TidyEntries(t) && Inside(s, f, t, g, r, q)
    ensures At(s, f, key) == Lookup(Dict(s), r + q) && At(t, g, key) == Lookup(Dict(t), q)
  {
    StoredDotFree(s, r + q);
    StoredDotFree(t, q);
    key := KeyOf(t, g, q);
    var same := KeyOf(s, f, r + q);
    assert Split(same) == Split(key) by {
      assert (Split(f) + r) + q == Split(f) + (r + q);
    }
    SameParts(same, key);
  }

  /** A shared key: the shorter name is inside the other. */
  lemma SharedIsInside<V>(s: State<V>, f: string, t: State<V>, g: string, key: string)
    returns (r: seq<string>, q: seq<string>)
    requires BothStore(s, f, t, g, key) && |Split(f)| < |Split(g)|
    ensures Inside(s, f, t, g, r, q)
    ensures At(s, f, key) == Lookup(Dict(s), r + q) && At(t, g, key) == Lookup(Dict(t), q)
  {
    PathOf(f, key);
    PathOf(g, key);
    var x, y := Split(f), Split(g);
    r, q := y[|x|..], Split(RestOf(g, key));
    var p := Split(RestOf(f, key));
    assert x + p == y + q;
    assert x == (x + p)[..|x|] == (y + q)[..|x|] == y[..|x|];
    assert p == (x + p)[|x|..] == (y + q)[|x|..] == r + q;
  }

  lemma SameLength<V>(s: State<V>, f: string, t: State<V>, g: string, key: string)
    requires BothStore(s, f, t, g, key) && |Split(f)| == |Split(g)|
    ensures f == g
  {
    PathOf(f, key);
    PathOf(g, key);
    assert Split(f) == Split(key)[..|Split(f)|] == Split(g);
    SameParts(f, g);
  }

  /** Two names share a key exactly when one is the other followed by a path on which the
      other's state is nested down to it. */
  lemma SharedKeyIff<V>(s: State<V>, f: string, t: State<V>, g: string)
    requires TidyEntries(s) && TidyEntries(t) && f != g
    ensures (exists key :: BothStore(s, f, t, g, key)) <==> LeadsInto(s, f, t, g) || LeadsInto(t, g, s, f)
  {
    if key :| BothStore(s, f, t, g, key) {
      if |Split(f)| < |Split(g)| {
        var r, q := SharedIsInside(s, f, t, g, key);
      } else if |Split(g)| < |Split(f)| {
        var r, q := SharedIsInside(t, g, s, f, key);
      } else {
        SameLength(s, f, t, g, key);
      }
    }
    if r, q :| Inside(s, f, t, g, r, q) {
      var key := InsideShares(s, f, t, g, r, q);
      assert BothStore(s, f, t, g, key);
    }
    if r, q :| Inside(t, g, s, f, r, q) {
      var key := InsideShares(t, g, s, f, r, q);
      assert BothStore(s, f, t, g, key);
    }
  }

  // ----- a whole world -----

  /** A common head changes nothing. */
  lemma HeadInside<V>(head: string, s: State<V>, f: string, t: State<V>, g: string, r: seq<string>, q: seq<string>)
    ensures Inside(s, Under(head, f), t, Under(head, g), r, q) <==> Inside(s, f, t, g, r, q)
  {
    SplitAtDot(head, f);
    SplitAtDot(head, g);
    var h, x, y := Split(head), Split(f), Split(g);
    assert (h + x) + r == h + (x + r);
    if h + y == h + (x + r) {
      assert y == (h + y)[|h|..] == (h + (x + r))[|h|..] == x + r;
    }
  }

  /** Keys of a group are one segment, so no two groups share one. */
  lemma HypersShareNothing<V>(a: map<string, V>, f: string, b: map<string, V>, g: string, key: string)
    requires BothStore(Leaves(a), f, Leaves(b), g, key)
    ensures f == g
  {
    OneSegment(a, Split(RestOf(f, key)));
    OneSegment(b, Split(RestOf(g, key)));
    PathOf(f, key);
    PathOf(g, key);
    SameLength(Leaves(a), f, Leaves(b), g, key);
  }

  lemma OneSegment<V>(a: map<string, V>, p: seq<string>)
    requires Lookup(Dict(Leaves(a)), p).Some?
    ensures |p| == 1
  {
    assert Leaves(a)[p[0]] == Leaf(a[p[0]]);
  }

  /** Wherever one parameter's name leads into another's state, the two store one value. */
  ghost predicate NestedAgree<V>(w: World<V>) {
    forall f, g, r, q | f in w && g in w && Inside(w[f].state, f, w[g].state, g, r, q) ::
      Lookup(Dict(w[f].state), r + q) == Lookup(Dict(w[g].state), q)
  }

  lemma StatesAgree<V>(w: World<V>, f: string, g: string, key: string)
    requires Plain(w) && NestedAgree(w) && f in w && g in w
    requires BothStore(w[f].state, Under("state", f), w[g].state, Under("state", g), key)
    ensures At(w[f].state, Under("state", f), key) == At(w[g].state, Under("state", g), key)
  {
    var a, b := Under("state", f), Under("state", g);
    if |Split(a)| < |Split(b)| {
      var r, q := SharedIsInside(w[f].state, a, w[g].state, b, key);
      HeadInside("state", w[f].state, f, w[g].state, g, r, q);
    } else if |Split(b)| < |Split(a)| {
      var r, q := SharedIsInside(w[g].state, b, w[f].state, a, key);
      HeadInside("state", w[g].state, g, w[f].state, f, r, q);
    } else {
      SameLength(w[f].state, a, w[g].state, b, key);
      UnderRest("state", f);
      UnderRest("state", g);
    }
  }

  lemma FirstChar(prefix: string, key: string)
    requires IsUnder(prefix, key) && prefix != ""
    ensures key[0] == prefix[0]
  {
    assert key[0] == (prefix + ".")[0];
  }

  lemma TwoHeads<V>(s: State<V>, f: string, t: State<V>, g: string, key: string)
    ensures !BothStore(s, Under("state", f), t, Under("param_groups", g), key)
  {
    if BothStore(s, Under("state", f), t, Under("param_groups", g), key) {
      Heads();
      FirstChar(Under("state", f), key);
      FirstChar(Under("param_groups", g), key);
    }
  }

  /** The sections of a world agree exactly when its nested states do. */
  lemma AgreeIff<V>(w: World<V>)
    requires Plain(w)
    ensures Agree(SectionsOf(w, w.Keys)) <==> NestedAgree(w)
  {
    var s := SectionsOf(w, w.Keys);
    if Agree(s) {
      forall f, g, r, q | f in w && g in w && Inside(w[f].state, f, w[g].state, g, r, q)
        ensures Lookup(Dict(w[f].state), r + q) == Lookup(Dict(w[g].state), q)
      {
        AgreeInside(w, f, g, r, q);
      }
    }
    if NestedAgree(w) {
      forall key, a, b | In(s, a, key) && In(s, b, key)
        ensures At(s[a], a, key) == At(s[b], b, key)
      {
        PairAgrees(w, key, a, b);
      }
    }
  }

  lemma AgreeInside<V>(w: World<V>, f: string, g: string, r: seq<string>, q: seq<string>)
    requires Plain(w) && Agree(SectionsOf(w, w.Keys)) && f in w && g in w
    requires Inside(w[f].state, f, w[g].state, g, r, q)
    ensures Lookup(Dict(w[f].state), r + q) == Lookup(Dict(w[g].state), q)
  {
    var s, a, b := SectionsOf(w, w.Keys), Under("state", f), Under("state", g);
    HeadInside("state", w[f].state, f, w[g].state, g, r, q);
    var key := InsideShares(w[f].state, a, w[g].state, b, r, q);
    SectionNames(w, w.Keys, f);
    SectionNames(w, w.Keys, g);
    assert In(s, a, key) && In(s, b, key);
    assert AgreeAt(s, key);
  }

  lemma PairAgrees<V>(w: World<V>, key: string, a: string, b: string)
    requires Plain(w) && NestedAgree(w)
    requires In(SectionsOf(w, w.Keys), a, key) && In(SectionsOf(w, w.Keys), b, key)
    ensures At(SectionsOf(w, w.Keys)[a], a, key) == At(SectionsOf(w, w.Keys)[b], b, key)
  {
    var f := NameOf(w, w.Keys, a);
    var g := NameOf(w, w.Keys, b);
    SectionNames(w, w.Keys, f);
    SectionNames(w, w.Keys, g);
    if a == Under("state", f) && b == Under("state", g) {
      StatesAgree(w, f, g, key);
    } else if a == Under("state", f) {
      TwoHeads(w[f].state, f, Leaves(w[g].hyper), g, key);
    } else if b == Under("state", g) {
      TwoHeads(w[g].state, g, Leaves(w[f].hyper), f, key);
    } else {
      HypersShareNothing(w[f].hyper, a, w[g].hyper, b, key);
    }
  }

  /** A dict can hold a world exactly when its nested states agree, and then the one that
      `get_flat_optim_state_dict` builds does. */
  lemma HeldIff<V>(flat: map<string, V>, w: World<V>)
    requires Plain(w) && FilledWith(flat, w)
    ensures IsFlat(flat, SectionsOf(w, w.Keys)) <==> NestedAgree(w)
    ensures (exists d: map<string, V> :: IsFlat(d, SectionsOf(w, w.Keys))) <==> NestedAgree(w)
  {
    AgreeIff(w);
    FilledIff(flat, SectionsOf(w, w.Keys));
  }

  /** One optimizer over `a` and `a.b`, the state of `a` nested. */
  function Dotted(v: int): Optim<int> {
    Optim(map[0 := DeepState(v), 1 := map["m" := Leaf(v + 1)]], [Group(2, Some(["a", "a.b"]), map[])])
  }

  function DeepState(v: int): State<int> {
    map["b" := Dict(map["m" := Leaf(v)])]
  }

  /** Its conversion succeeds, and neither the result nor any other dict holds both
      parameters. */
  method DottedPrefixLoses(v: int) returns (r: Result<map<string, int>, Error>)
    ensures r.Ok?
    ensures var w := WorldOf(Roster(Dotted(v).groups), Dotted(v).state);
      !IsFlat(r.value, SectionsOf(w, w.Keys)) && forall d: map<string, int> :: !IsFlat(d, SectionsOf(w, w.Keys))
  {
    ghost var w := WorldOf(Roster(Dotted(v).groups), Dotted(v).state);
    DottedRoster(v);
    DottedWorld(v, w);
    DottedDisagree(v, w);
    r := GetFlat(Dotted(v));
    HeldIff(r.value, w);
  }

  lemma DottedRoster(v: int)
    ensures Roster(Dotted(v).groups) == [Entry("a", map[]), Entry("a.b", map[])]
    ensures Distinct(Roster(Dotted(v).groups)) && Convertible(Dotted(v))
  {
    var groups := Dotted(v).groups;
    assert groups[..0] == [];
    assert Roster(groups) == Roster([]) + GroupRoster(groups[0]);
  }

  lemma DottedWorld(v: int, w: World<int>)
    requires w == WorldOf(Roster(Dotted(v).groups), Dotted(v).state)
    ensures w == map["a" := Param(DeepState(v), map[]), "a.b" := Param(map["m" := Leaf(v + 1)], map[])]
  {
    var roster := Roster(Dotted(v).groups);
    DottedRoster(v);
    WorldOfIs(roster, Dotted(v).state);
    assert HasParam(w, roster[0], DeepState(v)) && HasParam(w, roster[1], map["m" := Leaf(v + 1)]);
    assert w.Keys == {"a", "a.b"};
  }

  lemma DottedDisagree(v: int, w: World<int>)
    requires w == map["a" := Param(DeepState(v), map[]), "a.b" := Param(map["m" := Leaf(v + 1)], map[])]
    ensures Plain(w) && !NestedAgree(w)
  {
    var inner: State<int> := map["m" := Leaf(v)];
    SplitWhole("a");
    SplitWhole("b");
    SplitAtDot("a", "b");
    assert "a" + "." + "b" == "a.b";
    assert ["b"] + ["m"] == ["b", "m"] && ["m"] + [] == ["m"];
    LookupBelow(DeepState(v), "b", ["m"]);
    LookupBelow(inner, "m", []);
    LookupBelow(w["a.b"].state, "m", []);
    assert Inside(w["a"].state, "a", w["a.b"].state, "a.b", ["b"], ["m"]);
    assert inner["m"] == Leaf(v) && Tidy(Dict(inner));
    assert TidyEntries(DeepState(v)) && TidyEntries(w["a.b"].state);
  }
}
