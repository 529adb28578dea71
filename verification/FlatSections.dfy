/** A flat dict as the union of dotted sections, each the flattening of one state dict. */
module FlatSections {
  import opened DottedNames
  import opened StateTrees
  import opened Wrappers

  type Sections<V> = map<string, State<V>>

  ghost predicate AllApart<V>(s: Sections<V>) {
    forall f, g | f in s && g in s && f != g :: Apart(f, g)
  }

  /** The key is stored in section f. */
  ghost predicate In<V>(s: Sections<V>, f: string, key: string) {
    f in s && At(s[f], f, key).Some?
  }

  ghost predicate IsFlat<V>(flat: map<string, V>, s: Sections<V>) {
    && (forall key | key in flat :: exists f :: In(s, f, key))
    && (forall f, key | In(s, f, key) :: Get(flat, key) == At(s[f], f, key))
  }

  /** A key lies under at most one of two names that are apart. */
  lemma OneSection(f: string, g: string, key: string)
    requires IsUnder(f, key) && IsUnder(g, key) && f != g
    ensures !Apart(f, g)
  {
    assert f == key[..|f|] && g == key[..|g|];
    if |f| < |g| {
      assert f + "." == key[..|f| + 1] == g[..|f| + 1];
    } else if |g| < |f| {
      assert g + "." == key[..|g| + 1] == f[..|g| + 1];
    }
  }

  /** Below a section's name the flat dict is that section. */
  lemma SectionIs<V>(flat: map<string, V>, s: Sections<V>, f: string, key: string)
    requires IsFlat(flat, s) && AllApart(s) && f in s && IsUnder(f, key)
    ensures Get(flat, key) == At(s[f], f, key)
  {
    if key in flat {
      var g :| In(s, g, key);
      if g != f {
        OneSection(f, g, key);
      }
    }
  }

  /** Sections that store this key store one value there. */
  ghost predicate AgreeAt<V>(s: Sections<V>, key: string) {
    forall f, g | In(s, f, key) && In(s, g, key) :: At(s[f], f, key) == At(s[g], g, key)
  }

  ghost predicate Agree<V>(s: Sections<V>) {
    forall key :: AgreeAt(s, key)
  }

  /** `flat` has what the sections store at this key, if that is one value. */
  ghost predicate FilledAt<V>(flat: map<string, V>, s: Sections<V>, key: string) {
    && (key in flat <==> exists f :: In(s, f, key))
    && (AgreeAt(s, key) ==> forall f | In(s, f, key) :: Get(flat, key) == At(s[f], f, key))
  }

  ghost predicate Fills<V>(flat: map<string, V>, s: Sections<V>) {
    forall key :: FilledAt(flat, s, key)
  }

  /** A dict filled with sections holds them all exactly when they agree; otherwise no dict
      does. */
  lemma FilledIff<V>(flat: map<string, V>, s: Sections<V>)
    requires Fills(flat, s)
    ensures IsFlat(flat, s) <==> Agree(s)
    ensures Agree(s) <==> exists d: map<string, V> :: IsFlat(d, s)
  {
    forall d: map<string, V> | IsFlat(d, s)
      ensures Agree(s)
    {
      FlatAgrees(d, s);
    }
    if Agree(s) {
      forall key
        ensures key in flat ==> exists f :: In(s, f, key)
        ensures forall f | In(s, f, key) :: Get(flat, key) == At(s[f], f, key)
      {
        assert AgreeAt(s, key) && FilledAt(flat, s, key);
      }
    }
  }

  lemma FlatAgrees<V>(flat: map<string, V>, s: Sections<V>)
    requires IsFlat(flat, s)
    ensures Agree(s)
  {
  }

  lemma ApartAgree<V>(s: Sections<V>)
    requires AllApart(s)
    ensures Agree(s)
  {
    forall key, f, g | In(s, f, key) && In(s, g, key)
      ensures f == g
    {
      if f != g {
        OneSection(f, g, key);
      }
    }
  }

  /** Flattening one more state dict adds its section. */
  lemma AddSection<V>(was: map<string, V>, s: Sections<V>, f: string, m: State<V>, out: map<string, V>)
    requires Fills(was, s) && Written(m, f, was, out) && f !in s
    ensures Fills(out, s[f := m])
  {
    var t := s[f := m];
    forall key
      ensures FilledAt(out, t, key)
    {
      assert Get(out, key) == (if At(m, f, key).Some? then At(m, f, key) else Get(was, key));
      assert FilledAt(was, s, key);
      assert In(t, f, key) <==> At(m, f, key).Some?;
      assert forall g | g != f :: In(t, g, key) <==> In(s, g, key);
    }
  }

  /** `result.update(...)` with the sections of another optimizer. */
  lemma MergeSections<V>(a: map<string, V>, s: Sections<V>, b: map<string, V>, t: Sections<V>)
    requires Fills(a, s) && Fills(b, t) && s.Keys !! t.Keys
    ensures Fills(a + b, s + t)
  {
    forall key
      ensures FilledAt(a + b, s + t, key)
    {
      assert FilledAt(a, s, key) && FilledAt(b, t, key);
      assert forall f :: In(s + t, f, key) <==> In(s, f, key) || In(t, f, key);
      assert forall f | In(s, f, key) :: (s + t)[f] == s[f];
      assert forall f | In(t, f, key) :: (s + t)[f] == t[f];
    }
  }

  lemma {:induction false} LeafPrefix<V>(t: Tree<V>, p: seq<string>, q: seq<string>)
    requires Lookup(t, p).Some? && Lookup(t, q).Some? && p <= q
    ensures p == q
    decreases p
  {
    if p != [] {
      LeafPrefix(t.entries[p[0]], p[1..], q[1..]);
      assert p == [p[0]] + p[1..] && q == [q[0]] + q[1..];
    }
  }

  /** The key of a path below one entry of a section. */
  lemma EntryKey<V>(flat: map<string, V>, s: Sections<V>, f: string, name: string, p: seq<string>)
    requires IsFlat(flat, s) && AllApart(s) && f in s && DotFree(name) && p != [] && AllDotFree(p)
    ensures Get(flat, Under(Under(f, name), Join(p))) == if name in s[f] then Lookup(s[f][name], p) else None
  {
    var key := Under(Under(f, name), Join(p));
    var path := [name] + p;
    assert path[1..] == p;
    assert key == Under(f, Join(path));
    UnderRest(f, Join(path));
    SectionIs(flat, s, f, key);
    SplitJoin(path);
  }

  lemma EntryLeaf<V>(flat: map<string, V>, s: Sections<V>, f: string, name: string)
    requires IsFlat(flat, s) && AllApart(s) && f in s && DotFree(name)
    ensures Get(flat, Under(f, name)) == if name in s[f] then Lookup(s[f][name], []) else None
  {
    UnderRest(f, name);
    SectionIs(flat, s, f, Under(f, name));
    SplitWhole(name);
    assert [name][1..] == [];
  }

  /** The stored paths below an entry are prefix-free. */
  lemma EntryPrefixFree<V>(flat: map<string, V>, s: Sections<V>, f: string, name: string)
    requires IsFlat(flat, s) && AllApart(s) && f in s && DotFree(name)
    ensures PrefixFree(flat, Under(f, name))
  {
    forall p, q | IsStored(flat, Under(f, name), p) && IsStored(flat, Under(f, name), q) && p <= q
      ensures p == q
    {
      EntryKey(flat, s, f, name, p);
      EntryKey(flat, s, f, name, q);
      LeafPrefix(s[f][name], p, q);
    }
  }

  /** Rebuilding what lies below a nested entry gives that entry back. */
  lemma RebuiltEntry<V>(flat: map<string, V>, s: Sections<V>, f: string, name: string, r: State<V>)
    requires IsFlat(flat, s) && AllApart(s) && f in s && TidyEntries(s[f]) && DotFree(name)
    requires Rebuilt(flat, flat.Keys, Under(f, name), r)
    ensures name in s[f] && s[f][name].Dict? ==> Dict(r) == s[f][name]
    ensures name !in s[f] ==> r == map[]
  {
    forall p
      ensures Lookup(Dict(r), p) == if name in s[f] && p != [] then Lookup(s[f][name], p) else None
    {
      if p != [] && AllDotFree(p) {
        EntryKey(flat, s, f, name, p);
      } else if p != [] && name in s[f] && Lookup(s[f][name], p).Some? {
        LookupDotFree(s[f][name], p);
      }
    }
    if name !in s[f] {
      if k :| k in r {
        var path := SomeLeaf(r[k]);
        LookupBelow(r, k, path);
        assert false;
      }
    } else if s[f][name].Dict? {
      RebuiltNonEmpty(s[f][name], r);
      SameLeaves(Dict(r), s[f][name]);
    }
  }

  lemma RebuiltNonEmpty<V>(t: Tree<V>, r: State<V>)
    requires Tidy(t) && t.Dict? && forall p | p != [] :: Lookup(Dict(r), p) == Lookup(t, p)
    ensures r != map[]
  {
    var path := SomeLeaf(t);
    assert Lookup(Dict(r), path).Some?;
  }
}
