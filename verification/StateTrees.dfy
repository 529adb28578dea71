/** Nested per-parameter optimizer state: flattening to dotted keys and rebuilding. */
module StateTrees {
  import opened DottedNames
  import opened Wrappers

  datatype Tree<V> = Leaf(value: V) | Dict(entries: map<string, Tree<V>>)

  type State<V> = map<string, Tree<V>>

  function Lookup<V>(t: Tree<V>, path: seq<string>): Option<V>
    decreases path
  {
    match t
    case Leaf(v) => if path == [] then Some(v) else None
    case Dict(m) => if path == [] || path[0] !in m then None else Lookup(m[path[0]], path[1..])
  }

  /** Dot-free keys at every level and no empty nested dict. */
  predicate Tidy<V>(t: Tree<V>) {
    match t
    case Leaf(_) => true
    case Dict(m) => m != map[] && forall k | k in m :: DotFree(k) && Tidy(m[k])
  }

  predicate TidyEntries<V>(m: State<V>) {
    forall k | k in m :: DotFree(k) && Tidy(m[k])
  }

  lemma {:induction false} SomeLeaf<V>(t: Tree<V>) returns (path: seq<string>)
    requires Tidy(t)
    ensures Lookup(t, path).Some?
  {
    match t
    case Leaf(_) => path := [];
    case Dict(m) =>
      var k :| k in m;
      var rest := SomeLeaf(m[k]);
      path := [k] + rest;
      assert path[1..] == rest;
  }

  lemma LookupBelow<V>(m: State<V>, k: string, path: seq<string>)
    requires k in m
    ensures Lookup(Dict(m), [k] + path) == Lookup(m[k], path)
  {
    assert ([k] + path)[1..] == path;
  }

  /** A tidy tree is determined by its leaves. */
  lemma {:induction false} SameLeaves<V>(s: Tree<V>, t: Tree<V>)
    requires Tidy(s) && Tidy(t) && forall path :: Lookup(s, path) == Lookup(t, path)
    ensures s == t
  {
    assert Lookup(s, []) == Lookup(t, []);
    if s.Dict? {
      var m, n := s.entries, t.entries;
      forall k
        ensures k in m <==> k in n
      {
        if k in m {
          var path := SomeLeaf(m[k]);
          LookupBelow(m, k, path);
          assert Lookup(t, [k] + path).Some?;
        }
        if k in n {
          var path := SomeLeaf(n[k]);
          LookupBelow(n, k, path);
          assert Lookup(s, [k] + path).Some?;
        }
      }
      forall k | k in m
        ensures m[k] == n[k]
      {
        forall path
          ensures Lookup(m[k], path) == Lookup(n[k], path)
        {
          LookupBelow(m, k, path);
          LookupBelow(n, k, path);
          assert Lookup(s, [k] + path) == Lookup(t, [k] + path);
        }
        SameLeaves(m[k], n[k]);
      }
      assert m == n;
    }
  }

  lemma {:induction false} LookupDotFree<V>(t: Tree<V>, path: seq<string>)
    requires Tidy(t) && Lookup(t, path).Some?
    ensures AllDotFree(path)
    decreases path
  {
    if path != [] {
      LookupDotFree(t.entries[path[0]], path[1..]);
      assert path == [path[0]] + path[1..];
    }
  }

  // ----- rebuilding -----

  /** The chain of `setdefault` and the final assignment of `_reconstruct_nested`. */
  function Insert<V>(m: State<V>, path: seq<string>, v: V): State<V>
    requires path != []
    decreases path
  {
    if |path| == 1 then m[path[0] := Leaf(v)]
    else
      var below := if path[0] in m && m[path[0]].Dict? then m[path[0]].entries else map[];
      m[path[0] := Dict(Insert(below, path[1..], v))]
  }

  /** No leaf sits on the way, and nothing is stored at or below the end. */
  predicate Free<V>(m: State<V>, path: seq<string>)
    requires path != []
    decreases path
  {
    path[0] in m ==> |path| > 1 && m[path[0]].Dict? && Free(m[path[0]].entries, path[1..])
  }

  lemma {:induction false} LookupInserted<V>(m: State<V>, path: seq<string>, v: V, q: seq<string>)
    requires path != [] && Free(m, path)
    ensures Lookup(Dict(Insert(m, path, v)), q) == if q == path then Some(v) else Lookup(Dict(m), q)
    decreases path
  {
    if q != [] && q[0] == path[0] {
      assert q == [q[0]] + q[1..] && path == [path[0]] + path[1..];
      if |path| > 1 {
        var below := if path[0] in m then m[path[0]].entries else map[];
        LookupInserted(below, path[1..], v, q[1..]);
      } else if |q| > 1 {
        assert Lookup(Leaf(v), q[1..]) == None;
      }
    }
  }

  lemma {:induction false} InsertTidy<V>(m: State<V>, path: seq<string>, v: V)
    requires path != [] && AllDotFree(path) && TidyEntries(m) && Free(m, path)
    ensures TidyEntries(Insert(m, path, v))
    decreases path
  {
    if |path| > 1 {
      InsertTidy(if path[0] in m then m[path[0]].entries else map[], path[1..], v);
    }
  }

  /** What is in the way is a stored path that is a prefix of this one, or the reverse. */
  lemma {:induction false} NotFree<V>(m: State<V>, path: seq<string>) returns (q: seq<string>)
    requires path != [] && TidyEntries(m) && !Free(m, path)
    ensures Lookup(Dict(m), q).Some? && (q <= path || path <= q)
    decreases path
  {
    var k := path[0];
    assert path == [k] + path[1..];
    if |path| == 1 || m[k].Leaf? {
      var rest := SomeLeaf(m[k]);
      q := [k] + rest;
      LookupBelow(m, k, rest);
      if m[k].Leaf? {
        assert rest == [];
      }
    } else {
      var rest := NotFree(m[k].entries, path[1..]);
      q := [k] + rest;
      LookupBelow(m, k, rest);
    }
  }

  // ----- the two loops -----

  /** The value a state dict stores under a dotted key below `prefix`. */
  function At<V>(m: State<V>, prefix: string, key: string): Option<V> {
    if IsUnder(prefix, key) then Lookup(Dict(m), Split(RestOf(prefix, key))) else None
  }

  /** `out` after writing everything `m` stores below `prefix`. */
  ghost predicate Written<V>(m: State<V>, prefix: string, was: map<string, V>, out: map<string, V>) {
    forall key :: Get(out, key) == (if At(m, prefix, key).Some? then At(m, prefix, key) else Get(was, key))
  }

  function Get<V>(flat: map<string, V>, key: string): Option<V> {
    if key in flat then Some(flat[key]) else None
  }

  function Restrict<V>(m: State<V>, ks: set<string>): State<V> {
    map k | k in m && k in ks :: m[k]
  }

  /** A nested dict's part of the keys is what it stores below its own prefix. */
  lemma AtDict<V>(m: State<V>, prefix: string, k: string, key: string)
    requires DotFree(k) && k in m && m[k].Dict? && IsUnder(Under(prefix, k), key)
    ensures At(m, prefix, key) == At(m[k].entries, Under(prefix, k), key)
  {
    var rest := RestOf(Under(prefix, k), key);
    assert RestOf(prefix, key) == k + "." + rest;
    SplitWhole(k);
    SplitAtDot(k, rest);
    LookupBelow(m, k, Split(rest));
  }

  lemma AtLeaf<V>(m: State<V>, prefix: string, k: string)
    requires DotFree(k) && k in m && m[k].Leaf?
    ensures At(m, prefix, Under(prefix, k)) == Some(m[k].value)
  {
    assert RestOf(prefix, Under(prefix, k)) == k;
    SplitWhole(k);
    LookupBelow(m, k, []);
    assert [k] + [] == [k];
  }

  /** A stored key belongs to the entry its first part names. */
  lemma EntryOf<V>(m: State<V>, prefix: string, key: string) returns (k: string)
    requires At(m, prefix, key).Some?
    ensures IsUnder(prefix, key) && k == Split(RestOf(prefix, key))[0]
    ensures k in m && if m[k].Dict? then IsUnder(Under(prefix, k), key) else key == Under(prefix, k)
  {
    var rest := RestOf(prefix, key);
    var p := Split(rest);
    k := p[0];
    assert Lookup(Dict(m), p) == Lookup(m[k], p[1..]);
    JoinSplit(rest);
    assert key == prefix + "." + rest;
    if m[k].Dict? {
      assert |p| > 1;
      assert Under(prefix, k) + "." <= key;
    }
  }

  ghost predicate WrittenPart<V>(m: State<V>, done: set<string>, prefix: string, was: map<string, V>, out: map<string,
                                 V>) {
    forall key :: Get(out, key) ==
      (if At(Restrict(m, done), prefix, key).Some? then At(Restrict(m, done), prefix, key) else Get(was, key))
  }

  /** Writing one more entry. */
  lemma WriteEntry<V>(m: State<V>, done: set<string>, k: string, prefix: string, was: map<string, V>,
                      mid: map<string, V>, out: map<string, V>)
    requires DotFree(k) && k in m && k !in done && WrittenPart(m, done, prefix, was, mid)
    requires match m[k]
      case Leaf(v) => out == mid[Under(prefix, k) := v]
      case Dict(n) => Written(n, Under(prefix, k), mid, out)
    ensures WrittenPart(m, done + {k}, prefix, was, out)
  {
    var before, after := Restrict(m, done), Restrict(m, done + {k});
    forall key
      ensures Get(out, key) == (if At(after, prefix, key).Some? then At(after, prefix, key) else Get(was, key))
    {
      if m[k].Dict? && IsUnder(Under(prefix, k), key) {
        AtDict(after, prefix, k, key);
        NotBefore(m, done, k, prefix, key);
      } else if m[k].Leaf? && key == Under(prefix, k) {
        AtLeaf(after, prefix, k);
      } else {
        RestrictAt(m, done, k, prefix, key);
      }
    }
  }

  /** Keys of the other entries are as before. */
  lemma RestrictAt<V>(m: State<V>, done: set<string>, k: string, prefix: string, key: string)
    requires DotFree(k) && k in m && k !in done
    requires if m[k].Dict? then !IsUnder(Under(prefix, k), key) else key != Under(prefix, k)
    ensures At(Restrict(m, done + {k}), prefix, key) == At(Restrict(m, done), prefix, key)
  {
    if At(Restrict(m, done + {k}), prefix, key).Some? {
      var e := EntryOf(Restrict(m, done + {k}), prefix, key);
      assert e != k;
    }
  }

  lemma NotBefore<V>(m: State<V>, done: set<string>, k: string, prefix: string, key: string)
    requires DotFree(k) && k !in done && IsUnder(Under(prefix, k), key)
    ensures At(Restrict(m, done), prefix, key) == None
  {
    var rest := RestOf(Under(prefix, k), key);
    assert RestOf(prefix, key) == k + "." + rest;
    SplitWhole(k);
    SplitAtDot(k, rest);
  }

  /** `_flatten_state_nested`: nested dicts below their own prefix, everything else at its
      key; `out` is passed down and filled on the way. */
  method FlattenStateNested<V>(state: State<V>, prefix: string, out: map<string, V>) returns (flat: map<string, V>)
    requires TidyEntries(state)
    ensures Written(state, prefix, out, flat)
    decreases Dict(state)
  {
    flat := out;
    var todo: set<string> := state.Keys;
    while todo != {}
      invariant todo <= state.Keys
      invariant WrittenPart(state, state.Keys - todo, prefix, out, flat)
      decreases |todo|
    {
      var key :| key in todo;
      ghost var done, mid := state.Keys - todo, flat;
      match state[key] {
        case Leaf(v) => flat := flat[Under(prefix, key) := v];
        case Dict(nested) => flat := FlattenStateNested(nested, Under(prefix, key), flat);
      }
      WriteEntry(state, done, key, prefix, out, mid, flat);
      assert state.Keys - (todo - {key}) == done + {key};
      todo := todo - {key};
    }
    assert Restrict(state, state.Keys - todo) == state;
  }

  /** Different stored paths, and none of them inside another. */
  ghost predicate PrefixFree<V>(flat: map<string, V>, prefix: string) {
    forall p, q | IsStored(flat, prefix, p) && IsStored(flat, prefix, q) :: p <= q ==> p == q
  }

  ghost predicate IsStored<V>(flat: map<string, V>, prefix: string, p: seq<string>) {
    p != [] && AllDotFree(p) && Under(prefix, Join(p)) in flat
  }

  /** `r` holds what `flat` stores below `prefix` under the keys in `ks`. */
  ghost predicate Rebuilt<V>(flat: map<string, V>, ks: set<string>, prefix: string, r: State<V>) {
    TidyEntries(r) && forall p :: Lookup(Dict(r), p) == Stored(flat, ks, prefix, p)
  }

  ghost function Stored<V>(flat: map<string, V>, ks: set<string>, prefix: string, p: seq<string>): Option<V> {
    if IsStored(flat, prefix, p) && Under(prefix, Join(p)) in ks then Some(flat[Under(prefix, Join(p))]) else None
  }

  lemma RebuildOne<V>(flat: map<string, V>, ks: set<string>, prefix: string, r: State<V>, key: string)
    requires Rebuilt(flat, ks, prefix, r) && PrefixFree(flat, prefix) && key in flat && key !in ks
    requires IsUnder(prefix, key)
    ensures Rebuilt(flat, ks + {key}, prefix, Insert(r, Split(RestOf(prefix, key)), flat[key]))
  {
    var path := Split(RestOf(prefix, key));
    SplitParts(RestOf(prefix, key));
    JoinSplit(RestOf(prefix, key));
    UnderRest(prefix, key);
    assert IsStored(flat, prefix, path);
    if !Free(r, path) {
      var q := NotFree(r, path);
      assert false;
    }
    InsertTidy(r, path, flat[key]);
    var s := Insert(r, path, flat[key]);
    forall p
      ensures Lookup(Dict(s), p) == Stored(flat, ks + {key}, prefix, p)
    {
      LookupInserted(r, path, flat[key], p);
      if IsStored(flat, prefix, p) && Under(prefix, Join(p)) == key {
        SplitJoin(p);
        UnderRest(prefix, Join(p));
      }
    }
  }

  /** `_reconstruct_nested`: walk the whole flat dict, in any order, and hang every key below
      the prefix into the result. */
  method ReconstructNested<V>(flat: map<string, V>, prefix: string) returns (r: State<V>)
    requires PrefixFree(flat, prefix)
    ensures Rebuilt(flat, flat.Keys, prefix, r)
  {
    r := map[];
    var todo: set<string> := flat.Keys;
    while todo != {}
      invariant todo <= flat.Keys
      invariant Rebuilt(flat, flat.Keys - todo, prefix, r)
      decreases |todo|
    {
      var key :| key in todo;
      ghost var done := flat.Keys - todo;
      if IsUnder(prefix, key) {
        RebuildOne(flat, done, prefix, r, key);
        r := Insert(r, Split(RestOf(prefix, key)), flat[key]);
      } else {
        forall p
          ensures Under(prefix, Join(p)) != key
        {
          UnderRest(prefix, Join(p));
        }
      }
      assert flat.Keys - (todo - {key}) == done + {key};
      todo := todo - {key};
    }
    assert flat.Keys - todo == flat.Keys;
  }
}
