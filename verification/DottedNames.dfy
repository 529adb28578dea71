/** Dotted names: splitting and joining at '.', and when a key determines its parts. */
module DottedNames {

  predicate DotFree(s: string) {
    '.' !in s
  }

  predicate AllDotFree(p: seq<string>) {
    forall i | 0 <= i < |p| :: DotFree(p[i])
  }

  /** `s.split(".")` */
  function Split(s: string): (r: seq<string>)
    ensures r != []
  {
    if s == "" then [""]
    else
      Prepend(s[0], Split(s[1..]))
  }

  /** One more character in front. */
  function Prepend(c: char, parts: seq<string>): (r: seq<string>)
    requires parts != []
    ensures r != []
  {
    if c == '.' then [""] + parts else [[c] + parts[0]] + parts[1..]
  }

  lemma PrependJoin(c: char, r: seq<string>, t: seq<string>)
    requires r != []
    ensures Prepend(c, r + t) == Prepend(c, r) + t
  {
    assert (r + t)[0] == r[0] && (r + t)[1..] == r[1..] + t;
  }

  /** `".".join(p)` */
  function Join(p: seq<string>): string {
    if p == [] then "" else if |p| == 1 then p[0] else p[0] + "." + Join(p[1..])
  }

  lemma {:induction false} SplitParts(s: string)
    ensures AllDotFree(Split(s))
  {
    if s != "" {
      SplitParts(s[1..]);
    }
  }

  lemma {:induction false} SplitWhole(s: string)
    requires DotFree(s)
    ensures Split(s) == [s]
  {
    if s != "" {
      SplitWhole(s[1..]);
      assert s[0] in s;
      assert [s[0]] + s[1..] == s;
    }
  }

  lemma {:induction false} SplitAtDot(a: string, b: string)
    ensures Split(a + "." + b) == Split(a) + Split(b)
  {
    var s := a + "." + b;
    if a == "" {
      assert s[0] == '.' && s[1..] == b;
    } else {
      assert s[0] == a[0] && s[1..] == a[1..] + "." + b;
      SplitAtDot(a[1..], b);
      var r, t := Split(a[1..]), Split(b);
      assert Split(s) == Prepend(s[0], r + t) && Split(a) == Prepend(a[0], r);
      PrependJoin(a[0], r, t);
    }
  }

  lemma {:induction false} JoinSplit(s: string)
    ensures Join(Split(s)) == s
  {
    if s != "" {
      JoinSplit(s[1..]);
      var r := Split(s[1..]);
      if s[0] == '.' {
        assert ([""] + r)[1..] == r;
        assert s == "." + s[1..];
      } else {
        assert ([[s[0]] + r[0]] + r[1..])[1..] == r[1..];
        assert s == [s[0]] + s[1..];
      }
    }
  }

  lemma {:induction false} SplitJoin(p: seq<string>)
    requires p != [] && AllDotFree(p)
    ensures Split(Join(p)) == p
  {
    SplitWhole(p[0]);
    if |p| > 1 {
      SplitJoin(p[1..]);
      SplitAtDot(p[0], Join(p[1..]));
      assert [p[0]] + p[1..] == p;
    }
  }

  // ----- keys -----

  /** `f"{prefix}.{rest}"` */
  function Under(prefix: string, rest: string): string {
    prefix + "." + rest
  }

  /** `key.startswith(prefix + ".")` */
  predicate IsUnder(prefix: string, key: string) {
    prefix + "." <= key
  }

  function RestOf(prefix: string, key: string): string
    requires IsUnder(prefix, key)
  {
    key[|prefix| + 1..]
  }

  lemma UnderRest(prefix: string, key: string)
    ensures IsUnder(prefix, key) ==> Under(prefix, RestOf(prefix, key)) == key
    ensures IsUnder(prefix, Under(prefix, key)) && RestOf(prefix, Under(prefix, key)) == key
  {
  }

  /** Starting with "prefix." is having the prefix's parts as a proper initial segment. */
  lemma StartsWithIsPrefix(prefix: string, key: string)
    ensures IsUnder(prefix, key) <==> Split(prefix) < Split(key)
  {
    if IsUnder(prefix, key) {
      UnderRest(prefix, key);
      SplitAtDot(prefix, RestOf(prefix, key));
    }
    if Split(prefix) < Split(key) {
      var p, k := Split(prefix), Split(key);
      var rest := k[|p|..];
      assert k == p + rest;
      SplitParts(key);
      SplitJoin(rest);
      JoinSplit(key);
      JoinSplit(prefix);
      SplitAtDot(prefix, Join(rest));
      JoinSplit(Under(prefix, Join(rest)));
      assert key == Under(prefix, Join(rest));
    }
  }

  /** Neither name is a dotted prefix of the other. */
  predicate Apart(f: string, g: string) {
    !IsUnder(f, g) && !IsUnder(g, f)
  }

  /** Under names that are apart, a key determines its name and the path below it. */
  lemma KeyInjective(f: string, p: seq<string>, g: string, q: seq<string>)
    requires p != [] && q != [] && AllDotFree(p) && AllDotFree(q)
    requires f == g || Apart(f, g)
    requires Under(f, Join(p)) == Under(g, Join(q))
    ensures f == g && p == q
  {
    SplitAtDot(f, Join(p));
    SplitAtDot(g, Join(q));
    SplitJoin(p);
    SplitJoin(q);
    var x, y := Split(f), Split(g);
    assert x + p == y + q;
    if |x| < |y| {
      assert x == (y + q)[..|x|] == y[..|x|];
      StartsWithIsPrefix(f, g);
    } else if |y| < |x| {
      assert y == (x + p)[..|y|] == x[..|y|];
      StartsWithIsPrefix(g, f);
    } else {
      assert x == (x + p)[..|x|] && y == (y + q)[..|y|];
      assert p == (x + p)[|x|..] && q == (y + q)[|y|..];
      JoinSplit(f);
      JoinSplit(g);
    }
  }

  // ----- canonical names -----

  function Keep(p: seq<string>, drop: set<string>): seq<string> {
    if p == [] then [] else (if p[0] in drop then [] else [p[0]]) + Keep(p[1..], drop)
  }

  /** `canonical_fqn`: drop the wrapper segments. */
  function CanonicalFqn(name: string, drop: set<string>): string {
    Join(Keep(Split(name), drop))
  }

  lemma {:induction false} KeepClean(p: seq<string>, drop: set<string>)
    ensures forall s | s in Keep(p, drop) :: s in p && s !in drop
    ensures (forall s | s in p :: s !in drop) ==> Keep(p, drop) == p
  {
    if p != [] {
      KeepClean(p[1..], drop);
      assert p == [p[0]] + p[1..];
    }
  }

  /** No wrapper segment is left at any level, and stripping again changes nothing. */
  lemma CanonicalIsClean(name: string, drop: set<string>)
    requires "" !in drop
    ensures forall s | s in Split(CanonicalFqn(name, drop)) :: s !in drop
    ensures CanonicalFqn(CanonicalFqn(name, drop), drop) == CanonicalFqn(name, drop)
  {
    var kept := Keep(Split(name), drop);
    KeepClean(Split(name), drop);
    SplitParts(name);
    if kept == [] {
      assert Split(CanonicalFqn(name, drop)) == [""];
    } else {
      forall i | 0 <= i < |kept|
        ensures DotFree(kept[i])
      {
        assert kept[i] in kept;
      }
      SplitJoin(kept);
    }
    KeepClean(Split(CanonicalFqn(name, drop)), drop);
    JoinSplit(CanonicalFqn(name, drop));
  }

  lemma {:induction false} KeepJoins(a: seq<string>, b: seq<string>, drop: set<string>)
    ensures Keep(a + b, drop) == Keep(a, drop) + Keep(b, drop)
  {
    if a == [] {
      assert a + b == b;
    } else {
      assert (a + b)[1..] == a[1..] + b;
      KeepJoins(a[1..], b, drop);
    }
  }

  lemma KeepSkips(a: seq<string>, w: string, b: seq<string>, drop: set<string>)
    requires w in drop
    ensures Keep(a + [w] + b, drop) == Keep(a + b, drop)
  {
    KeepJoins(a + [w], b, drop);
    KeepJoins(a, [w], drop);
    KeepJoins(a, b, drop);
    assert Keep([w], drop) == [];
  }

  lemma CanonicalOf(p: seq<string>, drop: set<string>)
    requires p != [] && AllDotFree(p)
    ensures CanonicalFqn(Join(p), drop) == Join(Keep(p, drop))
  {
    SplitJoin(p);
  }

  /** A wrapper segment at any level does not matter: the name is that of what it wraps. */
  lemma WrapperVanishes(a: seq<string>, w: string, b: seq<string>, drop: set<string>)
    requires AllDotFree(a + [w] + b) && AllDotFree(a + b) && w in drop && a + b != []
    ensures CanonicalFqn(Join(a + [w] + b), drop) == CanonicalFqn(Join(a + b), drop)
  {
    CanonicalOf(a + [w] + b, drop);
    CanonicalOf(a + b, drop);
    KeepSkips(a, w, b, drop);
  }

  /** A name without wrapper segments is its own canonical name. */
  lemma CleanStays(p: seq<string>, drop: set<string>)
    requires p != [] && AllDotFree(p) && forall i | 0 <= i < |p| :: p[i] !in drop
    ensures CanonicalFqn(Join(p), drop) == Join(p)
  {
    SplitJoin(p);
    KeepClean(p, drop);
  }

  /** So two parameters that differ besides their wrappers keep different names. */
  lemma CleanDiffer(p: seq<string>, q: seq<string>, drop: set<string>)
    requires p != [] && AllDotFree(p) && forall i | 0 <= i < |p| :: p[i] !in drop
    requires q != [] && AllDotFree(q) && forall i | 0 <= i < |q| :: q[i] !in drop
    requires p != q
    ensures CanonicalFqn(Join(p), drop) != CanonicalFqn(Join(q), drop)
  {
    CleanStays(p, drop);
    CleanStays(q, drop);
    SplitJoin(p);
    SplitJoin(q);
  }

  /** A checkpointed layer's parameter has the name it has without the wrapper. */
  lemma CheckpointedLayer(layer: string, rest: seq<string>)
    requires DotFree(layer) && AllDotFree(rest) && "_checkpoint_wrapped_module" !in rest
    requires layer != "_checkpoint_wrapped_module"
    ensures CanonicalFqn(Join(["layers", layer] + ["_checkpoint_wrapped_module"] + rest),
                         {"_checkpoint_wrapped_module"})
      == Join(["layers", layer] + rest)
  {
    var drop, w := {"_checkpoint_wrapped_module"}, "_checkpoint_wrapped_module";
    var head := ["layers", layer];
    assert w[0] == '_' && "layers"[0] == 'l';
    forall i | 0 <= i < |head + rest|
      ensures (head + rest)[i] != w
    {
      assert i >= 2 ==> (head + rest)[i] in rest;
    }
    assert AllDotFree(head + [w] + rest) && AllDotFree(head + rest) by {
      assert AllDotFree(head) && DotFree(w);
    }
    WrapperVanishes(head, w, rest, drop);
    CleanStays(head + rest, drop);
  }
}
