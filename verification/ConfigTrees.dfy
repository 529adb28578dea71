/** Config trees: nodes by path, replacing a node, and the traversal for one class. */
module ConfigTrees {
  import opened Decimals
  import opened DottedNames
  import opened Wrappers

  datatype Key = Name(text: string) | Index(i: nat)

  type Path = seq<Key>

  /** A config of some class with its fields, a list, or any other value. */
  datatype Tree<D> = Conf(cls: nat, fields: seq<Field<D>>) | List(items: seq<Tree<D>>) | Data(d: D)

  datatype Field<D> = Field(name: string, val: Tree<D>)

  // ----- nodes -----

  function FindField<D>(fields: seq<Field<D>>, name: string): (i: nat)
    ensures i <= |fields| && (i < |fields| ==> fields[i].name == name)
    ensures i == |fields| ==> forall k | 0 <= k < |fields| :: fields[k].name != name
  {
    if fields == [] then 0 else if fields[0].name == name then 0 else 1 + FindField(fields[1..], name)
  }

  function Child<D>(t: Tree<D>, k: Key): (r: Option<Tree<D>>)
    ensures r.Some? ==> r.value < t
  {
    match (t, k)
    case (Conf(_, fields), Name(n)) =>
      var i := FindField(fields, n);
      if i < |fields| then
        assert fields[i].val < fields[i] < t;
        Some(fields[i].val)
      else None
    case (List(items), Index(i)) => if i < |items| then Some(items[i]) else None
    case _ => None
  }

  function Get<D>(t: Tree<D>, p: Path): Option<Tree<D>>
    decreases p
  {
    if p == [] then Some(t)
    else if Child(t, p[0]).None? then None
    else Get(Child(t, p[0]).value, p[1..])
  }

  function PutChild<D>(t: Tree<D>, k: Key, c: Tree<D>): Tree<D>
    requires Child(t, k).Some?
  {
    match (t, k)
    case (Conf(cls, fields), Name(n)) => var i := FindField(fields, n); Conf(cls, fields[i := Field(n, c)])
    case (List(items), Index(i)) => List(items[i := c])
  }

  /** `setattr(parent, attr, new)` or `parent[i] = new` at the end of the path. */
  function Put<D>(t: Tree<D>, p: Path, v: Tree<D>): Tree<D>
    requires Get(t, p).Some?
    decreases p
  {
    if p == [] then v else PutChild(t, p[0], Put(Child(t, p[0]).value, p[1..], v))
  }

  lemma {:induction false} FindUpdated<D>(fields: seq<Field<D>>, i: nat, c: Tree<D>, name: string)
    requires i < |fields|
    ensures FindField(fields[i := Field(fields[i].name, c)], name) == FindField(fields, name)
  {
    if i == 0 {
      assert fields[0 := Field(fields[0].name, c)][1..] == fields[1..];
    } else {
      assert fields[i := Field(fields[i].name, c)][1..] == fields[1..][i - 1 := Field(fields[1..][i - 1].name, c)];
      FindUpdated(fields[1..], i - 1, c, name);
    }
  }

  lemma ChildOfPut<D>(t: Tree<D>, k: Key, c: Tree<D>, j: Key)
    requires Child(t, k).Some?
    ensures Child(PutChild(t, k, c), j) == if j == k then Some(c) else Child(t, j)
  {
    if t.Conf? && j.Name? {
      var i := FindField(t.fields, k.text);
      FindUpdated(t.fields, i, c, j.text);
    }
  }

  lemma PutPut<D>(t: Tree<D>, k: Key, c: Tree<D>, j: Key, d: Tree<D>)
    requires Child(t, k).Some? && Child(t, j).Some?
    ensures Child(PutChild(t, k, c), j).Some? && Child(PutChild(t, j, d), k).Some?
    ensures j != k ==> PutChild(PutChild(t, k, c), j, d) == PutChild(PutChild(t, j, d), k, c)
    ensures j == k ==> PutChild(PutChild(t, k, c), j, d) == PutChild(t, j, d)
  {
    ChildOfPut(t, k, c, j);
    ChildOfPut(t, j, d, k);
    if t.Conf? {
      FindUpdated(t.fields, FindField(t.fields, k.text), c, j.text);
      FindUpdated(t.fields, FindField(t.fields, j.text), d, k.text);
    }
  }

  predicate Incomparable(p: Path, q: Path) {
    !(p <= q) && !(q <= p)
  }

  lemma IncomparableTails(p: Path, q: Path)
    requires Incomparable(p, q)
    ensures p != [] && q != [] && (p[0] == q[0] ==> Incomparable(p[1..], q[1..]))
  {
    if p != [] && q != [] && p[0] == q[0] {
      assert p == [p[0]] + p[1..] && q == [q[0]] + q[1..];
    }
  }

  /** Replacing a node changes nothing beside it. */
  lemma {:induction false} GetBeside<D>(t: Tree<D>, p: Path, v: Tree<D>, q: Path)
    requires Get(t, p).Some? && Incomparable(p, q)
    ensures Get(Put(t, p, v), q) == Get(t, q)
    decreases p
  {
    IncomparableTails(p, q);
    var c := Child(t, p[0]).value;
    ChildOfPut(t, p[0], Put(c, p[1..], v), q[0]);
    if p[0] == q[0] {
      GetBeside(c, p[1..], v, q[1..]);
    }
  }

  lemma {:induction false} GetPut<D>(t: Tree<D>, p: Path, v: Tree<D>)
    requires Get(t, p).Some?
    ensures Get(Put(t, p, v), p) == Some(v)
    decreases p
  {
    if p != [] {
      var c := Child(t, p[0]).value;
      ChildOfPut(t, p[0], Put(c, p[1..], v), p[0]);
      GetPut(c, p[1..], v);
    }
  }

  /** Replacements side by side commute. */
  lemma {:induction false} PutsCommute<D>(t: Tree<D>, p: Path, v: Tree<D>, q: Path, w: Tree<D>)
    requires Get(t, p).Some? && Get(t, q).Some? && Incomparable(p, q)
    ensures Get(Put(t, p, v), q).Some? && Get(Put(t, q, w), p).Some?
    ensures Put(Put(t, p, v), q, w) == Put(Put(t, q, w), p, v)
    decreases p
  {
    GetBeside(t, p, v, q);
    GetBeside(t, q, w, p);
    IncomparableTails(p, q);
    var c, d := Child(t, p[0]).value, Child(t, q[0]).value;
    if p[0] == q[0] {
      PutsCommute(c, p[1..], v, q[1..], w);
      var cv, cw := Put(c, p[1..], v), Put(c, q[1..], w);
      ChildOfPut(t, p[0], cv, p[0]);
      ChildOfPut(t, p[0], cw, p[0]);
      PutPut(t, p[0], cv, p[0], Put(cv, q[1..], w));
      PutPut(t, p[0], cw, p[0], Put(cw, p[1..], v));
    } else {
      var cv, dw := Put(c, p[1..], v), Put(d, q[1..], w);
      ChildOfPut(t, p[0], cv, q[0]);
      ChildOfPut(t, q[0], dw, p[0]);
      PutPut(t, p[0], cv, q[0], dw);
    }
  }

  // ----- names of nodes -----

  function Text(k: Key): string {
    match k
    case Name(n) => n
    case Index(i) => Decimal(i)
  }

  function Texts(p: Path): (r: seq<string>)
    ensures |r| == |p| && forall i | 0 <= i < |p| :: r[i] == Text(p[i])
  {
    seq(|p|, i requires 0 <= i < |p| => Text(p[i]))
  }

  /** The dotted name, empty for the root. */
  function Fqn(p: Path): string {
    Join(Texts(p))
  }

  predicate PlainName(name: string) {
    name != "" && DotFree(name)
  }

  predicate DistinctFields<D>(fields: seq<Field<D>>) {
    forall i, j | 0 <= i < j < |fields| :: fields[i].name != fields[j].name
  }

  /** Field names are identifiers, hence neither empty nor dotted, and different. */
  predicate PlainNames<D>(t: Tree<D>) {
    match t
    case Conf(_, fields) =>
      DistinctFields(fields) && forall i | 0 <= i < |fields| :: PlainName(fields[i].name) && PlainNames(fields[i].val)
    case List(items) => forall i | 0 <= i < |items| :: PlainNames(items[i])
    case Data(_) => true
  }

  lemma TextDotFree<D>(t: Tree<D>, k: Key)
    requires PlainNames(t) && Child(t, k).Some?
    ensures PlainName(Text(k)) && PlainNames(Child(t, k).value)
  {
    if k.Index? {
      assert forall c | c in Decimal(k.i) :: IsDigit(c);
    }
  }

  /** Two children of one node have different texts. */
  lemma TextInjective<D>(t: Tree<D>, k: Key, j: Key)
    requires Child(t, k).Some? && Child(t, j).Some? && Text(k) == Text(j)
    ensures k == j
  {
    if k.Index? {
      DecimalInjective(k.i, j.i);
    }
  }

  lemma {:induction false} TextsDotFree<D>(t: Tree<D>, p: Path)
    requires PlainNames(t) && Get(t, p).Some?
    ensures AllDotFree(Texts(p)) && forall i | 0 <= i < |p| :: Texts(p)[i] != ""
    decreases p
  {
    if p != [] {
      TextDotFree(t, p[0]);
      TextsDotFree(Child(t, p[0]).value, p[1..]);
      assert Texts(p) == [Text(p[0])] + Texts(p[1..]);
    }
  }

  /** Nodes are told apart by the texts along their paths. */
  lemma {:induction false} SameTexts<D>(t: Tree<D>, p: Path, q: Path)
    requires Get(t, p).Some? && Get(t, q).Some? && Texts(p) == Texts(q)
    ensures p == q
    decreases p
  {
    assert |p| == |Texts(p)| == |q|;
    if p != [] {
      assert Texts(p)[0] == Text(p[0]) && Texts(q)[0] == Text(q[0]);
      TextInjective(t, p[0], q[0]);
      assert Texts(p[1..]) == Texts(p)[1..] && Texts(q[1..]) == Texts(q)[1..];
      SameTexts(Child(t, p[0]).value, p[1..], q[1..]);
      assert p == [p[0]] + p[1..] && q == [q[0]] + q[1..];
    }
  }

  lemma {:induction false} GetAbove<D>(t: Tree<D>, p: Path, n: nat)
    requires Get(t, p).Some? && n <= |p|
    ensures Get(t, p[..n]).Some?
    decreases p
  {
    if n > 0 {
      GetAbove(Child(t, p[0]).value, p[1..], n - 1);
      assert p[..n][1..] == p[1..][..n - 1];
    }
  }

  lemma TextsPrefix<D>(t: Tree<D>, p: Path, q: Path)
    requires Get(t, p).Some? && Get(t, q).Some?
    ensures Texts(p) <= Texts(q) <==> p <= q
  {
    if Texts(p) <= Texts(q) {
      GetAbove(t, q, |p|);
      assert Texts(q[..|p|]) == Texts(q)[..|p|] == Texts(p);
      SameTexts(t, p, q[..|p|]);
    }
    if p <= q {
      assert p == q[..|p|];
      assert Texts(p) == Texts(q)[..|p|];
    }
  }

  /** Names of nodes tell ancestry: "starts with the name and a dot" is "is below". The root
      has the empty name, below which nothing counts. */
  lemma NameIsAncestry<D>(t: Tree<D>, p: Path, q: Path)
    requires PlainNames(t) && Get(t, p).Some? && Get(t, q).Some?
    ensures IsUnder(Fqn(p), Fqn(q)) <==> p != [] && p < q
    ensures p != [] && q != [] ==> (Fqn(p) == Fqn(q) <==> p == q)
  {
    TextsDotFree(t, p);
    TextsDotFree(t, q);
    TextsPrefix(t, p, q);
    TextsPrefix(t, q, p);
    StartsWithIsPrefix(Fqn(p), Fqn(q));
    if p != [] {
      SplitJoin(Texts(p));
    }
    if q != [] {
      SplitJoin(Texts(q));
    }
    if p == [] && q != [] {
      NothingUnderRoot(Texts(q));
    }
  }

  lemma NothingUnderRoot(texts: seq<string>)
    requires texts != [] && texts[0] != "" && DotFree(texts[0])
    ensures !IsUnder("", Join(texts))
  {
    assert Join(texts)[0] == texts[0][0];
    assert texts[0][0] in texts[0];
  }
}
