/** `Configurable.Config.traverse` without recursion into matches: the topmost configs of a
    class, each once. */
module ConfigTraversal {
  import opened ConfigTrees
  import opened Wrappers

  /** `isa(cls, target)`: instances of cls are instances of target. */
  type Isa = (nat, nat) -> bool

  function Below(k: Key, ps: seq<Path>): (r: seq<Path>)
    ensures |r| == |ps| && forall i | 0 <= i < |ps| :: r[i] == [k] + ps[i]
  {
    seq(|ps|, i requires 0 <= i < |ps| => [k] + ps[i])
  }

  /** The paths a config yields for itself: it, if it matches, otherwise what its fields and
      the items of its list fields yield, in order. */
  function Traverse<D>(isa: Isa, t: Tree<D>, target: nat): seq<Path>
    decreases t, 2
  {
    if !t.Conf? then []
    else if isa(t.cls, target) then [[]]
    else InFields(isa, t, target, 0)
  }

  function InFields<D>(isa: Isa, t: Tree<D>, target: nat, i: nat): seq<Path>
    requires t.Conf? && i <= |t.fields|
    decreases t, 1, |t.fields| - i
  {
    if i == |t.fields| then []
    else
      assert t.fields[i].val < t.fields[i] < t;
      Below(Name(t.fields[i].name), InValue(isa, t.fields[i].val, target)) + InFields(isa, t, target, i + 1)
  }

  function InValue<D>(isa: Isa, v: Tree<D>, target: nat): seq<Path>
    decreases v, 3
  {
    if v.List? then InItems(isa, v, target, 0) else Traverse(isa, v, target)
  }

  function InItems<D>(isa: Isa, v: Tree<D>, target: nat, i: nat): seq<Path>
    requires v.List? && i <= |v.items|
    decreases v, 1, |v.items| - i
  {
    if i == |v.items| then []
    else Below(Index(i), Traverse(isa, v.items[i], target)) + InItems(isa, v, target, i + 1)
  }

  // ----- what it yields -----

  /** A matching config above which no config matches, reached through fields and through
      lists that sit directly in a field. */
  predicate TopValue<D>(isa: Isa, v: Tree<D>, target: nat, p: Path)
    decreases p
  {
    if v.List? then
      p != [] && Child(v, p[0]).Some? && Child(v, p[0]).value.Conf?
      && TopValue(isa, Child(v, p[0]).value, target, p[1..])
    else if v.Conf? && p != [] then
      !isa(v.cls, target) && Child(v, p[0]).Some? && TopValue(isa, Child(v, p[0]).value, target, p[1..])
    else v.Conf? && isa(v.cls, target)
  }

  predicate TopField<D>(isa: Isa, t: Tree<D>, target: nat, i: nat, p: Path) {
    p != [] && p[0].Name? && t.Conf?
    && exists k :: i <= k < |t.fields| && t.fields[k].name == p[0].text
                   && TopValue(isa, t.fields[k].val, target, p[1..])
  }

  predicate TopItem<D>(isa: Isa, v: Tree<D>, target: nat, i: nat, p: Path) {
    p != [] && p[0].Index? && v.List? && i <= p[0].i < |v.items|
    && v.items[p[0].i].Conf? && TopValue(isa, v.items[p[0].i], target, p[1..])
  }

  lemma InBelow(k: Key, ps: seq<Path>, p: Path)
    ensures p in Below(k, ps) <==> p != [] && p[0] == k && p[1..] in ps
  {
    if p in Below(k, ps) {
      var i :| 0 <= i < |ps| && Below(k, ps)[i] == p;
      assert p[1..] == ps[i];
    }
    if p != [] && p[0] == k && p[1..] in ps {
      var i :| 0 <= i < |ps| && ps[i] == p[1..];
      assert Below(k, ps)[i] == [k] + p[1..] == p;
    }
  }

  lemma {:induction false} TraverseIsTop<D>(isa: Isa, t: Tree<D>, target: nat, p: Path)
    requires PlainNames(t)
    ensures p in Traverse(isa, t, target) <==> t.Conf? && TopValue(isa, t, target, p)
    decreases t, 2
  {
    if t.Conf? && !isa(t.cls, target) {
      FieldsAreTop(isa, t, target, 0, p);
      if p != [] && p[0].Name? {
        var i := FindField(t.fields, p[0].text);
        assert i < |t.fields| ==> Child(t, p[0]) == Some(t.fields[i].val);
      }
    }
  }

  lemma {:induction false} FieldsAreTop<D>(isa: Isa, t: Tree<D>, target: nat, i: nat, p: Path)
    requires PlainNames(t) && t.Conf? && i <= |t.fields|
    ensures p in InFields(isa, t, target, i) <==> TopField(isa, t, target, i, p)
    decreases t, 1, |t.fields| - i
  {
    if i < |t.fields| {
      assert t.fields[i].val < t.fields[i] < t;
      FieldsAreTop(isa, t, target, i + 1, p);
      InBelow(Name(t.fields[i].name), InValue(isa, t.fields[i].val, target), p);
      if p != [] {
        ValueIsTop(isa, t.fields[i].val, target, p[1..]);
      }
    }
  }

  lemma {:induction false} ValueIsTop<D>(isa: Isa, v: Tree<D>, target: nat, p: Path)
    requires PlainNames(v)
    ensures p in InValue(isa, v, target) <==> TopValue(isa, v, target, p)
    decreases v, 3
  {
    if v.List? {
      ItemsAreTop(isa, v, target, 0, p);
    } else {
      TraverseIsTop(isa, v, target, p);
    }
  }

  lemma {:induction false} ItemsAreTop<D>(isa: Isa, v: Tree<D>, target: nat, i: nat, p: Path)
    requires PlainNames(v) && v.List? && i <= |v.items|
    ensures p in InItems(isa, v, target, i) <==> TopItem(isa, v, target, i, p)
    decreases v, 1, |v.items| - i
  {
    if i < |v.items| {
      ItemsAreTop(isa, v, target, i + 1, p);
      InBelow(Index(i), Traverse(isa, v.items[i], target), p);
      if p != [] {
        TraverseIsTop(isa, v.items[i], target, p[1..]);
      }
    }
  }

  /** What is yielded is a matching config. */
  lemma {:induction false} TopGet<D>(isa: Isa, v: Tree<D>, target: nat, p: Path)
    requires TopValue(isa, v, target, p)
    ensures Get(v, p).Some? && Get(v, p).value.Conf? && isa(Get(v, p).value.cls, target)
    decreases p
  {
    if p != [] {
      TopGet(isa, Child(v, p[0]).value, target, p[1..]);
    }
  }

  /** No yielded node lies inside another. */
  lemma {:induction false} TopsApart<D>(isa: Isa, v: Tree<D>, target: nat, p: Path, q: Path)
    requires TopValue(isa, v, target, p) && TopValue(isa, v, target, q) && p <= q
    ensures p == q
    decreases p
  {
    if p != [] {
      TopsApart(isa, Child(v, p[0]).value, target, p[1..], q[1..]);
      assert p == [p[0]] + p[1..] && q == [q[0]] + q[1..];
    }
  }

  ghost predicate NoRepeats(ps: seq<Path>) {
    forall i, j | 0 <= i < j < |ps| :: ps[i] != ps[j]
  }

  lemma BelowDistinct(k: Key, ps: seq<Path>)
    requires NoRepeats(ps)
    ensures NoRepeats(Below(k, ps))
  {
    forall i, j | 0 <= i < j < |ps|
      ensures Below(k, ps)[i] != Below(k, ps)[j]
    {
      assert ([k] + ps[i])[1..] == ps[i] && ([k] + ps[j])[1..] == ps[j];
    }
  }

  lemma JoinDistinct(a: seq<Path>, b: seq<Path>)
    requires NoRepeats(a) && NoRepeats(b) && forall p | p in a :: p !in b
    ensures NoRepeats(a + b)
  {
    forall i, j | 0 <= i < j < |a + b|
      ensures (a + b)[i] != (a + b)[j]
    {
      if i < |a| && j >= |a| {
        assert a[i] in a && b[j - |a|] in b;
      }
    }
  }

  lemma {:induction false} TraverseDistinct<D>(isa: Isa, t: Tree<D>, target: nat)
    requires PlainNames(t)
    ensures NoRepeats(Traverse(isa, t, target))
    decreases t, 2
  {
    if t.Conf? && !isa(t.cls, target) {
      FieldsDistinct(isa, t, target, 0);
    }
  }

  lemma {:induction false} FieldsDistinct<D>(isa: Isa, t: Tree<D>, target: nat, i: nat)
    requires PlainNames(t) && t.Conf? && i <= |t.fields|
    ensures NoRepeats(InFields(isa, t, target, i))
    decreases t, 1, |t.fields| - i
  {
    if i < |t.fields| {
      assert t.fields[i].val < t.fields[i] < t;
      var k, ps := Name(t.fields[i].name), InValue(isa, t.fields[i].val, target);
      ValueDistinct(isa, t.fields[i].val, target);
      FieldsDistinct(isa, t, target, i + 1);
      BelowDistinct(k, ps);
      forall p | p in Below(k, ps)
        ensures p !in InFields(isa, t, target, i + 1)
      {
        InBelow(k, ps, p);
        FieldsAreTop(isa, t, target, i + 1, p);
      }
      JoinDistinct(Below(k, ps), InFields(isa, t, target, i + 1));
    }
  }

  lemma {:induction false} ValueDistinct<D>(isa: Isa, v: Tree<D>, target: nat)
    requires PlainNames(v)
    ensures NoRepeats(InValue(isa, v, target))
    decreases v, 3
  {
    if v.List? {
      ItemsDistinct(isa, v, target, 0);
    } else {
      TraverseDistinct(isa, v, target);
    }
  }

  lemma {:induction false} ItemsDistinct<D>(isa: Isa, v: Tree<D>, target: nat, i: nat)
    requires PlainNames(v) && v.List? && i <= |v.items|
    ensures NoRepeats(InItems(isa, v, target, i))
    decreases v, 1, |v.items| - i
  {
    if i < |v.items| {
      var ps := Traverse(isa, v.items[i], target);
      TraverseDistinct(isa, v.items[i], target);
      ItemsDistinct(isa, v, target, i + 1);
      BelowDistinct(Index(i), ps);
      forall p | p in Below(Index(i), ps)
        ensures p !in InItems(isa, v, target, i + 1)
      {
        InBelow(Index(i), ps, p);
        ItemsAreTop(isa, v, target, i + 1, p);
      }
      JoinDistinct(Below(Index(i), ps), InItems(isa, v, target, i + 1));
    }
  }
}
